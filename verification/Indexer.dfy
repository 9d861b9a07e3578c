/**
 The public event indexer: indexer/events.ts, with recordEvents of both stores.

 Passes read at least once, rows are deduplicated by a key, and the cursor is written
 last. The theorem is ExactlyOnce: whatever crashes between whichever writes, the rows
 are the chain's decodable events, in order, each once.
 */
module Indexer {
  import opened Wrappers

  type ChainId = nat
  type TxHash = nat

  /** A felt as text: what BigInt reads in it, or text it cannot read. */
  datatype Felt = Number(value: int) | Empty | Junk(text: string)

  /** The canonical spelling of a felt. An empty string reads as zero. */
  function Normalize(f: Felt): Felt {
    if f.Empty? then Number(0) else f
  }

  function NumberOf(fs: seq<Felt>, i: nat): Option<int> {
    if i >= |fs| then None
    else match fs[i]
      case Number(v) => Some(v)
      case Empty => Some(0)
      case Junk(_) => None
  }

  /** A reference, absent when the field is missing or the empty string. */
  function RefOf(fs: seq<Felt>, i: nat): Option<Felt> {
    if i >= |fs| || fs[i].Empty? then None else Some(Normalize(fs[i]))
  }

  datatype EventName =
    | CircleCreated | MemberJoined | CircleActivated | ContributionStateUpdated
    | PayoutAccountingPrepared | PayoutSettlementAuthorized

  datatype Status = Pending | OnTime | LateWithinGrace | MissedDefault | Unnamed(code: int)

  function StatusOf(code: int): Status {
    if code == 0 then Pending else if code == 1 then OnTime else if code == 2 then LateWithinGrace
    else if code == 3 then MissedDefault else Unnamed(code)
  }

  datatype RawEvent = RawEvent(keys: seq<Felt>, data: seq<Felt>, txHash: TxHash, block: Option<nat>)

  datatype Row = Row(
    chainId: ChainId, blockNumber: nat, txHash: TxHash, eventIndex: nat, eventName: EventName,
    circleId: Option<int>, round: Option<int>, memberRef: Option<Felt>, status: Option<Status>)

  /** One deployment of the indexer: its chain, its selectors, where it starts, how far a pass goes. */
  datatype Config = Config(chainId: ChainId, selectors: map<int, EventName>, startBlock: nat, batchSize: nat) {
    ghost predicate Valid() {
      batchSize >= 1
    }
  }

  function NameOf(cfg: Config, keys: seq<Felt>): Option<EventName> {
    var selector := Normalize(if keys == [] then Empty else keys[0]);
    if selector.Number? && selector.value in cfg.selectors then Some(cfg.selectors[selector.value]) else None
  }

  /** One raw event as a row. Unknown shapes are skipped. */
  function Decode(cfg: Config, e: RawEvent, index: nat): Option<Row> {
    var name :- NameOf(cfg, e.keys);
    var block :- e.block;
    var base := Row(cfg.chainId, block, e.txHash, index, name, NumberOf(e.keys, 1), None, None, None);
    if name == ContributionStateUpdated then
      var code := NumberOf(e.data, 2);
      Some(base.(round := NumberOf(e.data, 0), memberRef := RefOf(e.data, 1),
                 status := if code.None? then None else Some(StatusOf(code.value))))
    else if name == MemberJoined then Some(base.(memberRef := RefOf(e.data, 0)))
    else Some(base)
  }

  // --- The chain ---

  /** What getEvents answers for a block range. */
  function Range(log: seq<RawEvent>, from: int, to: int): seq<RawEvent> {
    if log == [] then []
    else
      var rest, e := Range(log[..|log| - 1], from, to), log[|log| - 1];
      if e.block.Some? && from <= e.block.value <= to then rest + [e] else rest
  }

  const PAGE: nat := 100

  /** One page of an answer and where the next one starts, None after the last. */
  function PageAt(es: seq<RawEvent>, start: nat): (p: (seq<RawEvent>, Option<nat>))
    requires start <= |es|
  {
    if start + PAGE < |es| then (es[start..start + PAGE], Some(start + PAGE)) else (es[start..], None)
  }

  /** The rows of a range. The index of an event restarts with each page. */
  function RowsOf(cfg: Config, es: seq<RawEvent>): seq<Row> {
    if es == [] then []
    else
      var n := |es| - 1;
      var r := Decode(cfg, es[n], n % PAGE);
      RowsOf(cfg, es[..n]) + if r.Some? then [r.value] else []
  }

  // --- The store ---

  predicate SameKey(a: Row, b: Row) {
    a.chainId == b.chainId && a.txHash == b.txHash && a.eventIndex == b.eventIndex
  }

  predicate Stored(rows: seq<Row>, e: Row) {
    exists i :: 0 <= i < |rows| && SameKey(rows[i], e)
  }

  function Recorded(rows: seq<Row>, events: seq<Row>): seq<Row> {
    if events == [] then rows
    else
      var before, e := Recorded(rows, events[..|events| - 1]), events[|events| - 1];
      if Stored(before, e) then before else before + [e]
  }

  datatype Progress = Progress(rows: seq<Row>, cursor: Option<int>)

  function From(cfg: Config, cursor: Option<int>): int {
    if cursor.None? then cfg.startBlock else cursor.value + 1
  }

  function Limit(cfg: Config, from: int, head: int): int {
    if head < from + cfg.batchSize - 1 then head else from + cfg.batchSize - 1
  }

  /** One pass that dies after `writes` of its writes: the rows one by one, then the cursor. */
  function Pass(cfg: Config, p: Progress, log: seq<RawEvent>, head: nat, writes: nat): Progress {
    var from := From(cfg, p.cursor);
    var to := Limit(cfg, from, head);
    if from > head then p
    else
      var events := RowsOf(cfg, Range(log, from, to));
      if writes <= |events| then p.(rows := Recorded(p.rows, events[..writes]))
      else Progress(Recorded(p.rows, events), Some(to))
  }

  class CircleIndexer {
    const cfg: Config
    var rows: seq<Row>
    var cursor: Option<int>

    constructor (cfg: Config)
      ensures this.cfg == cfg && rows == [] && cursor == None
    {
      this.cfg := cfg;
      rows, cursor := [], None;
    }

    /** Pages through a range, decoding as it goes. */
    method Read(log: seq<RawEvent>, from: int, to: int) returns (events: seq<Row>)
      ensures events == RowsOf(cfg, Range(log, from, to))
    {
      hide RowsOf, Range, Decode;
      var es := Range(log, from, to);
      events := [];
      RowsOfNone(cfg, es);
      var token: Option<nat> := Some(0);
      ghost var start: nat := 0;
      while token.Some?
        invariant start <= |es| && (token.Some? ==> token.value == start && start % PAGE == 0)
        invariant events == RowsOf(cfg, es[..start])
        invariant token.None? ==> start == |es|
        decreases if token.Some? then |es| - start + 1 else 0
      {
        var (page, next) := PageAt(es, token.value);
        for i := 0 to |page|
          invariant events == RowsOf(cfg, es[..start + i])
        {
          var row := Decode(cfg, page[i], i);
          IndexInPage(start, i);
          RowsOfMore(cfg, es, start + i);
          assert page[i] == es[start + i];
          if row.Some? {
            events := events + [row.value];
          }
        }
        start := start + |page|;
        token := next;
      }
      assert es[..start] == es;
    }

    /** Appends what is not there yet, one write at a time, up to a crash. */
    method Record(events: seq<Row>, writes: nat) returns (done: bool)
      modifies this`rows
      ensures done <==> writes > |events|
      ensures rows == Recorded(old(rows), if done then events else events[..writes])
    {
      var i := 0;
      while i < |events|
        invariant 0 <= i <= |events| && i <= writes
        invariant rows == Recorded(old(rows), events[..i])
      {
        if i == writes {
          return false;
        }
        var dup, present := false, rows;
        for j := 0 to |present|
          invariant rows == present && (dup <==> Stored(present[..j], events[i]))
        {
          assert present[..j + 1] == present[..j] + [present[j]];
          StoredMore(present[..j], present[j], events[i]);
          if SameKey(present[j], events[i]) {
            dup := true;
          }
        }
        assert present[..|present|] == present;
        assert events[..i + 1][..i] == events[..i];
        if !dup {
          rows := rows + [events[i]];
        }
        i := i + 1;
      }
      assert events[..i] == events;
      return i < writes;
    }

    method RunOnce(log: seq<RawEvent>, head: nat, writes: nat)
      modifies this
      ensures Progress(rows, cursor) == Pass(cfg, old(Progress(rows, cursor)), log, head, writes)
    {
      var from := From(cfg, cursor);
      var to := Limit(cfg, from, head);
      if from > head {
        return;
      }
      var events := Read(log, from, to);
      var done := Record(events, writes);
      if done {
        cursor := Some(to);
      }
    }
  }

  lemma IndexInPage(start: nat, i: nat)
    requires start % PAGE == 0 && i < PAGE
    ensures (start + i) % PAGE == i
  {
  }

  lemma RowsOfNone(cfg: Config, es: seq<RawEvent>)
    ensures RowsOf(cfg, es[..0]) == []
  {
  }

  lemma RowsOfMore(cfg: Config, es: seq<RawEvent>, k: nat)
    requires k < |es|
    ensures var r := Decode(cfg, es[k], k % PAGE);
            RowsOf(cfg, es[..k + 1]) == RowsOf(cfg, es[..k]) + if r.Some? then [r.value] else []
  {
    assert es[..k + 1][..k] == es[..k];
  }

  lemma StoredMore(rows: seq<Row>, r: Row, e: Row)
    ensures Stored(rows + [r], e) <==> Stored(rows, e) || SameKey(r, e)
  {
    if Stored(rows, e) {
      var i :| 0 <= i < |rows| && SameKey(rows[i], e);
      assert SameKey((rows + [r])[i], e);
    }
    if SameKey(r, e) {
      assert SameKey((rows + [r])[|rows|], e);
    }
  }
}
