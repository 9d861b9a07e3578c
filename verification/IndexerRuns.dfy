/** Exactly-once indexing over whole runs, with crashes between any two writes. */
module IndexerRuns {
  import opened Wrappers
  import opened Indexer

  // --- The chain, as the indexer may count on it ---

  predicate BlocksInOrder(log: seq<RawEvent>) {
    (forall i :: 0 <= i < |log| ==> log[i].block.Some?)
    && forall i, j :: 0 <= i < j < |log| ==> log[i].block.value <= log[j].block.value
  }

  predicate OneBlockEach(log: seq<RawEvent>) {
    forall i, j :: 0 <= i < j < |log| && log[i].txHash == log[j].txHash ==> log[i].block == log[j].block
  }

  predicate Indexed(cfg: Config, e: RawEvent) {
    Decode(cfg, e, 0).Some?
  }

  /** No two indexed events of one transaction lie a page apart, or several. */
  predicate KeysApart(cfg: Config, es: seq<RawEvent>) {
    forall i, j :: 0 <= i < j < |es| && es[i].txHash == es[j].txHash && Indexed(cfg, es[i]) && Indexed(cfg, es[j])
      ==> i % PAGE != j % PAGE
  }

  predicate LogOk(cfg: Config, log: seq<RawEvent>, head: nat) {
    BlocksInOrder(log) && OneBlockEach(log) && KeysApart(cfg, log)
    && forall i :: 0 <= i < |log| ==> log[i].block.value <= head
  }

  /** The chain only grows: what is new lies beyond the head seen before. */
  predicate Grows(log: seq<RawEvent>, head: nat, log': seq<RawEvent>, head': nat) {
    log <= log' && head <= head'
    && forall i :: |log| <= i < |log'| ==> log'[i].block.Some? && log'[i].block.value > head
  }

  // --- Rows without their index: the facts of an event ---

  function Fact(r: Row): Row {
    r.(eventIndex := 0)
  }

  function Facts(rows: seq<Row>): (fs: seq<Row>)
    ensures |fs| == |rows| && forall i :: 0 <= i < |fs| ==> fs[i] == Fact(rows[i])
  {
    seq(|rows|, i requires 0 <= i < |rows| => Fact(rows[i]))
  }

  /** The facts of the decodable events, in order. */
  function FactsOf(cfg: Config, es: seq<RawEvent>): seq<Row> {
    if es == [] then []
    else
      var rest, r := FactsOf(cfg, es[..|es| - 1]), Decode(cfg, es[|es| - 1], 0);
      if r.Some? then rest + [r.value] else rest
  }

  lemma DecodeIndex(cfg: Config, e: RawEvent, i: nat)
    ensures Decode(cfg, e, i).Some? <==> Decode(cfg, e, 0).Some?
    ensures Decode(cfg, e, i).Some? ==>
              var r := Decode(cfg, e, i).value;
              Fact(r) == Decode(cfg, e, 0).value && r.eventIndex == i && r.txHash == e.txHash
              && r.chainId == cfg.chainId && e.block == Some(r.blockNumber)
  {
  }

  /** An empty felt reads as zero wherever a number is read. */
  lemma EmptyReadsAsZero(cfg: Config, e: RawEvent, i: nat, index: nat)
    requires i < |e.keys| && e.keys[i] == Empty
    ensures Decode(cfg, e.(keys := e.keys[i := Number(0)]), index) == Decode(cfg, e, index)
    ensures NumberOf(e.keys, i) == Some(0) && Normalize(Empty) == Number(0)
  {
  }

  // --- Which rows there are ---

  function CodeOf(status: Status): int {
    match status
    case Pending => 0
    case OnTime => 1
    case LateWithinGrace => 2
    case MissedDefault => 3
    case Unnamed(code) => code
  }

  /** The rows an event can leave: what its name carries, references normalised, named codes named. */
  predicate CanBeRow(cfg: Config, r: Row) {
    && r.chainId == cfg.chainId && r.memberRef != Some(Empty)
    && (r.status.Some? ==> StatusOf(CodeOf(r.status.value)) == r.status.value)
    && (r.eventName != ContributionStateUpdated ==> r.round.None? && r.status.None?)
    && (r.eventName != ContributionStateUpdated && r.eventName != MemberJoined ==> r.memberRef.None?)
  }

  /** A field with no readable number in it, or the number. */
  function FieldOf(v: Option<int>): Felt {
    if v.None? then Junk("?") else Number(v.value)
  }

  function MemberField(r: Row): Felt {
    if r.memberRef.None? then Empty else r.memberRef.value
  }

  /** The event of a row, its data in the order the contract emits it. */
  function EventOf(selector: int, r: Row): RawEvent {
    var member := MemberField(r);
    var code := if r.status.None? then None else Some(CodeOf(r.status.value));
    RawEvent([Number(selector), FieldOf(r.circleId)],
             if r.eventName == ContributionStateUpdated then [FieldOf(r.round), member, FieldOf(code)] else [member],
             r.txHash, Some(r.blockNumber))
  }

  /** Decoding undoes writing an event down, fields that cannot be read included. */
  lemma DecodeReads(cfg: Config, selector: int, r: Row)
    requires CanBeRow(cfg, r) && selector in cfg.selectors && cfg.selectors[selector] == r.eventName
    ensures Decode(cfg, EventOf(selector, r), r.eventIndex) == Some(r)
  {
    var e := EventOf(selector, r);
    assert NumberOf(e.keys, 1) == r.circleId;
    assert RefOf([MemberField(r)], 0) == r.memberRef;
  }

  /** A row is what some event decodes to exactly when its name is indexed and it can be a row. */
  lemma RowsAreExactly(cfg: Config, r: Row)
    ensures (exists e :: Decode(cfg, e, r.eventIndex) == Some(r))
       <==> CanBeRow(cfg, r) && exists selector :: selector in cfg.selectors && cfg.selectors[selector] == r.eventName
  {
    if e :| Decode(cfg, e, r.eventIndex) == Some(r) {
      var selector := Normalize(if e.keys == [] then Empty else e.keys[0]).value;
      assert selector in cfg.selectors && cfg.selectors[selector] == r.eventName;
    }
    if selector :| CanBeRow(cfg, r) && selector in cfg.selectors && cfg.selectors[selector] == r.eventName {
      DecodeReads(cfg, selector, r);
    }
  }

  lemma {:induction false} FactsOfRows(cfg: Config, es: seq<RawEvent>)
    ensures Facts(RowsOf(cfg, es)) == FactsOf(cfg, es)
  {
    hide Decode;
    if es != [] {
      var n := |es| - 1;
      FactsOfRows(cfg, es[..n]);
      DecodeIndex(cfg, es[n], n % PAGE);
    }
  }

  lemma {:induction false} FactsConcat(cfg: Config, a: seq<RawEvent>, b: seq<RawEvent>)
    ensures FactsOf(cfg, a + b) == FactsOf(cfg, a) + FactsOf(cfg, b)
  {
    hide Decode;
    if b == [] {
      assert a + b == a;
    } else {
      FactsConcat(cfg, a, b[..|b| - 1]);
      assert (a + b)[..|a + b| - 1] == a + b[..|b| - 1];
    }
  }

  lemma {:induction false} RowsPrefix(cfg: Config, a: seq<RawEvent>, b: seq<RawEvent>)
    ensures RowsOf(cfg, a) <= RowsOf(cfg, a + b)
  {
    hide Decode;
    if b == [] {
      assert a + b == a;
    } else {
      RowsPrefix(cfg, a, b[..|b| - 1]);
      assert (a + b)[..|a + b| - 1] == a + b[..|b| - 1];
    }
  }

  /** Where a row, or a fact, comes from. */
  lemma {:induction false} RowSource(cfg: Config, es: seq<RawEvent>, i: nat) returns (p: nat)
    requires i < |RowsOf(cfg, es)|
    ensures p < |es| && Decode(cfg, es[p], p % PAGE) == Some(RowsOf(cfg, es)[i])
  {
    hide Decode;
    var n := |es| - 1;
    if i < |RowsOf(cfg, es[..n])| {
      p := RowSource(cfg, es[..n], i);
      assert es[..n][p] == es[p];
    } else {
      p := n;
    }
  }

  lemma {:induction false} FactSource(cfg: Config, es: seq<RawEvent>, i: nat) returns (p: nat)
    requires i < |FactsOf(cfg, es)|
    ensures p < |es| && Decode(cfg, es[p], 0) == Some(FactsOf(cfg, es)[i])
  {
    hide Decode;
    var n := |es| - 1;
    if i < |FactsOf(cfg, es[..n])| {
      p := FactSource(cfg, es[..n], i);
      assert es[..n][p] == es[p];
    } else {
      p := n;
    }
  }

  // --- Ranges ---

  lemma {:induction false} RangeConcat(x: seq<RawEvent>, y: seq<RawEvent>, from: int, to: int)
    ensures Range(x + y, from, to) == Range(x, from, to) + Range(y, from, to)
  {
    if y == [] {
      assert x + y == x;
    } else {
      RangeConcat(x, y[..|y| - 1], from, to);
      assert (x + y)[..|x + y| - 1] == x + y[..|y| - 1];
    }
  }

  lemma {:induction false} RangeOutside(log: seq<RawEvent>, from: int, to: int)
    requires forall i :: 0 <= i < |log| ==> log[i].block.Some? && !(from <= log[i].block.value <= to)
    ensures Range(log, from, to) == []
  {
    if log != [] {
      RangeOutside(log[..|log| - 1], from, to);
    }
  }

  lemma {:induction false} RangeInside(log: seq<RawEvent>, from: int, to: int)
    requires forall i :: 0 <= i < |log| ==> log[i].block.Some? && from <= log[i].block.value <= to
    ensures Range(log, from, to) == log
  {
    if log != [] {
      RangeInside(log[..|log| - 1], from, to);
    }
  }

  /** A block range of an ordered log is a slice of it. */
  lemma RangeIsSlice(log: seq<RawEvent>, from: int, to: int) returns (a: nat, b: nat)
    requires BlocksInOrder(log)
    ensures a <= b <= |log| && Range(log, from, to) == log[a..b]
    ensures forall i :: a <= i < b ==> from <= log[i].block.value <= to
  {
    a := 0;
    while a < |log| && log[a].block.value < from
      invariant a <= |log| && forall i :: 0 <= i < a ==> log[i].block.value < from
    {
      a := a + 1;
    }
    b := a;
    while b < |log| && log[b].block.value <= to
      invariant a <= b <= |log| && forall i :: a <= i < b ==> from <= log[i].block.value <= to
    {
      b := b + 1;
    }
    SliceIsRange(log, from, to, a, b);
  }

  lemma SliceIsRange(log: seq<RawEvent>, from: int, to: int, a: nat, b: nat)
    requires BlocksInOrder(log) && a <= b <= |log|
    requires forall i :: 0 <= i < a ==> log[i].block.value < from
    requires forall i :: a <= i < b ==> from <= log[i].block.value <= to
    requires b < |log| ==> log[b].block.value > to
    ensures Range(log, from, to) == log[a..b]
  {
    hide Range;
    TailOutside(log, from, to, b);
    RangeOutside(log[..a], from, to);
    RangeInside(log[a..b], from, to);
    ThreePieces(log, a, b);
    MiddleOnly(log[..a], log[a..b], log[b..], from, to);
  }

  lemma ThreePieces(log: seq<RawEvent>, a: nat, b: nat)
    requires a <= b <= |log|
    ensures log == log[..a] + log[a..b] + log[b..]
  {
  }

  lemma MiddleOnly(x: seq<RawEvent>, y: seq<RawEvent>, z: seq<RawEvent>, from: int, to: int)
    requires Range(x, from, to) == [] && Range(y, from, to) == y && Range(z, from, to) == []
    ensures Range(x + y + z, from, to) == y
  {
    hide Range;
    RangeConcat(x + y, z, from, to);
    RangeConcat(x, y, from, to);
  }

  lemma TailOutside(log: seq<RawEvent>, from: int, to: int, b: nat)
    requires BlocksInOrder(log) && b <= |log| && (b < |log| ==> log[b].block.value > to)
    ensures Range(log[b..], from, to) == []
    ensures forall i :: 0 <= i < |log| ==> log[i].block.Some?
  {
    hide Range;
    forall i | b <= i < |log|
      ensures log[i].block.value > to
    {
      assert b < i ==> log[b].block.value <= log[i].block.value;
    }
    RangeOutside(log[b..], from, to);
  }

  lemma RangeApart(cfg: Config, log: seq<RawEvent>, from: int, to: int)
    requires BlocksInOrder(log) && KeysApart(cfg, log)
    ensures KeysApart(cfg, Range(log, from, to))
  {
    hide Indexed, Range, BlocksInOrder;
    var a, b := RangeIsSlice(log, from, to);
    var es := log[a..b];
    forall i, j | 0 <= i < j < |es| && es[i].txHash == es[j].txHash && Indexed(cfg, es[i]) && Indexed(cfg, es[j])
      ensures i % PAGE != j % PAGE
    {
      assert es[i] == log[a + i] && es[j] == log[a + j];
      Shifted(a, i, j);
    }
  }

  lemma Shifted(a: nat, i: nat, j: nat)
    ensures i % PAGE == j % PAGE <==> (a + i) % PAGE == (a + j) % PAGE
  {
  }

  lemma {:induction false} RangeSplit(log: seq<RawEvent>, a: int, b: int, c: int)
    requires BlocksInOrder(log) && a <= b + 1 && b <= c
    ensures Range(log, a, c) == Range(log, a, b) + Range(log, b + 1, c)
  {
    if log != [] {
      var n := |log| - 1;
      RangeSplit(log[..n], a, b, c);
      if log[n].block.value <= b {
        RangeOutside(log[..n], b + 1, c);
      }
    }
  }

  lemma {:induction false} RangeGrown(log: seq<RawEvent>, head: nat, log': seq<RawEvent>, head': nat,
                                      from: int, to: int)
    requires Grows(log, head, log', head') && to <= head
    ensures Range(log', from, to) == Range(log, from, to)
    decreases |log'|
  {
    if |log'| == |log| {
      assert log' == log;
    } else {
      var n := |log'| - 1;
      assert log'[..n][..|log|] == log'[..|log|];
      RangeGrown(log, head, log'[..n], head', from, to);
    }
  }

  lemma RangeEmpty(log: seq<RawEvent>, from: int, to: int)
    requires to < from
    ensures Range(log, from, to) == []
  {
    if log != [] {
      RangeEmpty(log[..|log| - 1], from, to);
    }
  }

  // --- Keys ---

  predicate KeysDistinct(rows: seq<Row>) {
    forall i, j :: 0 <= i < j < |rows| ==> !SameKey(rows[i], rows[j])
  }

  /** The row of an indexed event is there. */
  lemma {:induction false} RowOf(cfg: Config, es: seq<RawEvent>, p: nat) returns (i: nat)
    requires p < |es| && Indexed(cfg, es[p])
    ensures i < |RowsOf(cfg, es)| && Decode(cfg, es[p], p % PAGE) == Some(RowsOf(cfg, es)[i])
  {
    hide Decode;
    var n := |es| - 1;
    DecodeIndex(cfg, es[p], p % PAGE);
    if p < n {
      i := RowOf(cfg, es[..n], p);
    } else {
      i := |RowsOf(cfg, es[..n])|;
    }
  }

  /** Two rows have one key exactly when their events are of one transaction and one place. */
  lemma KeyOfEvent(cfg: Config, a: RawEvent, b: RawEvent, i: nat, j: nat)
    requires Decode(cfg, a, i).Some? && Decode(cfg, b, j).Some?
    ensures SameKey(Decode(cfg, a, i).value, Decode(cfg, b, j).value) <==> a.txHash == b.txHash && i == j
  {
  }

  lemma {:induction false} ApartThenDistinct(cfg: Config, es: seq<RawEvent>)
    requires KeysApart(cfg, es)
    ensures KeysDistinct(RowsOf(cfg, es))
  {
    hide Decode;
    if es != [] {
      var n := |es| - 1;
      var front := RowsOf(cfg, es[..n]);
      ApartThenDistinct(cfg, es[..n]);
      var r := Decode(cfg, es[n], n % PAGE);
      if r.Some? {
        DecodeIndex(cfg, es[n], n % PAGE);
        forall i | 0 <= i < |front|
          ensures !SameKey(front[i], r.value)
        {
          var p := RowSource(cfg, es[..n], i);
          assert es[..n][p] == es[p];
          DecodeIndex(cfg, es[p], p % PAGE);
          KeyOfEvent(cfg, es[p], es[n], p % PAGE, n % PAGE);
        }
      }
    }
  }

  lemma SharedKey(rows: seq<Row>, i: nat, k: nat)
    requires i < k < |rows| && SameKey(rows[i], rows[k])
    ensures !KeysDistinct(rows)
  {
  }

  lemma TogetherThenShared(cfg: Config, es: seq<RawEvent>, p: nat, q: nat)
    requires p < q < |es| && es[p].txHash == es[q].txHash && p % PAGE == q % PAGE
    requires Indexed(cfg, es[p]) && Indexed(cfg, es[q])
    ensures !KeysDistinct(RowsOf(cfg, es))
  {
    hide Decode, SameKey, RowsOf;
    var i := RowOf(cfg, es[..q], p);
    assert es[..q][p] == es[p];
    RowsOfMore(cfg, es, q);
    RowsPrefix(cfg, es[..q + 1], es[q + 1..]);
    assert es[..q + 1] + es[q + 1..] == es;
    DecodeIndex(cfg, es[q], q % PAGE);
    KeyOfEvent(cfg, es[p], es[q], p % PAGE, q % PAGE);
    SharedKey(RowsOf(cfg, es), i, |RowsOf(cfg, es[..q])|);
  }

  /** Page-relative indices tell the rows apart exactly when they tell the events apart. */
  lemma RowsDistinct(cfg: Config, es: seq<RawEvent>)
    ensures KeysDistinct(RowsOf(cfg, es)) <==> KeysApart(cfg, es)
  {
    if KeysApart(cfg, es) {
      ApartThenDistinct(cfg, es);
    } else {
      hide Decode;
      var i, j :| 0 <= i < j < |es| && es[i].txHash == es[j].txHash && Indexed(cfg, es[i]) && Indexed(cfg, es[j])
                  && i % PAGE == j % PAGE;
      TogetherThenShared(cfg, es, i, j);
    }
  }

  lemma {:induction false} RecordedDistinct(rows: seq<Row>, es: seq<Row>)
    requires KeysDistinct(rows)
    ensures KeysDistinct(Recorded(rows, es))
  {
    if es != [] {
      RecordedDistinct(rows, es[..|es| - 1]);
    }
  }

  function Max(a: nat, b: nat): nat {
    if a < b then b else a
  }

  lemma StoredConcat(a: seq<Row>, b: seq<Row>, e: Row)
    ensures Stored(a + b, e) <==> Stored(a, e) || Stored(b, e)
  {
    if Stored(a, e) {
      var i :| 0 <= i < |a| && SameKey(a[i], e);
      assert SameKey((a + b)[i], e);
    }
    if Stored(b, e) {
      var i :| 0 <= i < |b| && SameKey(b[i], e);
      assert SameKey((a + b)[|a| + i], e);
    }
  }

  lemma StoredEarlier(batch: seq<Row>, k: nat, j: nat)
    requires k < |batch| && j <= |batch| && KeysDistinct(batch)
    ensures Stored(batch[..j], batch[k]) <==> k < j
  {
    if k < j {
      assert SameKey(batch[..j][k], batch[k]);
    }
  }

  /** Nothing in the batch is stored yet, as far as the settled rows go. */
  predicate Apart(done: seq<Row>, batch: seq<Row>) {
    forall i :: 0 <= i < |batch| ==> !Stored(done, batch[i])
  }

  /** Recording a batch again, from wherever the last attempt died, completes it. */
  lemma {:induction false} RecordedResume(done: seq<Row>, batch: seq<Row>, j: nat, n: nat)
    requires j <= |batch| && n <= |batch| && KeysDistinct(batch)
    requires Apart(done, batch)
    ensures Recorded(done + batch[..j], batch[..n]) == done + batch[..Max(j, n)]
  {
    hide Stored, KeysDistinct;
    if n > 0 {
      RecordedResume(done, batch, j, n - 1);
      assert batch[..n][..n - 1] == batch[..n - 1];
      var k := Max(j, n - 1);
      StoredConcat(done, batch[..k], batch[n - 1]);
      StoredEarlier(batch, n - 1, k);
      assert n - 1 == k ==> done + batch[..k] + [batch[n - 1]] == done + batch[..n];
    }
  }

  // --- Invariant ---

  /** Everything before the block to read next is stored; then comes a part of the batch in progress. */
  predicate Inv(cfg: Config, p: Progress, log: seq<RawEvent>, head: nat) {
    var from := From(cfg, p.cursor);
    var settled := FactsOf(cfg, Range(log, cfg.startBlock, from - 1));
    var batch := RowsOf(cfg, Range(log, from, Limit(cfg, from, head)));
    (p.cursor.Some? ==> cfg.startBlock <= p.cursor.value <= head)
    && |settled| <= |p.rows| && Facts(p.rows[..|settled|]) == settled && p.rows[|settled|..] <= batch
  }

  lemma InvGrows(cfg: Config, p: Progress, log: seq<RawEvent>, head: nat, log': seq<RawEvent>, head': nat)
    requires Inv(cfg, p, log, head) && BlocksInOrder(log') && Grows(log, head, log', head')
    ensures Inv(cfg, p, log', head')
  {
    hide FactsOf, RowsOf, Facts, Range;
    var from := From(cfg, p.cursor);
    var l, l' := Limit(cfg, from, head), Limit(cfg, from, head');
    if from - 1 <= head {
      RangeGrown(log, head, log', head', cfg.startBlock, from - 1);
    } else {
      RangeEmpty(log, cfg.startBlock, from - 1);
      RangeEmpty(log', cfg.startBlock, from - 1);
    }
    RangeGrown(log, head, log', head', from, l);
    if from <= l + 1 {
      RangeSplit(log', from, l, l');
      RowsPrefix(cfg, Range(log', from, l), Range(log', l + 1, l'));
    } else {
      RangeEmpty(log', from, l);
      RowsPrefix(cfg, [], Range(log', from, l'));
      assert [] + Range(log', from, l') == Range(log', from, l');
    }
  }

  /** Nothing that is settled shares a key with the batch: its transactions lie in other blocks. */
  lemma SettledApart(cfg: Config, p: Progress, log: seq<RawEvent>, head: nat)
    requires Inv(cfg, p, log, head) && BlocksInOrder(log) && OneBlockEach(log)
    ensures var from := From(cfg, p.cursor);
            var m := |FactsOf(cfg, Range(log, cfg.startBlock, from - 1))|;
            var batch := RowsOf(cfg, Range(log, from, Limit(cfg, from, head)));
            Apart(p.rows[..m], batch)
  {
    hide FactsOf, RowsOf, Decode, Range;
    var from := From(cfg, p.cursor);
    var before, now := Range(log, cfg.startBlock, from - 1), Range(log, from, Limit(cfg, from, head));
    var settled, batch := FactsOf(cfg, before), RowsOf(cfg, now);
    var a, b := RangeIsSlice(log, cfg.startBlock, from - 1);
    var c, d := RangeIsSlice(log, from, Limit(cfg, from, head));
    forall i, k | 0 <= i < |batch| && 0 <= k < |settled|
      ensures !SameKey(p.rows[k], batch[i])
    {
      var q := RowSource(cfg, now, i);
      DecodeIndex(cfg, now[q], q % PAGE);
      var r := FactSource(cfg, before, k);
      DecodeIndex(cfg, before[r], 0);
      assert Facts(p.rows[..|settled|])[k] == Fact(p.rows[k]);
      assert log[a + r].block.value < from <= log[c + q].block.value;
    }
  }

  lemma InvPass(cfg: Config, p: Progress, log: seq<RawEvent>, head: nat, writes: nat)
    requires cfg.Valid() && Inv(cfg, p, log, head) && LogOk(cfg, log, head)
    ensures Inv(cfg, Pass(cfg, p, log, head, writes), log, head)
  {
    hide FactsOf, RowsOf, Range, Apart, Recorded;
    var from := From(cfg, p.cursor);
    if from <= head {
      var to := Limit(cfg, from, head);
      var settled, batch := FactsOf(cfg, Range(log, cfg.startBlock, from - 1)), RowsOf(cfg, Range(log, from, to));
      var m, j := |settled|, |p.rows| - |settled|;
      SettledApart(cfg, p, log, head);
      RangeApart(cfg, log, from, to);
      RowsDistinct(cfg, Range(log, from, to));
      assert p.rows == p.rows[..m] + batch[..j];
      var n := if writes <= |batch| then writes else |batch|;
      RecordedResume(p.rows[..m], batch, j, n);
      assert batch[..|batch|] == batch;
      var rows := Recorded(p.rows, batch[..n]);
      assert rows == p.rows[..m] + batch[..Max(j, n)];
      if writes <= |batch| {
        assert rows[..m] == p.rows[..m] && rows[m..] == batch[..Max(j, n)];
      } else {
        InvCommit(cfg, p.rows[..m], log, head, from);
      }
    }
  }

  lemma BatchSettled(cfg: Config, done: seq<Row>, log: seq<RawEvent>, head: nat, from: int)
    requires cfg.Valid() && BlocksInOrder(log) && cfg.startBlock <= from <= head
    requires Facts(done) == FactsOf(cfg, Range(log, cfg.startBlock, from - 1))
    ensures var to := Limit(cfg, from, head);
            Facts(done + RowsOf(cfg, Range(log, from, to))) == FactsOf(cfg, Range(log, cfg.startBlock, to))
  {
    hide FactsOf, RowsOf, Range;
    var to := Limit(cfg, from, head);
    var batch := RowsOf(cfg, Range(log, from, to));
    RangeSplit(log, cfg.startBlock, from - 1, to);
    FactsConcat(cfg, Range(log, cfg.startBlock, from - 1), Range(log, from, to));
    FactsOfRows(cfg, Range(log, from, to));
    assert Facts(done + batch) == Facts(done) + Facts(batch);
  }

  /** With a whole batch behind the settled rows, everything up to its last block is settled. */
  lemma InvCommit(cfg: Config, done: seq<Row>, log: seq<RawEvent>, head: nat, from: int)
    requires cfg.Valid() && BlocksInOrder(log) && cfg.startBlock <= from <= head
    requires Facts(done) == FactsOf(cfg, Range(log, cfg.startBlock, from - 1))
    ensures var to := Limit(cfg, from, head);
            Inv(cfg, Progress(done + RowsOf(cfg, Range(log, from, to)), Some(to)), log, head)
  {
    hide FactsOf, RowsOf, Range;
    BatchSettled(cfg, done, log, head, from);
    var rows := done + RowsOf(cfg, Range(log, from, Limit(cfg, from, head)));
    assert rows[..|rows|] == rows && rows[|rows|..] == [];
  }

  // --- Runs ---

  /** One pass of a run: the chain it saw and how many writes it lived for. */
  datatype Attempt = Attempt(log: seq<RawEvent>, head: nat, writes: nat)

  function After(cfg: Config, run: seq<Attempt>): Progress {
    if run == [] then Progress([], None)
    else
      var a := run[|run| - 1];
      Pass(cfg, After(cfg, run[..|run| - 1]), a.log, a.head, a.writes)
  }

  predicate Run(cfg: Config, run: seq<Attempt>) {
    (forall i :: 0 <= i < |run| ==> LogOk(cfg, run[i].log, run[i].head))
    && forall i :: 0 < i < |run| ==> Grows(run[i - 1].log, run[i - 1].head, run[i].log, run[i].head)
  }

  lemma {:induction false} InvAfter(cfg: Config, run: seq<Attempt>)
    requires cfg.Valid() && Run(cfg, run) && run != []
    ensures var a := run[|run| - 1]; Inv(cfg, After(cfg, run), a.log, a.head)
  {
    hide Pass, Inv, LogOk, Grows;
    var past, a := run[..|run| - 1], run[|run| - 1];
    if past == [] {
      InvStart(cfg, a.log, a.head);
    } else {
      InvAfter(cfg, past);
      var b := past[|past| - 1];
      assert Grows(run[|run| - 2].log, run[|run| - 2].head, run[|run| - 1].log, run[|run| - 1].head);
      OrderOf(cfg, a.log, a.head);
      InvGrows(cfg, After(cfg, past), b.log, b.head, a.log, a.head);
    }
    InvPass(cfg, After(cfg, past), a.log, a.head, a.writes);
  }

  lemma OrderOf(cfg: Config, log: seq<RawEvent>, head: nat)
    requires LogOk(cfg, log, head)
    ensures BlocksInOrder(log)
  {
  }

  lemma InvStart(cfg: Config, log: seq<RawEvent>, head: nat)
    ensures Inv(cfg, Progress([], None), log, head)
  {
    RangeEmpty(log, cfg.startBlock, cfg.startBlock - 1);
  }

  // --- Main results ---

  /**
   After any run, the rows are the decodable events of the chain from the start block,
   in order, each exactly once, at least up to the cursor. No two rows share a key,
   and the cursor lies between the start block and the head.
   */
  lemma ExactlyOnce(cfg: Config, run: seq<Attempt>)
    requires cfg.Valid() && Run(cfg, run) && run != []
    ensures var p, a := After(cfg, run), run[|run| - 1];
            var all := FactsOf(cfg, Range(a.log, cfg.startBlock, a.head));
            var settled := FactsOf(cfg, Range(a.log, cfg.startBlock, From(cfg, p.cursor) - 1));
            |settled| <= |p.rows| <= |all| && settled <= Facts(p.rows) <= all && KeysDistinct(p.rows)
            && (p.cursor.Some? ==> cfg.startBlock <= p.cursor.value <= a.head)
  {
    hide Pass, Inv, LogOk, After;
    var a := run[|run| - 1];
    InvAfter(cfg, run);
    OrderOf(cfg, a.log, a.head);
    DistinctAfter(cfg, run);
    InvMeans(cfg, After(cfg, run), a.log, a.head);
  }

  /** What the invariant says about the stored facts. */
  lemma InvMeans(cfg: Config, p: Progress, log: seq<RawEvent>, head: nat)
    requires Inv(cfg, p, log, head) && BlocksInOrder(log)
    ensures var all := FactsOf(cfg, Range(log, cfg.startBlock, head));
            var settled := FactsOf(cfg, Range(log, cfg.startBlock, From(cfg, p.cursor) - 1));
            |settled| <= |p.rows| <= |all| && settled <= Facts(p.rows) <= all
            && (p.cursor.Some? ==> cfg.startBlock <= p.cursor.value <= head)
  {
    hide Range, FactsOf, RowsOf, Facts;
    var from, start := From(cfg, p.cursor), cfg.startBlock;
    var to := Limit(cfg, from, head);
    var settled, batch := FactsOf(cfg, Range(log, start, from - 1)), RowsOf(cfg, Range(log, from, to));
    var m := |settled|;
    FactsSplit(p.rows, m);
    FactsOfRows(cfg, Range(log, from, to));
    FactsOfPrefix(p.rows[m..], batch);
    FactsReach(cfg, log, head, from);
    assert settled + Facts(p.rows[m..]) <= settled + FactsOf(cfg, Range(log, from, to));
  }

  /** What is settled, and the batch behind it, are a prefix of what there is to read. */
  lemma FactsReach(cfg: Config, log: seq<RawEvent>, head: nat, from: int)
    requires BlocksInOrder(log) && cfg.startBlock <= from
    requires from == cfg.startBlock || from <= head + 1
    ensures FactsOf(cfg, Range(log, cfg.startBlock, from - 1)) + FactsOf(cfg, Range(log, from, Limit(cfg, from, head)))
            <= FactsOf(cfg, Range(log, cfg.startBlock, head))
  {
    hide Range, FactsOf;
    var start, to := cfg.startBlock, Limit(cfg, from, head);
    if from <= head {
      RangeSplit(log, start, from - 1, head);
      FactsConcat(cfg, Range(log, start, from - 1), Range(log, from, head));
      BatchReach(cfg, log, from, to, head);
    } else {
      RangeEmpty(log, from, to);
      NothingFacts(cfg);
      NoFacts(cfg, log, start, from - 1, head);
    }
  }

  lemma BatchReach(cfg: Config, log: seq<RawEvent>, from: int, to: int, head: int)
    requires BlocksInOrder(log) && to <= head
    ensures FactsOf(cfg, Range(log, from, to)) <= FactsOf(cfg, Range(log, from, head))
  {
    hide Range, FactsOf;
    if from <= to + 1 {
      RangeSplit(log, from, to, head);
      FactsConcat(cfg, Range(log, from, to), Range(log, to + 1, head));
    } else {
      RangeEmpty(log, from, to);
      NothingFacts(cfg);
    }
  }

  lemma NothingFacts(cfg: Config)
    ensures FactsOf(cfg, []) == []
  {
  }

  lemma FactsSplit(rows: seq<Row>, m: nat)
    requires m <= |rows|
    ensures Facts(rows) == Facts(rows[..m]) + Facts(rows[m..])
  {
  }

  lemma FactsOfPrefix(a: seq<Row>, b: seq<Row>)
    requires a <= b
    ensures Facts(a) <= Facts(b)
  {
  }

  lemma NoFacts(cfg: Config, log: seq<RawEvent>, start: int, last: int, head: nat)
    requires last == head || last == start - 1
    ensures FactsOf(cfg, Range(log, start, last)) <= FactsOf(cfg, Range(log, start, head))
  {
    if last == start - 1 {
      RangeEmpty(log, start, last);
    }
  }

  lemma {:induction false} DistinctAfter(cfg: Config, run: seq<Attempt>)
    ensures KeysDistinct(After(cfg, run).rows)
  {
    hide Recorded, RowsOf, Range;
    if run != [] {
      DistinctAfter(cfg, run[..|run| - 1]);
      var p, a := After(cfg, run[..|run| - 1]), run[|run| - 1];
      var from := From(cfg, p.cursor);
      var events := RowsOf(cfg, Range(a.log, from, Limit(cfg, from, a.head)));
      RecordedDistinct(p.rows, events);
      if a.writes <= |events| {
        RecordedDistinct(p.rows, events[..a.writes]);
      }
    }
  }

  lemma PassAdvances(cfg: Config, p: Progress, log: seq<RawEvent>, head: nat, writes: nat)
    requires cfg.Valid() && p.cursor.Some?
    ensures var q := Pass(cfg, p, log, head, writes); q.cursor.Some? && q.cursor.value >= p.cursor.value
  {
  }

  /** Between two points of a run the cursor never goes back. */
  lemma {:induction false} CursorAdvances(cfg: Config, run: seq<Attempt>, i: nat, j: nat)
    requires cfg.Valid() && i <= j <= |run| && After(cfg, run[..i]).cursor.Some?
    ensures After(cfg, run[..j]).cursor.Some?
    ensures After(cfg, run[..j]).cursor.value >= After(cfg, run[..i]).cursor.value
    decreases j
  {
    hide Pass;
    if i < j {
      CursorAdvances(cfg, run, i, j - 1);
      var a := run[j - 1];
      assert run[..j][..j - 1] == run[..j - 1] && run[..j][j - 1] == a;
      PassAdvances(cfg, After(cfg, run[..j - 1]), a.log, a.head, a.writes);
    }
  }

  // --- Every block is reached ---

  /** The pass lives through all its writes, the cursor's included. */
  predicate Survives(cfg: Config, p: Progress, a: Attempt) {
    var from := From(cfg, p.cursor);
    a.writes > |RowsOf(cfg, Range(a.log, from, Limit(cfg, from, a.head)))|
  }

  /**
   A pass that lives and has a block to read leaves the cursor a batch further, or at
   the head if that comes first, with exactly the facts up to there stored.
   */
  lemma PassCompletes(cfg: Config, p: Progress, a: Attempt)
    requires cfg.Valid() && Inv(cfg, p, a.log, a.head) && LogOk(cfg, a.log, a.head)
    requires From(cfg, p.cursor) <= a.head && Survives(cfg, p, a)
    ensures var q, reach := Pass(cfg, p, a.log, a.head, a.writes), From(cfg, p.cursor) - 1 + cfg.batchSize;
            q.cursor == Some(if reach < a.head then reach else a.head)
            && Facts(q.rows) == FactsOf(cfg, Range(a.log, cfg.startBlock, q.cursor.value))
  {
    hide FactsOf, RowsOf, Range, Apart, Recorded;
    var from := From(cfg, p.cursor);
    var to := Limit(cfg, from, a.head);
    var settled := FactsOf(cfg, Range(a.log, cfg.startBlock, from - 1));
    var batch := RowsOf(cfg, Range(a.log, from, to));
    var m, j := |settled|, |p.rows| - |settled|;
    SettledApart(cfg, p, a.log, a.head);
    RangeApart(cfg, a.log, from, to);
    RowsDistinct(cfg, Range(a.log, from, to));
    assert p.rows == p.rows[..m] + batch[..j];
    RecordedResume(p.rows[..m], batch, j, |batch|);
    assert batch[..|batch|] == batch;
    BatchSettled(cfg, p.rows[..m], a.log, a.head, from);
  }

  /** A pass that dies keeps what it wrote: the rows of its batch up to there, none lost, none twice, and the cursor. */
  lemma PassDies(cfg: Config, p: Progress, a: Attempt)
    requires cfg.Valid() && Inv(cfg, p, a.log, a.head) && LogOk(cfg, a.log, a.head)
    requires From(cfg, p.cursor) <= a.head && !Survives(cfg, p, a)
    ensures var q, from := Pass(cfg, p, a.log, a.head, a.writes), From(cfg, p.cursor);
            var m := |FactsOf(cfg, Range(a.log, cfg.startBlock, from - 1))|;
            q.cursor == p.cursor && |q.rows| == Max(|p.rows|, m + a.writes) && p.rows <= q.rows
            && q.rows[m..] <= RowsOf(cfg, Range(a.log, from, Limit(cfg, from, a.head)))
  {
    hide FactsOf, RowsOf, Range, Apart, Recorded;
    var from := From(cfg, p.cursor);
    var settled := FactsOf(cfg, Range(a.log, cfg.startBlock, from - 1));
    var batch := RowsOf(cfg, Range(a.log, from, Limit(cfg, from, a.head)));
    var m, j := |settled|, |p.rows| - |settled|;
    SettledApart(cfg, p, a.log, a.head);
    RangeApart(cfg, a.log, from, Limit(cfg, from, a.head));
    RowsDistinct(cfg, Range(a.log, from, Limit(cfg, from, a.head)));
    assert p.rows == p.rows[..m] + batch[..j];
    RecordedResume(p.rows[..m], batch, j, a.writes);
  }

  /** From the j-th pass on the chain stands still and every pass lives. */
  predicate Quiet(cfg: Config, run: seq<Attempt>, j: nat) {
    j < |run| && forall i :: j <= i < |run| ==>
      run[i].log == run[j].log && run[i].head == run[j].head && Survives(cfg, After(cfg, run[..i]), run[i])
  }

  /** The blocks n passes read from a block on. */
  function Reach(cfg: Config, from: int, n: nat): int {
    from + cfg.batchSize * n
  }

  /** After n living passes the next block is n batches on, or just beyond the head. */
  lemma {:induction false} QuietProgress(cfg: Config, run: seq<Attempt>, j: nat, n: nat)
    requires cfg.Valid() && Run(cfg, run) && Quiet(cfg, run, j) && j + n <= |run|
    requires From(cfg, After(cfg, run[..j]).cursor) <= run[j].head + 1
    ensures var reach := Reach(cfg, From(cfg, After(cfg, run[..j]).cursor), n);
            From(cfg, After(cfg, run[..j + n]).cursor) == if reach <= run[j].head then reach else run[j].head + 1
  {
    hide Pass, Inv, LogOk, Grows, After;
    if n == 0 {
      assert Reach(cfg, From(cfg, After(cfg, run[..j]).cursor), 0) == From(cfg, After(cfg, run[..j]).cursor);
    } else {
      QuietProgress(cfg, run, j, n - 1);
      var k := j + n - 1;
      assert run[..k + 1][..k] == run[..k];
      AfterNext(cfg, run, k);
      var p := After(cfg, run[..k]);
      ReachMore(cfg, From(cfg, After(cfg, run[..j]).cursor), n);
      InvBefore(cfg, run, k);
      if From(cfg, p.cursor) <= run[k].head {
        PassCompletes(cfg, p, run[k]);
      } else {
        NothingToRead(cfg, p, run[k]);
      }
    }
  }

  lemma ReachMore(cfg: Config, from: int, n: nat)
    requires n > 0
    ensures Reach(cfg, from, n) == Reach(cfg, from, n - 1) + cfg.batchSize
  {
  }

  lemma NothingToRead(cfg: Config, p: Progress, a: Attempt)
    requires From(cfg, p.cursor) > a.head
    ensures Pass(cfg, p, a.log, a.head, a.writes) == p
  {
  }

  lemma AfterNext(cfg: Config, run: seq<Attempt>, k: nat)
    requires k < |run|
    ensures After(cfg, run[..k + 1]) == Pass(cfg, After(cfg, run[..k]), run[k].log, run[k].head, run[k].writes)
  {
    assert run[..k + 1][..k] == run[..k];
  }

  /** The invariant holds of what a pass finds, on the chain that pass sees. */
  lemma InvBefore(cfg: Config, run: seq<Attempt>, k: nat)
    requires cfg.Valid() && Run(cfg, run) && k < |run|
    ensures Inv(cfg, After(cfg, run[..k]), run[k].log, run[k].head) && LogOk(cfg, run[k].log, run[k].head)
  {
    hide Pass, Inv, LogOk, Grows;
    if k == 0 {
      InvStart(cfg, run[0].log, run[0].head);
      assert run[..0] == [];
    } else {
      InvAfter(cfg, run[..k]);
      assert Grows(run[k - 1].log, run[k - 1].head, run[k].log, run[k].head);
      OrderOf(cfg, run[k].log, run[k].head);
      InvGrows(cfg, After(cfg, run[..k]), run[k - 1].log, run[k - 1].head, run[k].log, run[k].head);
    }
  }

  /**
   Once the chain stands still and passes live, as many passes as it takes to cover the
   blocks left bring the cursor to the head, and then the rows are every decodable event
   from the start block on, in order, each once.
   */
  lemma {:induction false} CatchesUp(cfg: Config, run: seq<Attempt>, j: nat)
    requires cfg.Valid() && Run(cfg, run) && Quiet(cfg, run, j) && cfg.startBlock <= run[j].head
    requires Reach(cfg, From(cfg, After(cfg, run[..j]).cursor), |run| - j) > run[j].head
    ensures var p := After(cfg, run);
            p.cursor == Some(run[j].head)
            && Facts(p.rows) == FactsOf(cfg, Range(run[j].log, cfg.startBlock, run[j].head))
  {
    hide Pass, Inv, LogOk, Grows, After;
    assert run[..|run|] == run;
    var last := run[|run| - 1];
    CursorBefore(cfg, run, j);
    QuietProgress(cfg, run, j, |run| - j);
    ExactlyOnce(cfg, run);
    assert From(cfg, After(cfg, run).cursor) == last.head + 1;
  }

  lemma CursorBefore(cfg: Config, run: seq<Attempt>, k: nat)
    requires cfg.Valid() && Run(cfg, run) && k < |run| && cfg.startBlock <= run[k].head
    ensures From(cfg, After(cfg, run[..k]).cursor) <= run[k].head + 1
  {
    hide Run, After, LogOk;
    InvBefore(cfg, run, k);
  }

  // --- How much the page-relative index can carry ---

  /** Events of one transaction are closer together than a page is long. */
  predicate WithinPage(es: seq<RawEvent>) {
    forall i, j :: 0 <= i < j < |es| && es[i].txHash == es[j].txHash ==> j - i < PAGE
  }

  predicate Contiguous(es: seq<RawEvent>) {
    forall i, j, k :: 0 <= i < j < k < |es| && es[i].txHash == es[k].txHash ==> es[j].txHash == es[i].txHash
  }

  predicate AllIndexed(cfg: Config, es: seq<RawEvent>) {
    forall i :: 0 <= i < |es| ==> Indexed(cfg, es[i])
  }

  /**
   Recording a fresh range stores every row exactly when no two indexed events of one
   transaction lie a page apart, or several. Skipped events count for the distance.
   */
  lemma StoredExactly(cfg: Config, es: seq<RawEvent>)
    ensures Recorded([], RowsOf(cfg, es)) == RowsOf(cfg, es) <==> KeysApart(cfg, es)
  {
    hide Decode, Recorded, RowsOf, KeysApart;
    var rows := RowsOf(cfg, es);
    RowsDistinct(cfg, es);
    if KeysApart(cfg, es) {
      RecordedResume([], rows, 0, |rows|);
      assert [] + rows[..0] == [] && rows[..|rows|] == rows && [] + rows == rows;
    } else {
      RecordedDistinct([], rows);
    }
  }

  /**
   In a range where every event is indexed and the events of a transaction follow each
   other, that is: no transaction has more than a page of events.
   */
  lemma StoredExactlyWithinPage(cfg: Config, es: seq<RawEvent>)
    requires AllIndexed(cfg, es) && Contiguous(es)
    ensures Recorded([], RowsOf(cfg, es)) == RowsOf(cfg, es) <==> WithinPage(es)
  {
    hide Decode, Recorded, RowsOf;
    StoredExactly(cfg, es);
    if WithinPage(es) {
      WithinPageApart(cfg, es);
    } else {
      var i, j :| 0 <= i < j < |es| && es[i].txHash == es[j].txHash && j - i >= PAGE;
      assert es[i + PAGE].txHash == es[i].txHash;
      APageOn(i);
    }
  }

  lemma WithinPageApart(cfg: Config, es: seq<RawEvent>)
    requires WithinPage(es)
    ensures KeysApart(cfg, es)
  {
    hide Decode;
    forall i, j | 0 <= i < j < |es| && es[i].txHash == es[j].txHash
      ensures i % PAGE != j % PAGE
    {
      DifferentInPage(i, j);
    }
  }

  lemma DifferentInPage(p: nat, q: nat)
    requires p < q < p + PAGE
    ensures p % PAGE != q % PAGE
  {
  }

  lemma APageOn(i: nat)
    ensures (i + PAGE) % PAGE == i % PAGE
  {
  }
}
