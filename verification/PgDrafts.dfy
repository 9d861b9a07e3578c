/**
 The PostgreSQL draft store: pgStore.ts over two tables, one row update at a time.

 A transaction that meets a constraint error is rolled back and rethrown. The ghost
 model is the in-memory store; every method is proved to do to it what MemoryStore does.
 */
module PgDrafts {
  import opened Wrappers
  import opened Drafts
  import opened DraftRuns

  datatype Head = Head(terms: Terms, status: Status, circleId: Option<int>, createdTx: Option<Felt>, createdAt: int)

  datatype Row = Row(draftId: Id, slot: Slot)

  type Heads = map<Id, Head>
  type Rows = map<Id, Row>

  const OFFSET: nat := 100

  // --- The draft_slots table ---

  /** The primary keys of one draft's rows. */
  function RowKeys(rows: Rows, id: Id): set<Id> {
    set key | key in rows && rows[key].draftId == id
  }

  /** UNIQUE (draft_id, slot_index). */
  ghost predicate UniqueIndex(rows: Rows) {
    forall a, b :: a in rows && b in rows && a != b && rows[a].draftId == rows[b].draftId ==>
      rows[a].slot.slotIndex != rows[b].slot.slotIndex
  }

  function WithIndex(row: Row, index: int): Row {
    row.(slot := row.slot.(slotIndex := index))
  }

  /** UPDATE of one row's index; None is the unique or the non-negative constraint failing. */
  function SetIndex(rows: Rows, key: Id, index: int): (r: Option<Rows>)
    requires key in rows
    ensures UniqueIndex(rows) && r.Some? ==> UniqueIndex(r.value)
    ensures r.Some? ==> r.value.Keys == rows.Keys
  {
    if index < 0 || exists other <- rows :: other != key && rows[other].draftId == rows[key].draftId
                                            && rows[other].slot.slotIndex == index
    then None
    else Some(rows[key := WithIndex(rows[key], index)])
  }

  predicate IsRowOrder(rows: Rows, id: Id, order: seq<Id>) {
    NoRepeats(order) && |order| == |RowKeys(rows, id)| && forall k :: 0 <= k < |order| ==> order[k] in RowKeys(rows, id)
  }

  /** The first k updates of the first pass. */
  function FirstPass(rows: Rows, order: seq<Id>, k: nat): (r: Option<Rows>)
    requires k <= |order| && forall i :: 0 <= i < |order| ==> order[i] in rows
    ensures r.Some? ==> r.value.Keys == rows.Keys
  {
    if k == 0 then Some(rows)
    else
      var before :- FirstPass(rows, order, k - 1);
      SetIndex(before, order[k - 1], k - 1 + OFFSET)
  }

  /** Rows with the places of an order numbered from `base`. */
  ghost predicate NumberedFrom(rows: Rows, after: Rows, order: seq<Id>, k: nat, base: int)
    requires k <= |order|
  {
    && after.Keys == rows.Keys
    && (forall i :: 0 <= i < k ==> order[i] in rows && after[order[i]] == WithIndex(rows[order[i]], i + base))
    && forall key :: key in rows && key !in order[..k] ==> after[key] == rows[key]
  }

  lemma NumberedNext(rows: Rows, before: Rows, order: seq<Id>, k: nat, base: int)
    requires k < |order| && NoRepeats(order) && order[k] in rows && NumberedFrom(rows, before, order, k, base)
    ensures NumberedFrom(rows, before[order[k] := WithIndex(before[order[k]], k + base)], order, k + 1, base)
  {
    assert order[..k + 1] == order[..k] + [order[k]];
    assert order[k] !in order[..k];
    assert WithIndex(before[order[k]], k + base) == WithIndex(rows[order[k]], k + base);
  }

  lemma FirstPassStarts(rows: Rows, order: seq<Id>)
    requires forall i :: 0 <= i < |order| ==> order[i] in rows
    ensures FirstPass(rows, order, 0) == Some(rows)
  {
  }

  lemma FirstPassSteps(rows: Rows, order: seq<Id>, k: nat)
    requires k < |order| && (forall i :: 0 <= i < |order| ==> order[i] in rows) && FirstPass(rows, order, k).Some?
    ensures FirstPass(rows, order, k + 1) == SetIndex(FirstPass(rows, order, k).value, order[k], k + OFFSET)
  {
  }

  lemma SetIndexIs(rows: Rows, key: Id, index: int)
    requires key in rows
    ensures var r := SetIndex(rows, key, index); r.Some? ==> r.value == rows[key := WithIndex(rows[key], index)]
  {
  }

  lemma {:induction false} FirstPassIs(rows: Rows, order: seq<Id>, k: nat)
    requires k <= |order| && NoRepeats(order) && forall i :: 0 <= i < |order| ==> order[i] in rows
    ensures FirstPass(rows, order, k).Some? ==> NumberedFrom(rows, FirstPass(rows, order, k).value, order, k, OFFSET)
    ensures FirstPass(rows, order, k).Some? && UniqueIndex(rows) ==> UniqueIndex(FirstPass(rows, order, k).value)
  {
    hide NumberedFrom, UniqueIndex, NoRepeats, WithIndex, FirstPass, SetIndex;
    if k == 0 {
      FirstPassStarts(rows, order);
      NumberedNone(rows, order, OFFSET);
    } else {
      FirstPassIs(rows, order, k - 1);
      FirstPassNeeds(rows, order, k);
    }
    if k > 0 && FirstPass(rows, order, k).Some? {
      FirstPassSteps(rows, order, k - 1);
      SetIndexIs(FirstPass(rows, order, k - 1).value, order[k - 1], k - 1 + OFFSET);
      NumberedNext(rows, FirstPass(rows, order, k - 1).value, order, k - 1, OFFSET);
    }
  }

  lemma FirstPassNeeds(rows: Rows, order: seq<Id>, k: nat)
    requires 0 < k <= |order| && forall i :: 0 <= i < |order| ==> order[i] in rows
    ensures FirstPass(rows, order, k).Some? ==> FirstPass(rows, order, k - 1).Some?
  {
  }

  lemma NumberedNone(rows: Rows, order: seq<Id>, base: int)
    ensures NumberedFrom(rows, rows, order, 0, base)
  {
  }

  // --- The tables as the store they represent ---

  function HeadOf(d: Draft): Head {
    Head(d.terms, d.status, d.circleId, d.createdTx, d.createdAt)
  }

  ghost predicate Stored(rows: Rows, d: Draft) {
    forall j :: 0 <= j < |d.slots| ==> d.slots[j].slotId in rows && rows[d.slots[j].slotId] == Row(d.id, d.slots[j])
  }

  ghost predicate Backed(drafts: seq<Draft>, key: Id) {
    exists i :: 0 <= i < |drafts| && key in Ids(drafts[i].slots)
  }

  ghost predicate Represents(heads: Heads, rows: Rows, drafts: seq<Draft>) {
    && (forall i :: 0 <= i < |drafts| ==> drafts[i].id in heads && heads[drafts[i].id] == HeadOf(drafts[i]))
    && (forall id <- heads :: Locate(drafts, id).Some?)
    && (forall i :: 0 <= i < |drafts| ==> Stored(rows, drafts[i]))
    && (forall key <- rows :: Backed(drafts, key))
  }

  lemma RowKeysOf(heads: Heads, rows: Rows, drafts: seq<Draft>, i: nat)
    requires StoreOk(drafts) && Represents(heads, rows, drafts) && i < |drafts|
    ensures RowKeys(rows, drafts[i].id) == Names(Ids(drafts[i].slots))
    ensures |RowKeys(rows, drafts[i].id)| == |drafts[i].slots|
  {
    hide Unshared, DistinctMembers, StatusHonest, HeadOf;
    var d := drafts[i];
    forall key | key in RowKeys(rows, d.id)
      ensures key in Names(Ids(d.slots))
    {
      var k :| 0 <= k < |drafts| && key in Ids(drafts[k].slots);
      var j :| 0 <= j < |drafts[k].slots| && Ids(drafts[k].slots)[j] == key;
      assert rows[key] == Row(drafts[k].id, drafts[k].slots[j]);
    }
    forall key | key in Names(Ids(d.slots))
      ensures key in RowKeys(rows, d.id)
    {
      var j :| 0 <= j < |d.slots| && Ids(d.slots)[j] == key;
      assert rows[d.slots[j].slotId] == Row(d.id, d.slots[j]);
    }
    assert DraftOk(d);
    DistinctFill(Ids(d.slots));
  }

  /** The two stores refuse and admit the same orders. */
  lemma SameOrders(heads: Heads, rows: Rows, drafts: seq<Draft>, i: nat, order: seq<Id>)
    requires StoreOk(drafts) && Represents(heads, rows, drafts) && i < |drafts|
    ensures IsRowOrder(rows, drafts[i].id, order) <==> IsOrder(drafts[i].slots, order)
  {
    hide StoreOk, Represents, NoRepeats;
    RowKeysOf(heads, rows, drafts, i);
    var slots := drafts[i].slots;
    forall k | 0 <= k < |order|
      ensures order[k] in Names(Ids(slots)) <==> SlotOfId(slots, order[k]).Some?
    {
      if SlotOfId(slots, order[k]).Some? {
        assert Ids(slots)[SlotOfId(slots, order[k]).value] == order[k];
      }
    }
  }

  /** Writing one draft back: its rows and head changed, every other row as it was. */
  lemma RepresentsReplaced(heads: Heads, rows: Rows, drafts: seq<Draft>, i: nat, e: Draft, after: Rows)
    requires StoreOk(drafts) && Represents(heads, rows, drafts) && i < |drafts| && e.id == drafts[i].id
    requires Names(Ids(e.slots)) == Names(Ids(drafts[i].slots)) && after.Keys == rows.Keys && Stored(after, e)
    requires forall key :: key in rows && key !in Ids(drafts[i].slots) ==> after[key] == rows[key]
    ensures Represents(heads[e.id := HeadOf(e)], after, drafts[i := e])
  {
    hide DraftOk, HeadOf, Names;
    var updated := drafts[i := e];
    forall k | 0 <= k < |drafts|
      ensures Stored(after, updated[k])
    {
      if k != i {
        OtherStored(rows, drafts, i, k, after);
      }
    }
    forall key | key in after
      ensures Backed(updated, key)
    {
      StillBacked(drafts, i, e, key);
    }
    forall id | id in heads[e.id := HeadOf(e)]
      ensures Locate(updated, id).Some?
    {
      var p := if id == e.id then i else Locate(drafts, id).value;
      assert updated[p].id == id;
    }
  }

  lemma StillBacked(drafts: seq<Draft>, i: nat, e: Draft, key: Id)
    requires i < |drafts| && Backed(drafts, key) && Names(Ids(e.slots)) == Names(Ids(drafts[i].slots))
    ensures Backed(drafts[i := e], key)
  {
    var k :| 0 <= k < |drafts| && key in Ids(drafts[k].slots);
    NamesAre(Ids(e.slots), key);
    NamesAre(Ids(drafts[i].slots), key);
    assert key in Ids(drafts[i := e][k].slots);
  }

  lemma OtherStored(rows: Rows, drafts: seq<Draft>, i: nat, k: nat, after: Rows)
    requires Unshared(drafts) && i < |drafts| && k < |drafts| && i != k && Stored(rows, drafts[k])
    requires after.Keys == rows.Keys
    requires forall key :: key in rows && key !in Ids(drafts[i].slots) ==> after[key] == rows[key]
    ensures Stored(after, drafts[k])
  {
    forall j | 0 <= j < |drafts[k].slots|
      ensures drafts[k].slots[j].slotId !in Ids(drafts[i].slots)
    {
      IdsApart(drafts, i, k, j);
    }
  }

  lemma NamesAre(xs: seq<Id>, key: Id)
    ensures key in Names(xs) <==> key in xs
  {
  }

  lemma IdsApart(drafts: seq<Draft>, i: nat, k: nat, j: nat)
    requires Unshared(drafts) && i < |drafts| && k < |drafts| && i != k && j < |drafts[k].slots|
    ensures drafts[k].slots[j].slotId !in Ids(drafts[i].slots)
  {
    var slot := drafts[k].slots[j];
    assert Has(drafts[k], slot.slotId, slot.inviteToken);
    forall m | 0 <= m < |drafts[i].slots|
      ensures drafts[i].slots[m].slotId != slot.slotId
    {
      var other := drafts[i].slots[m];
      assert Has(drafts[i], other.slotId, other.inviteToken);
    }
  }

  // --- Reorder ---

  /** Renumbering the rows is rearranging the draft. */
  lemma RenumberedIs(heads: Heads, rows: Rows, drafts: seq<Draft>, i: nat, order: seq<Id>, after: Rows)
    requires StoreOk(drafts) && Represents(heads, rows, drafts) && i < |drafts|
    requires IsOrder(drafts[i].slots, order) && NumberedFrom(rows, after, order, |order|, 0)
    ensures var e := drafts[i].(slots := Arrange(drafts[i].slots, order));
            Represents(heads[e.id := HeadOf(e)], after, drafts[i := e]) && heads[e.id := HeadOf(e)] == heads
  {
    hide Unshared, DistinctMembers, StatusHonest;
    var d := drafts[i];
    var e := d.(slots := Arrange(d.slots, order));
    assert DraftOk(d);
    assert Stored(rows, d);
    ArrangedStored(rows, d, order, after);
    ArrangeOk(d.slots, order);
    SameNames(d.slots, order);
    OthersKept(rows, after, order, Ids(d.slots));
    hide NumberedFrom, Names, Arrange, IsOrder;
    RepresentsReplaced(heads, rows, drafts, i, e, after);
    assert heads[e.id] == HeadOf(e);
  }

  lemma ArrangedStored(rows: Rows, d: Draft, order: seq<Id>, after: Rows)
    requires Stored(rows, d) && IsOrder(d.slots, order) && NumberedFrom(rows, after, order, |order|, 0)
    ensures Stored(after, d.(slots := Arrange(d.slots, order)))
  {
    var e := d.(slots := Arrange(d.slots, order));
    forall k | 0 <= k < |e.slots|
      ensures e.slots[k].slotId in after && after[e.slots[k].slotId] == Row(e.id, e.slots[k])
    {
      var j := SlotOfId(d.slots, order[k]).value;
      assert rows[d.slots[j].slotId] == Row(d.id, d.slots[j]);
      assert after[order[k]] == WithIndex(rows[order[k]], k);
    }
  }

  lemma OthersKept(rows: Rows, after: Rows, order: seq<Id>, ids: seq<Id>)
    requires NumberedFrom(rows, after, order, |order|, 0) && Names(order) == Names(ids)
    ensures forall key :: key in rows && key !in ids ==> after[key] == rows[key]
  {
    assert order[..|order|] == order;
    forall key | key in rows && key !in ids
      ensures after[key] == rows[key]
    {
      NamesAre(order, key);
      NamesAre(ids, key);
    }
  }

  lemma SameNames(slots: seq<Slot>, order: seq<Id>)
    requires IsOrder(slots, order) && DistinctIds(slots)
    ensures Names(order) == Names(Ids(slots))
  {
    OrderCovers(slots, order);
    forall key
      ensures key in order <==> key in Ids(slots)
    {
      if key in order {
        var k :| 0 <= k < |order| && order[k] == key;
        assert Ids(slots)[SlotOfId(slots, key).value] == key;
      }
      if key in Ids(slots) {
        var j :| 0 <= j < |slots| && Ids(slots)[j] == key;
        assert slots[j].slotId in order;
      }
    }
  }

  /** The places of a draft by position: at[i] is the key of the row at index i. */
  ghost predicate SitsAs(rows: Rows, id: Id, at: seq<Id>) {
    && NoRepeats(at) && RowKeys(rows, id) == Names(at)
    && forall i :: 0 <= i < |at| ==> at[i] in rows && rows[at[i]].draftId == id && rows[at[i]].slot.slotIndex == i
  }

  lemma OfDraft(rows: Rows, id: Id, at: seq<Id>, key: Id)
    requires SitsAs(rows, id, at) && key in rows && rows[key].draftId == id
    ensures 0 <= rows[key].slot.slotIndex < |at| && at[rows[key].slot.slotIndex] == key
  {
    assert key in RowKeys(rows, id);
    NamesAre(at, key);
  }

  /** With no more than a hundred places, the first pass writes above every index in use. */
  lemma FreeAbove(rows: Rows, id: Id, at: seq<Id>, order: seq<Id>, k: nat, before: Rows)
    requires SitsAs(rows, id, at) && |at| <= OFFSET && k < |order|
    requires NoRepeats(order) && forall i :: 0 <= i < |order| ==> order[i] in RowKeys(rows, id)
    requires NumberedFrom(rows, before, order, k, OFFSET)
    ensures SetIndex(before, order[k], k + OFFSET).Some?
  {
    hide SitsAs;
    var key := order[k];
    assert key !in order[..k] && before[key] == rows[key];
    forall other | other in before && other != key && before[other].draftId == before[key].draftId
      ensures before[other].slot.slotIndex != k + OFFSET
    {
      if other in order[..k] {
        var p :| 0 <= p < k && order[p] == other;
      } else {
        OfDraft(rows, id, at, other);
      }
    }
  }

  lemma {:induction false} FirstPassFits(rows: Rows, id: Id, at: seq<Id>, order: seq<Id>, k: nat)
    requires SitsAs(rows, id, at) && IsRowOrder(rows, id, order) && k <= |order| && |at| <= OFFSET
    ensures FirstPass(rows, order, k).Some?
  {
    hide SitsAs, NumberedFrom, SetIndex, NoRepeats, FirstPass;
    assert forall i :: 0 <= i < |order| ==> order[i] in rows;
    if k == 0 {
      FirstPassStarts(rows, order);
    } else {
      FirstPassFits(rows, id, at, order, k - 1);
      FirstPassIs(rows, order, k - 1);
      FirstPassSteps(rows, order, k - 1);
      FreeAbove(rows, id, at, order, k - 1, FirstPass(rows, order, k - 1).value);
    }
  }

  /**
   Every order of a draft's places goes through the first pass exactly when there are
   at most a hundred of them: beyond that, saving the order as it stands collides.
   */
  lemma TwoPassSafeToHundred(rows: Rows, id: Id, at: seq<Id>)
    requires SitsAs(rows, id, at)
    ensures (forall order :: IsRowOrder(rows, id, order) ==> FirstPass(rows, order, |order|).Some?)
       <==> |at| <= OFFSET
  {
    DistinctFill(at);
    if |at| <= OFFSET {
      forall order | IsRowOrder(rows, id, order)
        ensures FirstPass(rows, order, |order|).Some?
      {
        FirstPassFits(rows, id, at, order, |order|);
      }
    } else {
      forall k | 0 <= k < |at|
        ensures at[k] in RowKeys(rows, id)
      {
        NamesAre(at, at[k]);
      }
      assert IsRowOrder(rows, id, at);
      StandingOrderCollides(rows, id, at, |at|);
    }
  }

  lemma {:induction false} StandingOrderCollides(rows: Rows, id: Id, at: seq<Id>, k: nat)
    requires SitsAs(rows, id, at) && |at| > OFFSET && 1 <= k <= |at|
    ensures FirstPass(rows, at, k).None?
    decreases k
  {
    if k > 1 {
      StandingOrderCollides(rows, id, at, k - 1);
    } else {
      assert FirstPass(rows, at, 0) == Some(rows);
      assert at[OFFSET] != at[0] && rows[at[OFFSET]].slot.slotIndex == OFFSET;
    }
  }

  lemma RowsSit(heads: Heads, rows: Rows, drafts: seq<Draft>, i: nat)
    requires StoreOk(drafts) && Represents(heads, rows, drafts) && i < |drafts|
    ensures SitsAs(rows, drafts[i].id, Ids(drafts[i].slots))
  {
    hide Unshared, DistinctMembers, StatusHonest;
    RowKeysOf(heads, rows, drafts, i);
    assert DraftOk(drafts[i]) && Stored(rows, drafts[i]);
  }

  // --- The second pass ---

  /** Places of the order still in `todo` carry their offset, the rest have landed. */
  ghost predicate Landing(rows: Rows, now: Rows, order: seq<Id>, todo: set<Id>) {
    && now.Keys == rows.Keys && todo <= Names(order)
    && (forall i :: 0 <= i < |order| ==>
          order[i] in rows
          && now[order[i]] == WithIndex(rows[order[i]], if order[i] in todo then i + OFFSET else i))
    && forall key :: key in rows && key !in order ==> now[key] == rows[key]
  }

  lemma LandingStarts(rows: Rows, now: Rows, order: seq<Id>)
    requires NumberedFrom(rows, now, order, |order|, OFFSET)
    ensures Landing(rows, now, order, Names(order))
  {
    assert order[..|order|] == order;
  }

  lemma LandingEnds(rows: Rows, now: Rows, order: seq<Id>)
    requires Landing(rows, now, order, {})
    ensures NumberedFrom(rows, now, order, |order|, 0)
  {
    assert order[..|order|] == order;
  }

  lemma LandOne(rows: Rows, now: Rows, order: seq<Id>, todo: set<Id>, key: Id) returns (i: nat)
    requires NoRepeats(order) && Landing(rows, now, order, todo) && key in todo
    ensures i < |order| && order[i] == key && now[key].slot.slotIndex - OFFSET == i
    ensures Landing(rows, now[key := WithIndex(now[key], i)], order, todo - {key})
  {
    NamesAre(order, key);
    i :| 0 <= i < |order| && order[i] == key;
    assert now[key] == WithIndex(rows[key], i + OFFSET);
    var next := now[key := WithIndex(now[key], i)];
    forall k | 0 <= k < |order|
      ensures next[order[k]] == WithIndex(rows[order[k]], if order[k] in todo - {key} then k + OFFSET else k)
    {
      assert order[k] == key ==> k == i;
      assert now[order[k]] == WithIndex(rows[order[k]], if order[k] in todo then k + OFFSET else k);
    }
  }

  /** While the second pass runs no index it writes is in use, whichever row it takes next. */
  lemma LandFree(rows: Rows, now: Rows, id: Id, order: seq<Id>, todo: set<Id>, i: nat)
    requires IsRowOrder(rows, id, order) && |order| <= OFFSET && i < |order|
    requires Landing(rows, now, order, todo) && Names(order) == RowKeys(rows, id)
    ensures SetIndex(now, order[i], i).Some?
  {
    forall other | other in now && other != order[i] && now[other].draftId == now[order[i]].draftId
      ensures now[other].slot.slotIndex != i
    {
      assert now[order[i]].draftId == rows[order[i]].draftId == id;
      assert rows[other].draftId == now[other].draftId;
      assert other in RowKeys(rows, id);
      NamesAre(order, other);
      var p :| 0 <= p < |order| && order[p] == other;
      assert now[order[p]] == WithIndex(rows[order[p]], if order[p] in todo then p + OFFSET else p);
    }
  }

  /** A full order names exactly the draft's rows. */
  lemma OrderNamesRows(rows: Rows, id: Id, order: seq<Id>)
    requires IsRowOrder(rows, id, order)
    ensures Names(order) == RowKeys(rows, id)
  {
    DistinctFill(order);
    SubsetOfSameSize(Names(order), RowKeys(rows, id));
  }

  /** The rows the second statement selects are the ones the first pass wrote. */
  lemma SelectedIsOrder(rows: Rows, now: Rows, id: Id, order: seq<Id>)
    requires IsRowOrder(rows, id, order) && NumberedFrom(rows, now, order, |order|, OFFSET)
    ensures (set key | key in RowKeys(now, id) && now[key].slot.slotIndex >= OFFSET) == Names(order)
  {
    OrderNamesRows(rows, id, order);
    assert order[..|order|] == order;
    forall key | key in rows
      ensures now[key].draftId == rows[key].draftId
      ensures key in Names(order) ==> now[key].slot.slotIndex >= OFFSET
    {
      if key in order {
        var k :| 0 <= k < |order| && order[k] == key;
        assert now[order[k]] == WithIndex(rows[order[k]], k + OFFSET);
      }
    }
  }

  /** Every row's index is its own within its draft: the constraint the table starts with. */
  lemma RepresentedUnique(heads: Heads, rows: Rows, drafts: seq<Draft>)
    requires StoreOk(drafts) && Represents(heads, rows, drafts)
    ensures UniqueIndex(rows)
  {
    hide Unshared, DistinctMembers, StatusHonest;
    forall a, b | a in rows && b in rows && a != b && rows[a].draftId == rows[b].draftId
      ensures rows[a].slot.slotIndex != rows[b].slot.slotIndex
    {
      assert Backed(drafts, a);
      var i :| 0 <= i < |drafts| && a in Ids(drafts[i].slots);
      var j :| 0 <= j < |drafts[i].slots| && Ids(drafts[i].slots)[j] == a;
      assert rows[a] == Row(drafts[i].id, drafts[i].slots[j]);
      RowsSit(heads, rows, drafts, i);
      OfDraft(rows, drafts[i].id, Ids(drafts[i].slots), a);
      OfDraft(rows, drafts[i].id, Ids(drafts[i].slots), b);
    }
  }

  // --- ORDER BY slot_index ---

  /** The rows of a draft by index, as the query lists them. */
  ghost predicate Listing(rows: Rows, id: Id, slots: seq<Slot>) {
    && NoRepeats(Ids(slots)) && Names(Ids(slots)) == RowKeys(rows, id)
    && (forall k :: 0 <= k < |slots| ==> slots[k].slotId in rows && rows[slots[k].slotId].slot == slots[k])
    && forall k, m :: 0 <= k < m < |slots| ==> slots[k].slotIndex <= slots[m].slotIndex
  }

  /** The listing of a stored draft is its slots. */
  lemma ListingIs(heads: Heads, rows: Rows, drafts: seq<Draft>, i: nat, slots: seq<Slot>)
    requires StoreOk(drafts) && Represents(heads, rows, drafts) && i < |drafts|
    requires Listing(rows, drafts[i].id, slots)
    ensures slots == drafts[i].slots
  {
    hide Unshared, DistinctMembers, StatusHonest;
    var d := drafts[i];
    assert DraftOk(d) && Stored(rows, d);
    RowKeysOf(heads, rows, drafts, i);
    DistinctFill(Ids(slots));
    assert |slots| == |d.slots|;
    forall k | 0 <= k < |slots|
      ensures 0 <= slots[k].slotIndex < |d.slots| && d.slots[slots[k].slotIndex] == slots[k]
    {
      NamesAre(Ids(slots), slots[k].slotId);
      NamesAre(Ids(d.slots), slots[k].slotId);
      assert Ids(slots)[k] == slots[k].slotId;
      var j :| 0 <= j < |d.slots| && Ids(d.slots)[j] == slots[k].slotId;
      assert rows[d.slots[j].slotId] == Row(d.id, d.slots[j]);
    }
    forall k, m | 0 <= k < m < |slots|
      ensures slots[k].slotIndex < slots[m].slotIndex
    {
      assert Ids(slots)[k] != Ids(slots)[m];
    }
    Climbs(slots, |slots|);
    forall k | 0 <= k < |slots|
      ensures slots[k].slotIndex == k
    {
      ClimbsFrom(slots, k);
    }
  }

  lemma {:induction false} Climbs(slots: seq<Slot>, k: nat)
    requires k <= |slots| && forall i, j :: 0 <= i < j < |slots| ==> slots[i].slotIndex < slots[j].slotIndex
    requires forall i :: 0 <= i < |slots| ==> 0 <= slots[i].slotIndex < |slots|
    ensures forall i :: 0 <= i < k ==> slots[i].slotIndex >= i
  {
    if k > 1 {
      Climbs(slots, k - 1);
      assert slots[k - 2].slotIndex < slots[k - 1].slotIndex;
    }
  }

  /** n ascending indices below n are 0, 1, 2 and so on. */
  lemma {:induction false} ClimbsFrom(slots: seq<Slot>, k: nat)
    requires k < |slots| && forall i, j :: 0 <= i < j < |slots| ==> slots[i].slotIndex < slots[j].slotIndex
    requires forall i :: 0 <= i < |slots| ==> i <= slots[i].slotIndex < |slots|
    ensures slots[k].slotIndex == k
    decreases |slots| - k
  {
    if k + 1 < |slots| {
      ClimbsFrom(slots, k + 1);
    }
  }

  // --- Taking a place, and the rest ---

  lemma FilledRepresents(heads: Heads, rows: Rows, drafts: seq<Draft>, i: nat, j: nat, e: Draft)
    requires StoreOk(drafts) && Represents(heads, rows, drafts) && i < |drafts| && j < |drafts[i].slots|
    requires e.id == drafts[i].id && |e.slots| == |drafts[i].slots|
    requires forall k :: 0 <= k < |e.slots| ==> e.slots[k].slotId == drafts[i].slots[k].slotId
    requires e.slots == drafts[i].slots[j := e.slots[j]]
    ensures Represents(heads[e.id := HeadOf(e)], rows[e.slots[j].slotId := Row(e.id, e.slots[j])], drafts[i := e])
  {
    hide Unshared, DistinctMembers, StatusHonest;
    var d := drafts[i];
    assert DraftOk(d) && Stored(rows, d);
    assert Ids(e.slots) == Ids(d.slots);
    var key := e.slots[j].slotId;
    assert Ids(d.slots)[j] == key;
    RepresentsReplaced(heads, rows, drafts, i, e, rows[key := Row(e.id, e.slots[j])]);
  }

  lemma HeadRepresents(heads: Heads, rows: Rows, drafts: seq<Draft>, i: nat, e: Draft)
    requires StoreOk(drafts) && Represents(heads, rows, drafts) && i < |drafts|
    requires e.id == drafts[i].id && e.slots == drafts[i].slots
    ensures Represents(heads[e.id := HeadOf(e)], rows, drafts[i := e])
  {
    hide StoreOk, HeadOf;
    assert Stored(rows, drafts[i]);
    RepresentsReplaced(heads, rows, drafts, i, e, rows);
  }
}
