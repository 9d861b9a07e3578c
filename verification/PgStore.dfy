/** The methods of pgStore.ts that touch drafts, each proved to do what MemoryStore does. */
module PgStore {
  import opened Wrappers
  import opened Drafts
  import opened DraftRuns
  import opened PgDrafts

  /** What a method gives its caller: a value, or the constraint error after a rollback. */
  datatype Reply<+T> = Returned(value: T) | Thrown

  predicate KeyedById(rows: Rows) {
    forall key <- rows :: rows[key].slot.slotId == key
  }

  lemma RepresentedKeyed(heads: Heads, rows: Rows, drafts: seq<Draft>)
    requires Represents(heads, rows, drafts)
    ensures KeyedById(rows)
  {
    hide HeadOf;
    forall key | key in rows
      ensures rows[key].slot.slotId == key
    {
      assert Backed(drafts, key);
      var i :| 0 <= i < |drafts| && key in Ids(drafts[i].slots);
      var j :| 0 <= j < |drafts[i].slots| && Ids(drafts[i].slots)[j] == key;
      assert rows[key] == Row(drafts[i].id, drafts[i].slots[j]);
    }
  }

  lemma {:induction false} LeastExists(rows: Rows, keys: set<Id>)
    requires keys != {} && forall key <- keys :: key in rows
    ensures exists key :: IsLeast(rows, keys, key)
    decreases |keys|
  {
    var some :| some in keys;
    var rest := keys - {some};
    if rest == {} {
      assert keys == {some};
      assert IsLeast(rows, keys, some);
    } else {
      LeastExists(rows, rest);
      var least :| IsLeast(rows, rest, least);
      var pick := if rows[some].slot.slotIndex <= rows[least].slot.slotIndex then some else least;
      assert IsLeast(rows, keys, pick);
    }
  }

  predicate IsLeast(rows: Rows, keys: set<Id>, key: Id) {
    key in keys && key in rows
    && forall other <- keys :: other in rows && rows[key].slot.slotIndex <= rows[other].slot.slotIndex
  }

  /** A listing of the rows not in `todo`, none of which belongs earlier. */
  ghost predicate ListedBut(rows: Rows, id: Id, slots: seq<Slot>, todo: set<Id>) {
    && todo <= RowKeys(rows, id)
    && Names(Ids(slots)) == RowKeys(rows, id) - todo && NoRepeats(Ids(slots))
    && (forall k :: 0 <= k < |slots| ==> slots[k].slotId in rows && rows[slots[k].slotId].slot == slots[k])
    && (forall k, m :: 0 <= k < m < |slots| ==> slots[k].slotIndex <= slots[m].slotIndex)
    && forall k, key :: 0 <= k < |slots| && key in todo ==> slots[k].slotIndex <= rows[key].slot.slotIndex
  }

  lemma ListedNext(rows: Rows, id: Id, slots: seq<Slot>, todo: set<Id>, key: Id)
    requires KeyedById(rows) && ListedBut(rows, id, slots, todo) && IsLeast(rows, todo, key)
    ensures ListedBut(rows, id, slots + [rows[key].slot], todo - {key})
  {
    var more := slots + [rows[key].slot];
    assert Ids(more) == Ids(slots) + [key];
    NamesMore(Ids(slots), key);
    assert key !in Names(Ids(slots));
  }

  lemma NamesMore(xs: seq<Id>, key: Id)
    ensures Names(xs + [key]) == Names(xs) + {key}
    ensures NoRepeats(xs) && key !in Names(xs) ==> NoRepeats(xs + [key])
  {
  }

  /** The row of a link, and the draft and place it belongs to. */
  lemma {:induction false} RowOfLink(heads: Heads, rows: Rows, drafts: seq<Draft>, key: Id) returns (i: nat, j: nat)
    requires StoreOk(drafts) && Represents(heads, rows, drafts) && key in rows
    ensures i < |drafts| && j < |drafts[i].slots| && rows[key] == Row(drafts[i].id, drafts[i].slots[j])
    ensures drafts[i].slots[j].slotId == key && drafts[i].id in heads && heads[drafts[i].id] == HeadOf(drafts[i])
    ensures DraftOfToken(drafts, rows[key].slot.inviteToken) == Some(i)
    ensures SlotOfToken(drafts[i].slots, rows[key].slot.inviteToken) == Some(j)
  {
    hide StoreOk, HeadOf;
    assert Backed(drafts, key);
    i :| 0 <= i < |drafts| && key in Ids(drafts[i].slots);
    j :| 0 <= j < |drafts[i].slots| && Ids(drafts[i].slots)[j] == key;
    assert Stored(rows, drafts[i]);
    LinkOpens(drafts, i, j);
  }

  lemma NoRowOfLink(heads: Heads, rows: Rows, drafts: seq<Draft>, token: Token)
    requires Represents(heads, rows, drafts) && forall key <- rows :: rows[key].slot.inviteToken != token
    ensures DraftOfToken(drafts, token).None?
  {
    hide HeadOf;
    forall i | 0 <= i < |drafts|
      ensures SlotOfToken(drafts[i].slots, token).None?
    {
      assert Stored(rows, drafts[i]);
    }
  }

  lemma SameDuplicates(heads: Heads, rows: Rows, drafts: seq<Draft>, i: nat, member: Felt)
    requires StoreOk(drafts) && Represents(heads, rows, drafts) && i < |drafts|
    ensures (exists key <- rows :: rows[key].draftId == drafts[i].id && rows[key].slot.memberRef == Some(member))
       <==> HasMember(drafts[i].slots, member)
  {
    hide Unshared, DistinctMembers, StatusHonest, HeadOf;
    var d := drafts[i];
    assert Stored(rows, d);
    RowKeysOf(heads, rows, drafts, i);
    if key :| key in rows && rows[key].draftId == d.id && rows[key].slot.memberRef == Some(member) {
      assert key in RowKeys(rows, d.id);
      NamesAre(Ids(d.slots), key);
      var j :| 0 <= j < |d.slots| && Ids(d.slots)[j] == key;
      assert rows[d.slots[j].slotId] == Row(d.id, d.slots[j]);
    }
    if j :| 0 <= j < |d.slots| && d.slots[j].memberRef == Some(member) {
      assert rows[d.slots[j].slotId] == Row(d.id, d.slots[j]);
    }
  }

  lemma CreatedRepresents(heads: Heads, rows: Rows, drafts: seq<Draft>, op: Op, d: Draft, after: Rows)
    requires StoreOk(drafts) && Represents(heads, rows, drafts) && op.CreateOp? && Legal(drafts, op)
    requires d == Draft(op.id, op.terms, Open, None, None, op.now, NewSlots(op.slotIds, op.tokens))
    requires forall key :: key in after <==> key in rows || key in op.slotIds
    requires forall key <- rows :: after[key] == rows[key]
    requires Stored(after, d)
    ensures Represents(heads[d.id := HeadOf(d)], after, drafts + [d])
  {
    hide StoreOk, HeadOf, NoRepeats, NewSlots;
    var all := drafts + [d];
    forall i | 0 <= i < |all|
      ensures Stored(after, all[i])
    {
      if i < |drafts| {
        assert Stored(rows, drafts[i]);
      }
    }
    forall key | key in after
      ensures Backed(all, key)
    {
      if key in rows {
        assert Backed(drafts, key);
        var i :| 0 <= i < |drafts| && key in Ids(drafts[i].slots);
        assert key in Ids(all[i].slots);
      } else {
        NewIds(op.slotIds, op.tokens);
        assert key in Ids(all[|drafts|].slots);
      }
    }
    forall id | id in heads[d.id := HeadOf(d)]
      ensures Locate(all, id).Some?
    {
      var p := if id == d.id then |drafts| else Locate(drafts, id).value;
      assert all[p].id == id;
    }
  }

  lemma NewIds(slotIds: seq<Id>, tokens: seq<Token>)
    requires |slotIds| == |tokens|
    ensures Ids(NewSlots(slotIds, tokens)) == slotIds
  {
  }

  /** New rows are new keys. */
  lemma FreshKeys(heads: Heads, rows: Rows, drafts: seq<Draft>, op: Op, k: nat)
    requires Represents(heads, rows, drafts) && op.CreateOp? && Legal(drafts, op) && k < |op.slotIds|
    ensures op.slotIds[k] !in rows
  {
    hide HeadOf, NoRepeats;
    if op.slotIds[k] in rows {
      var i, token := BackedHas(drafts, op.slotIds[k]);
      assert false;
    }
  }

  lemma BackedHas(drafts: seq<Draft>, key: Id) returns (i: nat, token: Token)
    requires Backed(drafts, key)
    ensures i < |drafts| && Has(drafts[i], key, token)
  {
    i :| 0 <= i < |drafts| && key in Ids(drafts[i].slots);
    var j :| 0 <= j < |drafts[i].slots| && Ids(drafts[i].slots)[j] == key;
    token := drafts[i].slots[j].inviteToken;
  }

  class PgStore {
    var heads: Heads
    var rows: Rows
    ghost var model: seq<Draft>

    ghost predicate Valid()
      reads this
    {
      StoreOk(model) && Represents(heads, rows, model)
    }

    constructor ()
      ensures Valid() && model == []
    {
      heads, rows, model := map[], map[], [];
    }

    /** SELECT ... WHERE draft_id ORDER BY slot_index. */
    method SlotsOf(id: Id) returns (slots: seq<Slot>)
      requires KeyedById(rows)
      ensures Listing(rows, id, slots)
    {
      var todo := RowKeys(rows, id);
      slots := [];
      while todo != {}
        invariant ListedBut(rows, id, slots, todo)
        decreases |todo|
      {
        LeastExists(rows, todo);
        var key :| key in todo && IsLeast(rows, todo, key);
        ListedNext(rows, id, slots, todo, key);
        slots := slots + [rows[key].slot];
        todo := todo - {key};
      }
    }

    method LoadDraft(id: Id) returns (r: Option<Draft>)
      requires Valid()
      ensures r == match Locate(model, id) case None => None case Some(i) => Some(model[i])
    {
      if id !in heads {
        assert Locate(model, id).None?;
        return None;
      }
      RepresentedKeyed(heads, rows, model);
      var slots := SlotsOf(id);
      ghost var i := Locate(model, id).value;
      ListingIs(heads, rows, model, i, slots);
      assert heads[model[i].id] == HeadOf(model[i]);
      var h := heads[id];
      r := Some(Draft(id, h.terms, h.status, h.circleId, h.createdTx, h.createdAt, slots));
    }

    method CreateDraft(terms: Terms, id: Id, slotIds: seq<Id>, tokens: seq<Token>, now: int) returns (draft: Draft)
      requires Valid() && Legal(model, CreateOp(terms, id, slotIds, tokens, now))
      modifies this
      ensures Valid() && model == Create(old(model), terms, id, slotIds, tokens, now)
      ensures draft == model[|model| - 1]
    {
      hide StoreOk, Represents, Stored;
      ghost var op := CreateOp(terms, id, slotIds, tokens, now);
      heads := heads[id := Head(terms, Open, None, None, now)];
      for i := 0 to terms.memberCount
        invariant model == old(model) && heads == old(heads)[id := Head(terms, Open, None, None, now)]
        invariant forall key :: key in rows <==> key in old(rows) || key in slotIds[..i]
        invariant forall key <- old(rows) :: rows[key] == old(rows)[key]
        invariant forall k :: 0 <= k < i ==> rows[slotIds[k]] == NewRow(id, slotIds[k], k, tokens[k])
      {
        FreshKeys(old(heads), old(rows), model, op, i);
        assert slotIds[..i + 1] == slotIds[..i] + [slotIds[i]];
        rows := rows[slotIds[i] := NewRow(id, slotIds[i], i, tokens[i])];
      }
      assert slotIds[..terms.memberCount] == slotIds;
      ghost var d := Draft(id, terms, Open, None, None, now, NewSlots(slotIds, tokens));
      NewRowsStored(rows, d, slotIds, tokens);
      CreatedRepresents(old(heads), old(rows), model, op, d, rows);
      CreateKeeps(model, op);
      model := model + [d];
      LocateNew(old(model), d);
      var loaded := LoadDraft(id);
      return loaded.value;
    }

    /** SELECT, guards, one row's UPDATE, and the status that follows from it. */
    method AcceptInvite(input: AcceptInput, now: int) returns (r: AcceptResult)
      requires Valid()
      modifies this
      ensures Valid() && r == Accept(old(model), input, now)
      ensures model == AfterAccept(old(model), input, now)
    {
      hide StoreOk, Represents, HasMember, DeriveStatus;
      var found := set key | key in rows && rows[key].slot.inviteToken == input.inviteToken;
      if found == {} {
        forall key | key in rows
          ensures rows[key].slot.inviteToken != input.inviteToken
        {
          assert key !in found;
        }
        NoRowOfLink(heads, rows, model, input.inviteToken);
        return Refused(UnknownInvite);
      }
      var key :| key in found;
      var row := rows[key];
      ghost var i, j := RowOfLink(heads, rows, model, key);
      var draft := heads[row.draftId];
      if draft.status == Created || draft.status == Abandoned {
        return Refused(DraftClosed);
      }
      if row.slot.memberRef.Some? {
        return Refused(AlreadyAccepted);
      }
      SameDuplicates(heads, rows, model, i, input.memberRef);
      if exists other <- rows ::
           rows[other].draftId == row.draftId && rows[other].slot.memberRef == Some(input.memberRef) {
        return Refused(DuplicateMember);
      }
      ghost var e := Claim(model[i], j, input, now).draft;
      ClaimKeeps(model[i], j, input, now) by { OneOk(model, i); }
      FilledRepresents(heads, rows, model, i, j, e);
      ReplaceKeeps(model, i, e) by { OneOk(model, i); }
      rows := rows[key := Row(row.draftId, FillSlot(row.slot, input, now))];
      RepresentedKeyed(heads[e.id := HeadOf(e)], rows, model[i := e]);
      var slots := SlotsOf(row.draftId);
      ListingIs(heads[e.id := HeadOf(e)], rows, model[i := e], i, slots);
      var updated := Draft(row.draftId, draft.terms, draft.status, draft.circleId, draft.createdTx, draft.createdAt,
                           slots);
      var status := DeriveStatus(updated);
      heads := heads[row.draftId := draft.(status := status)];
      model := model[i := e];
      return Taken(updated.(status := status), row.slot.slotIndex);
    }

    /** First pass: each row in turn to its new index plus the offset. False is a constraint error. */
    method Lift(id: Id, order: seq<Id>) returns (ok: bool)
      requires Valid() && IsRowOrder(rows, id, order)
      modifies this`rows
      ensures !ok ==> |order| > OFFSET
      ensures ok ==> NumberedFrom(old(rows), rows, order, |order|, OFFSET) && UniqueIndex(rows)
    {
      hide StoreOk, Represents, SetIndex, FirstPass, NumberedFrom, NoRepeats, UniqueIndex, WithIndex, RowKeys;
      PlacesKnown(heads, rows, model, id, order);
      RepresentedUnique(heads, rows, model);
      ghost var before, at := rows, Locate(model, id);
      FirstPassStarts(rows, order);
      for target := 0 to |order|
        invariant UniqueIndex(rows) && FirstPass(before, order, target) == Some(rows)
      {
        var next := SetIndex(rows, order[target], target + OFFSET);
        FirstPassSteps(before, order, target);
        if next.None? {
          AnyOrderFits(heads, before, model, at.value, order, target + 1);
          return false;
        }
        FirstPassIs(before, order, target + 1);
        rows := next.value;
      }
      FirstPassIs(before, order, |order|);
      return true;
    }

    /** Second pass: the offset comes off the lifted rows, in whatever order they are met. */
    method Land(id: Id, order: seq<Id>, ghost before: Rows) returns (ok: bool)
      requires IsRowOrder(before, id, order) && NumberedFrom(before, rows, order, |order|, OFFSET) && UniqueIndex(rows)
      modifies this`rows
      ensures !ok ==> |order| > OFFSET
      ensures ok ==> NumberedFrom(before, rows, order, |order|, 0)
    {
      SelectedIsOrder(before, rows, id, order);
      LandingStarts(before, rows, order);
      OrderNamesRows(before, id, order);
      hide SetIndex, NumberedFrom, NoRepeats, Landing, UniqueIndex, WithIndex;
      LandingKeys(before, rows, order, Names(order));
      var todo := set key | key in RowKeys(rows, id) && rows[key].slot.slotIndex >= OFFSET;
      while todo != {}
        invariant Landing(before, rows, order, todo) && UniqueIndex(rows)
        decreases |todo|
      {
        LandingKeys(before, rows, order, todo);
        var key :| key in todo;
        ghost var i := LandOne(before, rows, order, todo, key);
        var next := SetIndex(rows, key, rows[key].slot.slotIndex - OFFSET);
        if next.None? {
          if |order| <= OFFSET {
            LandFree(before, rows, id, order, todo, i);
          }
          return false;
        }
        SetIndexIs(rows, key, i);
        rows := next.value;
        todo := todo - {key};
      }
      LandingEnds(before, rows, order);
      return true;
    }

    /** The two-pass renumbering. A constraint error can only come beyond a hundred places. */
    method ReorderSlots(id: Id, order: seq<Id>) returns (r: Reply<Option<Draft>>)
      requires Valid()
      modifies this
      ensures Valid()
      ensures r.Thrown? ==> |order| > OFFSET && heads == old(heads) && rows == old(rows) && model == old(model)
      ensures r.Returned? ==> r.value == Reorder(old(model), id, order) && model == Put(old(model), id, r.value)
    {
      hide StoreOk, Represents, NumberedFrom, Arrange;
      var keys := RowKeys(rows, id);
      ghost var at := Locate(model, id);
      if keys == {} {
        NoPlaces(heads, rows, model, id);
        return Returned(None);
      }
      PlaceKnown(heads, rows, model, id);
      SameOrders(heads, rows, model, at.value, order);
      if !NoRepeats(order) || |order| != |keys| || exists k :: 0 <= k < |order| && order[k] !in keys {
        return Returned(None);
      }
      var before := rows;
      var lifted := Lift(id, order);
      if !lifted {
        rows := before;
        return Thrown;
      }
      var landed := Land(id, order, before);
      if !landed {
        rows := before;
        return Thrown;
      }
      RenumberedIs(heads, before, model, at.value, order, rows);
      ghost var e := model[at.value].(slots := Arrange(model[at.value].slots, order));
      ReorderKeeps(model[at.value], order) by { OneOk(model, at.value); }
      ReplaceKeeps(model, at.value, e) by { OneOk(model, at.value); }
      model := model[at.value := e];
      LocateSame(old(model), model, id);
      var loaded := LoadDraft(id);
      return Returned(loaded);
    }

    method MarkCreated(id: Id, circleId: int, txHash: Option<Felt>) returns (r: Option<Draft>)
      requires Valid()
      modifies this
      ensures Valid() && r == Drafts.MarkCreated(old(model), id, circleId, txHash)
      ensures model == Put(old(model), id, r)
    {
      hide StoreOk, Represents;
      HeadKnown(heads, rows, model, id);
      if id !in heads {
        return None;
      }
      ghost var i := Locate(model, id).value;
      ghost var e := model[i].(circleId := Some(circleId), createdTx := txHash, status := Created);
      CloseKeeps(model[i], Created, Some(circleId), txHash) by { OneOk(model, i); }
      HeadRepresents(heads, rows, model, i, e);
      ReplaceKeeps(model, i, e) by { OneOk(model, i); }
      heads := heads[id := heads[id].(circleId := Some(circleId), createdTx := txHash, status := Created)];
      model := model[i := e];
      LocateSame(old(model), model, id);
      r := LoadDraft(id);
    }

    method AbandonDraft(id: Id) returns (r: Option<Draft>)
      requires Valid()
      modifies this
      ensures Valid() && r == Abandon(old(model), id)
      ensures model == Put(old(model), id, r)
    {
      hide StoreOk, Represents;
      HeadKnown(heads, rows, model, id);
      if id !in heads {
        return None;
      }
      ghost var i := Locate(model, id).value;
      ghost var e := model[i].(status := Abandoned);
      CloseKeeps(model[i], Abandoned, e.circleId, e.createdTx) by { OneOk(model, i); }
      HeadRepresents(heads, rows, model, i, e);
      ReplaceKeeps(model, i, e) by { OneOk(model, i); }
      heads := heads[id := heads[id].(status := Abandoned)];
      model := model[i := e];
      LocateSame(old(model), model, id);
      r := LoadDraft(id);
    }
  }

  // --- Facts the methods use ---

  function NewRow(draft: Id, key: Id, index: nat, token: Token): Row {
    Row(draft, Slot(key, index, token, None, None, None, None))
  }

  lemma NewRowsStored(rows: Rows, d: Draft, slotIds: seq<Id>, tokens: seq<Token>)
    requires |slotIds| == |tokens| && d.slots == NewSlots(slotIds, tokens)
    requires forall k :: 0 <= k < |slotIds| ==>
               slotIds[k] in rows && rows[slotIds[k]] == NewRow(d.id, slotIds[k], k, tokens[k])
    ensures Stored(rows, d)
  {
  }

  lemma {:induction false} LocateNew(drafts: seq<Draft>, d: Draft)
    requires Locate(drafts, d.id).None?
    ensures Locate(drafts + [d], d.id) == Some(|drafts|)
  {
    if drafts != [] {
      LocateNew(drafts[1..], d);
      assert (drafts + [d])[1..] == drafts[1..] + [d];
    }
  }

  lemma OneOk(drafts: seq<Draft>, i: nat)
    requires StoreOk(drafts) && i < |drafts|
    ensures DraftOk(drafts[i])
  {
  }

  lemma NoPlaces(heads: Heads, rows: Rows, drafts: seq<Draft>, id: Id)
    requires StoreOk(drafts) && Represents(heads, rows, drafts) && RowKeys(rows, id) == {}
    ensures Locate(drafts, id).None?
  {
    hide Unshared, HeadOf;
    var p := Locate(drafts, id);
    if p.Some? {
      assert DraftOk(drafts[p.value]);
      RowKeysOf(heads, rows, drafts, p.value);
      assert false;
    }
  }

  /** The rows an order names belong to a draft of the store. */
  lemma PlacesKnown(heads: Heads, rows: Rows, drafts: seq<Draft>, id: Id, order: seq<Id>)
    requires Represents(heads, rows, drafts) && IsRowOrder(rows, id, order)
    ensures order != [] ==> Locate(drafts, id).Some?
    ensures forall i :: 0 <= i < |order| ==> order[i] in rows
  {
    hide Represents;
    if order != [] {
      assert order[0] in RowKeys(rows, id);
      PlaceKnown(heads, rows, drafts, id);
    }
  }

  lemma LandingKeys(rows: Rows, now: Rows, order: seq<Id>, todo: set<Id>)
    requires Landing(rows, now, order, todo)
    ensures forall key <- todo :: key in now
  {
    forall key | key in todo
      ensures key in now
    {
      NamesAre(order, key);
      var i :| 0 <= i < |order| && order[i] == key;
    }
  }

  lemma PlaceKnown(heads: Heads, rows: Rows, drafts: seq<Draft>, id: Id)
    requires Represents(heads, rows, drafts) && RowKeys(rows, id) != {}
    ensures Locate(drafts, id).Some?
  {
    hide HeadOf;
    var key :| key in RowKeys(rows, id);
    assert Backed(drafts, key);
    var i :| 0 <= i < |drafts| && key in Ids(drafts[i].slots);
    var j :| 0 <= j < |drafts[i].slots| && Ids(drafts[i].slots)[j] == key;
    assert rows[key] == Row(drafts[i].id, drafts[i].slots[j]);
  }

  lemma HeadKnown(heads: Heads, rows: Rows, drafts: seq<Draft>, id: Id)
    requires Represents(heads, rows, drafts)
    ensures id in heads <==> Locate(drafts, id).Some?
    ensures id in heads ==> heads[id] == HeadOf(drafts[Locate(drafts, id).value])
  {
  }

  lemma {:induction false} LocateSame(before: seq<Draft>, after: seq<Draft>, id: Id)
    requires |before| == |after| && forall i :: 0 <= i < |before| ==> before[i].id == after[i].id
    ensures Locate(before, id) == Locate(after, id)
  {
    if before != [] {
      LocateSame(before[1..], after[1..], id);
    }
  }

  lemma {:induction false} AnyOrderFits(heads: Heads, rows: Rows, drafts: seq<Draft>, i: nat, order: seq<Id>, k: nat)
    requires StoreOk(drafts) && Represents(heads, rows, drafts) && i < |drafts|
    requires IsRowOrder(rows, drafts[i].id, order) && k <= |order|
    ensures |order| <= OFFSET ==> FirstPass(rows, order, k).Some?
  {
    hide StoreOk, Represents, FirstPass;
    RowsSit(heads, rows, drafts, i);
    RowKeysOf(heads, rows, drafts, i);
    if |order| <= OFFSET {
      FirstPassFits(rows, drafts[i].id, Ids(drafts[i].slots), order, k);
    }
  }
}
