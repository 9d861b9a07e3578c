/** Arranging a payout order locally: draftOrder.ts, against the store's reorder. */
module DraftOrder {
  import opened Wrappers
  import opened Drafts
  import opened DraftRuns

  /** The saved order, as slot ids. */
  function OrderOf(d: Draft): seq<Id> {
    Ids(d.slots)
  }

  datatype Move = Move(from: int, to: int)

  /** Swaps two places; out of bounds changes nothing. */
  function MoveInOrder(order: seq<Id>, m: Move): (r: seq<Id>)
    ensures |r| == |order|
  {
    if m.from < 0 || m.from >= |order| then order
    else if m.to < 0 || m.to >= |order| then order
    else order[m.from := order[m.to]][m.to := order[m.from]]
  }

  /** A move exchanges two places and nothing else, and doing it again undoes it. */
  lemma MoveSwaps(order: seq<Id>, m: Move)
    ensures var r := MoveInOrder(order, m);
            MoveInOrder(r, m) == order && multiset(r) == multiset(order)
            && if 0 <= m.from < |order| && 0 <= m.to < |order|
               then r[m.from] == order[m.to] && r[m.to] == order[m.from]
                    && forall k :: 0 <= k < |order| && k != m.from && k != m.to ==> r[k] == order[k]
               else r == order
  {
    if 0 <= m.from < |order| && 0 <= m.to < |order| {
      SwapKeeps(order, m.from, m.to);
    }
  }

  lemma SwapKeeps(order: seq<Id>, i: nat, j: nat)
    requires i < |order| && j < |order|
    ensures var r := order[i := order[j]][j := order[i]];
            multiset(r) == multiset(order) && r[i := r[j]][j := r[i]] == order
  {
  }

  function MoveAll(order: seq<Id>, moves: seq<Move>): (r: seq<Id>)
    ensures |r| == |order|
  {
    if moves == [] then order else MoveInOrder(MoveAll(order, moves[..|moves| - 1]), moves[|moves| - 1])
  }

  lemma MoveKeeps(slots: seq<Slot>, order: seq<Id>, m: Move)
    requires IsOrder(slots, order)
    ensures IsOrder(slots, MoveInOrder(order, m))
  {
    var r := MoveInOrder(order, m);
    if 0 <= m.from < |order| && 0 <= m.to < |order| {
      forall k | 0 <= k < |r|
        ensures r[k] == order[if k == m.from then m.to else if k == m.to then m.from else k]
      {
      }
    }
  }

  lemma SavedIsOrder(d: Draft)
    requires DistinctIds(d.slots)
    ensures IsOrder(d.slots, OrderOf(d))
  {
    forall k | 0 <= k < |d.slots|
      ensures SlotOfId(d.slots, OrderOf(d)[k]).Some?
    {
      IdFinds(d.slots, k);
    }
  }

  lemma {:induction false} MovesKeep(d: Draft, moves: seq<Move>)
    requires DistinctIds(d.slots)
    ensures IsOrder(d.slots, MoveAll(OrderOf(d), moves))
  {
    if moves == [] {
      SavedIsOrder(d);
    } else {
      MovesKeep(d, moves[..|moves| - 1]);
      MoveKeeps(d.slots, MoveAll(OrderOf(d), moves[..|moves| - 1]), moves[|moves| - 1]);
    }
  }

  // --- Moves reach every order ---

  lemma {:induction false} MoveAllAppend(order: seq<Id>, xs: seq<Move>, ys: seq<Move>)
    ensures MoveAll(order, xs + ys) == MoveAll(MoveAll(order, xs), ys)
  {
    if ys == [] {
      assert xs + ys == xs;
    } else {
      var front, last := ys[..|ys| - 1], ys[|ys| - 1];
      MoveAllAppend(order, xs, front);
      assert xs + ys == (xs + front) + [last];
    }
  }

  predicate Agree(order: seq<Id>, goal: seq<Id>, k: nat) {
    |order| == |goal| && k <= |goal| && forall i :: 0 <= i < k ==> order[i] == goal[i]
  }

  /** One move puts the right place at k. */
  lemma BringTo(slots: seq<Slot>, order: seq<Id>, goal: seq<Id>, k: nat) returns (m: Move)
    requires DistinctIds(slots) && IsOrder(slots, order) && IsOrder(slots, goal)
    requires k < |order| && Agree(order, goal, k)
    ensures Agree(MoveInOrder(order, m), goal, k + 1)
  {
    OrderCovers(slots, order);
    assert slots[SlotOfId(slots, goal[k]).value].slotId in order;
    var p :| 0 <= p < |order| && order[p] == goal[k];
    assert p >= k;
    m := Move(p, k);
  }

  /** Selection: put the right place at k, then sort out the rest. */
  lemma {:induction false} MovesTo(slots: seq<Slot>, order: seq<Id>, goal: seq<Id>, k: nat) returns (moves: seq<Move>)
    requires DistinctIds(slots) && IsOrder(slots, order) && IsOrder(slots, goal) && Agree(order, goal, k)
    ensures MoveAll(order, moves) == goal
    decreases |order| - k
  {
    hide IsOrder, DistinctIds, MoveInOrder;
    if k == |order| {
      moves := [];
      assert order == goal;
    } else {
      var m := BringTo(slots, order, goal, k);
      MoveKeeps(slots, order, m);
      var rest := MovesTo(slots, MoveInOrder(order, m), goal, k + 1);
      moves := [m] + rest;
      MoveAllAppend(order, [m], rest);
      assert [m][..0] == [];
    }
  }

  /**
   The arrangements the organizer can reach by moves are exactly the orders the store
   accepts, and saving one gives back that arrangement.
   */
  lemma ArrangeableExactly(drafts: seq<Draft>, i: nat, order: seq<Id>)
    requires StoreOk(drafts) && i < |drafts|
    ensures (exists moves :: MoveAll(OrderOf(drafts[i]), moves) == order)
       <==> Reorder(drafts, drafts[i].id, order).Some?
    ensures Reorder(drafts, drafts[i].id, order).Some? ==>
              OrderOf(Reorder(drafts, drafts[i].id, order).value) == order
  {
    hide Unshared, StatusHonest;
    var d := drafts[i];
    LocateOwn(drafts, i);
    assert DraftOk(d);
    if moves :| MoveAll(OrderOf(d), moves) == order {
      MovesKeep(d, moves);
    }
    if IsOrder(d.slots, order) {
      SavedIsOrder(d);
      var moves := MovesTo(d.slots, OrderOf(d), order, 0);
      ArrangeOk(d.slots, order);
    }
  }

  lemma LocateOwn(drafts: seq<Draft>, i: nat)
    requires StoreOk(drafts) && i < |drafts|
    ensures Locate(drafts, drafts[i].id) == Some(i)
  {
    hide Unshared, DraftOk;
    var r := Locate(drafts, drafts[i].id);
    assert r.Some? && drafts[r.value].id == drafts[i].id;
    assert r.value == i;
  }
}
