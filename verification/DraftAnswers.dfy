/** What the draft routes answer, exactly when, and what is different afterwards. */
module DraftAnswers {
  import opened Wrappers
  import opened Digits
  import opened Drafts
  import opened DraftRuns
  import opened ChainVerify
  import opened DraftRoutes

  /** Draft i alone is different, and only in being recorded. */
  predicate OnlyRecords(before: seq<Draft>, after: seq<Draft>, i: nat, circleId: int, tx: Option<Felt>)
    requires i < |before|
  {
    |after| == |before| && (forall k :: 0 <= k < |before| && k != i ==> after[k] == before[k])
    && after[i].circleId == Some(circleId) && after[i].createdTx == tx && after[i].status == Created
    && after[i].id == before[i].id && after[i].terms == before[i].terms && after[i].slots == before[i].slots
    && after[i].createdAt == before[i].createdAt
  }

  /**
   When the reads answer, the organizer's report of an unrecorded draft is recorded
   exactly when the circle is the draft's and the receipt speaks for it; otherwise it is
   refused and nothing changes.
   */
  lemma {:induction false} CreatedExact(w: World, id: Id, circleId: int, tx: Felt, v: View)
    requires Locate(w.drafts, id).Some? && Truthful(v, w.chain) && v.onNetwork.Answered?
    requires !v.payoutOrder(circleId).Down? && !v.circle(circleId).Down? && !v.receipt(tx).Down?
    requires w.drafts[Locate(w.drafts, id).value].circleId.None?
    ensures var i := Locate(w.drafts, id).value;
            var d := w.drafts[i];
            var (after, r) := PostCreated(w.drafts, id, Some(d.terms.organizer), circleId, tx, v);
            (r.Ok? <==> MatchAt(w.chain, circleId, d) && ReceiptSpeaks(v, tx))
            && (r.Ok? ==> OnlyRecords(w.drafts, after, i, circleId, Some(tx)) && r.draft == after[i])
            && (!r.Ok? ==> after == w.drafts && r == Failed(if circleId <= 0 then 400 else 422))
  {
    hide Truthful, VerifyCreated, MatchAt, ReceiptSpeaks;
    AnsweredExactly(v, w.chain, w.drafts[Locate(w.drafts, id).value], circleId, tx);
    NoCircleZero(w.chain, circleId, w.drafts[Locate(w.drafts, id).value]);
  }

  lemma NoCircleZero(chain: seq<Onchain>, id: int, d: Draft)
    ensures MatchAt(chain, id, d) ==> id > 0
  {
  }

  /** A recorded draft answers its own circle with itself and any other with a conflict, whatever the chain says. */
  lemma CreatedAgain(drafts: seq<Draft>, id: Id, circleId: int, tx: Felt, v: View)
    requires Locate(drafts, id).Some? && drafts[Locate(drafts, id).value].circleId.Some? && circleId > 0
    ensures var d := drafts[Locate(drafts, id).value];
            PostCreated(drafts, id, Some(d.terms.organizer), circleId, tx, v)
            == (drafts, if d.circleId == Some(circleId) then Ok(d) else Failed(409))
            && PostReconcile(drafts, id, Some(d.terms.organizer), v) == (drafts, Ok(d))
  {
  }

  /** A report of the matching circle is never rejected for an outage: it is put off, with nothing changed. */
  lemma {:induction false} CreatedPutOff(w: World, id: Id, circleId: int, tx: Felt, v: View)
    requires Locate(w.drafts, id).Some? && Truthful(v, w.chain)
    requires w.drafts[Locate(w.drafts, id).value].circleId.None?
    requires MatchAt(w.chain, circleId, w.drafts[Locate(w.drafts, id).value])
    requires !v.onNetwork.Answered? || v.payoutOrder(circleId).Down? || v.circle(circleId).Down? || v.receipt(tx).Down?
    ensures var d := w.drafts[Locate(w.drafts, id).value];
            PostCreated(w.drafts, id, Some(d.terms.organizer), circleId, tx, v) == (w.drafts, Failed(503))
  {
    hide Truthful, VerifyCreated, MatchAt, OrderAt, ExpectedPayoutOrder;
    var d := w.drafts[Locate(w.drafts, id).value];
    UnavailableExactly(v, w.chain, d, circleId, Some(tx));
    MatchIsExpected(w.chain, circleId, d);
    MatchIsComplete(w.chain, circleId, d);
  }

  lemma MatchIsComplete(chain: seq<Onchain>, id: int, d: Draft)
    requires MatchAt(chain, id, d)
    ensures ExpectedPayoutOrder(d).Some?
  {
  }

  /**
   Recovery works: when every read answers, the organizer's reconcile records a circle
   exactly when one of ids 1 to 500 matches, and then the first that does; otherwise it
   says so and changes nothing.
   */
  lemma {:induction false} ReconcileExact(w: World, id: Id, v: View)
    requires Locate(w.drafts, id).Some? && Truthful(v, w.chain) && v.onNetwork == Answered(true)
    requires forall k :: !v.payoutOrder(k).Down? && !v.circle(k).Down?
    requires w.drafts[Locate(w.drafts, id).value].circleId.None?
    ensures var i := Locate(w.drafts, id).value;
            var d := w.drafts[i];
            var (after, r) := PostReconcile(w.drafts, id, Some(d.terms.organizer), v);
            && (r.Ok? <==> exists k :: 1 <= k <= MAX_CIRCLE_SCAN && MatchAt(w.chain, k, d))
            && (r.Ok? ==> r.draft == after[i]
                          && exists k :: 1 <= k <= MAX_CIRCLE_SCAN && MatchAt(w.chain, k, d)
                                         && OnlyRecords(w.drafts, after, i, k, d.createdTx)
                                         && forall j :: 1 <= j < k ==> !MatchAt(w.chain, j, d))
            && (!r.Ok? ==> after == w.drafts && r == Failed(404))
  {
    hide Truthful, Discover, MatchAt;
    DiscoveryExact(v, w.chain, w.drafts[Locate(w.drafts, id).value]);
  }

  /** Reads down or not, the organizer is never told there is no circle while one of ids 1 to 500 matches. */
  lemma {:induction false} ReconcileNeverDenies(w: World, id: Id, v: View)
    requires Locate(w.drafts, id).Some? && Truthful(v, w.chain)
    requires w.drafts[Locate(w.drafts, id).value].circleId.None?
    ensures var d := w.drafts[Locate(w.drafts, id).value];
            var (after, r) := PostReconcile(w.drafts, id, Some(d.terms.organizer), v);
            (r == Failed(404) ==> forall k :: 1 <= k <= MAX_CIRCLE_SCAN ==> !MatchAt(w.chain, k, d))
            && (r.Ok? || (after == w.drafts && r in {Failed(404), Failed(503)}))
  {
    hide Truthful, Walk, MatchAt;
    WalkExact(v, w.chain, w.drafts[Locate(w.drafts, id).value], 1);
  }

  /** Nobody but the organizer changes a draft by these routes: the first reason that holds is the answer. */
  lemma OrganizerAlone(drafts: seq<Draft>, id: Id, caller: Option<Felt>, order: seq<Id>, circleId: int, tx: Felt,
                       v: View)
    requires Locate(drafts, id).Some? ==> caller != Some(drafts[Locate(drafts, id).value].terms.organizer)
    ensures var refusal := Failed(if Locate(drafts, id).None? then 404 else if caller.None? then 401 else 403);
            PostReconcile(drafts, id, caller, v) == (drafts, refusal)
            && PostOrder(drafts, id, caller, order) == (drafts, if OrderBodyOk(order) then refusal else Failed(400))
            && PostCreated(drafts, id, caller, circleId, tx, v)
               == (drafts, if circleId > 0 then refusal else Failed(400))
  {
  }

  /**
   The organizer's order is taken exactly when it names every place once and the circle
   does not exist yet. Then the places stand in that order, with their members and links.
   */
  lemma OrderExact(drafts: seq<Draft>, id: Id, order: seq<Id>)
    requires StoreOk(drafts) && Locate(drafts, id).Some?
    ensures var i := Locate(drafts, id).value;
            var d := drafts[i];
            var (after, r) := PostOrder(drafts, id, Some(d.terms.organizer), order);
            (r.Ok? <==> 2 <= |order| <= 32 && d.status != Created && |order| == |d.slots| && NoRepeats(order)
                        && forall j :: 0 <= j < |d.slots| ==> d.slots[j].slotId in order)
            && (r.Ok? ==>
                  |after| == |drafts| && (forall k :: 0 <= k < |drafts| && k != i ==> after[k] == drafts[k])
                  && after[i] == d.(slots := after[i].slots) && |after[i].slots| == |order|
                  && forall j, k :: 0 <= j < |d.slots| && 0 <= k < |order| && order[k] == d.slots[j].slotId
                       ==> MovedTo(d.slots[j], after[i].slots, k))
            && (!r.Ok? ==> after == drafts
                           && r == Failed(if OrderBodyOk(order) && d.status == Created then 409 else 400))
  {
    hide Arrange, IsOrder, NoRepeats, Unshared, DistinctMembers, StatusHonest;
    var d := drafts[Locate(drafts, id).value];
    assert DraftOk(d);
    OrderNamesAll(d.slots, order);
    if IsOrder(d.slots, order) {
      forall j, k | 0 <= j < |d.slots| && 0 <= k < |order| && order[k] == d.slots[j].slotId
        ensures MovedTo(d.slots[j], Arrange(d.slots, order), k)
      {
        PlacedAt(d.slots, order, j, k);
      }
    }
  }

  // --- Creating drafts ---

  /**
   A draft is made exactly for a caller who is its organizer, from terms the schema
   admits. It is open, with one free place for each link, in order; nothing else changes.
   */
  lemma NewDraftExactly(w: World, s: Step)
    requires s.NewDraft? && |s.slotIds| == |s.tokens| == s.terms.memberCount
    ensures var after, n := Next(w, s), |w.drafts|;
            after.chain == w.chain
            && if CreateBodyOk(s.terms) && s.caller == Some(s.terms.organizer)
               then |after.drafts| == n + 1 && after.drafts[..n] == w.drafts
                    && var d := after.drafts[n];
                       d.id == s.id && d.terms == s.terms && d.status == Open && d.circleId.None? && d.createdTx.None?
                       && d.createdAt == s.now && |d.slots| == |s.tokens|
                       && forall k :: 0 <= k < |d.slots| ==>
                            d.slots[k] == Slot(s.slotIds[k], k, s.tokens[k], None, None, None, None)
               else after == w
  {
    hide CreateBodyOk;
  }

  /** What the schema admits, one field at a time: 2 to 32 members, a second to a year, known addresses. */
  lemma SchemaBounds(t: Terms, n: nat)
    requires CreateBodyOk(t)
    ensures CreateBodyOk(t.(memberCount := n)) <==> 2 <= n <= 32
    ensures CreateBodyOk(t.(cadence := n)) <==> 1 <= n <= 365 * 24 * 60 * 60
    ensures CreateBodyOk(t.(grace := n)) <==> 1 <= n <= 365 * 24 * 60 * 60
    ensures CreateBodyOk(t.(organizer := n)) <==> n != 0
    ensures CreateBodyOk(t.(token := n)) <==> n != 0
    ensures CreateBodyOk(t.(amount := Decimal(n))) <==> 1 <= n < 0x1_0000_0000_0000_0000_0000_0000_0000_0000
  {
    hide IsU128Text, Decimal;
    AmountAdmitted(n);
  }

  /** Of the amounts the chain prints the schema admits exactly those a positive u128 holds. */
  lemma AmountAdmitted(n: nat)
    ensures IsU128Text(Decimal(n)) <==> 0 < n < U128
  {
    hide DigitsOf, ValueOf;
    DigitsFit(n, 10, 39);
    TenToThe39();
    assert |Decimal(n)| == |DigitsOf(n, 10)|;
  }

  lemma TenToThe39()
    ensures Pow(10, 39) == 1_000_000_000_000_000_000_000_000_000_000_000_000_000
  {
    TenToThe13();
    PowPlus(10, 13, 13);
    PowPlus(10, 26, 13);
  }

  lemma TenToThe13()
    ensures Pow(10, 13) == 10_000_000_000_000
  {
    assert Pow(10, 4) == 10_000;
    assert Pow(10, 8) == 100_000_000 by { PowPlus(10, 4, 4); }
    assert Pow(10, 12) == 1_000_000_000_000 by { PowPlus(10, 8, 4); }
  }

  lemma {:induction false} PowPlus(b: nat, m: nat, n: nat)
    ensures Pow(b, m + n) == Pow(b, m) * Pow(b, n)
  {
    if m == 0 {
    } else {
      PowPlus(b, m - 1, n);
      PowMore(b, m - 1);
      PowMore(b, m - 1 + n);
      hide Pow;
      TimesThree(b, Pow(b, m - 1), Pow(b, n));
    }
  }

  lemma PowMore(b: nat, e: nat)
    ensures Pow(b, e + 1) == b * Pow(b, e)
  {
  }

  lemma TimesThree(x: nat, y: nat, z: nat)
    ensures x * (y * z) == x * y * z
  {
  }

  // --- The order route ---

  lemma OrderNamesAll(slots: seq<Slot>, order: seq<Id>)
    requires DistinctIds(slots)
    ensures IsOrder(slots, order) <==>
              |order| == |slots| && NoRepeats(order) && forall j :: 0 <= j < |slots| ==> slots[j].slotId in order
  {
    if IsOrder(slots, order) {
      OrderCovers(slots, order);
    }
    if |order| == |slots| && NoRepeats(order) && forall j :: 0 <= j < |slots| ==> slots[j].slotId in order {
      CoversIsOrder(slots, order);
    }
  }

  lemma CoversIsOrder(slots: seq<Slot>, order: seq<Id>)
    requires DistinctIds(slots) && |order| == |slots| && NoRepeats(order)
    requires forall j :: 0 <= j < |slots| ==> slots[j].slotId in order
    ensures IsOrder(slots, order)
  {
    var ids := Ids(slots);
    DistinctFill(order);
    DistinctFill(ids);
    assert NoRepeats(ids);
    forall x | x in Names(ids)
      ensures x in Names(order)
    {
      var j :| 0 <= j < |ids| && ids[j] == x;
      assert slots[j].slotId in order;
    }
    SubsetOfSameSize(Names(ids), Names(order));
    forall k | 0 <= k < |order|
      ensures SlotOfId(slots, order[k]).Some?
    {
      assert order[k] in Names(ids);
      var j :| 0 <= j < |ids| && ids[j] == order[k];
      assert slots[j].slotId == order[k];
    }
  }

  lemma PlacedAt(slots: seq<Slot>, order: seq<Id>, j: nat, k: nat)
    requires DistinctIds(slots) && IsOrder(slots, order) && j < |slots| && k < |order| && order[k] == slots[j].slotId
    ensures MovedTo(slots[j], Arrange(slots, order), k)
  {
    IdFinds(slots, j);
  }
}
