/**
 The life of a draft from end to end: it is made, its members take their places one by
 one, its circle appears on chain, and the report of it is recorded.
 */
module DraftStory {
  import opened Wrappers
  import opened Digits
  import opened Drafts
  import opened DraftRuns
  import opened DraftOrder
  import opened ChainVerify
  import opened DraftRoutes
  import opened DraftAnswers

  /** One draft to be, with the members its links will go to. */
  datatype Plan = Plan(terms: Terms, id: Id, slotIds: seq<Id>, tokens: seq<Token>, members: seq<AcceptInput>, now: int)
  {
    function Making(): Step {
      NewDraft(Some(terms.organizer), terms, id, slotIds, tokens, now)
    }

    /** As many members as places, each with their own link, all different. */
    predicate Fits() {
      CreateBodyOk(terms) && |slotIds| == |tokens| == |members| == terms.memberCount
      && (forall k :: 0 <= k < |members| ==> members[k].inviteToken == tokens[k])
      && forall i, j :: 0 <= i < j < |members| ==> members[i].memberRef != members[j].memberRef
    }

    /** The draft is made and the first k members accept. */
    function Accepting(k: nat): seq<Step>
      requires k <= |members|
    {
      if k == 0 then [Making()] else Accepting(k - 1) + [AcceptStep(members[k - 1], now)]
    }
  }

  /** Of the planned draft the first k places are taken by their members and the others are free. */
  ghost predicate TakenUpTo(d: Draft, p: Plan, k: nat) {
    d.id == p.id && d.terms == p.terms && d.circleId.None? && !Closed(d) && |d.slots| == |p.tokens| == |p.members|
    && forall j :: 0 <= j < |d.slots| ==>
         d.slots[j].inviteToken == p.tokens[j] && d.slots[j].slotIndex == j
         && d.slots[j].memberRef == if j < k then Some(p.members[j].memberRef) else None
  }

  /** The store and chain as they were, and the planned draft behind. */
  ghost predicate Reached(w: World, v: World, p: Plan, k: nat) {
    StoreOk(v.drafts) && v.chain == w.chain && |v.drafts| == |w.drafts| + 1 && v.drafts[..|w.drafts|] == w.drafts
    && TakenUpTo(v.drafts[|w.drafts|], p, k)
  }

  lemma {:induction false} MembersAccept(w: World, p: Plan, k: nat)
    requires StoreOk(w.drafts) && p.Fits() && Possible(w, p.Making()) && k <= |p.members|
    ensures Reached(w, Run(w, p.Accepting(k)), p, k)
  {
    hide StoreOk, TakenUpTo, Next, CreateBodyOk, Legal;
    if k == 0 {
      MakingReaches(w, p);
      assert p.Accepting(0)[..0] == [];
      assert Run(w, p.Accepting(0)) == Next(w, p.Making());
    } else {
      MembersAccept(w, p, k - 1);
      var v := Run(w, p.Accepting(k - 1));
      var steps, s := p.Accepting(k), AcceptStep(p.members[k - 1], p.now);
      assert steps[..|steps| - 1] == p.Accepting(k - 1) && steps[|steps| - 1] == s;
      AcceptReaches(w, v, p, k - 1);
    }
  }

  lemma MakingReaches(w: World, p: Plan)
    requires StoreOk(w.drafts) && p.Fits() && Possible(w, p.Making())
    ensures Reached(w, Next(w, p.Making()), p, 0)
  {
    hide StoreOk, Legal, CreateBodyOk;
    NewDraftExactly(w, p.Making());
    StepKeeps(w.drafts, CreateOp(p.terms, p.id, p.slotIds, p.tokens, p.now));
  }

  lemma AcceptReaches(w: World, v: World, p: Plan, k: nat)
    requires p.Fits() && k < |p.members| && Reached(w, v, p, k)
    ensures Reached(w, Next(v, AcceptStep(p.members[k], p.now)), p, k + 1)
  {
    hide StoreOk, Closed, CreateBodyOk;
    var n, input := |w.drafts|, p.members[k];
    var d := v.drafts[n];
    LinkStaysOpen(d, p, k);
    AcceptExactly(v.drafts, input, p.now);
    var after := AfterAccept(v.drafts, input, p.now);
    assert OnlyFills(v.drafts, after, n, k, input, p.now);
    StillOpen(v.drafts, n, k, input, p.now);
    StepKeeps(v.drafts, AcceptOp(input, p.now)) by { NoConditions(v.drafts, AcceptOp(input, p.now)); }
    assert after[..n] == v.drafts[..n];
  }

  lemma LinkStaysOpen(d: Draft, p: Plan, k: nat)
    requires p.Fits() && k < |p.members| && TakenUpTo(d, p, k)
    ensures Opens(d, k, p.members[k])
  {
  }

  /** Taking a place closes nothing. */
  lemma StillOpen(drafts: seq<Draft>, i: nat, j: nat, input: AcceptInput, now: int)
    requires StoreOk(drafts) && i < |drafts| && j < |drafts[i].slots| && Opens(drafts[i], j, input)
    ensures i < |AfterAccept(drafts, input, now)| && !Closed(AfterAccept(drafts, input, now)[i])
  {
    LinkOpens(drafts, i, j);
  }

  /** The circle the organizer creates for the plan: its members in their places, its amount and its size. */
  predicate CircleFor(p: Plan, c: Onchain) {
    |c.order| == |p.members| && (forall k :: 0 <= k < |p.members| ==> c.order[k] == p.members[k].memberRef)
    && Decimal(c.amount) == p.terms.amount && c.memberLimit == p.terms.memberCount
  }

  /**
   End to end: a draft whose members all accept, and whose circle is then created, is
   recorded when its organizer reports it, under that circle's id and with every member
   in their place; nothing else in the store is different.
   */
  lemma {:induction false} HonestCircleIsRecorded(w: World, p: Plan, c: Onchain, tx: Felt, v: View)
    requires StoreOk(w.drafts) && p.Fits() && Possible(w, p.Making()) && CircleFor(p, c)
    requires Truthful(v, w.chain + [c]) && v.onNetwork.Answered? && ReceiptSpeaks(v, tx)
    requires !v.payoutOrder(|w.chain| + 1).Down? && !v.circle(|w.chain| + 1).Down?
    ensures var id, n := |w.chain| + 1, |w.drafts|;
            var steps := p.Accepting(|p.members|)
                         + [ChainGrows(c), CreatedStep(p.id, Some(p.terms.organizer), id, tx, v)];
            var end := Run(w, steps);
            |end.drafts| == n + 1 && end.drafts[..n] == w.drafts && end.chain == w.chain + [c]
            && end.drafts[n].id == p.id && end.drafts[n].status == Created && end.drafts[n].circleId == Some(id)
            && end.drafts[n].createdTx == Some(tx) && |end.drafts[n].slots| == |p.members|
            && forall k :: 0 <= k < |p.members| ==>
                 end.drafts[n].slots[k].memberRef == Some(p.members[k].memberRef)
                 && end.drafts[n].slots[k].inviteToken == p.tokens[k]
  {
    hide StoreOk, TakenUpTo, Truthful, ReceiptSpeaks, MatchAt, CreateBodyOk, Legal, PostCreated, Decimal;
    var id, n, all := |w.chain| + 1, |w.drafts|, p.Accepting(|p.members|);
    var grow, report := ChainGrows(c), CreatedStep(p.id, Some(p.terms.organizer), id, tx, v);
    MembersAccept(w, p, |p.members|);
    TwoMore(w, all, grow, report);
    FullMatches(w, Run(w, all), p, c);
    ReportRecords(Run(w, all).(chain := w.chain + [c]), p.id, n, id, tx, v);
    hide Run, CircleFor, Locate, Plan.Fits;
    Endings(w, Run(w, all), p, c, report);
  }

  lemma Endings(w: World, full: World, p: Plan, c: Onchain, report: Step)
    requires full.chain == w.chain && report.CreatedStep?
    ensures Next(full, ChainGrows(c)) == full.(chain := w.chain + [c])
    ensures var grown := full.(chain := w.chain + [c]);
            Next(grown, report).chain == grown.chain
            && Next(grown, report).drafts
               == PostCreated(grown.drafts, report.id, report.caller, report.circleId, report.txHash, report.view).0
  {
    hide PostCreated;
  }

  /** The report of a matching circle, with every read up. */
  lemma ReportRecords(grown: World, draftId: Id, n: nat, id: int, tx: Felt, v: View)
    requires n < |grown.drafts| && Locate(grown.drafts, draftId) == Some(n) && grown.drafts[n].circleId.None?
    requires Truthful(v, grown.chain) && v.onNetwork.Answered? && ReceiptSpeaks(v, tx)
    requires !v.payoutOrder(id).Down? && !v.circle(id).Down? && MatchAt(grown.chain, id, grown.drafts[n])
    ensures OnlyRecords(grown.drafts,
                        PostCreated(grown.drafts, draftId, Some(grown.drafts[n].terms.organizer), id, tx, v).0,
                        n, id, Some(tx))
  {
    hide Truthful, MatchAt, PostCreated, ReceiptSpeaks;
    SpeaksIsUp(v, tx);
    CreatedExact(grown, draftId, id, tx, v);
  }

  lemma TwoMore(w: World, steps: seq<Step>, a: Step, b: Step)
    ensures Run(w, steps + [a, b]) == Next(Next(Run(w, steps), a), b)
  {
    var all := steps + [a, b];
    assert all[..|all| - 1] == steps + [a];
    assert (steps + [a])[..|steps|] == steps;
  }

  lemma SpeaksIsUp(v: View, tx: Felt)
    requires ReceiptSpeaks(v, tx)
    ensures !v.receipt(tx).Down?
  {
  }

  /** With every place taken, the draft is the one the circle was made for. */
  lemma FullMatches(w: World, full: World, p: Plan, c: Onchain)
    requires p.Fits() && Reached(w, full, p, |p.members|) && CircleFor(p, c)
    ensures Locate(full.drafts, p.id) == Some(|w.drafts|)
    ensures var d := full.drafts[|w.drafts|];
            MatchAt(w.chain + [c], |w.chain| + 1, d) && d.circleId.None? && d.terms == p.terms
            && |d.slots| == |p.members|
            && forall k :: 0 <= k < |d.slots| ==>
                 d.slots[k].memberRef == Some(p.members[k].memberRef) && d.slots[k].inviteToken == p.tokens[k]
  {
    hide CreateBodyOk, Decimal, Unshared, DistinctIds, DistinctMembers, StatusHonest;
    var d := full.drafts[|w.drafts|];
    LocateOwn(full.drafts, |w.drafts|);
    MatchesAgrees(d, c);
  }
}
