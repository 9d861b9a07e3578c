/**
 The draft routes of app.ts, each handler one atomic step on the store, and what ties a
 recorded circle to the chain over every run.
 */
module DraftRoutes {
  import opened Wrappers
  import opened Digits
  import opened Drafts
  import opened DraftRuns
  import opened DraftOrder
  import opened ChainVerify

  /** What a handler answers: the draft, or the status code of its refusal. */
  datatype Response = Ok(draft: Draft) | Taking(result: AcceptResult) | Failed(code: int)

  const MAX_SECONDS: nat := 31_536_000
  const U128: nat := 0x1_0000_0000_0000_0000_0000_0000_0000_0000

  // --- Request schemas ---

  predicate IsU128Text(s: string) {
    IsNumeral(s, 10) && |s| <= 39 && 0 < NumeralValue(s, 10) < U128
  }

  predicate CreateBodyOk(t: Terms) {
    t.organizer != 0 && t.token != 0 && IsU128Text(t.amount)
    && 0 < t.cadence <= MAX_SECONDS && 0 < t.grace <= MAX_SECONDS && 2 <= t.memberCount <= 32
  }

  predicate OrderBodyOk(order: seq<Id>) {
    2 <= |order| <= 32 && NoRepeats(order)
  }

  // --- Handlers, as functions of the drafts ---

  function Get(drafts: seq<Draft>, id: Id): (r: Option<Draft>)
    ensures r.Some? ==> Locate(drafts, id).Some? && r.value == drafts[Locate(drafts, id).value]
  {
    var i :- Locate(drafts, id);
    Some(drafts[i])
  }

  /** `caller` is the authenticated address, None when authentication was refused. */
  function OrganizerOnly(d: Option<Draft>, caller: Option<Felt>): (r: Option<Response>)
    ensures r.None? ==> d.Some? && caller == Some(d.value.terms.organizer)
    ensures r.Some? ==> r.value.Failed?
  {
    if d.None? then Some(Failed(404))
    else if caller.None? then Some(Failed(401))
    else if d.value.terms.organizer != caller.value then Some(Failed(403))
    else None
  }

  function PostOrder(drafts: seq<Draft>, id: Id, caller: Option<Felt>, order: seq<Id>): (seq<Draft>, Response) {
    var d := Get(drafts, id);
    if !OrderBodyOk(order) then (drafts, Failed(400))
    else if OrganizerOnly(d, caller).Some? then (drafts, OrganizerOnly(d, caller).value)
    else if d.value.status == Created then (drafts, Failed(409))
    else
      var updated := Reorder(drafts, id, order);
      (Put(drafts, id, updated), if updated.Some? then Ok(updated.value) else Failed(400))
  }

  function Record(drafts: seq<Draft>, id: Id, circleId: int, txHash: Option<Felt>): (seq<Draft>, Response)
    requires Locate(drafts, id).Some?
  {
    var updated := MarkCreated(drafts, id, circleId, txHash);
    (Put(drafts, id, updated), Ok(updated.value))
  }

  function PostCreated(drafts: seq<Draft>, id: Id, caller: Option<Felt>, circleId: int, txHash: Felt, v: View)
    : (seq<Draft>, Response)
  {
    var d := Get(drafts, id);
    if circleId <= 0 then (drafts, Failed(400))
    else if OrganizerOnly(d, caller).Some? then (drafts, OrganizerOnly(d, caller).value)
    else if d.value.circleId.Some? then
      (drafts, if d.value.circleId.value == circleId then Ok(d.value) else Failed(409))
    else match VerifyCreated(v, d.value, circleId, Some(txHash))
      case Unavailable => (drafts, Failed(503))
      case Rejected(_) => (drafts, Failed(422))
      case Verified => Record(drafts, id, circleId, Some(txHash))
  }

  function PostReconcile(drafts: seq<Draft>, id: Id, caller: Option<Felt>, v: View): (seq<Draft>, Response) {
    var d := Get(drafts, id);
    if OrganizerOnly(d, caller).Some? then (drafts, OrganizerOnly(d, caller).value)
    else if d.value.circleId.Some? then (drafts, Ok(d.value))
    else match Discover(v, d.value)
      case Unreachable => (drafts, Failed(503))
      case Absent => (drafts, Failed(404))
      case Found(circleId) => Record(drafts, id, circleId, d.value.createdTx)
  }

  // --- The handlers themselves, over the store ---

  class Routes {
    const store: MemoryStore

    constructor (s: MemoryStore)
      ensures store == s
    {
      store := s;
    }

    method GetDraft(id: Id) returns (d: Option<Draft>)
      ensures d == Get(store.drafts, id)
    {
      var at := Locate(store.drafts, id);
      if at.None? {
        return None;
      }
      return Some(store.drafts[at.value]);
    }

    method Order(id: Id, caller: Option<Felt>, order: seq<Id>) returns (r: Response)
      modifies store
      ensures (store.drafts, r) == PostOrder(old(store.drafts), id, caller, order)
    {
      if !OrderBodyOk(order) {
        return Failed(400);
      }
      var draft := GetDraft(id);
      if draft.None? {
        return Failed(404);
      }
      if caller.None? {
        return Failed(401);
      }
      if draft.value.terms.organizer != caller.value {
        return Failed(403);
      }
      if draft.value.status == Created {
        return Failed(409);
      }
      var updated := store.ReorderSlots(id, order);
      if updated.None? {
        return Failed(400);
      }
      return Ok(updated.value);
    }

    method ReportCreated(id: Id, caller: Option<Felt>, circleId: int, txHash: Felt, v: View) returns (r: Response)
      modifies store
      ensures (store.drafts, r) == PostCreated(old(store.drafts), id, caller, circleId, txHash, v)
    {
      if circleId <= 0 {
        return Failed(400);
      }
      var draft := GetDraft(id);
      if draft.None? {
        return Failed(404);
      }
      if caller.None? {
        return Failed(401);
      }
      if draft.value.terms.organizer != caller.value {
        return Failed(403);
      }
      if draft.value.circleId.Some? {
        if draft.value.circleId.value == circleId {
          return Ok(draft.value);
        }
        return Failed(409);
      }
      var evidence := VerifyCreated(v, draft.value, circleId, Some(txHash));
      if evidence.Unavailable? {
        return Failed(503);
      }
      if evidence.Rejected? {
        return Failed(422);
      }
      var updated := store.MarkDraftCreated(id, circleId, Some(txHash));
      return Ok(updated.value);
    }

    method Reconcile(id: Id, caller: Option<Felt>, v: View) returns (r: Response)
      modifies store
      ensures (store.drafts, r) == PostReconcile(old(store.drafts), id, caller, v)
    {
      var draft := GetDraft(id);
      if draft.None? {
        return Failed(404);
      }
      if caller.None? {
        return Failed(401);
      }
      if draft.value.terms.organizer != caller.value {
        return Failed(403);
      }
      if draft.value.circleId.Some? {
        return Ok(draft.value);
      }
      var found := FindCircleForDraft(v, draft.value);
      if found.Unreachable? {
        return Failed(503);
      }
      if found.Absent? {
        return Failed(404);
      }
      var updated := store.MarkDraftCreated(id, found.circleId, draft.value.createdTx);
      return Ok(updated.value);
    }
  }

  // --- Runs ---

  /** The service's drafts and the circles on chain, which only ever grow. */
  datatype World = World(drafts: seq<Draft>, chain: seq<Onchain>)

  datatype Step =
    | NewDraft(caller: Option<Felt>, terms: Terms, id: Id, slotIds: seq<Id>, tokens: seq<Token>, now: int)
    | AcceptStep(input: AcceptInput, now: int)
    | OrderStep(id: Id, caller: Option<Felt>, order: seq<Id>)
    | CreatedStep(id: Id, caller: Option<Felt>, circleId: int, txHash: Felt, view: View)
    | ReconcileStep(id: Id, caller: Option<Felt>, view: View)
    | ChainGrows(circle: Onchain)

  /** Whether the create route gets as far as the store. */
  predicate CreateAllowed(s: Step)
    requires s.NewDraft?
  {
    s.caller.Some? && CreateBodyOk(s.terms) && s.caller.value == s.terms.organizer
    && |s.slotIds| == |s.tokens| == s.terms.memberCount
  }

  function Next(w: World, s: Step): World {
    match s
    case NewDraft(_, terms, id, slotIds, tokens, now) =>
      if CreateAllowed(s) then w.(drafts := Create(w.drafts, terms, id, slotIds, tokens, now)) else w
    case AcceptStep(input, now) => w.(drafts := AfterAccept(w.drafts, input, now))
    case OrderStep(id, caller, order) => w.(drafts := PostOrder(w.drafts, id, caller, order).0)
    case CreatedStep(id, caller, circleId, txHash, v) =>
      w.(drafts := PostCreated(w.drafts, id, caller, circleId, txHash, v).0)
    case ReconcileStep(id, caller, v) => w.(drafts := PostReconcile(w.drafts, id, caller, v).0)
    case ChainGrows(c) => w.(chain := w.chain + [c])
  }

  /** Fresh ids and links, and reads that tell the truth about the chain as it stands. */
  ghost predicate Possible(w: World, s: Step) {
    match s
    case NewDraft(_, terms, id, slotIds, tokens, now) =>
      CreateAllowed(s) ==> Legal(w.drafts, CreateOp(terms, id, slotIds, tokens, now))
    case CreatedStep(_, _, _, _, v) => Truthful(v, w.chain)
    case ReconcileStep(_, _, v) => Truthful(v, w.chain)
    case _ => true
  }

  function Run(w: World, steps: seq<Step>): World {
    if |steps| == 0 then w else Next(Run(w, steps[..|steps| - 1]), steps[|steps| - 1])
  }

  ghost predicate PossibleRun(w: World, steps: seq<Step>) {
    |steps| == 0
    || (PossibleRun(w, steps[..|steps| - 1]) && Possible(Run(w, steps[..|steps| - 1]), steps[|steps| - 1]))
  }

  // --- What a record means ---

  /** The circle is the draft's: the same members in the same places, the same money, the same size. */
  predicate Agrees(d: Draft, c: Onchain) {
    && |c.order| == |d.slots| && (forall k :: 0 <= k < |d.slots| ==> d.slots[k].memberRef == Some(c.order[k]))
    && d.terms.amount == Decimal(c.amount) && d.terms.memberCount == c.memberLimit
  }

  /** Created and recorded are the same thing, and the circle recorded agrees. */
  predicate RecordHonest(d: Draft, chain: seq<Onchain>) {
    && (d.status == Created <==> d.circleId.Some?)
    && (d.circleId.Some? ==> 1 <= d.circleId.value <= |chain| && Agrees(d, chain[d.circleId.value - 1]))
  }

  ghost predicate Inv(w: World) {
    StoreOk(w.drafts) && forall i :: 0 <= i < |w.drafts| ==> RecordHonest(w.drafts[i], w.chain)
  }

  /** Nothing is lost, and a recorded draft never changes again. */
  ghost predicate Frozen(before: World, after: World) {
    && before.chain <= after.chain && |before.drafts| <= |after.drafts|
    && forall i :: 0 <= i < |before.drafts| && before.drafts[i].circleId.Some? ==> after.drafts[i] == before.drafts[i]
  }

  lemma {:induction false} SortedAlready(slots: seq<Slot>)
    requires Numbered(slots)
    ensures SortSlots(slots) == slots
  {
    if slots != [] {
      var front := slots[..|slots| - 1];
      SortedAlready(front);
      assert slots == front + [slots[|slots| - 1]];
    }
  }

  /** Matching is agreeing. */
  lemma MatchesAgrees(d: Draft, c: Onchain)
    requires Numbered(d.slots)
    ensures Matches(c, d) <==> Agrees(d, c)
  {
    hide Decimal, SortSlots;
    SortedAlready(d.slots);
    if Agrees(d, c) {
      assert Members(d.slots).value == c.order;
    }
  }

  lemma VerifiedAgrees(w: World, d: Draft, v: View, id: int)
    requires Truthful(v, w.chain) && Numbered(d.slots) && VerifyCreated(v, d, id, None) == Verified
    ensures 1 <= id <= |w.chain| && Agrees(d, w.chain[id - 1])
  {
    hide VerifyCreated, Matches, Truthful, Agrees;
    VerifiedExactly(v, w.chain, d, id);
    MatchesAgrees(d, w.chain[id - 1]);
  }

  lemma DiscoveredAgrees(w: World, d: Draft, v: View)
    requires Truthful(v, w.chain) && Numbered(d.slots) && Discover(v, d).Found?
    ensures var id := Discover(v, d).circleId; 1 <= id <= |w.chain| && Agrees(d, w.chain[id - 1])
  {
    hide Walk, Matches, Truthful, Agrees;
    WalkExact(v, w.chain, d, 1);
    MatchesAgrees(d, w.chain[Discover(v, d).circleId - 1]);
  }

  /** Writing the record of a circle that agrees. */
  lemma RecordKeeps(w: World, i: nat, circleId: int, txHash: Option<Felt>)
    requires Inv(w) && i < |w.drafts| && w.drafts[i].circleId.None?
    requires 1 <= circleId <= |w.chain| && Agrees(w.drafts[i], w.chain[circleId - 1])
    ensures var next := w.(drafts := Record(w.drafts, w.drafts[i].id, circleId, txHash).0);
            Locate(w.drafts, w.drafts[i].id) == Some(i) && Inv(next) && Frozen(w, next)
  {
    hide DraftOk, Unshared, Kept;
    LocateOwn(w.drafts, i);
    StepKeeps(w.drafts, MarkOp(w.drafts[i].id, circleId, txHash));
  }

  lemma LocatedNumbered(drafts: seq<Draft>, id: Id)
    requires StoreOk(drafts) && Locate(drafts, id).Some?
    ensures Numbered(drafts[Locate(drafts, id).value].slots)
    ensures Locate(drafts, drafts[Locate(drafts, id).value].id).Some?
  {
  }

  lemma CreatedKeeps(w: World, s: Step)
    requires Inv(w) && s.CreatedStep? && Possible(w, s)
    ensures Inv(Next(w, s)) && Frozen(w, Next(w, s))
  {
    hide StoreOk, VerifyCreated, RecordHonest, Truthful, Record, Agrees;
    var d := Get(w.drafts, s.id);
    if OrganizerOnly(d, s.caller).None? && d.value.circleId.None? {
      LocatedNumbered(w.drafts, s.id);
      if s.circleId > 0 && VerifyCreated(s.view, d.value, s.circleId, Some(s.txHash)) == Verified {
        HashOnlyNarrows(s.view, d.value, s.circleId, s.txHash);
        VerifiedAgrees(w, d.value, s.view, s.circleId);
        RecordKeeps(w, Locate(w.drafts, s.id).value, s.circleId, Some(s.txHash));
      }
    }
  }

  lemma {:induction false} ReconcileKeeps(w: World, s: Step)
    requires Inv(w) && s.ReconcileStep? && Possible(w, s)
    ensures Inv(Next(w, s)) && Frozen(w, Next(w, s))
  {
    hide StoreOk, Discover, RecordHonest, Truthful, Record, Agrees;
    var d := Get(w.drafts, s.id);
    if OrganizerOnly(d, s.caller).None? && d.value.circleId.None? && Discover(s.view, d.value).Found? {
      LocatedNumbered(w.drafts, s.id);
      DiscoveredAgrees(w, d.value, s.view);
      RecordKeeps(w, Locate(w.drafts, s.id).value, Discover(s.view, d.value).circleId, d.value.createdTx);
    }
  }

  /** A draft that is not recorded, changed without recording it. */
  lemma UnrecordedKeeps(w: World, after: seq<Draft>, i: nat, e: Draft)
    requires Inv(w) && i < |w.drafts| && w.drafts[i].circleId.None?
    requires after == w.drafts[i := e] && StoreOk(after) && e.circleId.None? && e.status != Created
    ensures Inv(w.(drafts := after)) && Frozen(w, w.(drafts := after))
  {
    hide StoreOk, Agrees;
  }

  lemma OrderKeeps(w: World, s: Step)
    requires Inv(w) && s.OrderStep?
    ensures Inv(Next(w, s)) && Frozen(w, Next(w, s))
  {
    hide StoreOk, Agrees, IsOrder, Arrange, StoreKept;
    var d := Get(w.drafts, s.id);
    if OrderBodyOk(s.order) && OrganizerOnly(d, s.caller).None? && d.value.status != Created {
      var updated := Reorder(w.drafts, s.id, s.order);
      if updated.Some? {
        StepKeeps(w.drafts, ReorderOp(s.id, s.order)) by { NoConditions(w.drafts, ReorderOp(s.id, s.order)); }
        UnrecordedKeeps(w, Put(w.drafts, s.id, updated), Locate(w.drafts, s.id).value, updated.value);
      }
    }
  }

  lemma AcceptKeeps(w: World, s: Step)
    requires Inv(w) && s.AcceptStep?
    ensures Inv(Next(w, s)) && Frozen(w, Next(w, s))
  {
    hide StoreOk, Agrees, StoreKept, HasMember;
    var r := Accept(w.drafts, s.input, s.now);
    if r.Taken? {
      var i := DraftOfToken(w.drafts, s.input.inviteToken).value;
      StepKeeps(w.drafts, AcceptOp(s.input, s.now)) by { NoConditions(w.drafts, AcceptOp(s.input, s.now)); }
      assert RecordHonest(w.drafts[i], w.chain);
      UnrecordedKeeps(w, AfterAccept(w.drafts, s.input, s.now), i, r.draft);
    }
  }

  lemma GrowthKeeps(w: World, s: Step)
    requires Inv(w) && (s.ChainGrows? || s.NewDraft?) && Possible(w, s)
    ensures Inv(Next(w, s)) && Frozen(w, Next(w, s))
  {
    hide StoreOk, Agrees, StoreKept, Legal, CreateBodyOk, NewSlots;
    if s.NewDraft? && CreateAllowed(s) {
      StepKeeps(w.drafts, CreateOp(s.terms, s.id, s.slotIds, s.tokens, s.now));
    }
  }

  lemma NextKeeps(w: World, s: Step)
    requires Inv(w) && Possible(w, s)
    ensures Inv(Next(w, s)) && Frozen(w, Next(w, s))
  {
    hide Inv, Frozen, Next, Possible;
    match s
    case OrderStep(_, _, _) => OrderKeeps(w, s);
    case AcceptStep(_, _) => AcceptKeeps(w, s);
    case CreatedStep(_, _, _, _, _) => CreatedKeeps(w, s);
    case ReconcileStep(_, _, _) => ReconcileKeeps(w, s);
    case _ => GrowthKeeps(w, s);
  }

  /**
   In every run of the routes a draft's recorded circle agrees with the chain, and once
   recorded neither the draft nor the circle it names ever changes.
   */
  lemma {:induction false} RecordedForever(w: World, steps: seq<Step>)
    requires Inv(w) && PossibleRun(w, steps)
    ensures Inv(Run(w, steps)) && Frozen(w, Run(w, steps))
    decreases |steps|
  {
    hide Inv, Next, Possible;
    if |steps| > 0 {
      var front := steps[..|steps| - 1];
      RecordedForever(w, front);
      NextKeeps(Run(w, front), steps[|steps| - 1]);
    }
  }

  /** The schema admits an amount with a zero put before it, worth the same: "07" for one. */
  lemma SchemaAdmitsLeadingZero(amount: string)
    requires IsU128Text(amount) && |amount| < 39
    ensures IsU128Text("0" + amount) && NumeralValue("0" + amount, 10) == NumeralValue(amount, 10)
    ensures IsU128Text("07")
  {
    hide ValueOf;
    ZeroBefore(amount);
    SevenIsAmount();
    ZeroBefore("7");
    assert "0" + "7" == "07";
  }

  lemma SevenIsAmount()
    ensures IsU128Text("7")
  {
    assert Scan("7", 10) == [7];
    assert ValueOf([7], 10) == ValueOf([7][..0], 10) * 10 + 7;
  }

  lemma ZeroBefore(amount: string)
    requires AllDigits(amount, 10)
    ensures AllDigits("0" + amount, 10) && NumeralValue("0" + amount, 10) == NumeralValue(amount, 10)
  {
    hide ValueOf;
    var padded := "0" + amount;
    assert CharDigit('0') == Some(0);
    assert forall i :: 0 < i < |padded| ==> padded[i] == amount[i - 1];
    assert Scan(padded, 10) == Zeros(1) + Scan(amount, 10);
    PadValue(1, Scan(amount, 10), 10);
  }

  /** An amount text with a leading zero passes the schema, but its draft is never recorded. */
  lemma {:induction false} LeadingZeroNeverRecorded(w: World, steps: seq<Step>, i: nat)
    requires Inv(w) && PossibleRun(w, steps) && i < |Run(w, steps).drafts|
    requires var amount := Run(w, steps).drafts[i].terms.amount; |amount| > 1 && amount[0] == '0'
    ensures Run(w, steps).drafts[i].circleId.None?
  {
    hide StoreOk, Next, Possible, Decimal;
    RecordedForever(w, steps);
    var end := Run(w, steps);
    var d := end.drafts[i];
    assert RecordHonest(d, end.chain);
    if d.circleId.Some? {
      var c := end.chain[d.circleId.value - 1];
      OneNumbered(end.drafts, i);
      MatchesAgrees(d, c);
      LeadingZeroNeverMatches(c, d);
      assert false;
    }
  }

  lemma OneNumbered(drafts: seq<Draft>, i: nat)
    requires StoreOk(drafts) && i < |drafts|
    ensures Numbered(drafts[i].slots)
  {
  }

  /**
   The routes keep the record only because none of them abandons a draft. The store's
   own abandonDraft takes any draft: after it, the order route accepts a new arrangement
   of a recorded draft, which then disagrees with its circle.
   */
  lemma {:induction false} AbandonReopensOrder(w: World, i: nat) returns (order: seq<Id>)
    requires Inv(w) && i < |w.drafts| && w.drafts[i].circleId.Some? && CreateBodyOk(w.drafts[i].terms)
    ensures var d := w.drafts[i];
            var abandoned := Put(w.drafts, d.id, Abandon(w.drafts, d.id));
            Locate(abandoned, d.id) == Some(i)
            && PostOrder(abandoned, d.id, Some(d.terms.organizer), order).1.Ok?
            && var e := PostOrder(abandoned, d.id, Some(d.terms.organizer), order).0[i];
               e.circleId == d.circleId && !Agrees(e, w.chain[d.circleId.value - 1])
  {
    hide Unshared, StatusHonest, IsU128Text, Decimal, Arrange, IsOrder;
    var d := w.drafts[i];
    LocateOwn(w.drafts, i);
    StepKeeps(w.drafts, AbandonOp(d.id));
    var abandoned := Put(w.drafts, d.id, Abandon(w.drafts, d.id));
    LocateOwn(abandoned, i);
    assert DraftOk(d) && RecordHonest(d, w.chain);
    order := MoveInOrder(OrderOf(d), Move(0, 1));
    SavedIsOrder(d);
    MoveKeeps(d.slots, OrderOf(d), Move(0, 1));
    OrderHasNoRepeats(d.slots, order);
    SwappedFirst(d.slots, order);
    assert d.slots[0].memberRef.Some? && d.slots[0].memberRef != d.slots[1].memberRef;
  }

  lemma OrderHasNoRepeats(slots: seq<Slot>, order: seq<Id>)
    requires IsOrder(slots, order)
    ensures NoRepeats(order)
  {
  }

  lemma SwappedFirst(slots: seq<Slot>, order: seq<Id>)
    requires DistinctIds(slots) && IsOrder(slots, order) && |slots| >= 2 && order[0] == slots[1].slotId
    ensures Arrange(slots, order)[0].memberRef == slots[1].memberRef
  {
    IdFinds(slots, 1);
  }
}
