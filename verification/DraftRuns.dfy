/** What every run of the draft store keeps. */
module DraftRuns {
  import opened Wrappers
  import opened Drafts

  // --- The invariant ---

  ghost predicate Numbered(slots: seq<Slot>) {
    forall i :: 0 <= i < |slots| ==> slots[i].slotIndex == i
  }

  ghost predicate DistinctIds(slots: seq<Slot>) {
    forall i, j :: 0 <= i < j < |slots| ==> slots[i].slotId != slots[j].slotId
  }

  ghost predicate DistinctMembers(slots: seq<Slot>) {
    forall i, j :: 0 <= i < j < |slots| && slots[i].memberRef.Some? ==> slots[i].memberRef != slots[j].memberRef
  }

  /** An open draft is ready exactly when every place is accepted. */
  ghost predicate StatusHonest(d: Draft) {
    !Closed(d) ==> (d.status == Ready <==> forall i :: 0 <= i < |d.slots| ==> d.slots[i].memberRef.Some?)
  }

  ghost predicate DraftOk(d: Draft) {
    && |d.slots| == d.terms.memberCount >= 1
    && Numbered(d.slots) && DistinctIds(d.slots) && DistinctMembers(d.slots)
    && StatusHonest(d)
  }

  /** Place j of draft i is the slot, for some j. */
  predicate Has(d: Draft, id: Id, token: Token) {
    exists j :: 0 <= j < |d.slots| && d.slots[j].slotId == id && d.slots[j].inviteToken == token
  }

  /** No invite link and no slot id is shared by two places anywhere in the store. */
  ghost predicate Unshared(drafts: seq<Draft>) {
    forall i, k, a, s, b, t ::
      0 <= i < |drafts| && 0 <= k < |drafts| && Has(drafts[i], a, s) && Has(drafts[k], b, t) && (a == b || s == t)
      ==> i == k && a == b && s == t
  }

  ghost predicate StoreOk(drafts: seq<Draft>) {
    && (forall i :: 0 <= i < |drafts| ==> DraftOk(drafts[i]))
    && (forall i, k :: 0 <= i < k < |drafts| ==> drafts[i].id != drafts[k].id)
    && Unshared(drafts)
  }

  // --- What never changes ---

  /** Later states of a draft: same terms, same slot-link pairs, and whoever took a place still holds it. */
  ghost predicate Kept(d: Draft, e: Draft) {
    && e.id == d.id && e.terms == d.terms && |e.slots| == |d.slots|
    && (forall a, s :: Has(e, a, s) <==> Has(d, a, s))
    && forall j :: 0 <= j < |d.slots| && d.slots[j].memberRef.Some? ==> Stays(d.slots[j], e.slots)
  }

  /** The slot at position k is s, but for its index. */
  predicate MovedTo(s: Slot, slots: seq<Slot>, k: int) {
    0 <= k < |slots| && slots[k] == s.(slotIndex := k)
  }

  ghost predicate Stays(s: Slot, slots: seq<Slot>) {
    exists k :: MovedTo(s, slots, k)
  }

  ghost predicate ComesFrom(before: seq<Slot>, after: seq<Slot>, k: int) {
    exists j :: 0 <= j < |before| && MovedTo(before[j], after, k)
  }

  ghost predicate Rearranged(before: seq<Slot>, after: seq<Slot>) {
    && |after| == |before|
    && (forall j :: 0 <= j < |before| ==> Stays(before[j], after))
    && forall k :: 0 <= k < |after| ==> ComesFrom(before, after, k)
  }

  ghost predicate StoreKept(before: seq<Draft>, after: seq<Draft>) {
    |before| <= |after| && forall i :: 0 <= i < |before| ==> Kept(before[i], after[i])
  }

  // --- Runs ---

  datatype Op =
    | CreateOp(terms: Terms, id: Id, slotIds: seq<Id>, tokens: seq<Token>, now: int)
    | AcceptOp(input: AcceptInput, now: int)
    | ReorderOp(id: Id, order: seq<Id>)
    | MarkOp(id: Id, circle: int, txHash: Option<Felt>)
    | AbandonOp(id: Id)

  function Apply(drafts: seq<Draft>, op: Op): seq<Draft> {
    match op
    case CreateOp(terms, id, slotIds, tokens, now) =>
      if |slotIds| == |tokens| then Create(drafts, terms, id, slotIds, tokens, now) else drafts
    case AcceptOp(input, now) => AfterAccept(drafts, input, now)
    case ReorderOp(id, order) => Put(drafts, id, Reorder(drafts, id, order))
    case MarkOp(id, circle, txHash) => Put(drafts, id, MarkCreated(drafts, id, circle, txHash))
    case AbandonOp(id) => Put(drafts, id, Abandon(drafts, id))
  }

  function After(drafts: seq<Draft>, ops: seq<Op>): seq<Draft> {
    if ops == [] then drafts else Apply(After(drafts, ops[..|ops| - 1]), ops[|ops| - 1])
  }

  /** New ids and links are fresh, and the route's schema admits 2 to 32 members. */
  ghost predicate Legal(drafts: seq<Draft>, op: Op) {
    op.CreateOp? ==>
      && 2 <= op.terms.memberCount <= 32 && |op.slotIds| == |op.tokens| == op.terms.memberCount
      && Locate(drafts, op.id).None?
      && NoRepeats(op.slotIds) && NoRepeats(op.tokens)
      && forall i, a, s {:trigger Has(drafts[i], a, s)} :: 0 <= i < |drafts| && Has(drafts[i], a, s) ==>
           a !in op.slotIds && s !in op.tokens
  }

  ghost predicate LegalRun(drafts: seq<Draft>, ops: seq<Op>)
    decreases |ops|
  {
    ops == [] ||
    (LegalRun(drafts, ops[..|ops| - 1]) && Legal(After(drafts, ops[..|ops| - 1]), ops[|ops| - 1]))
  }

  // --- A reorder rearranges ---

  function Names(xs: seq<Id>): set<Id> {
    set x | x in xs
  }

  lemma {:induction false} DistinctFill(xs: seq<Id>)
    requires NoRepeats(xs)
    ensures |Names(xs)| == |xs|
  {
    if xs != [] {
      var front, last := xs[..|xs| - 1], xs[|xs| - 1];
      DistinctFill(front);
      assert last !in front;
      assert xs == front + [last];
      assert Names(xs) == Names(front) + {last};
    } else {
      assert Names(xs) == {};
    }
  }

  function Ids(slots: seq<Slot>): (r: seq<Id>)
    ensures |r| == |slots| && forall i :: 0 <= i < |r| ==> r[i] == slots[i].slotId
  {
    seq(|slots|, i requires 0 <= i < |slots| => slots[i].slotId)
  }

  /** n different names of n places leave none out. */
  lemma OrderCovers(slots: seq<Slot>, order: seq<Id>)
    requires DistinctIds(slots) && IsOrder(slots, order)
    ensures forall j :: 0 <= j < |slots| ==> slots[j].slotId in order
  {
    var ids := Ids(slots);
    DistinctFill(order);
    DistinctFill(ids);
    var named, all := Names(order), Names(ids);
    forall x | x in named
      ensures x in all
    {
      var k :| 0 <= k < |order| && order[k] == x;
      assert ids[SlotOfId(slots, order[k]).value] == x;
    }
    assert named <= all;
    assert |named| == |order| == |slots| == |ids|;
    assert NoRepeats(ids);
    SubsetOfSameSize(named, all);
    forall j | 0 <= j < |slots|
      ensures slots[j].slotId in order
    {
      assert ids[j] in all;
    }
  }

  lemma SubsetOfSameSize(a: set<Id>, b: set<Id>)
    requires a <= b && |a| == |b|
    ensures a == b
  {
    assert |b - a| == |b| - |a|;
  }

  lemma IdFinds(slots: seq<Slot>, j: nat)
    requires DistinctIds(slots) && j < |slots|
    ensures SlotOfId(slots, slots[j].slotId) == Some(j)
  {
    var r := SlotOfId(slots, slots[j].slotId);
    assert r.Some? && r.value <= j;
  }

  /** Where each place went: the new position of place j. */
  lemma ArrangedBack(slots: seq<Slot>, order: seq<Id>, j: nat) returns (k: nat)
    requires DistinctIds(slots) && IsOrder(slots, order) && j < |slots|
    ensures k < |order| && order[k] == slots[j].slotId
    ensures Arrange(slots, order)[k] == slots[j].(slotIndex := k)
  {
    OrderCovers(slots, order);
    k :| 0 <= k < |order| && order[k] == slots[j].slotId;
    IdFinds(slots, j);
  }

  lemma ArrangeOk(slots: seq<Slot>, order: seq<Id>)
    requires DistinctIds(slots) && DistinctMembers(slots) && IsOrder(slots, order)
    ensures var r := Arrange(slots, order);
            Numbered(r) && DistinctIds(r) && DistinctMembers(r) && Ids(r) == order
  {
    var r := Arrange(slots, order);
    forall i, j | 0 <= i < j < |r|
      ensures r[i].slotId != r[j].slotId
      ensures r[i].memberRef.Some? ==> r[i].memberRef != r[j].memberRef
    {
      var p, q := SlotOfId(slots, order[i]).value, SlotOfId(slots, order[j]).value;
      assert slots[p].slotId == order[i] != order[j] == slots[q].slotId;
      assert p < q || q < p;
    }
  }

  lemma ReorderKeeps(d: Draft, order: seq<Id>)
    requires DraftOk(d) && IsOrder(d.slots, order)
    ensures var e := d.(slots := Arrange(d.slots, order)); DraftOk(e) && Kept(d, e)
  {
    var e := d.(slots := Arrange(d.slots, order));
    ArrangeOk(d.slots, order);
    ArrangeRearranges(d.slots, order);
    HasBothWays(d, e);
    AllTaken(d, e);
  }

  lemma ArrangeRearranges(slots: seq<Slot>, order: seq<Id>)
    requires DistinctIds(slots) && IsOrder(slots, order)
    ensures Rearranged(slots, Arrange(slots, order))
  {
    var r := Arrange(slots, order);
    forall j | 0 <= j < |slots|
      ensures Stays(slots[j], r)
    {
      var k := ArrangedBack(slots, order, j);
      assert MovedTo(slots[j], r, k);
    }
    forall k | 0 <= k < |r|
      ensures ComesFrom(slots, r, k)
    {
      assert MovedTo(slots[SlotOfId(slots, order[k]).value], r, k);
    }
  }

  lemma HasBothWays(d: Draft, e: Draft)
    requires Rearranged(d.slots, e.slots)
    ensures forall a, s :: Has(e, a, s) <==> Has(d, a, s)
  {
    forall a, s
      ensures Has(e, a, s) <==> Has(d, a, s)
    {
      if Has(d, a, s) {
        var j :| 0 <= j < |d.slots| && d.slots[j].slotId == a && d.slots[j].inviteToken == s;
        var k :| MovedTo(d.slots[j], e.slots, k);
        assert e.slots[k].slotId == a;
      }
      if Has(e, a, s) {
        var k :| 0 <= k < |e.slots| && e.slots[k].slotId == a && e.slots[k].inviteToken == s;
        assert ComesFrom(d.slots, e.slots, k);
        var j :| 0 <= j < |d.slots| && MovedTo(d.slots[j], e.slots, k);
        assert d.slots[j].slotId == a;
      }
    }
  }

  lemma AllTaken(d: Draft, e: Draft)
    requires Rearranged(d.slots, e.slots)
    ensures (forall j :: 0 <= j < |d.slots| ==> d.slots[j].memberRef.Some?)
      <==> (forall k :: 0 <= k < |e.slots| ==> e.slots[k].memberRef.Some?)
  {
    if j :| 0 <= j < |d.slots| && d.slots[j].memberRef.None? {
      var k :| MovedTo(d.slots[j], e.slots, k);
      assert e.slots[k].memberRef.None?;
    }
    if k :| 0 <= k < |e.slots| && e.slots[k].memberRef.None? {
      assert ComesFrom(d.slots, e.slots, k);
      var j :| 0 <= j < |d.slots| && MovedTo(d.slots[j], e.slots, k);
      assert d.slots[j].memberRef.None?;
    }
  }

  // --- Taking a place ---

  lemma ClaimKeeps(d: Draft, j: nat, input: AcceptInput, now: int)
    requires DraftOk(d) && j < |d.slots| && Claim(d, j, input, now).Taken?
    ensures var e := Claim(d, j, input, now).draft; DraftOk(e) && Kept(d, e)
  {
    var e := Claim(d, j, input, now).draft;
    assert forall k :: 0 <= k < |d.slots| && k != j ==> e.slots[k] == d.slots[k];
    forall a, s
      ensures Has(e, a, s) <==> Has(d, a, s)
    {
      if Has(d, a, s) {
        var k :| 0 <= k < |d.slots| && d.slots[k].slotId == a && d.slots[k].inviteToken == s;
        assert e.slots[k].slotId == a && e.slots[k].inviteToken == s;
      }
      if Has(e, a, s) {
        var k :| 0 <= k < |e.slots| && e.slots[k].slotId == a && e.slots[k].inviteToken == s;
        assert d.slots[k].slotId == a && d.slots[k].inviteToken == s;
      }
    }
    forall k | 0 <= k < |d.slots| && d.slots[k].memberRef.Some?
      ensures Stays(d.slots[k], e.slots)
    {
      assert MovedTo(d.slots[k], e.slots, k);
    }
  }

  // --- Runs keep everything ---

  lemma KeptReflexive(d: Draft)
    requires Numbered(d.slots)
    ensures Kept(d, d)
  {
    forall j | 0 <= j < |d.slots|
      ensures Stays(d.slots[j], d.slots)
    {
      assert MovedTo(d.slots[j], d.slots, j);
    }
  }

  lemma KeptTransitive(d: Draft, e: Draft, f: Draft)
    requires Kept(d, e) && Kept(e, f)
    ensures Kept(d, f)
  {
    forall j | 0 <= j < |d.slots| && d.slots[j].memberRef.Some?
      ensures Stays(d.slots[j], f.slots)
    {
      var k :| MovedTo(d.slots[j], e.slots, k);
      assert e.slots[k].memberRef.Some?;
      var m :| MovedTo(e.slots[k], f.slots, m);
      assert MovedTo(d.slots[j], f.slots, m);
    }
  }

  lemma StoreKeptReflexive(drafts: seq<Draft>)
    requires StoreOk(drafts)
    ensures StoreKept(drafts, drafts)
  {
    forall i | 0 <= i < |drafts|
      ensures Kept(drafts[i], drafts[i])
    {
      KeptReflexive(drafts[i]);
    }
  }

  /** Replacing one draft by a later state of it. */
  lemma ReplaceKeeps(drafts: seq<Draft>, i: nat, e: Draft)
    requires StoreOk(drafts) && i < |drafts| && DraftOk(e) && Kept(drafts[i], e)
    ensures StoreOk(drafts[i := e]) && StoreKept(drafts, drafts[i := e])
  {
    hide DraftOk, Has;
    var after := drafts[i := e];
    forall k | 0 <= k < |drafts|
      ensures Kept(drafts[k], after[k])
    {
      assert DraftOk(drafts[k]) ==> Numbered(drafts[k].slots) by { NumberedWhenOk(drafts[k]); }
      KeptReflexive(drafts[k]);
    }
    forall p, q, a, s, b, t | 0 <= p < |after| && 0 <= q < |after| && Has(after[p], a, s) && Has(after[q], b, t)
                              && (a == b || s == t)
      ensures p == q && a == b && s == t
    {
      assert Has(drafts[p], a, s) && Has(drafts[q], b, t);
    }
  }

  lemma NumberedWhenOk(d: Draft)
    ensures DraftOk(d) ==> Numbered(d.slots)
  {
  }

  lemma NewDraftOk(d: Draft, slotIds: seq<Id>, tokens: seq<Token>)
    requires |slotIds| == |tokens| == d.terms.memberCount >= 1
    requires d.status == Open && d.slots == NewSlots(slotIds, tokens)
    requires NoRepeats(slotIds) && NoRepeats(tokens)
    ensures DraftOk(d)
    ensures forall a, s :: Has(d, a, s) ==> a in slotIds && s in tokens
    ensures forall a, s, b, t :: Has(d, a, s) && Has(d, b, t) && (a == b || s == t) ==> a == b && s == t
  {
    assert d.slots[0].memberRef.None?;
    forall a, s, b, t | Has(d, a, s) && Has(d, b, t) && (a == b || s == t)
      ensures a == b && s == t
    {
      var j :| 0 <= j < |d.slots| && d.slots[j].slotId == a && d.slots[j].inviteToken == s;
      var k :| 0 <= k < |d.slots| && d.slots[k].slotId == b && d.slots[k].inviteToken == t;
      assert slotIds[j] == a && slotIds[k] == b && tokens[j] == s && tokens[k] == t;
      assert j == k;
    }
  }

  lemma CreateKeeps(drafts: seq<Draft>, op: Op)
    requires StoreOk(drafts) && op.CreateOp? && Legal(drafts, op)
    ensures StoreOk(Apply(drafts, op)) && StoreKept(drafts, Apply(drafts, op))
  {
    hide DraftOk, Has, Kept, NoRepeats;
    var after := Apply(drafts, op);
    var n := |drafts|;
    var d := after[n];
    assert after == drafts + [d];
    NewDraftOk(d, op.slotIds, op.tokens);
    StoreKeptReflexive(drafts);
    forall p, q, a, s, b, t | 0 <= p < |after| && 0 <= q < |after| && Has(after[p], a, s) && Has(after[q], b, t)
                              && (a == b || s == t)
      ensures p == q && a == b && s == t
    {
      assert after[p] == if p < n then drafts[p] else d;
      assert after[q] == if q < n then drafts[q] else d;
    }
  }

  lemma CloseKeeps(d: Draft, status: Status, circle: Option<int>, txHash: Option<Felt>)
    requires DraftOk(d) && (status == Created || status == Abandoned)
    ensures var e := d.(status := status, circleId := circle, createdTx := txHash); DraftOk(e) && Kept(d, e)
  {
    var e := d.(status := status, circleId := circle, createdTx := txHash);
    KeptReflexive(d);
    assert e.slots == d.slots;
    assert forall a, s :: Has(e, a, s) <==> Has(d, a, s);
  }

  lemma StepKeeps(drafts: seq<Draft>, op: Op)
    requires StoreOk(drafts) && Legal(drafts, op)
    ensures StoreOk(Apply(drafts, op)) && StoreKept(drafts, Apply(drafts, op))
  {
    hide DraftOk, Kept, Unshared, Claim, Arrange, IsOrder, NewSlots;
    StoreKeptReflexive(drafts);
    match op
    case CreateOp(_, _, _, _, _) =>
      CreateKeeps(drafts, op);
    case AcceptOp(input, now) =>
      if Accept(drafts, input, now).Taken? {
        var i := DraftOfToken(drafts, input.inviteToken).value;
        ClaimKeeps(drafts[i], SlotOfToken(drafts[i].slots, input.inviteToken).value, input, now);
        ReplaceKeeps(drafts, i, Accept(drafts, input, now).draft);
      }
    case ReorderOp(id, order) =>
      if Reorder(drafts, id, order).Some? {
        var i := Locate(drafts, id).value;
        ReorderKeeps(drafts[i], order);
        ReplaceKeeps(drafts, i, Reorder(drafts, id, order).value);
      }
    case MarkOp(id, circle, txHash) =>
      if Locate(drafts, id).Some? {
        var i := Locate(drafts, id).value;
        CloseKeeps(drafts[i], Created, Some(circle), txHash);
        ReplaceKeeps(drafts, i, MarkCreated(drafts, id, circle, txHash).value);
      }
    case AbandonOp(id) =>
      if Locate(drafts, id).Some? {
        var i := Locate(drafts, id).value;
        CloseKeeps(drafts[i], Abandoned, drafts[i].circleId, drafts[i].createdTx);
        ReplaceKeeps(drafts, i, Abandon(drafts, id).value);
      }
  }

  /**
   In every run of the store: indices are positions, no id or link is shared, accepted
   members are pairwise distinct, an open draft is ready exactly when full; and every
   draft keeps its terms, its slot-link pairs and whoever has taken a place.
   */
  lemma {:induction false} RunKeeps(drafts: seq<Draft>, ops: seq<Op>)
    requires StoreOk(drafts) && LegalRun(drafts, ops)
    ensures StoreOk(After(drafts, ops)) && StoreKept(drafts, After(drafts, ops))
    decreases |ops|
  {
    hide StoreOk, Apply, Legal, Kept;
    StoreKeptReflexive(drafts);
    if ops != [] {
      var front := ops[..|ops| - 1];
      RunKeeps(drafts, front);
      var mid := After(drafts, front);
      StepKeeps(mid, ops[|ops| - 1]);
      var last := After(drafts, ops);
      forall i | 0 <= i < |drafts|
        ensures Kept(drafts[i], last[i])
      {
        KeptTransitive(drafts[i], mid[i], last[i]);
      }
    }
  }

  // --- Invitations ---

  /** The place a link opens, as acceptInvite finds it. */
  lemma LinkOpens(drafts: seq<Draft>, i: nat, j: nat)
    requires StoreOk(drafts) && i < |drafts| && j < |drafts[i].slots|
    ensures var token := drafts[i].slots[j].inviteToken;
            DraftOfToken(drafts, token) == Some(i) && SlotOfToken(drafts[i].slots, token) == Some(j)
  {
    hide Closed, DistinctMembers, StatusHonest, Numbered;
    var slot := drafts[i].slots[j];
    assert Has(drafts[i], slot.slotId, slot.inviteToken);
    var p := DraftOfToken(drafts, slot.inviteToken);
    assert p.Some? && p.value <= i;
    var q := SlotOfToken(drafts[p.value].slots, slot.inviteToken).value;
    var other := drafts[p.value].slots[q];
    assert Has(drafts[p.value], other.slotId, other.inviteToken);
    assert p.value == i && other.slotId == slot.slotId;
    assert DraftOk(drafts[i]);
  }

  /** What a link must be to open place j of draft i to this member. */
  predicate Opens(d: Draft, j: nat, input: AcceptInput)
    requires j < |d.slots|
  {
    d.slots[j].inviteToken == input.inviteToken && !Closed(d) && d.slots[j].memberRef.None?
    && !HasMember(d.slots, input.memberRef)
  }

  /** Place j of draft i is filled in, and nothing else is different but that draft's status. */
  predicate OnlyFills(before: seq<Draft>, after: seq<Draft>, i: nat, j: nat, input: AcceptInput, now: int)
    requires i < |before| && j < |before[i].slots|
  {
    |after| == |before| && |after[i].slots| == |before[i].slots|
    && after[i] == before[i].(slots := after[i].slots, status := after[i].status)
    && (forall k :: 0 <= k < |before| && k != i ==> after[k] == before[k])
    && (forall k :: 0 <= k < |before[i].slots| && k != j ==> after[i].slots[k] == before[i].slots[k])
    && FilledBy(before[i].slots[j], after[i].slots[j], input, now)
  }

  /** The same place and link, now held by the member, key and address of the input since `now`. */
  predicate FilledBy(s: Slot, t: Slot, input: AcceptInput, now: int) {
    t.slotId == s.slotId && t.slotIndex == s.slotIndex && t.inviteToken == s.inviteToken
    && t.memberRef == Some(input.memberRef) && t.authPublicKey == Some(input.authPublicKey)
    && t.acceptedBy == Some(input.address) && t.acceptedAt == Some(now)
  }

  lemma AcceptsWhen(drafts: seq<Draft>, i: nat, j: nat, input: AcceptInput, now: int)
    requires StoreOk(drafts) && i < |drafts| && j < |drafts[i].slots| && Opens(drafts[i], j, input)
    ensures Accept(drafts, input, now).Taken? && Accept(drafts, input, now).slotIndex == j
    ensures OnlyFills(drafts, AfterAccept(drafts, input, now), i, j, input, now)
  {
    hide Unshared, DistinctIds, DistinctMembers, StatusHonest, HasMember;
    LinkOpens(drafts, i, j);
    assert DraftOk(drafts[i]);
  }

  /**
   An invitation is accepted exactly when its link names a free place of an open draft
   the member is not in yet; then that place, and nothing else, changes hands.
   */
  lemma AcceptExactly(drafts: seq<Draft>, input: AcceptInput, now: int)
    requires StoreOk(drafts)
    ensures Accept(drafts, input, now).Taken? <==>
              exists i, j :: 0 <= i < |drafts| && 0 <= j < |drafts[i].slots| && Opens(drafts[i], j, input)
    ensures forall i, j :: 0 <= i < |drafts| && 0 <= j < |drafts[i].slots| && Opens(drafts[i], j, input) ==>
              OnlyFills(drafts, AfterAccept(drafts, input, now), i, j, input, now)
  {
    hide StoreOk, OnlyFills, AfterAccept;
    forall i, j | 0 <= i < |drafts| && 0 <= j < |drafts[i].slots| && Opens(drafts[i], j, input)
      ensures Accept(drafts, input, now).Taken? && OnlyFills(drafts, AfterAccept(drafts, input, now), i, j, input, now)
    {
      AcceptsWhen(drafts, i, j, input, now);
    }
    if Accept(drafts, input, now).Taken? {
      var i := DraftOfToken(drafts, input.inviteToken).value;
      assert Opens(drafts[i], SlotOfToken(drafts[i].slots, input.inviteToken).value, input);
    }
  }

  /** The place the link names. */
  predicate LinkNames(drafts: seq<Draft>, i: int, j: int, token: Token) {
    0 <= i < |drafts| && 0 <= j < |drafts[i].slots| && drafts[i].slots[j].inviteToken == token
  }

  /**
   A refusal says why: no place has the link, else the draft is closed, else the place is
   taken, else the member is in the draft already.
   */
  lemma RefusalExactly(drafts: seq<Draft>, input: AcceptInput, now: int)
    requires StoreOk(drafts) && Accept(drafts, input, now).Refused?
    ensures var why := Accept(drafts, input, now).reason;
            (why == UnknownInvite <==> forall i, j :: !LinkNames(drafts, i, j, input.inviteToken))
            && forall i, j :: LinkNames(drafts, i, j, input.inviteToken) ==>
                 var d := drafts[i];
                 (why == DraftClosed <==> Closed(d))
                 && (why == AlreadyAccepted <==> !Closed(d) && d.slots[j].memberRef.Some?)
                 && (why == DuplicateMember <==> !Closed(d) && d.slots[j].memberRef.None?)
                 && (why == DuplicateMember ==> HasMember(d.slots, input.memberRef))
  {
    hide StoreOk, HasMember, Closed;
    forall i: nat, j: nat | LinkNames(drafts, i, j, input.inviteToken)
      ensures DraftOfToken(drafts, input.inviteToken) == Some(i)
      ensures SlotOfToken(drafts[i].slots, input.inviteToken) == Some(j)
    {
      LinkOpens(drafts, i, j);
    }
    var p := DraftOfToken(drafts, input.inviteToken);
    if p.Some? {
      assert LinkNames(drafts, p.value, SlotOfToken(drafts[p.value].slots, input.inviteToken).value, input.inviteToken);
    }
  }

  /** A link that has been accepted is never accepted again, whatever happens in between. */
  lemma {:induction false} LinkSpentOnce(drafts: seq<Draft>, input: AcceptInput, now: int,
                                         ops: seq<Op>, again: AcceptInput, later: int)
    requires StoreOk(drafts) && Accept(drafts, input, now).Taken?
    requires LegalRun(AfterAccept(drafts, input, now), ops)
    requires again.inviteToken == input.inviteToken
    ensures Accept(After(AfterAccept(drafts, input, now), ops), again, later).Refused?
  {
    hide StoreOk, Unshared, LegalRun, Legal, After, Kept;
    var i := DraftOfToken(drafts, input.inviteToken).value;
    var j := SlotOfToken(drafts[i].slots, input.inviteToken).value;
    StepKeeps(drafts, AcceptOp(input, now)) by {
      assert Legal(drafts, AcceptOp(input, now)) by { NoConditions(drafts, AcceptOp(input, now)); }
    }
    var mid := AfterAccept(drafts, input, now);
    assert mid[i].slots[j].memberRef.Some? && mid[i].slots[j].inviteToken == input.inviteToken;
    RunKeeps(mid, ops);
    var last := After(mid, ops);
    assert Kept(mid[i], last[i]);
    var k := StillTaken(mid[i], last[i], j);
    LinkOpens(last, i, k);
  }

  lemma NoConditions(drafts: seq<Draft>, op: Op)
    ensures !op.CreateOp? ==> Legal(drafts, op)
  {
  }

  lemma StillTaken(d: Draft, e: Draft, j: nat) returns (k: nat)
    requires Kept(d, e) && j < |d.slots| && d.slots[j].memberRef.Some?
    ensures k < |e.slots| && e.slots[k] == d.slots[j].(slotIndex := k)
  {
    k :| MovedTo(d.slots[j], e.slots, k);
  }
}
