/**
 Chain evidence for a draft's circle: chainVerify.ts.

 The chain's answers to read calls are given by a View: raw field elements, a refusal
 (a contract revert), or an outage. One request sees one View.
 */
module ChainVerify {
  import opened Wrappers
  import opened Digits
  import opened Drafts

  const MAX_CIRCLE_SCAN: int := 500

  datatype Answer<+T> = Answered(value: T) | NoSuch | Down

  /** A transaction receipt: what its status says, and the contracts its events came from. */
  datatype Receipt = Receipt(succeeded: Option<bool>, emitters: seq<Felt>)

  datatype View = View(
    onNetwork: Answer<bool>,
    payoutOrder: int -> Answer<seq<nat>>,
    circle: int -> Answer<seq<nat>>,
    receipt: Felt -> Answer<Receipt>,
    iwaCircle: Felt)

  datatype Why = Unaccepted | NotAnId | WrongNetwork | NoSuchCircle | OrderDiffers | AmountDiffers | PlacesDiffer
               | TxNotFound | TxFailed | TxElsewhere

  datatype Outcome = Verified | Rejected(reason: Why) | Unavailable

  datatype Discovery = Found(circleId: int) | Absent | Unreachable

  // --- The draft's side ---

  /** A stable sort by index, as expectedPayoutOrder does on its copy. */
  function Insert(s: Slot, sorted: seq<Slot>): (r: seq<Slot>)
    ensures |r| == |sorted| + 1
  {
    if sorted == [] || s.slotIndex >= sorted[|sorted| - 1].slotIndex then sorted + [s]
    else Insert(s, sorted[..|sorted| - 1]) + [sorted[|sorted| - 1]]
  }

  function SortSlots(slots: seq<Slot>): (r: seq<Slot>)
    ensures |r| == |slots|
  {
    if slots == [] then [] else Insert(slots[|slots| - 1], SortSlots(slots[..|slots| - 1]))
  }

  function Members(slots: seq<Slot>): Option<seq<Felt>> {
    if exists i :: 0 <= i < |slots| && slots[i].memberRef.None? then None
    else Some(seq(|slots|, i requires 0 <= i < |slots| => slots[i].memberRef.value))
  }

  function ExpectedPayoutOrder(d: Draft): Option<seq<Felt>> {
    Members(SortSlots(d.slots))
  }

  // --- The chain's side ---

  /** An array comes back as its length followed by that many elements. */
  function DecodeOrder(raw: seq<nat>): Option<seq<nat>> {
    var length := if raw == [] then 0 else raw[0];
    if |raw| < length + 1 then None else Some(raw[1..length + 1])
  }

  function PayoutOrderOf(v: View, id: int): Answer<seq<nat>> {
    match v.payoutOrder(id)
    case Down => Down
    case NoSuch => NoSuch
    case Answered(raw) => if DecodeOrder(raw).None? then NoSuch else Answered(DecodeOrder(raw).value)
  }

  /** The amount as decimal text, and the number of places. */
  datatype ChainTerms = ChainTerms(amount: string, memberLimit: nat)

  function TermsOf(v: View, id: int): Answer<ChainTerms> {
    match v.circle(id)
    case Down => Down
    case NoSuch => NoSuch
    case Answered(raw) => if |raw| < 6 then NoSuch else Answered(ChainTerms(Decimal(raw[2]), raw[5]))
  }

  /** The problem with a transaction, if any. */
  function TransactionProblem(v: View, tx: Felt): Answer<Option<Why>> {
    match v.receipt(tx)
    case Down => Down
    case NoSuch => Answered(Some(TxNotFound))
    case Answered(r) =>
      if r.succeeded == Some(false) then Answered(Some(TxFailed))
      else if v.iwaCircle in r.emitters then Answered(None)
      else Answered(Some(TxElsewhere))
  }

  function VerifyCreated(v: View, d: Draft, id: int, txHash: Option<Felt>): Outcome {
    var expected := ExpectedPayoutOrder(d);
    if expected.None? then Rejected(Unaccepted)
    else if id < 1 then Rejected(NotAnId)
    else if !v.onNetwork.Answered? then Unavailable
    else if !v.onNetwork.value then Rejected(WrongNetwork)
    else match PayoutOrderOf(v, id)
      case Down => Unavailable
      case NoSuch => Rejected(NoSuchCircle)
      case Answered(order) =>
        if order != expected.value then Rejected(OrderDiffers)
        else match TermsOf(v, id)
          case Down => Unavailable
          case NoSuch => Rejected(NoSuchCircle)
          case Answered(terms) =>
            if terms.amount != d.terms.amount then Rejected(AmountDiffers)
            else if terms.memberLimit != d.terms.memberCount then Rejected(PlacesDiffer)
            else if txHash.None? then Verified
            else match TransactionProblem(v, txHash.value)
              case Answered(Some(problem)) => Rejected(problem)
              case Answered(None) => Verified
              case _ => Unavailable
  }

  /** Walks upward from id 1; stops at the first id with no circle, or when a read is down. */
  method FindCircleForDraft(v: View, d: Draft) returns (r: Discovery)
    ensures r.Found? ==>
              && 1 <= r.circleId <= MAX_CIRCLE_SCAN
              && VerifyCreated(v, d, r.circleId, None) == Verified
              && forall id :: 1 <= id < r.circleId ==> VerifyCreated(v, d, id, None).Rejected?
    ensures r.Unreachable? ==> exists id :: 1 <= id <= MAX_CIRCLE_SCAN && VerifyCreated(v, d, id, None) == Unavailable
    ensures r.Absent? ==>
              exists stop :: 1 <= stop <= MAX_CIRCLE_SCAN + 1 && StopsAt(v, d, stop)
                && forall id :: 1 <= id < stop ==> VerifyCreated(v, d, id, None).Rejected?
    ensures r == Discover(v, d)
  {
    var expected := ExpectedPayoutOrder(d);
    if expected.None? {
      assert StopsAt(v, d, 1);
      return Absent;
    }
    if !v.onNetwork.Answered? {
      assert VerifyCreated(v, d, 1, None) == Unavailable;
      return Unreachable;
    }
    if !v.onNetwork.value {
      assert StopsAt(v, d, 1);
      return Absent;
    }
    var circleId := 1;
    while circleId <= MAX_CIRCLE_SCAN
      invariant 1 <= circleId <= MAX_CIRCLE_SCAN + 1
      invariant forall id :: 1 <= id < circleId ==> VerifyCreated(v, d, id, None).Rejected?
      invariant Discover(v, d) == Walk(v, d, circleId)
    {
      var order := PayoutOrderOf(v, circleId);
      if order.Down? {
        assert VerifyCreated(v, d, circleId, None) == Unavailable;
        return Unreachable;
      }
      if order.NoSuch? {
        break;
      }
      if order.value == expected.value {
        var terms := TermsOf(v, circleId);
        if terms.Down? {
          assert VerifyCreated(v, d, circleId, None) == Unavailable;
          return Unreachable;
        }
        if terms.Answered? && terms.value.amount == d.terms.amount && terms.value.memberLimit == d.terms.memberCount {
          return Found(circleId);
        }
      }
      circleId := circleId + 1;
    }
    assert StopsAt(v, d, circleId);
    return Absent;
  }

  /** Nothing from here on is looked at: no match is possible, or the walk has ended. */
  predicate StopsAt(v: View, d: Draft, id: int) {
    ExpectedPayoutOrder(d).None? || v.onNetwork == Answered(false) || id > MAX_CIRCLE_SCAN
    || (v.onNetwork == Answered(true) && PayoutOrderOf(v, id) == NoSuch)
  }

  function Walk(v: View, d: Draft, id: int): Discovery
    decreases MAX_CIRCLE_SCAN + 1 - id
  {
    if StopsAt(v, d, id) then Absent
    else match VerifyCreated(v, d, id, None)
      case Verified => Found(id)
      case Unavailable => Unreachable
      case Rejected(_) => Walk(v, d, id + 1)
  }

  /** The same search as a recursion over verifyCreated. */
  function Discover(v: View, d: Draft): Discovery {
    Walk(v, d, 1)
  }

  // --- A truthful view of a chain ---

  /** A circle as it was created: immutable. */
  datatype Onchain = Onchain(order: seq<Felt>, amount: nat, memberLimit: nat, other: seq<nat>)

  function EncodeOrder(order: seq<Felt>): seq<nat> {
    [|order|] + order
  }

  /** The view call's answer: the amount is third and the limit sixth. */
  function EncodeCircle(c: Onchain): seq<nat>
    requires |c.other| >= 4
  {
    c.other[..2] + [c.amount] + c.other[2..4] + [c.memberLimit] + c.other[4..]
  }

  /** Ids run from 1; every read answers what the chain holds, or is down. */
  ghost predicate Truthful(v: View, chain: seq<Onchain>) {
    && v.onNetwork != Answered(false)
    && (forall i :: 0 <= i < |chain| ==> |chain[i].other| >= 4)
    && (forall id :: v.payoutOrder(id) ==
          if v.payoutOrder(id).Down? then Down
          else if 1 <= id <= |chain| then Answered(EncodeOrder(chain[id - 1].order)) else NoSuch)
    && (forall id :: v.circle(id) ==
          if v.circle(id).Down? then Down
          else if 1 <= id <= |chain| then Answered(EncodeCircle(chain[id - 1])) else NoSuch)
  }

  /** What it is for a circle to be this draft's. */
  predicate Matches(c: Onchain, d: Draft) {
    && ExpectedPayoutOrder(d) == Some(c.order)
    && Decimal(c.amount) == d.terms.amount && c.memberLimit == d.terms.memberCount
  }

  predicate MatchAt(chain: seq<Onchain>, id: int, d: Draft) {
    1 <= id <= |chain| && Matches(chain[id - 1], d)
  }

  lemma OrderRoundTrip(order: seq<Felt>)
    ensures DecodeOrder(EncodeOrder(order)) == Some(order)
  {
    assert EncodeOrder(order)[1..|order| + 1] == order;
  }

  lemma CircleReads(c: Onchain)
    requires |c.other| >= 4
    ensures |EncodeCircle(c)| >= 6 && EncodeCircle(c)[2] == c.amount && EncodeCircle(c)[5] == c.memberLimit
  {
  }

  /** Verification accepts only the circle that matches, and an answering chain's match is accepted. */
  lemma {:induction false} VerifiedExactly(v: View, chain: seq<Onchain>, d: Draft, id: int)
    requires Truthful(v, chain)
    ensures VerifyCreated(v, d, id, None) == Verified ==> MatchAt(chain, id, d)
    ensures MatchAt(chain, id, d) ==> !VerifyCreated(v, d, id, None).Rejected?
    ensures VerifyCreated(v, d, id, None) == Unavailable ==>
              v.onNetwork.Down? || v.onNetwork.NoSuch? || v.payoutOrder(id).Down? || v.circle(id).Down?
  {
    hide ExpectedPayoutOrder, DecodeOrder, EncodeOrder, EncodeCircle;
    if 1 <= id <= |chain| {
      OrderRoundTrip(chain[id - 1].order);
      CircleReads(chain[id - 1]);
    }
  }

  /** A transaction that succeeded, as far as its receipt says, and touched the circle contract. */
  predicate ReceiptSpeaks(v: View, tx: Felt) {
    v.receipt(tx).Answered? && v.receipt(tx).value.succeeded != Some(false)
    && v.iwaCircle in v.receipt(tx).value.emitters
  }

  /** A transaction hash only adds a condition: a receipt that did not fail, with an event of the circle contract. */
  lemma HashOnlyNarrows(v: View, d: Draft, id: int, tx: Felt)
    ensures VerifyCreated(v, d, id, Some(tx)) == Verified <==>
              VerifyCreated(v, d, id, None) == Verified && ReceiptSpeaks(v, tx)
  {
  }

  /** The members a truthful chain's circle calls on are the draft's, in order. */
  predicate OrderAt(chain: seq<Onchain>, id: int, d: Draft) {
    1 <= id <= |chain| && ExpectedPayoutOrder(d) == Some(chain[id - 1].order)
  }

  /**
   Verification is put off exactly when a read it needs is down: the network, the order,
   then the circle of a draft whose order is right, then the receipt of one that matches.
   An outage is never a rejection and a rejection never an outage.
   */
  lemma {:induction false} UnavailableExactly(v: View, chain: seq<Onchain>, d: Draft, id: int, tx: Option<Felt>)
    requires Truthful(v, chain)
    ensures VerifyCreated(v, d, id, tx) == Unavailable <==>
              id >= 1 && ExpectedPayoutOrder(d).Some?
              && (!v.onNetwork.Answered? || v.payoutOrder(id).Down? || (OrderAt(chain, id, d) && v.circle(id).Down?)
                  || (MatchAt(chain, id, d) && tx.Some? && v.receipt(tx.value).Down?))
  {
    hide ExpectedPayoutOrder, DecodeOrder, EncodeOrder, EncodeCircle, Decimal;
    if 1 <= id <= |chain| {
      OrderRoundTrip(chain[id - 1].order);
      CircleReads(chain[id - 1]);
    }
  }

  /** When every read it needs answers, verification says whether the circle matches. */
  lemma {:induction false} AnsweredExactly(v: View, chain: seq<Onchain>, d: Draft, id: int, tx: Felt)
    requires Truthful(v, chain) && v.onNetwork.Answered?
    requires !v.payoutOrder(id).Down? && !v.circle(id).Down? && !v.receipt(tx).Down?
    ensures VerifyCreated(v, d, id, Some(tx)) == Verified <==> MatchAt(chain, id, d) && ReceiptSpeaks(v, tx)
    ensures VerifyCreated(v, d, id, Some(tx)) != Unavailable
  {
    hide VerifyCreated, MatchAt, OrderAt, Truthful, ExpectedPayoutOrder;
    HashOnlyNarrows(v, d, id, tx);
    VerifiedExactly(v, chain, d, id);
    UnavailableExactly(v, chain, d, id, None);
    UnavailableExactly(v, chain, d, id, Some(tx));
    MatchIsExpected(chain, id, d);
  }

  lemma MatchIsExpected(chain: seq<Onchain>, id: int, d: Draft)
    ensures MatchAt(chain, id, d) ==> id >= 1 && OrderAt(chain, id, d)
  {
  }

  lemma {:induction false} WalkExact(v: View, chain: seq<Onchain>, d: Draft, id: int)
    requires Truthful(v, chain) && id >= 1
    ensures Walk(v, d, id).Found? ==>
              var c := Walk(v, d, id).circleId;
              id <= c <= MAX_CIRCLE_SCAN && MatchAt(chain, c, d) && forall k :: id <= k < c ==> !MatchAt(chain, k, d)
    ensures Walk(v, d, id).Absent? ==>
              forall k :: id <= k <= MAX_CIRCLE_SCAN ==> !MatchAt(chain, k, d)
    ensures Walk(v, d, id).Unreachable? ==>
              v.onNetwork != Answered(true) || exists k :: k >= id && (v.payoutOrder(k).Down? || v.circle(k).Down?)
    decreases MAX_CIRCLE_SCAN + 1 - id
  {
    BeyondStops(v, d, id);
    hide ExpectedPayoutOrder, DecodeOrder, EncodeOrder, EncodeCircle, VerifyCreated, Truthful, MatchAt, StopsAt;
    VerifiedExactly(v, chain, d, id);
    StopMeans(v, chain, d, id);
    if !StopsAt(v, d, id) && VerifyCreated(v, d, id, None).Rejected? {
      WalkExact(v, chain, d, id + 1);
    }
  }

  lemma BeyondStops(v: View, d: Draft, id: int)
    ensures id > MAX_CIRCLE_SCAN ==> StopsAt(v, d, id)
  {
  }

  lemma StopMeans(v: View, chain: seq<Onchain>, d: Draft, id: int)
    requires Truthful(v, chain) && id >= 1
    ensures StopsAt(v, d, id) ==> forall k :: id <= k <= MAX_CIRCLE_SCAN ==> !MatchAt(chain, k, d)
  {
    hide ExpectedPayoutOrder, DecodeOrder, EncodeOrder, EncodeCircle;
    if 1 <= id <= |chain| {
      OrderRoundTrip(chain[id - 1].order);
    }
  }

  /**
   On a chain every read of which answers, discovery finds the first matching circle
   among ids 1 to 500, and says absent exactly when there is none.
   */
  lemma {:induction false} DiscoveryExact(v: View, chain: seq<Onchain>, d: Draft)
    requires Truthful(v, chain) && v.onNetwork == Answered(true)
    requires forall id :: !v.payoutOrder(id).Down? && !v.circle(id).Down?
    ensures Discover(v, d).Absent? <==>
              forall k :: 1 <= k <= MAX_CIRCLE_SCAN ==> !MatchAt(chain, k, d)
    ensures Discover(v, d).Found? ==>
              var c := Discover(v, d).circleId;
              1 <= c <= MAX_CIRCLE_SCAN && MatchAt(chain, c, d) && forall k :: 1 <= k < c ==> !MatchAt(chain, k, d)
    ensures !Discover(v, d).Unreachable?
  {
    hide Walk, MatchAt, Truthful;
    WalkExact(v, chain, d, 1);
  }

  // --- What an amount must look like ---

  /** An amount written with a leading zero matches no circle, whatever it is worth. */
  lemma LeadingZeroNeverMatches(c: Onchain, d: Draft)
    requires |d.terms.amount| > 1 && d.terms.amount[0] == '0'
    ensures !Matches(c, d)
  {
    ZeroPrints();
  }

  /** Every other decimal text is the chain's own for the amount it is worth. */
  lemma PlainAmountMatches(amount: string)
    requires IsNumeral(amount, 10)
    ensures Decimal(NumeralValue(amount, 10)) == amount <==> (|amount| == 1 || amount[0] != '0')
  {
    hide DigitsOf, ValueOf;
    var ds := Scan(amount, 10);
    if |amount| == 1 || amount[0] != '0' {
      DecimalDigit(amount[0]);
      DigitsUnique(ds, 10);
      PrintsBack(amount);
    }
    ZeroPrints();
  }

  lemma DecimalDigit(c: char)
    requires CharDigit(c).Some? && CharDigit(c).value < 10
    ensures DigitChar(CharDigit(c).value) == c && (CharDigit(c).value == 0 <==> c == '0')
  {
  }

  lemma PrintsBack(s: string)
    requires AllDigits(s, 10)
    ensures Print(Scan(s, 10)) == s
  {
    hide CharDigit, DigitChar;
    forall i | 0 <= i < |s|
      ensures Print(Scan(s, 10))[i] == s[i]
    {
      DecimalDigit(s[i]);
    }
  }
}
