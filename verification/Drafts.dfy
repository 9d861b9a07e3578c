/**
 Circle drafts and their invitations: the draft half of store.ts.

 Ids, invite tokens and field elements are numbers (the service compares them only for
 equality, after normalising). Fresh ids, tokens and the clock are parameters.
 */
module Drafts {
  import opened Wrappers

  type Id = nat
  type Token = nat
  type Felt = nat

  datatype Status = Open | Ready | Created | Abandoned

  /** One reserved place. Its id never changes; its index is only a position. */
  datatype Slot = Slot(
    slotId: Id, slotIndex: int, inviteToken: Token,
    memberRef: Option<Felt>, authPublicKey: Option<Felt>, acceptedBy: Option<Felt>, acceptedAt: Option<int>)

  /** What the organizer asked for. The amount is decimal text, as stored. */
  datatype Terms = Terms(
    chainId: Felt, organizer: Felt, token: Felt, amount: string, cadence: nat, grace: nat, memberCount: nat)

  datatype Draft = Draft(
    id: Id, terms: Terms, status: Status, circleId: Option<int>, createdTx: Option<Felt>, createdAt: int,
    slots: seq<Slot>)

  datatype AcceptInput = AcceptInput(inviteToken: Token, memberRef: Felt, authPublicKey: Felt, address: Felt)

  datatype Reason = UnknownInvite | AlreadyAccepted | DuplicateMember | DraftClosed

  datatype AcceptResult = Taken(draft: Draft, slotIndex: int) | Refused(reason: Reason)

  // --- Looking things up ---

  /** Position of the first slot the link opens. */
  function SlotOfToken(slots: seq<Slot>, token: Token): (r: Option<nat>)
    ensures r.Some? ==> r.value < |slots| && slots[r.value].inviteToken == token
    ensures r.Some? ==> forall j :: 0 <= j < r.value ==> slots[j].inviteToken != token
    ensures r.None? ==> forall j :: 0 <= j < |slots| ==> slots[j].inviteToken != token
  {
    if slots == [] then None
    else if slots[0].inviteToken == token then Some(0)
    else var r :- SlotOfToken(slots[1..], token); Some(r + 1)
  }

  /** Position of the first slot with the id. */
  function SlotOfId(slots: seq<Slot>, id: Id): (r: Option<nat>)
    ensures r.Some? ==> r.value < |slots| && slots[r.value].slotId == id
    ensures r.Some? ==> forall j :: 0 <= j < r.value ==> slots[j].slotId != id
    ensures r.None? ==> forall j :: 0 <= j < |slots| ==> slots[j].slotId != id
  {
    if slots == [] then None
    else if slots[0].slotId == id then Some(0)
    else var r :- SlotOfId(slots[1..], id); Some(r + 1)
  }

  /** Position of the draft with the id. */
  function Locate(drafts: seq<Draft>, id: Id): (r: Option<nat>)
    ensures r.Some? ==> r.value < |drafts| && drafts[r.value].id == id
    ensures r.None? ==> forall i :: 0 <= i < |drafts| ==> drafts[i].id != id
  {
    if drafts == [] then None
    else if drafts[0].id == id then Some(0)
    else var r :- Locate(drafts[1..], id); Some(r + 1)
  }

  /** Position of the first draft with a slot the link opens. */
  function DraftOfToken(drafts: seq<Draft>, token: Token): (r: Option<nat>)
    ensures r.Some? ==> r.value < |drafts| && SlotOfToken(drafts[r.value].slots, token).Some?
    ensures r.Some? ==> forall i :: 0 <= i < r.value ==> SlotOfToken(drafts[i].slots, token).None?
    ensures r.None? ==> forall i :: 0 <= i < |drafts| ==> SlotOfToken(drafts[i].slots, token).None?
  {
    if drafts == [] then None
    else if SlotOfToken(drafts[0].slots, token).Some? then Some(0)
    else var r :- DraftOfToken(drafts[1..], token); Some(r + 1)
  }

  // --- What each operation does to a draft ---

  function Accepted(slots: seq<Slot>): (n: nat)
    ensures n <= |slots|
    ensures n == |slots| <==> forall i :: 0 <= i < |slots| ==> slots[i].memberRef.Some?
  {
    if slots == [] then 0
    else Accepted(slots[..|slots| - 1]) + if slots[|slots| - 1].memberRef.Some? then 1 else 0
  }

  predicate Closed(d: Draft) {
    d.status == Created || d.status == Abandoned
  }

  function DeriveStatus(d: Draft): Status {
    if Closed(d) then d.status
    else if Accepted(d.slots) == d.terms.memberCount then Ready
    else Open
  }

  predicate HasMember(slots: seq<Slot>, member: Felt) {
    exists j :: 0 <= j < |slots| && slots[j].memberRef == Some(member)
  }

  function FillSlot(s: Slot, input: AcceptInput, now: int): Slot {
    s.(memberRef := Some(input.memberRef), authPublicKey := Some(input.authPublicKey),
       acceptedBy := Some(input.address), acceptedAt := Some(now))
  }

  /** Taking place j of a draft. */
  function Claim(d: Draft, j: nat, input: AcceptInput, now: int): AcceptResult
    requires j < |d.slots|
  {
    if Closed(d) then Refused(DraftClosed)
    else if d.slots[j].memberRef.Some? then Refused(AlreadyAccepted)
    else if HasMember(d.slots, input.memberRef) then Refused(DuplicateMember)
    else
      var filled := d.(slots := d.slots[j := FillSlot(d.slots[j], input, now)]);
      Taken(filled.(status := DeriveStatus(filled)), d.slots[j].slotIndex)
  }

  predicate NoRepeats(order: seq<Id>) {
    forall i, j :: 0 <= i < j < |order| ==> order[i] != order[j]
  }

  /** Every place of the draft, exactly once. */
  predicate IsOrder(slots: seq<Slot>, order: seq<Id>) {
    NoRepeats(order) && |order| == |slots|
    && forall k :: 0 <= k < |order| ==> SlotOfId(slots, order[k]).Some?
  }

  function Arrange(slots: seq<Slot>, order: seq<Id>): (r: seq<Slot>)
    requires IsOrder(slots, order)
    ensures |r| == |order|
  {
    seq(|order|, k requires 0 <= k < |order| => slots[SlotOfId(slots, order[k]).value].(slotIndex := k))
  }

  // --- Operations on the store ---

  function NewSlots(slotIds: seq<Id>, tokens: seq<Token>): (r: seq<Slot>)
    requires |slotIds| == |tokens|
    ensures |r| == |tokens|
  {
    seq(|tokens|, k requires 0 <= k < |tokens| => Slot(slotIds[k], k, tokens[k], None, None, None, None))
  }

  function Create(drafts: seq<Draft>, terms: Terms, id: Id, slotIds: seq<Id>, tokens: seq<Token>, now: int): seq<Draft>
    requires |slotIds| == |tokens|
  {
    drafts + [Draft(id, terms, Open, None, None, now, NewSlots(slotIds, tokens))]
  }

  function Accept(drafts: seq<Draft>, input: AcceptInput, now: int): AcceptResult {
    var i := DraftOfToken(drafts, input.inviteToken);
    if i.None? then Refused(UnknownInvite)
    else
      var d := drafts[i.value];
      Claim(d, SlotOfToken(d.slots, input.inviteToken).value, input, now)
  }

  function AfterAccept(drafts: seq<Draft>, input: AcceptInput, now: int): seq<Draft> {
    match Accept(drafts, input, now)
    case Refused(_) => drafts
    case Taken(d, _) => drafts[DraftOfToken(drafts, input.inviteToken).value := d]
  }

  function Reorder(drafts: seq<Draft>, id: Id, order: seq<Id>): Option<Draft> {
    var i :- Locate(drafts, id);
    var d := drafts[i];
    if IsOrder(d.slots, order) then Some(d.(slots := Arrange(d.slots, order))) else None
  }

  function MarkCreated(drafts: seq<Draft>, id: Id, circleId: int, txHash: Option<Felt>): Option<Draft> {
    var i :- Locate(drafts, id);
    Some(drafts[i].(circleId := Some(circleId), createdTx := txHash, status := Created))
  }

  function Abandon(drafts: seq<Draft>, id: Id): Option<Draft> {
    var i :- Locate(drafts, id);
    Some(drafts[i].(status := Abandoned))
  }

  /** The store with a draft written back over the one with its id. */
  function Put(drafts: seq<Draft>, id: Id, d: Option<Draft>): (r: seq<Draft>)
    requires d.Some? ==> Locate(drafts, id).Some?
    ensures |r| == |drafts|
  {
    if d.None? then drafts else drafts[Locate(drafts, id).value := d.value]
  }

  // --- The store itself ---

  class MemoryStore {
    var drafts: seq<Draft>

    constructor ()
      ensures drafts == []
    {
      drafts := [];
    }

    method CreateDraft(terms: Terms, id: Id, slotIds: seq<Id>, tokens: seq<Token>, now: int) returns (draft: Draft)
      requires |slotIds| == |tokens| == terms.memberCount && Locate(drafts, id).None?
      modifies this
      ensures drafts == Create(old(drafts), terms, id, slotIds, tokens, now)
      ensures draft == drafts[|drafts| - 1]
    {
      var slots := [];
      for slotIndex := 0 to terms.memberCount
        invariant slots == NewSlots(slotIds, tokens)[..slotIndex]
      {
        slots := slots + [Slot(slotIds[slotIndex], slotIndex, tokens[slotIndex], None, None, None, None)];
      }
      assert slots == NewSlots(slotIds, tokens);
      draft := Draft(id, terms, Open, None, None, now, slots);
      drafts := drafts + [draft];
    }

    method AcceptInvite(input: AcceptInput, now: int) returns (r: AcceptResult)
      modifies this
      ensures r == Accept(old(drafts), input, now)
      ensures drafts == AfterAccept(old(drafts), input, now)
    {
      for i := 0 to |drafts|
        invariant drafts == old(drafts)
        invariant forall k :: 0 <= k < i ==> SlotOfToken(drafts[k].slots, input.inviteToken).None?
      {
        var draft := drafts[i];
        var place := SlotOfToken(draft.slots, input.inviteToken);
        if place.None? {
          continue;
        }
        assert DraftOfToken(drafts, input.inviteToken) == Some(i);
        var slot := draft.slots[place.value];
        if draft.status == Created || draft.status == Abandoned {
          return Refused(DraftClosed);
        }
        if slot.memberRef.Some? {
          return Refused(AlreadyAccepted);
        }
        if exists j :: 0 <= j < |draft.slots| && draft.slots[j].memberRef == Some(input.memberRef) {
          return Refused(DuplicateMember);
        }
        slot := slot.(memberRef := Some(input.memberRef), authPublicKey := Some(input.authPublicKey));
        slot := slot.(acceptedBy := Some(input.address), acceptedAt := Some(now));
        draft := draft.(slots := draft.slots[place.value := slot]);
        draft := draft.(status := DeriveStatus(draft));
        drafts := drafts[i := draft];
        return Taken(draft, slot.slotIndex);
      }
      return Refused(UnknownInvite);
    }

    method ReorderSlots(id: Id, order: seq<Id>) returns (r: Option<Draft>)
      modifies this
      ensures r == Reorder(old(drafts), id, order)
      ensures drafts == Put(old(drafts), id, r)
    {
      var at := Locate(drafts, id);
      if at.None? {
        return None;
      }
      var draft := drafts[at.value];
      if !NoRepeats(order) || |order| != |draft.slots| {
        return None;
      }
      var reordered := [];
      for idx := 0 to |order|
        invariant |reordered| == idx
        invariant forall k :: 0 <= k < idx ==> SlotOfId(draft.slots, order[k]).Some?
        invariant forall k :: 0 <= k < idx ==>
          reordered[k] == draft.slots[SlotOfId(draft.slots, order[k]).value].(slotIndex := k)
      {
        var found := SlotOfId(draft.slots, order[idx]);
        if found.None? {
          return None;
        }
        reordered := reordered + [draft.slots[found.value].(slotIndex := idx)];
      }
      assert reordered == Arrange(draft.slots, order);
      draft := draft.(slots := reordered);
      drafts := drafts[at.value := draft];
      return Some(draft);
    }

    method MarkDraftCreated(id: Id, circleId: int, txHash: Option<Felt>) returns (r: Option<Draft>)
      modifies this
      ensures r == MarkCreated(old(drafts), id, circleId, txHash)
      ensures drafts == Put(old(drafts), id, r)
    {
      var at := Locate(drafts, id);
      if at.None? {
        return None;
      }
      var draft := drafts[at.value];
      draft := draft.(circleId := Some(circleId));
      draft := draft.(createdTx := txHash);
      draft := draft.(status := Created);
      drafts := drafts[at.value := draft];
      return Some(draft);
    }

    method AbandonDraft(id: Id) returns (r: Option<Draft>)
      modifies this
      ensures r == Abandon(old(drafts), id)
      ensures drafts == Put(old(drafts), id, r)
    {
      var at := Locate(drafts, id);
      if at.None? {
        return None;
      }
      var draft := drafts[at.value].(status := Abandoned);
      drafts := drafts[at.value := draft];
      return Some(draft);
    }
  }
}
