# Iwa, verified

Iwa runs rotating savings circles. Members commit to a circle, pay in every round, and
each round one of them takes the whole pot. A Soroban contract holds the money, a
coordination service keeps drafts, invitations, signatures and sessions, an indexer
copies public events, and a browser client signs, routes and prints amounts.

This project models the parts of that system whose correctness takes an argument and
proves them in Dafny. `dafny verify dfyconfig.toml` checks everything.

## How it is laid out

| files | what they model |
|---|---|
| `Savings`, `SavingsCalls`, `SavingsRuns` | the savings contract: each entry point, exactly when a call is accepted and who pays whom, then money, rotation and reputation over whole runs |
| `JsonText`, `CanonicalJson`, `JsonReader` | the canonical serializer a signature commits to (strings of section 7 of RFC 8259, key order of section 3.2.3 of RFC 8785, number text of ECMAScript), and a reader by the grammar of RFC 8259 that knows nothing of it |
| `Authorization`, `AuthorizationRuns` | challenges, bound messages and the authenticate step, over whole runs |
| `Indexer`, `IndexerRuns` | the event indexer, with a crash possible between any two writes |
| `Drafts`, `DraftRuns`, `DraftOrder` | the in-memory draft store, its invariants, and the organizer's local arranging |
| `PgDrafts`, `PgStore` | the PostgreSQL draft store as two tables updated row by row, refining the in-memory one |
| `ChainVerify`, `DraftRoutes`, `DraftAnswers`, `DraftStory` | chain evidence for a draft's circle, the draft routes as atomic steps beside a growing chain, what they answer exactly when, and a draft's life from end to end |
| `Sessions`, `SessionRuns`, `SessionSweeps`, `SessionLasts` | the read-session store, one that never sweeps, and how long a session passes |
| `RateLimiter`, `RateLimiterRuns` | the per-client rate limiter |
| `SessionHolder`, `SessionHolderRuns` | the client's session protocol under every interleaving |
| `Amount`, `ProofBytes`, `UriText`, `Router`, `Merkle` | the codecs: amounts, proof and felt bytes, percent coding, routes, the Merkle branch |
| `Digits`, `Wrappers` | positional numerals and an option type |

Code that works by changing things is a class or a loop proved against a function; the
theorems are about that function, over every run. Errors are values: a panic, a thrown
error or a null is a constructor of the result.

## What is taken as given

- Hashes are injective and signatures unforgeable: a digest is its own preimage, and a
  signature that verifies was made by that account for that message. Nonces, session
  tokens, slot ids and invite tokens are fresh.
- Each call, route handler and transaction is one atomic step.
  The clock may be any monotone sequence where a theorem says so.
- The chain is append-only, its head does not go back, and a page of events is a
  hundred long except the last. A read of the chain answers the truth or is down.
  For the event indexer, events come in block order, a transaction's in one block, and
  no two indexed events of one transaction lie a multiple of a page apart.
- Field elements are numbers: the service compares them only after normalising, and
  stores them normalised. Strings of the router are sequences of Unicode scalars;
  strings of the serializer are sequences of UTF-16 code units.

## Where the code does less than it says

Each of these is proved, with the exact condition under which the promise does hold.

- *Funding check.* The pot is counted in places, the check in members
  (`lib.rs:410`, `lib.rs:428`). A pot equals what its round paid in exactly when the
  circle is full. It leaves the circle's share non-negative exactly when the circle's
  records number at least its size times one more than the pots collected before; in
  round 1 that is exactly when the circle is full. In any run, every share stays
  non-negative exactly when each pot that is paid meets that condition; and in any run
  the contract holds the sum of its shares, its start and what it was given.
  `UnfilledCircleOverdraws` is a run that takes other people's tokens.
- *Late payments.* Nothing stops a member of a full circle from paying in a round
  beyond its size. When all have paid rounds 1 to size and all have collected, the
  circle's share is zero exactly when nobody did, and otherwise it is exactly what was
  paid late. No later call can collect it.
- *Array holes.* A comment in the serializer says a hole is signed as null
  (`authBinding.ts:91-94`). `map` skips holes and `join` prints them as nothing, so it
  is so exactly for values with no hole. `[hole]` and `[]` share a text, and that is
  the only collision holes cause, at any depth. JSON parsing makes no holes.
- *Event index.* The index restarts on each page. Every row of a fresh range is stored
  exactly when no two indexed events of one transaction lie a multiple of a hundred
  apart in the range, counting the events that are skipped. When every event is indexed
  and transactions do not interleave, that is when none has more than a page of events.
- *Strict amount reader.* `parseUnits` undoes `formatUnits` exactly for amounts that
  are not negative.
- *Amount text of a draft.* The schema admits leading zeros, the chain never prints
  them, and verification compares text: such a draft is never recorded.
- *Two-pass reorder.* Its offset of a hundred is enough for every order exactly when a
  draft has at most a hundred places; the schema's limit is 32.

One more result has no condition, because nothing in the code reaches it yet: no route
calls the store's `abandonDraft`. `AbandonReopensOrder` shows that after it the order
route would accept a new arrangement of a circle that is already on chain.

## Model

| member | source | states |
|---|---|---|
| Savings.SavingsContract.Create | iwa-savings/contracts/savings/src/lib.rs:208-243 | the whole storage after a call, or the error and no change; ids run from 0 |
| Savings.SavingsContract.Join | iwa-savings/contracts/savings/src/lib.rs:248-298 | the next free place, duplicates and full circles refused, trust proof required and checked in that order; the last joiner activates |
| Savings.SavingsContract.Pay | iwa-savings/contracts/savings/src/lib.rs:302-349 | one record per member and round, moved money and on-time flag together, or nothing at all |
| Savings.SavingsContract.Advance | iwa-savings/contracts/savings/src/lib.rs:353-380 | the next round and its collector, with no fullness or status guard |
| Savings.SavingsContract.Collect | iwa-savings/contracts/savings/src/lib.rs:384-440 | the loop finds an unpaid member exactly when the round is not funded; nullifier and transfer happen together or not |
| Savings.SavingsContract.Seed | iwa-savings/contracts/savings/src/lib.rs:524-543 | a record with no transfer |
| Savings.SavingsContract.SlotOf | iwa-savings/contracts/savings/src/lib.rs:189-199 | the first position of a commitment, none exactly when it is absent |
| Savings.SavingsContract.ReputationOf | iwa-savings/contracts/savings/src/lib.rs:472-518 | the scan loop computes the specified counts and `through - paid` never underflows |
| SavingsRuns.InvKept | iwa-savings/contracts/savings/src/lib.rs:208-440 | every regular call keeps: well-formed circles, records by members in rounds that have come, pots only from fully paid rounds of full circles |
| SavingsRuns.ShareNonNegative | iwa-savings/contracts/savings/src/lib.rs:384-440 | a circle's amount times (records minus size times pots) is never negative, by an injection of pots into disjoint rounds of records |
| SavingsRuns.ShareChange | iwa-savings/contracts/savings/src/lib.rs:302-440 | any call moves only its own circle's share, by exactly the record it adds, paid or seeded, or the pot it pays |
| SavingsRuns.SurplusStep | iwa-savings/contracts/savings/src/lib.rs:302-440 | any call changes balance minus all shares on a token by exactly what it gives: a change from outside, a pot collected to the contract itself, minus what a new seeded record stands for |
| SavingsRuns.Conservation | iwa-savings/contracts/savings/src/lib.rs:208-440 | in every run there is, circles interleaved on one token: the contract holds the shares of all circles on the token, what it started with, and what was given |
| SavingsRuns.SolventExactly | iwa-savings/contracts/savings/src/lib.rs:384-440 | over any run, no share is negative after any prefix if and only if every collect that was paid found records for one pot more than its circle had paid |
| SavingsRuns.NothingMissing | iwa-savings/contracts/savings/src/lib.rs:302-440 | while nobody else spends the contract's tokens and nothing is seeded, circles full or not: it holds all shares plus what it started with, exactly that when there are no gifts |
| SavingsRuns.Solvency | iwa-savings/contracts/savings/src/lib.rs:208-440 | while nobody else spends the contract's tokens, nothing is seeded, and the pots that are paid are paid on full circles, refused calls anywhere: no share is negative, the contract holds all shares plus what it started with, and its balance never falls below that start |
| SavingsRuns.PotIsTheRoundExactlyWhenFull | iwa-savings/contracts/savings/src/lib.rs:406-433 | a pot that is paid equals what its round paid in if and only if the circle is full |
| SavingsRuns.PotSolventExactly | iwa-savings/contracts/savings/src/lib.rs:384-440 | in any round of any circle, a pot leaves the circle's share non-negative if and only if the records number at least size times one more than the pots before |
| SavingsRuns.FirstPotSolventExactlyWhenFull | iwa-savings/contracts/savings/src/lib.rs:406-433 | in round 1, the first pot leaves the circle's share non-negative if and only if the circle is full |
| SavingsRuns.UnfilledCircleOverdraws | iwa-savings/contracts/savings/src/lib.rs:384-440 | a four-call run of an unfilled circle whose share ends at minus ten |
| SavingsRuns.TurnOrder | iwa-savings/contracts/savings/src/lib.rs:353-404 | in a full circle rounds 1 to size call every member exactly once, in slot order |
| SavingsRuns.OnePotPerMember | iwa-savings/contracts/savings/src/lib.rs:422-426 | a member who collected never collects from that circle again, in any run |
| SavingsRuns.OnePotPerRound | iwa-savings/contracts/savings/src/lib.rs:400-426 | until the round advances, nobody takes a second pot of a full circle |
| SavingsRuns.CycleBooks | iwa-savings/contracts/savings/src/lib.rs:302-440 | when all paid rounds 1 to size and all collected, however far the circle has advanced: its share, and what each member paid in beyond what they took out, is the amount times the payments in later rounds |
| SavingsRuns.CycleIsEven | iwa-savings/contracts/savings/src/lib.rs:302-440 | then the share is zero if and only if nobody paid in a later round, and a member is even if and only if they did not |
| SavingsRuns.FinishedPaysNoMore | iwa-savings/contracts/savings/src/lib.rs:384-440 | once every member of a full circle has collected, no pot of it is ever paid again, in any run |
| SavingsRuns.ScanCounts | iwa-savings/contracts/savings/src/lib.rs:487-507 | the loop counters are the cardinalities of the on-time and late rounds, and the last recorded round |
| SavingsRuns.ReputationExact | iwa-savings/contracts/savings/src/lib.rs:472-518 | on-time plus defaults is the last recorded round, and defaults are exactly the rounds up to it not paid on time |
| SavingsRuns.ReputationOnlyGrows | iwa-savings/contracts/savings/src/lib.rs:472-518 | in seed-free runs none of the three numbers ever decreases |
| SavingsCalls.CreateExactly | iwa-savings/contracts/savings/src/lib.rs:208-243 | a circle is made if and only if amount and period are positive and the size at least two (and an id is left), with exactly the terms asked for; nothing else changes |
| SavingsCalls.JoinExactly | iwa-savings/contracts/savings/src/lib.rs:248-298 | a join is accepted if and only if the member is new, a place is free and a trust circle got a proof that verified; the member gets the last place and the others keep theirs |
| SavingsCalls.JoinRefusals | iwa-savings/contracts/savings/src/lib.rs:258-281 | a duplicate is told so even in a full circle, and the proof is looked at only when the join would otherwise go through |
| SavingsCalls.PayExactly | iwa-savings/contracts/savings/src/lib.rs:302-335 | a payment is accepted if and only if it is a member's, for the current round, the first, authorized, and covered by the payer's balance |
| SavingsCalls.PayMoves | iwa-savings/contracts/savings/src/lib.rs:325-349 | by balances: the payer's falls by the amount, the contract's rises by it, no other account moves; the one new record is on time if and only if the clock is at most a period past the round's start |
| SavingsCalls.PayRefusals | iwa-savings/contracts/savings/src/lib.rs:309-331 | a refused payment gives the first reason that holds: unknown circle, not a member, wrong round, already paid, not authorized, not covered |
| SavingsCalls.CollectExactly | iwa-savings/contracts/savings/src/lib.rs:384-440 | a pot is paid if and only if it is the member's turn, everyone paid this round, none was collected before, and the contract holds it |
| SavingsCalls.CollectMoves | iwa-savings/contracts/savings/src/lib.rs:428-433 | by balances: the account the collector names rises by amount times size, the contract's falls by it, no other account moves |
| SavingsCalls.CollectRefusals | iwa-savings/contracts/savings/src/lib.rs:384-426 | a refused collect gives the first reason that holds: no members, not a member, not your turn, not everyone paid, already collected |
| SavingsCalls.ReputationAnswers | iwa-savings/contracts/savings/src/lib.rs:472-518 | reputation is answered for every known circle, unless its size or round is the largest a u32 can name |
| SavingsCalls.OthersMoveNothing | iwa-savings/contracts/savings/src/lib.rs:208-543 | no other call, and no refused one, moves a token |
| SavingsCalls.AdvanceExactly | iwa-savings/contracts/savings/src/lib.rs:353-380 | any circle with a member advances, by one round that starts now; the member named is the one whose turn it is, and the only one |
| SavingsCalls.StatusMeans | iwa-savings/contracts/savings/src/lib.rs:283-287 | in any run: until its rounds are over a circle is active if and only if it is full, and afterwards completed, or active if filled late |
| SavingsCalls.RecordsArePayments | iwa-savings/contracts/savings/src/lib.rs:302-349 | in seed-free runs every record is an accepted payment's for the round current then, and its flag says whether that came within the period |
| JsonText.QuotedUnique | backend/src/authBinding.ts:85 | a quoted string ends where it ends and says one thing, whatever follows it |
| JsonText.NumberTextUnique | backend/src/authBinding.ts:79-84 | two finite numbers print alike exactly when equal, both zeros included |
| JsonText.EscapesOnlyWhatMust | backend/src/authBinding.ts:85 | a string is printed as it is if and only if it has no control unit, quote, backslash or lone surrogate |
| JsonText.EscapeForm | backend/src/authBinding.ts:85 | what is escaped has its two-unit escape where there is one, and four lower-case hexadecimal digits where there is not |
| JsonText.ExponentOnlyOutside | backend/src/authBinding.ts:79-84 | an exponent is printed if and only if the number is at least 1e21 or below 1e-6, and then behind one digit before the point |
| JsonReader.NumberReadsBack | backend/src/authBinding.ts:79-84 | a number's text reads, by the grammar, as that number |
| JsonReader.ReadsBack | backend/src/authBinding.ts:74-101 | the canonical text of a value without array holes is JSON: read by the grammar it gives the same value, with undefined members gone, undefined items null and keys ascending by code unit, and leaves what follows |
| JsonReader.TidyUnique | backend/src/authBinding.ts:97-101 | there is only one such value, so the order of keys is determined |
| CanonicalJson.RefusesExactly | backend/src/authBinding.ts:74-101 | the serializer throws exactly on values that hold a number that is not finite or something JSON has no text for |
| CanonicalJson.Unique | backend/src/authBinding.ts:74-101 | unique readability, holes included: texts that agree before a delimiter come from values that are alike and leave the same rest |
| CanonicalJson.SameText | backend/src/authBinding.ts:74-101 | key order, undefined members, undefined items, the sign of zero and one hole for no item do not show |
| CanonicalJson.ExactWithHoles | backend/src/authBinding.ts:74-101 | any two values have one text if and only if they are equal up to those five, holes standing against holes |
| CanonicalJson.Exact | backend/src/authBinding.ts:74-101 | two hole-free values have one text if and only if they are the same up to the first four |
| CanonicalJson.HolesBreakIt | backend/src/authBinding.ts:91-95 | a value is signed as if its holes were null if and only if it has none |
| CanonicalJson.HoleCollision | backend/src/authBinding.ts:91-95 | one hole is signed as the empty array |
| AuthorizationRuns.BindingExact | backend/src/authBinding.ts:115-191 | two messages are equal if and only if action, nonce, chain and account are, methods and paths have the same letters (slashes at the end aside), and the bodies say the same or both say nothing |
| AuthorizationRuns.BodiesAlike | backend/src/authBinding.ts:115-118 | bodies are bound alike if and only if they are the same value, or each is null, undefined or an object with no defined member |
| AuthorizationRuns.PathsAlikeExactly | backend/src/authBinding.ts:128-131 | two paths bind alike if and only if they have the same letters in either case once slashes at the end are cut off |
| Authorization.ChallengeStore.IssueFor | backend/src/auth.ts:87-99 | challenges expired at the sweep's clock reading go, the new one is in with its lifetime from a second reading, the rest is as it was |
| Authorization.ChallengeStore.Spend | backend/src/auth.ts:107-128 | the nonce is gone whatever the outcome; each refusal in the order of the code |
| Authorization.Consume | backend/src/auth.ts:107-128 | consumed exactly when outstanding, unexpired, and for this address and chain |
| Authorization.ChallengeStore.Sweep | backend/src/auth.ts:130-135 | the loop drops exactly the expired |
| Authorization.Verify | backend/src/auth.ts:177-205 | the nonce is spent before the signature is looked at, and only the bound message is accepted |
| AuthorizationRuns.AcceptedSays | backend/src/authBinding.ts:160-191 | the message of an accepted request: version two, the method in capitals, and the headers' account, chain and nonce |
| AuthorizationRuns.OutstandingWasIssued | backend/src/auth.ts:87-99 | every outstanding challenge was issued in the run, with these terms |
| AuthorizationRuns.SpentForGood | backend/src/auth.ts:107-128 | a nonce accepted once is never outstanding again |
| AuthorizationRuns.SignedForExactlyThis | backend/src/app.ts:385-438 | every accepted request was signed by that address for this action, method, path and body, chain and nonce, within the challenge's lifetime |
| AuthorizationRuns.AcceptedOnce | backend/src/auth.ts:177-205 | no nonce and no signed message is accepted twice in any run |
| AuthorizationRuns.OutstandingUntilSpent | backend/src/auth.ts:87-135 | a challenge stays outstanding, as issued, until its nonce is presented or a sweep comes after its time |
| AuthorizationRuns.HonestAccepted | backend/src/app.ts:385-438 | whoever signed this operation against an unexpired challenge of theirs and presents it first is accepted, however method, path and body are spelled |
| Indexer.CircleIndexer.Read | backend/src/indexer/events.ts:248-268 | the paging loop yields the range's decodable events, each indexed within its page |
| Indexer.CircleIndexer.Record | backend/src/store.ts:368-379 | row by row up to a crash: what is already keyed is skipped, the rest appended |
| Indexer.CircleIndexer.RunOnce | backend/src/indexer/events.ts:235-274 | rows first, cursor last, and only if every row was written |
| IndexerRuns.DecodeReads | backend/src/indexer/events.ts:122-165 | decoding undoes writing a row down as an event, fields that cannot be read included |
| IndexerRuns.RowsAreExactly | backend/src/indexer/events.ts:122-165 | a row is what some event decodes to if and only if its name is indexed, it carries only what its name carries, and its reference and status are normalised |
| IndexerRuns.RowsDistinct | backend/src/indexer/events.ts:258-266 | page-relative indices tell a range's rows apart if and only if no two indexed events of one transaction lie a multiple of a page apart |
| IndexerRuns.RecordedResume | backend/src/store.ts:368-379 | recording a batch again after a crash completes it, wherever the crash was |
| IndexerRuns.InvPass | backend/src/indexer/events.ts:235-274 | a pass that dies after any number of writes keeps the rows a prefix of the chain's facts |
| IndexerRuns.ExactlyOnce | backend/src/indexer/events.ts:235-274 | after any run the rows are the chain's decodable events from the start block, in order, once each, at least up to the cursor, which is never past the head |
| IndexerRuns.CursorAdvances | backend/src/indexer/events.ts:241-273 | between any two points of a run the cursor never goes back |
| IndexerRuns.EmptyReadsAsZero | backend/src/indexer/events.ts:122-165 | an empty key reads as zero, in the selector and in the circle id |
| IndexerRuns.PassDies | backend/src/indexer/events.ts:269-272 | a pass that dies keeps the rows it wrote, no fewer and none twice, and leaves the cursor |
| IndexerRuns.PassCompletes | backend/src/indexer/events.ts:235-274 | a pass that lives, with a block to read, leaves the cursor a batch further or at the head, and stores exactly the facts from the start block to there |
| IndexerRuns.CatchesUp | backend/src/indexer/events.ts:235-274 | once the chain stands still and passes live, as many as cover the blocks left bring the cursor to the head, with every decodable event stored, in order, once each |
| IndexerRuns.StoredExactly | backend/src/indexer/events.ts:258-266 | every row of a fresh range is stored if and only if no two indexed events of one transaction lie a multiple of a page apart, whatever lies between |
| IndexerRuns.StoredExactlyWithinPage | backend/src/indexer/events.ts:258-266 | when every event is indexed and transactions do not interleave: if and only if no transaction has more than a page of events |
| Drafts.MemoryStore.CreateDraft | backend/src/store.ts:250-270 | a new open draft with numbered free places at the end of the store |
| Drafts.MemoryStore.AcceptInvite | backend/src/store.ts:301-322 | the scan finds the first draft with the link; the four refusals in order; one place filled and the status derived |
| Drafts.MemoryStore.ReorderSlots | backend/src/store.ts:324-337 | every place exactly once or nothing changes; positions rewritten, the rest travels |
| Drafts.MemoryStore.MarkDraftCreated | backend/src/store.ts:339-346 | circle, transaction and status are set together |
| Drafts.MemoryStore.AbandonDraft | backend/src/store.ts:348-353 | any draft can be abandoned |
| Drafts.Accepted | backend/src/store.ts:200-204 | the count deriveStatus compares is the member count exactly when every place is taken |
| DraftRuns.RunKeeps | backend/src/store.ts:199-353 | in every run: index is position, no id or link shared, members distinct, ready exactly when full, and terms, slot-link pairs and taken places permanent |
| DraftRuns.OrderCovers | backend/src/store.ts:329-332 | an order of n different known places leaves none out |
| DraftRuns.AcceptExactly | backend/src/store.ts:301-322 | an invitation is accepted if and only if its link names a free place of an open draft the member is not in; nothing else changes |
| DraftRuns.RefusalExactly | backend/src/store.ts:301-322 | which refusal an invitation gets, exactly when: unknown link, closed draft, taken place, member already in |
| DraftRuns.LinkSpentOnce | backend/src/store.ts:301-322 | a link once accepted is refused after any run of the store |
| DraftOrder.ArrangeableExactly | iwa-web/src/lib/draftOrder.ts:21-73 | the orders reachable by moves from the saved one are exactly the orders the store accepts, and saving gives that order back |
| DraftOrder.MoveSwaps | iwa-web/src/lib/draftOrder.ts:67-73 | a move exchanges two places and nothing else, out of bounds nothing, and doing it again undoes it |
| PgDrafts.FirstPassIs | backend/src/pgStore.ts:301-307 | after every single update of the first pass indices are distinct in each draft, and only the rows named have moved |
| PgDrafts.TwoPassSafeToHundred | backend/src/pgStore.ts:297-311 | every order passes without a collision if and only if there are at most a hundred places |
| PgDrafts.LandFree | backend/src/pgStore.ts:308-311 | with at most a hundred places the second pass never collides, in whatever order rows are met |
| PgDrafts.RenumberedIs | backend/src/pgStore.ts:276-313 | the renumbered rows are the in-memory rearrangement, other drafts' rows untouched |
| PgDrafts.SameOrders | backend/src/pgStore.ts:288-296 | both stores admit the same orders |
| PgDrafts.ListingIs | backend/src/pgStore.ts:105-113 | rows sorted by index are the draft's places in order |
| PgStore.PgStore.SlotsOf | backend/src/pgStore.ts:108-111 | each row of the draft once, by index |
| PgStore.PgStore.LoadDraft | backend/src/pgStore.ts:105-113 | the draft the in-memory store holds under that id |
| PgStore.PgStore.CreateDraft | backend/src/pgStore.ts:115-153 | the inserts add the draft the in-memory store would, and it is read back and returned |
| PgStore.PgStore.AcceptInvite | backend/src/pgStore.ts:211-274 | the same answer and the same new state as the in-memory store |
| PgStore.PgStore.Lift | backend/src/pgStore.ts:301-307 | all rows lifted by the offset, or a constraint error that needs more than a hundred places |
| PgStore.PgStore.Land | backend/src/pgStore.ts:308-311 | all rows at their new index, or a constraint error that needs more than a hundred places |
| PgStore.PgStore.ReorderSlots | backend/src/pgStore.ts:276-320 | the in-memory reorder, or a rollback that changes nothing and needs more than a hundred places |
| PgStore.PgStore.MarkCreated | backend/src/pgStore.ts:322-331 | as the in-memory store |
| PgStore.PgStore.AbandonDraft | backend/src/pgStore.ts:333-340 | as the in-memory store |
| ChainVerify.FindCircleForDraft | backend/src/chainVerify.ts:214-239 | a found id is the least that verification accepts with no hash, everything below it is rejected; unavailable only when some read is; absent only where the walk may stop |
| ChainVerify.VerifiedExactly | backend/src/chainVerify.ts:168-207 | on a truthful chain only a circle with this payout order, amount and size is verified, and such a circle is never rejected |
| ChainVerify.HashOnlyNarrows | backend/src/chainVerify.ts:197-200 | a transaction hash only adds a condition: an answered receipt that did not fail, with an event of the circle contract |
| ChainVerify.UnavailableExactly | backend/src/chainVerify.ts:168-207 | verification is put off if and only if a read it needs is down: network, order, the circle of a draft whose order is right, the receipt of one that matches |
| ChainVerify.AnsweredExactly | backend/src/chainVerify.ts:168-207 | when those reads answer: verified if and only if the circle matches and the receipt speaks for it |
| ChainVerify.OrderRoundTrip | backend/src/chainVerify.ts:107-114 | an array answer decodes to the order it encodes |
| ChainVerify.DiscoveryExact | backend/src/chainVerify.ts:214-239 | when every read answers, discovery finds the first match among ids 1 to 500, and is absent if and only if there is none |
| ChainVerify.PlainAmountMatches | backend/src/chainVerify.ts:117-127 | a decimal text is the chain's own if and only if it has no leading zero |
| DraftRoutes.Routes.Order | backend/src/app.ts:971-994 | the guards in order, then the store's reorder |
| DraftRoutes.Routes.ReportCreated | backend/src/app.ts:996-1041 | a repeat succeeds unchanged, another circle is refused, otherwise recorded only if verified |
| DraftRoutes.Routes.Reconcile | backend/src/app.ts:1053-1081 | the recorded answer, or what discovery finds |
| DraftRoutes.RecordedForever | backend/src/app.ts:945-1081 | in every run of the routes a recorded circle has the draft's members in order, amount and size, and neither the draft nor the circle ever changes again |
| DraftAnswers.ReconcileExact | backend/src/app.ts:1053-1081 | when reads answer, reconcile records a circle if and only if one of the first 500 matches, and then the first, in that draft only; otherwise 404 and no change |
| DraftAnswers.ReconcileNeverDenies | backend/src/app.ts:1053-1081 | whatever reads are down, 404 is never answered while one of the first 500 matches |
| DraftAnswers.CreatedExact | backend/src/app.ts:996-1041 | when reads answer, the organizer's report is recorded if and only if the circle matches and the receipt speaks for it, in that draft only; otherwise 422 (400 for no id) and no change |
| DraftAnswers.CreatedAgain | backend/src/app.ts:1009-1019 | a recorded draft answers the same circle with itself, another with 409, and nothing changes |
| DraftAnswers.CreatedPutOff | backend/src/app.ts:1021-1026 | a report of the matching circle while a read is down is 503 with no change, never a rejection |
| DraftAnswers.OrganizerAlone | backend/src/app.ts:975-1066 | nobody but the organizer changes a draft by order, created or reconcile: 404, 401 or 403 |
| DraftAnswers.OrderExact | backend/src/app.ts:971-994 | the organizer's order is taken if and only if it names each place once and the circle does not exist; each place then stands where the order names it, otherwise unchanged |
| DraftAnswers.NewDraftExactly | backend/src/app.ts:839-866 | a draft is made if and only if the caller is its organizer and the schema admits its terms: open, one free place for each link in order, nothing else changed |
| DraftAnswers.SchemaBounds | backend/src/validation.ts:109-117 | the schema's bounds, field by field: 2 to 32 members, one second to a year, addresses that are not zero, amounts a positive u128 holds |
| DraftStory.MembersAccept | backend/src/app.ts:839-969 | of a draft just made, members accepting in turn take their own places and leave the store otherwise as it was |
| DraftStory.HonestCircleIsRecorded | backend/src/app.ts:839-1041 | end to end: a draft whose members all accept and whose circle is then created is recorded on its organizer's report, under that circle's id, each member in their place, nothing else changed |
| DraftRoutes.SchemaAdmitsLeadingZero | backend/src/validation.ts:34-49 | an amount text that is admitted is admitted with a zero before it, worth the same |
| DraftRoutes.LeadingZeroNeverRecorded | backend/src/validation.ts:46-49 | a draft whose amount text has a leading zero is never recorded, in any run |
| DraftRoutes.AbandonReopensOrder | backend/src/store.ts:348-353 | after abandonDraft the order route accepts an arrangement that contradicts the recorded circle |
| RateLimiter.RateLimiter.Sweep | backend/src/app.ts:163-168 | the loop forgets exactly the closed windows |
| RateLimiter.RateLimiter.Check | backend/src/app.ts:170-182 | the answer, the entry it leaves and when the next sweep is due |
| RateLimiterRuns.SweepNeverShows | backend/src/app.ts:159-186 | the limiter answers as one that never forgets |
| RateLimiterRuns.ForgetsSoon | backend/src/app.ts:149-168 | every remembered window opened less than two windows ago |
| RateLimiterRuns.MaxPerWindow | backend/src/app.ts:170-182 | a window's count is the number of its allowances, at most the maximum (at least one) |
| RateLimiterRuns.TwiceMaxPerInterval | backend/src/app.ts:170-182 | at most twice the maximum in any half-open interval of one window |
| RateLimiterRuns.BelowMaxAllowed | backend/src/app.ts:170-182 | whoever was allowed fewer than the maximum within a window's time is let through |
| RateLimiterRuns.RetryAfterExact | backend/src/app.ts:170-182 | a refusal names the wait: positive, at most a window, refused until then and let through from then on |
| Sessions.SessionStore.Mint | backend/src/session.ts:129-154 | sweep and trim at one reading of the clock, then the new session at another, or the refusal at the cap |
| Sessions.SessionStore.Check | backend/src/session.ts:163-191 | each refusal in order, which of them delete, and the use recorded on success |
| Sessions.SessionStore.Revoke | backend/src/session.ts:194-196 | that one session and no other, and whether there was one |
| Sessions.SessionStore.RevokeAllFor | backend/src/session.ts:199-214 | all of one wallet's sessions, counted |
| Sessions.SessionStore.Sweep | backend/src/session.ts:226-233 | exactly the ended go |
| Sessions.SessionStore.TrimFor | backend/src/session.ts:236-245 | the oldest of one wallet go, in order of creation |
| SessionRuns.TrimmedFacts | backend/src/session.ts:236-245 | trimming drops only as many as needed, only of that wallet, none younger than one it keeps |
| SessionRuns.MintingIsFair | backend/src/session.ts:129-154 | minting never drops another wallet's live session, and a refusal drops no live session at all |
| SessionRuns.RevokingIsFair | backend/src/session.ts:194-214 | revoking ends exactly that session, or that wallet's, and no other |
| SessionRuns.AlwaysCapped | backend/src/session.ts:80-89 | five sessions a wallet and ten thousand in all, at any time of any run |
| SessionRuns.PassedMeans | backend/src/session.ts:163-191 | a check that passes: minted in this run for this wallet and chain, never revoked, at most eight hours ago, last used at most thirty minutes ago |
| SessionRuns.NoLongGap | backend/src/session.ts:163-191 | between any two consecutive uses of a token no more than thirty minutes go by, over its whole life |
| SessionSweeps.SweepNeverShows | backend/src/session.ts:226-233 | under a monotone clock every mint and every check answers as in a store that keeps ended sessions for good |
| SessionRuns.LivePasses | backend/src/session.ts:163-191 | on its own chain a stored session passes if and only if it is live |
| SessionLasts.NotDropped | backend/src/session.ts:236-245 | minting never drops a session with fewer than four newer ones of its wallet |
| SessionLasts.PassesUntilItEnds | backend/src/session.ts:129-191 | in any run, a session not revoked, whose wallet signed in at most four more times, passes on its chain if and only if neither eight hours since its mint nor thirty minutes since its last use are over |
| SessionHolder.Holder.EnsureSession | iwa-web/src/app/sessionHolder.ts:75-102 | the held token, the sign-in already open, or one new sign-in |
| SessionHolder.Holder.Forget | iwa-web/src/app/sessionHolder.ts:67-70 | a new era with no token |
| SessionHolder.Holder.EndSession | iwa-web/src/app/sessionHolder.ts:106-118 | a new era, and the token that was held to revoke |
| SessionHolder.Holder.OnLanded | iwa-web/src/app/sessionHolder.ts:82-92 | adopted in its own era, revoked in a later one |
| SessionHolder.Holder.OnSettled | iwa-web/src/app/sessionHolder.ts:93-98 | the next sign-in may start |
| SessionHolderRuns.OneSignInAtATime | iwa-web/src/app/sessionHolder.ts:75-102 | in every interleaving at most one sign-in is open |
| SessionHolderRuns.HeldBelongsHere | iwa-web/src/app/sessionHolder.ts:82-92 | a held token was started in the current era, and no era adopts two |
| SessionHolderRuns.LateTokenNeverHeld | iwa-web/src/app/sessionHolder.ts:83-89 | a token that lands in a later era is revoked and never held, then or after |
| SessionHolderRuns.EnsureAnswers | iwa-web/src/app/sessionHolder.ts:75-102 | asking answers with the held token, else the open sign-in, and starts one only when there is neither |
| SessionHolderRuns.TimelyTokenIsHeld | iwa-web/src/app/sessionHolder.ts:82-92 | a token that lands in its own era is held and not revoked, and nothing but a sign-out takes it away next |
| SessionHolderRuns.SignedOutIsRevoked | iwa-web/src/app/sessionHolder.ts:106-118 | the token held at a sign-out is revoked, then and for good, and never held again |
| Amount.PlacesExact | iwa-web/src/lib/amount.ts:20-22 | the whole part and the fraction, taken place by place, are the quotient and the remainder by ten to the decimals |
| Amount.AmountRoundTrip | iwa-web/src/lib/amount.ts:13-44 | reading what was printed gives the same base units, for every integer and number of decimals |
| Amount.PrintedShortest | iwa-web/src/lib/amount.ts:13-29 | the printed text has no zero before its whole part or after its fraction, no dot without a fraction, and a sign on negative amounts only |
| Amount.PrintersAgree | iwa-web/src/chains/strk20/funding.ts:23-31 | the two printers never differ |
| Amount.ReadersAgree | iwa-web/src/chains/strk20/funding.ts:34-40 | wherever the strict reader answers, the lenient one answers the same |
| Amount.LenientCuts | iwa-web/src/lib/amount.ts:36-44 | a fraction longer than the token's decimals is cut by the lenient reader and refused by the strict one |
| Amount.BigIntForms | iwa-web/src/lib/amount.ts:41-42 | what BigInt reads besides decimal digits: nothing as zero, a sign before decimal digits, 0x, 0o and 0b before digits of their base |
| Amount.BigIntRefuses | iwa-web/src/lib/amount.ts:41-42 | and every other text is a SyntaxError |
| Amount.UnitsRoundTrip | iwa-web/src/chains/strk20/funding.ts:23-40 | the strict reader undoes its printer for amounts that are not negative, and refuses the others |
| ProofBytes.HexToBytes | iwa-web/src/lib/convert.ts:58-64 | the loop fills one byte per two characters of any text, as parseInt and the byte array read them; on hex text that is the digit pair's value |
| ProofBytes.AnyPair | iwa-web/src/lib/convert.ts:58-64 | what any two characters are worth as a byte: digits their value, one digit alone itself, behind a blank or plus itself, behind a minus its complement, anything else nothing |
| ProofBytes.BytesToHex | iwa-web/src/lib/convert.ts:67-71 | two small digits per byte |
| ProofBytes.HexThenBytes | iwa-web/src/lib/convert.ts:58-71 | bytes come back from their hex |
| ProofBytes.BytesThenHex | iwa-web/src/lib/convert.ts:58-71 | of all texts, one comes back from its bytes if and only if it is hex in whole pairs with no capitals |
| ProofBytes.WrittenExactlyInRange | iwa-web/src/lib/convert.ts:21-50 | a proof is written, in 256 bytes, if and only if its coordinates are below 2^256 |
| ProofBytes.VerifierReadsTheProof | iwa-verifier/contracts/verifier/src/lib.rs:61-69 | the verifier's slices are A, B with c1 before c0, and C |
| ProofBytes.ProofBytesInjective | iwa-web/src/lib/convert.ts:37-76 | two proofs with the same bytes are the same |
| ProofBytes.FeltToBytes32 | iwa-web/src/lib/starknetWallet.ts:194-202 | the shifting loop leaves the low 32 bytes, big-endian |
| ProofBytes.Bytes32ToFelt | iwa-web/src/lib/starknetWallet.ts:205-209 | the accumulating loop reads them as a number |
| ProofBytes.FeltRoundTrip | iwa-web/src/lib/starknetWallet.ts:194-209 | a felt comes back if and only if it is from 0 to below 2^256 |
| ProofBytes.BytesRoundTrip | iwa-web/src/lib/starknetWallet.ts:194-209 | bytes come back from their number |
| ProofBytes.EncodersAgree | iwa-web/src/lib/convert.ts:21-25 | the hex encoder and the felt encoder write the same bytes |
| UriText.ComponentRoundTrip | iwa-web/src/lib/router.ts:99-100 | percent-decoding undoes percent-encoding on every string |
| UriText.EncodedIsOneSegment | iwa-web/src/lib/router.ts:99-100 | an encoded token has no slash and is empty only for the empty token |
| UriText.EncodesOnlyWhatMust | iwa-web/src/lib/router.ts:99 | encoded text is unreserved characters and triplets with capital hexadecimal digits, and is the text itself if and only if nothing in it is reserved |
| Router.RouteRoundTrip | iwa-web/src/lib/router.ts:57-197 | every location's route prints as a path that resolves to it with no redirect, and a redirect target does too |
| Router.PathsTellRoutesApart | iwa-web/src/lib/router.ts:79-197 | two locations show one route if and only if its path is one |
| Router.ResolveReturns | iwa-web/src/lib/router.ts:123-197 | what resolve can return: ids in range, tokens not empty, not-found paths that stay not found; a redirect is the route's own path |
| Router.CircleOpensExactly | iwa-web/src/lib/router.ts:189-193 | a path opens a circle if and only if it is /app/circles/ and decimal digits worth an id in range, and then that circle |
| Router.InviteOpensExactly | iwa-web/src/lib/router.ts:154-165 | a path opens an invitation if and only if it is /invite/ and one segment that decodes to a token that is not empty |
| Router.LegacyLinkOpens | iwa-web/src/lib/appRoute.ts:22-42 | a first-phase link opens the circle it names and is replaced by that circle's path |
| Merkle.LevelAbove | iwa-web/src/lib/zk.ts:84-85 | neighbours hashed in pairs |
| Merkle.Branch | iwa-web/src/lib/zk.ts:76-88 | the loop collects the siblings and the index bits, and ends with the root they fold to |
| Merkle.BuildInput | iwa-web/src/lib/zk.ts:72-100 | the proof input's branch folds its leaf to its root, at index 0 |
| Merkle.BranchFolds | iwa-web/src/lib/zk.ts:76-88 | for any tree and index, folding the leaf with its branch gives the root |
| Merkle.RootByHalves | iwa-web/src/lib/zk.ts:82-88 | the root of a tree is the hash of its left half's root and its right half's, in that order |
| Merkle.BranchAuthenticates | iwa-web/src/lib/zk.ts:76-88 | under an injective hash only the leaf at that index, with its own branch, folds to the root |

## Left out

- The Cairo circle and helper contracts and the Solidity pool: they are not part of this model; the chain answers reads as parameters.
- Groth16 proving and pairing checks, Poseidon, keccak, JWT and account signature checks: ideal, or a parameter (the trust proof's verdict).
- HTTP, middleware, CORS, cookies, SQL text, connection pools, wallets, email and identity linking, migrations, configuration, screens and labels.
- Interleavings inside one draft route and chain reorganizations: the code does not guard against them, so handlers are atomic and the log append-only.
- The indexer's circle cache (`syncCircles`, `decodeCircleView`): idempotent upserts of display data.
- Telling a chain refusal from an outage by the error's text (`isChainAnswer`): the three kinds of answer are parameters.
- Error texts that a digit count above 2^53 would round: numbers are exact. The ids compared with such numbers are at most 2^32.
- Case mapping outside ASCII in methods and paths, and lone surrogates in locations.
- Balances of the token contract are unbounded; the contract's own arithmetic has its widths and overflow panics.
- The projections of a draft per audience, associations and listings, and the client's merge of a fresh draft with the links it holds: they read and filter only.
- HexToBytes: a character counts as one code unit; characters outside the basic plane are not hex either way.
- ProofBytes.FieldToBe32Hex: coordinates are numbers; the minus sign BigInt would accept in their text is not modelled.
- DraftRoutes.Routes.Order: the caller is a parameter, with authentication itself in Authorization; malformed ids are unknown ids.
- PgStore.PgStore.AcceptInvite: the unique index on members cannot fail after the duplicate check inside one transaction, so its error path is not modelled.
