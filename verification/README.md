# Verified model of canonical sync, session revocation and login limiting

A Dafny model of three protocols of the repository and of the small machines around them, with
proofs over whole runs. `dafny verify dfyconfig.toml` checks all of it.

## The parts

**Offline sync.** The server keeps four tables for each owner: clock, records, change log and
receipts. `Server` writes one mutation as a function on them: receipt first, then validation, then
compare-and-swap on the version, then a tombstone or a new version, logged at `clock + 1`. `Paging`
is the pull with its frozen high water, its sealed cursor and its byte budget; `Decimal` the version
strings both sides exchange. The client's store is `LocalStore`: a confirmed and an optimistic shadow
for each note, the outbox with its leases and dependent successors, and the conflict rows.
`StoreShape` is what all of that keeps and `StoreSteps` proves that it does. `ServerAnswers` and
`StoreEffects` say of every answer and every operation, in the fields of the tables, when it happens and what it changes. `SyncServiceClass` and
`SyncStoreClass` are the same operations as they run, on fields that methods update in place, each
proved equal to its function. `Protocol` composes one client, the server, other writers and a network
that loses, repeats, delays and reorders; the theorems about it are in `EditFate` (no edit is lost),
`LoneClient` and `PutOnly` (what a client that is alone may be answered), `ConflictRisk` (exactly which
steps let it conflict with itself), `Convergence` (what pulls deliver), `LeaseFence` (what a lease
excludes) and `Limits` (reachable states in which the excluded cases happen).

**Session refresh and logout.** `SessionRow` is one row and its transactions, `SessionStoreClass` the
same in place, `SessionProtocol` any number of replicas racing on it with an arbitrary upstream, and
`SessionTheorems` what holds of every run. `SessionTiming` adds a clock, timeouts and deadlines and
gives the exact margins within which two holders never overlap. `SessionEffects` says in the fields of the row who is let in, which upstream answers log a user out and how a
sign-out ends. `StaleMark` is about reconciliation, whose
marks are the one write to the row that is not made under its lock.

**The login limiter** is `RateLimit`; **wake coalescing** is `DeliveryScheduler` and `SyncEngineClass`.

## What the proofs found

- A receipt that arrives after a newer pull moves a shadow back, and the cursor will not deliver the
  newer version again (`Limits.LateReceiptLosesAChange`). Discarding a note whose shadow is a tombstone
  forgets the delete in the same way (`Limits.DiscardedTombstoneIsForgotten`). These are the only two
  steps that disturb pulls: `Convergence.OrderlyIsExact` shows that a step keeps every shadow the newest
  delivered entry if and only if it does not take a result older than the shadow and does not discard a
  tombstone. A client that is the only writer never meets the first, and with an empty outbox it holds
  exactly the server's state (`Convergence.LoneClientConverges`).
- Giving back a push that was already sent, or overriding a note's queue, can let a client conflict with
  itself. `ConflictRisk.RiskIsExact` says exactly when. A release is a risk if and only if it takes an
  operation that is on its way down to no attempts while the note can still be edited and is not deleted
  on the server, and the push was either not yet answered (and the server can still write) or was
  applied to a version the next edit will not start from. Accepting or discarding is a risk if and only
  if the note can still be edited and is not deleted on the server, and its shadow is left behind the
  server or something for it is on its way unanswered. Every other step is harmless, so a client that
  takes none of these never conflicts (`ConflictRisk.CarefulClientNeverConflicts`).
- A delete that replaces a never pushed put is answered `gone` (`Limits.DeleteBeforePushIsGone`).
- Reconciliation reads expired rows with a plain query and marks them later in the same transaction, by id
  (crates/canonical-session/src/lib.rs:463-472, 534-561). Every other update of a row is made under its lock.
  At PostgreSQL's default isolation level a logout, a claim, or another replica's reconciliation and claim
  can commit in between. The mark then overwrites when the row was revoked and sets it due again
  (`SessionRow.MarkByIdIsMarking`: marking by id is marking the row itself if and only if it is still unrevoked
  or already says the same). Two replicas that read the same row in the same second can in this
  way hand out its credentials twice at once, whatever the margins (`StaleMark.NoMarginIsEnough`), or leave a confirmed row pending
  (`StaleMark.ConfirmedAndPending`). In every state within the margin of the lease, a mark keeps the columns of a
  settled row in order, claims a lease apart and one holder at most if and only if the row is not settled and
  the mark is not early, that is, unless it makes a row whose newest claim was not handed back due before that
  claim's lease has ended (`StaleMark.MarkKeepsAllExactly`). What no mark disturbs in any run: a revoked row stays
  closed to users, a settled row keeps its outcome and credentials, and attempt numbers, leases and
  credentials stay fenced. What a stale mark disturbs is stated for runs without one.
- The comment on the 75-second revocation lease (crates/canonical-session/src/lib.rs:53-58, and the
  unit test at 1264-1270) counts two pool acquisitions, 50 seconds in all, and a 25-second margin. The
  dedicated revoker acquires twice for each transaction (crates/canonical-store/src/lib.rs:283-287), so
  a whole claim takes up to 70 seconds. What protects the credentials is only the part up to the last
  upstream call; `SessionTiming.RevocationMarginIsExact` shows that two holders never overlap, in runs in
  which reconciliation marks no row under a holder, if and
  only if the lag of the stamp plus 30 seconds plus one transaction is less than 75 seconds: a lag below
  25 seconds for the dedicated revoker and below 35 otherwise. The stamp is the time the transaction
  began, so waiting for the row lock is part of that lag.
- Attempt numbers saturate at 2^31 - 1, where an overtaken claim passes its fence again
  (`SessionTheorems.OvertakenClaimIsFencedBelowSaturation`); the theorems about credentials and identity
  assume that fewer claims than that were handed out.
- The limiter takes its time stamp before it takes its lock, so attempts can be handled out of the order of
  their stamps. An account's budget bounds anything at all if and only if no stamp is handled a whole window
  length late (`RateLimit.LatenessIsExact`): a request would have to wait that long for the lock, one second
  to an hour by the configuration (crates/canonical-config/src/lib.rs:190-197), and then again and again.
  `RateLimit.LateAllowedIsBounded` gives the bound for every lateness in between. Late by at most a quarter of
  the window it is three times the budget (`RateLimit.AllowedThriceIfLittleLate`); twice the budget needs
  stamps in order, and fails for every budget of two or more with stamps late by a single nanosecond
  (`RateLimit.TwiceNeedsOrder`). A budget at the top of the 32-bit counter is no budget
  (`RateLimit.FullRangeBudgetsNeverReject`).
- A wake during a drain that was cancelled and has not settled yet is dropped, and only then
  (`SyncEngineClass.WakeIsServedUnlessCancelled`).

## Conventions

UUIDs are numbers and a random one is one never drawn before; the request hash is injective, so a
receipt keeps the request; a sealed cursor or token opens only under its own key and owner. Versions
and cursors are unbounded numbers, and steps that would write stop at 2^63 - 1 on the server's clock.
The time of a transaction is a parameter, one for each operation where the code reads the clock for each;
where no bound on it is stated, clocks may say anything.

## Model

| member | source | states |
|---|---|---|
| `Decimal.PrintRoundTrip` | client/src/sync/validation.ts:51-55 | a printed version is a canonical decimal and reads back as itself |
| `Decimal.ParseRoundTrip` | client/src/sync/validation.ts:51-55 | a canonical decimal prints back as the same text, so each number has one form |
| `Decimal.CompareIsNumeric` | client/src/sync/validation.ts:57-64 | comparing by length and then text is comparing the numbers, for all canonical strings of any length, and is refused for exactly the others |
| `Decimal.BaseVersionsAreNumbers` | src/sync/service.rs:383-408 | the server accepts exactly the printed forms of 0 to 2^63 - 1 and parses each to the number it prints |
| `Decimal.PrintedBaseIsRead` | src/sync/service.rs:398-408 | the base version a client prints is the number the server reads |
| `Decimal.HasAtMostCodePoints` | client/src/sync/validation.ts:25-34 | the early-exit count answers whether the text has at most that many code points |
| `Server.ApplyKeepsLog` | src/sync/service.rs:63-278 | one mutation keeps the log exact (positions 1 to clock, versions 1, 2, 3 for each record with a delete only last, folding it gives the stored records) and only adds to log and receipts |
| `Server.LogIsExact` | src/sync/service.rs:125-278 | so it is after any sequence of deliveries from empty tables |
| `Server.LaterEntryIsNewer` | src/sync/service.rs:160-207 | of two entries of a record the later one has the higher version and the earlier one is no delete |
| `Server.EveryVersionIsLogged` | src/sync/service.rs:160-207 | every version below a logged one is logged before it |
| `Server.ReplayFindsNewest` | src/sync/service.rs:250-278 | folding the log finds the last entry of a record, and none exactly when there is none |
| `Server.StoredVersionAtMostClock` | src/sync/service.rs:250-278 | no record version exceeds the owner's clock |
| `Server.AtLeastOnceIsExactlyOnce` | src/sync/service.rs:92-114 | any sequence of deliveries ends in the same tables as the sequence without every later delivery of a receipted id |
| `Server.RedeliveryRepeatsTheAnswer` | src/sync/service.rs:92-114 | an identical redelivery, after anything in between, returns the first result and changes nothing |
| `Server.ReusedIdIsRefused` | src/sync/service.rs:97-109 | other content under a used id is refused, whatever happened in between, and changes nothing |
| `Server.ReceiptStays` | src/sync/service.rs:229-248 | a receipt is never changed or removed |
| `Server.ApplyKeepsReceipts` | src/sync/service.rs:116-227 | every receipt records an answer that carries what its status promises, with the record it shows in the log |
| `Server.LoggedIsNotNewer` | src/sync/service.rs:410-425 | a logged snapshot is never newer than the stored record and equals it at the same version |
| `Server.TombstoneIsFinal` | src/sync/service.rs:165-207 | a logged delete is the record's final state |
| `ServerAnswers.InvalidIsExact` | src/sync/service.rs:355-396 | an unseen mutation is invalid if and only if its kind, schema, base, value or lengths are, and then nothing is stored but the receipt |
| `ServerAnswers.CompareAndSwap` | src/sync/service.rs:176-207 | on a live record an unseen valid mutation is applied if and only if its base prints the stored version, and then becomes the next version, entry and answer; otherwise it is a conflict that shows the stored record and changes nothing |
| `ServerAnswers.DeletedIsGone` | src/sync/service.rs:170-175 | on a deleted record it is gone, shows the tombstone and changes nothing |
| `ServerAnswers.AbsentIsCreated` | src/sync/service.rs:134-169 | without a record a put that names no version creates version 1, one that names a version conflicts, a delete is gone |
| `SyncServiceClass.SyncService.WriteChangeRow` | src/sync/service.rs:250-278 | advances the clock by one and logs the snapshot there |
| `SyncServiceClass.SyncService.ApplyMutation` | src/sync/service.rs:63-227 | the in-place transaction gives exactly the tables, answer and cursor of the specification |
| `SyncServiceClass.SyncService.PushMutations` | src/sync/service.rs:35-61 | refuses a wrong protocol version or batch size without a change; otherwise applies the operations in order and answers each |
| `SyncServiceClass.SyncService.PullChanges` | src/sync/service.rs:280-353 | the page loop answers what the specification of a pull does |
| `Paging.PageIsLongestFit` | src/sync/service.rs:313-342 | a page has n rows if and only if n is the longest prefix of the candidates whose JSON array fits 1 MiB, or a single oversized row |
| `Paging.RowsAreConsecutive` | src/sync/service.rs:310-317 | the candidates are the log positions right after the cursor, up to limit or high water |
| `Paging.PageIsARun` | src/sync/service.rs:297-353 | a page is the run of log entries up to its next cursor, advances unless there is nothing left, and says it is caught up exactly at the high water |
| `Paging.ScanIsExact` | src/sync/service.rs:280-353 | a scan with any writes and limits in between returns exactly the entries from its start to the high water frozen by its first page, in order and once each, and is caught up within high water minus position pages |
| `Paging.PullIssuesValidToken` | src/sync/service.rs:348-352 | a pull issues a cursor that opens for its owner only, with position at most high water at most clock, and fails exactly on a cursor that does not open |
| `Paging.IssuedCursorsStayValid` | src/sync/service.rs:444-487 | every cursor ever issued opens for its owner in every later state with 0 <= position <= high water <= clock |
| `Paging.PageHoldsWhatWasAsked` | src/sync/service.rs:285-342 | a page never holds more changes than were asked for, or 16, and ends before that only at its high water or where the next change does not fit 1 MiB |
| `Paging.PullRefusalIsExact` | src/sync/service.rs:444-487 | a pull is refused if and only if its cursor is not a seal for this owner on a position between 0 and its high water |
| `Paging.ArrayBytesAreExact` | src/sync/service.rs:320-332 | the bytes counted for a page are two brackets, its elements and a comma between each two |
| `LocalStore.Oldest` | client/src/sync/store.ts:237-246 | an operation with the smallest sequence number, and none exactly of no operations |
| `LocalStore.Newest` | client/src/sync/store.ts:237-246 | an operation with the largest sequence number, and none exactly of no operations |
| `StoreShape.AtMostTwo` | client/src/sync/store.ts:237-271 | in every valid store a note has at most two operations |
| `StoreShape.OneDependsOnTheOther` | client/src/sync/store.ts:237-271 | of two operations of a note one is undependent and the other depends on it |
| `StoreShape.ShadowIsNewestEdit` | client/src/sync/store.ts:268-288 | a record has an optimistic shadow exactly when its note has operations, and then it is the newest one's sequence number, action and value |
| `StoreShape.NewestIsTail` | client/src/sync/store.ts:237-271 | the newest operation is the dependent one if there is one |
| `StoreShape.BatchTouchesDistinctNotes` | client/src/sync/store.ts:363-408 | a claimed batch never holds two operations of one note |
| `StoreShape.ConflictIsBlockedHead` | client/src/sync/store.ts:636-698 | a note is in conflict exactly when it has a conflict row and exactly when an operation of it is blocked; its record is failed exactly when an operation is |
| `StoreShape.EffectiveViewShowsNewestEdit` | client/src/sync/store.ts:319-357 | outside conflicts the view shows the newest queued edit over the confirmed state and with its version, as failed if an operation of the note has failed and as pending otherwise; it hides a queued delete, and without edits shows exactly the live confirmed notes |
| `StoreShape.ConflictIsHidden` | client/src/sync/store.ts:324-326 | a note in conflict is not shown |
| `StoreSteps.QueueKeeps` | client/src/sync/store.ts:202-289 | queueing keeps the shape of the store |
| `StoreSteps.ClaimKeeps` | client/src/sync/store.ts:363-408 | so does claiming a batch |
| `StoreSteps.FinishEachKeeps` | client/src/sync/store.ts:410-478 | so do retrying, releasing and failing any list of operations |
| `StoreSteps.ApplyEachKeeps` | client/src/sync/store.ts:493-552 | so does a page of pulled changes |
| `StoreSteps.ApplyAppliedKeeps` | client/src/sync/store.ts:585-633 | so does an applied result, which re-bases the successor under a fresh id |
| `StoreSteps.ApplyConflictKeeps` | client/src/sync/store.ts:636-698 | so does a conflict or gone, which blocks the operation and its dependent |
| `StoreSteps.ApplyResultsKeeps` | client/src/sync/store.ts:554-702 | so does a reply, whole or up to a result that throws |
| `StoreSteps.MalformedStops` | client/src/sync/store.ts:585-592 | a result that throws ends the reply: what was taken before it stays, and nothing after it is looked at |
| `StoreSteps.AcceptKeeps` | client/src/sync/store.ts:704-724 | so does taking the server's version |
| `StoreSteps.DiscardKeeps` | client/src/sync/store.ts:726-750 | so does discarding the local version |
| `StoreSteps.QueueFinds` | client/src/sync/store.ts:237-265 | what queueing finds is live; only an undependent operation can have been sent, and it is what the new one depends on |
| `SyncStoreClass.SyncStore.NextLocalSequence` | client/src/sync/store.ts:111-120 | counts up to the largest safe number and then refuses |
| `SyncStoreClass.SyncStore.QueueMutation` | client/src/sync/store.ts:202-289 | the in-place transaction ends in exactly the queued store, and fails exactly on a conflict, a failed record or an exhausted sequence |
| `SyncStoreClass.SyncStore.PutDraftNote` | client/src/sync/store.ts:191-195 | queues a put exactly of a note within the limits |
| `SyncStoreClass.SyncStore.DeleteDraftNote` | client/src/sync/store.ts:197-200 | queues a delete |
| `SyncStoreClass.SyncStore.ClaimDueMutations` | client/src/sync/store.ts:363-408 | expires leases, picks the due operations with the smallest sequence numbers up to the limit in order, and leases exactly those |
| `SyncStoreClass.SyncStore.RetryMutations` | client/src/sync/store.ts:410-431 | puts off exactly the operations the owner still holds, each by the clock as it is reached |
| `SyncStoreClass.SyncStore.ReleaseMutations` | client/src/sync/store.ts:433-449 | gives back exactly those, with one attempt less and due at the clock as each is reached |
| `SyncStoreClass.SyncStore.FailMutations` | client/src/sync/store.ts:451-478 | fails exactly those and their records |
| `SyncStoreClass.SyncStore.ApplyChanges` | client/src/sync/store.ts:493-552 | takes each change newer than its shadow, in order, and the cursor |
| `SyncStoreClass.SyncStore.ApplyMutationResults` | client/src/sync/store.ts:554-702 | applies to each operation still held the last result with its id, and stops at an applied result without the record it must carry, keeping what was taken before |
| `SyncStoreClass.SyncStore.Accept` | client/src/sync/store.ts:704-724 | drops the note's operations and conflict and shows the confirmed version |
| `SyncStoreClass.SyncStore.Discard` | client/src/sync/store.ts:726-750 | the same, and forgets a note that does not exist on the server |
| `StoreEffects.ClaimTakesTheFirst` | client/src/sync/store.ts:384-393 | an operation is claimed if and only if it is free (nothing to wait for, no delay, no lease that still runs) and fewer free ones than the limit were queued before it |
| `StoreEffects.ClaimIsExact` | client/src/sync/store.ts:373-405 | what a claim makes of every operation: leased with one attempt more, freed of a lease that ran out, or as it was |
| `StoreEffects.ExpiredLeaseIsTakenOver` | client/src/sync/store.ts:373-397 | an operation whose lease ran out, or whose delay is over, is in every claim that is not full, and is then the claimant's |
| `StoreEffects.RefusalIsExact` | client/src/sync/store.ts:211-223 | an edit is refused exactly on a conflict, on a failed operation of the note or without a sequence number, and then changes nothing |
| `StoreEffects.EditIsExact` | client/src/sync/store.ts:230-289 | an accepted edit replaces exactly the note's operations that were never sent, and is due at once |
| `StoreEffects.EditWaitsForTheSent` | client/src/sync/store.ts:247-255 | it waits for the operation of the note that was sent if there is one, and for none otherwise |
| `StoreEffects.EditKeepsItsBase` | client/src/sync/store.ts:248-252 | it keeps the base of the oldest edit it replaces, and without one starts from the confirmed version |
| `StoreEffects.FinishIsExact` | client/src/sync/store.ts:410-478 | retrying, giving back and failing change exactly what the owner holds: the delay, one attempt less, or operation and record failed |
| `StoreEffects.FinishEachIsExact` | client/src/sync/store.ts:410-478 | of a list of operations each one named is settled as if it were alone, at its own time, and no other |
| `StoreEffects.ChangeIsExact` | client/src/sync/store.ts:493-552 | a pulled version is taken if and only if it is newer; the record's state follows from conflict, failure and queue, which stay as they are |
| `StoreEffects.AppliedIsExact` | client/src/sync/store.ts:585-633 | an applied edit leaves the queue and is the confirmed version; one that waited starts from its version at once |
| `StoreEffects.ConflictIsExact` | client/src/sync/store.ts:636-690 | a conflict or gone blocks the edit and the one that waits, and keeps reason, base, local edit and the server's side |
| `StoreEffects.RefusedIsExact` | client/src/sync/store.ts:691-698 | every other refusal fails the edit and its note and nothing else |
| `StoreEffects.LastResultCounts` | client/src/sync/store.ts:559-559 | of several results with one id the last one counts |
| `StoreEffects.TakenIsExact` | client/src/sync/store.ts:574-592 | a result is looked at if and only if its operation is still leased to the owner, and throws if and only if it is applied without the record of its note |
| `StoreEffects.ResultsAreTakenInOrder` | client/src/sync/store.ts:574-702 | a reply is taken operation by operation in their order, all of it unless one throws, and then exactly up to that one |
| `StoreEffects.AcceptIsExact` | client/src/sync/store.ts:704-724 | taking the server's side drops exactly the note's operations and conflict and shows the confirmed version |
| `StoreEffects.DiscardIsExact` | client/src/sync/store.ts:726-750 | discarding does the same and forgets a note that is absent or deleted on the server |
| `Protocol.RunKeepsValid` | client/src/sync/engine.ts:222-357 | every run of client, server, network and other writers keeps store shape, log, receipts and the content behind each id |
| `Protocol.ResultsAreWellFormed` | client/src/sync/store.ts:585-592 | a result that arrives carries the record it must carry |
| `Protocol.NoIdIsEverReused` | src/sync/service.rs:97-109 | in every run no answer says that an id was reused, and no request on the wire could be answered so |
| `Protocol.ReplyIsARunOfReceives` | client/src/sync/store.ts:554-702 | taking a whole reply of answers that arrived never throws and ends in the same store as receiving them one by one |
| `EditFate.AcceptedEditIsQueued` | client/src/sync/store.ts:237-288 | an edit that is not refused is queued as the note's newest, and only never sent operations are replaced |
| `EditFate.AppliedIsLanded` | client/src/sync/store.ts:585-633 | an applied result reports the record that its own mutation made on the server, and that record is the edit it takes off the queue |
| `EditFate.NoEditIsLost` | client/src/sync/store.ts:594-698 | until the user overrides it, an edit is in every later state still queued with its content under an id drawn since it was made, or one of those ids has an applied receipt whose record is the edit; equal edits made earlier or by others do not count |
| `EditFate.AcceptedEditIsNotLost` | client/src/sync/store.ts:202-289 | this holds of every accepted edit from the moment it is queued, when neither is true of it yet |
| `LeaseFence.RestingOperationIsLeftAlone` | client/src/sync/store.ts:363-478 | until a lease expires or a retry delay is over, no other tab's claim, settlement, edit or pull changes the operation or has it in a batch |
| `LeaseFence.ClaimAndRetryRest` | client/src/sync/store.ts:388-427 | a claim leases and a retry puts off for the time they were told |
| `LoneClient.QueueBaseIsCurrent` | client/src/sync/store.ts:237-265 | a lone client's undependent edit starts from the server's current version |
| `LoneClient.HeadsStayCurrent` | client/src/sync/store.ts:202-289 | in every run of a lone client each undependent operation has the server's current version as base, or is receipted as gone or as applied at that version |
| `LoneClient.LoneClientNeverConflicts` | src/sync/service.rs:125-207 | a lone client never gets a conflict under any loss, duplication, delay, lease expiry or interleaved pull |
| `LoneClient.FirstDeliveriesAreExact` | src/sync/service.rs:125-207 | each request it has on the way and not yet delivered is answered gone if and only if there is no live note to change, and applied otherwise |
| `PutOnly.PuttingClientAlwaysApplies` | src/sync/service.rs:125-207 | a lone client that only puts has every push applied and never has a conflict row |
| `ConflictRisk.SafeStep` | client/src/sync/store.ts:433-449 | a step of the only writer that is no risk keeps the invariant under which no conflict is possible |
| `ConflictRisk.RiskyReleaseConflicts` | client/src/sync/engine.ts:276-303 | after a risky release some run of lone steps ends in a conflict |
| `ConflictRisk.RiskyOverrideConflicts` | client/src/sync/store.ts:704-750 | so does one after a risky accept or discard |
| `ConflictRisk.RiskIsExact` | client/src/sync/store.ts:433-449 | after any step of the only writer a conflict can be reached if and only if the step is a risk |
| `ConflictRisk.CarefulClientNeverConflicts` | client/src/sync/engine.ts:276-303 | in every run without a risk no answer is a conflict, and the next step makes one possible if and only if it is a risk |
| `Limits.CancelledPushCanConflict` | client/src/sync/engine.ts:276-303 | the risk of a release is met in a reachable state, and a conflict is reached from there |
| `Limits.DiscardedPushCanConflict` | client/src/sync/store.ts:726-750 | so is the risk of a discard |
| `Limits.DeleteBeforePushIsGone` | src/sync/service.rs:134-139 | for every store and server, a delete that replaces a never sent put goes out alone, without a base, and is answered gone |
| `Limits.LateReceiptLosesAChange` | client/src/sync/store.ts:622-630 | a reachable state whose shadow is behind a change the cursor has passed |
| `Limits.DiscardedTombstoneIsForgotten` | client/src/sync/store.ts:741-743 | a reachable state in which a pulled delete was discarded: the client knows nothing of the note and its cursor has passed the delete |
| `Convergence.RunConverges` | client/src/sync/store.ts:480-552 | every orderly run (no stale result taken, no tombstone discarded) keeps each shadow the newest entry delivered for its note and everything before the cursor delivered |
| `Convergence.PrefixDeliveredIsReplay` | client/src/sync/store.ts:493-552 | when exactly the first h entries were delivered, the shadows are the fold of the log up to h |
| `Convergence.CaughtUpIsReplay` | src/sync/service.rs:297-352 | whenever a scan is caught up at h the shadows are exactly the fold of the log up to h, in every orderly run with any writes, losses and resets in which pages are taken one after the other and no result was taken since h was frozen |
| `Convergence.PullingStaysPure` | client/src/sync/store.ts:493-552 | a client that only pulls meets that last proviso in every run |
| `Convergence.PullsConverge` | client/src/sync/store.ts:480-552 | for pages in any order: in every orderly run no shadow is behind the state at the cursor, and the shadows are that state if and only if nothing after it was delivered |
| `Convergence.OrderlyIsExact` | client/src/sync/store.ts:480-552 | a step keeps the shadows the newest delivered entries if and only if it takes no result older than the shadow and discards no tombstone |
| `Convergence.DiscardLosesATombstone` | client/src/sync/store.ts:741-743 | discarding keeps them if and only if the shadow is absent or not a tombstone |
| `Convergence.CaughtUpAtHighWater` | src/sync/service.rs:348-352 | a caught-up page leaves the cursor at the high water with everything up to it delivered |
| `Convergence.StaleResultLosesAChange` | client/src/sync/store.ts:622-630 | taking a result keeps the shadows the newest delivered entries if and only if the result is not older than the shadow |
| `Convergence.LoneRunIsOrderly` | client/src/sync/store.ts:585-633 | a lone client never receives a result older than the shadow it replaces |
| `Convergence.LoneClientConverges` | client/src/sync/engine.ts:222-248 | in every run of a lone client, pushes and pulls interleaved, each note with nothing queued is exactly as the server has it, and with an empty outbox the shadows are exactly the fold of the whole log |
| `SessionRow.RetryDelayDoubles` | crates/canonical-session/src/lib.rs:1169-1173 | retry delays begin at 2 seconds, double with each attempt and end at 1024 seconds |
| `SessionRow.MarkByIdIsMarking` | crates/canonical-session/src/lib.rs:534-561 | marking a row by id, as it was read unrevoked, is marking the row as it is now, if and only if it is still unrevoked or already says exactly that |
| `SessionRow.MarkByIdUntidies` | crates/canonical-session/src/lib.rs:534-561 | such a mark keeps the shape of the row, and leaves something pending on a settled row if and only if the row was settled since it was read |
| `SessionStoreClass.SessionStore.Mark` | crates/canonical-session/src/lib.rs:534-561 | writes revocation, pending and next attempt, computed from the row the caller read, over the row there is now, and clears its lease; leaves a row read settled, and fails without a row |
| `SessionStoreClass.SessionStore.Claim` | crates/canonical-session/src/lib.rs:937-981 | the refresh claim gives exactly the turn and row of the specification |
| `SessionStoreClass.SessionStore.Persist` | crates/canonical-session/src/lib.rs:1041-1078 | stores a reply exactly if the lease matches and the row is valid, and says when the claim was lost |
| `SessionStoreClass.SessionStore.Finish` | crates/canonical-session/src/lib.rs:1084-1114 | clears or revokes exactly under a matching lease |
| `SessionStoreClass.SessionStore.ClaimForRevocation` | crates/canonical-session/src/lib.rs:625-700 | the revocation claim gives exactly the turn and row of the specification, abandoning a row that does not decrypt |
| `SessionStoreClass.SessionStore.Rotate` | crates/canonical-session/src/lib.rs:729-775 | stores rotated credentials exactly under a matching attempt number |
| `SessionStoreClass.SessionStore.Confirm` | crates/canonical-session/src/lib.rs:777-806 | confirms exactly under a matching attempt number |
| `SessionStoreClass.SessionStore.Abandon` | crates/canonical-session/src/lib.rs:808-845 | abandons exactly under a matching attempt number |
| `SessionStoreClass.SessionStore.Defer` | crates/canonical-session/src/lib.rs:847-883 | sets the next attempt exactly under a matching attempt number |
| `SessionStoreClass.SessionStore.ReadExpired` | crates/canonical-session/src/lib.rs:463-469 | reads the row exactly if it is unrevoked and expired, and locks nothing |
| `SessionStoreClass.SessionStore.Prune` | crates/canonical-session/src/lib.rs:490-500 | deletes a row settled a week ago whose access token has expired |
| `SessionEffects.AccessIsExact` | crates/canonical-session/src/lib.rs:374-390 | a session is let in, sent to refresh or refused, on a first reading and after a lost refresh, exactly by its revocation, its expiry, its access expiry and its lease |
| `SessionEffects.RefreshTurnIsExact` | crates/canonical-session/src/lib.rs:937-981 | a refresh is granted, for 30 seconds, exactly on an open session whose token ends within a minute, that nobody is refreshing and that opens under the key |
| `SessionEffects.LeaseStepIsExact` | crates/canonical-session/src/lib.rs:937-981 | a granted refresh leases the row and asks the upstream; any other turn changes nothing |
| `SessionEffects.BearerIsExact` | crates/canonical-session/src/lib.rs:414-431 | a bearer is turned away exactly by a revoked row of its user and upstream session |
| `SessionEffects.RefreshFailureIsExact` | crates/canonical-session/src/lib.rs:983-1001 | a refresh that fails under its lease logs the user out if and only if the upstream refused the credentials, and otherwise only ends the lease |
| `SessionEffects.RefreshAnswerIsExact` | crates/canonical-session/src/lib.rs:1002-1078 | new tokens are taken if and only if they agree with user and upstream session, and stored if and only if the session is still open; others log the user out |
| `SessionEffects.LogoutIsExact` | crates/canonical-session/src/lib.rs:512-561 | a logout revokes an open row, due at once, and leaves a revoked one as it is |
| `SessionEffects.ExpiryIsExact` | crates/canonical-session/src/lib.rs:460-472 | reconciliation reads exactly the sessions that are open past their expiry, and logs out those still open when it marks them |
| `SessionEffects.PruningIsExact` | crates/canonical-session/src/lib.rs:490-500 | a row is deleted if and only if it was settled a week ago and its access token has expired |
| `SessionEffects.ClaimIsExact` | crates/canonical-session/src/lib.rs:625-700 | a row is handed out for signing out if and only if it is due, opens and its token agrees with it; one that does not open is abandoned; the token is refreshed first if it ends within five seconds |
| `SessionEffects.RotationFailureIsExact` | crates/canonical-session/src/lib.rs:568-586 | an attempt whose refresh fails abandons its row if and only if the upstream refused the credentials, and otherwise puts it off for the delay of its number |
| `SessionEffects.RotationAnswerIsExact` | crates/canonical-session/src/lib.rs:702-775 | new tokens are stored and used to sign out if and only if they agree; others put the row off |
| `SessionEffects.SignOutReplyIsExact` | crates/canonical-session/src/lib.rs:589-622 | only an acknowledgement confirms the row; credentials refused for the first time are refreshed, and any other error puts the row off |
| `SessionProtocol.SignInIsValid` | crates/canonical-session/src/lib.rs:285-352 | a new session satisfies the invariant of all runs |
| `SessionTheorems.RunKeepsValid` | crates/canonical-session/src/lib.rs:460-1138 | every interleaving of claims, replies, takeovers, logouts, revocation steps, unlocked readings, marks however stale and pruning keeps it |
| `SessionTheorems.RevokedStaysRevoked` | crates/canonical-session/src/lib.rs:534-561 | no step clears a revocation, after one no step of the refresh path changes the row, and the revocation time is replaced if and only if the step is a stale mark with another time |
| `SessionTheorems.LogoutAlwaysWins` | crates/canonical-session/src/lib.rs:937-1138 | after a logout every later state of every run refuses every authentication and refresh claim, lets no refresh reply in and holds no lease; without stale marks it remembers the same revocation time |
| `SessionTheorems.SettledStepIsExact` | crates/canonical-session/src/lib.rs:534-561 | a step changes a settled row with nothing pending, other than by pruning it, if and only if it is a stale mark |
| `SessionTheorems.SettledIsFinal` | crates/canonical-session/src/lib.rs:777-845 | in every run a confirmed or abandoned row keeps outcome, number and credentials until it is pruned for good; without stale marks it never changes in any field |
| `SessionTheorems.TidyStepIsExact` | crates/canonical-session/src/lib.rs:534-561 | a step leaves something pending on a settled row if and only if it is the mark of a row settled since it was read |
| `SessionTheorems.OutcomesAreEarned` | crates/canonical-session/src/lib.rs:563-623 | in every run the outcomes exclude each other, a confirmed row carries the number of an attempt whose sign-out was acknowledged, an abandoned one that of a rejected attempt or does not decrypt, and no attempt refreshes twice or signs out three times; without stale marks pending holds exactly on revoked unsettled rows |
| `SessionTheorems.SupersededAttemptIsInert` | crates/canonical-session/src/lib.rs:745-751 | once a newer claim was handed out, an older attempt changes nothing |
| `SessionTheorems.SupersededRefresherIsInert` | crates/canonical-session/src/lib.rs:1050-1053 | the same for a refresher whose lease was taken over |
| `SessionTheorems.OvertakenClaimIsFencedBelowSaturation` | crates/canonical-session/src/lib.rs:677-690 | an overtaken claim passes its fence if and only if the attempt number was saturated |
| `SessionTheorems.CredentialsAreReplacedByTheirOwnAnswer` | crates/canonical-session/src/lib.rs:729-775 | credentials change only together, by the upstream's answer to the very refresh token they replace, under a matching lease before logout or a matching attempt number after it |
| `SessionTheorems.CredentialsHaveOneOrigin` | crates/canonical-session/src/lib.rs:1008-1078 | every reachable row holds the end of an unbroken chain of rotations that starts at the sign-in |
| `SessionTheorems.IdentityIsFixed` | crates/canonical-session/src/lib.rs:1219-1230 | over any run the user never changes and the upstream session id never changes once known |
| `SessionTheorems.PruningIsLate` | crates/canonical-session/src/lib.rs:490-500 | a row is deleted only a week after it was settled and once its stored access token has expired |
| `SessionTheorems.RevokedBearerIsRefused` | crates/canonical-session/src/lib.rs:414-431 | from logout until pruning every bearer token of that user and upstream session is refused |
| `SessionTiming.EventKeepsTimes` | crates/canonical-session/src/lib.rs:53-61 | every event, stale marks included, keeps the deadlines of attempts and refreshers and, within the refresh margin, single refreshers |
| `SessionTiming.EventKeepsSpaced` | crates/canonical-session/src/lib.rs:636-690 | every event but an early mark keeps claims a lease apart, with any margin |
| `SessionTiming.EventKeepsSingle` | crates/canonical-session/src/lib.rs:53-59 | within the margin every event but a mark under a holder keeps one attempt at most on the credentials |
| `SessionTiming.MarkIsExact` | crates/canonical-session/src/lib.rs:534-561 | the mark of a claimed row makes it due at the time of the reading; it loses the spacing if and only if it is early, and the single holder if and only if the newest attempt still uses the credentials |
| `SessionTiming.ClaimsAreApart` | crates/canonical-session/src/lib.rs:636-690 | for any lag and any transactions, in every run without an early mark, consecutive claims are stamped 75 seconds apart unless the earlier holder deferred |
| `SessionTiming.RevocationMarginIsExact` | crates/canonical-session/src/lib.rs:53-59 | over all runs in which no mark falls under a holder, no two attempts are ever between claim and last upstream call together if and only if lag, three calls and one transaction take less than the lease |
| `SessionTiming.RefreshMarginIsExact` | crates/canonical-session/src/lib.rs:61-61 | over all runs, no two refreshers ever present a refresh token together if and only if lag and one call take less than the refresh lease |
| `SessionTiming.LongestClaim` | crates/canonical-store/src/lib.rs:283-287 | in every run, for any lag, a claim ends within lag, three calls and two transactions |
| `SessionTiming.SlowHolderOverlaps` | crates/canonical-session/src/lib.rs:563-623 | outside the margin, the run in which two attempts share the credentials |
| `StaleMark.MarkKeepsAllExactly` | crates/canonical-session/src/lib.rs:460-472 | in every state within the margin a mark keeps settled rows tidy, claims apart and holders single if and only if the row is not settled and the mark is not early, which no mark of an unrevoked row is |
| `StaleMark.EarlyMarkIsExact` | crates/canonical-session/src/lib.rs:460-472 | in every state, for any margin, some later run hands out a claim too early if and only if the mark is early |
| `StaleMark.HeldMarkIsExact` | crates/canonical-session/src/lib.rs:460-472 | in every state within the margin, some later run lets two attempts share the credentials if and only if the row was not settled and its newest attempt was between claim and last upstream call at the mark |
| `StaleMark.NoMarginIsEnough` | crates/canonical-session/src/lib.rs:457-472 | for every lag and every transaction, even none, two replicas reach a state with two attempts on the same credentials |
| `StaleMark.ConfirmedAndPending` | crates/canonical-session/src/lib.rs:457-472 | they reach a confirmed row that is pending |
| `RateLimit.Oldest` | src/auth/rate_limit.rs:162-167 | the earliest opening of any live window |
| `RateLimit.LoginRateLimiter.OldestOpening` | src/auth/rate_limit.rs:162-167 | the scan finds that opening, or now of no windows |
| `RateLimit.LoginRateLimiter.Check` | src/auth/rate_limit.rs:111-202 | the in-place check gives exactly the state and answer of the transition |
| `RateLimit.CounterStep` | src/auth/rate_limit.rs:137-200 | one attempt keeps the bound of a fixed-window counter for stamps of any lateness, whether the window lives, expires, opens or counts |
| `RateLimit.AllowedIsBounded` | src/auth/rate_limit.rs:132-202 | over any run with times in order, at most twice the account budget and twice the global budget is allowed in any half-open interval of one window length |
| `RateLimit.KeysAreBounded` | src/auth/rate_limit.rs:155-178 | for any times the map never holds more than its maximum of accounts |
| `RateLimit.OthersCannotTouchAWindow` | src/auth/rate_limit.rs:151-177 | no activity of other accounts changes a live window |
| `RateLimit.RetryAfterIsExact` | src/auth/rate_limit.rs:180-226 | over any run with times in order, a blocked account that waits is rejected up to a second before the time it was told and not for its budget from that time on |
| `RateLimit.OutcomeIsExact` | src/auth/rate_limit.rs:132-202 | for any times an attempt is allowed if and only if process, table and account have room in the windows that still count, and otherwise refused for the first that has not |
| `RateLimit.RefusalTellsWhenToRetry` | src/auth/rate_limit.rs:145-226 | every refusal tells the least number of whole seconds, at least one, to the end of the window that refused it: the process's, the account's, or the one that ends first |
| `RateLimit.GlobalRetryAfterIsExact` | src/auth/rate_limit.rs:145-153 | after a global refusal everybody is refused up to a second before the told time, and the first attempt from that time on is not refused for the global budget |
| `RateLimit.FullRangeBudgetsNeverReject` | src/auth/rate_limit.rs:143-144 | a budget of 2^32 - 1 never rejects because the counter saturates there |
| `RateLimit.LateAllowedIsBounded` | src/auth/rate_limit.rs:111-202 | for stamps late by any fixed amount, an account is allowed at most as many budgets in one window length as windows can reach it that open a window length less that amount apart, and everybody as many as can that open a window length apart |
| `RateLimit.AllowedThriceIfLittleLate` | src/auth/rate_limit.rs:111-202 | three times each budget for stamps late by at most a quarter of the window |
| `RateLimit.TwiceNeedsOrder` | src/auth/rate_limit.rs:111-118 | for every window and every budget of two or more, stamps late by the least amount there is let all but one attempt of three budgets through in one window length |
| `RateLimit.LatenessIsExact` | src/auth/rate_limit.rs:111-118 | for every policy with room for two accounts and a budget below the counter's top, the budget bounds what an account is allowed, whatever the global budget, if and only if no stamp is as late as a window length |
| `RateLimit.LateByAWindowIsUnbounded` | src/auth/rate_limit.rs:111-118 | with stamps late by a window length an account is allowed as often as the global budget lets two attempts through |
| `DeliveryScheduler.RunsAreAccountedFor` | client/src/quote-delivery-scheduler.ts:45-63 | runs and pending requests never outnumber triggers, a request is only pending behind a run, and settles account for every run that ended |
| `DeliveryScheduler.TriggerIsFollowedByARun` | client/src/quote-delivery-scheduler.ts:45-63 | each trigger is followed by a new run, at once when idle and else with the next settle |
| `DeliveryScheduler.FlushesAreSerial` | client/src/quote-delivery-scheduler.ts:80-119 | flushes never overlap, there is one for each run, and none waits between events: only a requested run is queued, while the flush before it reports its end |
| `DeliveryScheduler.EventIsExact` | client/src/quote-delivery-scheduler.ts:80-119 | a wake starts a flush when none runs and is remembered while one does; the end of a flush starts the remembered one, or rests |
| `SyncEngineClass.SyncEngine.SyncNow` | client/src/sync/engine.ts:168-193 | a call during a drain is remembered; otherwise it begins a drain |
| `SyncEngineClass.SyncEngine.AfterPass` | client/src/sync/engine.ts:195-200 | the loop condition of a drain |
| `SyncEngineClass.SyncEngine.Finally` | client/src/sync/engine.ts:176-190 | a wake between the last check and the end of a drain starts another |
| `SyncEngineClass.SyncEngine.CancelActiveSync` | client/src/sync/engine.ts:378-383 | drops the pending wake and makes the drain stale |
| `SyncEngineClass.PassesAreWokenUp` | client/src/sync/engine.ts:168-200 | passes never outnumber wakes, whatever fails or is cancelled |
| `SyncEngineClass.NoWakeIsLost` | client/src/sync/engine.ts:168-200 | without cancellation every wake is followed by a pass that begins after it, before the engine rests |
| `SyncEngineClass.WakeIsServedUnlessCancelled` | client/src/sync/engine.ts:168-200 | left to itself the engine answers a wake with a pass if and only if no cancelled drain is winding down |
| `SyncEngineClass.FailedPassEndsTheDrain` | client/src/sync/engine.ts:176-200 | after a pass that fails no pass begins before the drain has settled |
| `SyncEngineClass.CancelStopsPasses` | client/src/sync/engine.ts:378-383 | after a cancel no pass begins until the next wake |
| `SyncEngineClass.SelectPushBatch` | client/src/sync/engine.ts:359-372 | the loop selects a prefix that fits one megabyte or a single operation, to which no further operation could be added |
| `SyncEngineClass.BatchIsLongest` | client/src/sync/engine.ts:359-372 | no longer prefix fits |
| `SyncEngineClass.RequestBytesAreExact` | client/src/sync/engine.ts:359-372 | the bytes counted for a request are its envelope, its operations and a comma between each two |

## Left out

- HTTP routing, cookies, CSRF, views, configuration, telemetry, the quote client and form, edge headers, readiness and training pages.
- Cryptography, hashing, base64 and JSON text: sealed values, an injective hash and abstract byte lengths stand for them; a failure to encrypt is a refresh that gives its claim up.
- PostgreSQL, row-level security and roles: each transaction is one atomic step under its row lock, except reconciliation, which takes none for its reading: its reading, its mark and its pruning are three steps, with anything in between. A transaction that fails as a whole is a step that does not happen.
- Notifications (LISTEN, WebSocket, BroadcastChannel, Web Locks) are hints: runs hold for any order of steps, so nothing depends on them.
- Migrations, including the legacy cursor repair: tables start empty.
- Several accounts in one browser, opening a store and `clearAccount`; one owner on the server, since owners share nothing.
- Fields that no decision reads: `lastError`, messages, `createdAt`, `updatedAt`, `detectedAt`, e-mail and CSRF token of a session, and the summaries and counts that calls return for display.
- A reply that throws midway: the store keeps what was taken before it, as IndexedDB commits the requests already made; a record that is not even a well-formed wire record is not modelled.
- A reply is taken operation by operation in `Protocol` (`Protocol.ReplyIsARunOfReceives`); the bounded loops over batches and pages in `syncPass` are left to the order of steps.
- `attempt_revocation` and `execute_refresh_claim` run across awaits, so they are machines over their awaits in `SessionProtocol` and not methods; `refresh_as_local_leader`, its polling and the in-process `RefreshCoordinator` only decide when a claim is tried.
- Reconciliation visits rows in batches of 32; one row is modelled, and a step that reaches it.
- Session durations are whole seconds; a saturating duration of 2^64 seconds is not modelled in the limiter.
- Limits.LateReceiptLosesAChange: one reachable state, where two entries fit one page; the exact condition for every state is Convergence.OrderlyIsExact.
