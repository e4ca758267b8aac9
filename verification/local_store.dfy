/**
 * The client's local store for one account: confirmed and optimistic shadows, the
 * outbox and the conflict rows, with each operation as a function from store to store.
 */
module LocalStore {
  import opened SyncTypes
  import Paging

  const MAX_LOCAL_SEQUENCE := 0x1F_FFFF_FFFF_FFFF - 1

  /** Versions are held as numbers; module Decimal relates them to their strings. */
  datatype Confirmed = Confirmed(version: nat, deleted: bool, value: Option<Note>)

  /** The optimistic shadow. */
  datatype Edit = Edit(localSeq: nat, action: Action, value: Option<Note>)

  datatype RecordState = Synced | Pending | Conflicted | RecordFailed

  datatype LocalRecord = LocalRecord(confirmed: Option<Confirmed>, optimistic: Option<Edit>, state: RecordState)

  datatype OpStatus = Queued | Inflight | Blocked | OpFailed

  datatype Op = Op(
    key: NoteId,
    action: Action,
    value: Option<Note>,
    baseVersion: Option<nat>,
    localSeq: nat,
    status: OpStatus,
    dependsOn: Option<MutationId>,
    attempts: nat,
    nextAttemptAt: int,
    leaseOwner: Option<LeaseOwner>,
    leaseExpiresAt: Option<int>)

  datatype ConflictRow = ConflictRow(
    mutationId: MutationId,
    reason: Status,
    baseVersion: Option<nat>,
    local: Edit,
    server: Option<Confirmed>)

  /** `issued` counts the random mutation ids drawn so far: each draw is an id never drawn before. */
  datatype Store = Store(
    records: map<NoteId, LocalRecord>,
    outbox: map<MutationId, Op>,
    conflicts: map<NoteId, ConflictRow>,
    nextSeq: nat,
    issued: nat,
    pullCursor: Option<Paging.Token>)

  const EMPTY := Store(map[], map[], map[], 1, 0, None)

  datatype QueueError = InvalidValue | UnresolvedConflict | FailedMutation | SequenceExhausted

  function ToConfirmed(snapshot: Snapshot): Confirmed {
    Confirmed(snapshot.version, snapshot.deleted, snapshot.value)
  }

  function EditOf(op: Op): Edit { Edit(op.localSeq, op.action, op.value) }

  function ConfirmedOf(s: Store, k: NoteId): Option<Confirmed> {
    if k in s.records then s.records[k].confirmed else None
  }

  function OptimisticOf(s: Store, k: NoteId): Option<Edit> {
    if k in s.records then s.records[k].optimistic else None
  }

  // Local edits ------------------------------------------------------------

  function EntityOps(outbox: map<MutationId, Op>, k: NoteId): set<MutationId> {
    set m | m in outbox && outbox[m].key == k
  }

  predicate Replaceable(op: Op) { op.status == Queued && op.attempts == 0 }

  predicate Immutable(op: Op) { op.status == Inflight || op.attempts > 0 }

  ghost function Oldest(outbox: map<MutationId, Op>, ids: set<MutationId>): (o: Option<MutationId>)
    requires ids <= outbox.Keys
    ensures o.None? <==> ids == {}
    ensures o.Some? ==> o.value in ids && forall m | m in ids :: outbox[o.value].localSeq <= outbox[m].localSeq
  {
    if ids == {} then None
    else
      var m :| m in ids;
      var rest := Oldest(outbox, ids - {m});
      if rest.Some? && outbox[rest.value].localSeq <= outbox[m].localSeq then rest else Some(m)
  }

  ghost function Newest(outbox: map<MutationId, Op>, ids: set<MutationId>): (o: Option<MutationId>)
    requires ids <= outbox.Keys
    ensures o.None? <==> ids == {}
    ensures o.Some? ==> o.value in ids && forall m | m in ids :: outbox[m].localSeq <= outbox[o.value].localSeq
  {
    if ids == {} then None
    else
      var m :| m in ids;
      var rest := Newest(outbox, ids - {m});
      if rest.Some? && outbox[m].localSeq <= outbox[rest.value].localSeq then rest else Some(m)
  }

  function ReplaceableOps(outbox: map<MutationId, Op>, k: NoteId): set<MutationId> {
    set m | m in outbox && outbox[m].key == k && Replaceable(outbox[m])
  }

  function ImmutableOps(outbox: map<MutationId, Op>, k: NoteId): set<MutationId> {
    set m | m in outbox && outbox[m].key == k && Immutable(outbox[m])
  }

  ghost function QueueBase(s: Store, k: NoteId): Option<nat> {
    var oldest := Oldest(s.outbox, ReplaceableOps(s.outbox, k));
    if oldest.Some? && s.outbox[oldest.value].baseVersion.Some? then s.outbox[oldest.value].baseVersion
    else if ConfirmedOf(s, k).Some? then Some(ConfirmedOf(s, k).value.version)
    else None
  }

  ghost function QueueDependency(s: Store, k: NoteId): Option<MutationId> {
    var newest := Newest(s.outbox, ImmutableOps(s.outbox, k));
    var oldest := Oldest(s.outbox, ReplaceableOps(s.outbox, k));
    if newest.Some? then newest
    else if oldest.Some? then s.outbox[oldest.value].dependsOn
    else None
  }

  function QueueRefusal(s: Store, k: NoteId): Option<QueueError> {
    if k in s.conflicts then Some(UnresolvedConflict)
    else if k in s.records && s.records[k].state == RecordFailed then Some(FailedMutation)
    else if s.nextSeq > MAX_LOCAL_SEQUENCE then Some(SequenceExhausted)
    else None
  }

  /** Queues an edit: unsent operations of the note are replaced, sent ones are depended on. */
  ghost function Queue(s: Store, k: NoteId, action: Action, value: Option<Note>, now: int): Store {
    if QueueRefusal(s, k).Some? then s
    else
      var op := Op(k, action, value, QueueBase(s, k), s.nextSeq, Queued, QueueDependency(s, k), 0, now, None, None);
      s.(outbox := (s.outbox - ReplaceableOps(s.outbox, k))[s.issued := op],
         records := s.records[k := LocalRecord(ConfirmedOf(s, k), Some(EditOf(op)), Pending)],
         nextSeq := s.nextSeq + 1,
         issued := s.issued + 1)
  }

  // Leases -----------------------------------------------------------------

  function Expired(op: Op, now: int): bool {
    op.status == Inflight && op.leaseExpiresAt.Some? && op.leaseExpiresAt.value <= now
  }

  function Unleased(op: Op): Op { op.(leaseOwner := None, leaseExpiresAt := None) }

  function ExpireLeases(outbox: map<MutationId, Op>, now: int): map<MutationId, Op> {
    map m | m in outbox :: if Expired(outbox[m], now) then Unleased(outbox[m]).(status := Queued) else outbox[m]
  }

  predicate IsDue(op: Op, now: int) {
    op.status == Queued && op.dependsOn.None? && op.nextAttemptAt <= now
  }

  function Due(outbox: map<MutationId, Op>, now: int): set<MutationId> {
    set m | m in outbox && IsDue(outbox[m], now)
  }

  /** `batch` holds the due operations with the smallest sequence numbers, in order, at most `limit` of them. */
  ghost predicate IsBatch(outbox: map<MutationId, Op>, now: int, limit: int, batch: seq<MutationId>) {
    && (forall i | 0 <= i < |batch| :: batch[i] in Due(outbox, now))
    && (forall i, j | 0 <= i < j < |batch| :: outbox[batch[i]].localSeq < outbox[batch[j]].localSeq)
    && (forall m, i | m in Due(outbox, now) && m !in batch && 0 <= i < |batch| ::
          outbox[batch[i]].localSeq < outbox[m].localSeq)
    && (|batch| == limit || (|batch| < limit && forall m | m in Due(outbox, now) :: m in batch)
        || (limit < 0 && batch == []))
  }

  function Lease(op: Op, owner: LeaseOwner, until: int): Op {
    op.(status := Inflight, attempts := op.attempts + 1, leaseOwner := Some(owner), leaseExpiresAt := Some(until))
  }

  function LeaseBatch(outbox: map<MutationId, Op>, owner: LeaseOwner, until: int, batch: seq<MutationId>)
    : map<MutationId, Op>
  {
    map m | m in outbox :: if m in batch then Lease(outbox[m], owner, until) else outbox[m]
  }

  function Claim(s: Store, owner: LeaseOwner, lease: int, now: int, batch: seq<MutationId>): Store {
    s.(outbox := LeaseBatch(ExpireLeases(s.outbox, now), owner, now + lease, batch))
  }

  predicate Holds(s: Store, m: MutationId, owner: LeaseOwner) {
    m in s.outbox && s.outbox[m].status == Inflight && s.outbox[m].leaseOwner == Some(owner)
  }

  function Retry(s: Store, m: MutationId, owner: LeaseOwner, delay: int, now: int): Store {
    if !Holds(s, m, owner) then s
    else
      var op := Unleased(s.outbox[m]).(status := Queued, nextAttemptAt := now + (if delay < 0 then 0 else delay));
      s.(outbox := s.outbox[m := op])
  }

  function Release(s: Store, m: MutationId, owner: LeaseOwner, now: int): Store {
    if !Holds(s, m, owner) then s
    else
      var attempts := s.outbox[m].attempts;
      var op := Unleased(s.outbox[m]).(status := Queued, nextAttemptAt := now,
                                       attempts := if attempts == 0 then 0 else attempts - 1);
      s.(outbox := s.outbox[m := op])
  }

  function MarkFailed(s: Store, m: MutationId): Store
    requires m in s.outbox
  {
    var op := Unleased(s.outbox[m]).(status := OpFailed);
    s.(outbox := s.outbox[m := op],
       records := if op.key in s.records then s.records[op.key := s.records[op.key].(state := RecordFailed)]
                  else s.records)
  }

  function Fail(s: Store, m: MutationId, owner: LeaseOwner): Store {
    if !Holds(s, m, owner) then s else MarkFailed(s, m)
  }

  /** What a push does with operations it does not have a result for. */
  datatype Outcome = RetryAfter(delay: int) | GiveBack | GiveUp

  function Finish(s: Store, m: MutationId, owner: LeaseOwner, outcome: Outcome, now: int): Store {
    match outcome
    case RetryAfter(delay) => Retry(s, m, owner, delay, now)
    case GiveBack => Release(s, m, owner, now)
    case GiveUp => Fail(s, m, owner)
  }

  /** One operation after the other; `times` is the clock as each is settled. */
  function FinishEach(s: Store, ids: seq<MutationId>, owner: LeaseOwner, outcome: Outcome, times: seq<int>): Store
    requires |times| == |ids|
    decreases ids
  {
    if ids == [] then s
    else
      var last := |ids| - 1;
      Finish(FinishEach(s, ids[..last], owner, outcome, times[..last]), ids[last], owner, outcome, times[last])
  }

  // Pulls ------------------------------------------------------------------

  function StateAfterPull(existing: Option<LocalRecord>): RecordState {
    if existing.None? then Synced
    else if existing.value.state == Conflicted then Conflicted
    else if existing.value.state == RecordFailed then RecordFailed
    else if existing.value.optimistic.None? then Synced
    else Pending
  }

  /** One pulled snapshot: ignored unless it is newer than the confirmed shadow. */
  function ApplyChange(s: Store, incoming: Snapshot): Store {
    var k := incoming.id;
    if ConfirmedOf(s, k).Some? && incoming.version <= ConfirmedOf(s, k).value.version then s
    else
      var confirmed := ToConfirmed(incoming);
      var existing := if k in s.records then Some(s.records[k]) else None;
      s.(conflicts := if k in s.conflicts then s.conflicts[k := s.conflicts[k].(server := Some(confirmed))]
                      else s.conflicts,
         records := s.records[k := LocalRecord(Some(confirmed), OptimisticOf(s, k), StateAfterPull(existing))])
  }

  function ApplyEach(s: Store, changes: seq<Snapshot>): Store
    decreases changes
  {
    if changes == [] then s
    else ApplyChange(ApplyEach(s, changes[..|changes| - 1]), changes[|changes| - 1])
  }

  function ApplyPage(s: Store, changes: seq<Snapshot>, next: Paging.Token): Store {
    ApplyEach(s, changes).(pullCursor := Some(next))
  }

  function ResetCursor(s: Store): Store { s.(pullCursor := None) }

  // Push results -----------------------------------------------------------

  function Dependents(outbox: map<MutationId, Op>, k: NoteId, m: MutationId): set<MutationId> {
    set n | n in outbox && outbox[n].key == k && outbox[n].dependsOn == Some(m)
  }

  function Rebased(op: Op, version: nat, now: int): Op {
    op.(baseVersion := Some(version), dependsOn := None, status := Queued, attempts := 0, nextAttemptAt := now,
        leaseOwner := None, leaseExpiresAt := None)
  }

  /** The operation is done: it leaves the outbox and its successor, if any, is re-based under a fresh id. */
  ghost function ApplyApplied(s: Store, m: MutationId, record: Snapshot, now: int): Store
    requires m in s.outbox
  {
    var op := s.outbox[m];
    var k := op.key;
    var remaining := s.outbox - {m};
    var successor := Oldest(remaining, Dependents(remaining, k, m));
    var newer := OptimisticOf(s, k).Some? && OptimisticOf(s, k).value.localSeq > op.localSeq;
    s.(outbox := if successor.None? then remaining
                 else (remaining - {successor.value})[s.issued := Rebased(remaining[successor.value], record.version, now)],
       issued := if successor.None? then s.issued else s.issued + 1,
       records := s.records[k := LocalRecord(Some(ToConfirmed(record)),
                                             if newer then OptimisticOf(s, k) else None,
                                             if newer then Pending else Synced)],
       conflicts := s.conflicts - {k})
  }

  function ConflictServer(s: Store, k: NoteId, r: MutationResult): Option<Confirmed> {
    if r.current.Some? then Some(ToConfirmed(r.current.value))
    else if r.record.Some? then Some(ToConfirmed(r.record.value))
    else ConfirmedOf(s, k)
  }

  /** The operation and its dependents are blocked and a conflict row is kept for the user. */
  function ApplyConflict(s: Store, m: MutationId, r: MutationResult): Store
    requires m in s.outbox
  {
    var op := s.outbox[m];
    var k := op.key;
    var local := if OptimisticOf(s, k).Some? then OptimisticOf(s, k).value else EditOf(op);
    var server := ConflictServer(s, k, r);
    s.(outbox := map n | n in s.outbox ::
                   if n == m then Unleased(op).(status := Blocked)
                   else if n in Dependents(s.outbox, k, m) then s.outbox[n].(status := Blocked)
                   else s.outbox[n],
       conflicts := s.conflicts[k := ConflictRow(m, r.status, op.baseVersion, local, server)],
       records := s.records[k := LocalRecord(server, Some(local), Conflicted)])
  }

  /** An applied result must carry the record of the note it is about. */
  predicate WellFormed(s: Store, m: MutationId, r: MutationResult) {
    r.status == Applied && m in s.outbox ==> r.record.Some? && r.record.value.id == s.outbox[m].key
  }

  /** One result of a push, looked at by `owner`. */
  ghost function ApplyResult(s: Store, m: MutationId, r: MutationResult, owner: LeaseOwner, now: int): Store
    requires WellFormed(s, m, r)
  {
    if !Holds(s, m, owner) then s
    else match r.status
      case Applied => ApplyApplied(s, m, r.record.value, now)
      case Conflict => ApplyConflict(s, m, r)
      case Gone => ApplyConflict(s, m, r)
      case Invalid => MarkFailed(s, m)
      case Forbidden => MarkFailed(s, m)
      case IdempotencyKeyReused => MarkFailed(s, m)
  }

  /** Results by mutation id; of two with one id the later counts. */
  function ById(results: seq<MutationResult>): map<MutationId, MutationResult> {
    if results == [] then map[]
    else ById(results[..|results| - 1])[results[|results| - 1].mutationId := results[|results| - 1]]
  }

  /** A push whose reply was taken, up to the first result that throws if there is one. */
  datatype Reply = Reply(store: Store, malformed: bool)

  ghost function TakeResult(s: Store, m: MutationId, byId: map<MutationId, MutationResult>, owner: LeaseOwner, now: int): Reply {
    if m !in byId || !Holds(s, m, owner) then Reply(s, false)
    else if !WellFormed(s, m, byId[m]) then Reply(s, true)
    else Reply(ApplyResult(s, m, byId[m], owner, now), false)
  }

  /** The results of one push, operation by operation, skipping those without a result or no longer held. */
  ghost function ApplyResults(s: Store, ids: seq<MutationId>, byId: map<MutationId, MutationResult>,
                              owner: LeaseOwner, times: seq<int>): Reply
    requires |times| == |ids|
    decreases ids
  {
    if ids == [] then Reply(s, false)
    else
      var last := |ids| - 1;
      var u := ApplyResults(s, ids[..last], byId, owner, times[..last]);
      if u.malformed then u else TakeResult(u.store, ids[last], byId, owner, times[last])
  }

  // Conflict resolution ----------------------------------------------------

  function DropOps(s: Store, k: NoteId): Store {
    s.(outbox := s.outbox - EntityOps(s.outbox, k), conflicts := s.conflicts - {k})
  }

  function Settle(s: Store, k: NoteId): Store
    requires k in s.records
  {
    s.(records := s.records[k := LocalRecord(s.records[k].confirmed, None, Synced)])
  }

  function AcceptServerVersion(s: Store, k: NoteId): Store {
    var t := DropOps(s, k);
    if k in s.records then Settle(t, k) else t
  }

  function DiscardLocalVersion(s: Store, k: NoteId): Store {
    var t := DropOps(s, k);
    if k !in s.records then t
    else if s.records[k].confirmed.None? || s.records[k].confirmed.value.deleted then
      t.(records := t.records - {k})
    else Settle(t, k)
  }

  // The effective view -----------------------------------------------------

  datatype EffectiveNote = EffectiveNote(value: Note, version: Option<nat>, pending: bool, failed: bool)

  function Effective(record: LocalRecord): Option<EffectiveNote> {
    if record.state == Conflicted then None
    else if record.optimistic.Some? then
      if record.optimistic.value.action.Delete? || record.optimistic.value.value.None? then None
      else Some(EffectiveNote(record.optimistic.value.value.value,
                              if record.confirmed.Some? then Some(record.confirmed.value.version) else None,
                              record.state == Pending, record.state == RecordFailed))
    else if record.confirmed.None? || record.confirmed.value.deleted || record.confirmed.value.value.None? then None
    else Some(EffectiveNote(record.confirmed.value.value.value, Some(record.confirmed.value.version), false, false))
  }

  function EffectiveNotes(s: Store): map<NoteId, EffectiveNote> {
    map k | k in s.records && Effective(s.records[k]).Some? :: Effective(s.records[k]).value
  }
}
