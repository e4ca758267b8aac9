/** What each operation of the local store does to the fields of one note's rows, case by case. */
module StoreEffects {
  import opened SyncTypes
  import opened LocalStore
  import opened StoreShape
  import opened StoreSteps

  // Claims -----------------------------------------------------------------

  /** Nothing to wait for: no other operation, no delay, and nobody's lease that still runs. */
  predicate IsFree(op: Op, now: int) {
    && op.dependsOn.None? && op.nextAttemptAt <= now
    && (op.status == Queued || (op.status == Inflight && op.leaseExpiresAt.Some? && op.leaseExpiresAt.value <= now))
  }

  /** The free operations that were queued before this one. */
  function FreeBefore(s: Store, now: int, m: MutationId): set<MutationId>
    requires m in s.outbox
  {
    set n | n in s.outbox && IsFree(s.outbox[n], now) && s.outbox[n].localSeq < s.outbox[m].localSeq
  }

  function Elements(ids: seq<MutationId>): set<MutationId> { set m | m in ids }

  lemma {:induction false} DistinctCount(ids: seq<MutationId>)
    requires forall i, j | 0 <= i < j < |ids| :: ids[i] != ids[j]
    ensures |Elements(ids)| == |ids|
    decreases ids
  {
    if ids != [] {
      var last := |ids| - 1;
      DistinctCount(ids[..last]);
      assert Elements(ids) == Elements(ids[..last]) + {ids[last]};
    }
  }

  lemma SubsetCount(a: set<MutationId>, b: set<MutationId>)
    requires a <= b
    ensures |a| <= |b|
  {
    assert b == a + (b - a);
  }

  /** Exactly the first `limit` free operations in the order they were queued are claimed. */
  lemma ClaimTakesTheFirst(s: Store, limit: int, now: int, batch: seq<MutationId>, m: MutationId)
    requires StoreValid(s) && IsBatch(ExpireLeases(s.outbox, now), now, limit, batch) && m in s.outbox
    ensures m in batch <==> IsFree(s.outbox[m], now) && |FreeBefore(s, now, m)| < limit
  {
    var expired := ExpireLeases(s.outbox, now);
    assert forall n | n in s.outbox :: n in Due(expired, now) <==> IsFree(s.outbox[n], now);
    if m in batch {
      var i :| 0 <= i < |batch| && batch[i] == m;
      assert m in Due(expired, now);
      DistinctCount(batch[..i]);
      forall n | n in FreeBefore(s, now, m) ensures n in batch[..i] {
        assert n in Due(expired, now) && n in batch;
        var j :| 0 <= j < |batch| && batch[j] == n;
        assert j < i;
      }
      assert FreeBefore(s, now, m) <= Elements(batch[..i]);
      SubsetCount(FreeBefore(s, now, m), Elements(batch[..i]));
    } else if IsFree(s.outbox[m], now) {
      assert m in Due(expired, now);
      DistinctCount(batch);
      forall n | n in batch ensures n in FreeBefore(s, now, m) {
        var j :| 0 <= j < |batch| && batch[j] == n;
        assert n in Due(expired, now);
      }
      SubsetCount(Elements(batch), FreeBefore(s, now, m));
    }
  }

  /** What a claim makes of every operation: leased, freed of a lease that ran out, or as it was. */
  lemma ClaimIsExact(s: Store, owner: LeaseOwner, limit: int, lease: int, now: int, batch: seq<MutationId>)
    requires StoreValid(s) && IsBatch(ExpireLeases(s.outbox, now), now, limit, batch)
    ensures var t := Claim(s, owner, lease, now, batch);
            && t == s.(outbox := t.outbox) && t.outbox.Keys == s.outbox.Keys
            && (forall i, j | 0 <= i < j < |batch| :: s.outbox[batch[i]].localSeq < s.outbox[batch[j]].localSeq)
            && forall m | m in s.outbox ::
                 var op := s.outbox[m];
                 t.outbox[m] == if IsFree(op, now) && |FreeBefore(s, now, m)| < limit then
                                  op.(status := Inflight, attempts := op.attempts + 1, leaseOwner := Some(owner),
                                      leaseExpiresAt := Some(now + lease))
                                else if op.status == Inflight && op.leaseExpiresAt.Some? && op.leaseExpiresAt.value <= now then
                                  op.(status := Queued, leaseOwner := None, leaseExpiresAt := None)
                                else op
  {
    forall m | m in s.outbox
      ensures m in batch <==> IsFree(s.outbox[m], now) && |FreeBefore(s, now, m)| < limit
    {
      ClaimTakesTheFirst(s, limit, now, batch, m);
    }
    forall i | 0 <= i < |batch| ensures batch[i] in s.outbox {
      assert batch[i] in Due(ExpireLeases(s.outbox, now), now);
    }
  }

  /**
   * No operation is lost to a tab that crashed: one whose lease ran out, or whose delay is over, is in every claim
   * that is not full, and is then the claimant's.
   */
  lemma ExpiredLeaseIsTakenOver(s: Store, owner: LeaseOwner, limit: int, lease: int, now: int, batch: seq<MutationId>, m: MutationId)
    requires StoreValid(s) && IsBatch(ExpireLeases(s.outbox, now), now, limit, batch) && |batch| < limit
    requires m in s.outbox && s.outbox[m].dependsOn.None? && s.outbox[m].nextAttemptAt <= now
    requires s.outbox[m].status == Queued
             || (s.outbox[m].status == Inflight && s.outbox[m].leaseExpiresAt.Some? && s.outbox[m].leaseExpiresAt.value <= now)
    ensures m in batch
    ensures var op := Claim(s, owner, lease, now, batch).outbox[m];
            && op.status == Inflight && op.leaseOwner == Some(owner) && op.leaseExpiresAt == Some(now + lease)
            && op.attempts == s.outbox[m].attempts + 1
  {
    assert m in Due(ExpireLeases(s.outbox, now), now);
  }

  // Edits ------------------------------------------------------------------

  predicate WasSent(op: Op) { op.status == Inflight || op.attempts > 0 }

  predicate NeverSent(op: Op) { op.status == Queued && op.attempts == 0 }

  ghost predicate HasFailed(s: Store, k: NoteId) { exists m :: m in EntityOps(s.outbox, k) && s.outbox[m].status == OpFailed }

  /** An edit is refused, and changes nothing, exactly on a conflict, on a failed operation of the note, or without a number left. */
  lemma RefusalIsExact(s: Store, k: NoteId, action: Action, value: Option<Note>, now: int)
    requires StoreValid(s)
    ensures QueueRefusal(s, k) == if k in s.conflicts then Some(UnresolvedConflict)
                                  else if HasFailed(s, k) then Some(FailedMutation)
                                  else if s.nextSeq > 0x1F_FFFF_FFFF_FFFE then Some(SequenceExhausted)
                                  else None
    ensures QueueRefusal(s, k).Some? ==> Queue(s, k, action, value, now) == s
  {
    forall m | m in EntityOps(s.outbox, k) ensures k in s.records { assert OpShape(s, m); }
    if k in s.records { ConflictIsBlockedHead(s, k); }
  }

  /** The version an edit starts from that replaces this operation, or none. */
  function BaseAfter(s: Store, k: NoteId, replaced: Option<Op>): Option<nat> {
    if replaced.Some? && replaced.value.baseVersion.Some? then replaced.value.baseVersion
    else if k in s.records && s.records[k].confirmed.Some? then Some(s.records[k].confirmed.value.version)
    else None
  }

  /** An accepted edit takes the place of exactly the note's operations that were never sent, and is due at once. */
  lemma EditIsExact(s: Store, k: NoteId, action: Action, value: Option<Note>, now: int)
    requires StoreValid(s) && QueueRefusal(s, k).None?
    ensures var t := Queue(s, k, action, value, now);
            && s.issued in t.outbox
            && t.outbox[s.issued] == Op(k, action, value, t.outbox[s.issued].baseVersion, s.nextSeq, Queued,
                                        t.outbox[s.issued].dependsOn, 0, now, None, None)
            && (forall m | m != s.issued :: m in t.outbox <==>
                  m in s.outbox && !(s.outbox[m].key == k && NeverSent(s.outbox[m])))
            && (forall m | m != s.issued && m in t.outbox :: t.outbox[m] == s.outbox[m])
            && t.records == s.records[k := LocalRecord(ConfirmedOf(s, k), Some(Edit(s.nextSeq, action, value)), Pending)]
            && (t.nextSeq, t.issued, t.conflicts, t.pullCursor) == (s.nextSeq + 1, s.issued + 1, s.conflicts, s.pullCursor)
  {
  }

  /** It waits for the note's operation that was sent, if and only if there is one. */
  lemma EditWaitsForTheSent(s: Store, k: NoteId, action: Action, value: Option<Note>, now: int)
    requires StoreValid(s) && QueueRefusal(s, k).None?
    ensures var waits := Queue(s, k, action, value, now).outbox[s.issued].dependsOn;
            && (forall m | m in EntityOps(s.outbox, k) && WasSent(s.outbox[m]) :: waits == Some(m))
            && ((forall m | m in EntityOps(s.outbox, k) :: !WasSent(s.outbox[m])) ==> waits.None?)
  {
    QueueFinds(s, k);
  }

  /**
   * It keeps the base of the oldest edit it replaces, so that a version pulled since is still a conflict,
   * and otherwise starts from the confirmed version.
   */
  lemma EditKeepsItsBase(s: Store, k: NoteId, action: Action, value: Option<Note>, now: int)
    requires StoreValid(s) && QueueRefusal(s, k).None?
    ensures var base := Queue(s, k, action, value, now).outbox[s.issued].baseVersion;
            && (forall m | m in EntityOps(s.outbox, k) && NeverSent(s.outbox[m])
                  && (forall n | n in EntityOps(s.outbox, k) && NeverSent(s.outbox[n]) ::
                        s.outbox[m].localSeq <= s.outbox[n].localSeq) ::
                  base == BaseAfter(s, k, Some(s.outbox[m])))
            && ((forall m | m in EntityOps(s.outbox, k) :: !NeverSent(s.outbox[m])) ==> base == BaseAfter(s, k, None))
  {
    var replaced := ReplaceableOps(s.outbox, k);
    var oldest := Oldest(s.outbox, replaced);
    assert forall m :: m in replaced <==> m in EntityOps(s.outbox, k) && NeverSent(s.outbox[m]);
    forall m | m in replaced && forall n | n in replaced :: s.outbox[m].localSeq <= s.outbox[n].localSeq
      ensures oldest == Some(m)
    {
      assert oldest.value == m || Compatible(s.outbox[oldest.value], s.outbox[m]);
    }
  }

  // Settling a push --------------------------------------------------------

  /** The operation is leased to `owner`. */
  predicate IsLeasedTo(s: Store, m: MutationId, owner: LeaseOwner) {
    m in s.outbox && s.outbox[m].status == Inflight && s.outbox[m].leaseOwner == Some(owner)
  }

  function FreedAs(op: Op, status: OpStatus): Op { op.(status := status, leaseOwner := None, leaseExpiresAt := None) }

  /** Retrying, giving back and failing act on what the owner holds and on nothing else. */
  lemma FinishIsExact(s: Store, m: MutationId, owner: LeaseOwner, outcome: Outcome, now: int)
    requires StoreValid(s)
    ensures var t := Finish(s, m, owner, outcome, now);
            && (!IsLeasedTo(s, m, owner) ==> t == s)
            && (IsLeasedTo(s, m, owner) ==>
                  var op := s.outbox[m];
                  && t == s.(outbox := t.outbox, records := t.records) && m in t.outbox
                  && (outcome.RetryAfter? ==>
                        t.outbox == s.outbox[m := FreedAs(op, Queued).(nextAttemptAt := t.outbox[m].nextAttemptAt)])
                  && (outcome.RetryAfter? && outcome.delay >= 0 ==> t.outbox[m].nextAttemptAt == now + outcome.delay)
                  && (outcome.RetryAfter? && outcome.delay < 0 ==> t.outbox[m].nextAttemptAt == now)
                  && (outcome.GiveBack? ==>
                        op.attempts > 0
                        && t.outbox == s.outbox[m := FreedAs(op, Queued).(nextAttemptAt := now, attempts := op.attempts - 1)])
                  && (outcome.GiveUp? ==>
                        && t.outbox == s.outbox[m := FreedAs(op, OpFailed)] && op.key in s.records
                        && t.records == s.records[op.key := s.records[op.key].(state := RecordFailed)])
                  && (!outcome.GiveUp? ==> t.records == s.records))
  {
    if m in s.outbox { assert OpShape(s, m); }
  }

  /** Settling an operation touches no other and depends on no other. */
  lemma FinishTouchesOne(s: Store, u: Store, n: MutationId, owner: LeaseOwner, outcome: Outcome, now: int, m: MutationId)
    requires m in s.outbox && m in u.outbox
    ensures m in Finish(u, n, owner, outcome, now).outbox
    ensures n != m ==> Finish(u, n, owner, outcome, now).outbox[m] == u.outbox[m]
    ensures n == m && u.outbox[m] == s.outbox[m] ==>
              m in Finish(s, m, owner, outcome, now).outbox
              && Finish(u, n, owner, outcome, now).outbox[m] == Finish(s, m, owner, outcome, now).outbox[m]
  {
  }

  /** Of a list of operations each one named is settled as if it were alone, and no other. */
  lemma {:induction false} FinishEachIsExact(s: Store, ids: seq<MutationId>, owner: LeaseOwner, outcome: Outcome, times: seq<int>,
                                             m: MutationId)
    requires |times| == |ids| && m in s.outbox && forall i, j | 0 <= i < j < |ids| :: ids[i] != ids[j]
    ensures m in FinishEach(s, ids, owner, outcome, times).outbox
    ensures m !in ids ==> FinishEach(s, ids, owner, outcome, times).outbox[m] == s.outbox[m]
    ensures forall i | 0 <= i < |ids| && ids[i] == m ::
              m in Finish(s, m, owner, outcome, times[i]).outbox
              && FinishEach(s, ids, owner, outcome, times).outbox[m] == Finish(s, m, owner, outcome, times[i]).outbox[m]
    decreases ids
  {
    if ids != [] {
      var last := |ids| - 1;
      FinishEachIsExact(s, ids[..last], owner, outcome, times[..last], m);
      FinishTouchesOne(s, FinishEach(s, ids[..last], owner, outcome, times[..last]), ids[last], owner, outcome, times[last], m);
    }
  }

  // Pulls ------------------------------------------------------------------

  /** A pulled version is taken if and only if it is newer than the confirmed one, and never touches what is queued. */
  lemma ChangeIsExact(s: Store, incoming: Snapshot)
    requires StoreValid(s)
    ensures var t, k := ApplyChange(s, incoming), incoming.id;
            if ConfirmedOf(s, k).Some? && incoming.version <= ConfirmedOf(s, k).value.version then t == s
            else
              var confirmed := Confirmed(incoming.version, incoming.deleted, incoming.value);
              && (t.outbox, t.nextSeq, t.issued, t.pullCursor) == (s.outbox, s.nextSeq, s.issued, s.pullCursor)
              && t.records == s.records[k := LocalRecord(Some(confirmed), OptimisticOf(s, k),
                                                         if k in s.conflicts then Conflicted
                                                         else if HasFailed(s, k) then RecordFailed
                                                         else if EntityOps(s.outbox, k) != {} then Pending
                                                         else Synced)]
              && t.conflicts == if k in s.conflicts then s.conflicts[k := s.conflicts[k].(server := Some(confirmed))]
                                else s.conflicts
  {
    var k := incoming.id;
    if k in s.conflicts { assert ConflictShape(s, k); }
    forall m | m in EntityOps(s.outbox, k) ensures k in s.records { assert OpShape(s, m); }
    if k in s.records {
      ConflictIsBlockedHead(s, k);
      ShadowIsNewestEdit(s, k);
      assert RecordShape(s, k);
    }
  }

  // Results ----------------------------------------------------------------

  /** An applied edit leaves the queue and becomes the confirmed version; an edit that waited for it starts from there, at once. */
  lemma AppliedIsExact(s: Store, m: MutationId, r: MutationResult, owner: LeaseOwner, now: int)
    requires StoreValid(s) && IsLeasedTo(s, m, owner) && r.status == Applied && WellFormed(s, m, r)
    ensures var t, k := ApplyResult(s, m, r, owner, now), s.outbox[m].key;
            var confirmed := Confirmed(r.record.value.version, r.record.value.deleted, r.record.value.value);
            && t.conflicts == s.conflicts - {k} && (t.nextSeq, t.pullCursor) == (s.nextSeq, s.pullCursor)
            && ((forall n | n in s.outbox :: s.outbox[n].dependsOn != Some(m)) ==>
                  && t.outbox == s.outbox - {m} && t.issued == s.issued
                  && t.records == s.records[k := LocalRecord(Some(confirmed), None, Synced)])
            && (forall n | n in s.outbox && s.outbox[n].dependsOn == Some(m) ::
                  && t.outbox == (s.outbox - {m} - {n})[s.issued :=
                       FreedAs(s.outbox[n], Queued).(baseVersion := Some(r.record.value.version), dependsOn := None,
                                                     attempts := 0, nextAttemptAt := now)]
                  && t.issued == s.issued + 1
                  && t.records == s.records[k := LocalRecord(Some(confirmed), Some(EditOf(s.outbox[n])), Pending)])
  {
    var k := s.outbox[m].key;
    assert OpShape(s, m) && OpShown(s, m);
    SuccessorIsOnly(s, m);
    ShadowIsNewestEdit(s, k);
    NewestIsTail(s, m);
    forall n | n in s.outbox && s.outbox[n].dependsOn == Some(m)
      ensures n in Dependents(s.outbox, k, m) && IsNewest(s, n) && s.outbox[n].localSeq > s.outbox[m].localSeq && n != m
    {
      assert OpShape(s, n);
      NewestIsTail(s, n);
    }
  }

  /** A conflict or gone blocks the edit and the one that waits for it, and keeps both sides for the user. */
  lemma ConflictIsExact(s: Store, m: MutationId, r: MutationResult, owner: LeaseOwner, now: int)
    requires StoreValid(s) && IsLeasedTo(s, m, owner) && (r.status == Conflict || r.status == Gone)
    ensures var t, k := ApplyResult(s, m, r, owner, now), s.outbox[m].key;
            var server := if r.current.Some? then r.current else r.record;
            var theirs := if server.Some? then Some(Confirmed(server.value.version, server.value.deleted, server.value.value))
                          else ConfirmedOf(s, k);
            && t == s.(outbox := t.outbox, records := t.records, conflicts := t.conflicts)
            && t.outbox.Keys == s.outbox.Keys
            && (forall n | n in s.outbox ::
                  t.outbox[n] == if n == m || s.outbox[n].dependsOn == Some(m) then FreedAs(s.outbox[n], Blocked) else s.outbox[n])
            && (forall n | n in EntityOps(s.outbox, k) && IsNewest(s, n) ::
                  && t.records == s.records[k := LocalRecord(theirs, Some(EditOf(s.outbox[n])), Conflicted)]
                  && t.conflicts == s.conflicts[k :=
                       ConflictRow(m, r.status, s.outbox[m].baseVersion, EditOf(s.outbox[n]), theirs)])
  {
    var k := s.outbox[m].key;
    assert OpShape(s, m) && OpShown(s, m);
    ShadowIsNewestEdit(s, k);
    forall n | n in s.outbox && s.outbox[n].dependsOn == Some(m)
      ensures n in Dependents(s.outbox, k, m) && FreedAs(s.outbox[n], Blocked) == s.outbox[n].(status := Blocked)
    {
      assert OpShape(s, n);
    }
  }

  /** Any other refusal fails the edit and its note, and nothing else. */
  lemma RefusedIsExact(s: Store, m: MutationId, r: MutationResult, owner: LeaseOwner, now: int)
    requires StoreValid(s) && IsLeasedTo(s, m, owner)
    requires r.status == Invalid || r.status == Forbidden || r.status == IdempotencyKeyReused
    ensures s.outbox[m].key in s.records
    ensures ApplyResult(s, m, r, owner, now) ==
              s.(outbox := s.outbox[m := FreedAs(s.outbox[m], OpFailed)],
                 records := s.records[s.outbox[m].key := s.records[s.outbox[m].key].(state := RecordFailed)])
  {
    assert OpShape(s, m);
  }

  /** Of several results with one id the last one counts. */
  lemma {:induction false} LastResultCounts(results: seq<MutationResult>, m: MutationId)
    ensures m in ById(results) <==> exists r :: r in results && r.mutationId == m
    ensures forall i | 0 <= i < |results| && results[i].mutationId == m
              && (forall j | i < j < |results| :: results[j].mutationId != m) :: ById(results)[m] == results[i]
    decreases results
  {
    if results != [] {
      var last := |results| - 1;
      LastResultCounts(results[..last], m);
      assert results == results[..last] + [results[last]];
    }
  }

  /** A result is looked at exactly if its operation is still leased to the owner, and throws exactly if it is applied without its record. */
  lemma TakenIsExact(s: Store, m: MutationId, byId: map<MutationId, MutationResult>, owner: LeaseOwner, now: int)
    ensures var reply := TakeResult(s, m, byId, owner, now);
            if m !in byId || !IsLeasedTo(s, m, owner) then reply == Reply(s, false)
            else if byId[m].status == Applied && (byId[m].record.None? || byId[m].record.value.id != s.outbox[m].key) then
              reply == Reply(s, true)
            else WellFormed(s, m, byId[m]) && reply == Reply(ApplyResult(s, m, byId[m], owner, now), false)
  {
  }

  /** A reply is taken in the order of its operations, all of it unless one throws, and then up to that one. */
  lemma {:induction false} ResultsAreTakenInOrder(s: Store, ids: seq<MutationId>, byId: map<MutationId, MutationResult>,
                                                  owner: LeaseOwner, times: seq<int>) returns (stores: seq<Store>)
    requires |times| == |ids|
    ensures var reply := ApplyResults(s, ids, byId, owner, times);
            && 1 <= |stores| <= |ids| + 1 && stores[0] == s && stores[|stores| - 1] == reply.store
            && (forall i | 0 <= i < |stores| - 1 :: TakeResult(stores[i], ids[i], byId, owner, times[i]) == Reply(stores[i + 1], false))
            && (reply.malformed <==> |stores| <= |ids|)
            && (reply.malformed ==>
                  var i := |stores| - 1; TakeResult(stores[i], ids[i], byId, owner, times[i]).malformed)
    decreases ids
  {
    if ids == [] {
      stores := [s];
    } else {
      var last := |ids| - 1;
      stores := ResultsAreTakenInOrder(s, ids[..last], byId, owner, times[..last]);
      var u := ApplyResults(s, ids[..last], byId, owner, times[..last]);
      var taken := TakeResult(u.store, ids[last], byId, owner, times[last]);
      if !u.malformed && !taken.malformed {
        stores := stores + [taken.store];
      }
    }
  }

  // Resolving a conflict ---------------------------------------------------

  /** Taking the server's side drops what is queued for the note and the conflict, and shows the confirmed version. */
  lemma AcceptIsExact(s: Store, k: NoteId)
    ensures var t := AcceptServerVersion(s, k);
            && (forall m :: m in t.outbox <==> m in s.outbox && s.outbox[m].key != k)
            && (forall m | m in t.outbox :: t.outbox[m] == s.outbox[m])
            && t.conflicts == s.conflicts - {k} && (t.nextSeq, t.issued, t.pullCursor) == (s.nextSeq, s.issued, s.pullCursor)
            && t.records == if k in s.records then s.records[k := LocalRecord(s.records[k].confirmed, None, Synced)] else s.records
  {
  }

  /** Discarding does the same, and forgets a note that the server does not have, or has deleted. */
  lemma DiscardIsExact(s: Store, k: NoteId)
    ensures var t, u := DiscardLocalVersion(s, k), AcceptServerVersion(s, k);
            && (t.outbox, t.conflicts, t.nextSeq, t.issued, t.pullCursor) == (u.outbox, u.conflicts, u.nextSeq, u.issued, u.pullCursor)
            && t.records == if k in s.records && (s.records[k].confirmed.None? || s.records[k].confirmed.value.deleted)
                            then s.records - {k} else u.records
  {
  }
}
