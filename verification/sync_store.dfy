/** The local store as it runs: each method is one transaction that updates the tables in place. */
module SyncStoreClass {
  import opened SyncTypes
  import opened LocalStore
  import opened StoreShape
  import opened StoreSteps
  import Decimal
  import Paging

  datatype Claimed = Claimed(id: MutationId, op: Op)

  function Ids(claimed: seq<Claimed>): (ids: seq<MutationId>)
    ensures |ids| == |claimed|
  {
    seq(|claimed|, i requires 0 <= i < |claimed| => claimed[i].id)
  }

  ghost predicate SequencesDiffer(outbox: map<MutationId, Op>) {
    forall m, n | m in outbox && n in outbox && m != n :: outbox[m].localSeq != outbox[n].localSeq
  }

  lemma ValidSequencesDiffer(s: Store)
    requires StoreValid(s)
    ensures SequencesDiffer(s.outbox)
  {
    forall m, n | m in s.outbox && n in s.outbox && m != n
      ensures s.outbox[m].localSeq != s.outbox[n].localSeq
    {
      assert Compatible(s.outbox[m], s.outbox[n]);
    }
  }

  lemma ExpiredSequencesDiffer(s: Store, now: int)
    requires StoreValid(s)
    ensures SequencesDiffer(ExpireLeases(s.outbox, now))
  {
    ValidSequencesDiffer(s);
  }

  predicate Distinct(outbox: map<MutationId, Op>, ids: seq<MutationId>) {
    && (forall i | 0 <= i < |ids| :: ids[i] in outbox)
    && (forall i, j | 0 <= i < j < |ids| :: ids[i] != ids[j])
  }

  /** `batch` lists, in order, the operations of `due` that precede all of `rest`. */
  ghost predicate Picked(outbox: map<MutationId, Op>, due: set<MutationId>, rest: set<MutationId>, batch: seq<MutationId>) {
    && rest <= due <= outbox.Keys
    && (forall i | 0 <= i < |batch| :: batch[i] in due && batch[i] !in rest)
    && (forall m | m in due :: m in rest || m in batch)
    && (forall i, j | 0 <= i < j < |batch| :: outbox[batch[i]].localSeq < outbox[batch[j]].localSeq)
    && (forall m, i | m in rest && 0 <= i < |batch| :: outbox[batch[i]].localSeq < outbox[m].localSeq)
  }

  lemma PickNext(outbox: map<MutationId, Op>, due: set<MutationId>, rest: set<MutationId>, batch: seq<MutationId>,
                 next: MutationId)
    requires SequencesDiffer(outbox) && Picked(outbox, due, rest, batch)
    requires next in rest && forall m | m in rest :: outbox[next].localSeq <= outbox[m].localSeq
    ensures Picked(outbox, due, rest - {next}, batch + [next])
  {
    assert (batch + [next])[|batch|] == next;
  }

  class SyncStore {
    var records: map<NoteId, LocalRecord>
    var outbox: map<MutationId, Op>
    var conflicts: map<NoteId, ConflictRow>
    var nextSeq: nat
    var issued: nat
    var pullCursor: Option<Paging.Token>

    function Contents(): Store
      reads this
    {
      Store(records, outbox, conflicts, nextSeq, issued, pullCursor)
    }

    ghost predicate Valid()
      reads this
    {
      StoreValid(Contents())
    }

    constructor ()
      ensures Valid() && Contents() == LocalStore.EMPTY
    {
      records, outbox, conflicts, nextSeq, issued, pullCursor := map[], map[], map[], 1, 0, None;
      new;
      EmptyValid();
    }

    /** A random id: never drawn before. */
    method RandomId() returns (id: MutationId)
      modifies this`issued
      ensures id == old(issued) && issued == id + 1
    {
      id := issued;
      issued := issued + 1;
    }

    method NextLocalSequence() returns (r: Result<nat, QueueError>)
      modifies this`nextSeq
      ensures old(nextSeq) > MAX_LOCAL_SEQUENCE ==> r == Err(SequenceExhausted) && nextSeq == old(nextSeq)
      ensures old(nextSeq) <= MAX_LOCAL_SEQUENCE ==> r == Ok(old(nextSeq)) && nextSeq == old(nextSeq) + 1
    {
      if nextSeq > MAX_LOCAL_SEQUENCE {
        return Err(SequenceExhausted);
      }
      r := Ok(nextSeq);
      nextSeq := nextSeq + 1;
    }

    /** First by sequence number, where numbers differ. */
    method First(ids: set<MutationId>) returns (first: Option<MutationId>)
      requires ids <= outbox.Keys && SequencesDiffer(outbox)
      ensures first == Oldest(outbox, ids)
    {
      first := None;
      var left := ids;
      while left != {}
        invariant left <= ids
        invariant first.None? <==> left == ids
        invariant first.Some? ==> first.value in ids - left
        invariant first.Some? ==> forall m | m in ids - left :: outbox[first.value].localSeq <= outbox[m].localSeq
      {
        var m :| m in left;
        if first.None? || outbox[m].localSeq < outbox[first.value].localSeq {
          first := Some(m);
        }
        left := left - {m};
      }
    }

    method Last(ids: set<MutationId>) returns (last: Option<MutationId>)
      requires ids <= outbox.Keys && SequencesDiffer(outbox)
      ensures last == Newest(outbox, ids)
    {
      last := None;
      var left := ids;
      while left != {}
        invariant left <= ids
        invariant last.None? <==> left == ids
        invariant last.Some? ==> last.value in ids - left
        invariant last.Some? ==> forall m | m in ids - left :: outbox[m].localSeq <= outbox[last.value].localSeq
      {
        var m :| m in left;
        if last.None? || outbox[m].localSeq > outbox[last.value].localSeq {
          last := Some(m);
        }
        left := left - {m};
      }
    }

    method DeleteOps(ids: set<MutationId>)
      modifies this`outbox
      ensures outbox == old(outbox) - ids
    {
      var left := ids;
      while left != {}
        invariant left <= ids
        invariant outbox == old(outbox) - (ids - left)
      {
        var m :| m in left;
        outbox := outbox - {m};
        left := left - {m};
        assert ids - left == ids - (left + {m}) + {m};
      }
    }

    /** The note's unsent operations, and what an edit that replaces them starts from and waits for. */
    method BaseAndDependency(k: NoteId)
      returns (unsent: set<MutationId>, baseVersion: Option<nat>, dependsOn: Option<MutationId>)
      requires SequencesDiffer(outbox)
      ensures unsent == ReplaceableOps(outbox, k)
      ensures baseVersion == QueueBase(Contents(), k)
      ensures dependsOn == QueueDependency(Contents(), k)
    {
      var entity := EntityOps(outbox, k);
      unsent := set m | m in entity && Replaceable(outbox[m]);
      var sent := set m | m in entity && Immutable(outbox[m]);
      assert unsent == ReplaceableOps(outbox, k) && sent == ImmutableOps(outbox, k);
      var newestImmutable := Last(sent);
      var oldestReplaceable := First(unsent);
      var confirmed := if k in records then records[k].confirmed else None;
      baseVersion := None;
      if oldestReplaceable.Some? && outbox[oldestReplaceable.value].baseVersion.Some? {
        baseVersion := outbox[oldestReplaceable.value].baseVersion;
      } else if confirmed.Some? {
        baseVersion := Some(confirmed.value.version);
      }
      dependsOn := None;
      if newestImmutable.Some? {
        dependsOn := newestImmutable;
      } else if oldestReplaceable.Some? {
        dependsOn := outbox[oldestReplaceable.value].dependsOn;
      }
    }

    method QueueMutation(k: NoteId, action: Action, value: Option<Note>, now: int)
      returns (r: Result<MutationId, QueueError>)
      requires Valid()
      modifies this
      ensures Valid()
      ensures Contents() == Queue(old(Contents()), k, action, value, now)
      ensures r == match QueueRefusal(old(Contents()), k)
                   case Some(e) => Err(e)
                   case None => Ok(old(issued))
    {
      QueueKeeps(Contents(), k, action, value, now);
      ValidSequencesDiffer(Contents());
      if k in conflicts {
        return Err(UnresolvedConflict);
      }
      if k in records && records[k].state == RecordFailed {
        return Err(FailedMutation);
      }
      var sequence := NextLocalSequence();
      if sequence.Err? {
        return Err(sequence.error);
      }
      var mutationId := ReplaceUnsent(k, action, value, sequence.value, now);
      return Ok(mutationId);
    }

    /** Puts the edit in place of the note's unsent operations. */
    method ReplaceUnsent(k: NoteId, action: Action, value: Option<Note>, localSeq: nat, now: int)
      returns (mutationId: MutationId)
      requires SequencesDiffer(outbox)
      modifies this`outbox, this`records, this`issued
      ensures mutationId == old(issued) && issued == old(issued) + 1
      ensures var before := old(Contents());
              var op := Op(k, action, value, QueueBase(before, k), localSeq, Queued, QueueDependency(before, k), 0, now, None, None);
              && outbox == (before.outbox - ReplaceableOps(before.outbox, k))[mutationId := op]
              && records == before.records[k := LocalRecord(ConfirmedOf(before, k), Some(EditOf(op)), Pending)]
    {
      var unsent, baseVersion, dependsOn := BaseAndDependency(k);
      DeleteOps(unsent);
      mutationId := RandomId();
      var confirmed := if k in records then records[k].confirmed else None;
      var mutation := Op(k, action, value, baseVersion, localSeq, Queued, dependsOn, 0, now, None, None);
      outbox := outbox[mutationId := mutation];
      records := records[k := LocalRecord(confirmed, Some(Edit(localSeq, action, value)), Pending)];
    }

    /** Only notes within the limits are queued. */
    method PutDraftNote(k: NoteId, note: Note, now: int) returns (r: Result<MutationId, QueueError>)
      requires Valid()
      modifies this
      ensures Valid()
      ensures !WithinLimits(note) ==> r == Err(InvalidValue) && Contents() == old(Contents())
      ensures WithinLimits(note) ==> Contents() == Queue(old(Contents()), k, Put, Some(note), now)
      ensures WithinLimits(note) ==>
                (r.Ok? <==> QueueRefusal(old(Contents()), k).None?) && (r.Ok? ==> r.value == old(issued))
    {
      var titleFits := Decimal.HasAtMostCodePoints(note.title, MAX_TITLE);
      if !titleFits {
        return Err(InvalidValue);
      }
      var bodyFits := Decimal.HasAtMostCodePoints(note.body, MAX_BODY);
      if !bodyFits {
        return Err(InvalidValue);
      }
      r := QueueMutation(k, Put, Some(note), now);
    }

    method DeleteDraftNote(k: NoteId, now: int) returns (r: Result<MutationId, QueueError>)
      requires Valid()
      modifies this
      ensures Valid()
      ensures Contents() == Queue(old(Contents()), k, Delete, None, now)
      ensures r.Ok? <==> QueueRefusal(old(Contents()), k).None?
    {
      r := QueueMutation(k, Delete, None, now);
    }

    /** Frees expired leases, then leases the due operations that were queued first. */
    method ClaimDueMutations(owner: LeaseOwner, limit: int, lease: int, now: int) returns (claimed: seq<Claimed>)
      requires Valid()
      modifies this`outbox
      ensures Valid()
      ensures IsBatch(ExpireLeases(old(outbox), now), now, limit, Ids(claimed))
      ensures Contents() == Claim(old(Contents()), owner, lease, now, Ids(claimed))
      ensures forall i | 0 <= i < |claimed| :: claimed[i].id in outbox && claimed[i].op == outbox[claimed[i].id]
    {
      var batch := ClaimBatch(owner, limit, lease, now);
      var leased := outbox;
      claimed := seq(|batch|, i requires 0 <= i < |batch| && batch[i] in leased => Claimed(batch[i], leased[batch[i]]));
      assert Ids(claimed) == batch;
    }

    method ClaimBatch(owner: LeaseOwner, limit: int, lease: int, now: int) returns (batch: seq<MutationId>)
      requires Valid()
      modifies this`outbox
      ensures Valid()
      ensures IsBatch(ExpireLeases(old(outbox), now), now, limit, batch)
      ensures Contents() == Claim(old(Contents()), owner, lease, now, batch)
      ensures Distinct(outbox, batch)
    {
      ghost var before := Contents();
      batch := ExpireAndPick(limit, now);
      ClaimKeeps(before, owner, limit, lease, now, batch);
      LeaseEach(batch, owner, now + lease);
    }

    method ExpireAndPick(limit: int, now: int) returns (batch: seq<MutationId>)
      requires Valid()
      modifies this`outbox
      ensures outbox == ExpireLeases(old(outbox), now)
      ensures IsBatch(outbox, now, limit, batch)
      ensures Distinct(outbox, batch)
    {
      ExpiredSequencesDiffer(Contents(), now);
      ExpireAll(now);
      batch := PickDue(limit, now);
    }

    method ExpireAll(now: int)
      modifies this`outbox
      ensures outbox == ExpireLeases(old(outbox), now)
    {
      var all := outbox.Keys;
      var left := all;
      while left != {}
        invariant left <= all == outbox.Keys == old(outbox).Keys
        invariant forall m | m in all ::
                    outbox[m] == if m in left then old(outbox)[m] else ExpireLeases(old(outbox), now)[m]
      {
        var m :| m in left;
        if Expired(outbox[m], now) {
          outbox := outbox[m := Unleased(outbox[m]).(status := Queued)];
        }
        left := left - {m};
      }
    }

    /** Sorts by sequence number and slices. */
    method PickDue(limit: int, now: int) returns (batch: seq<MutationId>)
      requires SequencesDiffer(outbox)
      ensures IsBatch(outbox, now, limit, batch)
      ensures Distinct(outbox, batch)
    {
      var due := Due(outbox, now);
      var rest := due;
      batch := [];
      while |batch| < limit && rest != {}
        invariant Picked(outbox, due, rest, batch)
        invariant |batch| <= limit || batch == []
        decreases rest
      {
        var next := First(rest);
        PickNext(outbox, due, rest, batch, next.value);
        batch := batch + [next.value];
        rest := rest - {next.value};
      }
    }

    method LeaseEach(batch: seq<MutationId>, owner: LeaseOwner, until: int)
      requires Distinct(outbox, batch)
      modifies this`outbox
      ensures outbox == LeaseBatch(old(outbox), owner, until, batch)
      ensures Distinct(outbox, batch)
    {
      for i := 0 to |batch|
        invariant outbox == LeaseBatch(old(outbox), owner, until, batch[..i])
      {
        assert batch[i] !in batch[..i];
        outbox := outbox[batch[i] := Lease(outbox[batch[i]], owner, until)];
        assert batch[..i + 1] == batch[..i] + [batch[i]];
      }
      assert batch[..|batch|] == batch;
    }

    method RetryMutations(ids: seq<MutationId>, owner: LeaseOwner, delay: int, times: seq<int>)
      requires Valid() && |times| == |ids|
      modifies this`outbox
      ensures Valid()
      ensures Contents() == FinishEach(old(Contents()), ids, owner, RetryAfter(delay), times)
    {
      FinishEachKeeps(Contents(), ids, owner, RetryAfter(delay), times);
      for i := 0 to |ids|
        invariant Contents() == FinishEach(old(Contents()), ids[..i], owner, RetryAfter(delay), times[..i])
      {
        assert ids[..i + 1][..i] == ids[..i] && times[..i + 1][..i] == times[..i];
        var m := ids[i];
        if m in outbox && outbox[m].status == Inflight && outbox[m].leaseOwner == Some(owner) {
          var op := outbox[m].(status := Queued,
                               nextAttemptAt := times[i] + (if delay < 0 then 0 else delay),
                               leaseOwner := None, leaseExpiresAt := None);
          outbox := outbox[m := op];
        }
      }
      assert ids[..|ids|] == ids && times[..|ids|] == times;
    }

    method ReleaseMutations(ids: seq<MutationId>, owner: LeaseOwner, times: seq<int>)
      requires Valid() && |times| == |ids|
      modifies this`outbox
      ensures Valid()
      ensures Contents() == FinishEach(old(Contents()), ids, owner, GiveBack, times)
    {
      FinishEachKeeps(Contents(), ids, owner, GiveBack, times);
      for i := 0 to |ids|
        invariant Contents() == FinishEach(old(Contents()), ids[..i], owner, GiveBack, times[..i])
      {
        assert ids[..i + 1][..i] == ids[..i] && times[..i + 1][..i] == times[..i];
        var m := ids[i];
        if m in outbox && outbox[m].status == Inflight && outbox[m].leaseOwner == Some(owner) {
          var op := outbox[m].(status := Queued,
                               attempts := if outbox[m].attempts > 0 then outbox[m].attempts - 1 else 0,
                               nextAttemptAt := times[i],
                               leaseOwner := None, leaseExpiresAt := None);
          outbox := outbox[m := op];
        }
      }
      assert ids[..|ids|] == ids && times[..|ids|] == times;
    }

    method FailMutations(ids: seq<MutationId>, owner: LeaseOwner, times: seq<int>)
      requires Valid() && |times| == |ids|
      modifies this`outbox, this`records
      ensures Valid()
      ensures Contents() == FinishEach(old(Contents()), ids, owner, GiveUp, times)
    {
      FinishEachKeeps(Contents(), ids, owner, GiveUp, times);
      for i := 0 to |ids|
        invariant Contents() == FinishEach(old(Contents()), ids[..i], owner, GiveUp, times[..i])
      {
        assert ids[..i + 1][..i] == ids[..i] && times[..i + 1][..i] == times[..i];
        var m := ids[i];
        if m in outbox && outbox[m].status == Inflight && outbox[m].leaseOwner == Some(owner) {
          var op := outbox[m].(status := OpFailed, leaseOwner := None, leaseExpiresAt := None);
          outbox := outbox[m := op];
          if op.key in records {
            records := records[op.key := records[op.key].(state := RecordFailed)];
          }
        }
      }
      assert ids[..|ids|] == ids && times[..|ids|] == times;
    }

    method ResetPullCursor()
      requires Valid()
      modifies this`pullCursor
      ensures Valid()
      ensures Contents() == ResetCursor(old(Contents()))
    {
      CursorKeeps(Contents(), None);
      pullCursor := None;
    }

    method ApplyChanges(changes: seq<Snapshot>, next: Paging.Token)
      requires Valid()
      modifies this`records, this`conflicts, this`pullCursor
      ensures Valid()
      ensures Contents() == ApplyPage(old(Contents()), changes, next)
    {
      ApplyEachKeeps(Contents(), changes);
      CursorKeeps(ApplyEach(Contents(), changes), Some(next));
      for i := 0 to |changes|
        invariant Contents() == ApplyEach(old(Contents()), changes[..i])
      {
        assert changes[..i + 1][..i] == changes[..i];
        var incoming := changes[i];
        var k := incoming.id;
        var existing := if k in records then Some(records[k]) else None;
        if existing.Some? && existing.value.confirmed.Some? && incoming.version <= existing.value.confirmed.value.version {
          continue;
        }
        var confirmed := ToConfirmed(incoming);
        if k in conflicts {
          conflicts := conflicts[k := conflicts[k].(server := Some(confirmed))];
        }
        var state := if existing.None? then Synced
                     else if existing.value.state == Conflicted then Conflicted
                     else if existing.value.state == RecordFailed then RecordFailed
                     else if existing.value.optimistic.None? then Synced
                     else Pending;
        var optimistic := if existing.Some? then existing.value.optimistic else None;
        records := records[k := LocalRecord(Some(confirmed), optimistic, state)];
      }
      assert changes[..|changes|] == changes;
      pullCursor := Some(next);
    }

    /** An applied result without the record it must carry throws; what was taken before it stays. */
    method ApplyMutationResults(ids: seq<MutationId>, results: seq<MutationResult>, owner: LeaseOwner, times: seq<int>)
      returns (completed: bool)
      requires Valid() && |times| == |ids|
      modifies this
      ensures Valid()
      ensures var reply := ApplyResults(old(Contents()), ids, ById(results), owner, times);
              Contents() == reply.store && completed == !reply.malformed
    {
      ApplyResultsKeeps(Contents(), ids, ById(results), owner, times);
      ghost var before := Contents();
      var resultById := ById(results);
      for i := 0 to |ids|
        invariant Valid()
        invariant Reply(Contents(), false) == ApplyResults(before, ids[..i], resultById, owner, times[..i])
      {
        assert ids[..i + 1][..i] == ids[..i] && times[..i + 1][..i] == times[..i];
        var m := ids[i];
        if m !in outbox || outbox[m].status != Inflight || outbox[m].leaseOwner != Some(owner) {
          continue;
        }
        if m !in resultById {
          continue;
        }
        var result := resultById[m];
        if result.status.Applied? && (result.record.None? || result.record.value.id != outbox[m].key) {
          MalformedStops(before, ids, resultById, owner, times, i + 1);
          return false;
        }
        ApplyResultKeeps(Contents(), m, result, owner, times[i]);
        SaveResult(m, result, times[i]);
      }
      assert ids[..|ids|] == ids && times[..|ids|] == times;
      return true;
    }

    method SaveResult(m: MutationId, result: MutationResult, now: int)
      requires Valid()
      requires m in outbox && outbox[m].status == Inflight && outbox[m].leaseOwner.Some?
      requires WellFormed(Contents(), m, result)
      modifies this
      ensures Contents() == ApplyResult(old(Contents()), m, result, old(outbox[m].leaseOwner.value), now)
    {
      match result.status {
        case Applied => SaveApplied(m, result.record.value, now);
        case Conflict => SaveConflict(m, result);
        case Gone => SaveConflict(m, result);
        case _ =>
          var op := outbox[m].(status := OpFailed, leaseOwner := None, leaseExpiresAt := None);
          outbox := outbox[m := op];
          if op.key in records {
            records := records[op.key := records[op.key].(state := RecordFailed)];
          }
      }
    }

    method SaveApplied(m: MutationId, record: Snapshot, now: int)
      requires Valid()
      requires m in outbox && outbox[m].status == Inflight
      modifies this
      ensures Contents() == ApplyApplied(old(Contents()), m, record, now)
    {
      var op := outbox[m];
      var k := op.key;
      ghost var before := Contents();
      assert OpShape(before, m);
      SuccessorIsOnly(before, m);
      var optimistic := if k in records then records[k].optimistic else None;
      outbox := outbox - {m};
      var successors := Dependents(outbox, k, m);
      ghost var successor := Oldest(outbox, successors);
      assert successors == if successor.None? then {} else {successor.value};
      IssuedIsFresh(before);
      var left := successors;
      while left != {}
        invariant left == successors || left == {}
        invariant left == successors ==> outbox == before.outbox - {m} && issued == before.issued
        invariant left == {} && successors != {} ==>
                    && outbox == (before.outbox - {m} - {successor.value})
                                 [before.issued := Rebased(before.outbox[successor.value], record.version, now)]
                    && issued == before.issued + 1
        invariant records == before.records && conflicts == before.conflicts
        invariant nextSeq == before.nextSeq && pullCursor == before.pullCursor
      {
        var n :| n in left;
        var op := outbox[n];
        outbox := outbox - {n};
        var freshId := RandomId();
        outbox := outbox[freshId := Rebased(op, record.version, now)];
        left := left - {n};
      }
      var newer := optimistic.Some? && optimistic.value.localSeq > op.localSeq;
      records := records[k := LocalRecord(Some(ToConfirmed(record)),
                                          if newer then optimistic else None,
                                          if newer then Pending else Synced)];
      conflicts := conflicts - {k};
    }

    method SaveConflict(m: MutationId, r: MutationResult)
      requires m in outbox
      modifies this`outbox, this`records, this`conflicts
      ensures Contents() == ApplyConflict(old(Contents()), m, r)
    {
      var op := outbox[m];
      var k := op.key;
      var localRecord := if k in records then Some(records[k]) else None;
      var serverRecord := if r.current.Some? then r.current else r.record;
      var local := if localRecord.Some? && localRecord.value.optimistic.Some? then localRecord.value.optimistic.value
                   else EditOf(op);
      var server := if serverRecord.Some? then Some(ToConfirmed(serverRecord.value))
                    else if localRecord.Some? then localRecord.value.confirmed
                    else None;
      conflicts := conflicts[k := ConflictRow(m, r.status, op.baseVersion, local, server)];
      outbox := outbox[m := op.(status := Blocked, leaseOwner := None, leaseExpiresAt := None)];
      var dependents := Dependents(outbox, k, m) - {m};
      assert dependents == Dependents(old(outbox), k, m) - {m};
      var left := dependents;
      while left != {}
        invariant left <= dependents
        invariant records == old(records)
        invariant conflicts == old(conflicts)[k := ConflictRow(m, r.status, op.baseVersion, local, server)]
        invariant outbox.Keys == old(outbox).Keys
        invariant forall n | n in outbox ::
                    outbox[n] == if n == m then Unleased(op).(status := Blocked)
                                 else if n in dependents - left then old(outbox)[n].(status := Blocked)
                                 else old(outbox)[n]
      {
        var n :| n in left;
        outbox := outbox[n := outbox[n].(status := Blocked)];
        left := left - {n};
      }
      records := records[k := LocalRecord(server, Some(local), Conflicted)];
      assert outbox == ApplyConflict(old(Contents()), m, r).outbox;
    }

    method Accept(k: NoteId)
      requires Valid()
      modifies this`records, this`outbox, this`conflicts
      ensures Valid()
      ensures Contents() == AcceptServerVersion(old(Contents()), k)
    {
      AcceptKeeps(Contents(), k);
      DeleteOps(EntityOps(outbox, k));
      conflicts := conflicts - {k};
      if k in records {
        records := records[k := records[k].(optimistic := None, state := Synced)];
      }
    }

    method Discard(k: NoteId)
      requires Valid()
      modifies this`records, this`outbox, this`conflicts
      ensures Valid()
      ensures Contents() == DiscardLocalVersion(old(Contents()), k)
    {
      DiscardKeeps(Contents(), k);
      DeleteOps(EntityOps(outbox, k));
      conflicts := conflicts - {k};
      if k in records {
        if records[k].confirmed.None? || records[k].confirmed.value.deleted {
          records := records - {k};
        } else {
          records := records[k := records[k].(optimistic := None, state := Synced)];
        }
      }
    }
  }
}
