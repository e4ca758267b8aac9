/** What every operation of the local store keeps. */
module StoreShape {
  import opened SyncTypes
  import opened LocalStore

  predicate IsHead(op: Op) { op.dependsOn.None? }

  /** Two operations never share a sequence number; of two for one note exactly one is the head. */
  predicate Compatible(a: Op, b: Op) {
    && a.localSeq != b.localSeq
    && (a.key == b.key ==> IsHead(a) != IsHead(b))
  }

  predicate Leased(op: Op) { op.leaseOwner.Some? && op.leaseExpiresAt.Some? }

  predicate OpShape(s: Store, m: MutationId)
    requires m in s.outbox
  {
    var op := s.outbox[m];
    && m < s.issued
    && op.localSeq < s.nextSeq
    && op.key in s.records
    && (op.status == Inflight <==> Leased(op))
    && (op.leaseOwner.Some? <==> op.leaseExpiresAt.Some?)
    && (match op.dependsOn
        case None => op.status != Queued ==> op.attempts > 0
        case Some(h) =>
          && h in s.outbox
          && s.outbox[h].key == op.key
          && IsHead(s.outbox[h])
          && s.outbox[h].localSeq < op.localSeq
          && op.attempts == 0
          && op.status == (if s.outbox[h].status == Blocked then Blocked else Queued))
  }

  function StateFor(status: OpStatus): RecordState {
    match status
    case Queued => Pending
    case Inflight => Pending
    case Blocked => Conflicted
    case OpFailed => RecordFailed
  }

  /** What an operation says about its note's record and conflict row. */
  predicate OpShown(s: Store, m: MutationId)
    requires m in s.outbox && s.outbox[m].key in s.records
  {
    var op := s.outbox[m];
    var record := s.records[op.key];
    && record.optimistic.Some?
    && op.localSeq <= record.optimistic.value.localSeq
    && (IsHead(op) ==> record.state == StateFor(op.status))
    && (IsHead(op) && op.status == Blocked ==> op.key in s.conflicts)
  }

  /** The optimistic shadow of the note is the edit of this operation. */
  predicate Backs(s: Store, m: MutationId, k: NoteId)
    requires k in s.records
  {
    m in s.outbox && s.outbox[m].key == k && s.records[k].optimistic == Some(EditOf(s.outbox[m]))
  }

  ghost predicate RecordShape(s: Store, k: NoteId)
    requires k in s.records
  {
    match s.records[k].optimistic
    case Some(_) => exists m :: Backs(s, m, k)
    case None => s.records[k].state == Synced
  }

  predicate ConflictShape(s: Store, k: NoteId)
    requires k in s.conflicts
  {
    var row := s.conflicts[k];
    && row.mutationId in s.outbox
    && (var op := s.outbox[row.mutationId];
        op.key == k && IsHead(op) && op.status == Blocked && op.baseVersion == row.baseVersion)
    && k in s.records
    && s.records[k].optimistic == Some(row.local)
    && s.records[k].confirmed == row.server
    && (row.reason == Conflict || row.reason == Gone)
  }

  // The triggers keep the solver from chasing dependencies through the outbox.
  ghost predicate OutboxValid(s: Store) {
    && (forall m {:trigger OpShape(s, m)} | m in s.outbox :: OpShape(s, m))
    && (forall m, n {:trigger Compatible(s.outbox[m], s.outbox[n])} |
          m in s.outbox && n in s.outbox && m != n :: Compatible(s.outbox[m], s.outbox[n]))
  }

  ghost predicate StoreValid(s: Store) {
    && OutboxValid(s)
    && (forall m {:trigger OpShape(s, m)} {:trigger OpShown(s, m)} | m in s.outbox :: OpShape(s, m) && OpShown(s, m))
    && (forall k {:trigger RecordShape(s, k)} | k in s.records :: RecordShape(s, k))
    && (forall k {:trigger ConflictShape(s, k)} | k in s.conflicts :: ConflictShape(s, k))
  }

  lemma EmptyValid()
    ensures StoreValid(LocalStore.EMPTY)
  {
  }

  // Consequences -----------------------------------------------------------

  /** A note never has three operations. */
  lemma AtMostTwo(s: Store, a: MutationId, b: MutationId, c: MutationId)
    requires StoreValid(s)
    requires a in s.outbox && b in s.outbox && c in s.outbox
    requires s.outbox[a].key == s.outbox[b].key == s.outbox[c].key
    ensures a == b || b == c || a == c
  {
    if a != b && b != c && a != c {
      OneDependsOnTheOther(s, a, b);
      OneDependsOnTheOther(s, b, c);
      OneDependsOnTheOther(s, a, c);
    }
  }

  /** Of two operations of one note, one is the head and the other depends on it. */
  lemma OneDependsOnTheOther(s: Store, m: MutationId, n: MutationId)
    requires OutboxValid(s) && m in s.outbox && n in s.outbox && m != n
    requires s.outbox[m].key == s.outbox[n].key
    ensures IsHead(s.outbox[m]) ==> s.outbox[n].dependsOn == Some(m)
    ensures IsHead(s.outbox[n]) ==> s.outbox[m].dependsOn == Some(n)
    ensures IsHead(s.outbox[m]) != IsHead(s.outbox[n])
  {
    assert Compatible(s.outbox[m], s.outbox[n]);
    var head, tail := if IsHead(s.outbox[m]) then m else n, if IsHead(s.outbox[m]) then n else m;
    assert OpShape(s, tail);
    var h := s.outbox[tail].dependsOn.value;
    assert h == head || Compatible(s.outbox[h], s.outbox[head]);
  }

  ghost predicate IsNewest(s: Store, m: MutationId)
    requires m in s.outbox
  {
    forall n | n in s.outbox && s.outbox[n].key == s.outbox[m].key :: s.outbox[n].localSeq <= s.outbox[m].localSeq
  }

  /** A record has an optimistic shadow exactly when its note has operations, and then it is the newest one's edit. */
  lemma ShadowIsNewestEdit(s: Store, k: NoteId)
    requires StoreValid(s) && k in s.records
    ensures s.records[k].optimistic.Some? <==> EntityOps(s.outbox, k) != {}
    ensures forall m | m in EntityOps(s.outbox, k) ::
              IsNewest(s, m) <==> s.records[k].optimistic == Some(EditOf(s.outbox[m]))
  {
    assert RecordShape(s, k);
    forall n | n in s.outbox
      ensures OpShape(s, n) && OpShown(s, n)
    {
    }
    if s.records[k].optimistic.Some? {
      var b :| Backs(s, b, k);
      assert b in EntityOps(s.outbox, k);
      forall m | m in EntityOps(s.outbox, k)
        ensures IsNewest(s, m) <==> m == b
        ensures EditOf(s.outbox[m]) == EditOf(s.outbox[b]) ==> m == b
      {
        assert m == b || Compatible(s.outbox[m], s.outbox[b]);
        assert OpShown(s, m);
      }
    } else {
      forall m | m in s.outbox
        ensures s.outbox[m].key != k
      {
        assert OpShown(s, m);
      }
    }
  }

  /** The newest operation of a note is its dependent one if it has one, and otherwise its head. */
  lemma NewestIsTail(s: Store, m: MutationId)
    requires OutboxValid(s) && m in s.outbox
    ensures IsNewest(s, m) <==> (s.outbox[m].dependsOn.Some? || Dependents(s.outbox, s.outbox[m].key, m) == {})
  {
    forall n | n in s.outbox && n != m && s.outbox[n].key == s.outbox[m].key
      ensures s.outbox[n].localSeq > s.outbox[m].localSeq <==> n in Dependents(s.outbox, s.outbox[m].key, m)
      ensures IsHead(s.outbox[m]) <==> n in Dependents(s.outbox, s.outbox[m].key, m)
    {
      OneDependsOnTheOther(s, m, n);
      assert OpShape(s, m) && OpShape(s, n);
    }
    if Dependents(s.outbox, s.outbox[m].key, m) != {} {
      var n :| n in Dependents(s.outbox, s.outbox[m].key, m);
      assert OpShape(s, n);
    }
  }

  /** A claimed batch never holds two operations of one note. */
  lemma BatchTouchesDistinctNotes(s: Store, now: int, limit: int, batch: seq<MutationId>)
    requires StoreValid(s)
    requires IsBatch(ExpireLeases(s.outbox, now), now, limit, batch)
    ensures forall i, j | 0 <= i < j < |batch| :: s.outbox[batch[i]].key != s.outbox[batch[j]].key
  {
    forall i, j | 0 <= i < j < |batch|
      ensures s.outbox[batch[i]].key != s.outbox[batch[j]].key
    {
      assert batch[i] in Due(ExpireLeases(s.outbox, now), now) && batch[j] in Due(ExpireLeases(s.outbox, now), now);
      assert Compatible(s.outbox[batch[i]], s.outbox[batch[j]]);
    }
  }

  /** A note is in conflict exactly when it has a conflict row, and exactly when an operation of it is blocked. */
  lemma ConflictIsBlockedHead(s: Store, k: NoteId)
    requires StoreValid(s) && k in s.records
    ensures s.records[k].state == Conflicted <==> k in s.conflicts
    ensures k in s.conflicts <==> exists m :: m in EntityOps(s.outbox, k) && s.outbox[m].status == Blocked
    ensures s.records[k].state == RecordFailed <==>
              exists m :: m in EntityOps(s.outbox, k) && s.outbox[m].status == OpFailed
  {
    assert RecordShape(s, k);
    if k in s.conflicts {
      assert ConflictShape(s, k);
      var c := s.conflicts[k].mutationId;
      assert c in EntityOps(s.outbox, k);
      assert OpShape(s, c) && OpShown(s, c);
    }
    forall m | m in EntityOps(s.outbox, k)
      ensures s.outbox[m].status == Blocked ==> s.records[k].state == Conflicted && k in s.conflicts
      ensures s.outbox[m].status == OpFailed ==> s.records[k].state == RecordFailed
    {
      assert OpShape(s, m) && OpShown(s, m);
      if !IsHead(s.outbox[m]) {
        assert OpShape(s, s.outbox[m].dependsOn.value) && OpShown(s, s.outbox[m].dependsOn.value);
      }
    }
    if s.records[k].optimistic.Some? {
      var b: MutationId :| Backs(s, b, k);
      assert OpShape(s, b) && OpShown(s, b);
      var h := if IsHead(s.outbox[b]) then b else s.outbox[b].dependsOn.value;
      assert h in EntityOps(s.outbox, k);
      assert OpShape(s, h) && OpShown(s, h);
    }
  }

  /** A note in conflict is not shown at all. */
  lemma ConflictIsHidden(s: Store, k: NoteId)
    requires StoreValid(s) && k in s.conflicts
    ensures k !in EffectiveNotes(s)
  {
    assert ConflictShape(s, k);
    ConflictIsBlockedHead(s, k);
  }

  /**
   * What the user sees of a note that is not in conflict: the newest queued edit if
   * there is one, over the confirmed version, and otherwise the confirmed version. The edit
   * is shown as failed if an operation of the note has failed, and as pending if none has.
   */
  lemma EffectiveViewShowsNewestEdit(s: Store, k: NoteId)
    requires StoreValid(s) && k in s.records && k !in s.conflicts
    ensures forall m | m in EntityOps(s.outbox, k) && IsNewest(s, m) && s.outbox[m].action == Delete ::
              k !in EffectiveNotes(s)
    ensures forall m | m in EntityOps(s.outbox, k) && IsNewest(s, m) && s.outbox[m].action == Put && s.outbox[m].value.Some? ::
              var failed := exists n :: n in EntityOps(s.outbox, k) && s.outbox[n].status == OpFailed;
              var c := s.records[k].confirmed;
              && k in EffectiveNotes(s)
              && EffectiveNotes(s)[k] == EffectiveNote(s.outbox[m].value.value, if c.Some? then Some(c.value.version) else None,
                                                       !failed, failed)
    ensures EntityOps(s.outbox, k) == {} ==>
              var c := s.records[k].confirmed;
              && (k in EffectiveNotes(s) <==> c.Some? && !c.value.deleted && c.value.value.Some?)
              && (k in EffectiveNotes(s) ==>
                    EffectiveNotes(s)[k] == EffectiveNote(c.value.value.value, Some(c.value.version), false, false))
  {
    ShadowIsNewestEdit(s, k);
    ConflictIsBlockedHead(s, k);
    assert RecordShape(s, k);
    if s.records[k].optimistic.Some? {
      var b :| Backs(s, b, k);
      assert OpShape(s, b) && OpShown(s, b);
      if !IsHead(s.outbox[b]) {
        assert OpShape(s, s.outbox[b].dependsOn.value) && OpShown(s, s.outbox[b].dependsOn.value);
      }
    }
  }
}
