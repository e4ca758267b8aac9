/** Every operation of the local store keeps StoreValid. */
module StoreSteps {
  import opened SyncTypes
  import opened LocalStore
  import opened StoreShape
  import Paging

  lemma RetryKeeps(s: Store, m: MutationId, owner: LeaseOwner, delay: int, now: int)
    requires StoreValid(s)
    ensures StoreValid(Retry(s, m, owner, delay, now))
  {
    var t := Retry(s, m, owner, delay, now);
    if Holds(s, m, owner) {
      assert OpShape(s, m);
      Relabelled(s, t);
    }
  }

  lemma ReleaseKeeps(s: Store, m: MutationId, owner: LeaseOwner, now: int)
    requires StoreValid(s)
    ensures StoreValid(Release(s, m, owner, now))
  {
    var t := Release(s, m, owner, now);
    if Holds(s, m, owner) {
      assert OpShape(s, m);
      Relabelled(s, t);
    }
  }

  lemma ClaimKeeps(s: Store, owner: LeaseOwner, limit: int, lease: int, now: int, batch: seq<MutationId>)
    requires StoreValid(s)
    requires IsBatch(ExpireLeases(s.outbox, now), now, limit, batch)
    ensures StoreValid(Claim(s, owner, lease, now, batch))
  {
    forall m | m in s.outbox
      ensures OpShape(s, m)
    {
    }
    ClaimSameOps(s, owner, limit, lease, now, batch);
    Relabelled(s, Claim(s, owner, lease, now, batch));
  }

  lemma ClaimSameOps(s: Store, owner: LeaseOwner, limit: int, lease: int, now: int, batch: seq<MutationId>)
    requires forall m | m in s.outbox :: OpShape(s, m)
    requires IsBatch(ExpireLeases(s.outbox, now), now, limit, batch)
    ensures SameOps(s, Claim(s, owner, lease, now, batch))
  {
    var t := Claim(s, owner, lease, now, batch);
    assert forall m | m in batch :: m in Due(ExpireLeases(s.outbox, now), now);
    forall m | m in s.outbox
      ensures SameOp(s.outbox[m], t.outbox[m])
    {
      assert OpShape(s, m);
    }
  }

  /** The same operations with the same content; a head may move between queued and inflight. */
  ghost predicate SameOps(s: Store, t: Store) {
    && t == s.(outbox := t.outbox)
    && t.outbox.Keys == s.outbox.Keys
    && (forall m | m in s.outbox :: SameOp(s.outbox[m], t.outbox[m]))
  }

  predicate SameOp(a: Op, b: Op) {
    && (b.key, b.action, b.value, b.baseVersion, b.localSeq, b.dependsOn)
       == (a.key, a.action, a.value, a.baseVersion, a.localSeq, a.dependsOn)
    && (b == a
        || (&& IsHead(a) && Live(a) && Live(b)
            && (b.status == Inflight <==> Leased(b))
            && (b.leaseOwner.Some? <==> b.leaseExpiresAt.Some?)
            && (b.status == Inflight ==> b.attempts > 0)))
  }

  predicate Live(op: Op) { op.status == Queued || op.status == Inflight }

  lemma RelabelledOps(s: Store, t: Store)
    requires StoreValid(s)
    requires SameOps(s, t)
    ensures OutboxValid(t)
    ensures forall m {:trigger OpShape(t, m)} {:trigger OpShown(t, m)} | m in t.outbox :: OpShape(t, m) && OpShown(t, m)
  {
    forall m | m in t.outbox
      ensures OpShape(t, m) && OpShown(t, m)
    {
      assert OpShape(s, m) && OpShown(s, m);
    }
    forall m, n | m in t.outbox && n in t.outbox && m != n
      ensures Compatible(t.outbox[m], t.outbox[n])
    {
      assert Compatible(s.outbox[m], s.outbox[n]);
    }
  }

  lemma Relabelled(s: Store, t: Store)
    requires StoreValid(s)
    requires SameOps(s, t)
    ensures StoreValid(t)
  {
    RelabelledOps(s, t);
    forall k | k in t.records
      ensures RecordShape(t, k)
    {
      assert RecordShape(s, k);
      if t.records[k].optimistic.Some? {
        var m :| Backs(s, m, k);
        assert Backs(t, m, k);
      }
    }
    forall k | k in t.conflicts
      ensures ConflictShape(t, k)
    {
      assert ConflictShape(s, k);
    }
  }

  lemma FailKeeps(s: Store, m: MutationId)
    requires StoreValid(s)
    requires m in s.outbox && s.outbox[m].status == Inflight
    ensures StoreValid(MarkFailed(s, m))
  {
    var t := MarkFailed(s, m);
    var k := s.outbox[m].key;
    assert OpShape(s, m);
    forall n | n in t.outbox
      ensures OpShape(t, n) && OpShown(t, n)
    {
      assert OpShape(s, n) && OpShown(s, n);
      if n != m && s.outbox[n].key == k {
        OneDependsOnTheOther(s, m, n);
      }
    }
    forall a, b | a in t.outbox && b in t.outbox && a != b
      ensures Compatible(t.outbox[a], t.outbox[b])
    {
      assert Compatible(s.outbox[a], s.outbox[b]);
    }
    forall j | j in t.records
      ensures RecordShape(t, j)
    {
      assert RecordShape(s, j);
      assert OpShown(s, m);
      if t.records[j].optimistic.Some? {
        var n :| Backs(s, n, j);
        assert Backs(t, n, j);
      }
    }
    forall j | j in t.conflicts
      ensures ConflictShape(t, j)
    {
      assert ConflictShape(s, j);
      var c := s.conflicts[j].mutationId;
      assert c == m || Compatible(s.outbox[c], s.outbox[m]);
    }
  }

  lemma FinishKeeps(s: Store, m: MutationId, owner: LeaseOwner, outcome: Outcome, now: int)
    requires StoreValid(s)
    ensures StoreValid(Finish(s, m, owner, outcome, now))
  {
    match outcome {
      case RetryAfter(delay) => RetryKeeps(s, m, owner, delay, now);
      case GiveBack => ReleaseKeeps(s, m, owner, now);
      case GiveUp =>
        if Holds(s, m, owner) {
          FailKeeps(s, m);
        }
    }
  }

  lemma {:induction false} FinishEachKeeps(s: Store, ids: seq<MutationId>, owner: LeaseOwner, outcome: Outcome, times: seq<int>)
    requires StoreValid(s) && |times| == |ids|
    ensures StoreValid(FinishEach(s, ids, owner, outcome, times))
    decreases ids
  {
    if ids != [] {
      var last := |ids| - 1;
      FinishEachKeeps(s, ids[..last], owner, outcome, times[..last]);
      FinishKeeps(FinishEach(s, ids[..last], owner, outcome, times[..last]), ids[last], owner, outcome, times[last]);
    }
  }

  // Pulls ------------------------------------------------------------------

  lemma ApplyChangeKeeps(s: Store, incoming: Snapshot)
    requires StoreValid(s)
    ensures StoreValid(ApplyChange(s, incoming))
  {
    var t := ApplyChange(s, incoming);
    var k := incoming.id;
    forall n | n in t.outbox
      ensures OpShape(t, n) && OpShown(t, n)
    {
      assert OpShape(s, n) && OpShown(s, n);
    }
    forall j | j in t.records
      ensures RecordShape(t, j)
    {
      if j in s.records {
        assert RecordShape(s, j);
        if t.records[j].optimistic.Some? {
          var n :| Backs(s, n, j);
          assert Backs(t, n, j);
        }
      }
    }
    forall j | j in t.conflicts
      ensures ConflictShape(t, j)
    {
      assert ConflictShape(s, j);
    }
  }

  lemma {:induction false} ApplyEachKeeps(s: Store, changes: seq<Snapshot>)
    requires StoreValid(s)
    ensures StoreValid(ApplyEach(s, changes))
    decreases changes
  {
    if changes != [] {
      ApplyEachKeeps(s, changes[..|changes| - 1]);
      ApplyChangeKeeps(ApplyEach(s, changes[..|changes| - 1]), changes[|changes| - 1]);
    }
  }

  lemma CursorKeeps(s: Store, cursor: Option<Paging.Token>)
    requires StoreValid(s)
    ensures StoreValid(s.(pullCursor := cursor))
  {
    var t := s.(pullCursor := cursor);
    forall n | n in t.outbox
      ensures OpShape(t, n) && OpShown(t, n)
    {
      assert OpShape(s, n) && OpShown(s, n);
    }
    forall j | j in t.records
      ensures RecordShape(t, j)
    {
      assert RecordShape(s, j);
      if t.records[j].optimistic.Some? {
        var n :| Backs(s, n, j);
        assert Backs(t, n, j);
      }
    }
    forall j | j in t.conflicts
      ensures ConflictShape(t, j)
    {
      assert ConflictShape(s, j);
    }
  }

  // Local edits ------------------------------------------------------------

  /** Notes are independent: a store that agrees with a valid one away from note k is valid away from k. */
  ghost predicate AgreesOff(s: Store, t: Store, k: NoteId) {
    && s.issued <= t.issued && s.nextSeq <= t.nextSeq
    && (forall j | j != k :: j in t.records <==> j in s.records)
    && (forall j | j != k && j in s.records :: t.records[j] == s.records[j])
    && (forall j | j != k :: j in t.conflicts <==> j in s.conflicts)
    && (forall j | j != k && j in s.conflicts :: t.conflicts[j] == s.conflicts[j])
    && (forall m | m in s.outbox && s.outbox[m].key != k :: m in t.outbox && t.outbox[m] == s.outbox[m])
    && (forall m | m in t.outbox && t.outbox[m].key != k :: m in s.outbox && t.outbox[m] == s.outbox[m])
  }

  /** Validity of one note. */
  ghost predicate NoteValid(s: Store, k: NoteId) {
    && (forall m {:trigger OpShape(s, m)} {:trigger OpShown(s, m)} |
          m in s.outbox && s.outbox[m].key == k :: OpShape(s, m) && OpShown(s, m))
    && (forall m, n {:trigger Compatible(s.outbox[m], s.outbox[n])} |
          m in s.outbox && n in s.outbox && m != n && s.outbox[m].key == k :: Compatible(s.outbox[m], s.outbox[n]))
    && (k in s.records ==> RecordShape(s, k))
    && (k in s.conflicts ==> ConflictShape(s, k))
  }

  lemma OtherNotesStayValid(s: Store, t: Store, k: NoteId)
    requires StoreValid(s) && AgreesOff(s, t, k) && NoteValid(t, k)
    ensures StoreValid(t)
  {
    forall m | m in t.outbox
      ensures OpShape(t, m) && OpShown(t, m)
    {
      if t.outbox[m].key != k {
        assert OpShape(s, m) && OpShown(s, m);
      }
    }
    forall m, n | m in t.outbox && n in t.outbox && m != n
      ensures Compatible(t.outbox[m], t.outbox[n])
    {
      if t.outbox[m].key != k {
        if t.outbox[n].key != k {
          assert Compatible(s.outbox[m], s.outbox[n]);
        } else {
          assert Compatible(t.outbox[n], t.outbox[m]);
        }
      }
    }
    forall j | j in t.records
      ensures RecordShape(t, j)
    {
      if j != k {
        assert RecordShape(s, j);
        if t.records[j].optimistic.Some? {
          var m :| Backs(s, m, j);
          assert Backs(t, m, j);
        }
      }
    }
    forall j | j in t.conflicts
      ensures ConflictShape(t, j)
    {
      if j != k {
        assert ConflictShape(s, j);
      }
    }
  }

  /** What queueing an edit finds: only a head can have been sent, and it is what the new operation depends on. */
  lemma QueueFinds(s: Store, k: NoteId)
    requires StoreValid(s) && QueueRefusal(s, k).None?
    ensures forall m | m in s.outbox && s.outbox[m].key == k :: Live(s.outbox[m]) && m < s.issued && s.outbox[m].localSeq < s.nextSeq
    ensures forall m | m in s.outbox && s.outbox[m].key == k :: Replaceable(s.outbox[m]) != Immutable(s.outbox[m])
    ensures forall m | m in s.outbox && s.outbox[m].key == k && Immutable(s.outbox[m]) ::
              IsHead(s.outbox[m]) && QueueDependency(s, k) == Some(m)
    ensures QueueDependency(s, k).Some? ==>
              var h := QueueDependency(s, k).value;
              h in s.outbox && s.outbox[h].key == k && Immutable(s.outbox[h])
    ensures forall m | m in s.outbox && s.outbox[m].key == k && !IsHead(s.outbox[m]) ::
              s.outbox[m].dependsOn.value in s.outbox
  {
    forall m | m in s.outbox && s.outbox[m].key == k
      ensures Live(s.outbox[m]) && m < s.issued && s.outbox[m].localSeq < s.nextSeq
      ensures Immutable(s.outbox[m]) ==> IsHead(s.outbox[m])
      ensures !IsHead(s.outbox[m]) ==> s.outbox[m].dependsOn.value in s.outbox
    {
      assert OpShape(s, m) && OpShown(s, m);
      if !IsHead(s.outbox[m]) {
        assert OpShape(s, s.outbox[m].dependsOn.value) && OpShown(s, s.outbox[m].dependsOn.value);
      }
    }
    forall m, n | m in ImmutableOps(s.outbox, k) && n in ImmutableOps(s.outbox, k)
      ensures m == n
    {
      assert m == n || Compatible(s.outbox[m], s.outbox[n]);
    }
    forall m | m in s.outbox && s.outbox[m].key == k && !IsHead(s.outbox[m])
      ensures var h := s.outbox[m].dependsOn.value;
              && h in ReplaceableOps(s.outbox, k) + ImmutableOps(s.outbox, k)
              && s.outbox[h].localSeq < s.outbox[m].localSeq
    {
      assert OpShape(s, m);
    }
    forall m | m in s.outbox && s.outbox[m].key == k && Immutable(s.outbox[m])
      ensures QueueDependency(s, k) == Some(m)
    {
      assert m in ImmutableOps(s.outbox, k);
    }
  }

  lemma IssuedIsFresh(s: Store)
    requires StoreValid(s)
    ensures forall m | m in s.outbox :: m < s.issued
    ensures s.issued !in s.outbox
  {
    forall m | m in s.outbox
      ensures m < s.issued
    {
      assert OpShape(s, m);
    }
  }

  lemma QueueKeeps(s: Store, k: NoteId, action: Action, value: Option<Note>, now: int)
    requires StoreValid(s)
    ensures StoreValid(Queue(s, k, action, value, now))
  {
    if QueueRefusal(s, k).None? {
      var t := Queue(s, k, action, value, now);
      QueueFinds(s, k);
      IssuedIsFresh(s);
      forall m | m in t.outbox && t.outbox[m].key == k
        ensures OpShape(t, m) && OpShown(t, m)
        ensures m == s.issued || QueueDependency(s, k) == Some(m)
      {
        if m != s.issued {
          assert OpShape(s, m) && OpShown(s, m);
        }
      }
      forall m, n | m in t.outbox && n in t.outbox && m != n && t.outbox[m].key == k
        ensures Compatible(t.outbox[m], t.outbox[n])
      {
        if m != s.issued && n != s.issued {
          assert Compatible(s.outbox[m], s.outbox[n]);
        } else {
          var other := if m == s.issued then n else m;
          assert OpShape(s, other);
        }
      }
      assert Backs(t, s.issued, k);
      OtherNotesStayValid(s, t, k);
    }
  }

  // Push results -----------------------------------------------------------

  /** A successor is the only dependent of its head. */
  lemma SuccessorIsOnly(s: Store, m: MutationId)
    requires StoreValid(s) && m in s.outbox && IsHead(s.outbox[m])
    ensures var k := s.outbox[m].key;
            var dependents := Dependents(s.outbox - {m}, k, m);
            forall n | n in s.outbox && s.outbox[n].key == k && n != m ::
              dependents == {n} && s.outbox[n].dependsOn == Some(m)
  {
    var k := s.outbox[m].key;
    var dependents := Dependents(s.outbox - {m}, k, m);
    forall n | n in s.outbox && s.outbox[n].key == k && n != m
      ensures dependents == {n} && s.outbox[n].dependsOn == Some(m)
    {
      OneDependsOnTheOther(s, m, n);
      forall x | x in dependents
        ensures x == n
      {
        AtMostTwo(s, m, n, x);
      }
    }
  }

  lemma ApplyAppliedKeeps(s: Store, m: MutationId, record: Snapshot, now: int)
    requires StoreValid(s)
    requires m in s.outbox && s.outbox[m].status == Inflight
    ensures StoreValid(ApplyApplied(s, m, record, now))
  {
    var t := ApplyApplied(s, m, record, now);
    var k := s.outbox[m].key;
    assert OpShape(s, m) && OpShown(s, m);
    SuccessorIsOnly(s, m);
    assert RecordShape(s, k);
    var b :| Backs(s, b, k);
    var successor := Oldest(s.outbox - {m}, Dependents(s.outbox - {m}, k, m));
    IssuedIsFresh(s);
    if b != m {
      assert OpShape(s, b);
      assert successor == Some(b);
      assert Backs(t, s.issued, k);
    }
    forall n | n in t.outbox && t.outbox[n].key == k
      ensures OpShape(t, n) && OpShown(t, n)
      ensures successor.Some? && n == s.issued
    {
      if successor.Some? {
        assert OpShape(s, successor.value) && OpShown(s, successor.value);
      }
    }
    forall a, n | a in t.outbox && n in t.outbox && a != n && t.outbox[a].key == k
      ensures Compatible(t.outbox[a], t.outbox[n])
    {
      assert Compatible(s.outbox[successor.value], s.outbox[n]);
    }
    OtherNotesStayValid(s, t, k);
  }

  lemma ConflictShowsOps(s: Store, m: MutationId, r: MutationResult)
    requires StoreValid(s) && m in s.outbox && s.outbox[m].status == Inflight
    ensures var t := ApplyConflict(s, m, r);
            forall n {:trigger OpShape(t, n)} {:trigger OpShown(t, n)} |
              n in t.outbox && t.outbox[n].key == s.outbox[m].key :: OpShape(t, n) && OpShown(t, n)
  {
    var t := ApplyConflict(s, m, r);
    assert OpShape(s, m) && OpShown(s, m);
    forall n | n in t.outbox && t.outbox[n].key == s.outbox[m].key
      ensures OpShape(t, n) && OpShown(t, n)
    {
      assert OpShape(s, n) && OpShown(s, n);
      if n != m {
        OneDependsOnTheOther(s, m, n);
      }
    }
  }

  lemma ApplyConflictKeeps(s: Store, m: MutationId, r: MutationResult)
    requires StoreValid(s)
    requires m in s.outbox && s.outbox[m].status == Inflight
    requires r.status == Conflict || r.status == Gone
    ensures StoreValid(ApplyConflict(s, m, r))
  {
    var t := ApplyConflict(s, m, r);
    var k := s.outbox[m].key;
    assert OpShape(s, m) && OpShown(s, m);
    ConflictShowsOps(s, m, r);
    forall a, n | a in t.outbox && n in t.outbox && a != n && t.outbox[a].key == k
      ensures Compatible(t.outbox[a], t.outbox[n])
    {
      assert Compatible(s.outbox[a], s.outbox[n]);
    }
    assert RecordShape(s, k);
    var b :| Backs(s, b, k);
    assert Backs(t, b, k);
    OtherNotesStayValid(s, t, k);
  }

  lemma ApplyResultKeeps(s: Store, m: MutationId, r: MutationResult, owner: LeaseOwner, now: int)
    requires StoreValid(s) && WellFormed(s, m, r)
    ensures StoreValid(ApplyResult(s, m, r, owner, now))
  {
    if Holds(s, m, owner) {
      match r.status {
        case Applied => ApplyAppliedKeeps(s, m, r.record.value, now);
        case Conflict => ApplyConflictKeeps(s, m, r);
        case Gone => ApplyConflictKeeps(s, m, r);
        case _ => FailKeeps(s, m);
      }
    }
  }

  lemma {:induction false} ApplyResultsKeeps(s: Store, ids: seq<MutationId>, byId: map<MutationId, MutationResult>,
                                             owner: LeaseOwner, times: seq<int>)
    requires StoreValid(s) && |times| == |ids|
    ensures StoreValid(ApplyResults(s, ids, byId, owner, times).store)
    decreases ids
  {
    if ids != [] {
      var last := |ids| - 1;
      ApplyResultsKeeps(s, ids[..last], byId, owner, times[..last]);
      var u := ApplyResults(s, ids[..last], byId, owner, times[..last]);
      var m := ids[last];
      if !u.malformed && m in byId && WellFormed(u.store, m, byId[m]) {
        ApplyResultKeeps(u.store, m, byId[m], owner, times[last]);
      }
    }
  }

  /** A result that throws ends the reply: what was taken before it stays, and nothing after it is looked at. */
  lemma {:induction false} MalformedStops(s: Store, ids: seq<MutationId>, byId: map<MutationId, MutationResult>,
                                          owner: LeaseOwner, times: seq<int>, n: nat)
    requires n <= |ids| == |times|
    requires ApplyResults(s, ids[..n], byId, owner, times[..n]).malformed
    ensures ApplyResults(s, ids, byId, owner, times) == ApplyResults(s, ids[..n], byId, owner, times[..n])
    decreases |ids|
  {
    if n == |ids| {
      assert ids[..n] == ids && times[..n] == times;
    } else {
      var last := |ids| - 1;
      assert ids[..last][..n] == ids[..n] && times[..last][..n] == times[..n];
      MalformedStops(s, ids[..last], byId, owner, times[..last], n);
    }
  }

  // Conflict resolution ----------------------------------------------------

  lemma AcceptKeeps(s: Store, k: NoteId)
    requires StoreValid(s)
    ensures StoreValid(AcceptServerVersion(s, k))
  {
    var t := AcceptServerVersion(s, k);
    OtherNotesStayValid(s, t, k);
  }

  lemma DiscardKeeps(s: Store, k: NoteId)
    requires StoreValid(s)
    ensures StoreValid(DiscardLocalVersion(s, k))
  {
    var t := DiscardLocalVersion(s, k);
    OtherNotesStayValid(s, t, k);
  }
}
