/** What a lease, and a retry delay, are good for: nobody else touches the operation meanwhile. */
module LeaseFence {
  import opened SyncTypes
  import opened LocalStore
  import opened StoreShape
  import opened StoreSteps
  import opened Protocol

  /** Sent and not yet settled: leased, or waiting for its next attempt, at least until `until`. */
  predicate RestsUntil(op: Op, until: int) {
    || (op.status == Inflight && op.leaseExpiresAt.Some? && until <= op.leaseExpiresAt.value)
    || (op.status == Queued && op.attempts > 0 && until <= op.nextAttemptAt)
  }

  /** Not the holder settling the operation, not the user overriding the note, and not a claim at or after `until`. */
  predicate LeavesAlone(step: Step, m: MutationId, op: Op, until: int) {
    match step
    case ClaimDue(_, _, _, now, _) => now < until
    case ReleaseUnsent(n, _, _) => n != m
    case ReleaseSent(n, owner, _) => n != m || op.leaseOwner != Some(owner)
    case RetryLater(n, owner, _, _) => n != m || op.leaseOwner != Some(owner)
    case FailPush(n, owner) => n != m || op.leaseOwner != Some(owner)
    case Receive(r, owner, _) => r.mutationId != m || op.leaseOwner != Some(owner)
    case AcceptServer(k) => k != op.key
    case DiscardLocal(k) => k != op.key
    case _ => true
  }

  ghost predicate Untouched(s: Store, t: Store, m: MutationId) {
    m in s.outbox && m in t.outbox && t.outbox[m] == s.outbox[m]
  }

  /** An edit replaces only what was never sent. */
  lemma EditLeavesAlone(s: Store, k: NoteId, action: Action, value: Option<Note>, now: int, m: MutationId)
    requires StoreValid(s) && m in s.outbox && !Replaceable(s.outbox[m])
    ensures Untouched(s, Queue(s, k, action, value, now), m)
  {
    IssuedIsFresh(s);
  }

  /** A claim passes over what is leased to somebody or not due yet. */
  lemma ClaimLeavesAlone(s: Store, owner: LeaseOwner, limit: int, lease: int, now: int, batch: seq<MutationId>,
                         m: MutationId, until: int)
    requires m in s.outbox && RestsUntil(s.outbox[m], until) && now < until
    requires IsBatch(ExpireLeases(s.outbox, now), now, limit, batch)
    ensures m !in batch && Untouched(s, Claim(s, owner, lease, now, batch), m)
  {
  }

  /** Settling needs the lease. */
  lemma FinishLeavesAlone(s: Store, n: MutationId, owner: LeaseOwner, outcome: Outcome, now: int, m: MutationId)
    requires m in s.outbox && (n != m || !Holds(s, m, owner))
    ensures Untouched(s, Finish(s, n, owner, outcome, now), m)
  {
  }

  /** The result of another operation can only move operations that were never sent. */
  lemma ResultLeavesAlone(s: Store, n: MutationId, r: MutationResult, owner: LeaseOwner, now: int, m: MutationId, until: int)
    requires StoreValid(s) && WellFormed(s, n, r)
    requires m in s.outbox && RestsUntil(s.outbox[m], until) && (n != m || !Holds(s, m, owner))
    ensures Untouched(s, ApplyResult(s, n, r, owner, now), m)
  {
    IssuedIsFresh(s);
    assert OpShape(s, m);
  }

  lemma StepLeavesAlone(c: Config, sys: System, step: Step, m: MutationId, until: int)
    requires StoreValid(sys.store) && Enabled(c, sys, step)
    requires m in sys.store.outbox && RestsUntil(sys.store.outbox[m], until)
    requires LeavesAlone(step, m, sys.store.outbox[m], until)
    ensures Untouched(sys.store, Next(c, sys, step).store, m)
    ensures step.ClaimDue? ==> m !in step.batch
  {
    var s := sys.store;
    match step {
      case EditNote(k, action, value, now) => EditLeavesAlone(s, k, action, value, now, m);
      case ClaimDue(owner, limit, lease, now, batch) => ClaimLeavesAlone(s, owner, limit, lease, now, batch, m, until);
      case ReleaseUnsent(n, i, now) => FinishLeavesAlone(s, n, sys.held[n][i].owner, GiveBack, now, m);
      case ReleaseSent(n, owner, now) => FinishLeavesAlone(s, n, owner, GiveBack, now, m);
      case RetryLater(n, owner, delay, now) => FinishLeavesAlone(s, n, owner, RetryAfter(delay), now, m);
      case FailPush(n, owner) => FinishLeavesAlone(s, n, owner, GiveUp, 0, m);
      case Receive(r, owner, now) =>
        if WellFormed(s, r.mutationId, r) { ResultLeavesAlone(s, r.mutationId, r, owner, now, m, until); }
      case ReceivePage(page) => PagesKeepContent(s, page.response.changes);
      case _ =>
    }
  }

  /**
   * A leased operation is its holder's alone until the lease expires, and a retried one is nobody's
   * until its delay is over: whatever other tabs claim, settle, edit or pull in between, it stays as it
   * is and is in no batch.
   */
  lemma {:induction false} RestingOperationIsLeftAlone(c: Config, sys: System, steps: seq<Step>, end: System,
                                                       m: MutationId, until: int)
    requires Valid(c, sys) && Runs(c, sys, steps, end)
    requires m in sys.store.outbox && RestsUntil(sys.store.outbox[m], until)
    requires forall i | 0 <= i < |steps| :: LeavesAlone(steps[i], m, sys.store.outbox[m], until)
    ensures Untouched(sys.store, end.store, m)
    ensures forall i | 0 <= i < |steps| && steps[i].ClaimDue? :: m !in steps[i].batch
    decreases steps
  {
    if steps != [] {
      var t := Next(c, sys, steps[0]);
      StepLeavesAlone(c, sys, steps[0], m, until);
      StepKeepsValid(c, sys, steps[0]);
      RestingOperationIsLeftAlone(c, t, steps[1..], end, m, until);
      forall i | 0 <= i < |steps| && steps[i].ClaimDue? ensures m !in steps[i].batch {
        assert i > 0 ==> steps[1..][i - 1] == steps[i];
      }
    }
  }

  /** What a claim leases, and what a retry puts off, rests for as long as it was told. */
  lemma ClaimAndRetryRest(s: Store, owner: LeaseOwner, limit: int, lease: int, delay: int, now: int,
                          batch: seq<MutationId>, m: MutationId)
    requires StoreValid(s)
    ensures IsBatch(ExpireLeases(s.outbox, now), now, limit, batch) && m in batch ==>
              var t := Claim(s, owner, lease, now, batch);
              Holds(t, m, owner) && RestsUntil(t.outbox[m], now + lease)
    ensures Holds(s, m, owner) ==> RestsUntil(Retry(s, m, owner, delay, now).outbox[m], now + delay)
  {
    if Holds(s, m, owner) { assert OpShape(s, m); }
    if IsBatch(ExpireLeases(s.outbox, now), now, limit, batch) && m in batch {
      var i :| 0 <= i < |batch| && batch[i] == m;
      assert batch[i] in Due(ExpireLeases(s.outbox, now), now);
    }
  }
}
