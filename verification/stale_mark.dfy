/**
 * Reconciliation reads expired rows without a lock and marks them by id. What becomes of a row that was
 * claimed in between: exactly when its lease and its single holder are lost, and runs in which they are.
 */
module StaleMark {
  import opened SyncTypes
  import opened SessionRow
  import opened SessionProtocol
  import opened SessionTheorems
  import opened SessionTiming

  /** Two claims less than a lease apart, the earlier not handed back. */
  ghost predicate ClaimedEarly(t: Timed) { exists j: nat :: !Apart(t, j) }

  /** Some run without a further early mark hands out a claim too early. */
  ghost predicate EarlyClaimReachable(p: Policy, t: Timed) {
    exists events, end ::
      TimedRun(p, t, events, end) && Sparing(NoEarlyMark, p, t, events) && Unsaturated(end.w) && ClaimedEarly(end)
  }

  /** Some run without a further mark under a holder lets two attempts share the credentials. */
  ghost predicate OverlapReachable(p: Policy, t: Timed) {
    exists events, end ::
      TimedRun(p, t, events, end) && Sparing(NoHeldMark, p, t, events) && Unsaturated(end.w) && AttemptsOverlap(end)
  }

  /** The mark of reading `k`. */
  function Mark(k: nat): Event { Act(MarkExpired(k)) }

  /** Whoever holds a row shortly before its lease ends is not past that end. */
  lemma HeldMarkIsEarly(p: Policy, t: Timed, k: nat)
    requires Valid(t.w) && Schedules(p, t) && SafeRevocation(p) && HeldMark(t, Mark(k))
    ensures EarlyMark(p, t, Mark(k))
  {
    var last := |t.claims| - 1;
    assert OnSchedule(p, t, t.w.attempts[last], t.claims[last]) && AttemptShape(t.w.attempts[last]);
  }

  /**
   * In every state within the margin a mark keeps nothing pending on a settled row, claims a lease apart and one holder
   * at most, if and only if the row is not settled and the mark is not early. Marks of unrevoked rows are neither.
   */
  lemma MarkKeepsAllExactly(p: Policy, t: Timed, k: nat)
    requires TimedValid(p, t) && SafeRevocation(p) && Unsaturated(t.w) && Possible(p, t, Mark(k))
    requires Tidy(t.w.row) && Spaced(p, t) && Single(p, t)
    ensures var u := After(p, t, Mark(k));
            Tidy(u.w.row) && Spaced(p, u) && Single(p, u) <==>
              !(Stale(t.w, MarkExpired(k)) && (Terminal(t.w.row.value) || EarlyMark(p, t, Mark(k))))
    ensures EarlyMark(p, t, Mark(k)) ==> Stale(t.w, MarkExpired(k))
  {
    TidyStepIsExact(t.w, MarkExpired(k));
    if HeldMark(t, Mark(k)) { HeldMarkIsEarly(p, t, k); }
    if EarlyMark(p, t, Mark(k)) {
      MarkIsExact(p, t, k);
    } else {
      EventKeepsSpaced(p, t, Mark(k));
      EventKeepsSingle(p, t, Mark(k));
    }
  }

  /** The next claim after an early mark: as early as the row and the clock allow. */
  function NextClaim(p: Policy, t: Timed, k: nat): Event
    requires t.w.row.Some? && k < |t.w.readings|
  {
    var now := t.w.readings[k].now;
    Act(ClaimAttempt(t.w.row.value.access.key, 0, if now < t.time - p.lag then t.time - p.lag else now))
  }

  /** A row that was claimed once and is due is handed out again to whoever has the key. */
  lemma DueRowIsLeased(w: World, now: int)
    requires Valid(w) && Unsaturated(w) && w.row.Some? && !Terminal(w.row.value) && w.attempts != []
    requires w.row.value.nextAttemptAt.Some? && w.row.value.nextAttemptAt.value <= now
    ensures RevocationTurnOf(w.row, w.row.value.access.key, now).Leased?
  {
  }

  /** Who claims before the newest lease ends claims too early, and beside its holder. */
  lemma ClaimIsEarly(p: Policy, t: Timed, key: Key, now: int)
    requires Paired(t) && t.claims != [] && |t.claims| - 1 !in t.deferred && now < LeaseEnd(t)
    requires Stamped(p, t, now) && RevocationTurnOf(t.w.row, key, now).Leased?
    ensures var v := After(p, t, Act(ClaimAttempt(key, 0, now)));
            |v.w.attempts| == |t.w.attempts| + 1 && ClaimedEarly(v) && (NewestIsUsing(t) ==> AttemptsOverlap(v))
  {
    var v := After(p, t, Act(ClaimAttempt(key, 0, now)));
    var last := |t.claims| - 1;
    assert !Apart(v, last);
    if NewestIsUsing(t) {
      assert Using(v.w.attempts[last]) && Using(v.w.attempts[last + 1]);
    }
  }

  /** An early mark makes the row due, and changes nothing about claims and attempts. */
  lemma EarlyMarkIsDue(p: Policy, t: Timed, k: nat)
    requires Valid(t.w) && Schedules(p, t) && Unsaturated(t.w) && EarlyMark(p, t, Mark(k))
    ensures var u, step := After(p, t, Mark(k)), NextClaim(p, t, k).step;
            && (u.w.attempts, u.claims, u.leases, u.deferred, u.time) == (t.w.attempts, t.claims, t.leases, t.deferred, t.time)
            && u.w.refreshers == t.w.refreshers
            && Stamped(p, t, step.now) && RevocationTurnOf(u.w.row, step.key, step.now).Leased?
  {
    MarkIsExact(p, t, k);
    StepKeepsValid(t.w, MarkExpired(k));
    DueRowIsLeased(After(p, t, Mark(k)).w, NextClaim(p, t, k).step.now);
  }

  /** After an early mark the next claim is handed out before the lease ends, beside whoever still holds it. */
  lemma NextClaimIsEarly(p: Policy, t: Timed, k: nat)
    requires Valid(t.w) && Schedules(p, t) && |t.w.attempts| < I32_MAX && EarlyMark(p, t, Mark(k))
    ensures var u := After(p, t, Mark(k));
            && Possible(p, u, NextClaim(p, t, k))
            && var v := After(p, u, NextClaim(p, t, k));
               && Unsaturated(v.w) && ClaimedEarly(v)
               && (NewestIsUsing(t) ==> AttemptsOverlap(v))
  {
    EarlyMarkIsDue(p, t, k);
    ClaimIsEarly(p, After(p, t, Mark(k)), NextClaim(p, t, k).step.key, NextClaim(p, t, k).step.now);
  }

  /** A single event as a run that spares everything. */
  lemma OneEvent(g: Guard, p: Policy, t: Timed, e: Event)
    requires Paired(t) && Possible(p, t, e) && Spares(g, p, t, e)
    ensures TimedRun(p, t, [e], After(p, t, e)) && Sparing(g, p, t, [e])
  {
    assert [e][1..] == [];
    assert TimedRun(p, After(p, t, e), [], After(p, t, e)) && Sparing(g, p, After(p, t, e), []);
  }

  /** In every state: after a mark a claim can come too early, if and only if the mark is early. */
  lemma EarlyMarkIsExact(p: Policy, t: Timed, k: nat)
    requires TimedValid(p, t) && Spaced(p, t) && |t.w.attempts| < I32_MAX && Possible(p, t, Mark(k))
    ensures EarlyClaimReachable(p, After(p, t, Mark(k))) <==> EarlyMark(p, t, Mark(k))
  {
    var u := After(p, t, Mark(k));
    EventKeepsTimes(p, t, Mark(k));
    if EarlyMark(p, t, Mark(k)) {
      NextClaimIsEarly(p, t, k);
      OneEvent(NoEarlyMark, p, u, NextClaim(p, t, k));
    } else {
      EventKeepsSpaced(p, t, Mark(k));
      forall events, end | TimedRun(p, u, events, end) && Sparing(NoEarlyMark, p, u, events) && Unsaturated(end.w)
        ensures !ClaimedEarly(end)
      {
        RunKeepsTimes(NoEarlyMark, p, u, events, end);
      }
    }
  }

  /** Within the margin: after a mark two attempts can overlap, if and only if the newest attempt still uses the credentials. */
  lemma HeldMarkIsExact(p: Policy, t: Timed, k: nat)
    requires TimedValid(p, t) && Single(p, t) && SafeRevocation(p) && |t.w.attempts| < I32_MAX && Possible(p, t, Mark(k))
    ensures OverlapReachable(p, After(p, t, Mark(k))) <==> HeldMark(t, Mark(k))
  {
    var u := After(p, t, Mark(k));
    EventKeepsTimes(p, t, Mark(k));
    if HeldMark(t, Mark(k)) {
      HeldMarkIsEarly(p, t, k);
      NextClaimIsEarly(p, t, k);
      OneEvent(NoHeldMark, p, u, NextClaim(p, t, k));
    } else {
      EventKeepsSingle(p, t, Mark(k));
      forall events, end | TimedRun(p, u, events, end) && Sparing(NoHeldMark, p, u, events) && Unsaturated(end.w)
        ensures !AttemptsOverlap(end)
      {
        RunKeepsTimes(NoHeldMark, p, u, events, end);
      }
    }
  }

  // Two replicas at the same second ------------------------------------------

  const EXPIRED := NewRow(PAIR, None, 0, 1000)
  const MARKED := EXPIRED.(revokedAt := Some(1000), pendingAt := Some(1000), nextAttemptAt := Some(1000))
  const CLAIMED := MARKED.(nextAttemptAt := Some(1000 + REVOCATION_LEASE), attempts := 1)
  const CONFIRMED := CLAIMED.(pendingAt := None, nextAttemptAt := None, confirmedAt := Some(1000))

  /** Both have read the expired row at its last second; the first may have marked it. */
  function BothRead(row: Row, attempts: seq<Attempt>, claims: seq<Clock>, marked: bool): Timed {
    Timed(World(Some(row), [], attempts, {}, [PAIR], [Reading(EXPIRED, 1000, marked), Reading(EXPIRED, 1000, false)]),
          1000, claims, [], {})
  }

  const HOLDER := Turned(NeedSignOut, false, 0, 0)

  lemma TwoReadings(p: Policy)
    ensures Reachable(Any, p, BothRead(EXPIRED, [], [], false))
  {
    var t := SessionTiming.Fresh(World(Some(EXPIRED), [], [], {}, [PAIR], []), 1000);
    StartIsReachable(Any, p, t);
    Extend(Any, p, t, Act(ReadExpired(1000)));
    var u := After(p, t, Act(ReadExpired(1000)));
    Extend(Any, p, u, Act(ReadExpired(1000)));
    assert After(p, u, Act(ReadExpired(1000))).w.readings == [Reading(EXPIRED, 1000, false), Reading(EXPIRED, 1000, false)];
  }

  /** The first replica marks the row ... */
  lemma FirstMark(p: Policy)
    ensures Reachable(Any, p, BothRead(MARKED, [], [], true))
  {
    TwoReadings(p);
    var t := BothRead(EXPIRED, [], [], false);
    Extend(Any, p, t, Mark(0));
    assert After(p, t, Mark(0)).w.readings == BothRead(MARKED, [], [], true).w.readings;
  }

  lemma MarkedIsLeased()
    ensures RevocationTurnOf(Some(MARKED), 0, 1000) == Leased(CLAIM) && ClaimRevocation(Some(MARKED), 0, 1000) == Some(CLAIMED)
  {
  }

  /** ... and claims it. */
  lemma FirstHolder(p: Policy)
    ensures Reachable(Any, p, BothRead(CLAIMED, [HOLDER], [Clock(1000, 1010)], true))
  {
    FirstMark(p);
    MarkedIsLeased();
    var u, e := BothRead(MARKED, [], [], true), Act(ClaimAttempt(0, 0, 1000));
    Extend(Any, p, u, e);
    assert After(p, u, e).w.attempts == [HOLDER] && After(p, u, e).claims == [Clock(1000, 1010)];
  }

  /** The second replica's mark makes it due again, and the credentials have two holders: no margin prevents that. */
  lemma NoMarginIsEnough(p: Policy) returns (end: Timed)
    ensures Reachable(Any, p, end) && ClaimedEarly(end) && AttemptsOverlap(end)
  {
    FirstHolder(p);
    var t := BothRead(CLAIMED, [HOLDER], [Clock(1000, 1010)], true);
    ReachableIsValid(Any, p, t);
    Extend(Any, p, t, Mark(1));
    NextClaimIsEarly(p, t, 1);
    end := After(p, After(p, t, Mark(1)), NextClaim(p, t, 1));
    Extend(Any, p, After(p, t, Mark(1)), NextClaim(p, t, 1));
  }

  /** If the holder confirms first, the second replica's mark leaves the confirmed row pending. */
  lemma ConfirmedAndPending(p: Policy) returns (end: Timed)
    ensures Reachable(Any, p, end) && end.w.row.Some?
    ensures end.w.row.value.confirmedAt.Some? && end.w.row.value.pendingAt.Some?
  {
    FirstHolder(p);
    var t := BothRead(CLAIMED, [HOLDER], [Clock(1000, 1010)], true);
    Extend(Any, p, t, Act(SignOutReply(0, None)));
    var u := After(p, t, Act(SignOutReply(0, None)));
    Extend(Any, p, u, Act(Settle(0, 1000)));
    var v := After(p, u, Act(Settle(0, 1000)));
    Extend(Any, p, v, Mark(1));
    end := After(p, v, Mark(1));
  }
}
