/**
 * The same runs against one clock. An upstream call ends within its timeout and a
 * transaction within the timeouts of its pool acquisitions, or the process is dead to
 * the row. The stamp a transaction reads from the database is the time it began, so it
 * may lag behind the moment its claim takes effect.
 */
module SessionTiming {
  import opened SyncTypes
  import opened SessionRow
  import opened SessionProtocol
  import opened SessionTheorems

  const AUTH_TIMEOUT := 10
  const ACQUIRE_TIMEOUT := 10

  /** Pool acquisitions in one revocation transaction (two for the dedicated revoker, else one), and the largest lag of a stamp. */
  datatype Policy = Policy(acquisitions: nat, lag: nat)

  function Transaction(p: Policy): nat { ACQUIRE_TIMEOUT * p.acquisitions }

  datatype Clock = Clock(stamp: int, due: int)

  datatype Timed = Timed(w: World, time: int, claims: seq<Clock>, leases: seq<Clock>, deferred: set<nat>)

  datatype Event = Tick(d: nat) | Die(j: nat) | DieRefreshing(i: nat) | Act(step: Step)

  /** The attempt may still present credentials upstream. */
  predicate Using(a: Attempt) { a.stage.NeedRefresh? || a.stage.Persisting? || a.stage.NeedSignOut? }

  function StageBound(p: Policy, stage: Stage): nat {
    match stage
    case NeedRefresh => AUTH_TIMEOUT
    case NeedSignOut => AUTH_TIMEOUT
    case Finished => 0
    case _ => Transaction(p)
  }

  predicate InTime(t: Timed, until: int) {
    && (forall j :: 0 <= j < |t.w.attempts| && j < |t.claims| && !t.w.attempts[j].stage.Finished? ==> until <= t.claims[j].due)
    && (forall i :: 0 <= i < |t.w.refreshers| && i < |t.leases| && t.w.refreshers[i].stage.Asking? ==> until <= t.leases[i].due)
  }

  predicate Stamped(p: Policy, t: Timed, now: int) { t.time - p.lag <= now <= t.time }

  predicate Possible(p: Policy, t: Timed, e: Event) {
    match e
    case Tick(d) => InTime(t, t.time + d)
    case Die(j) => j < |t.w.attempts|
    case DieRefreshing(i) => i < |t.w.refreshers|
    case Act(step) =>
      && Enabled(t.w, step)
      && (step.ClaimAttempt? ==> Stamped(p, t, step.now))
      && (step.ClaimLease? ==> Stamped(p, t, step.now))
      && (step.ReadExpired? ==> Stamped(p, t, step.now))
  }

  /** Who acts gets a new deadline for the stage it entered. */
  function ActOn(p: Policy, t: Timed, step: Step): Timed
    requires Enabled(t.w, step) && |t.claims| == |t.w.attempts| && |t.leases| == |t.w.refreshers|
  {
    var v := Next(t.w, step);
    match step
    case ClaimAttempt(_, _, now) =>
      if |v.attempts| == |t.w.attempts| then t.(w := v)
      else t.(w := v, claims := t.claims + [Clock(now, t.time + StageBound(p, v.attempts[|t.w.attempts|].stage))])
    case ClaimLease(_, _, _, now) =>
      if |v.refreshers| == |t.w.refreshers| then t.(w := v)
      else t.(w := v, leases := t.leases + [Clock(now, t.time + AUTH_TIMEOUT)])
    case RotationReply(j, _) => t.(w := v, claims := Rescheduled(p, t, v, j))
    case StoreRotation(j, _) => t.(w := v, claims := Rescheduled(p, t, v, j))
    case SignOutReply(j, _) => t.(w := v, claims := Rescheduled(p, t, v, j))
    case Settle(j, _) =>
      t.(w := v, deferred := if t.w.attempts[j].stage.Deferring? then t.deferred + {j} else t.deferred)
    case _ => t.(w := v)
  }

  function Rescheduled(p: Policy, t: Timed, v: World, j: nat): seq<Clock>
    requires j < |t.claims| && j < |v.attempts|
  {
    t.claims[j := t.claims[j].(due := t.time + StageBound(p, v.attempts[j].stage))]
  }

  function After(p: Policy, t: Timed, e: Event): Timed
    requires Possible(p, t, e) && |t.claims| == |t.w.attempts| && |t.leases| == |t.w.refreshers|
  {
    match e
    case Tick(d) => t.(time := t.time + d)
    case Die(j) => t.(w := t.w.(attempts := t.w.attempts[j := t.w.attempts[j].(stage := Finished)]))
    case DieRefreshing(i) => t.(w := t.w.(refreshers := t.w.refreshers[i := t.w.refreshers[i].(stage := Returned)]))
    case Act(step) => ActOn(p, t, step)
  }

  predicate TimedRun(p: Policy, t: Timed, events: seq<Event>, end: Timed)
    decreases |events|
  {
    if events == [] then t == end
    else
      && |t.claims| == |t.w.attempts| && |t.leases| == |t.w.refreshers|
      && Possible(p, t, events[0]) && TimedRun(p, After(p, t, events[0]), events[1..], end)
  }

  /** The longest an attempt can have held its claim when the stage it is in ends. */
  function Budget(p: Policy, a: Attempt): nat {
    match a.stage
    case NeedRefresh => (a.signOuts + 1) * AUTH_TIMEOUT
    case Persisting(_, _) => 2 * AUTH_TIMEOUT + Transaction(p)
    case NeedSignOut => if a.refreshed then 3 * AUTH_TIMEOUT + Transaction(p) else AUTH_TIMEOUT
    case Finished => 0
    case _ => 3 * AUTH_TIMEOUT + 2 * Transaction(p)
  }

  predicate OnSchedule(p: Policy, t: Timed, a: Attempt, c: Clock) {
    && c.stamp <= t.time
    && (!a.stage.Finished? ==> t.time <= c.due <= c.stamp + p.lag + Budget(p, a))
  }

  predicate Paired(t: Timed) { |t.claims| == |t.w.attempts| && |t.leases| == |t.w.refreshers| }

  predicate Schedules(p: Policy, t: Timed) {
    && Paired(t)
    && (forall j :: 0 <= j < |t.claims| ==> OnSchedule(p, t, t.w.attempts[j], t.claims[j]))
    && (forall j :: j in t.deferred ==> j < |t.claims| && t.w.attempts[j].stage.Finished?)
    && (forall k :: 0 <= k < |t.w.readings| ==> t.w.readings[k].now <= t.time)
  }

  /** The row was claimed and is not settled, so it can be claimed again. */
  predicate Claimable(t: Timed) { t.w.row.Some? && !Terminal(t.w.row.value) && t.claims != [] }

  function LeaseEnd(t: Timed): int
    requires t.claims != []
  {
    t.claims[|t.claims| - 1].stamp + REVOCATION_LEASE
  }

  /** No later claim can be stamped before the newest lease ends: the row says to wait, or no stamp lags that much. */
  predicate Waits(p: Policy, t: Timed)
    requires Claimable(t)
  {
    || (t.w.row.value.nextAttemptAt.Some? && LeaseEnd(t) <= t.w.row.value.nextAttemptAt.value)
    || LeaseEnd(t) <= t.time - p.lag
  }

  predicate Apart(t: Timed, j: nat) {
    j + 1 < |t.claims| ==> t.claims[j].stamp + REVOCATION_LEASE <= t.claims[j + 1].stamp || j in t.deferred
  }

  predicate Alone(t: Timed) {
    forall j :: 0 <= j < |t.w.attempts| - 1 ==> !Using(t.w.attempts[j])
  }

  predicate NewestIsUsing(t: Timed) { t.w.attempts != [] && Using(t.w.attempts[|t.w.attempts| - 1]) }

  /** Claims are a lease apart, and so will be the next. */
  ghost predicate Spaced(p: Policy, t: Timed) {
    Unsaturated(t.w) ==>
      && (forall j: nat :: Apart(t, j))
      && (Claimable(t) && |t.claims| - 1 !in t.deferred ==> Waits(p, t))
  }

  /** One attempt at most uses the credentials, and while it does the next has to wait. */
  predicate Single(p: Policy, t: Timed) {
    Unsaturated(t.w) ==> Alone(t) && (Claimable(t) && NewestIsUsing(t) ==> Waits(p, t))
  }

  predicate RefreshTimes(p: Policy, t: Timed) {
    && |t.leases| == |t.w.refreshers|
    && (forall i :: 0 <= i < |t.leases| && t.w.refreshers[i].stage.Asking? ==>
          t.time <= t.leases[i].due <= t.leases[i].stamp + p.lag + AUTH_TIMEOUT)
    && (forall i :: 0 <= i < |t.leases| - 1 ==> !t.w.refreshers[i].stage.Asking?)
    && (t.w.row.Some? && t.w.row.value.revokedAt.None? && t.leases != [] && t.w.refreshers[|t.leases| - 1].stage.Asking? ==>
          t.w.row.value.leaseExpiresAt == Some(t.leases[|t.leases| - 1].stamp + REFRESH_LEASE))
  }

  predicate SafeRevocation(p: Policy) { p.lag + 3 * AUTH_TIMEOUT + Transaction(p) < REVOCATION_LEASE }

  predicate SafeRefresh(p: Policy) { p.lag + AUTH_TIMEOUT < REFRESH_LEASE }

  // Marks that come too late -----------------------------------------------

  /** Reconciliation marks a row that was claimed and not settled, and so sets it due again. */
  predicate MarksClaimed(t: Timed, e: Event) {
    e.Act? && e.step.MarkExpired? && Enabled(t.w, e.step) && Claimable(t)
  }

  /** The mark makes a row due before its lease ends, unless the claim was handed back. */
  predicate EarlyMark(p: Policy, t: Timed, e: Event) {
    && MarksClaimed(t, e) && |t.claims| - 1 !in t.deferred
    && t.w.readings[e.step.k].now < LeaseEnd(t) && t.time - p.lag < LeaseEnd(t)
  }

  /** The mark makes a row due while its newest attempt still uses the credentials. */
  predicate HeldMark(t: Timed, e: Event) { MarksClaimed(t, e) && NewestIsUsing(t) }

  /** Which marks a run does without. */
  datatype Guard = Any | NoEarlyMark | NoHeldMark

  predicate Spares(g: Guard, p: Policy, t: Timed, e: Event) {
    match g
    case Any => true
    case NoEarlyMark => !EarlyMark(p, t, e)
    case NoHeldMark => !HeldMark(t, e)
  }

  predicate Sparing(g: Guard, p: Policy, t: Timed, events: seq<Event>)
    decreases |events|
  {
    events == []
    || (Paired(t) && Possible(p, t, events[0]) && Spares(g, p, t, events[0]) && Sparing(g, p, After(p, t, events[0]), events[1..]))
  }

  // Every event keeps the times ---------------------------------------------

  lemma DeathKeepsValid(p: Policy, t: Timed, e: Event)
    requires Valid(t.w) && Possible(p, t, e) && (e.Die? || e.DieRefreshing?)
    requires |t.claims| == |t.w.attempts| && |t.leases| == |t.w.refreshers|
    ensures Valid(After(p, t, e).w)
  {
    OutcomesCarry(t.w, After(p, t, e).w);
  }

  /** An attempt that steps gets a deadline within its budget. */
  lemma AttemptKeepsSchedules(p: Policy, t: Timed, step: Step, j: nat)
    requires AttemptsShape(t.w) && Schedules(p, t) && Possible(p, t, Act(step))
    requires IsByAttempt(step, j) && !step.Settle?
    ensures Schedules(p, ActOn(p, t, step))
  {
    var u := ActOn(p, t, step);
    assert AttemptShape(t.w.attempts[j]) && OnSchedule(p, t, t.w.attempts[j], t.claims[j]);
    assert OnSchedule(p, u, u.w.attempts[j], u.claims[j]);
  }

  /** Deadlines and stamps hold whatever is marked. */
  lemma ActKeepsSchedules(p: Policy, t: Timed, step: Step)
    requires AttemptsShape(t.w) && Schedules(p, t) && Possible(p, t, Act(step))
    ensures Schedules(p, ActOn(p, t, step))
  {
    match step
    case RotationReply(j, _) => AttemptKeepsSchedules(p, t, step, j);
    case StoreRotation(j, _) => AttemptKeepsSchedules(p, t, step, j);
    case SignOutReply(j, _) => AttemptKeepsSchedules(p, t, step, j);
    case _ =>
  }

  /** Nobody claims, nobody goes back to using the credentials, and the row is due as before or was handed back. */
  predicate Quiet(t: Timed, u: Timed) {
    && t.time <= u.time && t.deferred <= u.deferred
    && |t.w.attempts| == |t.claims| && |u.w.attempts| == |u.claims| == |t.claims|
    && (forall j :: 0 <= j < |t.claims| ==>
          u.claims[j].stamp == t.claims[j].stamp && (Using(u.w.attempts[j]) ==> Using(t.w.attempts[j])))
    && (Claimable(u) ==>
          Claimable(t) && (u.w.row.value.nextAttemptAt == t.w.row.value.nextAttemptAt
                           || (|u.claims| - 1 in u.deferred && !NewestIsUsing(u))))
  }

  lemma AttemptIsQuiet(p: Policy, t: Timed, step: Step, j: nat)
    requires Paired(t) && Numbers(t.w) && Unsaturated(t.w) && Possible(p, t, Act(step)) && IsByAttempt(step, j)
    ensures Quiet(t, ActOn(p, t, step))
  {
  }

  /** Before its first claim a row may become due; after it only a claim, a deferral or a mark moves the time. */
  lemma ActIsQuiet(p: Policy, t: Timed, step: Step)
    requires Paired(t) && TableShape(t.w.row) && Numbers(t.w) && Unsaturated(t.w) && Possible(p, t, Act(step))
    requires !step.ClaimAttempt? && !MarksClaimed(t, Act(step))
    ensures Quiet(t, ActOn(p, t, step))
  {
    match step
    case RotationReply(j, _) => AttemptIsQuiet(p, t, step, j);
    case StoreRotation(j, _) => AttemptIsQuiet(p, t, step, j);
    case SignOutReply(j, _) => AttemptIsQuiet(p, t, step, j);
    case Settle(j, _) => AttemptIsQuiet(p, t, step, j);
    case _ =>
  }

  lemma QuietKeeps(p: Policy, t: Timed, u: Timed)
    requires Quiet(t, u)
    ensures Spaced(p, t) ==> Spaced(p, u)
    ensures Single(p, t) ==> Single(p, u)
  {
    assert forall k: nat :: Apart(t, k) ==> Apart(u, k);
  }

  /** A claim that is handed out is stamped after the end of the lease it follows. */
  lemma ClaimKeepsSpaced(p: Policy, t: Timed, step: Step)
    requires Schedules(p, t) && Numbers(t.w) && Spaced(p, t) && Possible(p, t, Act(step)) && step.ClaimAttempt?
    ensures Spaced(p, ActOn(p, t, step))
  {
    var u := ActOn(p, t, step);
    var last := |t.claims| - 1;
    assert forall k: nat :: Apart(t, k) && k != last ==> Apart(u, k);
  }

  /** Whoever follows a holder that takes at most lag, three calls and one transaction finds it past its last call. */
  lemma ClaimKeepsSingle(p: Policy, t: Timed, step: Step)
    requires Schedules(p, t) && AttemptsShape(t.w) && Numbers(t.w) && Single(p, t) && SafeRevocation(p)
    requires Possible(p, t, Act(step)) && step.ClaimAttempt?
    ensures Single(p, ActOn(p, t, step))
  {
    if RevocationTurnOf(t.w.row, step.key, step.now).Leased? && t.claims != [] {
      var last := |t.claims| - 1;
      assert AttemptShape(t.w.attempts[last]) && OnSchedule(p, t, t.w.attempts[last], t.claims[last]);
    }
  }

  /** A mark moves the due time of a claimed row to the time of its reading. */
  lemma MarkIsExact(p: Policy, t: Timed, k: nat)
    requires Valid(t.w) && Schedules(p, t) && Unsaturated(t.w) && MarksClaimed(t, Act(MarkExpired(k)))
    ensures var u := After(p, t, Act(MarkExpired(k)));
            && Claimable(u) && u.w.row.value.nextAttemptAt == Some(t.w.readings[k].now)
            && (Spaced(p, t) ==> (Spaced(p, u) <==> !EarlyMark(p, t, Act(MarkExpired(k)))))
            && (Single(p, t) && SafeRevocation(p) ==> (Single(p, u) <==> !HeldMark(t, Act(MarkExpired(k)))))
  {
    var u := After(p, t, Act(MarkExpired(k)));
    var last := |t.claims| - 1;
    assert RowShape(t.w.readings[k].read) && OnSchedule(p, t, t.w.attempts[last], t.claims[last]);
    assert AttemptShape(t.w.attempts[last]);
    assert forall j: nat :: Apart(t, j) <==> Apart(u, j);
  }

  lemma EventKeepsSpaced(p: Policy, t: Timed, e: Event)
    requires Valid(t.w) && Schedules(p, t) && Spaced(p, t) && Possible(p, t, e) && !EarlyMark(p, t, e)
    ensures Spaced(p, After(p, t, e))
  {
    if e.Act? && e.step.ClaimAttempt? {
      ClaimKeepsSpaced(p, t, e.step);
    } else if Unsaturated(t.w) {
      if MarksClaimed(t, e) { MarkIsExact(p, t, e.step.k); }
      else if e.Act? { ActIsQuiet(p, t, e.step); QuietKeeps(p, t, After(p, t, e)); }
      else { QuietKeeps(p, t, After(p, t, e)); }
    }
  }

  lemma EventKeepsSingle(p: Policy, t: Timed, e: Event)
    requires Valid(t.w) && Schedules(p, t) && Single(p, t) && SafeRevocation(p) && Possible(p, t, e) && !HeldMark(t, e)
    ensures Single(p, After(p, t, e))
  {
    if e.Act? && e.step.ClaimAttempt? {
      ClaimKeepsSingle(p, t, e.step);
    } else if Unsaturated(t.w) {
      if MarksClaimed(t, e) { MarkIsExact(p, t, e.step.k); }
      else if e.Act? { ActIsQuiet(p, t, e.step); QuietKeeps(p, t, After(p, t, e)); }
      else { QuietKeeps(p, t, After(p, t, e)); }
    }
  }

  lemma LeaseActKeepsTimes(p: Policy, t: Timed, step: Step)
    requires TableShape(t.w.row) && Leases(t.w) && |t.claims| == |t.w.attempts| && RefreshTimes(p, t)
    requires Possible(p, t, Act(step)) && SafeRefresh(p) && step.ClaimLease?
    ensures RefreshTimes(p, ActOn(p, t, step))
  {
  }

  lemma RefresherActKeepsTimes(p: Policy, t: Timed, step: Step, i: nat)
    requires TableShape(t.w.row) && Leases(t.w) && |t.claims| == |t.w.attempts| && RefreshTimes(p, t)
    requires Possible(p, t, Act(step)) && IsByRefresher(step, i)
    ensures RefreshTimes(p, ActOn(p, t, step))
  {
    if i < |t.leases| - 1 {
      assert !OwnsLease(t.w.row, t.w.refreshers[i].claim);
    }
  }

  lemma OtherActKeepsRefreshTimes(p: Policy, t: Timed, step: Step)
    requires TableShape(t.w.row) && |t.claims| == |t.w.attempts| && RefreshTimes(p, t)
    requires Possible(p, t, Act(step))
    requires !step.ClaimLease? && !step.RefreshReply? && !step.StoreRefresh? && !step.DropRefresh?
    ensures RefreshTimes(p, ActOn(p, t, step))
  {
  }

  ghost predicate TimedValid(p: Policy, t: Timed) {
    Valid(t.w) && Schedules(p, t) && (SafeRefresh(p) ==> RefreshTimes(p, t))
  }

  lemma ActKeepsRefreshTimes(p: Policy, t: Timed, step: Step)
    requires Valid(t.w) && Paired(t) && RefreshTimes(p, t) && Possible(p, t, Act(step)) && SafeRefresh(p)
    ensures RefreshTimes(p, ActOn(p, t, step))
  {
    match step
    case ClaimLease(_, _, _, _) => LeaseActKeepsTimes(p, t, step);
    case RefreshReply(i, _) => RefresherActKeepsTimes(p, t, step, i);
    case StoreRefresh(i, _, _) => RefresherActKeepsTimes(p, t, step, i);
    case DropRefresh(i, _) => RefresherActKeepsTimes(p, t, step, i);
    case _ => OtherActKeepsRefreshTimes(p, t, step);
  }

  /** In every run attempts and refreshers keep to their deadlines, and two refreshers never overlap within the margin. */
  lemma EventKeepsTimes(p: Policy, t: Timed, e: Event)
    requires TimedValid(p, t) && Possible(p, t, e)
    ensures TimedValid(p, After(p, t, e))
  {
    match e
    case Act(step) =>
      StepKeepsValid(t.w, step);
      ActKeepsSchedules(p, t, step);
      if SafeRefresh(p) { ActKeepsRefreshTimes(p, t, step); }
    case Tick(d) =>
    case _ => DeathKeepsValid(p, t, e);
  }

  lemma {:induction false} RunKeepsTimes(g: Guard, p: Policy, t: Timed, events: seq<Event>, end: Timed)
    requires TimedValid(p, t) && TimedRun(p, t, events, end) && Sparing(g, p, t, events)
    ensures TimedValid(p, end)
    ensures g.NoEarlyMark? && Spaced(p, t) ==> Spaced(p, end)
    ensures g.NoHeldMark? && SafeRevocation(p) && Single(p, t) ==> Single(p, end)
    decreases |events|
  {
    if events != [] {
      EventKeepsTimes(p, t, events[0]);
      if g.NoEarlyMark? && Spaced(p, t) { EventKeepsSpaced(p, t, events[0]); }
      if g.NoHeldMark? && SafeRevocation(p) && Single(p, t) { EventKeepsSingle(p, t, events[0]); }
      RunKeepsTimes(g, p, After(p, t, events[0]), events[1..], end);
    }
  }

  function Fresh(w: World, time: int): Timed { Timed(w, time, [], [], {}) }

  /** A new sign-in, at any time and for any tokens. */
  predicate Starts(t: Timed) {
    && t.w.row.Some? && t.w.chain != [] && t.claims == [] && t.leases == [] && t.deferred == {}
    && t.w == SignIn(t.w.chain[0], t.w.row.value.session, t.w.row.value.access.key, t.w.row.value.expiresAt)
  }

  /** A state some run from a sign-in ends in, with fewer claims than saturate the attempt number. */
  ghost predicate Reachable(g: Guard, p: Policy, end: Timed) {
    Unsaturated(end.w) && exists t, events :: Starts(t) && TimedRun(p, t, events, end) && Sparing(g, p, t, events)
  }

  lemma ReachableIsValid(g: Guard, p: Policy, end: Timed)
    requires Reachable(g, p, end)
    ensures TimedValid(p, end)
    ensures g.NoEarlyMark? ==> Spaced(p, end)
    ensures g.NoHeldMark? && SafeRevocation(p) ==> Single(p, end)
  {
    var t, events :| Starts(t) && TimedRun(p, t, events, end) && Sparing(g, p, t, events);
    SignInIsValid(t.w.chain[0], t.w.row.value.session, t.w.row.value.access.key, t.w.row.value.expiresAt);
    RunKeepsTimes(g, p, t, events, end);
  }

  /** Two attempts may present the row's credentials upstream at the same time. */
  ghost predicate AttemptsOverlap(t: Timed) {
    exists i: nat, j: nat :: i < j < |t.w.attempts| && Using(t.w.attempts[i]) && Using(t.w.attempts[j])
  }

  /** Two refreshers are waiting for an answer at the same time. */
  ghost predicate RefreshesOverlap(t: Timed) {
    exists i: nat, j: nat :: i < j < |t.w.refreshers| && t.w.refreshers[i].stage.Asking? && t.w.refreshers[j].stage.Asking?
  }

  /** Claims on a row are 75 seconds apart unless the earlier holder gave its claim back or a mark came early. */
  lemma ClaimsAreApart(p: Policy, end: Timed, j: nat)
    requires Reachable(NoEarlyMark, p, end) && j + 1 < |end.claims|
    ensures end.claims[j].stamp + REVOCATION_LEASE <= end.claims[j + 1].stamp || j in end.deferred
  {
    ReachableIsValid(NoEarlyMark, p, end);
    assert Apart(end, j);
  }

  /** With one acquisition a transaction a whole claim ends within 50 seconds and the lag; with two, within 70 and the lag. */
  lemma LongestClaim(p: Policy, end: Timed, j: nat)
    requires Reachable(Any, p, end) && j < |end.claims|
    requires j < |end.w.attempts| && !end.w.attempts[j].stage.Finished?
    ensures end.time - end.claims[j].stamp <= p.lag + 3 * AUTH_TIMEOUT + 2 * Transaction(p)
  {
    ReachableIsValid(Any, p, end);
    assert OnSchedule(p, end, end.w.attempts[j], end.claims[j]) && AttemptShape(end.w.attempts[j]);
  }

  // The margins are exact ---------------------------------------------------

  lemma {:induction false} RunExtends(g: Guard, p: Policy, t: Timed, events: seq<Event>, mid: Timed, e: Event)
    requires TimedRun(p, t, events, mid) && Sparing(g, p, t, events)
    requires Paired(mid) && Possible(p, mid, e) && Spares(g, p, mid, e)
    ensures TimedRun(p, t, events + [e], After(p, mid, e)) && Sparing(g, p, t, events + [e])
    decreases |events|
  {
    if events == [] {
      assert TimedRun(p, After(p, t, e), [], After(p, t, e)) && Sparing(g, p, After(p, t, e), []);
    } else {
      RunExtends(g, p, After(p, t, events[0]), events[1..], mid, e);
      assert (events + [e])[1..] == events[1..] + [e];
    }
  }

  lemma Extend(g: Guard, p: Policy, t: Timed, e: Event)
    requires Reachable(g, p, t) && Paired(t) && Possible(p, t, e) && Spares(g, p, t, e) && Unsaturated(After(p, t, e).w)
    ensures Reachable(g, p, After(p, t, e))
  {
    var start, events :| Starts(start) && TimedRun(p, start, events, t) && Sparing(g, p, start, events);
    RunExtends(g, p, start, events, t, e);
  }

  lemma StartIsReachable(g: Guard, p: Policy, t: Timed)
    requires Starts(t)
    ensures Reachable(g, p, t)
  {
    assert TimedRun(p, t, [], t) && Sparing(g, p, t, []);
  }

  const PAIR := AuthTokens(7, Token(1, Opaque), Token(2, Opaque), 1000)

  /** One pair of credentials in use: signed out at time 0, `time` later, the first claim stamped 0 and never handed on. */
  function Holding(time: int, a: Attempt, due: int, exchanges: set<Exchange>, chain: seq<AuthTokens>): Timed {
    var row := NewRow(PAIR, None, 0, 1000).(revokedAt := Some(0), pendingAt := Some(0),
                                          nextAttemptAt := Some(REVOCATION_LEASE), attempts := 1);
    Timed(World(Some(row), [], [a], exchanges, chain, []), time, [Clock(0, due)], [], {})
  }

  const CLAIM := RevocationClaim(Token(1, Opaque), Token(2, Opaque), 1000, None, 1, 7)
  const ANSWER := Exchange(Token(2, Opaque), Ok(PAIR))

  function Turned(stage: Stage, refreshed: bool, refreshes: nat, signOuts: nat): Attempt {
    Attempt(CLAIM, stage, refreshed, refreshes, signOuts, false, false)
  }

  function SignedOut(time: int): Timed {
    var row := NewRow(PAIR, None, 0, 1000).(revokedAt := Some(0), pendingAt := Some(0), nextAttemptAt := Some(0));
    Fresh(World(Some(row), [], [], {}, [PAIR], []), time)
  }

  lemma LogoutAtOnce(p: Policy)
    ensures Reachable(NoHeldMark, p, SignedOut(0))
  {
    var t := Fresh(World(Some(NewRow(PAIR, None, 0, 1000)), [], [], {}, [PAIR], []), 0);
    StartIsReachable(NoHeldMark, p, t);
    Extend(NoHeldMark, p, t, Act(Logout(0)));
  }

  /** The first claim takes effect only after the whole lag. */
  lemma LateClaim(p: Policy)
    ensures Reachable(NoHeldMark, p, Holding(p.lag, Turned(NeedSignOut, false, 0, 0), p.lag + 10, {}, [PAIR]))
  {
    LogoutAtOnce(p);
    Extend(NoHeldMark, p, SignedOut(0), Tick(p.lag));
    var v := SignedOut(p.lag);
    Extend(NoHeldMark, p, v, Act(ClaimAttempt(0, 0, 0)));
    var end := After(p, v, Act(ClaimAttempt(0, 0, 0)));
    assert end.w.attempts == [Turned(NeedSignOut, false, 0, 0)] && end.claims == [Clock(0, p.lag + 10)];
    assert end == Holding(p.lag, Turned(NeedSignOut, false, 0, 0), p.lag + 10, {}, [PAIR]);
  }

  /** A sign-out takes its whole timeout and is refused. */
  lemma SlowSignOut(p: Policy)
    ensures Reachable(NoHeldMark, p, Holding(p.lag + 10, Turned(NeedRefresh, false, 0, 1), p.lag + 20, {}, [PAIR]))
  {
    LateClaim(p);
    var t := Holding(p.lag, Turned(NeedSignOut, false, 0, 0), p.lag + 10, {}, [PAIR]);
    Extend(NoHeldMark, p, t, Tick(10));
    var u := Holding(p.lag + 10, Turned(NeedSignOut, false, 0, 0), p.lag + 10, {}, [PAIR]);
    Extend(NoHeldMark, p, u, Act(SignOutReply(0, Some(InvalidCredentials))));
    var end := After(p, u, Act(SignOutReply(0, Some(InvalidCredentials))));
    assert end.w.attempts == [Turned(NeedRefresh, false, 0, 1)] && end.claims == [Clock(0, p.lag + 20)];
    assert end == Holding(p.lag + 10, Turned(NeedRefresh, false, 0, 1), p.lag + 20, {}, [PAIR]);
  }

  /** So does the refresh, which answers with a new pair. */
  lemma SlowClaim(p: Policy)
    ensures Reachable(NoHeldMark, p, Holding(p.lag + 20, Turned(Persisting(PAIR, None), false, 1, 1), p.lag + 20 + Transaction(p),
                                 {ANSWER}, [PAIR]))
  {
    SlowSignOut(p);
    var t := Holding(p.lag + 10, Turned(NeedRefresh, false, 0, 1), p.lag + 20, {}, [PAIR]);
    Extend(NoHeldMark, p, t, Tick(10));
    var u := Holding(p.lag + 20, Turned(NeedRefresh, false, 0, 1), p.lag + 20, {}, [PAIR]);
    Extend(NoHeldMark, p, u, Act(RotationReply(0, Ok(PAIR))));
    var end := After(p, u, Act(RotationReply(0, Ok(PAIR))));
    assert end.w.attempts == [Turned(Persisting(PAIR, None), false, 1, 1)] && end.claims == [Clock(0, p.lag + 20 + Transaction(p))];
    assert end.w.exchanges == {ANSWER};
    assert end == Holding(p.lag + 20, Turned(Persisting(PAIR, None), false, 1, 1), p.lag + 20 + Transaction(p), {ANSWER}, [PAIR]);
  }

  /** Whoever still holds the first claim 75 seconds after its stamp shares the credentials with the next holder. */
  lemma SecondClaim(p: Policy, t: Timed, a: Attempt, due: int, exchanges: set<Exchange>, chain: seq<AuthTokens>) returns (end: Timed)
    requires t == Holding(t.time, a, due, exchanges, chain)
    requires Reachable(NoHeldMark, p, t) && Using(a) && REVOCATION_LEASE <= t.time
    ensures Reachable(NoHeldMark, p, end) && AttemptsOverlap(end)
  {
    Extend(NoHeldMark, p, t, Act(ClaimAttempt(0, 0, t.time)));
    end := After(p, t, Act(ClaimAttempt(0, 0, t.time)));
    assert 0 < 1 < |end.w.attempts| && Using(end.w.attempts[0]) && Using(end.w.attempts[1]);
  }

  /** The refresh is stored at the last moment, and a second sign-out begins. */
  lemma SlowStore(p: Policy)
    ensures var stored := p.lag + 20 + Transaction(p);
            Reachable(NoHeldMark, p, Holding(stored, Turned(NeedSignOut, true, 1, 1), stored + 10, {ANSWER}, [PAIR, PAIR]))
  {
    SlowClaim(p);
    var stored := p.lag + 20 + Transaction(p);
    Extend(NoHeldMark, p, Holding(p.lag + 20, Turned(Persisting(PAIR, None), false, 1, 1), stored, {ANSWER}, [PAIR]), Tick(Transaction(p)));
    var t := Holding(stored, Turned(Persisting(PAIR, None), false, 1, 1), stored, {ANSWER}, [PAIR]);
    Extend(NoHeldMark, p, t, Act(StoreRotation(0, 0)));
    var u := After(p, t, Act(StoreRotation(0, 0)));
    assert u.w.chain == [PAIR, PAIR];
    assert u == Holding(stored, Turned(NeedSignOut, true, 1, 1), stored + 10, {ANSWER}, [PAIR, PAIR]);
  }

  lemma SlowHolderOverlaps(p: Policy) returns (end: Timed)
    requires !SafeRevocation(p)
    ensures Reachable(NoHeldMark, p, end) && AttemptsOverlap(end)
  {
    var stored := p.lag + 20 + Transaction(p);
    if stored >= REVOCATION_LEASE {
      SlowClaim(p);
      var t := Holding(p.lag + 20, Turned(Persisting(PAIR, None), false, 1, 1), stored, {ANSWER}, [PAIR]);
      Extend(NoHeldMark, p, t, Tick(Transaction(p)));
      end := SecondClaim(p, t.(time := stored), Turned(Persisting(PAIR, None), false, 1, 1), stored, {ANSWER}, [PAIR]);
    } else {
      SlowStore(p);
      var t := Holding(stored, Turned(NeedSignOut, true, 1, 1), stored + 10, {ANSWER}, [PAIR, PAIR]);
      Extend(NoHeldMark, p, t, Tick(REVOCATION_LEASE - stored));
      end := SecondClaim(p, t.(time := REVOCATION_LEASE), Turned(NeedSignOut, true, 1, 1), stored + 10, {ANSWER}, [PAIR, PAIR]);
    }
  }

  /** No two attempts ever share the credentials, if and only if lag, three calls and one transaction fit in the lease. */
  lemma RevocationMarginIsExact(p: Policy)
    ensures SafeRevocation(p) <==> forall end :: Reachable(NoHeldMark, p, end) ==> !AttemptsOverlap(end)
  {
    if SafeRevocation(p) {
      forall end | Reachable(NoHeldMark, p, end) ensures !AttemptsOverlap(end) { ReachableIsValid(NoHeldMark, p, end); }
    } else {
      var end := SlowHolderOverlaps(p);
    }
  }

  function Leased(time: int, due: int): Timed {
    var pair := PAIR.(expiresAt := 0);
    var row := NewRow(pair, None, 0, 1000).(leaseId := Some(0), leaseExpiresAt := Some(REFRESH_LEASE));
    var asking := Refresher(RefreshClaim(0, 7, None, Token(2, Opaque)), Asking);
    Timed(World(Some(row), [asking], [], {}, [pair], []), time, [], [Clock(0, due)], {})
  }

  /** A refresh claim takes effect only after the whole lag. */
  lemma LateLease(p: Policy)
    ensures Reachable(Any, p, Leased(p.lag, p.lag + 10))
  {
    var pair := PAIR.(expiresAt := 0);
    var t := Fresh(World(Some(NewRow(pair, None, 0, 1000)), [], [], {}, [pair], []), 0);
    StartIsReachable(Any, p, t);
    Extend(Any, p, t, Tick(p.lag));
    var u := t.(time := p.lag);
    Extend(Any, p, u, Act(ClaimLease(0, 0, 0, 0)));
    assert After(p, u, Act(ClaimLease(0, 0, 0, 0))) == Leased(p.lag, p.lag + 10);
  }

  lemma SlowRefreshOverlaps(p: Policy) returns (end: Timed)
    requires !SafeRefresh(p)
    ensures Reachable(Any, p, end) && RefreshesOverlap(end)
  {
    LateLease(p);
    var due := p.lag + 10;
    Extend(Any, p, Leased(p.lag, due), Tick(10));
    Extend(Any, p, Leased(due, due), Act(ClaimLease(1, 0, 0, due)));
    end := After(p, Leased(due, due), Act(ClaimLease(1, 0, 0, due)));
    assert 0 < 1 < |end.w.refreshers| && end.w.refreshers[0].stage.Asking? && end.w.refreshers[1].stage.Asking?;
  }

  /** No two refreshers ever present a refresh token together, if and only if lag and one call fit in the refresh lease. */
  lemma RefreshMarginIsExact(p: Policy)
    ensures SafeRefresh(p) <==> forall end :: Reachable(Any, p, end) ==> !RefreshesOverlap(end)
  {
    if SafeRefresh(p) {
      forall end | Reachable(Any, p, end) ensures !RefreshesOverlap(end) { ReachableIsValid(Any, p, end); }
    } else {
      var end := SlowRefreshOverlaps(p);
    }
  }
}
