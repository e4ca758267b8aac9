/** What holds of the row over whole runs, whatever the upstream answers and however the replicas interleave. */
module SessionTheorems {
  import opened SyncTypes
  import opened SessionRow
  import opened SessionProtocol

  lemma StepKeepsValid(w: World, step: Step)
    requires Valid(w) && Enabled(w, step)
    ensures Valid(Next(w, step))
  {
    match step
    case ClaimLease(leaseId, key, localNow, now) => ClaimLeaseKeeps(w, leaseId, key, localNow, now);
    case RefreshReply(i, reply) => RefreshReplyKeeps(w, i, reply);
    case StoreRefresh(i, key, localNow) => StoreRefreshKeeps(w, i, key, localNow);
    case DropRefresh(i, now) => DropRefreshKeeps(w, i, now);
    case Logout(now) => RowStepKeeps(w, QueueRevocation(w.row, now), now);
    case ClaimAttempt(key, localNow, now) => ClaimAttemptKeeps(w, key, localNow, now);
    case RotationReply(j, reply) => RotationReplyKeeps(w, j, reply);
    case StoreRotation(j, key) => StoreRotationKeeps(w, j, key);
    case SignOutReply(j, error) => SignOutReplyKeeps(w, j, error);
    case Settle(j, now) => SettleKeeps(w, j, now);
    case ReadExpired(_) =>
    case MarkExpired(k) => MarkExpiredKeeps(w, k);
    case Prune(now) => RowStepKeeps(w, PruneSettled(w.row, now), now);
  }

  lemma {:induction false} RunKeepsValid(w: World, steps: seq<Step>, end: World)
    requires Valid(w) && Reaches(w, steps, end)
    ensures Valid(end)
    decreases |steps|
  {
    if steps != [] {
      StepKeepsValid(w, steps[0]);
      RunKeepsValid(Next(w, steps[0]), steps[1..], end);
    }
  }

  // Logout always wins -----------------------------------------------------

  /** No step clears a revocation, none of the refresh path touches the row, and only a stale mark replaces the time. */
  lemma RevokedStaysRevoked(w: World, step: Step, at: int)
    requires TableShape(w.row) && Readings(w) && Enabled(w, step) && RevokedSince(w.row, at)
    ensures Revoked(Next(w, step).row)
    ensures RevokedSince(Next(w, step).row, at) <==> !(Stale(w, step) && w.readings[step.k].now != at)
    ensures step.ClaimLease? || step.StoreRefresh? || step.DropRefresh? ==> Next(w, step).row == w.row
  {
  }

  lemma {:induction false} RunStaysRevoked(w: World, steps: seq<Step>, end: World)
    requires Valid(w) && Reaches(w, steps, end) && Revoked(w.row)
    ensures Revoked(end.row)
    decreases |steps|
  {
    if steps != [] {
      StepKeepsValid(w, steps[0]);
      if w.row.Some? { RevokedStaysRevoked(w, steps[0], w.row.value.revokedAt.value); }
      RunStaysRevoked(Next(w, steps[0]), steps[1..], end);
    }
  }

  lemma {:induction false} RunRemembers(w: World, steps: seq<Step>, end: World, at: int)
    requires Valid(w) && Reaches(w, steps, end) && Undisturbed(w, steps) && RevokedSince(w.row, at)
    ensures RevokedSince(end.row, at)
    decreases |steps|
  {
    if steps != [] {
      StepKeepsValid(w, steps[0]);
      RevokedStaysRevoked(w, steps[0], at);
      RunRemembers(Next(w, steps[0]), steps[1..], end, at);
    }
  }

  /** No way of reading the row authenticates anybody, and no way of refreshing touches it. */
  ghost predicate ClosedToUsers(table: Option<Row>) {
    && (forall localNow :: AuthenticateHash(table, localNow) == Unauthorized)
    && (forall localNow, now :: OutcomeAfterLostRefresh(table, localNow, now) == Unauthorized)
    && (forall key, leaseId, localNow, now :: RefreshTurnOf(table, key, leaseId, localNow, now) == Denied(Unauthorized))
    && (forall claim, tokens, session, key, localNow :: PersistRefresh(table, claim, tokens, session, key, localNow) == table)
    && (forall claim, revoke, now :: FinishRefreshClaim(table, claim, revoke, now) == table)
  }

  /**
   * After a logout at any moment of any run, every later state of the row is closed, and remembers the
   * same revocation if no mark was stale.
   */
  lemma LogoutAlwaysWins(w: World, now: int, steps: seq<Step>, end: World)
    requires Valid(w) && w.row.Some? && Reaches(Next(w, Logout(now)), steps, end)
    ensures ClosedToUsers(end.row) && Revoked(end.row)
    ensures Undisturbed(Next(w, Logout(now)), steps) ==>
              RevokedSince(end.row, if w.row.value.revokedAt.Some? then w.row.value.revokedAt.value else now)
  {
    var v := Next(w, Logout(now));
    StepKeepsValid(w, Logout(now));
    RunStaysRevoked(v, steps, end);
    if Undisturbed(v, steps) {
      RunRemembers(v, steps, end, if w.row.value.revokedAt.Some? then w.row.value.revokedAt.value else now);
    }
  }

  // Outcomes ---------------------------------------------------------------

  /** Only the columns of the queue may differ. */
  predicate SettledAlike(a: Row, b: Row) {
    b == a.(revokedAt := b.revokedAt, pendingAt := b.pendingAt, nextAttemptAt := b.nextAttemptAt)
  }

  /** A step changes a settled row with nothing pending, other than by pruning it, if and only if it is a stale mark. */
  lemma SettledStepIsExact(w: World, step: Step)
    requires Valid(w) && Enabled(w, step) && w.row.Some? && Terminal(w.row.value) && Tidy(w.row)
    requires Next(w, step).row.Some?
    ensures Next(w, step).row == w.row <==> !Stale(w, step)
  {
    if step.MarkExpired? {
      assert RowShape(w.readings[step.k].read);
    }
  }

  /**
   * A confirmed or abandoned row keeps its outcome and its credentials until it is pruned, and then it is gone
   * for good. Without stale marks it never changes in any field.
   */
  lemma {:induction false} SettledIsFinal(w: World, steps: seq<Step>, end: World)
    requires Valid(w) && Reaches(w, steps, end)
    requires w.row.Some? ==> Terminal(w.row.value)
    ensures end.row.Some? ==> w.row.Some? && SettledAlike(w.row.value, end.row.value)
    ensures end.row.Some? && Undisturbed(w, steps) ==> end.row == w.row
    decreases |steps|
  {
    if steps != [] {
      StepKeepsValid(w, steps[0]);
      SettledIsFinal(Next(w, steps[0]), steps[1..], end);
    }
  }

  /** A step leaves something pending on a settled row if and only if it is the mark of a row that was settled since its reading. */
  lemma TidyStepIsExact(w: World, step: Step)
    requires Valid(w) && Enabled(w, step) && Tidy(w.row)
    ensures Tidy(Next(w, step).row) <==> !(Stale(w, step) && Terminal(w.row.value))
  {
    if step.MarkExpired? {
      MarkByIdUntidies(w.row, w.readings[step.k].read, w.readings[step.k].now);
    }
  }

  lemma {:induction false} RunStaysTidy(w: World, steps: seq<Step>, end: World)
    requires Valid(w) && Reaches(w, steps, end) && Undisturbed(w, steps) && Tidy(w.row)
    ensures Tidy(end.row)
    decreases |steps|
  {
    if steps != [] {
      StepKeepsValid(w, steps[0]);
      TidyStepIsExact(w, steps[0]);
      RunStaysTidy(Next(w, steps[0]), steps[1..], end);
    }
  }

  /** In every state of every run a settled row has one outcome, written by a claimant the upstream told so. */
  lemma OutcomesAreEarned(tokens: AuthTokens, session: Option<SessionId>, key: Key, expiresAt: int,
                          steps: seq<Step>, end: World)
    requires Reaches(SignIn(tokens, session, key, expiresAt), steps, end) && end.row.Some?
    ensures RowShape(end.row.value)
    ensures Undisturbed(SignIn(tokens, session, key, expiresAt), steps) ==>
              (end.row.value.pendingAt.Some? <==> end.row.value.revokedAt.Some? && !Terminal(end.row.value))
    ensures end.row.value.confirmedAt.Some? ==> exists j: nat :: IsAcknowledged(end, j)
    ensures end.row.value.abandonedAt.Some? ==>
              end.row.value.failure == Some(TokenDecryptionFailed) || exists j: nat :: IsRejected(end, j)
    ensures forall a :: a in end.attempts ==> a.refreshes <= 1 && a.signOuts <= 2
  {
    SignInIsValid(tokens, session, key, expiresAt);
    RunKeepsValid(SignIn(tokens, session, key, expiresAt), steps, end);
    if Undisturbed(SignIn(tokens, session, key, expiresAt), steps) {
      RunStaysTidy(SignIn(tokens, session, key, expiresAt), steps, end);
    }
    if end.row.value.abandonedAt.Some? {
      assert end.row.value.failure.value.CredentialsRejected? || end.row.value.failure.value.TokenDecryptionFailed?;
    }
  }

  // Fences -----------------------------------------------------------------

  predicate IsByAttempt(step: Step, j: nat) {
    match step
    case StoreRotation(k, _) => k == j
    case SignOutReply(k, _) => k == j
    case RotationReply(k, _) => k == j
    case Settle(k, _) => k == j
    case _ => false
  }

  predicate IsByRefresher(step: Step, i: nat) {
    match step
    case StoreRefresh(k, _, _) => k == i
    case DropRefresh(k, _) => k == i
    case RefreshReply(k, _) => k == i
    case _ => false
  }

  /** Once a newer claim was handed out, nothing an older attempt still does changes the row. */
  lemma SupersededAttemptIsInert(w: World, step: Step, j: nat)
    requires Valid(w) && Unsaturated(w) && Enabled(w, step)
    requires j < |w.attempts| - 1 && IsByAttempt(step, j)
    ensures Next(w, step).row == w.row
  {
    assert !OwnsAttempt(w.row, w.attempts[j].claim);
  }

  /** The same for a refresher whose lease ran out and was taken over. */
  lemma SupersededRefresherIsInert(w: World, step: Step, i: nat)
    requires Valid(w) && Enabled(w, step)
    requires i < |w.refreshers| - 1 && IsByRefresher(step, i)
    ensures Next(w, step).row == w.row
  {
    assert !OwnsLease(w.row, w.refreshers[i].claim);
  }

  /** Numbers stop growing at the top of a 32-bit integer; from there an overtaken claim passes its fence again. */
  lemma OvertakenClaimIsFencedBelowSaturation(row: Row, key: Key, now: int, later: int)
    requires RowShape(row)
    requires RevocationTurnOf(Some(row), key, now).Leased?
    requires RevocationTurnOf(ClaimRevocation(Some(row), key, now), key, later).Leased?
    ensures var first := RevocationTurnOf(Some(row), key, now).claim;
            var twice := ClaimRevocation(ClaimRevocation(Some(row), key, now), key, later);
            OwnsAttempt(twice, first) <==> row.attempts >= I32_MAX - 1
  {
  }

  // Credentials ------------------------------------------------------------

  predicate SameCredentials(a: Row, b: Row) {
    a.access == b.access && a.refresh == b.refresh && a.accessExpiresAt == b.accessExpiresAt
  }

  /** Credentials change together, by the answer to the very refresh token they replace, and only under a matching fence. */
  lemma CredentialsAreReplacedByTheirOwnAnswer(w: World, step: Step)
    requires Valid(w) && Unsaturated(w) && Enabled(w, step)
    requires w.row.Some? && Next(w, step).row.Some?
    requires !SameCredentials(w.row.value, Next(w, step).row.value)
    ensures exists tokens :: Answered(w.exchanges, w.row.value.refresh.token, tokens) && Stores(Next(w, step).row.value, tokens)
    ensures (step.StoreRefresh? && OwnsLease(w.row, w.refreshers[step.i].claim) && w.row.value.revokedAt.None?)
            || (step.StoreRotation? && OwnsAttempt(w.row, w.attempts[step.j].claim) && w.row.value.revokedAt.Some?)
  {
    match step
    case StoreRefresh(i, key, localNow) =>
      var r := w.refreshers[i];
      assert RefreshHeard(w.exchanges, r);
      assert i == |w.refreshers| - 1;
      assert Stores(Next(w, step).row.value, r.stage.verdict.tokens);
    case StoreRotation(j, key) =>
      var a := w.attempts[j];
      assert RotationHeard(w.exchanges, a) && AttemptShape(a);
      assert j == |w.attempts| - 1;
      assert Stores(Next(w, step).row.value, a.stage.tokens);
    case _ =>
  }

  lemma {:induction false} RunOnlyGrows(w: World, steps: seq<Step>, end: World)
    requires Reaches(w, steps, end)
    ensures w.chain <= end.chain && |w.attempts| <= |end.attempts|
    decreases |steps|
  {
    if steps != [] {
      RunOnlyGrows(Next(w, steps[0]), steps[1..], end);
    }
  }

  /** Every reachable row holds the end of an unbroken chain of rotations that starts at the sign-in. */
  lemma CredentialsHaveOneOrigin(tokens: AuthTokens, session: Option<SessionId>, key: Key, expiresAt: int,
                                 steps: seq<Step>, end: World)
    requires Reaches(SignIn(tokens, session, key, expiresAt), steps, end) && Unsaturated(end)
    ensures UnbrokenChain(end.chain, end.exchanges) && end.chain[0] == tokens
    ensures end.row.Some? ==> Stores(end.row.value, end.chain[|end.chain| - 1])
  {
    SignInIsValid(tokens, session, key, expiresAt);
    RunKeepsValid(SignIn(tokens, session, key, expiresAt), steps, end);
    RunOnlyGrows(SignIn(tokens, session, key, expiresAt), steps, end);
  }

  // Identity ---------------------------------------------------------------

  predicate SameIdentity(a: Row, b: Row) {
    a.user == b.user && (a.session.Some? ==> b.session == a.session)
  }

  lemma StepKeepsIdentity(w: World, step: Step)
    requires Valid(w) && Unsaturated(w) && Enabled(w, step)
    requires w.row.Some? && Next(w, step).row.Some?
    ensures SameIdentity(w.row.value, Next(w, step).row.value)
  {
    match step
    case StoreRefresh(i, _, _) =>
      assert RefreshHeard(w.exchanges, w.refreshers[i]);
    case StoreRotation(j, _) =>
      assert RotationHeard(w.exchanges, w.attempts[j]);
      assert OwnsAttempt(w.row, w.attempts[j].claim) ==> j == |w.attempts| - 1;
    case _ =>
  }

  /** The user never changes and the upstream session id never changes once it is known. */
  lemma {:induction false} IdentityIsFixed(w: World, steps: seq<Step>, end: World)
    requires Valid(w) && Reaches(w, steps, end) && Unsaturated(end)
    requires w.row.Some? && end.row.Some?
    ensures SameIdentity(w.row.value, end.row.value)
    decreases |steps|
  {
    if steps != [] {
      var v := Next(w, steps[0]);
      RunOnlyGrows(v, steps[1..], end);
      StepKeepsValid(w, steps[0]);
      if v.row.None? {
        SettledIsFinal(v, steps[1..], end);
        assert false;
      }
      StepKeepsIdentity(w, steps[0]);
      IdentityIsFixed(v, steps[1..], end);
    }
  }

  // Bearer tokens ----------------------------------------------------------

  /** A row is deleted only a week after it was settled and once the access token it stores has expired. */
  lemma PruningIsLate(w: World, step: Step)
    requires Valid(w) && Enabled(w, step) && w.row.Some? && Next(w, step).row.None?
    ensures step.Prune? && Terminal(w.row.value)
    ensures w.row.value.accessExpiresAt <= step.now
    ensures var settled := if w.row.value.confirmedAt.Some? then w.row.value.confirmedAt.value else w.row.value.abandonedAt.value;
            settled + 7 * 24 * 3600 <= step.now
  {
  }

  /** From logout until the row is pruned, every bearer token of the same upstream session is turned away. */
  lemma RevokedBearerIsRefused(w: World, now: int, steps: seq<Step>, end: World, session: SessionId)
    requires Valid(w) && w.row.Some? && w.row.value.session == Some(session)
    requires Reaches(Next(w, Logout(now)), steps, end) && Unsaturated(end) && end.row.Some?
    ensures RejectsBearer(end.row, w.row.value.user, session)
  {
    LogoutAlwaysWins(w, now, steps, end);
    StepKeepsValid(w, Logout(now));
    IdentityIsFixed(Next(w, Logout(now)), steps, end);
  }
}
