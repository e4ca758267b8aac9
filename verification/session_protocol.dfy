/**
 * One session row raced by any number of replicas. Every transaction is one step; what
 * happens between two transactions of the same process (the upstream call and the
 * decision on its reply) is a step that leaves the row alone. The upstream answers as it
 * likes, clocks say what they like, and a process that never steps again has crashed.
 * Reconciliation reads expired rows without a lock, so its read, its write and its pruning
 * are steps of their own.
 */
module SessionProtocol {
  import opened SyncTypes
  import opened SessionRow

  // A process that refreshes ----------------------------------------------

  datatype RefreshStage = Asking | Judged(verdict: RefreshVerdict) | Returned

  datatype Refresher = Refresher(claim: RefreshClaim, stage: RefreshStage)

  // A process that tries to sign a revoked session out ---------------------

  datatype Stage =
    | NeedRefresh
    | Persisting(tokens: AuthTokens, session: Option<SessionId>)
    | NeedSignOut
    | Confirming
    | Abandoning
    | Deferring
    | Finished

  /** `refreshes` and `signOuts` count upstream calls; the two flags say how the upstream ended the attempt. */
  datatype Attempt = Attempt(
    claim: RevocationClaim,
    stage: Stage,
    refreshed: bool,
    refreshes: nat,
    signOuts: nat,
    acknowledged: bool,
    rejected: bool)

  function Begin(claim: RevocationClaim, localNow: int): Attempt {
    Attempt(claim, if claim.accessExpiresAt <= localNow + EXPIRY_MARGIN then NeedRefresh else NeedSignOut,
            false, 0, 0, false, false)
  }

  function HearRefresh(a: Attempt, reply: Result<AuthTokens, AuthError>): Attempt {
    var b := a.(refreshes := a.refreshes + 1);
    match JudgeRotation(a.claim, reply)
    case Rotate(tokens, session) => b.(stage := Persisting(tokens, session))
    case Failed(InvalidCredentials) => b.(stage := Abandoning, rejected := true)
    case Failed(_) => b.(stage := Deferring)
  }

  function HearSignOut(a: Attempt, reply: Option<AuthError>): Attempt {
    var b := a.(signOuts := a.signOuts + 1);
    match reply
    case None => b.(stage := Confirming, acknowledged := true)
    case Some(error) => if error == InvalidCredentials && !a.refreshed then b.(stage := NeedRefresh)
                        else b.(stage := Deferring)
  }

  // The whole --------------------------------------------------------------

  /** A refresh token presented upstream, with the answer. */
  datatype Exchange = Exchange(presented: Token, reply: Result<AuthTokens, AuthError>)

  /** An expired row as reconciliation read it at `now`, and whether it was marked since. */
  datatype Reading = Reading(read: Row, now: int, done: bool)

  /** `exchanges` and `chain` record what was said upstream and which credentials the row has held, in order. */
  datatype World = World(
    row: Option<Row>,
    refreshers: seq<Refresher>,
    attempts: seq<Attempt>,
    exchanges: set<Exchange>,
    chain: seq<AuthTokens>,
    readings: seq<Reading>)

  function SignIn(tokens: AuthTokens, session: Option<SessionId>, key: Key, expiresAt: int): World {
    World(Some(NewRow(tokens, session, key, expiresAt)), [], [], {}, [tokens], [])
  }

  datatype Step =
    | ClaimLease(leaseId: LeaseId, key: Key, localNow: int, now: int)
    | RefreshReply(i: nat, reply: Result<AuthTokens, AuthError>)
    | StoreRefresh(i: nat, key: Key, localNow: int)
    | DropRefresh(i: nat, now: int)
    | Logout(now: int)
    | ClaimAttempt(key: Key, localNow: int, now: int)
    | RotationReply(j: nat, reply: Result<AuthTokens, AuthError>)
    | StoreRotation(j: nat, key: Key)
    | SignOutReply(j: nat, error: Option<AuthError>)
    | Settle(j: nat, now: int)
    | ReadExpired(now: int)
    | MarkExpired(k: nat)
    | Prune(now: int)

  /** Lease ids are fresh; everything else is only in the order the code takes it. */
  predicate Enabled(w: World, step: Step) {
    match step
    case ClaimLease(leaseId, _, _, _) => forall r :: r in w.refreshers ==> r.claim.leaseId != leaseId
    case RefreshReply(i, _) => i < |w.refreshers| && w.refreshers[i].stage.Asking?
    case StoreRefresh(i, _, _) =>
      i < |w.refreshers| && w.refreshers[i].stage.Judged? && w.refreshers[i].stage.verdict.Take?
    case DropRefresh(i, _) => i < |w.refreshers| && w.refreshers[i].stage.Judged?
    case RotationReply(j, _) => j < |w.attempts| && w.attempts[j].stage.NeedRefresh?
    case StoreRotation(j, _) => j < |w.attempts| && w.attempts[j].stage.Persisting?
    case SignOutReply(j, _) => j < |w.attempts| && w.attempts[j].stage.NeedSignOut?
    case Settle(j, _) =>
      j < |w.attempts| && (w.attempts[j].stage.Confirming? || w.attempts[j].stage.Abandoning? || w.attempts[j].stage.Deferring?)
    case Logout(_) => true
    case ClaimAttempt(_, _, _) => true
    case ReadExpired(_) => true
    case MarkExpired(k) => k < |w.readings| && !w.readings[k].done
    case Prune(_) => true
  }

  /** A good reply is persisted; one that cannot be used, or cannot be sealed, gives the claim up. */
  function GivesUpRevoking(verdict: RefreshVerdict): bool { verdict.GiveUp? && verdict.revoke }

  function Settled(table: Option<Row>, a: Attempt, now: int): Option<Row> {
    if a.stage.Confirming? then ConfirmRevocation(table, a.claim, now)
    else if a.stage.Abandoning? then AbandonRevocation(table, a.claim, CredentialsRejected, now)
    else DeferRevocation(table, a.claim, now)
  }

  function DoClaimLease(w: World, leaseId: LeaseId, key: Key, localNow: int, now: int): World {
    var turn := RefreshTurnOf(w.row, key, leaseId, localNow, now);
    if !turn.Claimed? then w
    else w.(row := ClaimRefresh(w.row, key, leaseId, localNow, now),
            refreshers := w.refreshers + [Refresher(turn.claim, Asking)])
  }

  function DoRefreshReply(w: World, i: nat, reply: Result<AuthTokens, AuthError>): World
    requires i < |w.refreshers|
  {
    var r := w.refreshers[i];
    w.(refreshers := w.refreshers[i := r.(stage := Judged(JudgeRefresh(r.claim, reply)))],
       exchanges := w.exchanges + {Exchange(r.claim.refresh, reply)})
  }

  function DoStoreRefresh(w: World, i: nat, key: Key, localNow: int): World
    requires i < |w.refreshers| && w.refreshers[i].stage.Judged? && w.refreshers[i].stage.verdict.Take?
  {
    var r := w.refreshers[i];
    var take := r.stage.verdict;
    w.(row := PersistRefresh(w.row, r.claim, take.tokens, take.session, key, localNow),
       refreshers := w.refreshers[i := r.(stage := Returned)],
       chain := if OwnsLease(w.row, r.claim) && ModelValid(w.row.value, localNow) then w.chain + [take.tokens] else w.chain)
  }

  function DoDropRefresh(w: World, i: nat, now: int): World
    requires i < |w.refreshers| && w.refreshers[i].stage.Judged?
  {
    var r := w.refreshers[i];
    w.(row := FinishRefreshClaim(w.row, r.claim, GivesUpRevoking(r.stage.verdict), now),
       refreshers := w.refreshers[i := r.(stage := Returned)])
  }

  function DoClaimAttempt(w: World, key: Key, localNow: int, now: int): World {
    var turn := RevocationTurnOf(w.row, key, now);
    w.(row := ClaimRevocation(w.row, key, now),
       attempts := if turn.Leased? then w.attempts + [Begin(turn.claim, localNow)] else w.attempts)
  }

  function DoRotationReply(w: World, j: nat, reply: Result<AuthTokens, AuthError>): World
    requires j < |w.attempts|
  {
    w.(attempts := w.attempts[j := HearRefresh(w.attempts[j], reply)],
       exchanges := w.exchanges + {Exchange(w.attempts[j].claim.refresh, reply)})
  }

  function DoStoreRotation(w: World, j: nat, key: Key): World
    requires j < |w.attempts| && w.attempts[j].stage.Persisting?
  {
    var a := w.attempts[j];
    var tokens, session := a.stage.tokens, a.stage.session;
    if OwnsAttempt(w.row, a.claim) then
      w.(row := PersistRotation(w.row, a.claim, tokens, session, key),
         attempts := w.attempts[j := a.(claim := Rotated(a.claim, tokens, session), stage := NeedSignOut, refreshed := true)],
         chain := w.chain + [tokens])
    else w.(attempts := w.attempts[j := a.(stage := Finished)])
  }

  function DoSignOutReply(w: World, j: nat, error: Option<AuthError>): World
    requires j < |w.attempts|
  {
    w.(attempts := w.attempts[j := HearSignOut(w.attempts[j], error)])
  }

  function DoSettle(w: World, j: nat, now: int): World
    requires j < |w.attempts|
  {
    w.(row := Settled(w.row, w.attempts[j], now), attempts := w.attempts[j := w.attempts[j].(stage := Finished)])
  }

  function DoReadExpired(w: World, now: int): World {
    if Expired(w.row, now) then w.(readings := w.readings + [Reading(w.row.value, now, false)]) else w
  }

  function DoMarkExpired(w: World, k: nat): World
    requires k < |w.readings|
  {
    var r := w.readings[k];
    w.(row := MarkById(w.row, r.read, r.now), readings := w.readings[k := r.(done := true)])
  }

  function Next(w: World, step: Step): World
    requires Enabled(w, step)
  {
    match step
    case ClaimLease(leaseId, key, localNow, now) => DoClaimLease(w, leaseId, key, localNow, now)
    case RefreshReply(i, reply) => DoRefreshReply(w, i, reply)
    case StoreRefresh(i, key, localNow) => DoStoreRefresh(w, i, key, localNow)
    case DropRefresh(i, now) => DoDropRefresh(w, i, now)
    case Logout(now) => w.(row := QueueRevocation(w.row, now))
    case ClaimAttempt(key, localNow, now) => DoClaimAttempt(w, key, localNow, now)
    case RotationReply(j, reply) => DoRotationReply(w, j, reply)
    case StoreRotation(j, key) => DoStoreRotation(w, j, key)
    case SignOutReply(j, error) => DoSignOutReply(w, j, error)
    case Settle(j, now) => DoSettle(w, j, now)
    case ReadExpired(now) => DoReadExpired(w, now)
    case MarkExpired(k) => DoMarkExpired(w, k)
    case Prune(now) => w.(row := PruneSettled(w.row, now))
  }

  /** A run starts at `w`, takes enabled steps only and ends at `end`. */
  predicate Reaches(w: World, steps: seq<Step>, end: World)
    decreases |steps|
  {
    if steps == [] then w == end
    else Enabled(w, steps[0]) && Reaches(Next(w, steps[0]), steps[1..], end)
  }

  /** Reconciliation marks a row that was revoked after it was read. */
  predicate Stale(w: World, step: Step) {
    step.MarkExpired? && w.row.Some? && w.row.value.revokedAt.Some?
  }

  /** No step of the run is stale. */
  predicate Undisturbed(w: World, steps: seq<Step>)
    decreases |steps|
  {
    steps == [] || (Enabled(w, steps[0]) && !Stale(w, steps[0]) && Undisturbed(Next(w, steps[0]), steps[1..]))
  }

  // The invariant ----------------------------------------------------------

  /** Attempt numbers saturate; until then no two attempts share one. */
  predicate Unsaturated(w: World) { |w.attempts| <= I32_MAX }

  predicate AttemptShape(a: Attempt) {
    && a.claim.attempts >= 1
    && a.refreshes <= 1 && a.signOuts <= 2
    && (a.stage.NeedRefresh? ==> !a.refreshed && a.refreshes == 0 && a.signOuts <= 1)
    && (a.stage.Persisting? ==> !a.refreshed && a.signOuts <= 1)
    && (a.stage.NeedSignOut? ==> a.signOuts == 0 || (a.refreshed && a.signOuts <= 1))
    && (a.stage.NeedSignOut? && !a.refreshed ==> a.refreshes == 0)
    && (a.acknowledged ==> a.stage.Confirming? || a.stage.Finished?)
    && (a.rejected ==> a.stage.Abandoning? || a.stage.Finished?)
    && (a.stage.Confirming? ==> a.acknowledged)
    && (a.stage.Abandoning? ==> a.rejected)
  }

  predicate AttemptsShape(w: World) {
    forall j :: 0 <= j < |w.attempts| ==> AttemptShape(w.attempts[j])
  }

  /** The row carries the lease of the newest refresher or none, and that refresher knows the row it will write to. */
  predicate Leases(w: World) {
    && (forall i, j :: 0 <= i < j < |w.refreshers| ==> w.refreshers[i].claim.leaseId != w.refreshers[j].claim.leaseId)
    && (w.row.Some? && w.row.value.leaseId.Some? ==>
          w.refreshers != [] && Holds(w.row.value, w.refreshers[|w.refreshers| - 1].claim))
  }

  predicate Holds(row: Row, claim: RefreshClaim) {
    && row.leaseId == Some(claim.leaseId)
    && row.refresh.token == claim.refresh
    && row.session == claim.session
    && row.user == claim.user
  }

  predicate HoldsAttempt(row: Row, claim: RevocationClaim) {
    && row.refresh.token == claim.refresh
    && row.session == claim.session
    && row.user == claim.user
  }

  /** Attempts are numbered in order, and the newest knows the row it will write to. */
  predicate Numbers(w: World) {
    Unsaturated(w) ==>
      && (forall j :: 0 <= j < |w.attempts| ==> w.attempts[j].claim.attempts == j + 1)
      && (w.row.Some? && !Terminal(w.row.value) ==>
            && w.row.value.attempts == |w.attempts|
            && (w.attempts != [] ==> HoldsAttempt(w.row.value, w.attempts[|w.attempts| - 1].claim))
            && (w.attempts != [] ==> Accepted(w.row.value.access.token, w.row.value.user, w.row.value.session)))
  }

  /** The token belongs to the user and to no other upstream session than this one. */
  predicate Accepted(access: Token, user: UserId, session: Option<SessionId>) {
    var observed := ValidatedSessionId(access, user);
    observed.Ok? && ResolveRotatedSessionId(session, observed.value).Ok?
  }

  predicate Answered(exchanges: set<Exchange>, presented: Token, tokens: AuthTokens) {
    Exchange(presented, Ok(tokens)) in exchanges
  }

  /** What a process is about to write is an answer it received to the token it claimed. */
  predicate Heard(w: World) {
    && (forall i :: 0 <= i < |w.refreshers| ==> RefreshHeard(w.exchanges, w.refreshers[i]))
    && (forall j :: 0 <= j < |w.attempts| ==> RotationHeard(w.exchanges, w.attempts[j]))
  }

  predicate RefreshHeard(exchanges: set<Exchange>, r: Refresher) {
    r.stage.Judged? && r.stage.verdict.Take? ==>
      && Answered(exchanges, r.claim.refresh, r.stage.verdict.tokens)
      && r.stage.verdict.tokens.user == r.claim.user
      && (r.claim.session.Some? ==> r.stage.verdict.session == r.claim.session)
  }

  predicate RotationHeard(exchanges: set<Exchange>, a: Attempt) {
    a.stage.Persisting? ==>
      && Answered(exchanges, a.claim.refresh, a.stage.tokens)
      && a.stage.tokens.user == a.claim.user
      && Accepted(a.stage.tokens.access, a.claim.user, a.stage.session)
      && (a.claim.session.Some? ==> a.stage.session == a.claim.session)
  }

  /** The row holds this pair of tokens and its expiry, sealed in one write. */
  predicate Stores(row: Row, tokens: AuthTokens) {
    && row.access.key == row.refresh.key
    && row.access.token == tokens.access
    && row.refresh.token == tokens.refresh
    && row.accessExpiresAt == tokens.expiresAt
    && row.user == tokens.user
  }

  /** Each pair of credentials is the upstream's answer to the refresh token before it. */
  predicate UnbrokenChain(chain: seq<AuthTokens>, exchanges: set<Exchange>) {
    && chain != []
    && forall k :: 0 <= k < |chain| - 1 ==> Answered(exchanges, chain[k].refresh, chain[k + 1])
  }

  predicate Credentials(w: World) {
    Unsaturated(w) ==>
      && UnbrokenChain(w.chain, w.exchanges)
      && (w.row.Some? ==> Stores(w.row.value, w.chain[|w.chain| - 1]))
  }

  predicate IsAcknowledged(w: World, j: nat) {
    w.row.Some? && j < |w.attempts| && w.attempts[j].acknowledged && w.attempts[j].claim.attempts == w.row.value.attempts
  }

  predicate IsRejected(w: World, j: nat) {
    w.row.Some? && j < |w.attempts| && w.attempts[j].rejected && w.attempts[j].claim.attempts == w.row.value.attempts
  }

  /** A settled row was settled by the upstream's word to the claimant whose number it carries. */
  ghost predicate Outcomes(w: World) {
    w.row.Some? ==>
      && (w.row.value.confirmedAt.Some? ==> exists j: nat :: IsAcknowledged(w, j))
      && (w.row.value.failure == Some(CredentialsRejected) ==> exists j: nat :: IsRejected(w, j))
  }

  /** What reconciliation read was not revoked. */
  predicate Readings(w: World) {
    forall k :: 0 <= k < |w.readings| ==> RowShape(w.readings[k].read) && w.readings[k].read.revokedAt.None?
  }

  ghost predicate Valid(w: World) {
    && TableShape(w.row) && AttemptsShape(w) && Leases(w) && Numbers(w) && Heard(w) && Credentials(w) && Outcomes(w)
    && Readings(w)
  }

  lemma SignInIsValid(tokens: AuthTokens, session: Option<SessionId>, key: Key, expiresAt: int)
    ensures Valid(SignIn(tokens, session, key, expiresAt))
  {
  }

  /** No step unsettles a row or forgets how an attempt ended. */
  lemma OutcomesCarry(w: World, v: World)
    requires Outcomes(w)
    requires v.row.Some? && (v.row.value.confirmedAt.Some? || v.row.value.failure == Some(CredentialsRejected)) ==>
               w.row.Some? && SameOutcome(w.row.value, v.row.value)
    requires |w.attempts| <= |v.attempts|
    requires forall j :: 0 <= j < |w.attempts| ==> Remembers(w.attempts[j], v.attempts[j])
    ensures Outcomes(v)
  {
    if v.row.Some? {
      if v.row.value.confirmedAt.Some? {
        var j: nat :| IsAcknowledged(w, j);
        assert IsAcknowledged(v, j);
      }
      if v.row.value.failure == Some(CredentialsRejected) {
        var j: nat :| IsRejected(w, j);
        assert IsRejected(v, j);
      }
    }
  }

  predicate SameOutcome(a: Row, b: Row) {
    a.attempts == b.attempts && a.confirmedAt == b.confirmedAt && a.abandonedAt == b.abandonedAt && a.failure == b.failure
  }

  predicate Remembers(a: Attempt, b: Attempt) {
    a.claim.attempts == b.claim.attempts && (a.acknowledged ==> b.acknowledged) && (a.rejected ==> b.rejected)
  }

  // Refresh steps keep it ---------------------------------------------------

  lemma ClaimLeaseKeeps(w: World, leaseId: LeaseId, key: Key, localNow: int, now: int)
    requires Valid(w) && Enabled(w, ClaimLease(leaseId, key, localNow, now))
    ensures Valid(DoClaimLease(w, leaseId, key, localNow, now))
  {
    OutcomesCarry(w, DoClaimLease(w, leaseId, key, localNow, now));
  }

  lemma RefreshReplyKeeps(w: World, i: nat, reply: Result<AuthTokens, AuthError>)
    requires Valid(w) && Enabled(w, RefreshReply(i, reply))
    ensures Valid(DoRefreshReply(w, i, reply))
  {
    OutcomesCarry(w, DoRefreshReply(w, i, reply));
  }

  lemma StoreRefreshKeeps(w: World, i: nat, key: Key, localNow: int)
    requires Valid(w) && Enabled(w, StoreRefresh(i, key, localNow))
    ensures Valid(DoStoreRefresh(w, i, key, localNow))
  {
    OutcomesCarry(w, DoStoreRefresh(w, i, key, localNow));
  }

  lemma DropRefreshKeeps(w: World, i: nat, now: int)
    requires Valid(w) && Enabled(w, DropRefresh(i, now))
    ensures Valid(DoDropRefresh(w, i, now))
  {
    OutcomesCarry(w, DoDropRefresh(w, i, now));
  }

  // Revocation steps keep it ------------------------------------------------

  lemma ClaimAttemptKeeps(w: World, key: Key, localNow: int, now: int)
    requires Valid(w)
    ensures Valid(DoClaimAttempt(w, key, localNow, now))
  {
    OutcomesCarry(w, DoClaimAttempt(w, key, localNow, now));
  }

  lemma RotationReplyKeeps(w: World, j: nat, reply: Result<AuthTokens, AuthError>)
    requires Valid(w) && Enabled(w, RotationReply(j, reply))
    ensures Valid(DoRotationReply(w, j, reply))
  {
    OutcomesCarry(w, DoRotationReply(w, j, reply));
  }

  lemma StoreRotationKeeps(w: World, j: nat, key: Key)
    requires Valid(w) && Enabled(w, StoreRotation(j, key))
    ensures Valid(DoStoreRotation(w, j, key))
  {
    if !OwnsAttempt(w.row, w.attempts[j].claim) {
      OutcomesCarry(w, DoStoreRotation(w, j, key));
    }
  }

  lemma SignOutReplyKeeps(w: World, j: nat, error: Option<AuthError>)
    requires Valid(w) && Enabled(w, SignOutReply(j, error))
    ensures Valid(DoSignOutReply(w, j, error))
  {
    OutcomesCarry(w, DoSignOutReply(w, j, error));
  }

  lemma SettleKeeps(w: World, j: nat, now: int)
    requires Valid(w) && Enabled(w, Settle(j, now))
    ensures Valid(DoSettle(w, j, now))
  {
    var v := DoSettle(w, j, now);
    if OwnsAttempt(w.row, w.attempts[j].claim) {
      assert w.attempts[j].acknowledged ==> IsAcknowledged(v, j);
      assert w.attempts[j].rejected ==> IsRejected(v, j);
    } else {
      OutcomesCarry(w, v);
    }
  }

  lemma RowStepKeeps(w: World, row: Option<Row>, now: int)
    requires Valid(w) && (row == QueueRevocation(w.row, now) || row == PruneSettled(w.row, now))
    ensures Valid(w.(row := row))
  {
    OutcomesCarry(w, w.(row := row));
  }

  lemma MarkExpiredKeeps(w: World, k: nat)
    requires Valid(w) && Enabled(w, MarkExpired(k))
    ensures Valid(DoMarkExpired(w, k))
  {
    assert RowShape(w.readings[k].read);
    OutcomesCarry(w, DoMarkExpired(w, k));
  }
}
