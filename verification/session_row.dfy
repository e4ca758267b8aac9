/**
 * One web session row and the transactions on it. Tokens are opaque; a stored token
 * opens only under the key it was sealed with. `now` is the database clock as the
 * transaction sees it and `localNow` the clock of the process; neither is assumed to
 * be monotone here.
 */
module SessionRow {
  import opened SyncTypes

  type UserId = nat
  type SessionId = nat
  type LeaseId = nat
  type Key = nat

  const REVOCATION_LEASE := 75
  const REVOCATION_RETENTION := 7 * 24 * 3600
  const REFRESH_LEASE := 30
  const FRESH_MARGIN := 60
  const EXPIRY_MARGIN := 5
  const I32_MAX := 0x7FFF_FFFF

  /** What the payload segment of a three-part access token says, if it has one. */
  datatype Claims = Opaque | Broken | Jwt(subject: UserId, session: Option<SessionId>)

  datatype Token = Token(secret: nat, claims: Claims)

  datatype Sealed = Sealed(key: Key, token: Token)

  datatype AuthError = InvalidCredentials | Unavailable | InvalidResponse

  datatype AuthTokens = AuthTokens(user: UserId, access: Token, refresh: Token, expiresAt: int)

  datatype FailureKind = CredentialsRejected | TokenDecryptionFailed

  datatype Row = Row(
    user: UserId,
    session: Option<SessionId>,
    access: Sealed,
    refresh: Sealed,
    accessExpiresAt: int,
    leaseId: Option<LeaseId>,
    leaseExpiresAt: Option<int>,
    expiresAt: int,
    revokedAt: Option<int>,
    pendingAt: Option<int>,
    nextAttemptAt: Option<int>,
    attempts: nat,
    confirmedAt: Option<int>,
    abandonedAt: Option<int>,
    failure: Option<FailureKind>)

  datatype RefreshClaim = RefreshClaim(leaseId: LeaseId, user: UserId, session: Option<SessionId>, refresh: Token)

  datatype RevocationClaim = RevocationClaim(
    access: Token,
    refresh: Token,
    accessExpiresAt: int,
    session: Option<SessionId>,
    attempts: nat,
    user: UserId)

  function Decrypt(key: Key, sealed: Sealed): Option<Token> {
    if sealed.key == key then Some(sealed.token) else None
  }

  function ValidatedSessionId(access: Token, user: UserId): Result<Option<SessionId>, AuthError> {
    match access.claims
    case Opaque => Ok(None)
    case Broken => Err(InvalidResponse)
    case Jwt(subject, session) => if subject == user && session.Some? then Ok(session) else Err(InvalidResponse)
  }

  function ResolveRotatedSessionId(stored: Option<SessionId>, observed: Option<SessionId>)
    : Result<Option<SessionId>, AuthError>
  {
    if stored.Some? && observed.Some? && stored != observed then Err(InvalidResponse)
    else if stored.Some? then Ok(stored)
    else Ok(observed)
  }

  function NewRow(tokens: AuthTokens, session: Option<SessionId>, key: Key, expiresAt: int): Row {
    Row(tokens.user, session, Sealed(key, tokens.access), Sealed(key, tokens.refresh), tokens.expiresAt,
        None, None, expiresAt, None, None, None, 0, None, None, None)
  }

  // Authentication ---------------------------------------------------------

  /** Neither revoked nor past its own expiry. */
  predicate ModelValid(row: Row, localNow: int) {
    row.revokedAt.None? && row.expiresAt > localNow
  }

  datatype AuthOutcome = Authenticated | NeedsRefresh | Unauthorized | UpstreamFailed | CryptoFailed

  function AuthenticateHash(table: Option<Row>, localNow: int): AuthOutcome {
    if table.None? || !ModelValid(table.value, localNow) then Unauthorized
    else if table.value.accessExpiresAt <= localNow + FRESH_MARGIN then NeedsRefresh
    else Authenticated
  }

  function OutcomeAfterLostRefresh(table: Option<Row>, localNow: int, now: int): AuthOutcome {
    if table.None? || !ModelValid(table.value, localNow) then Unauthorized
    else if table.value.leaseId.None? && table.value.accessExpiresAt > now then Authenticated
    else UpstreamFailed
  }

  /** A bearer token of this user and upstream session is turned away. */
  predicate RejectsBearer(table: Option<Row>, user: UserId, session: SessionId) {
    && table.Some? && table.value.user == user && table.value.session == Some(session)
    && table.value.revokedAt.Some?
  }

  // Refresh ----------------------------------------------------------------

  datatype RefreshTurn = Fresh | Claimed(claim: RefreshClaim) | Busy | Denied(outcome: AuthOutcome)

  predicate RefreshLeaseIsActive(row: Row, now: int) {
    row.leaseId.Some? && row.leaseExpiresAt.Some? && row.leaseExpiresAt.value > now
  }

  function RefreshTurnOf(table: Option<Row>, key: Key, leaseId: LeaseId, localNow: int, now: int): RefreshTurn {
    if table.None? || !ModelValid(table.value, localNow) then Denied(Unauthorized)
    else
      var row := table.value;
      if row.accessExpiresAt > now + FRESH_MARGIN then Fresh
      else if RefreshLeaseIsActive(row, now) then Busy
      else match Decrypt(key, row.refresh)
        case None => Denied(CryptoFailed)
        case Some(token) => Claimed(RefreshClaim(leaseId, row.user, row.session, token))
  }

  function ClaimRefresh(table: Option<Row>, key: Key, leaseId: LeaseId, localNow: int, now: int): Option<Row> {
    if RefreshTurnOf(table, key, leaseId, localNow, now).Claimed? then
      Some(table.value.(leaseId := Some(leaseId), leaseExpiresAt := Some(now + REFRESH_LEASE)))
    else table
  }

  function Unleased(row: Row): Row { row.(leaseId := None, leaseExpiresAt := None) }

  /** What a refresh reply is worth: new tokens, or a reason to clear the claim or to revoke. */
  datatype RefreshVerdict = Take(tokens: AuthTokens, session: Option<SessionId>) | GiveUp(revoke: bool)

  function JudgeRefresh(claim: RefreshClaim, reply: Result<AuthTokens, AuthError>): RefreshVerdict {
    match reply
    case Err(error) => GiveUp(error == InvalidCredentials)
    case Ok(tokens) =>
      if tokens.user != claim.user then GiveUp(true)
      else match ValidatedSessionId(tokens.access, tokens.user)
        case Err(_) => GiveUp(true)
        case Ok(observed) =>
          match ResolveRotatedSessionId(claim.session, observed)
          case Err(_) => GiveUp(true)
          case Ok(session) => Take(tokens, session)
  }

  /** The row still carries the claim's lease. */
  predicate OwnsLease(table: Option<Row>, claim: RefreshClaim) {
    table.Some? && table.value.leaseId == Some(claim.leaseId)
  }

  function WithTokens(row: Row, tokens: AuthTokens, session: Option<SessionId>, key: Key): Row {
    row.(session := session, access := Sealed(key, tokens.access), refresh := Sealed(key, tokens.refresh),
         accessExpiresAt := tokens.expiresAt)
  }

  function PersistRefresh(table: Option<Row>, claim: RefreshClaim, tokens: AuthTokens, session: Option<SessionId>,
                          key: Key, localNow: int): Option<Row>
  {
    if !OwnsLease(table, claim) then table
    else if !ModelValid(table.value, localNow) then Some(Unleased(table.value))
    else Some(Unleased(WithTokens(table.value, tokens, session, key)))
  }

  function FinishRefreshClaim(table: Option<Row>, claim: RefreshClaim, revoke: bool, now: int): Option<Row> {
    if !OwnsLease(table, claim) then table
    else if revoke then Some(MarkRevocation(table.value, now))
    else Some(Unleased(table.value))
  }

  // Revocation -------------------------------------------------------------

  predicate Terminal(row: Row) { row.confirmedAt.Some? || row.abandonedAt.Some? }

  /** Logout is decided locally: it clears a refresh lease and queues the upstream sign-out. */
  function MarkRevocation(row: Row, now: int): Row {
    if Terminal(row) then row
    else Unleased(row).(
      revokedAt := if row.revokedAt.Some? then row.revokedAt else Some(now),
      pendingAt := if row.pendingAt.Some? then row.pendingAt else Some(now),
      nextAttemptAt := if row.pendingAt.None? then Some(now) else row.nextAttemptAt)
  }

  function QueueRevocation(table: Option<Row>, now: int): Option<Row> {
    if table.None? then None else Some(MarkRevocation(table.value, now))
  }

  function NextAttempt(attempts: nat): nat { if attempts >= I32_MAX then I32_MAX else attempts + 1 }

  datatype RevocationTurn = NotDue | Undecryptable | Rejected(error: AuthError) | Leased(claim: RevocationClaim)

  function RevocationTurnOf(table: Option<Row>, key: Key, now: int): RevocationTurn {
    if table.None? then NotDue
    else
      var row := table.value;
      if row.revokedAt.None? || Terminal(row) || (row.nextAttemptAt.Some? && row.nextAttemptAt.value > now) then NotDue
      else if Decrypt(key, row.access).None? || Decrypt(key, row.refresh).None? then Undecryptable
      else match ValidatedSessionId(row.access.token, row.user)
        case Err(error) => Rejected(error)
        case Ok(observed) =>
          match ResolveRotatedSessionId(row.session, observed)
          case Err(error) => Rejected(error)
          case Ok(session) =>
            Leased(RevocationClaim(row.access.token, row.refresh.token, row.accessExpiresAt, session,
                                   NextAttempt(row.attempts), row.user))
  }

  function ClaimRevocation(table: Option<Row>, key: Key, now: int): Option<Row> {
    match RevocationTurnOf(table, key, now)
    case NotDue => table
    case Rejected(_) => table
    case Undecryptable =>
      Some(table.value.(attempts := NextAttempt(table.value.attempts), pendingAt := None, nextAttemptAt := None,
                        abandonedAt := Some(now), failure := Some(TokenDecryptionFailed)))
    case Leased(claim) =>
      Some(table.value.(session := claim.session, attempts := claim.attempts,
                        nextAttemptAt := Some(now + REVOCATION_LEASE)))
  }

  /** The fence of a revocation claim: the row is not settled and nobody has claimed it since. */
  predicate OwnsAttempt(table: Option<Row>, claim: RevocationClaim) {
    table.Some? && !Terminal(table.value) && table.value.attempts == claim.attempts
  }

  datatype RotationVerdict = Rotate(tokens: AuthTokens, session: Option<SessionId>) | Failed(error: AuthError)

  function JudgeRotation(claim: RevocationClaim, reply: Result<AuthTokens, AuthError>): RotationVerdict {
    match reply
    case Err(error) => Failed(error)
    case Ok(tokens) =>
      if tokens.user != claim.user then Failed(InvalidResponse)
      else match ValidatedSessionId(tokens.access, claim.user)
        case Err(error) => Failed(error)
        case Ok(observed) =>
          match ResolveRotatedSessionId(claim.session, observed)
          case Err(error) => Failed(error)
          case Ok(session) => Rotate(tokens, session)
  }

  function PersistRotation(table: Option<Row>, claim: RevocationClaim, tokens: AuthTokens,
                           session: Option<SessionId>, key: Key): Option<Row>
  {
    if !OwnsAttempt(table, claim) then table else Some(WithTokens(table.value, tokens, session, key))
  }

  function Rotated(claim: RevocationClaim, tokens: AuthTokens, session: Option<SessionId>): RevocationClaim {
    RevocationClaim(tokens.access, tokens.refresh, tokens.expiresAt, session, claim.attempts, claim.user)
  }

  function ConfirmRevocation(table: Option<Row>, claim: RevocationClaim, now: int): Option<Row> {
    if !OwnsAttempt(table, claim) then table
    else Some(table.value.(confirmedAt := Some(now), abandonedAt := None, failure := None, pendingAt := None,
                           nextAttemptAt := None))
  }

  function AbandonRevocation(table: Option<Row>, claim: RevocationClaim, kind: FailureKind, now: int): Option<Row> {
    if !OwnsAttempt(table, claim) then table
    else Some(table.value.(abandonedAt := Some(now), failure := Some(kind), pendingAt := None, nextAttemptAt := None))
  }

  function Pow2(n: nat): nat { if n == 0 then 1 else 2 * Pow2(n - 1) }

  function RevocationRetryDelay(attempts: nat): nat {
    var exponent := if attempts < 1 then 1 else if attempts > 10 then 10 else attempts;
    if Pow2(exponent) < 3600 then Pow2(exponent) else 3600
  }

  function DeferRevocation(table: Option<Row>, claim: RevocationClaim, now: int): Option<Row> {
    if !OwnsAttempt(table, claim) then table
    else Some(table.value.(pendingAt := if table.value.pendingAt.Some? then table.value.pendingAt else Some(now),
                           nextAttemptAt := Some(now + RevocationRetryDelay(claim.attempts))))
  }

  // Reconciliation ---------------------------------------------------------

  /** What reconciliation reads, without a lock, to mark it later in the same transaction. */
  predicate Expired(table: Option<Row>, now: int) {
    table.Some? && table.value.revokedAt.None? && table.value.expiresAt <= now
  }

  /**
   * The columns that marking sets are computed from the row that was read and written by id, over
   * whatever the row says by then. Under the row lock both are the same row.
   */
  function MarkById(table: Option<Row>, read: Row, now: int): Option<Row> {
    if table.None? || Terminal(read) then table
    else
      var marked := MarkRevocation(read, now);
      Some(Unleased(table.value).(revokedAt := marked.revokedAt, pendingAt := marked.pendingAt,
                                  nextAttemptAt := marked.nextAttemptAt))
  }

  predicate PastRetention(settledAt: Option<int>, row: Row, now: int) {
    settledAt.Some? && settledAt.value <= now - REVOCATION_RETENTION && row.accessExpiresAt <= now
  }

  function PruneSettled(table: Option<Row>, now: int): Option<Row> {
    if table.Some? && (PastRetention(table.value.confirmedAt, table.value, now)
                       || PastRetention(table.value.abandonedAt, table.value, now)) then None
    else table
  }

  // The shape of a row -----------------------------------------------------

  /** Outcomes exclude each other, and a row that is revoked and not settled is pending and due at some time. */
  predicate RowShape(row: Row) {
    && !(row.confirmedAt.Some? && row.abandonedAt.Some?)
    && (row.revokedAt.Some? && !Terminal(row) ==> row.pendingAt.Some?)
    && (row.pendingAt.Some? ==> row.revokedAt.Some?)
    && (row.nextAttemptAt.Some? <==> row.pendingAt.Some?)
    && (Terminal(row) ==> row.revokedAt.Some?)
    && (row.failure.Some? <==> row.abandonedAt.Some?)
    && (row.revokedAt.Some? ==> row.leaseId.None?)
    && (row.leaseId.Some? <==> row.leaseExpiresAt.Some?)
    && row.attempts <= I32_MAX
    && (row.revokedAt.None? ==> row.attempts == 0)
  }

  predicate TableShape(table: Option<Row>) { table.Some? ==> RowShape(table.value) }

  /** Nothing is pending on a settled row. */
  predicate Tidy(table: Option<Row>) { table.Some? && Terminal(table.value) ==> table.value.pendingAt.None? }

  /** The row is gone, or revoked without a refresh lease. */
  predicate Revoked(table: Option<Row>) {
    table.Some? ==> table.value.revokedAt.Some? && table.value.leaseId.None?
  }

  /** The row is gone, or still says when it was revoked and carries no refresh lease. */
  predicate RevokedSince(table: Option<Row>, at: int) {
    table.Some? ==> table.value.revokedAt == Some(at) && table.value.leaseId.None?
  }

  /**
   * Marking by id what was read unrevoked is marking the row itself, if and only if the row is still
   * unrevoked or already says exactly what the mark would.
   */
  lemma MarkByIdIsMarking(row: Row, read: Row, now: int)
    requires RowShape(row) && RowShape(read) && read.revokedAt.None?
    ensures MarkById(Some(row), read, now) == Some(MarkRevocation(row, now)) <==>
              row.revokedAt.None? || row.revokedAt == row.pendingAt == row.nextAttemptAt == Some(now)
  {
    if row.revokedAt.None? {
      assert !Terminal(row);
    }
  }

  /** It leaves something pending on a settled row if and only if the row was settled since it was read. */
  lemma MarkByIdUntidies(table: Option<Row>, read: Row, now: int)
    requires TableShape(table) && RowShape(read) && read.revokedAt.None?
    ensures TableShape(MarkById(table, read, now))
    ensures Tidy(MarkById(table, read, now)) <==> table.None? || !Terminal(table.value)
  {
  }

  /** Delays begin at two seconds, double with each attempt, and end at 1024 seconds. */
  lemma RetryDelayDoubles(attempts: nat)
    ensures attempts <= 1 ==> RevocationRetryDelay(attempts) == 2
    ensures 1 <= attempts < 10 ==> RevocationRetryDelay(attempts + 1) == 2 * RevocationRetryDelay(attempts)
    ensures attempts >= 10 ==> RevocationRetryDelay(attempts) == 1024
    ensures 2 <= RevocationRetryDelay(attempts) <= 1024
  {
    assert Pow2(1) == 2 && Pow2(2) == 4 && Pow2(3) == 8 && Pow2(4) == 16 && Pow2(5) == 32;
    assert Pow2(6) == 64 && Pow2(7) == 128 && Pow2(8) == 256 && Pow2(9) == 512 && Pow2(10) == 1024;
  }
}
