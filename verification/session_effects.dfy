/**
 * What each step of a session does to the fields of its row, and when: who is let in, which upstream answers
 * log a user out, and how an attempt to sign out ends. Between the steps of one process others may do anything
 * that leaves it its claim.
 */
module SessionEffects {
  import opened SyncTypes
  import opened SessionRow
  import opened SessionProtocol

  // Who is let in ----------------------------------------------------------

  /** There is a row that is neither revoked nor past its own expiry. */
  predicate IsOpen(table: Option<Row>, localNow: int) {
    table.Some? && table.value.revokedAt.None? && localNow < table.value.expiresAt
  }

  /** Somebody is refreshing the row, and not for too long. */
  predicate IsRefreshing(row: Row, now: int) {
    row.leaseId.Some? && row.leaseExpiresAt.Some? && now < row.leaseExpiresAt.value
  }

  /** A session is let in exactly while it is open, with an access token that lasts another minute, and refreshed otherwise. */
  lemma AccessIsExact(table: Option<Row>, localNow: int, now: int)
    ensures var outcome := AuthenticateHash(table, localNow);
            && (outcome == Unauthorized <==> !IsOpen(table, localNow))
            && (outcome == Authenticated <==> IsOpen(table, localNow) && localNow + 60 < table.value.accessExpiresAt)
            && (outcome == NeedsRefresh <==> IsOpen(table, localNow) && table.value.accessExpiresAt <= localNow + 60)
    ensures var outcome := OutcomeAfterLostRefresh(table, localNow, now);
            && (outcome == Unauthorized <==> !IsOpen(table, localNow))
            && (outcome == Authenticated <==>
                  IsOpen(table, localNow) && table.value.leaseId.None? && now < table.value.accessExpiresAt)
            && (outcome == UpstreamFailed <==>
                  IsOpen(table, localNow) && (table.value.leaseId.Some? || table.value.accessExpiresAt <= now))
  {
  }

  /** A refresh is granted exactly on an open session whose token ends within a minute, that nobody is refreshing, with its key. */
  lemma RefreshTurnIsExact(table: Option<Row>, key: Key, leaseId: LeaseId, localNow: int, now: int)
    ensures var turn := RefreshTurnOf(table, key, leaseId, localNow, now);
            && (turn == Denied(Unauthorized) <==> !IsOpen(table, localNow))
            && (turn == Fresh <==> IsOpen(table, localNow) && now + 60 < table.value.accessExpiresAt)
            && (turn == Busy <==>
                  IsOpen(table, localNow) && table.value.accessExpiresAt <= now + 60 && IsRefreshing(table.value, now))
            && (turn.Claimed? <==>
                  IsOpen(table, localNow) && table.value.accessExpiresAt <= now + 60 && !IsRefreshing(table.value, now)
                  && table.value.refresh.key == key)
            && (turn.Claimed? ==>
                  turn.claim == RefreshClaim(leaseId, table.value.user, table.value.session, table.value.refresh.token))
            && (turn.Denied? ==> turn.outcome == Unauthorized || turn.outcome == CryptoFailed)
    ensures ClaimRefresh(table, key, leaseId, localNow, now) ==
              if RefreshTurnOf(table, key, leaseId, localNow, now).Claimed? then
                Some(table.value.(leaseId := Some(leaseId), leaseExpiresAt := Some(now + 30)))
              else table
  {
  }

  /** A granted refresh is a refresher that asks the upstream; any other turn changes nothing. */
  lemma LeaseStepIsExact(w: World, leaseId: LeaseId, key: Key, localNow: int, now: int)
    requires Enabled(w, ClaimLease(leaseId, key, localNow, now))
    ensures var turn := RefreshTurnOf(w.row, key, leaseId, localNow, now);
            Next(w, ClaimLease(leaseId, key, localNow, now)) ==
              if turn.Claimed? then
                w.(row := ClaimRefresh(w.row, key, leaseId, localNow, now), refreshers := w.refreshers + [Refresher(turn.claim, Asking)])
              else w
  {
  }

  /** A bearer is turned away exactly by a revoked row of its user and upstream session. */
  lemma BearerIsExact(table: Option<Row>, user: UserId, session: SessionId)
    ensures RejectsBearer(table, user, session) <==>
              table.Some? && table.value.revokedAt.Some? && (table.value.user, table.value.session) == (user, Some(session))
  {
  }

  // A refresh --------------------------------------------------------------

  /** New tokens for this user and upstream session: an opaque access token, or one that names both. */
  predicate Agrees(user: UserId, session: Option<SessionId>, tokens: AuthTokens) {
    && tokens.user == user
    && (|| tokens.access.claims == Opaque
        || (&& tokens.access.claims.Jwt? && tokens.access.claims.subject == user && tokens.access.claims.session.Some?
            && (session.Some? ==> tokens.access.claims.session == session)))
  }

  /** The upstream session that such tokens belong to. */
  function AgreedSession(session: Option<SessionId>, access: Token): Option<SessionId> {
    if session.Some? then session else if access.claims.Jwt? then access.claims.session else None
  }

  function WithoutLease(row: Row): Row { row.(leaseId := None, leaseExpiresAt := None) }

  function LoggedOut(row: Row, now: int): Row {
    WithoutLease(row).(revokedAt := Some(now), pendingAt := Some(now), nextAttemptAt := Some(now))
  }

  function Holding(row: Row, tokens: AuthTokens, session: Option<SessionId>, key: Key): Row {
    row.(session := session, access := Sealed(key, tokens.access), refresh := Sealed(key, tokens.refresh),
         accessExpiresAt := tokens.expiresAt)
  }

  /** The refresher has not stepped since, and its lease is on the row. */
  predicate StillRefreshing(w: World, i: nat, reply: Result<AuthTokens, AuthError>, v: World)
    requires Enabled(w, RefreshReply(i, reply))
  {
    && i < |v.refreshers| && v.refreshers[i] == Next(w, RefreshReply(i, reply)).refreshers[i]
    && v.row.Some? && v.row.value.leaseId == Some(w.refreshers[i].claim.leaseId)
  }

  /** A refresh that fails logs the user out if and only if the upstream refused the credentials; an outage only ends the lease. */
  lemma RefreshFailureIsExact(w: World, i: nat, error: AuthError, v: World, now: int)
    requires Enabled(w, RefreshReply(i, Err(error))) && StillRefreshing(w, i, Err(error), v) && TableShape(v.row)
    ensures Enabled(v, DropRefresh(i, now)) && forall key, localNow :: !Enabled(v, StoreRefresh(i, key, localNow))
    ensures Next(v, DropRefresh(i, now)).row ==
              Some(if error == InvalidCredentials then LoggedOut(v.row.value, now) else WithoutLease(v.row.value))
  {
  }

  /**
   * New tokens are taken if and only if they agree with user and session, and then they are stored if and only if the
   * session is still open. Tokens that do not agree log the user out.
   */
  lemma RefreshAnswerIsExact(w: World, i: nat, tokens: AuthTokens, v: World, key: Key, localNow: int, now: int)
    requires Enabled(w, RefreshReply(i, Ok(tokens))) && StillRefreshing(w, i, Ok(tokens), v) && TableShape(v.row)
    ensures var claim := w.refreshers[i].claim;
            && (Enabled(v, StoreRefresh(i, key, localNow)) <==> Agrees(claim.user, claim.session, tokens))
            && (Agrees(claim.user, claim.session, tokens) ==>
                  && Next(v, StoreRefresh(i, key, localNow)).row ==
                       Some(if localNow < v.row.value.expiresAt
                            then WithoutLease(Holding(v.row.value, tokens, AgreedSession(claim.session, tokens.access), key))
                            else WithoutLease(v.row.value))
                  && Next(v, DropRefresh(i, now)).row == Some(WithoutLease(v.row.value)))
            && (!Agrees(claim.user, claim.session, tokens) ==>
                  Next(v, DropRefresh(i, now)).row == Some(LoggedOut(v.row.value, now)))
  {
  }

  // Logout and expiry ------------------------------------------------------

  /** A logout revokes an open row and makes it due at once; on a revoked one it changes nothing, on none neither. */
  lemma LogoutIsExact(w: World, now: int)
    requires TableShape(w.row)
    ensures Next(w, Logout(now)) ==
              w.(row := if w.row.Some? && w.row.value.revokedAt.None? then Some(LoggedOut(w.row.value, now))
                        else if w.row.Some? && w.row.value.confirmedAt.None? && w.row.value.abandonedAt.None?
                        then Some(WithoutLease(w.row.value)) else w.row)
  {
  }

  /** Reconciliation logs out exactly the sessions that were open past their expiry when it read them. */
  lemma ExpiryIsExact(w: World, now: int, v: World)
    ensures var read := Next(w, ReadExpired(now));
            && read == w.(readings := read.readings)
            && (w.row.Some? && w.row.value.revokedAt.None? && w.row.value.expiresAt <= now ==>
                  read.readings == w.readings + [Reading(w.row.value, now, false)])
            && (w.row.None? || w.row.value.revokedAt.Some? || now < w.row.value.expiresAt ==> read == w)
    ensures forall k: nat | k < |v.readings| && Readings(v) && !v.readings[k].done && v.row.Some? && v.row.value.revokedAt.None? ::
              && Enabled(v, MarkExpired(k)) && Next(v, MarkExpired(k)).row == Some(LoggedOut(v.row.value, v.readings[k].now))
              && !Enabled(Next(v, MarkExpired(k)), MarkExpired(k))
  {
  }

  /** A row is deleted exactly a week after it was settled, once its access token has expired. */
  lemma PruningIsExact(w: World, now: int)
    ensures var t := Next(w, Prune(now));
            var week := 7 * 24 * 3600;
            && (t.row.None? <==>
                  w.row.None?
                  || (w.row.value.accessExpiresAt <= now
                      && ((w.row.value.confirmedAt.Some? && w.row.value.confirmedAt.value + week <= now)
                          || (w.row.value.abandonedAt.Some? && w.row.value.abandonedAt.value + week <= now))))
            && (t.row.Some? ==> t == w)
  {
  }

  // Signing out ------------------------------------------------------------

  predicate IsSettled(row: Row) { row.confirmedAt.Some? || row.abandonedAt.Some? }

  /** Revoked, not settled, and not to wait. */
  predicate IsDue(table: Option<Row>, now: int) {
    && table.Some? && table.value.revokedAt.Some? && !IsSettled(table.value)
    && (table.value.nextAttemptAt.Some? ==> table.value.nextAttemptAt.value <= now)
  }

  function Numbered(row: Row): nat { if row.attempts < 0x7FFF_FFFF then row.attempts + 1 else 0x7FFF_FFFF }

  /**
   * A row is handed out exactly if it is due, opens under the key and has an access token of its user and session: for 75
   * seconds, under the next number, to be refreshed first if its token ends within five seconds. One that does not open
   * is abandoned.
   */
  lemma ClaimIsExact(w: World, key: Key, localNow: int, now: int)
    requires TableShape(w.row)
    ensures var t := Next(w, ClaimAttempt(key, localNow, now));
            && t == w.(row := t.row, attempts := t.attempts)
            && (!IsDue(w.row, now) ==> t == w)
            && (IsDue(w.row, now) ==>
                  var row := w.row.value;
                  if row.access.key != key || row.refresh.key != key then
                    && t.attempts == w.attempts
                    && t.row == Some(row.(attempts := Numbered(row), pendingAt := None, nextAttemptAt := None,
                                          abandonedAt := Some(now), failure := Some(TokenDecryptionFailed)))
                  else if !Agrees(row.user, row.session, AuthTokens(row.user, row.access.token, row.refresh.token, row.accessExpiresAt)) then
                    t == w
                  else
                    var session := AgreedSession(row.session, row.access.token);
                    var claim := RevocationClaim(row.access.token, row.refresh.token, row.accessExpiresAt, session,
                                                 Numbered(row), row.user);
                    && t.row == Some(row.(session := session, attempts := Numbered(row), nextAttemptAt := Some(now + 75)))
                    && t.attempts == w.attempts + [Attempt(claim, if row.accessExpiresAt <= localNow + 5 then NeedRefresh
                                                                  else NeedSignOut, false, 0, 0, false, false)])
  {
  }

  /** The attempt's number is on the row, which is not settled. */
  predicate OwnsRow(table: Option<Row>, number: nat) {
    table.Some? && !IsSettled(table.value) && table.value.attempts == number
  }

  datatype Ending = Confirmed | Abandoned | PutOff

  /** How an attempt leaves the row: signed out, given up, or due again after the delay of its number. */
  function Ended(row: Row, ending: Ending, now: int): Row {
    match ending
    case Confirmed => row.(confirmedAt := Some(now), pendingAt := None, nextAttemptAt := None)
    case Abandoned =>
      row.(abandonedAt := Some(now), failure := Some(CredentialsRejected), pendingAt := None, nextAttemptAt := None)
    case PutOff =>
      row.(pendingAt := if row.pendingAt.Some? then row.pendingAt else Some(now),
           nextAttemptAt := Some(now + RevocationRetryDelay(row.attempts)))
  }

  /** The attempt has not stepped since `t`. */
  predicate SameAttempt(t: World, j: nat, v: World) {
    j < |t.attempts| && j < |v.attempts| && v.attempts[j] == t.attempts[j]
  }

  /** What the attempt writes when it settles, if the row is still its own. */
  predicate SettlesAs(v: World, j: nat, now: int, ending: Ending) {
    && Enabled(v, Settle(j, now))
    && Next(v, Settle(j, now)).row == (if OwnsRow(v.row, v.attempts[j].claim.attempts) then Some(Ended(v.row.value, ending, now)) else v.row)
    && Next(v, Settle(j, now)).attempts == v.attempts[j := v.attempts[j].(stage := Finished)]
  }

  /**
   * An attempt whose refresh fails abandons the row if and only if the upstream refused the credentials; after any
   * other error it puts the row off for the delay of its number.
   */
  lemma RotationFailureIsExact(w: World, j: nat, error: AuthError, v: World, now: int)
    requires Enabled(w, RotationReply(j, Err(error))) && SameAttempt(Next(w, RotationReply(j, Err(error))), j, v)
    ensures SettlesAs(v, j, now, if error == InvalidCredentials then Abandoned else PutOff)
  {
  }

  /** New tokens are stored, and used to sign out, if and only if they agree with user and session; others put the row off. */
  lemma RotationAnswerIsExact(w: World, j: nat, tokens: AuthTokens, v: World, key: Key, now: int)
    requires Enabled(w, RotationReply(j, Ok(tokens))) && SameAttempt(Next(w, RotationReply(j, Ok(tokens))), j, v)
    ensures var claim := w.attempts[j].claim;
            if Agrees(claim.user, claim.session, tokens) then
              var session := AgreedSession(claim.session, tokens.access);
              && Enabled(v, StoreRotation(j, key))
              && var t := Next(v, StoreRotation(j, key));
                 if OwnsRow(v.row, claim.attempts) then
                   && t.row == Some(Holding(v.row.value, tokens, session, key))
                   && t.attempts[j].stage == NeedSignOut && t.attempts[j].refreshed
                   && t.attempts[j].claim == RevocationClaim(tokens.access, tokens.refresh, tokens.expiresAt, session,
                                                             claim.attempts, claim.user)
                 else t.row == v.row && t.attempts[j].stage == Finished
            else SettlesAs(v, j, now, PutOff)
  {
  }

  /** Only the upstream's acknowledgement confirms; credentials refused for the first time are refreshed, anything else puts the row off. */
  lemma SignOutReplyIsExact(w: World, j: nat, error: Option<AuthError>, v: World, now: int)
    requires Enabled(w, SignOutReply(j, error)) && SameAttempt(Next(w, SignOutReply(j, error)), j, v) && TableShape(v.row)
    ensures if error.None? then
              SettlesAs(v, j, now, Confirmed)
            else if error == Some(InvalidCredentials) && !w.attempts[j].refreshed then
              !Enabled(v, Settle(j, now)) && forall reply :: Enabled(v, RotationReply(j, reply))
            else SettlesAs(v, j, now, PutOff)
  {
  }
}
