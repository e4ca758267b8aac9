/** The row as it is updated in place, one method for each transaction. */
module SessionStoreClass {
  import opened SyncTypes
  import opened SessionRow

  class SessionStore {
    var row: Option<Row>

    ghost predicate Valid()
      reads this
    {
      TableShape(row)
    }

    constructor (tokens: AuthTokens, session: Option<SessionId>, key: Key, expiresAt: int)
      ensures Valid() && row == Some(NewRow(tokens, session, key, expiresAt))
    {
      row := Some(NewRow(tokens, session, key, expiresAt));
    }

    /** `model` is the row as the caller read it; the update by id fails when there is no row any more. */
    method Mark(model: Row, now: int) returns (done: bool)
      requires Valid() && RowShape(model) && (row == Some(model) || model.revokedAt.None?)
      modifies this
      ensures Valid() && row == MarkById(old(row), model, now)
      ensures done <==> Terminal(model) || old(row).Some?
      ensures old(row) == Some(model) ==> row == Some(MarkRevocation(model, now))
    {
      if model.confirmedAt.Some? || model.abandonedAt.Some? {
        return true;
      }
      var revokedAt := if model.revokedAt.Some? then model.revokedAt else Some(now);
      var pendingAt := if model.pendingAt.Some? then model.pendingAt else Some(now);
      var nextAttemptAt := if model.pendingAt.None? then Some(now) else model.nextAttemptAt;
      if row.None? {
        return false;
      }
      row := Some(row.value.(revokedAt := revokedAt, pendingAt := pendingAt, nextAttemptAt := nextAttemptAt,
                             leaseId := None, leaseExpiresAt := None));
      return true;
    }

    method Queue(now: int)
      requires Valid()
      modifies this
      ensures Valid() && row == QueueRevocation(old(row), now)
    {
      if row.None? {
        return;
      }
      var _ := Mark(row.value, now);
    }

    method Claim(key: Key, leaseId: LeaseId, localNow: int, now: int) returns (turn: RefreshTurn)
      requires Valid()
      modifies this
      ensures Valid()
      ensures turn == RefreshTurnOf(old(row), key, leaseId, localNow, now)
      ensures row == ClaimRefresh(old(row), key, leaseId, localNow, now)
    {
      if row.None? || row.value.revokedAt.Some? || row.value.expiresAt <= localNow {
        return Denied(Unauthorized);
      }
      var model := row.value;
      if model.accessExpiresAt > now + FRESH_MARGIN {
        return Fresh;
      }
      if RefreshLeaseIsActive(model, now) {
        return Busy;
      }
      var token := Decrypt(key, model.refresh);
      if token.None? {
        return Denied(CryptoFailed);
      }
      row := Some(model.(leaseId := Some(leaseId), leaseExpiresAt := Some(now + REFRESH_LEASE)));
      return Claimed(RefreshClaim(leaseId, model.user, model.session, token.value));
    }

    /** The transaction that takes a good reply; the answer is what the caller returns unless it lost its claim. */
    method Persist(claim: RefreshClaim, tokens: AuthTokens, session: Option<SessionId>, key: Key, localNow: int)
      returns (outcome: Option<AuthOutcome>)
      requires Valid()
      modifies this
      ensures Valid()
      ensures row == PersistRefresh(old(row), claim, tokens, session, key, localNow)
      ensures outcome == Some(Authenticated) <==> OwnsLease(old(row), claim) && ModelValid(old(row).value, localNow)
      ensures outcome.None? <==> old(row).Some? && !OwnsLease(old(row), claim)
      ensures outcome.Some? && outcome != Some(Authenticated) ==> outcome == Some(Unauthorized)
    {
      if row.None? {
        return Some(Unauthorized);
      }
      var model := row.value;
      if model.leaseId != Some(claim.leaseId) {
        return None;
      }
      if model.revokedAt.Some? || model.expiresAt <= localNow {
        row := Some(model.(leaseId := None, leaseExpiresAt := None));
        return Some(Unauthorized);
      }
      row := Some(model.(session := session, access := Sealed(key, tokens.access), refresh := Sealed(key, tokens.refresh),
                         accessExpiresAt := tokens.expiresAt, leaseId := None, leaseExpiresAt := None));
      return Some(Authenticated);
    }

    method Finish(claim: RefreshClaim, revoke: bool, now: int) returns (owned: bool)
      requires Valid()
      modifies this
      ensures Valid()
      ensures owned == OwnsLease(old(row), claim)
      ensures row == FinishRefreshClaim(old(row), claim, revoke, now)
    {
      if row.None? {
        return false;
      }
      var model := row.value;
      if model.leaseId != Some(claim.leaseId) {
        return false;
      }
      if revoke {
        var _ := Mark(model, now);
      } else {
        row := Some(model.(leaseId := None, leaseExpiresAt := None));
      }
      return true;
    }

    method ClaimForRevocation(key: Key, now: int) returns (turn: RevocationTurn)
      requires Valid()
      modifies this
      ensures Valid()
      ensures turn == RevocationTurnOf(old(row), key, now)
      ensures row == ClaimRevocation(old(row), key, now)
    {
      if row.None? {
        return NotDue;
      }
      var model := row.value;
      if model.revokedAt.None? || model.confirmedAt.Some? || model.abandonedAt.Some?
         || (model.nextAttemptAt.Some? && model.nextAttemptAt.value > now) {
        return NotDue;
      }
      var access, refresh := Decrypt(key, model.access), Decrypt(key, model.refresh);
      var attempts := NextAttempt(model.attempts);
      if access.None? || refresh.None? {
        row := Some(model.(attempts := attempts, pendingAt := None, nextAttemptAt := None, abandonedAt := Some(now),
                           failure := Some(TokenDecryptionFailed)));
        return Undecryptable;
      }
      var observed := ValidatedSessionId(access.value, model.user);
      if observed.Err? {
        return Rejected(observed.error);
      }
      var session := ResolveRotatedSessionId(model.session, observed.value);
      if session.Err? {
        return Rejected(session.error);
      }
      row := Some(model.(session := session.value, attempts := attempts, nextAttemptAt := Some(now + REVOCATION_LEASE)));
      return Leased(RevocationClaim(access.value, refresh.value, model.accessExpiresAt, session.value, attempts, model.user));
    }

    method Rotate(claim: RevocationClaim, tokens: AuthTokens, session: Option<SessionId>, key: Key)
      returns (rotated: Option<RevocationClaim>)
      requires Valid()
      modifies this
      ensures Valid()
      ensures row == PersistRotation(old(row), claim, tokens, session, key)
      ensures rotated == if OwnsAttempt(old(row), claim) then Some(Rotated(claim, tokens, session)) else None
    {
      if row.None? {
        return None;
      }
      var model := row.value;
      if model.confirmedAt.Some? || model.abandonedAt.Some? || model.attempts != claim.attempts {
        return None;
      }
      row := Some(model.(session := session, access := Sealed(key, tokens.access), refresh := Sealed(key, tokens.refresh),
                         accessExpiresAt := tokens.expiresAt));
      return Some(RevocationClaim(tokens.access, tokens.refresh, tokens.expiresAt, session, claim.attempts, claim.user));
    }

    method Confirm(claim: RevocationClaim, now: int)
      requires Valid() && claim.attempts >= 1
      modifies this
      ensures Valid() && row == ConfirmRevocation(old(row), claim, now)
    {
      if row.None? {
        return;
      }
      var model := row.value;
      if model.confirmedAt.Some? || model.abandonedAt.Some? || model.attempts != claim.attempts {
        return;
      }
      row := Some(model.(confirmedAt := Some(now), abandonedAt := None, failure := None, pendingAt := None,
                         nextAttemptAt := None));
    }

    method Abandon(claim: RevocationClaim, kind: FailureKind, now: int)
      requires Valid() && claim.attempts >= 1
      modifies this
      ensures Valid() && row == AbandonRevocation(old(row), claim, kind, now)
    {
      if row.None? {
        return;
      }
      var model := row.value;
      if model.confirmedAt.Some? || model.abandonedAt.Some? || model.attempts != claim.attempts {
        return;
      }
      row := Some(model.(abandonedAt := Some(now), failure := Some(kind), pendingAt := None, nextAttemptAt := None));
    }

    method Defer(claim: RevocationClaim, now: int)
      requires Valid() && claim.attempts >= 1
      modifies this
      ensures Valid() && row == DeferRevocation(old(row), claim, now)
    {
      if row.None? {
        return;
      }
      var model := row.value;
      if model.confirmedAt.Some? || model.abandonedAt.Some? || model.attempts != claim.attempts {
        return;
      }
      var pendingAt := if model.pendingAt.Some? then model.pendingAt else Some(now);
      row := Some(model.(pendingAt := pendingAt, nextAttemptAt := Some(now + RevocationRetryDelay(claim.attempts))));
    }

    /** The first query of reconciliation takes no lock, so the row may be another by the time it is marked. */
    method ReadExpired(now: int) returns (read: Option<Row>)
      ensures read == if Expired(row, now) then row else None
    {
      if row.Some? && row.value.revokedAt.None? && row.value.expiresAt <= now {
        return row;
      }
      return None;
    }

    method Prune(now: int)
      requires Valid()
      modifies this
      ensures Valid() && row == PruneSettled(old(row), now)
    {
      if row.None? {
        return;
      }
      var cutoff := now - REVOCATION_RETENTION;
      var model := row.value;
      if model.confirmedAt.Some? && model.confirmedAt.value <= cutoff && model.accessExpiresAt <= now {
        row := None;
      } else if model.abandonedAt.Some? && model.abandonedAt.value <= cutoff && model.accessExpiresAt <= now {
        row := None;
      }
    }
  }
}
