/** The statements of the login code as methods that update the two tables in place. Each
    method runs alone here and does what the steps of LoginProtocol do that nobody comes between. */
module AuthDatabase {
  import opened Accounts
  import opened LoginProtocol
  import opened Options
  import opened Statements

  class Database {
    var users: Users
    var sessions: Sessions
    var directories: Directories

    constructor ()
      ensures users == map[] && sessions == map[] && directories == map[]
    {
      users, sessions, directories := map[], map[], map[];
    }

    /** Counts one failure and locks when the count is full. */
    method RecordFailure(u: UserId, policy: Policy, now: Time) returns (locked: bool)
      modifies this`users
      ensures locked == (u in old(users) && policy.maxFailures <= old(users)[u].failedLoginCount + 1)
      ensures users.Keys == old(users).Keys
      ensures forall v :: v in users && v != u ==> users[v] == old(users)[v]
      ensures u in users && !locked ==>
                users[u] == old(users)[u].(failedLoginCount := old(users)[u].failedLoginCount + 1)
      ensures u in users && locked ==>
                users[u] == old(users)[u].(failedLoginCount := 0, lockedUntil := Some(now + policy.lockout))
      ensures u in users ==> users[u] == FailTimes(old(users)[u], policy, [now])
      ensures FailedBySteps(old(users), sessions, policy, u, now, users, locked)
    {
      FailingBySteps(users, sessions, policy, u, now);
      if u !in users { return false; }
      FailMeaning(users[u], policy, now);
      FailOnce(users[u], policy, now);
      users := users[u := CountFailure(users[u])];
      if !IsFull(users[u], policy) { return false; }
      users := users[u := Lock(users[u], policy, now)];
      assert users == old(users)[u := users[u]];
      locked := true;
    }

    /** Lets a login go on unless the user is locked; then the user is locked at no time, and
        has all attempts again. */
    method RecordSuccess(u: UserId, now: Time) returns (ok: bool)
      modifies this`users
      ensures SucceededByStep(old(users), sessions, u, now, users, ok)
      ensures users.Keys == old(users).Keys
      ensures forall v :: v in users && (v != u || !ok) ==> users[v] == old(users)[v]
      ensures ok ==> u in users && (forall t :: IsUnlocked(users[u], t)) && users[u].failedLoginCount == 0
      ensures !ok && u in users ==> !IsUnlocked(users[u], now)
      ensures forall v :: v in users ==>
                users[v].passwordHash == old(users)[v].passwordHash
                  && CredentialMarker(users[v]) == CredentialMarker(old(users)[v])
    {
      SucceedingStep(users, sessions, u, now);
      ok := u in users && IsUnlocked(users[u], now);
      if ok { users := users[u := ClearFailures(users[u])]; }
    }

    /** Replaces a hash that is still the verified one; another password's hash stays. */
    method Rehash(u: UserId, verified: PasswordHash, password: Password, salt: nat)
      requires verified.password == password
      modifies this`users
      ensures users.Keys == old(users).Keys
      ensures forall v :: v in users ==>
                users[v] == old(users)[v].(passwordHash := users[v].passwordHash)
                && (v != u || old(users)[v].passwordHash != Some(verified) ==> users[v] == old(users)[v])
      ensures forall v, p :: v in users ==>
                VerifyPassword(users[v].passwordHash, p).ok == VerifyPassword(old(users)[v].passwordHash, p).ok
      ensures u in users && old(users)[u].passwordHash == Some(verified) ==>
                users[u].passwordHash == Some(PasswordHash(password, salt, CURRENT_COST))
      ensures RehashedByStep(old(users), sessions, u, verified, password, salt, users)
    {
      RehashingStep(users, sessions, u, verified, password, salt);
      if u in users && users[u].passwordHash == Some(verified) {
        users := users[u := users[u].(passwordHash := Some(HashPassword(password, salt)))];
      }
    }

    method RevokeAllForUser(u: UserId, keep: Option<SessionId>)
      modifies this`sessions
      ensures forall s :: s in sessions <==> s in old(sessions) && (old(sessions)[s].userId != u || Some(s) == keep)
      ensures forall s :: s in sessions ==> sessions[s] == old(sessions)[s]
      ensures RevokedByStep(users, old(sessions), u, keep, sessions)
    {
      RevokingStep(users, sessions, u, keep);
      sessions := sessions - SessionsOf(sessions, u, keep);
    }

    /** The new password is the only one that verifies; only the kept session survives, and
        it carries the new generation. */
    method SetLocalPassword(u: UserId, password: Password, salt: nat, now: Time,
                            keep: Option<SessionId>, expected: Option<PasswordHash>) returns (changed: bool)
      modifies this
      ensures changed == (u in old(users) && old(users)[u].realm.Local?
                          && (expected.None? || old(users)[u].passwordHash == expected))
      ensures !changed ==> users == old(users) && sessions == old(sessions)
      ensures changed ==>
                && u in users && users == old(users)[u := users[u]]
                && users[u] == old(users)[u].(passwordHash := users[u].passwordHash, passwordChangedAt := Some(now),
                                              failedLoginCount := 0, lockedUntil := None)
                && (forall p :: VerifyPassword(users[u].passwordHash, p).ok <==> p == password)
                && (forall s :: s in sessions <==>
                      s in old(sessions) && (old(sessions)[s].userId != u || Some(s) == keep))
                && (forall s :: s in sessions ==>
                      sessions[s] == if old(sessions)[s].userId == u
                                     then old(sessions)[s].(credentialMarker := Some(now)) else old(sessions)[s])
      ensures u in old(users) && old(users)[u].realm.Local? ==>
                ChangedBySteps(old(users), old(sessions), now,
                               ChangeWriting(u, password, keep, expected, HashPassword(password, salt), now),
                               users, sessions)
    {
      ghost var step := ChangeWriting(u, password, keep, expected, HashPassword(password, salt), now);
      ChangingStepsUnderAnyPolicy(users, sessions, now, step);
      if u !in users || !users[u].realm.Local? || (expected.Some? && users[u].passwordHash != expected) {
        return false;
      }
      ChangedMeaning(users, sessions, step);
      users := users[u := SetPassword(users[u], HashPassword(password, salt), now)];
      ghost var before := sessions;
      RevokeAllForUser(u, keep);
      assert sessions == before - SessionsOf(before, u, keep);
      if keep.Some? && keep.value in sessions && sessions[keep.value].userId == u {
        sessions := sessions[keep.value := sessions[keep.value].(credentialMarker := CredentialMarker(users[u]))];
      }
      changed := true;
    }

    /** The row is seen at the later of the two times; it never goes back. */
    method Touch(s: SessionId, now: Time) returns (touched: bool)
      modifies this`sessions
      ensures sessions.Keys == old(sessions).Keys
      ensures forall r :: r in sessions && r != s ==> sessions[r] == old(sessions)[r]
      ensures s in sessions ==>
                && sessions[s] == old(sessions)[s].(lastSeenAt := sessions[s].lastSeenAt)
                && sessions[s] == TouchedRow(old(sessions)[s], now)
                && sessions[s].lastSeenAt
                  == (if old(sessions)[s].lastSeenAt < now then now else old(sessions)[s].lastSeenAt)
      ensures touched <==> sessions != old(sessions)
      ensures TouchedByStep(users, old(sessions), s, now, sessions)
    {
      TouchingStep(users, sessions, s, now);
      touched := s in sessions && sessions[s].lastSeenAt < now;
      if touched { sessions := sessions[s := sessions[s].(lastSeenAt := now)]; }
    }

    /** Returns a session exactly when its row is unexpired and its user, and for a directory user
        also the directory, still usable. An expired or unusable row is gone afterwards; a
        foreground lookup leaves the row seen later than one touch interval ago. */
    method ResolveSession(s: SessionId, policy: Policy, now: Time, foreground: bool) returns (found: Option<SessionRow>)
      requires 2 <= policy.idleTimeout
      modifies this`sessions
      ensures found.Some? <==>
                s in old(sessions) && !IsExpired(old(sessions)[s], policy, now)
                && Usable(users, old(sessions)[s]) && DirectoryUsable(directories, users[old(sessions)[s].userId])
      ensures found.None? ==> sessions == old(sessions) - {s}
      ensures found.Some? ==>
                && s in sessions && found.value == sessions[s]
                && sessions == old(sessions)[s := old(sessions)[s].(lastSeenAt := sessions[s].lastSeenAt)]
                && old(sessions)[s].lastSeenAt <= sessions[s].lastSeenAt
                && (foreground ==> now - sessions[s].lastSeenAt < TouchInterval(policy))
                && (!foreground ==> sessions == old(sessions))
      ensures LookedUpBySteps(users, old(sessions), directories, policy, s, now, foreground, sessions, found.Some?)
    {
      LookingUpBySteps(users, sessions, directories, policy, s, now, foreground);
      if s !in sessions {
        assert sessions - {s} == sessions;
        return None;
      }
      var row := sessions[s];
      ghost var before := sessions;
      TouchedMeaning(before, policy, s, now, foreground);
      if IsExpired(row, policy, now) || !Usable(users, row) || !DirectoryUsable(directories, users[row.userId]) {
        sessions := sessions - {s};
        return None;
      }
      if foreground && now - row.lastSeenAt >= TouchInterval(policy) {
        var touched := Touch(s, now);
      }
      assert sessions == TouchedSessions(before, policy, s, now, foreground);
      found := Some(sessions[s]);
    }

    method PurgeExpired(policy: Policy, now: Time) returns (purged: nat)
      modifies this`sessions
      ensures forall s :: s in sessions <==> s in old(sessions) && !IsExpired(old(sessions)[s], policy, now)
      ensures forall s :: s in sessions ==> sessions[s] == old(sessions)[s]
      ensures purged + |sessions| == old(|sessions|)
      ensures sessions == PurgedByStep(users, old(sessions), policy, now)
    {
      var expired := ExpiredSessions(sessions, policy, now);
      assert (sessions - expired).Keys == sessions.Keys - expired && expired <= sessions.Keys;
      purged := |expired|;
      sessions := sessions - expired;
    }
  }
}
