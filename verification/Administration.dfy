/** What the steps of administration do to every row, and what unlocking a user means. */
module Administration {
  import opened Accounts
  import opened LoginProtocol
  import opened Options

  /** Outside of a step's own rows nothing changes. */
  ghost predicate SameApart(w: World, t: World, users: bool, sessions: bool) {
    && t.tasks == w.tasks && t.clock == w.clock && t.directories == w.directories && t.accepted == w.accepted
    && (users || t.users == w.users) && (sessions || t.sessions == w.sessions)
  }

  /** A user that is made is active and has no failures; a local one has exactly the given password,
      set now. A row that exists or existed is not made again. */
  lemma UserIsMade(w: World, policy: Policy, step: Step, u: UserId)
    requires step.CreateLocalUser? || step.CreateDirectoryUser?
    ensures var t := Apply(w, policy, step);
            && SameApart(w, t, true, false)
            && (u != step.user || u in w.realms ==>
                  (u in t.users <==> u in w.users) && (u in w.users ==> t.users[u] == w.users[u]))
            && (u == step.user && u !in w.realms ==>
                  && u in t.users && t.users[u].isActive && t.users[u].failedLoginCount == 0
                  && t.users[u].lockedUntil.None? && u in t.realms
                  && if step.CreateDirectoryUser?
                     then t.users[u].realm == Directory(step.directory) && t.users[u].passwordHash.None?
                          && t.users[u].passwordChangedAt.None?
                     else t.users[u].realm == Local && t.users[u].passwordChangedAt == Some(w.clock)
                          && t.users[u].passwordHash.Some?
                          && forall password :: VerifyPassword(t.users[u].passwordHash, password).ok
                                                <==> password == step.password)
  {
  }

  /** Disabling and enabling a user changes only that. */
  lemma UserIsSwitched(w: World, policy: Policy, u: UserId, active: bool, v: UserId)
    ensures var t := Apply(w, policy, SetActive(u, active));
            && SameApart(w, t, true, false) && (v in t.users <==> v in w.users)
            && (v in w.users ==> t.users[v] == if v == u then w.users[v].(isActive := active) else w.users[v])
  {
  }

  /** Deleting a user takes along exactly the user's row and sessions. */
  lemma UserIsDeleted(w: World, policy: Policy, u: UserId, v: UserId, s: SessionId)
    ensures var t := Apply(w, policy, DeleteUser(u));
            && SameApart(w, t, true, true)
            && (v in t.users <==> v in w.users && v != u) && (v in t.users ==> t.users[v] == w.users[v])
            && (s in t.sessions <==> s in w.sessions && w.sessions[s].userId != u)
            && (s in t.sessions ==> t.sessions[s] == w.sessions[s])
  {
  }

  /** Which sessions end: those of the user but the kept one, the named one, or those that have
      expired. */
  lemma SessionsEnd(w: World, policy: Policy, step: Step, s: SessionId)
    requires step.RevokeForUser? || step.RevokeSession? || step.Purge?
    ensures var t := Apply(w, policy, step);
            && SameApart(w, t, false, true)
            && (step.RevokeForUser? ==>
                  (s in t.sessions <==> s in w.sessions && (w.sessions[s].userId != step.user || step.keep == Some(s))))
            && (step.RevokeSession? ==> (s in t.sessions <==> s in w.sessions && s != step.session))
            && (step.Purge? ==>
                  (s in t.sessions <==> s in w.sessions && w.clock < w.sessions[s].expiresAt
                                        && w.clock < w.sessions[s].lastSeenAt + policy.idleTimeout))
            && (s in t.sessions ==> t.sessions[s] == w.sessions[s])
  {
  }

  /** A directory login of an active directory user makes one session, for as long as the policy
      allows; any other makes none. */
  lemma SessionBegins(w: World, policy: Policy, u: UserId, made: SessionId, s: SessionId)
    ensures var t := Apply(w, policy, DirectoryLogin(u, made));
            && SameApart(w, t, false, true)
            && (s in w.sessions && (s != made || made in w.born) ==> s in t.sessions && t.sessions[s] == w.sessions[s])
            && (s !in w.sessions && s in t.sessions ==> s == made)
            && (made !in w.born && u in w.users && w.users[u].realm.Directory? && w.users[u].isActive ==>
                  made in t.sessions
                  && t.sessions[made] == SessionRow(u, w.clock, w.clock, w.clock + policy.absoluteTimeout,
                                                    w.users[u].passwordChangedAt))
            && (u !in w.users || !w.users[u].isActive || w.users[u].realm.Local? ==> t.sessions == w.sessions)
  {
  }

  /** Enabling and disabling directories, and the passing of time. */
  lemma DirectoriesAndTime(w: World, policy: Policy, d: DirectoryId, usable: bool, elapsed: nat)
    ensures Apply(w, policy, SetDirectory(d, usable)) == w.(directories := w.directories[d := usable])
    ensures Apply(w, policy, Tick(elapsed)) == w.(clock := w.clock + elapsed)
  {
  }

  /** Alone, unlocking clears the lock and the failures of the user, and nothing else. */
  lemma UnlockAlone(w: World, policy: Policy, t: TaskId, u: UserId, drawn: nat)
    requires t !in w.tasks
    ensures var end := Apply(Apply(w, policy, BeginUnlock(t, u)), policy, Advance(t, drawn));
            && SameApart(w, end, true, false)
            && end.users == if u in w.users
                            then w.users[u := w.users[u].(failedLoginCount := 0, lockedUntil := None)] else w.users
  {
    var begun := Apply(w, policy, BeginUnlock(t, u));
    if u in w.users {
      assert begun.tasks == w.tasks[t := Unlocking(u, w.users[u])] && begun.users == w.users;
      UnlockClearsWhatItSaw(begun, policy, t, drawn, u);
      assert begun.tasks - {t} == w.tasks;
    } else {
      assert begun == w;
    }
  }

  /** In general it clears what it saw when it read the row: a lock or failures that came since,
      where it had seen none, stay. */
  lemma UnlockClearsWhatItSaw(w: World, policy: Policy, t: TaskId, drawn: nat, u: UserId)
    requires t in w.tasks && w.tasks[t].Unlocking? && w.tasks[t].user == u && u in w.users
    ensures var seen, end := w.tasks[t].seen, Apply(w, policy, Advance(t, drawn));
            var row := w.users[u];
            && end.tasks == w.tasks - {t} && end.clock == w.clock && end.directories == w.directories
            && end.sessions == w.sessions && end.accepted == w.accepted
            && end.users == w.users[u :=
                 row.(lockedUntil := if seen.lockedUntil.None? then row.lockedUntil else None,
                      failedLoginCount := if seen.failedLoginCount == 0 then row.failedLoginCount else 0)]
  {
  }
}
