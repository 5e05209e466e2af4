/** What a task of LoginProtocol does when nobody comes between its statements. */
module Statements {
  import opened Accounts
  import opened LoginProtocol
  import opened Options

  /** The protocol's world with these tables and nothing else going on. */
  ghost function Tables(users: Users, sessions: Sessions, now: Time): World {
    InitialWorld().(users := users, sessions := sessions, clock := now,
                    born := map s | s in sessions :: sessions[s].createdAt)
  }

  /** ... and with one task. */
  ghost function Alone(users: Users, sessions: Sessions, now: Time, task: Task): World {
    Tables(users, sessions, now).(tasks := map[0 := task])
  }

  ghost function Iterate<T>(f: T -> T, x: T, n: nat): T {
    if n == 0 then x else Iterate(f, f(x), n - 1)
  }

  lemma {:induction false} IterateInParts<T>(f: T -> T, x: T, k: nat, n: nat)
    ensures Iterate(f, x, k + n) == Iterate(f, Iterate(f, x, k), n)
    decreases k
  {
    if k > 0 { IterateInParts(f, f(x), k - 1, n); }
  }

  ghost function Statement(policy: Policy, drawn: nat): World -> World {
    (w: World) => Apply(w, policy, Advance(0, drawn))
  }

  /** The next `n` statements of that task, each drawing `drawn`. */
  ghost function Advanced(w: World, policy: Policy, drawn: nat, n: nat): World {
    Iterate(Statement(policy, drawn), w, n)
  }

  ghost predicate Next(w: World, policy: Policy, drawn: nat, w': World) {
    w' == Apply(w, policy, Advance(0, drawn))
  }

  lemma AdvancedOne(w: World, policy: Policy, drawn: nat, w1: World)
    requires Next(w, policy, drawn, w1)
    ensures Advanced(w, policy, drawn, 1) == w1
  {
  }

  lemma AdvancedTwo(w: World, policy: Policy, drawn: nat, w1: World, w2: World)
    requires Next(w, policy, drawn, w1) && Next(w1, policy, drawn, w2)
    ensures Advanced(w, policy, drawn, 2) == w2
  {
    AdvancedOne(w1, policy, drawn, w2);
  }

  lemma AdvancedThree(w: World, policy: Policy, drawn: nat, w1: World, w2: World, w3: World)
    requires Next(w, policy, drawn, w1) && Next(w1, policy, drawn, w2) && Next(w2, policy, drawn, w3)
    ensures Advanced(w, policy, drawn, 3) == w3
  {
    AdvancedTwo(w1, policy, drawn, w2, w3);
  }

  ghost predicate Shows(w: World, users: Users, sessions: Sessions, tasks: map<TaskId, Task>) {
    w.users == users && w.sessions == sessions && w.tasks == tasks
  }

  lemma Idles(w: World, policy: Policy, drawn: nat) returns (w': World)
    requires w.tasks == map[]
    ensures Next(w, policy, drawn, w')
    ensures Shows(w', w.users, w.sessions, map[]) && w'.accepted == w.accepted && w'.log == w.log
  {
    w' := Perform(w, NoEffect);
    assert w.log + [] == w.log;
  }

  /** Nothing happens after the last statement. */
  lemma {:induction false} AdvancedIdle(w: World, policy: Policy, drawn: nat, n: nat)
    requires w.tasks == map[]
    ensures var w' := Advanced(w, policy, drawn, n);
            Shows(w', w.users, w.sessions, map[]) && w'.accepted == w.accepted && w'.log == w.log
    decreases n
  {
    if n > 0 {
      var w' := Idles(w, policy, drawn);
      AdvancedIdle(w', policy, drawn, n - 1);
    }
  }

  lemma AdvancedPast(w: World, policy: Policy, drawn: nat, k: nat, n: nat)
    requires k <= n && Advanced(w, policy, drawn, k).tasks == map[]
    ensures var end, w' := Advanced(w, policy, drawn, k), Advanced(w, policy, drawn, n);
            Shows(w', end.users, end.sessions, map[]) && w'.accepted == end.accepted && w'.log == end.log
  {
    IterateInParts(Statement(policy, drawn), w, k, n - k);
    AdvancedIdle(Advanced(w, policy, drawn, k), policy, drawn, n - k);
  }

  // ---- a failed login

  /** A user row after failures at these times. */
  function FailTimes(row: UserRow, policy: Policy, times: seq<Time>): UserRow {
    if times == [] then row else
    var counted := CountFailure(FailTimes(row, policy, times[..|times| - 1]));
    if IsFull(counted, policy) then Lock(counted, policy, times[|times| - 1]) else counted
  }

  /** From a cleared counter it takes the maximum number of failures to lock, and the last one locks. */
  lemma {:induction false} LockTakesAllAttempts(row: UserRow, policy: Policy, times: seq<Time>)
    requires row.failedLoginCount == 0 && |times| <= policy.maxFailures
    ensures |times| < policy.maxFailures || times == [] ==>
              FailTimes(row, policy, times) == row.(failedLoginCount := |times|)
    ensures |times| == policy.maxFailures && times != [] ==>
              FailTimes(row, policy, times) == row.(lockedUntil := Some(times[|times| - 1] + policy.lockout))
    decreases |times|
  {
    if times != [] { LockTakesAllAttempts(row, policy, times[..|times| - 1]); }
  }

  lemma FailOnce(row: UserRow, policy: Policy, now: Time)
    ensures FailTimes(row, policy, [now])
            == if IsFull(CountFailure(row), policy) then Lock(CountFailure(row), policy, now) else CountFailure(row)
  {
    assert [now][..0] == [] && FailTimes(row, policy, []) == row;
  }

  lemma FailApplies(w: World, policy: Policy, task: Task)
    requires 0 in w.tasks && w.tasks[0] == task && task.LoginFailing?
    ensures Next(w, policy, 0, Perform(w, LoginFail(w, policy, 0, task)))
  {
  }

  lemma LockApplies(w: World, policy: Policy, task: Task)
    requires 0 in w.tasks && w.tasks[0] == task && task.LoginLocking?
    ensures Next(w, policy, 0, Perform(w, LoginLock(w, policy, 0, task)))
  {
  }

  lemma Fails(w: World, policy: Policy, u: UserId, now: Time) returns (w': World)
    requires w.tasks == map[0 := LoginFailing(u, now)] && u in w.users && w.log == []
    ensures Next(w, policy, 0, w') && w'.log == [Failed(u)]
    ensures var counted := CountFailure(w.users[u]);
            Shows(w', w.users[u := counted], w.sessions,
                  if IsFull(counted, policy) then map[0 := LoginLocking(u, now)] else map[])
  {
    FailApplies(w, policy, LoginFailing(u, now));
    w' := Perform(w, LoginFail(w, policy, 0, LoginFailing(u, now)));
    assert [] + [Failed(u)] == [Failed(u)];
  }

  lemma FailsWithoutUser(w: World, policy: Policy, u: UserId, now: Time) returns (w': World)
    requires w.tasks == map[0 := LoginFailing(u, now)] && u !in w.users && w.log == []
    ensures Next(w, policy, 0, w') && w'.log == [] && Shows(w', w.users, w.sessions, map[])
  {
    FailApplies(w, policy, LoginFailing(u, now));
    w' := Perform(w, LoginFail(w, policy, 0, LoginFailing(u, now)));
    assert w.log + [] == [];
  }

  lemma Locks(w: World, policy: Policy, u: UserId, now: Time) returns (w': World)
    requires w.tasks == map[0 := LoginLocking(u, now)] && u in w.users && IsFull(w.users[u], policy)
    ensures Next(w, policy, 0, w') && w'.log == w.log + [Locked(u, now + policy.lockout)]
    ensures Shows(w', w.users[u := Lock(w.users[u], policy, now)], w.sessions, map[])
  {
    LockApplies(w, policy, LoginLocking(u, now));
    w' := Perform(w, LoginLock(w, policy, 0, LoginLocking(u, now)));
  }

  /** A failed login from counting to locking. */
  ghost function FailedLogin(users: Users, sessions: Sessions, policy: Policy, u: UserId, now: Time): World {
    Advanced(Alone(users, sessions, now, LoginFailing(u, now)), policy, 0, 2)
  }

  lemma KnownUserFails(users: Users, sessions: Sessions, policy: Policy, u: UserId, now: Time)
    requires u in users
    ensures var w := FailedLogin(users, sessions, policy, u, now);
            && w.tasks == map[] && w.sessions == sessions && w.users == users[u := FailTimes(users[u], policy, [now])]
            && (Locked(u, now + policy.lockout) in w.log <==> IsFull(CountFailure(users[u]), policy))
  {
    var w, counted := Alone(users, sessions, now, LoginFailing(u, now)), CountFailure(users[u]);
    var w1 := Fails(w, policy, u, now);
    FailOnce(users[u], policy, now);
    if IsFull(counted, policy) {
      var w2 := Locks(w1, policy, u, now);
      AdvancedTwo(w, policy, 0, w1, w2);
      assert users[u := counted][u := Lock(counted, policy, now)] == users[u := Lock(counted, policy, now)];
    } else {
      var w2 := Idles(w1, policy, 0);
      AdvancedTwo(w, policy, 0, w1, w2);
    }
  }

  lemma FailingSteps(users: Users, sessions: Sessions, policy: Policy, u: UserId, now: Time)
    ensures var w := FailedLogin(users, sessions, policy, u, now);
            && w.tasks == map[] && w.sessions == sessions
            && w.users == (if u in users then users[u := FailTimes(users[u], policy, [now])] else users)
            && (Locked(u, now + policy.lockout) in w.log <==> u in users && IsFull(CountFailure(users[u]), policy))
  {
    if u in users {
      KnownUserFails(users, sessions, policy, u, now);
    } else {
      var w := Alone(users, sessions, now, LoginFailing(u, now));
      var w1 := FailsWithoutUser(w, policy, u, now);
      var w2 := Idles(w1, policy, 0);
      AdvancedTwo(w, policy, 0, w1, w2);
    }
  }

  /** The statements of a failed login lead to these users, and lock if `locked`. */
  ghost predicate FailedBySteps(users: Users, sessions: Sessions, policy: Policy, u: UserId, now: Time, users': Users,
                                locked: bool) {
    forall n: nat :: 2 <= n ==>
      var w := Advanced(Alone(users, sessions, now, LoginFailing(u, now)), policy, 0, n);
      w.users == users' && w.sessions == sessions && (locked <==> Locked(u, now + policy.lockout) in w.log)
  }

  lemma FailingBySteps(users: Users, sessions: Sessions, policy: Policy, u: UserId, now: Time)
    ensures FailedBySteps(users, sessions, policy, u, now,
                          if u in users then users[u := FailTimes(users[u], policy, [now])] else users,
                          u in users && IsFull(CountFailure(users[u]), policy))
  {
    FailingSteps(users, sessions, policy, u, now);
    var w := Alone(users, sessions, now, LoginFailing(u, now));
    var end := FailedLogin(users, sessions, policy, u, now);
    forall n: nat | 2 <= n
      ensures var w' := Advanced(w, policy, 0, n);
              w'.users == end.users && w'.sessions == end.sessions && w'.log == end.log
    {
      AdvancedPast(w, policy, 0, 2, n);
    }
  }

  // ---- a successful login, and the replacing of its hash

  /** The success statement leads to these users, and the login goes on if `ok`. */
  ghost predicate SucceededByStep(users: Users, sessions: Sessions, u: UserId, now: Time, users': Users, ok: bool) {
    forall policy, password, generation, hash, stale ::
      var w := Advanced(Alone(users, sessions, now, LoginChecked(u, password, now, generation, hash, stale)),
                        policy, 0, 1);
      w.users == users' && w.sessions == sessions && (ok <==> 0 in w.tasks) && (ok <==> LoggedIn(u, now) in w.log)
  }

  lemma SuccessApplies(w: World, policy: Policy, task: Task)
    requires 0 in w.tasks && w.tasks[0] == task && task.LoginChecked?
    ensures Next(w, policy, 0, Perform(w, LoginSucceed(w, 0, task)))
  {
  }

  lemma Succeeds(w: World, policy: Policy, task: Task) returns (w': World)
    requires w.tasks == map[0 := task] && task.LoginChecked? && w.log == []
    ensures Next(w, policy, 0, w') && w'.sessions == w.sessions
    ensures var ok := task.user in w.users && IsUnlocked(w.users[task.user], task.now);
            && w'.users == (if ok then w.users[task.user := ClearFailures(w.users[task.user])] else w.users)
            && (0 in w'.tasks <==> ok) && w'.log == if ok then [LoggedIn(task.user, task.now)] else []
  {
    SuccessApplies(w, policy, task);
    w' := Perform(w, LoginSucceed(w, 0, task));
    assert w.log + [LoggedIn(task.user, task.now)] == [LoggedIn(task.user, task.now)] && w.log + [] == [];
  }

  lemma SucceedingStep(users: Users, sessions: Sessions, u: UserId, now: Time)
    ensures var ok := u in users && IsUnlocked(users[u], now);
            SucceededByStep(users, sessions, u, now, if ok then users[u := ClearFailures(users[u])] else users, ok)
  {
    forall policy, password, generation, hash, stale
      ensures var ok := u in users && IsUnlocked(users[u], now);
              var w := Advanced(Alone(users, sessions, now, LoginChecked(u, password, now, generation, hash, stale)),
                                policy, 0, 1);
              && w.users == (if ok then users[u := ClearFailures(users[u])] else users)
              && w.sessions == sessions && (ok <==> 0 in w.tasks) && (ok <==> LoggedIn(u, now) in w.log)
    {
      var task := LoginChecked(u, password, now, generation, hash, stale);
      var w := Alone(users, sessions, now, task);
      var w' := Succeeds(w, policy, task);
      AdvancedOne(w, policy, 0, w');
    }
  }

  ghost predicate RehashedByStep(users: Users, sessions: Sessions, u: UserId, verified: PasswordHash,
                                 password: Password, salt: nat, users': Users) {
    forall policy, now, generation ::
      Advanced(Alone(users, sessions, now, LoginRehashing(u, password, generation, verified)), policy, salt, 1).users
        == users'
  }

  lemma RehashApplies(w: World, policy: Policy, task: Task, salt: nat)
    requires 0 in w.tasks && w.tasks[0] == task && task.LoginRehashing?
    ensures Next(w, policy, salt, Perform(w, LoginRehash(w, 0, task, salt)))
  {
  }

  function Rehashed(users: Users, u: UserId, verified: PasswordHash, password: Password, salt: nat): Users {
    if u in users && users[u].passwordHash == Some(verified)
    then users[u := users[u].(passwordHash := Some(HashPassword(password, salt)))] else users
  }

  lemma RehashingStep(users: Users, sessions: Sessions, u: UserId, verified: PasswordHash, password: Password,
                      salt: nat)
    ensures RehashedByStep(users, sessions, u, verified, password, salt, Rehashed(users, u, verified, password, salt))
  {
    forall policy, now, generation
      ensures Advanced(Alone(users, sessions, now, LoginRehashing(u, password, generation, verified)), policy, salt, 1)
              .users
              == Rehashed(users, u, verified, password, salt)
    {
      var task := LoginRehashing(u, password, generation, verified);
      var w := Alone(users, sessions, now, task);
      RehashApplies(w, policy, task, salt);
      AdvancedOne(w, policy, salt, Perform(w, LoginRehash(w, 0, task, salt)));
    }
  }

  // ---- a password change

  ghost predicate Changes(users: Users, step: Task)
    requires step.ChangeWriting?
  {
    step.user in users && (step.expected.None? || users[step.user].passwordHash == step.expected)
  }

  ghost function ChangedUsers(users: Users, step: Task): Users
    requires step.ChangeWriting?
  {
    if Changes(users, step) then users[step.user := SetPassword(users[step.user], step.newHash, step.changedAt)]
      else users
  }

  ghost function ChangedSessions(users: Users, sessions: Sessions, step: Task): Sessions
    requires step.ChangeWriting?
  {
    if Changes(users, step) then Stamped(sessions - SessionsOf(sessions, step.user, step.keep), step) else sessions
  }

  ghost function Stamped(rest: Sessions, step: Task): Sessions
    requires step.ChangeWriting?
  {
    if step.keep.Some? && step.keep.value in rest && rest[step.keep.value].userId == step.user
    then rest[step.keep.value := rest[step.keep.value].(credentialMarker := Some(step.changedAt))] else rest
  }

  ghost function Revoking(step: Task): Task
    requires step.ChangeWriting?
  {
    ChangeRevoking(step.user, step.password, step.keep, step.changedAt)
  }

  ghost function Stamping(step: Task): Task
    requires step.ChangeWriting? && step.keep.Some?
  {
    ChangeStamping(step.user, step.password, step.keep.value, step.changedAt)
  }

  lemma WriteApplies(w: World, policy: Policy, task: Task)
    requires 0 in w.tasks && w.tasks[0] == task && task.ChangeWriting?
    ensures Next(w, policy, 0, Perform(w, ChangeWrite(w, 0, task)))
  {
  }

  lemma RevokeApplies(w: World, policy: Policy, task: Task)
    requires 0 in w.tasks && w.tasks[0] == task && task.ChangeRevoking?
    ensures Next(w, policy, 0, Perform(w, ChangeRevoke(w, 0, task)))
  {
  }

  lemma StampApplies(w: World, policy: Policy, task: Task)
    requires 0 in w.tasks && w.tasks[0] == task && task.ChangeStamping?
    ensures Next(w, policy, 0, Perform(w, ChangeStamp(w, 0, task)))
  {
  }

  lemma Writes(w: World, policy: Policy, step: Task) returns (w': World)
    requires step.ChangeWriting? && w.tasks == map[0 := step] && w.chosen == map[]
    ensures Next(w, policy, 0, w')
    ensures Shows(w', ChangedUsers(w.users, step), w.sessions,
                  if Changes(w.users, step) then map[0 := Revoking(step)] else map[])
  {
    WriteApplies(w, policy, step);
    w' := Perform(w, ChangeWrite(w, 0, step));
  }

  lemma Revokes(w: World, policy: Policy, step: Task) returns (w': World)
    requires step.ChangeWriting? && w.tasks == map[0 := Revoking(step)]
    ensures Next(w, policy, 0, w')
    ensures Shows(w', w.users, w.sessions - SessionsOf(w.sessions, step.user, step.keep),
                  if step.keep.Some? then map[0 := Stamping(step)] else map[])
  {
    RevokeApplies(w, policy, Revoking(step));
    w' := Perform(w, ChangeRevoke(w, 0, Revoking(step)));
  }

  lemma Stamps(w: World, policy: Policy, step: Task) returns (w': World)
    requires step.ChangeWriting? && step.keep.Some? && w.tasks == map[0 := Stamping(step)]
    ensures Next(w, policy, 0, w') && Shows(w', w.users, Stamped(w.sessions, step), map[])
  {
    StampApplies(w, policy, Stamping(step));
    w' := Perform(w, ChangeStamp(w, 0, Stamping(step)));
  }

  lemma StampsIfKept(w: World, policy: Policy, step: Task) returns (w': World)
    requires step.ChangeWriting? && w.tasks == (if step.keep.Some? then map[0 := Stamping(step)] else map[])
    ensures Next(w, policy, 0, w') && Shows(w', w.users, Stamped(w.sessions, step), map[])
  {
    if step.keep.Some? { w' := Stamps(w, policy, step); } else { w' := Idles(w, policy, 0); }
  }

  lemma ChangingSteps(users: Users, sessions: Sessions, policy: Policy, now: Time, step: Task)
    requires step.ChangeWriting?
    ensures Shows(Advanced(Alone(users, sessions, now, step), policy, 0, 3), ChangedUsers(users, step),
                  ChangedSessions(users, sessions, step), map[])
  {
    var w := Alone(users, sessions, now, step);
    var w1 := Writes(w, policy, step);
    var w2, w3 := w1, w1;
    if Changes(users, step) {
      w2 := Revokes(w1, policy, step);
      w3 := StampsIfKept(w2, policy, step);
    } else {
      w2 := Idles(w1, policy, 0);
      w3 := Idles(w2, policy, 0);
    }
    AdvancedThree(w, policy, 0, w1, w2, w3);
  }

  /** The three statements of a password change, taken alone, lead from the first tables to the last. */
  ghost predicate ChangedBySteps(users: Users, sessions: Sessions, now: Time, step: Task, users': Users,
                                 sessions': Sessions) {
    forall policy :: Shows(Advanced(Alone(users, sessions, now, step), policy, 0, 3), users', sessions', map[])
  }

  lemma ChangingStepsUnderAnyPolicy(users: Users, sessions: Sessions, now: Time, step: Task)
    requires step.ChangeWriting?
    ensures ChangedBySteps(users, sessions, now, step, ChangedUsers(users, step),
              ChangedSessions(users, sessions, step))
  {
    forall policy
      ensures Shows(Advanced(Alone(users, sessions, now, step), policy, 0, 3), ChangedUsers(users, step),
                    ChangedSessions(users, sessions, step), map[])
    {
      ChangingSteps(users, sessions, policy, now, step);
    }
  }

  lemma ChangedMeaning(users: Users, sessions: Sessions, step: Task)
    requires step.ChangeWriting? && Changes(users, step)
    ensures var u, after := step.user, ChangedSessions(users, sessions, step);
            && (forall s :: s in after <==> s in sessions && (sessions[s].userId != u || Some(s) == step.keep))
            && (forall s :: s in after ==>
                  after[s] == if sessions[s].userId == u then sessions[s].(credentialMarker := Some(step.changedAt))
                    else sessions[s])
  {
  }

  ghost predicate RevokedByStep(users: Users, sessions: Sessions, u: UserId, keep: Option<SessionId>,
                                sessions': Sessions) {
    forall policy, now :: Apply(Tables(users, sessions, now), policy, RevokeForUser(u, keep)).sessions == sessions'
  }

  lemma RevokingStep(users: Users, sessions: Sessions, u: UserId, keep: Option<SessionId>)
    ensures RevokedByStep(users, sessions, u, keep, sessions - SessionsOf(sessions, u, keep))
  {
  }

  ghost function PurgedByStep(users: Users, sessions: Sessions, policy: Policy, now: Time): (r: Sessions)
    ensures r == sessions - ExpiredSessions(sessions, policy, now)
  {
    Apply(Tables(users, sessions, now), policy, Purge).sessions
  }

  // ---- a lookup

  /** The session of an active user with this marker, in an enabled and allowed directory if any. */
  predicate Acceptable(users: Users, directories: Directories, row: SessionRow) {
    row.userId in users &&
    var user := users[row.userId];
    && user.isActive && row.credentialMarker == user.passwordChangedAt
    && (user.realm.Local? || (user.realm.directory in directories && directories[user.realm.directory]))
  }

  predicate IsTouched(row: SessionRow, policy: Policy, now: Time, foreground: bool) {
    foreground && now - row.lastSeenAt >= TouchInterval(policy)
  }

  function TouchedRow(row: SessionRow, now: Time): SessionRow {
    if row.lastSeenAt < now then row.(lastSeenAt := now) else row
  }

  /** What an accepting lookup leaves of the sessions. */
  function TouchedSessions(sessions: Sessions, policy: Policy, s: SessionId, now: Time, foreground: bool): Sessions
    requires s in sessions
  {
    if IsTouched(sessions[s], policy, now, foreground) then sessions[s := TouchedRow(sessions[s], now)] else sessions
  }

  /** Where an accepting lookup stands. */
  function Accepting(s: SessionId, row: SessionRow, policy: Policy, now: Time, foreground: bool): map<TaskId, Task> {
    if IsTouched(row, policy, now, foreground) then map[0 := ResolveTouching(s, now)] else map[]
  }

  lemma DeleteApplies(w: World, policy: Policy, task: Task)
    requires 0 in w.tasks && w.tasks[0] == task && task.ResolveExpired?
    ensures Next(w, policy, 0, Perform(w, ResolveDelete(w, policy, 0, task)))
  {
  }

  lemma CompareApplies(w: World, policy: Policy, task: Task)
    requires 0 in w.tasks && w.tasks[0] == task && task.ResolveLoaded?
    ensures Next(w, policy, 0, Perform(w, ResolveUser(w, policy, 0, task)))
  {
  }

  lemma CheckApplies(w: World, policy: Policy, task: Task)
    requires 0 in w.tasks && w.tasks[0] == task && task.ResolveChecking?
    ensures Next(w, policy, 0, Perform(w, ResolveCheck(w, policy, 0, task)))
  {
  }

  lemma RejectApplies(w: World, policy: Policy, task: Task)
    requires 0 in w.tasks && w.tasks[0] == task && task.ResolveRejecting?
    ensures Next(w, policy, 0, Perform(w, ResolveReject(0, task)))
  {
  }

  lemma TouchApplies(w: World, policy: Policy, task: Task)
    requires 0 in w.tasks && w.tasks[0] == task && task.ResolveTouching?
    ensures Next(w, policy, 0, Perform(w, ResolveTouch(w, 0, task)))
  {
  }

  lemma Rejects(w: World, policy: Policy, s: SessionId) returns (w': World)
    requires w.tasks == map[0 := ResolveRejecting(s)]
    ensures Next(w, policy, 0, w') && w'.accepted == w.accepted && Shows(w', w.users, w.sessions - {s}, map[])
  {
    RejectApplies(w, policy, ResolveRejecting(s));
    w' := Perform(w, ResolveReject(0, ResolveRejecting(s)));
  }

  lemma Touches(w: World, policy: Policy, s: SessionId, now: Time) returns (w': World)
    requires w.tasks == map[0 := ResolveTouching(s, now)] && s in w.sessions
    ensures Next(w, policy, 0, w') && w'.accepted == w.accepted
    ensures Shows(w', w.users, w.sessions[s := TouchedRow(w.sessions[s], now)], map[])
  {
    TouchApplies(w, policy, ResolveTouching(s, now));
    w' := Perform(w, ResolveTouch(w, 0, ResolveTouching(s, now)));
    assert w.sessions[s := w.sessions[s]] == w.sessions;
  }

  lemma TouchesIfDue(w: World, policy: Policy, s: SessionId, now: Time, foreground: bool) returns (w': World)
    requires s in w.sessions && w.tasks == Accepting(s, w.sessions[s], policy, now, foreground)
    ensures Next(w, policy, 0, w') && w'.accepted == w.accepted
    ensures Shows(w', w.users, TouchedSessions(w.sessions, policy, s, now, foreground), map[])
  {
    if w.tasks == map[] { w' := Idles(w, policy, 0); } else { w' := Touches(w, policy, s, now); }
  }

  lemma Deletes(w: World, policy: Policy, s: SessionId, now: Time, foreground: bool) returns (w': World)
    requires s in w.sessions && IsExpired(w.sessions[s], policy, now)
    requires w.tasks == map[0 := ResolveExpired(s, now, foreground)]
    ensures Next(w, policy, 0, w') && w'.accepted == w.accepted && Shows(w', w.users, w.sessions - {s}, map[])
  {
    DeleteApplies(w, policy, ResolveExpired(s, now, foreground));
    w' := Perform(w, ResolveDelete(w, policy, 0, ResolveExpired(s, now, foreground)));
  }

  lemma AcceptShows(w: World, policy: Policy, a: Acceptance, foreground: bool)
    requires 0 in w.tasks && w.tasks.Keys == {0}
    ensures var w' := Perform(w, Accept(policy, 0, a, foreground));
            w'.accepted == w.accepted + [a]
            && Shows(w', w.users, w.sessions, Accepting(a.session, a.row, policy, a.now, foreground))
  {
  }

  lemma CompareRejects(w: World, policy: Policy, s: SessionId, row: SessionRow, now: Time, foreground: bool)
    returns (w': World)
    requires w.tasks == map[0 := ResolveLoaded(s, row, now, foreground)] && !Usable(w.users, row)
    ensures Next(w, policy, 0, w') && w'.accepted == w.accepted
    ensures Shows(w', w.users, w.sessions, map[0 := ResolveRejecting(s)])
  {
    CompareApplies(w, policy, ResolveLoaded(s, row, now, foreground));
    w' := Perform(w, Effect(Await(0, ResolveRejecting(s))));
  }

  lemma CompareAccepts(w: World, policy: Policy, s: SessionId, row: SessionRow, now: Time, foreground: bool)
    returns (w': World)
    requires w.tasks == map[0 := ResolveLoaded(s, row, now, foreground)]
    requires Usable(w.users, row) && w.users[row.userId].realm.Local?
    ensures Next(w, policy, 0, w') && w'.accepted != []
    ensures Shows(w', w.users, w.sessions, Accepting(s, row, policy, now, foreground))
  {
    CompareApplies(w, policy, ResolveLoaded(s, row, now, foreground));
    var a := Acceptance(s, row, w.users[row.userId], now);
    AcceptShows(w, policy, a, foreground);
    w' := Perform(w, Accept(policy, 0, a, foreground));
  }

  lemma CompareGoesOn(w: World, policy: Policy, s: SessionId, row: SessionRow, now: Time, foreground: bool)
    returns (w': World)
    requires w.tasks == map[0 := ResolveLoaded(s, row, now, foreground)]
    requires Usable(w.users, row) && w.users[row.userId].realm.Directory?
    ensures Next(w, policy, 0, w') && w'.accepted == w.accepted && w'.directories == w.directories
    ensures Shows(w', w.users, w.sessions, map[0 := ResolveChecking(s, row, w.users[row.userId], now, foreground)])
  {
    CompareApplies(w, policy, ResolveLoaded(s, row, now, foreground));
    w' := Perform(w, Effect(Await(0, ResolveChecking(s, row, w.users[row.userId], now, foreground))));
  }

  lemma Checks(w: World, policy: Policy, s: SessionId, row: SessionRow, owner: UserRow, now: Time, foreground: bool)
    returns (w': World)
    requires w.tasks == map[0 := ResolveChecking(s, row, owner, now, foreground)] && w.accepted == []
    ensures Next(w, policy, 0, w')
    ensures w'.accepted != [] <==> DirectoryUsable(w.directories, owner)
    ensures Shows(w', w.users, w.sessions,
                  if DirectoryUsable(w.directories, owner) then Accepting(s, row, policy, now, foreground)
                  else map[0 := ResolveRejecting(s)])
  {
    CheckApplies(w, policy, ResolveChecking(s, row, owner, now, foreground));
    w' := Perform(w, ResolveCheck(w, policy, 0, ResolveChecking(s, row, owner, now, foreground)));
    if DirectoryUsable(w.directories, owner) { AcceptShows(w, policy, Acceptance(s, row, owner, now), foreground); }
  }

  /** A lookup from its first to its last statement. */
  ghost function Resolved(users: Users, sessions: Sessions, directories: Directories, policy: Policy, s: SessionId,
                          now: Time, foreground: bool): World {
    Advanced(Begun(users, sessions, directories, policy, s, now, foreground), policy, 0, 3)
  }

  ghost function Begun(users: Users, sessions: Sessions, directories: Directories, policy: Policy, s: SessionId,
                       now: Time, foreground: bool): World {
    Apply(Tables(users, sessions, now).(directories := directories), policy, BeginResolve(0, s, foreground))
  }

  lemma LookupBegins(users: Users, sessions: Sessions, directories: Directories, policy: Policy, s: SessionId,
                     now: Time, foreground: bool) returns (w: World)
    ensures w == Begun(users, sessions, directories, policy, s, now, foreground)
    ensures w.accepted == [] && w.directories == directories
    ensures Shows(w, users, sessions,
                  if s !in sessions then map[]
                  else if IsExpired(sessions[s], policy, now) then map[0 := ResolveExpired(s, now, foreground)]
                  else map[0 := ResolveLoaded(s, sessions[s], now, foreground)])
  {
    w := Begun(users, sessions, directories, policy, s, now, foreground);
  }

  /** What a lookup leaves: the row is gone unless it is accepted, which is exactly when it is
      unexpired, its user usable, and for a directory user also the directory. */
  ghost predicate Ended(w: World, users: Users, sessions: Sessions, directories: Directories, policy: Policy,
                        s: SessionId, now: Time, foreground: bool) {
    var ok := s in sessions && !IsExpired(sessions[s], policy, now) && Acceptable(users, directories, sessions[s]);
    && w.tasks == map[] && (w.accepted != [] <==> ok)
    && w.sessions == if ok then TouchedSessions(sessions, policy, s, now, foreground) else sessions - {s}
  }

  lemma JudgedEnds(w: World, policy: Policy, s: SessionId, now: Time, foreground: bool) returns (w1: World, w2: World)
    requires s in w.sessions && !IsExpired(w.sessions[s], policy, now) && Usable(w.users, w.sessions[s])
             && w.accepted == []
    requires w.users[w.sessions[s].userId].realm.Directory?
    requires w.tasks == map[0 := ResolveChecking(s, w.sessions[s], w.users[w.sessions[s].userId], now, foreground)]
    ensures Next(w, policy, 0, w1) && Next(w1, policy, 0, w2)
    ensures Ended(w2, w.users, w.sessions, w.directories, policy, s, now, foreground)
  {
    var row, owner := w.sessions[s], w.users[w.sessions[s].userId];
    w1 := Checks(w, policy, s, row, owner, now, foreground);
    if DirectoryUsable(w.directories, owner) {
      w2 := TouchesIfDue(w1, policy, s, now, foreground);
    } else {
      w2 := Rejects(w1, policy, s);
    }
  }

  lemma LoadedEnds(w: World, policy: Policy, s: SessionId, now: Time, foreground: bool) returns (w3: World)
    requires s in w.sessions && !IsExpired(w.sessions[s], policy, now) && w.accepted == []
    requires w.tasks == map[0 := ResolveLoaded(s, w.sessions[s], now, foreground)]
    ensures w3 == Advanced(w, policy, 0, 3) && Ended(w3, w.users, w.sessions, w.directories, policy, s, now, foreground)
  {
    var row := w.sessions[s];
    var w1, w2 := w, w;
    if !Usable(w.users, row) {
      w1 := CompareRejects(w, policy, s, row, now, foreground);
      w2 := Rejects(w1, policy, s);
      w3 := Idles(w2, policy, 0);
    } else if w.users[row.userId].realm.Local? {
      w1 := CompareAccepts(w, policy, s, row, now, foreground);
      w2 := TouchesIfDue(w1, policy, s, now, foreground);
      w3 := Idles(w2, policy, 0);
    } else {
      w1 := CompareGoesOn(w, policy, s, row, now, foreground);
      w2, w3 := JudgedEnds(w1, policy, s, now, foreground);
    }
    AdvancedThree(w, policy, 0, w1, w2, w3);
  }

  lemma GoneEnds(w: World, policy: Policy, s: SessionId, now: Time, foreground: bool) returns (w3: World)
    requires w.accepted == []
    requires w.tasks == if s in w.sessions then map[0 := ResolveExpired(s, now, foreground)] else map[]
    requires s in w.sessions ==> IsExpired(w.sessions[s], policy, now)
    ensures w3 == Advanced(w, policy, 0, 3) && Ended(w3, w.users, w.sessions, w.directories, policy, s, now, foreground)
  {
    var w1 := w;
    if s in w.sessions {
      w1 := Deletes(w, policy, s, now, foreground);
    } else {
      w1 := Idles(w, policy, 0);
      assert w.sessions - {s} == w.sessions;
    }
    var w2 := Idles(w1, policy, 0);
    w3 := Idles(w2, policy, 0);
    AdvancedThree(w, policy, 0, w1, w2, w3);
  }

  lemma ResolvingSteps(users: Users, sessions: Sessions, directories: Directories, policy: Policy, s: SessionId,
                       now: Time, foreground: bool)
    ensures Ended(Resolved(users, sessions, directories, policy, s, now, foreground), users, sessions, directories,
              policy,
                  s, now, foreground)
  {
    var w := LookupBegins(users, sessions, directories, policy, s, now, foreground);
    if s in sessions && !IsExpired(sessions[s], policy, now) {
      var w3 := LoadedEnds(w, policy, s, now, foreground);
    } else {
      var w3 := GoneEnds(w, policy, s, now, foreground);
    }
  }

  /** The statements of a lookup lead to these sessions, and accept if `ok`. */
  ghost predicate LookedUpBySteps(users: Users, sessions: Sessions, directories: Directories, policy: Policy,
                                  s: SessionId, now: Time, foreground: bool, sessions': Sessions, ok: bool) {
    forall n: nat :: 3 <= n ==>
      var w := Advanced(Begun(users, sessions, directories, policy, s, now, foreground), policy, 0, n);
      w.sessions == sessions' && w.tasks == map[] && (ok <==> w.accepted != [])
  }

  lemma LookingUpBySteps(users: Users, sessions: Sessions, directories: Directories, policy: Policy, s: SessionId,
                         now: Time, foreground: bool)
    ensures var ok := s in sessions && !IsExpired(sessions[s], policy, now)
            && Acceptable(users, directories, sessions[s]);
            LookedUpBySteps(users, sessions, directories, policy, s, now, foreground,
                            if ok then TouchedSessions(sessions, policy, s, now, foreground) else sessions - {s}, ok)
  {
    ResolvingSteps(users, sessions, directories, policy, s, now, foreground);
    var w := Begun(users, sessions, directories, policy, s, now, foreground);
    var end := Resolved(users, sessions, directories, policy, s, now, foreground);
    forall n: nat | 3 <= n
      ensures var w' := Advanced(w, policy, 0, n);
              w'.sessions == end.sessions && w'.tasks == map[] && w'.accepted == end.accepted
    {
      AdvancedPast(w, policy, 0, 3, n);
    }
  }

  ghost predicate TouchedByStep(users: Users, sessions: Sessions, s: SessionId, now: Time, sessions': Sessions) {
    forall policy :: Advanced(Alone(users, sessions, now, ResolveTouching(s, now)), policy, 0, 1).sessions == sessions'
  }

  lemma TouchingStep(users: Users, sessions: Sessions, s: SessionId, now: Time)
    ensures TouchedByStep(users, sessions, s, now,
                          if s in sessions && sessions[s].lastSeenAt < now
                            then sessions[s := sessions[s].(lastSeenAt := now)]
                          else sessions)
  {
    forall policy
      ensures Advanced(Alone(users, sessions, now, ResolveTouching(s, now)), policy, 0, 1).sessions
              == if s in sessions && sessions[s].lastSeenAt < now then sessions[s := sessions[s].(lastSeenAt := now)]
                else sessions
    {
      var w := Alone(users, sessions, now, ResolveTouching(s, now));
      TouchApplies(w, policy, ResolveTouching(s, now));
      AdvancedOne(w, policy, 0, Perform(w, ResolveTouch(w, 0, ResolveTouching(s, now))));
    }
  }

  lemma TouchedMeaning(sessions: Sessions, policy: Policy, s: SessionId, now: Time, foreground: bool)
    requires 2 <= policy.idleTimeout && s in sessions
    ensures var after := TouchedSessions(sessions, policy, s, now, foreground);
            && s in after && after == sessions[s := sessions[s].(lastSeenAt := after[s].lastSeenAt)]
            && sessions[s].lastSeenAt <= after[s].lastSeenAt
            && (foreground ==> now - after[s].lastSeenAt < TouchInterval(policy))
            && (!foreground ==> after == sessions)
  {
    assert sessions[s := sessions[s]] == sessions;
  }

  lemma FailMeaning(row: UserRow, policy: Policy, now: Time)
    ensures var after := FailTimes(row, policy, [now]);
            if policy.maxFailures <= row.failedLoginCount + 1
            then after == row.(failedLoginCount := 0, lockedUntil := Some(now + policy.lockout))
            else after == row.(failedLoginCount := row.failedLoginCount + 1)
  {
    FailOnce(row, policy, now);
  }
}
