/** Logins and password changes from their first statement to their last, taken alone. */
module Logins {
  import opened Accounts
  import opened LoginProtocol
  import opened Options
  import opened Statements

  /** The stored hash was made from this password. */
  predicate Matches(row: UserRow, password: Password) {
    row.passwordHash.Some? && row.passwordHash.value.password == password
  }

  /** A local user who is not locked at this time. */
  predicate MayTry(users: Users, u: UserId, now: Time) {
    u in users && users[u].realm.Local? && (users[u].lockedUntil.None? || users[u].lockedUntil.value <= now)
  }

  ghost function Login(users: Users, sessions: Sessions, policy: Policy, u: UserId, password: Password, now: Time,
                       drawn: nat, n: nat): World {
    Advanced(Apply(Tables(users, sessions, now), policy, BeginLogin(0, u, password)), policy, drawn, n)
  }

  ghost predicate Unchanged(w: World, users: Users, sessions: Sessions) {
    Shows(w, users, sessions, map[]) && w.log == []
  }

  /** A wrong password counts as one failure, and locks when the count is full. */
  ghost predicate Refused(w: World, users: Users, sessions: Sessions, policy: Policy, u: UserId, now: Time)
    requires u in users
  {
    && Shows(w, users[u := FailTimes(users[u], policy, [now])], sessions, map[])
    && Failed(u) in w.log && LoggedIn(u, now) !in w.log
  }

  /** One session more, under the drawn id and with the user's current marker; the user has no
      failures and no lock, and a hash of the same password with the current cost. */
  ghost predicate LetIn(w: World, users: Users, sessions: Sessions, policy: Policy, u: UserId, password: Password,
                        now: Time, drawn: nat)
    requires u in users && users[u].passwordHash.Some?
  {
    && w.tasks == map[] && LoggedIn(u, now) in w.log && Failed(u) !in w.log
    && w.sessions == sessions[drawn :=
      SessionRow(u, now, now, now + policy.absoluteTimeout, users[u].passwordChangedAt)]
    && u in w.users && w.users == users[u := w.users[u]]
    && w.users[u] == users[u].(failedLoginCount := 0, lockedUntil := None, passwordHash := w.users[u].passwordHash)
    && w.users[u].passwordHash.Some?
    && w.users[u].passwordHash.value.password == password && w.users[u].passwordHash.value.cost == CURRENT_COST
    && (users[u].passwordHash.value.cost == CURRENT_COST ==> w.users[u].passwordHash == users[u].passwordHash)
  }

  /** What comes of a login with these tables. */
  ghost predicate LoginResult(w: World, users: Users, sessions: Sessions, policy: Policy, u: UserId,
                              password: Password, now: Time, drawn: nat) {
    if !MayTry(users, u, now) then Unchanged(w, users, sessions)
    else if !Matches(users[u], password) then Refused(w, users, sessions, policy, u, now)
    else if !users[u].isActive then Unchanged(w, users, sessions)
    else LetIn(w, users, sessions, policy, u, password, now, drawn)
  }

  // ---- one statement each

  lemma DrawnIsIgnored(w: World, policy: Policy, drawn: nat, w': World)
    requires Next(w, policy, 0, w') && 0 in w.tasks
    requires !w.tasks[0].LoginRehashing? && !w.tasks[0].LoginCreating? && !w.tasks[0].ChangeHashing?
    ensures Next(w, policy, drawn, w')
  {
    assert AdvanceTask(w, policy, 0, drawn) == AdvanceTask(w, policy, 0, 0);
  }

  lemma LoginBegins(users: Users, sessions: Sessions, policy: Policy, u: UserId, password: Password, now: Time)
    returns (w: World)
    ensures w == Apply(Tables(users, sessions, now), policy, BeginLogin(0, u, password))
    ensures w.clock == now && w.log == [] && w.accepted == [] && w.born.Keys == sessions.Keys
    ensures !MayTry(users, u, now) ==> Shows(w, users, sessions, map[])
    ensures MayTry(users, u, now) ==>
              var row := users[u];
              Shows(w, users, sessions,
                    map[0 := LoginVerifying(u, password, now, row.passwordChangedAt, row.passwordHash, row.isActive)])
  {
    w := Apply(Tables(users, sessions, now), policy, BeginLogin(0, u, password));
    assert Tables(users, sessions, now).log + [] == [];
  }

  lemma VerifyApplies(w: World, policy: Policy, drawn: nat, task: Task)
    requires 0 in w.tasks && w.tasks[0] == task && task.LoginVerifying?
    ensures Next(w, policy, drawn, Perform(w, LoginVerify(0, task)))
  {
  }

  ghost predicate SameHistory(w: World, w': World) {
    w'.clock == w.clock && w'.born == w.born && w'.chosen == w.chosen
  }

  /** A statement that changes nothing but where a task stands. */
  lemma TaskMoves(w: World, change: TaskChange) returns (w': World)
    ensures w' == Perform(w, Effect(change)) && SameHistory(w, w') && w'.log == w.log
    ensures Shows(w', w.users, w.sessions, NewTasks(w.tasks, change))
  {
    w' := Perform(w, Effect(change));
    assert w.log + [] == w.log;
  }

  lemma VerifyMeans(task: Task)
    requires task.LoginVerifying?
    ensures var wrong := task.hash.None? || task.hash.value.password != task.password;
            LoginVerify(0, task)
            == Effect(if wrong then Await(0, LoginFailing(task.user, task.now))
                      else if !task.active then Finish(0)
                      else Await(0, LoginPassed(task.user, task.password, task.now, task.generation,
                                                task.hash.value.cost != CURRENT_COST)))
  {
  }

  lemma Verifies(w: World, policy: Policy, drawn: nat, task: Task) returns (w': World)
    requires w.tasks == map[0 := task] && task.LoginVerifying? && w.log == []
    ensures Next(w, policy, drawn, w') && SameHistory(w, w') && w'.log == []
    ensures Shows(w', w.users, w.sessions,
                  if task.hash.None? || task.hash.value.password != task.password
                  then map[0 := LoginFailing(task.user, task.now)]
                  else if !task.active then map[]
                  else map[0 := LoginPassed(task.user, task.password, task.now, task.generation,
                                            task.hash.value.cost != CURRENT_COST)])
  {
    VerifyApplies(w, policy, drawn, task);
    VerifyMeans(task);
    w' := TaskMoves(w, LoginVerify(0, task).task);
  }

  lemma RereadApplies(w: World, policy: Policy, drawn: nat, task: Task)
    requires 0 in w.tasks && w.tasks[0] == task && task.LoginPassed?
    ensures Next(w, policy, drawn, Perform(w, LoginReread(w, 0, task)))
  {
  }

  lemma Rereads(w: World, policy: Policy, drawn: nat, task: Task) returns (w': World)
    requires w.tasks == map[0 := task] && task.LoginPassed? && w.log == []
    requires task.user in w.users && w.users[task.user].passwordChangedAt == task.generation
             && w.users[task.user].isActive
    ensures Next(w, policy, drawn, w') && SameHistory(w, w') && w'.log == []
    ensures Shows(w', w.users, w.sessions,
                  map[0 := LoginChecked(task.user, task.password, task.now, task.generation,
                                        w.users[task.user].passwordHash, task.stale)])
  {
    RereadApplies(w, policy, drawn, task);
    w' := TaskMoves(w, LoginReread(w, 0, task).task);
  }

  /** Where a login goes after its success statement. */
  function AfterSuccess(task: Task): Task
    requires task.LoginChecked?
  {
    if task.stale && task.hash.Some? then LoginRehashing(task.user, task.password, task.generation, task.hash.value)
    else LoginCreating(task.user, task.password, task.generation)
  }

  lemma GoesOn(w: World, policy: Policy, drawn: nat, task: Task) returns (w': World)
    requires w.tasks == map[0 := task] && task.LoginChecked? && w.log == [] && MayTry(w.users, task.user, task.now)
    ensures Next(w, policy, drawn, w') && SameHistory(w, w') && w'.log == [LoggedIn(task.user, task.now)]
    ensures Shows(w', w.users[task.user := w.users[task.user].(failedLoginCount := 0, lockedUntil := None)], w.sessions,
                  map[0 := AfterSuccess(task)])
  {
    SuccessApplies(w, policy, task);
    w' := Perform(w, LoginSucceed(w, 0, task));
    DrawnIsIgnored(w, policy, drawn, w');
    assert [] + [LoggedIn(task.user, task.now)] == [LoggedIn(task.user, task.now)];
  }

  lemma Rehashes(w: World, policy: Policy, drawn: nat, task: Task) returns (w': World)
    requires w.tasks == map[0 := task] && task.LoginRehashing?
    requires task.user in w.users && w.users[task.user].passwordHash == Some(task.verifiedHash)
    ensures Next(w, policy, drawn, w') && SameHistory(w, w') && w'.log == w.log
    ensures Shows(w', w.users[task.user :=
                                w.users[task.user].(passwordHash :=
                                  Some(PasswordHash(task.password, drawn, CURRENT_COST)))],
                  w.sessions, map[0 := LoginCreating(task.user, task.password, task.generation)])
  {
    RehashApplies(w, policy, task, drawn);
    w' := Perform(w, LoginRehash(w, 0, task, drawn));
    assert w.log + [] == w.log;
  }

  lemma CreateApplies(w: World, policy: Policy, drawn: nat, task: Task)
    requires 0 in w.tasks && w.tasks[0] == task && task.LoginCreating?
    ensures Next(w, policy, drawn, Perform(w, LoginCreate(w, policy, 0, task, drawn)))
  {
  }

  lemma Creates(w: World, policy: Policy, drawn: nat, task: Task) returns (w': World)
    requires w.tasks == map[0 := task] && task.LoginCreating? && task.user in w.users && drawn !in w.born
    ensures Next(w, policy, drawn, w') && w'.log == w.log
    ensures Shows(w', w.users,
                  w.sessions[drawn := SessionRow(task.user, w.clock, w.clock, w.clock + policy.absoluteTimeout,
                                                 task.generation)], map[])
  {
    CreateApplies(w, policy, drawn, task);
    w' := Perform(w, LoginCreate(w, policy, 0, task, drawn));
    assert w.log + [] == w.log;
  }

  // ---- chains of statements

  /** After `k` statements, and any more, the world is like `end`. */
  ghost predicate Ends(w: World, policy: Policy, drawn: nat, k: nat, end: World) {
    Advanced(w, policy, drawn, k) == end
  }

  lemma EndsNow(w: World, policy: Policy, drawn: nat)
    ensures Ends(w, policy, drawn, 0, w)
  {
  }

  lemma EndsLater(w: World, policy: Policy, drawn: nat, w': World, k: nat, end: World)
    requires Next(w, policy, drawn, w') && Ends(w', policy, drawn, k, end)
    ensures Ends(w, policy, drawn, k + 1, end)
  {
  }

  /** The tables after a success: counter and lock cleared, this hash stored. */
  function Entered(users: Users, u: UserId, hash: Option<PasswordHash>): Users
    requires u in users
  {
    users[u := users[u].(failedLoginCount := 0, lockedUntil := None, passwordHash := hash)]
  }

  function WithSession(sessions: Sessions, policy: Policy, drawn: nat, u: UserId, now: Time,
                       generation: Option<Time>): Sessions {
    sessions[drawn := SessionRow(u, now, now, now + policy.absoluteTimeout, generation)]
  }

  lemma SessionIsMade(w: World, policy: Policy, drawn: nat, task: Task) returns (end: World)
    requires w.tasks == map[0 := task] && task.LoginCreating? && task.user in w.users && drawn !in w.born
    ensures Ends(w, policy, drawn, 1, end) && end.log == w.log
    ensures Shows(end, w.users, WithSession(w.sessions, policy, drawn, task.user, w.clock, task.generation), map[])
  {
    end := Creates(w, policy, drawn, task);
    EndsNow(end, policy, drawn);
    EndsLater(w, policy, drawn, end, 0, end);
  }

  lemma LetInWith(end: World, users: Users, sessions: Sessions, policy: Policy, u: UserId, now: Time, drawn: nat,
                  hash: PasswordHash)
    requires u in users && users[u].passwordHash.Some? && hash.cost == CURRENT_COST
    requires users[u].passwordHash.value.cost == CURRENT_COST ==> users[u].passwordHash == Some(hash)
    requires end.log == [LoggedIn(u, now)]
    requires Shows(end, Entered(users, u, Some(hash)),
                   WithSession(sessions, policy, drawn, u, now, users[u].passwordChangedAt), map[])
    ensures LetIn(end, users, sessions, policy, u, hash.password, now, drawn)
  {
  }

  lemma PutTwice(users: Users, u: UserId, a: UserRow, b: UserRow)
    ensures users[u := a][u := b] == users[u := b]
  {
  }

  lemma EnteredTwice(users: Users, u: UserId, first: Option<PasswordHash>, hash: PasswordHash)
    requires u in users
    ensures Entered(users, u, first)[u := Entered(users, u, first)[u].(passwordHash := Some(hash))]
              == Entered(users, u, Some(hash))
  {
  }

  lemma StillEntered(users: Users, u: UserId)
    requires u in users
    ensures users[u := users[u].(failedLoginCount := 0, lockedUntil := None)]
              == Entered(users, u, users[u].passwordHash)
  {
  }

  /** The success statement of a checked login. */
  lemma Enters(w: World, policy: Policy, drawn: nat, task: Task) returns (w': World)
    requires w.tasks == map[0 := task] && task.LoginChecked? && w.log == [] && MayTry(w.users, task.user, task.now)
    requires task.hash == w.users[task.user].passwordHash
    ensures Next(w, policy, drawn, w') && SameHistory(w, w') && w'.log == [LoggedIn(task.user, task.now)]
    ensures Shows(w', Entered(w.users, task.user, task.hash), w.sessions, map[0 := AfterSuccess(task)])
  {
    w' := GoesOn(w, policy, drawn, task);
    StillEntered(w.users, task.user);
  }

  lemma FreshIsLetIn(w: World, policy: Policy, drawn: nat, task: Task) returns (end: World)
    requires w.tasks == map[0 := task] && task.LoginChecked? && w.log == [] && drawn !in w.born && task.now == w.clock
    requires MayTry(w.users, task.user, task.now) && Matches(w.users[task.user], task.password)
    requires task.hash == w.users[task.user].passwordHash && task.generation == w.users[task.user].passwordChangedAt
    requires !task.stale && task.hash.value.cost == CURRENT_COST
    ensures Ends(w, policy, drawn, 2, end)
    ensures LetIn(end, w.users, w.sessions, policy, task.user, task.password, task.now, drawn)
  {
    var w' := Enters(w, policy, drawn, task);
    end := SessionIsMade(w', policy, drawn, AfterSuccess(task));
    EndsLater(w, policy, drawn, w', 1, end);
    LetInWith(end, w.users, w.sessions, policy, task.user, task.now, drawn, task.hash.value);
  }

  lemma StaleIsReplaced(w: World, users: Users, policy: Policy, drawn: nat, task: Task) returns (w': World)
    requires w.tasks == map[0 := task] && task.LoginRehashing? && task.user in users
    requires w.users == Entered(users, task.user, Some(task.verifiedHash))
    ensures Next(w, policy, drawn, w') && SameHistory(w, w') && w'.log == w.log
    ensures Shows(w', Entered(users, task.user, Some(PasswordHash(task.password, drawn, CURRENT_COST))), w.sessions,
                  map[0 := LoginCreating(task.user, task.password, task.generation)])
  {
    w' := Rehashes(w, policy, drawn, task);
    EnteredTwice(users, task.user, Some(task.verifiedHash), PasswordHash(task.password, drawn, CURRENT_COST));
  }

  lemma StaleEnds(w: World, policy: Policy, drawn: nat, task: Task) returns (end: World)
    requires w.tasks == map[0 := task] && task.LoginChecked? && w.log == [] && drawn !in w.born && task.now == w.clock
    requires MayTry(w.users, task.user, task.now) && task.stale && task.hash.Some?
    requires task.hash == w.users[task.user].passwordHash
    ensures Ends(w, policy, drawn, 3, end) && end.log == [LoggedIn(task.user, task.now)]
    ensures Shows(end, Entered(w.users, task.user, Some(PasswordHash(task.password, drawn, CURRENT_COST))),
                  WithSession(w.sessions, policy, drawn, task.user, w.clock, task.generation), map[])
  {
    var w1 := Enters(w, policy, drawn, task);
    var w2 := StaleIsReplaced(w1, w.users, policy, drawn, AfterSuccess(task));
    end := SessionIsMade(w2, policy, drawn, LoginCreating(task.user, task.password, task.generation));
    EndsLater(w1, policy, drawn, w2, 1, end);
    EndsLater(w, policy, drawn, w1, 2, end);
  }

  lemma StaleIsLetIn(w: World, policy: Policy, drawn: nat, task: Task) returns (end: World)
    requires w.tasks == map[0 := task] && task.LoginChecked? && w.log == [] && drawn !in w.born && task.now == w.clock
    requires MayTry(w.users, task.user, task.now) && Matches(w.users[task.user], task.password)
    requires task.hash == w.users[task.user].passwordHash && task.generation == w.users[task.user].passwordChangedAt
    requires task.stale && task.hash.value.cost != CURRENT_COST
    ensures Ends(w, policy, drawn, 3, end)
    ensures LetIn(end, w.users, w.sessions, policy, task.user, task.password, task.now, drawn)
  {
    end := StaleEnds(w, policy, drawn, task);
    LetInWith(end, w.users, w.sessions, policy, task.user, task.now, drawn,
              PasswordHash(task.password, drawn, CURRENT_COST));
  }

  lemma CheckedIsLetIn(w: World, policy: Policy, drawn: nat, task: Task) returns (k: nat, end: World)
    requires w.tasks == map[0 := task] && task.LoginChecked? && w.log == [] && drawn !in w.born && task.now == w.clock
    requires MayTry(w.users, task.user, task.now) && Matches(w.users[task.user], task.password)
    requires task.hash == w.users[task.user].passwordHash && task.generation == w.users[task.user].passwordChangedAt
    requires task.stale == (task.hash.value.cost != CURRENT_COST)
    ensures k <= 3 && Ends(w, policy, drawn, k, end)
    ensures LetIn(end, w.users, w.sessions, policy, task.user, task.password, task.now, drawn)
  {
    if task.stale {
      k := 3;
      end := StaleIsLetIn(w, policy, drawn, task);
    } else {
      k := 2;
      end := FreshIsLetIn(w, policy, drawn, task);
    }
  }

  /** A verified login from its second look at the row on. */
  lemma PassedIsLetIn(w: World, policy: Policy, drawn: nat, task: Task) returns (k: nat, end: World)
    requires w.tasks == map[0 := task] && task.LoginPassed? && w.log == [] && drawn !in w.born && task.now == w.clock
    requires MayTry(w.users, task.user, task.now) && Matches(w.users[task.user], task.password)
    requires w.users[task.user].isActive && task.generation == w.users[task.user].passwordChangedAt
    requires task.stale == (w.users[task.user].passwordHash.value.cost != CURRENT_COST)
    ensures k <= 4 && Ends(w, policy, drawn, k, end)
    ensures LetIn(end, w.users, w.sessions, policy, task.user, task.password, task.now, drawn)
  {
    var hash := w.users[task.user].passwordHash;
    var w' := Rereads(w, policy, drawn, task);
    var checked := LoginChecked(task.user, task.password, task.now, task.generation, hash, task.stale);
    var rest;
    rest, end := CheckedIsLetIn(w', policy, drawn, checked);
    EndsLater(w, policy, drawn, w', rest, end);
    k := rest + 1;
  }

  lemma FailureIsCounted(w: World, policy: Policy, drawn: nat, u: UserId, now: Time) returns (k: nat, end: World)
    requires w.tasks == map[0 := LoginFailing(u, now)] && u in w.users && w.log == []
    ensures k <= 2 && Ends(w, policy, drawn, k, end)
    ensures Refused(end, w.users, w.sessions, policy, u, now)
  {
    var counted := CountFailure(w.users[u]);
    FailOnce(w.users[u], policy, now);
    var w1 := Fails(w, policy, u, now);
    DrawnIsIgnored(w, policy, drawn, w1);
    if IsFull(counted, policy) {
      end := Locks(w1, policy, u, now);
      DrawnIsIgnored(w1, policy, drawn, end);
      PutTwice(w.users, u, counted, Lock(counted, policy, now));
      EndsNow(end, policy, drawn);
      EndsLater(w1, policy, drawn, end, 0, end);
      EndsLater(w, policy, drawn, w1, 1, end);
      k := 2;
    } else {
      end := w1;
      EndsNow(end, policy, drawn);
      EndsLater(w, policy, drawn, w1, 0, end);
      k := 1;
    }
  }

  lemma LoginRunsToResult(users: Users, sessions: Sessions, policy: Policy, u: UserId, password: Password, now: Time,
                          drawn: nat) returns (k: nat, end: World)
    requires drawn !in sessions
    ensures k <= 5 && LoginResult(end, users, sessions, policy, u, password, now, drawn)
    ensures Ends(Apply(Tables(users, sessions, now), policy, BeginLogin(0, u, password)), policy, drawn, k, end)
  {
    var w := LoginBegins(users, sessions, policy, u, password, now);
    if !MayTry(users, u, now) {
      k, end := 0, w;
      EndsNow(w, policy, drawn);
    } else {
      var row := users[u];
      var w1 := Verifies(w, policy, drawn,
                         LoginVerifying(u, password, now, row.passwordChangedAt, row.passwordHash, row.isActive));
      if !Matches(row, password) {
        k, end := FailureIsCounted(w1, policy, drawn, u, now);
      } else if !row.isActive {
        k, end := 0, w1;
        EndsNow(w1, policy, drawn);
      } else {
        var stale := row.passwordHash.value.cost != CURRENT_COST;
        k, end := PassedIsLetIn(w1, policy, drawn, LoginPassed(u, password, now, row.passwordChangedAt, stale));
      }
      EndsLater(w, policy, drawn, w1, k, end);
      k := k + 1;
    }
  }

  /** A login that nobody disturbs: a wrong password is counted, and locks at the maximum; the right
      one lets an active user in with exactly one session; a locked user learns nothing and nothing
      changes. */
  lemma LoginAlone(users: Users, sessions: Sessions, policy: Policy, u: UserId, password: Password, now: Time,
                   drawn: nat, n: nat)
    requires drawn !in sessions && 5 <= n
    ensures LoginResult(Login(users, sessions, policy, u, password, now, drawn, n), users, sessions, policy, u,
                        password, now, drawn)
  {
    var w := Apply(Tables(users, sessions, now), policy, BeginLogin(0, u, password));
    var k, end := LoginRunsToResult(users, sessions, policy, u, password, now, drawn);
    assert Advanced(w, policy, drawn, k) == end && end.tasks == map[];
    AdvancedPast(w, policy, drawn, k, n);
  }

  // ---- a change of the password

  ghost function OwnChange(users: Users, sessions: Sessions, policy: Policy, u: UserId, current: Password,
                           password: Password, keep: Option<SessionId>, now: Time, drawn: nat, n: nat): World {
    Advanced(Apply(Tables(users, sessions, now), policy, BeginOwnChange(0, u, current, password, keep)), policy, drawn,
      n)
  }

  ghost function Reset(users: Users, sessions: Sessions, policy: Policy, u: UserId, password: Password,
                       keep: Option<SessionId>, now: Time, drawn: nat, n: nat): World {
    Advanced(Apply(Tables(users, sessions, now), policy, BeginReset(0, u, password, keep)), policy, drawn, n)
  }

  /** The new password is the only one that verifies, of the generation `now`; the lock is gone; of
      the user's sessions only the kept one is left, with the new generation. */
  ghost predicate Replaced(w: World, users: Users, sessions: Sessions, u: UserId, password: Password,
                           keep: Option<SessionId>, now: Time)
    requires u in users
  {
    && w.tasks == map[] && u in w.users && w.users == users[u := w.users[u]]
    && w.users[u] == users[u].(passwordHash := w.users[u].passwordHash, passwordChangedAt := Some(now),
                               failedLoginCount := 0, lockedUntil := None)
    && w.users[u].passwordHash.Some?
    && w.users[u].passwordHash.value.password == password && w.users[u].passwordHash.value.cost == CURRENT_COST
    && (forall s :: s in w.sessions <==> s in sessions && (sessions[s].userId != u || Some(s) == keep))
    && (forall s :: s in w.sessions ==>
          w.sessions[s] == if sessions[s].userId == u then sessions[s].(credentialMarker := Some(now)) else sessions[s])
  }

  lemma ChangeBegins(users: Users, sessions: Sessions, policy: Policy, u: UserId, current: Password, password: Password,
                     keep: Option<SessionId>, now: Time) returns (w: World)
    ensures w == Apply(Tables(users, sessions, now), policy, BeginOwnChange(0, u, current, password, keep))
    ensures w.clock == now && w.log == [] && w.chosen == map[]
    ensures Shows(w, users, sessions,
                  if u in users && users[u].realm.Local?
                  then map[0 := ChangeVerifying(u, current, password, keep, users[u].passwordHash)] else map[])
  {
    w := Apply(Tables(users, sessions, now), policy, BeginOwnChange(0, u, current, password, keep));
    assert Tables(users, sessions, now).log + [] == [];
  }

  lemma ResetBegins(users: Users, sessions: Sessions, policy: Policy, u: UserId, password: Password,
                    keep: Option<SessionId>, now: Time) returns (w: World)
    ensures w == Apply(Tables(users, sessions, now), policy, BeginReset(0, u, password, keep))
    ensures w.clock == now && w.log == [] && w.chosen == map[]
    ensures Shows(w, users, sessions,
                  if u in users && users[u].realm.Local? then map[0 := ChangeHashing(u, password, keep, None)]
                    else map[])
  {
    w := Apply(Tables(users, sessions, now), policy, BeginReset(0, u, password, keep));
    assert Tables(users, sessions, now).log + [] == [];
  }

  lemma CurrentApplies(w: World, policy: Policy, drawn: nat, task: Task)
    requires 0 in w.tasks && w.tasks[0] == task && task.ChangeVerifying?
    ensures Next(w, policy, drawn, Perform(w, ChangeVerify(0, task)))
  {
  }

  lemma HashApplies(w: World, policy: Policy, drawn: nat, task: Task)
    requires 0 in w.tasks && w.tasks[0] == task && task.ChangeHashing?
    ensures Next(w, policy, drawn, Perform(w, ChangeHash(w, 0, task, drawn)))
  {
  }

  lemma ChecksCurrent(w: World, policy: Policy, drawn: nat, task: Task) returns (w': World)
    requires w.tasks == map[0 := task] && task.ChangeVerifying? && w.log == []
    ensures Next(w, policy, drawn, w') && SameHistory(w, w') && w'.log == []
    ensures Shows(w', w.users, w.sessions,
                  if task.verified.Some? && task.verified.value.password == task.current
                    && task.current != task.password
                  then map[0 := ChangeHashing(task.user, task.password, task.keep, task.verified)] else map[])
  {
    CurrentApplies(w, policy, drawn, task);
    w' := TaskMoves(w, ChangeVerify(0, task).task);
  }

  lemma Hashes(w: World, policy: Policy, drawn: nat, task: Task) returns (w': World)
    requires w.tasks == map[0 := task] && task.ChangeHashing?
    ensures Next(w, policy, drawn, w') && SameHistory(w, w')
    ensures Shows(w', w.users, w.sessions,
                  map[0 := ChangeWriting(task.user, task.password, task.keep, task.expected,
                                         PasswordHash(task.password, drawn, CURRENT_COST), w.clock)])
  {
    HashApplies(w, policy, drawn, task);
    w' := Perform(w, ChangeHash(w, 0, task, drawn));
  }

  lemma WritingReplaces(w: World, policy: Policy, drawn: nat, step: Task) returns (end: World)
    requires step.ChangeWriting? && w.tasks == map[0 := step] && w.chosen == map[] && step.user in w.users
    requires step.expected.Some? ==> w.users[step.user].passwordHash == step.expected
    requires step.newHash.password == step.password && step.newHash.cost == CURRENT_COST
    ensures Ends(w, policy, drawn, 3, end)
    ensures Replaced(end, w.users, w.sessions, step.user, step.password, step.keep, step.changedAt)
  {
    var w1 := Writes(w, policy, step);
    DrawnIsIgnored(w, policy, drawn, w1);
    var w2 := Revokes(w1, policy, step);
    DrawnIsIgnored(w1, policy, drawn, w2);
    if step.keep.Some? {
      end := Stamps(w2, policy, step);
      DrawnIsIgnored(w2, policy, drawn, end);
    } else {
      end := Idles(w2, policy, drawn);
    }
    EndsNow(end, policy, drawn);
    EndsLater(w2, policy, drawn, end, 0, end);
    EndsLater(w1, policy, drawn, w2, 1, end);
    EndsLater(w, policy, drawn, w1, 2, end);
    ChangedMeaning(w.users, w.sessions, step);
    ChangedRow(w.users, step);
  }

  lemma ChangedRow(users: Users, step: Task)
    requires step.ChangeWriting? && Changes(users, step)
    ensures var after := ChangedUsers(users, step);
            after == users[step.user := users[step.user].(passwordHash := Some(step.newHash),
                                                          passwordChangedAt := Some(step.changedAt),
                                                          failedLoginCount := 0, lockedUntil := None)]
  {
  }

  lemma HashingReplaces(w: World, policy: Policy, drawn: nat, task: Task) returns (end: World)
    requires task.ChangeHashing? && w.tasks == map[0 := task] && w.chosen == map[] && task.user in w.users
    requires task.expected.Some? ==> w.users[task.user].passwordHash == task.expected
    ensures Ends(w, policy, drawn, 4, end)
    ensures Replaced(end, w.users, w.sessions, task.user, task.password, task.keep, w.clock)
  {
    var w' := Hashes(w, policy, drawn, task);
    end := WritingReplaces(w', policy, drawn, w'.tasks[0]);
    EndsLater(w, policy, drawn, w', 3, end);
  }

  /** An own change that nobody disturbs replaces the password exactly if the current one is typed
      and the new one differs from it. */
  lemma OwnChangeAlone(users: Users, sessions: Sessions, policy: Policy, u: UserId, current: Password,
                       password: Password, keep: Option<SessionId>, now: Time, drawn: nat, n: nat)
    requires 5 <= n
    ensures var w := OwnChange(users, sessions, policy, u, current, password, keep, now, drawn, n);
            if u in users && users[u].realm.Local? && Matches(users[u], current) && current != password
            then Replaced(w, users, sessions, u, password, keep, now)
            else Shows(w, users, sessions, map[])
  {
    var w := ChangeBegins(users, sessions, policy, u, current, password, keep, now);
    if u in users && users[u].realm.Local? {
      var w1 := ChecksCurrent(w, policy, drawn, ChangeVerifying(u, current, password, keep, users[u].passwordHash));
      if Matches(users[u], current) && current != password {
        var end := HashingReplaces(w1, policy, drawn, ChangeHashing(u, password, keep, users[u].passwordHash));
        EndsLater(w, policy, drawn, w1, 4, end);
        assert Advanced(w, policy, drawn, 5) == end;
        AdvancedPast(w, policy, drawn, 5, n);
      } else {
        EndsNow(w1, policy, drawn);
        EndsLater(w, policy, drawn, w1, 0, w1);
        assert Advanced(w, policy, drawn, 1) == w1;
        AdvancedPast(w, policy, drawn, 1, n);
      }
    } else {
      EndsNow(w, policy, drawn);
      AdvancedPast(w, policy, drawn, 0, n);
    }
  }

  /** An administrator's reset always replaces a local user's password. */
  lemma ResetAlone(users: Users, sessions: Sessions, policy: Policy, u: UserId, password: Password,
                   keep: Option<SessionId>, now: Time, drawn: nat, n: nat)
    requires 4 <= n
    ensures var w := Reset(users, sessions, policy, u, password, keep, now, drawn, n);
            if u in users && users[u].realm.Local? then Replaced(w, users, sessions, u, password, keep, now)
            else Shows(w, users, sessions, map[])
  {
    var w := ResetBegins(users, sessions, policy, u, password, keep, now);
    if u in users && users[u].realm.Local? {
      var end := HashingReplaces(w, policy, drawn, ChangeHashing(u, password, keep, None));
      assert Advanced(w, policy, drawn, 4) == end;
      AdvancedPast(w, policy, drawn, 4, n);
    } else {
      EndsNow(w, policy, drawn);
      AdvancedPast(w, policy, drawn, 0, n);
    }
  }
}
