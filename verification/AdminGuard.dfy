/** Changes of users and directories that never leave nobody who can log in as administrator. */
module AdminGuard {
  import opened Options

  type UserId = nat
  type DirectoryId = nat
  type TaskId = nat

  /** `directory` is None for a local user. */
  datatype User = User(directory: Option<DirectoryId>, admin: bool, active: bool)

  /** `allowed` says whether the security settings permit connecting to the directory. */
  datatype Directory = Directory(enabled: bool, adminMapping: bool, allowed: bool)

  /** One change that is made under the guard; None leaves a column as it is. */
  datatype Change =
    | UpdateUser(user: UserId, admin: Option<bool>, active: Option<bool>)
    | DeleteUser(user: UserId)
    | UpdateDirectory(directory: DirectoryId, enabled: Option<bool>, adminMapping: Option<bool>, allowed: Option<bool>)
    | DeleteDirectory(directory: DirectoryId)

  datatype Task = Waiting(change: Change) | Checking(change: Change) | Writing(change: Change)

  datatype State = State(localLogin: bool, users: map<UserId, User>, directories: map<DirectoryId, Directory>,
                         lock: Option<TaskId>, tasks: map<TaskId, Task>)

  datatype Step =
    | Begin(task: TaskId, change: Change)
    | TakeLock(task: TaskId)
    | Check(task: TaskId)
    | Write(task: TaskId)
    | Abandon(task: TaskId) // an exception: roll back and release
    | CreateUser(user: UserId, admin: bool)
    | ActivateUser(user: UserId) // the command line's unlock takes no guard
    | LogInDirectoryUser(user: UserId, directory: DirectoryId, admin: bool)
    | CreateDirectory(directory: DirectoryId, row: Directory)

  function LocalAdmins(s: State): set<UserId> {
    set u | u in s.users && s.users[u].directory.None? && s.users[u].admin && s.users[u].active
  }

  function AdminDirectories(s: State): set<DirectoryId> {
    set d | d in s.directories && s.directories[d].enabled && s.directories[d].adminMapping && s.directories[d].allowed
  }

  /** There is a way to log in as administrator. */
  predicate AdminCanLogIn(s: State) {
    (s.localLogin && LocalAdmins(s) != {}) || AdminDirectories(s) != {}
  }

  /** `ensure_not_last_admin`: whether the user may be demoted, disabled or deleted. */
  predicate NotLastAdmin(s: State, id: UserId)
    requires id in s.users
  {
    var user := s.users[id];
    if !user.admin || !user.active then true
    else if user.directory.None? then
      !s.localLogin || |LocalAdmins(s) - {id}| + |AdminDirectories(s)| != 0
    else if |AdminDirectories(s)| == |AdminDirectories(s) - {user.directory.value}| then true
    else OtherAdminSources(s, user.directory.value) != 0
  }

  function OtherAdminSources(s: State, id: DirectoryId): nat {
    (if s.localLogin then |LocalAdmins(s)| else 0) + |AdminDirectories(s) - {id}|
  }

  /** The row as the request wants it. */
  function EditedUser(user: User, c: Change): User
    requires c.UpdateUser?
  {
    user.(admin := if c.admin.Some? then c.admin.value else user.admin,
          active := if c.active.Some? then c.active.value else user.active)
  }

  function EditedDirectory(row: Directory, c: Change): Directory
    requires c.UpdateDirectory?
  {
    Directory(if c.enabled.Some? then c.enabled.value else row.enabled,
              if c.adminMapping.Some? then c.adminMapping.value else row.adminMapping,
              if c.allowed.Some? then c.allowed.value else row.allowed)
  }

  /** Changing the role first and then the activity, each with its own check. */
  predicate MayUpdateUser(s: State, c: Change)
    requires c.UpdateUser?
  {
    c.user in s.users &&
    var user := s.users[c.user];
    var roleChanges := c.admin.Some? && c.admin.value != user.admin;
    var promoted := s.(users := s.users[c.user := user.(admin := if c.admin.Some? then c.admin.value else user.admin)]);
    && (roleChanges ==> user.directory.None? && (c.admin.value || NotLastAdmin(s, c.user)))
    && (c.active.Some? && c.active.value != user.active && !c.active.value ==> NotLastAdmin(promoted, c.user))
  }

  predicate MayUpdateDirectory(s: State, c: Change)
    requires c.UpdateDirectory?
  {
    c.directory in s.directories &&
    var row, draft := s.directories[c.directory], EditedDirectory(s.directories[c.directory], c);
    var disabling := row.enabled && !draft.enabled;
    var droppingAdmin := row.enabled && draft.enabled && row.adminMapping && !draft.adminMapping;
    draft.allowed && ((disabling || droppingAdmin) ==> OtherAdminSources(s, c.directory) != 0)
  }

  /** Whether the change passes its checks; otherwise the request ends with an error. */
  predicate Permitted(s: State, c: Change) {
    match c
    case UpdateUser(_, _, _) => MayUpdateUser(s, c)
    case DeleteUser(id) => id in s.users && s.users[id].directory.None? && NotLastAdmin(s, id)
    case UpdateDirectory(_, _, _, _) => MayUpdateDirectory(s, c)
    case DeleteDirectory(id) => id in s.directories && !s.directories[id].enabled && OtherAdminSources(s, id) != 0
  }

  /** The write: only the columns that the request changes. */
  function Changed(s: State, c: Change): State {
    match c
    case UpdateUser(id, _, _) => if id in s.users then s.(users := s.users[id := EditedUser(s.users[id], c)]) else s
    case DeleteUser(id) => s.(users := s.users - {id})
    case UpdateDirectory(id, _, _, _) =>
      if id in s.directories then s.(directories := s.directories[id := EditedDirectory(s.directories[id], c)]) else s
    case DeleteDirectory(id) =>
      s.(directories := s.directories - {id},
         users := map u | u in s.users && s.users[u].directory != Some(id) :: s.users[u])
  }

  function Release(s: State, t: TaskId): State {
    s.(lock := None, tasks := s.tasks - {t})
  }

  function Apply(s: State, step: Step): State {
    match step
    case Begin(t, c) => if t in s.tasks then s else s.(tasks := s.tasks[t := Waiting(c)])
    case TakeLock(t) =>
      if t in s.tasks && s.tasks[t].Waiting? && s.lock.None?
      then s.(lock := Some(t), tasks := s.tasks[t := Checking(s.tasks[t].change)]) else s
    case Check(t) =>
      if t in s.tasks && s.tasks[t].Checking? then
        if Permitted(s, s.tasks[t].change) then s.(tasks := s.tasks[t := Writing(s.tasks[t].change)]) else Release(s, t)
      else s
    case Write(t) =>
      if t in s.tasks && s.tasks[t].Writing? then Release(Changed(s, s.tasks[t].change), t) else s
    case Abandon(t) => if t in s.tasks && !s.tasks[t].Waiting? then Release(s, t) else s
    case CreateUser(id, admin) => if id in s.users then s else s.(users := s.users[id := User(None, admin, true)])
    case ActivateUser(id) => if id in s.users then s.(users := s.users[id := s.users[id].(active := true)]) else s
    case LogInDirectoryUser(id, d, admin) =>
      if id in s.users && s.users[id].directory != Some(d) then s
      else s.(users := s.users[id := User(Some(d), admin, id !in s.users || s.users[id].active)])
    case CreateDirectory(d, row) => if d in s.directories then s else s.(directories := s.directories[d := row])
  }

  function Run(s: State, steps: seq<Step>): State
    decreases |steps|
  {
    if steps == [] then s else Apply(Run(s, steps[..|steps| - 1]), steps[|steps| - 1])
  }

  // ---- one change

  lemma NonEmptyMeansSome<T>(a: set<T>)
    ensures |a| != 0 <==> a != {}
  {
  }

  lemma WithoutDirectory(s: State, id: DirectoryId, t: State)
    requires t.localLogin == s.localLogin && LocalAdmins(t) >= LocalAdmins(s)
             && AdminDirectories(t) >= AdminDirectories(s) - {id}
    requires OtherAdminSources(s, id) != 0
    ensures AdminCanLogIn(t)
  {
  }

  lemma SameSources(s: State, t: State)
    requires AdminCanLogIn(s) && t.localLogin == s.localLogin
    requires LocalAdmins(t) >= LocalAdmins(s) && AdminDirectories(t) >= AdminDirectories(s)
    ensures AdminCanLogIn(t)
  {
  }

  lemma UserUpdateIsSafe(s: State, c: Change)
    requires AdminCanLogIn(s) && c.UpdateUser? && MayUpdateUser(s, c)
    ensures AdminCanLogIn(Changed(s, c))
  {
  }

  lemma DirectoryUpdateIsSafe(s: State, c: Change)
    requires AdminCanLogIn(s) && c.UpdateDirectory? && MayUpdateDirectory(s, c)
    ensures AdminCanLogIn(Changed(s, c))
  {
  }

  lemma UserDeletionIsSafe(s: State, id: UserId)
    requires AdminCanLogIn(s) && Permitted(s, DeleteUser(id))
    ensures AdminCanLogIn(Changed(s, DeleteUser(id)))
  {
  }

  lemma DirectoryDeletionIsSafe(s: State, id: DirectoryId)
    requires Permitted(s, DeleteDirectory(id))
    ensures AdminCanLogIn(Changed(s, DeleteDirectory(id)))
  {
    var t := Changed(s, DeleteDirectory(id));
    assert LocalAdmins(t) == LocalAdmins(s) && AdminDirectories(t) == AdminDirectories(s) - {id};
    WithoutDirectory(s, id, t);
  }

  /** A permitted change leaves a way to log in as administrator. */
  lemma PermittedChangeIsSafe(s: State, c: Change)
    requires AdminCanLogIn(s) && Permitted(s, c)
    ensures AdminCanLogIn(Changed(s, c))
  {
    match c
    case UpdateUser(_, _, _) => UserUpdateIsSafe(s, c);
    case DeleteUser(id) => UserDeletionIsSafe(s, id);
    case UpdateDirectory(_, _, _, _) => DirectoryUpdateIsSafe(s, c);
    case DeleteDirectory(id) => DirectoryDeletionIsSafe(s, id);
  }

  /** For a local administrator the check refuses exactly when removing the user would take away
      the last way to log in as administrator. */
  lemma RefusedExactlyForTheLast(s: State, id: UserId)
    requires id in s.users && s.users[id].directory.None? && AdminCanLogIn(s)
    ensures NotLastAdmin(s, id) <==> AdminCanLogIn(Changed(s, DeleteUser(id)))
  {
  }

  /** For an administrator from a directory it refuses exactly when that directory is the only
      source of administrators. */
  lemma RefusedExactlyInTheLastDirectory(s: State, id: UserId)
    requires id in s.users && s.users[id].directory.Some? && s.users[id].admin && s.users[id].active
    ensures !NotLastAdmin(s, id) <==>
              AdminDirectories(s) == {s.users[id].directory.value} && !(s.localLogin && LocalAdmins(s) != {})
  {
  }

  /** Exactly when a change is permitted: a local user's change and the deletion of one, and a
      directory's change, if they leave a way to log in as administrator; deleting a directory if
      it is disabled. A directory user's role never changes, and an administrator from the only
      source of administrators is not disabled. */
  lemma PermittedExactly(s: State, c: Change)
    requires AdminCanLogIn(s)
    ensures match c
            case UpdateUser(id, admin, active) =>
              Permitted(s, c) <==>
                && id in s.users
                && (s.users[id].directory.None? ==> AdminCanLogIn(Changed(s, c)))
                && (s.users[id].directory.Some? ==>
                      && (admin.None? || admin.value == s.users[id].admin)
                      && !(active == Some(false) && s.users[id].active && s.users[id].admin
                           && AdminDirectories(s) == {s.users[id].directory.value}
                           && !(s.localLogin && LocalAdmins(s) != {})))
            case DeleteUser(id) =>
              Permitted(s, c) <==> id in s.users && s.users[id].directory.None? && AdminCanLogIn(Changed(s, c))
            case UpdateDirectory(id, _, _, allowed) =>
              Permitted(s, c) <==>
                && id in s.directories && allowed != Some(false) && (allowed == Some(true) || s.directories[id].allowed)
                && AdminCanLogIn(Changed(s, c))
            case DeleteDirectory(id) => Permitted(s, c) <==> id in s.directories && !s.directories[id].enabled
  {
    match c
    case UpdateUser(id, _, _) =>
      if id in s.users {
        if s.users[id].directory.None? { LocalUpdateExactly(s, c); } else { ForeignUpdateExactly(s, c); }
      }
    case DeleteUser(id) =>
      if id in s.users && s.users[id].directory.None? { RefusedExactlyForTheLast(s, id); }
    case UpdateDirectory(id, _, _, _) => if id in s.directories { DirectoryUpdateExactly(s, c); }
    case DeleteDirectory(id) => if id in s.directories && !s.directories[id].enabled { OthersRemain(s, id); }
  }

  lemma OthersRemain(s: State, id: DirectoryId)
    requires AdminCanLogIn(s) && id !in AdminDirectories(s)
    ensures OtherAdminSources(s, id) != 0
  {
    assert AdminDirectories(s) - {id} == AdminDirectories(s);
  }

  /** The administrators when one row becomes `user`. */
  lemma AdminsAfter(s: State, id: UserId, user: User)
    ensures var t := s.(users := s.users[id := user]);
            && AdminDirectories(t) == AdminDirectories(s)
            && LocalAdmins(t) == if user.directory.None? && user.admin && user.active then LocalAdmins(s) + {id}
                                 else LocalAdmins(s) - {id}
  {
  }

  lemma NotLastExactly(s: State, id: UserId)
    requires id in s.users && s.users[id].directory.None?
    ensures NotLastAdmin(s, id)
            <==> !s.users[id].admin || !s.users[id].active || !s.localLogin
                 || LocalAdmins(s) - {id} != {} || AdminDirectories(s) != {}
  {
    NonEmptyMeansSome(LocalAdmins(s) - {id});
    NonEmptyMeansSome(AdminDirectories(s));
  }

  lemma LocalUpdateExactly(s: State, c: Change)
    requires AdminCanLogIn(s) && c.UpdateUser? && c.user in s.users && s.users[c.user].directory.None?
    ensures MayUpdateUser(s, c) <==> AdminCanLogIn(Changed(s, c))
  {
    var user := s.users[c.user];
    var promoted := user.(admin := if c.admin.Some? then c.admin.value else user.admin);
    NotLastExactly(s, c.user);
    NotLastExactly(s.(users := s.users[c.user := promoted]), c.user);
    AdminsAfter(s, c.user, promoted);
    AdminsAfter(s, c.user, EditedUser(user, c));
    assert c.user in LocalAdmins(s) <==> user.admin && user.active;
  }

  lemma ForeignUpdateExactly(s: State, c: Change)
    requires c.UpdateUser? && c.user in s.users && s.users[c.user].directory.Some?
    ensures var user := s.users[c.user];
            MayUpdateUser(s, c) <==>
              && (c.admin.None? || c.admin.value == user.admin)
              && !(c.active == Some(false) && user.active && user.admin
                   && AdminDirectories(s) == {user.directory.value} && !(s.localLogin && LocalAdmins(s) != {}))
  {
    var user := s.users[c.user];
    assert s.users[c.user := user.(admin := user.admin)] == s.users;
    if user.active && user.admin { RefusedExactlyInTheLastDirectory(s, c.user); }
  }

  lemma DirectoryUpdateExactly(s: State, c: Change)
    requires AdminCanLogIn(s) && c.UpdateDirectory? && c.directory in s.directories
    ensures MayUpdateDirectory(s, c) <==>
              && c.allowed != Some(false) && (c.allowed == Some(true) || s.directories[c.directory].allowed)
              && AdminCanLogIn(Changed(s, c))
  {
    if MayUpdateDirectory(s, c) {
      DirectoryUpdateIsSafe(s, c);
    } else if c.directory !in AdminDirectories(s) {
      OthersRemain(s, c.directory);
    }
  }

  /** What a change does to every row: the requested columns, and nothing else. */
  lemma ChangedRows(s: State, c: Change, u: UserId, d: DirectoryId)
    ensures var t := Changed(s, c);
            && t.localLogin == s.localLogin && t.lock == s.lock && t.tasks == s.tasks
            && (u in t.users <==> u in s.users && c != DeleteUser(u)
                                  && !(c.DeleteDirectory? && s.users[u].directory == Some(c.directory)))
            && (u in t.users ==>
                  if c.UpdateUser? && c.user == u
                  then && t.users[u].directory == s.users[u].directory
                       && (c.admin == Some(t.users[u].admin) || (c.admin.None? && t.users[u].admin == s.users[u].admin))
                       && (c.active == Some(t.users[u].active)
                           || (c.active.None? && t.users[u].active == s.users[u].active))
                  else t.users[u] == s.users[u])
            && (d in t.directories <==> d in s.directories && c != DeleteDirectory(d))
            && (d in t.directories ==>
                  var before, row := s.directories[d], t.directories[d];
                  if c.UpdateDirectory? && c.directory == d
                  then && (c.enabled == Some(row.enabled) || (c.enabled.None? && row.enabled == before.enabled))
                       && (c.adminMapping == Some(row.adminMapping)
                           || (c.adminMapping.None? && row.adminMapping == before.adminMapping))
                       && (c.allowed == Some(row.allowed) || (c.allowed.None? && row.allowed == before.allowed))
                  else row == before)
  {
  }

  lemma RunOfMore(s: State, steps: seq<Step>, step: Step)
    ensures Run(s, []) == s && Run(s, steps + [step]) == Apply(Run(s, steps), step)
  {
    assert (steps + [step])[..|steps|] == steps;
  }

  /** A request that nothing disturbs makes its change if it is permitted, and otherwise nothing. */
  lemma UndisturbedChange(s: State, t: TaskId, c: Change)
    requires t !in s.tasks && s.lock.None?
    ensures Run(s, [Begin(t, c)] + [TakeLock(t)] + [Check(t)] + [Write(t)])
            == if Permitted(s, c) then Changed(s, c) else s
  {
    RunOfMore(s, [Begin(t, c)] + [TakeLock(t)] + [Check(t)], Write(t));
    RunOfMore(s, [Begin(t, c)] + [TakeLock(t)], Check(t));
    RunOfMore(s, [Begin(t, c)], TakeLock(t));
    RunOfMore(s, [], Begin(t, c));
    assert [] + [Begin(t, c)] == [Begin(t, c)];
    UndisturbedSteps(s, t, c);
  }

  lemma UndisturbedSteps(s: State, t: TaskId, c: Change)
    requires t !in s.tasks && s.lock.None?
    ensures Apply(Apply(Apply(Apply(s, Begin(t, c)), TakeLock(t)), Check(t)), Write(t))
            == if Permitted(s, c) then Changed(s, c) else s
  {
    var held := Apply(Apply(s, Begin(t, c)), TakeLock(t));
    assert held == s.(lock := Some(t), tasks := s.tasks[t := Checking(c)]);
    PermittedWithTasks(s, held.lock, held.tasks, c);
    CheckAndWrite(held, t, c);
    assert held.tasks - {t} == s.tasks;
    ChangedWithTasks(s, None, s.tasks, c);
    ChangedWithTasks(s, held.lock, held.tasks, c);
  }

  lemma CheckAndWrite(held: State, t: TaskId, c: Change)
    requires held.lock == Some(t) && t in held.tasks && held.tasks[t] == Checking(c)
    ensures Apply(Apply(held, Check(t)), Write(t))
            == if Permitted(held, c) then Changed(held, c).(lock := None, tasks := held.tasks - {t})
               else held.(lock := None, tasks := held.tasks - {t})
  {
    var tasks := held.tasks[t := Writing(c)];
    assert Apply(held, Check(t)) == if Permitted(held, c) then held.(tasks := tasks) else Release(held, t);
    ChangedWithTasks(held, held.lock, tasks, c);
    assert tasks - {t} == held.tasks - {t};
  }

  lemma ChangedWithTasks(s: State, lock: Option<TaskId>, tasks: map<TaskId, Task>, c: Change)
    ensures Changed(s.(lock := lock, tasks := tasks), c) == Changed(s, c).(lock := lock, tasks := tasks)
  {
  }

  lemma SameCheck(s: State, t: State, id: UserId)
    requires t.localLogin == s.localLogin && t.users == s.users && t.directories == s.directories && id in s.users
    ensures NotLastAdmin(t, id) == NotLastAdmin(s, id)
  {
    assert LocalAdmins(t) == LocalAdmins(s) && AdminDirectories(t) == AdminDirectories(s);
  }

  lemma PermittedWithTasks(s: State, lock: Option<TaskId>, tasks: map<TaskId, Task>, c: Change)
    ensures Permitted(s.(lock := lock, tasks := tasks), c) == Permitted(s, c)
  {
    var t := s.(lock := lock, tasks := tasks);
    match c
    case UpdateUser(id, admin, _) =>
      if id in s.users {
        var users := s.users[id := s.users[id].(admin := if admin.Some? then admin.value else s.users[id].admin)];
        SameCheck(s, t, id);
        SameCheck(s.(users := users), t.(users := users), id);
      }
    case DeleteUser(id) => if id in s.users { SameCheck(s, t, id); }
    case UpdateDirectory(id, _, _, _) => SameOthers(s, t, id);
    case DeleteDirectory(id) => SameOthers(s, t, id);
  }

  lemma SameOthers(s: State, t: State, id: DirectoryId)
    requires t.localLogin == s.localLogin && t.users == s.users && t.directories == s.directories
    ensures OtherAdminSources(t, id) == OtherAdminSources(s, id)
  {
    assert LocalAdmins(t) == LocalAdmins(s) && AdminDirectories(t) == AdminDirectories(s);
  }

  // ---- whole runs

  /** Under the guard only steps that take no source away can come between check and write. */
  ghost predicate GuardInv(s: State) {
    && AdminCanLogIn(s)
    && (forall t :: t in s.tasks && !s.tasks[t].Waiting? ==> s.lock == Some(t))
    && (forall t :: t in s.tasks && s.tasks[t].Writing? ==> AdminCanLogIn(Changed(s, s.tasks[t].change)))
  }

  /** `t` has the sources of `s`, also after the change `c`. */
  ghost predicate Adds(s: State, t: State, c: Change) {
    && t.localLogin == s.localLogin && t.lock == s.lock && t.tasks == s.tasks
    && LocalAdmins(t) >= LocalAdmins(s) && AdminDirectories(t) >= AdminDirectories(s)
    && LocalAdmins(Changed(t, c)) >= LocalAdmins(Changed(s, c))
    && AdminDirectories(Changed(t, c)) >= AdminDirectories(Changed(s, c))
  }

  lemma CreatingUserAdds(s: State, id: UserId, admin: bool, c: Change)
    ensures Adds(s, Apply(s, CreateUser(id, admin)), c)
  {
  }

  lemma ActivatingUserAdds(s: State, id: UserId, c: Change)
    ensures Adds(s, Apply(s, ActivateUser(id)), c)
  {
  }

  lemma DirectoryLoginAdds(s: State, id: UserId, d: DirectoryId, admin: bool, c: Change)
    ensures Adds(s, Apply(s, LogInDirectoryUser(id, d, admin)), c)
  {
    DirectoryLoginKeepsSources(s, id, d, admin);
    DirectoryLoginKeepsChange(s, id, d, admin, c);
  }

  lemma DirectoryLoginKeepsSources(s: State, id: UserId, d: DirectoryId, admin: bool)
    ensures var t := Apply(s, LogInDirectoryUser(id, d, admin));
            && t.localLogin == s.localLogin && t.lock == s.lock && t.tasks == s.tasks
            && LocalAdmins(t) >= LocalAdmins(s) && AdminDirectories(t) >= AdminDirectories(s)
  {
  }

  lemma DirectoryLoginKeepsChange(s: State, id: UserId, d: DirectoryId, admin: bool, c: Change)
    ensures var t := Apply(s, LogInDirectoryUser(id, d, admin));
            && LocalAdmins(Changed(t, c)) >= LocalAdmins(Changed(s, c))
            && AdminDirectories(Changed(t, c)) >= AdminDirectories(Changed(s, c))
  {
  }

  lemma CreatingDirectoryAdds(s: State, d: DirectoryId, row: Directory, c: Change)
    ensures Adds(s, Apply(s, CreateDirectory(d, row)), c)
  {
  }

  lemma UnguardedStepAdds(s: State, step: Step, c: Change)
    requires step.CreateUser? || step.ActivateUser? || step.LogInDirectoryUser? || step.CreateDirectory?
    ensures Adds(s, Apply(s, step), c)
  {
    match step
    case CreateUser(id, admin) => CreatingUserAdds(s, id, admin, c);
    case ActivateUser(id) => ActivatingUserAdds(s, id, c);
    case LogInDirectoryUser(id, d, admin) => DirectoryLoginAdds(s, id, d, admin, c);
    case CreateDirectory(d, row) => CreatingDirectoryAdds(s, d, row, c);
  }

  lemma AddingKeeps(s: State, t: State)
    requires GuardInv(s) && forall c :: Adds(s, t, c)
    ensures GuardInv(t)
  {
    assert Adds(s, t, DeleteUser(0));
    SameSources(s, t);
    forall k | k in t.tasks && t.tasks[k].Writing? ensures AdminCanLogIn(Changed(t, t.tasks[k].change)) {
      assert Adds(s, t, t.tasks[k].change);
      SameSources(Changed(s, t.tasks[k].change), Changed(t, t.tasks[k].change));
    }
  }

  lemma UnguardedStepKeeps(s: State, step: Step)
    requires GuardInv(s)
    requires step.CreateUser? || step.ActivateUser? || step.LogInDirectoryUser? || step.CreateDirectory?
    ensures GuardInv(Apply(s, step))
  {
    forall c ensures Adds(s, Apply(s, step), c) { UnguardedStepAdds(s, step, c); }
    AddingKeeps(s, Apply(s, step));
  }

  /** The sources do not depend on who holds or awaits the lock. */
  lemma TasksDoNotCount(s: State, lock: Option<TaskId>, tasks: map<TaskId, Task>, c: Change)
    ensures var t := s.(lock := lock, tasks := tasks);
            AdminCanLogIn(t) == AdminCanLogIn(s) && AdminCanLogIn(Changed(t, c)) == AdminCanLogIn(Changed(s, c))
  {
  }

  lemma GuardedStepKeeps(s: State, step: Step)
    requires GuardInv(s) && (step.Begin? || step.TakeLock? || step.Abandon?)
    ensures GuardInv(Apply(s, step))
  {
  }

  lemma CheckKeeps(s: State, k: TaskId)
    requires GuardInv(s)
    ensures GuardInv(Apply(s, Check(k)))
  {
    var t := Apply(s, Check(k));
    TasksDoNotCount(s, t.lock, t.tasks, DeleteUser(0));
    forall j | j in t.tasks && t.tasks[j].Writing? ensures AdminCanLogIn(Changed(t, t.tasks[j].change)) {
      if j == k && s.tasks[k].Checking? { PermittedChangeIsSafe(s, s.tasks[k].change); }
      TasksDoNotCount(s, t.lock, t.tasks, t.tasks[j].change);
    }
  }

  lemma WriteKeeps(s: State, k: TaskId)
    requires GuardInv(s)
    ensures GuardInv(Apply(s, Write(k)))
  {
  }

  /** What the changes without a guard do: a new local user is active, activating only activates, a
      directory login makes or refreshes a user of its own directory and never activates one, and
      nothing that exists is overwritten by creating. */
  lemma UnguardedRows(s: State, step: Step, u: UserId, d: DirectoryId)
    requires step.CreateUser? || step.ActivateUser? || step.LogInDirectoryUser? || step.CreateDirectory?
    ensures var t := Apply(s, step);
            && t.localLogin == s.localLogin && t.lock == s.lock && t.tasks == s.tasks
            && (u in s.users ==> u in t.users) && (d in s.directories ==> d in t.directories)
            && (u in t.users && u !in s.users ==>
                  if step == CreateUser(u, true) then t.users[u] == User(None, true, true)
                  else if step == CreateUser(u, false) then t.users[u] == User(None, false, true)
                  else step.LogInDirectoryUser? && step.user == u
                       && t.users[u] == User(Some(step.directory), step.admin, true))
            && (step.CreateUser? || (step.LogInDirectoryUser? && step.user !in s.users) ==> step.user in t.users)
            && (u in s.users ==> var before := s.users[u];
                  if step.ActivateUser? && step.user == u then t.users[u] == User(before.directory, before.admin, true)
                  else if step.LogInDirectoryUser? && step.user == u && before.directory == Some(step.directory)
                  then t.users[u] == User(before.directory, step.admin, before.active)
                  else t.users[u] == before)
            && (d in s.directories ==> t.directories[d] == s.directories[d])
            && (d in t.directories && d !in s.directories ==> step == CreateDirectory(d, t.directories[d]))
            && (step.CreateDirectory? ==> step.directory in t.directories)
  {
  }

  /** Giving up under the lock releases it and changes no row. */
  lemma AbandonReleases(s: State, t: TaskId)
    requires t in s.tasks && s.lock == Some(t) && !s.tasks[t].Waiting?
    ensures var after := Apply(s, Abandon(t));
            && after.lock.None? && t !in after.tasks && after.users == s.users && after.directories == s.directories
            && after.localLogin == s.localLogin
  {
  }

  /** However changes interleave, someone can always log in as administrator. */
  lemma {:induction false} AdministratorsRemain(s: State, steps: seq<Step>)
    requires AdminCanLogIn(s) && s.tasks == map[] && s.lock.None?
    ensures var end := Run(s, steps);
            GuardInv(end)
            && ((end.localLogin && exists u :: u in end.users && end.users[u] == User(None, true, true))
                || exists d :: d in end.directories && end.directories[d] == Directory(true, true, true))
    decreases |steps|
  {
    if steps != [] {
      var before, last := Run(s, steps[..|steps| - 1]), steps[|steps| - 1];
      AdministratorsRemain(s, steps[..|steps| - 1]);
      match last
      case Check(t) => CheckKeeps(before, t);
      case Write(t) => WriteKeeps(before, t);
      case Begin(_, _) => GuardedStepKeeps(before, last);
      case TakeLock(_) => GuardedStepKeeps(before, last);
      case Abandon(_) => GuardedStepKeeps(before, last);
      case _ => UnguardedStepKeeps(before, last);
    }
  }

  /** The lock matters: of two administrators each may be deleted, but not after the other. */
  lemma ChecksAloneAreNotEnough()
    ensures var s := State(true, map[0 := User(None, true, true), 1 := User(None, true, true)], map[], None, map[]);
            Permitted(s, DeleteUser(0)) && Permitted(s, DeleteUser(1))
            && !AdminCanLogIn(Changed(Changed(s, DeleteUser(0)), DeleteUser(1)))
  {
    var s := State(true, map[0 := User(None, true, true), 1 := User(None, true, true)], map[], None, map[]);
    assert 1 in LocalAdmins(s) - {0} && 0 in LocalAdmins(s) - {1};
    NonEmptyMeansSome(LocalAdmins(s) - {0});
    NonEmptyMeansSome(LocalAdmins(s) - {1});
    assert Changed(Changed(s, DeleteUser(0)), DeleteUser(1)).users == map[];
  }
}
