/** Logins, password changes and session lookups as one state machine. A step is one
    statement (or one computation between two awaits) of one task; any task may move next. */
module LoginProtocol {
  import opened Accounts
  import opened Options

  type TaskId = nat

  /** Where a task waits, with the local variables it still needs. */
  datatype Task =
    | LoginVerifying(user: UserId, password: Password, now: Time, generation: Option<Time>,
                     hash: Option<PasswordHash>, active: bool)
    | LoginFailing(user: UserId, now: Time)
    | LoginLocking(user: UserId, now: Time)
    | LoginPassed(user: UserId, password: Password, now: Time, generation: Option<Time>, stale: bool)
    | LoginChecked(user: UserId, password: Password, now: Time, generation: Option<Time>,
                   hash: Option<PasswordHash>, stale: bool)
    | LoginRehashing(user: UserId, password: Password, generation: Option<Time>, verifiedHash: PasswordHash)
    | LoginCreating(user: UserId, password: Password, generation: Option<Time>)
    | ChangeVerifying(user: UserId, current: Password, password: Password, keep: Option<SessionId>,
                      verified: Option<PasswordHash>)
    | ChangeHashing(user: UserId, password: Password, keep: Option<SessionId>, expected: Option<PasswordHash>)
    | ChangeWriting(user: UserId, password: Password, keep: Option<SessionId>, expected: Option<PasswordHash>,
                    newHash: PasswordHash, changedAt: Time)
    | ChangeRevoking(user: UserId, password: Password, keep: Option<SessionId>, newGeneration: Time)
    | ChangeStamping(user: UserId, password: Password, session: SessionId, newGeneration: Time)
    | ResolveExpired(session: SessionId, now: Time, foreground: bool)
    | ResolveRereading(session: SessionId, now: Time, foreground: bool)
    | ResolveLoaded(session: SessionId, row: SessionRow, now: Time, foreground: bool)
    | ResolveChecking(session: SessionId, row: SessionRow, owner: UserRow, now: Time, foreground: bool)
    | ResolveRejecting(session: SessionId)
    | ResolveTouching(session: SessionId, now: Time)
    | Unlocking(user: UserId, seen: UserRow)

  /** What has happened, for the properties about whole runs. */
  datatype Event =
    | Failed(user: UserId)
    | Locked(user: UserId, until: Time)
    | LoggedIn(user: UserId, now: Time)
    | PasswordSet(user: UserId)
    | CountCleared(user: UserId)
    | LockCleared(user: UserId)
    | SessionExpired(session: SessionId, row: SessionRow, now: Time)

  /** A session that a lookup returned, with the user row it was compared with. */
  datatype Acceptance = Acceptance(session: SessionId, row: SessionRow, user: UserRow, now: Time)

  /** `users`, `sessions` and `directories` are the database. The fields after `clock` only record history:
      `realms` the realm of every user row ever made (row ids are never used again), `chosen`
      the password set by each generation, `vouched` the password that the client typed when a
      session got a generation's marker, `born` when a session was made, `seen` the latest of
      the clock readings with which the finished foreground requests on a session started. */
  datatype World = World(
    users: Users,
    sessions: Sessions,
    directories: Directories,
    tasks: map<TaskId, Task>,
    clock: Time,
    realms: map<UserId, Realm>,
    chosen: map<(UserId, Time), Password>,
    vouched: map<(SessionId, UserId, Time), Password>,
    born: map<SessionId, Time>,
    seen: map<SessionId, Time>,
    accepted: seq<Acceptance>,
    log: seq<Event>)

  datatype Step =
    | BeginLogin(task: TaskId, user: UserId, password: Password)
    | BeginOwnChange(task: TaskId, user: UserId, current: Password, password: Password, keep: Option<SessionId>)
    | BeginReset(task: TaskId, user: UserId, password: Password, keep: Option<SessionId>)
    | BeginResolve(task: TaskId, session: SessionId, foreground: bool)
    | BeginUnlock(task: TaskId, user: UserId)
    | Advance(task: TaskId, drawn: nat) // `drawn`: the salt or the session id the step draws
    | Tick(elapsed: nat)
    | CreateLocalUser(user: UserId, password: Password, salt: nat)
    | CreateDirectoryUser(user: UserId, directory: DirectoryId)
    | SetDirectory(directory: DirectoryId, usable: bool)
    | DirectoryLogin(user: UserId, session: SessionId)
    | SetActive(user: UserId, active: bool)
    | DeleteUser(user: UserId)
    | RevokeForUser(user: UserId, keep: Option<SessionId>)
    | RevokeSession(session: SessionId)
    | Purge

  function InitialWorld(): World {
    World(map[], map[], map[], map[], 0, map[], map[], map[], map[], map[], [], [])
  }

  datatype UserChange = SameUsers | PutUser(id: UserId, row: UserRow) | DropUser(id: UserId)

  datatype SessionChange = SameSessions | PutSession(id: SessionId, row: SessionRow) | DropSessions(ids: set<SessionId>)

  datatype TaskChange = SameTasks | Await(id: TaskId, task: Task) | Finish(id: TaskId)

  /** All that one step does: at most one user row, one session write, one directory, one task. */
  datatype Effect = Effect(
    task: TaskChange,
    user: UserChange := SameUsers,
    session: SessionChange := SameSessions,
    directory: Option<(DirectoryId, bool)> := None,
    chose: Option<((UserId, Time), Password)> := None,
    vouch: Option<((SessionId, UserId, Time), Password)> := None,
    accept: Option<Acceptance> := None,
    sees: Option<(SessionId, Time)> := None,
    events: seq<Event> := [])

  const NoEffect := Effect(SameTasks)

  // ---- local login

  function LoginRead(w: World, t: TaskId, u: UserId, password: Password): Effect {
    if u !in w.users || !w.users[u].realm.Local? || !IsUnlocked(w.users[u], w.clock) then NoEffect
    else
      var user := w.users[u];
      Effect(Await(t, LoginVerifying(u, password, w.clock, CredentialMarker(user), user.passwordHash, user.isActive)))
  }

  function LoginVerify(t: TaskId, task: Task): Effect
    requires task.LoginVerifying?
  {
    var result := VerifyPassword(task.hash, task.password);
    if !result.ok then Effect(Await(t, LoginFailing(task.user, task.now)))
    else if !task.active then Effect(Finish(t))
    else Effect(Await(t, LoginPassed(task.user, task.password, task.now, task.generation, result.needsRehash)))
  }

  function LoginFail(w: World, policy: Policy, t: TaskId, task: Task): Effect
    requires task.LoginFailing?
  {
    if task.user !in w.users then Effect(Finish(t)) else
    var user := CountFailure(w.users[task.user]);
    Effect(if IsFull(user, policy) then Await(t, LoginLocking(task.user, task.now)) else Finish(t),
           user := PutUser(task.user, user), events := [Failed(task.user)])
  }

  function LoginLock(w: World, policy: Policy, t: TaskId, task: Task): Effect
    requires task.LoginLocking?
  {
    if task.user !in w.users || !IsFull(w.users[task.user], policy) then Effect(Finish(t))
    else Effect(Finish(t), user := PutUser(task.user, Lock(w.users[task.user], policy, task.now)),
                events := [Locked(task.user, task.now + policy.lockout)])
  }

  function LoginReread(w: World, t: TaskId, task: Task): Effect
    requires task.LoginPassed?
  {
    if task.user !in w.users then Effect(Finish(t)) else
    var user := w.users[task.user];
    if CredentialMarker(user) != task.generation || !user.isActive then Effect(Finish(t))
    else Effect(Await(t,
      LoginChecked(task.user, task.password, task.now, task.generation, user.passwordHash, task.stale)))
  }

  function LoginSucceed(w: World, t: TaskId, task: Task): Effect
    requires task.LoginChecked?
  {
    if task.user !in w.users || !IsUnlocked(w.users[task.user], task.now) then Effect(Finish(t)) else
    var next := if task.stale && task.hash.Some?
                then LoginRehashing(task.user, task.password, task.generation, task.hash.value)
                else LoginCreating(task.user, task.password, task.generation);
    Effect(Await(t, next), user := PutUser(task.user, ClearFailures(w.users[task.user])),
           events := [LoggedIn(task.user, task.now)])
  }

  function LoginRehash(w: World, t: TaskId, task: Task, salt: nat): Effect
    requires task.LoginRehashing?
  {
    var next := Await(t, LoginCreating(task.user, task.password, task.generation));
    if task.user !in w.users || w.users[task.user].passwordHash != Some(task.verifiedHash) then Effect(next)
    else
      var hash := HashPassword(task.password, salt);
      Effect(next, user := PutUser(task.user, w.users[task.user].(passwordHash := Some(hash))))
  }

  function NewSession(u: UserId, policy: Policy, now: Time, marker: Option<Time>): SessionRow {
    SessionRow(u, now, now, now + policy.absoluteTimeout, marker)
  }

  /** Session ids are drawn fresh; a row for a deleted user breaks the foreign key. */
  function LoginCreate(w: World, policy: Policy, t: TaskId, task: Task, s: SessionId): Effect
    requires task.LoginCreating?
  {
    if s in w.born then NoEffect
    else if task.user !in w.users then Effect(Finish(t))
    else Effect(Finish(t), session := PutSession(s, NewSession(task.user, policy, w.clock, task.generation)),
                vouch := if task.generation.Some?
                         then Some(((s, task.user, task.generation.value), task.password)) else None,
                sees := Some((s, w.clock)))
  }

  // ---- password change

  function ChangeRead(w: World, t: TaskId, u: UserId, current: Password, password: Password,
                      keep: Option<SessionId>): Effect {
    if u !in w.users || !w.users[u].realm.Local? then NoEffect
    else Effect(Await(t, ChangeVerifying(u, current, password, keep, w.users[u].passwordHash)))
  }

  function ChangeVerify(t: TaskId, task: Task): Effect
    requires task.ChangeVerifying?
  {
    if !VerifyPassword(task.verified, task.current).ok || task.current == task.password then Effect(Finish(t))
    else Effect(Await(t, ChangeHashing(task.user, task.password, task.keep, task.verified)))
  }

  function ResetRead(w: World, t: TaskId, u: UserId, password: Password, keep: Option<SessionId>): Effect {
    if u !in w.users || !w.users[u].realm.Local? then NoEffect
    else Effect(Await(t, ChangeHashing(u, password, keep, None)))
  }

  function ChangeHash(w: World, t: TaskId, task: Task, salt: nat): Effect
    requires task.ChangeHashing?
  {
    Effect(Await(t, ChangeWriting(task.user, task.password, task.keep, task.expected,
                                  HashPassword(task.password, salt), w.clock)))
  }

  /** Two changes of one user never carry the same time: such a step is not taken. */
  function ChangeWrite(w: World, t: TaskId, task: Task): Effect
    requires task.ChangeWriting?
  {
    if (task.user, task.changedAt) in w.chosen then NoEffect
    else if task.user !in w.users || (task.expected.Some? && w.users[task.user].passwordHash != task.expected)
    then Effect(Finish(t))
    else Effect(Await(t, ChangeRevoking(task.user, task.password, task.keep, task.changedAt)),
                user := PutUser(task.user, SetPassword(w.users[task.user], task.newHash, task.changedAt)),
                chose := Some(((task.user, task.changedAt), task.password)),
                events := [PasswordSet(task.user)])
  }

  function ChangeRevoke(w: World, t: TaskId, task: Task): Effect
    requires task.ChangeRevoking?
  {
    Effect(if task.keep.Some?
      then Await(t, ChangeStamping(task.user, task.password, task.keep.value, task.newGeneration))
           else Finish(t),
           session := DropSessions(SessionsOf(w.sessions, task.user, task.keep)))
  }

  function ChangeStamp(w: World, t: TaskId, task: Task): Effect
    requires task.ChangeStamping?
  {
    if task.session !in w.sessions || w.sessions[task.session].userId != task.user then Effect(Finish(t))
    else Effect(Finish(t),
                session := PutSession(task.session,
                  w.sessions[task.session].(credentialMarker := Some(task.newGeneration))),
                vouch := Some(((task.session, task.user, task.newGeneration), task.password)))
  }

  // ---- session lookup

  function ResolveRead(w: World, policy: Policy, t: TaskId, s: SessionId, foreground: bool): Effect {
    if s !in w.sessions then NoEffect
    else if IsExpired(w.sessions[s], policy, w.clock) then Effect(Await(t, ResolveExpired(s, w.clock, foreground)))
    else Effect(Await(t, ResolveLoaded(s, w.sessions[s], w.clock, foreground)))
  }

  function ResolveDelete(w: World, policy: Policy, t: TaskId, task: Task): Effect
    requires task.ResolveExpired?
  {
    if task.session in w.sessions && StillExpired(w.sessions[task.session], policy, task.now)
    then Effect(Finish(t), session := DropSessions({task.session}),
                events := [SessionExpired(task.session, w.sessions[task.session], task.now)])
    else Effect(Await(t, ResolveRereading(task.session, task.now, task.foreground)))
  }

  function ResolveReread(w: World, t: TaskId, task: Task): Effect
    requires task.ResolveRereading?
  {
    if task.session !in w.sessions then Effect(Finish(t))
    else Effect(Await(t, ResolveLoaded(task.session, w.sessions[task.session], task.now, task.foreground)))
  }

  predicate Usable(users: Users, row: SessionRow) {
    row.userId in users
    && users[row.userId].isActive
    && row.credentialMarker == CredentialMarker(users[row.userId])
  }

  function ResolveUser(w: World, policy: Policy, t: TaskId, task: Task): Effect
    requires task.ResolveLoaded?
  {
    if !Usable(w.users, task.row) then Effect(Await(t, ResolveRejecting(task.session)))
    else
      var owner := w.users[task.row.userId];
      if owner.realm.Directory?
      then Effect(Await(t, ResolveChecking(task.session, task.row, owner, task.now, task.foreground)))
      else Accept(policy, t, Acceptance(task.session, task.row, owner, task.now), task.foreground)
  }

  predicate DirectoryUsable(directories: Directories, user: UserRow) {
    user.realm.Local? || (user.realm.directory in directories && directories[user.realm.directory])
  }

  function ResolveCheck(w: World, policy: Policy, t: TaskId, task: Task): Effect
    requires task.ResolveChecking?
  {
    if DirectoryUsable(w.directories, task.owner)
    then Accept(policy, t, Acceptance(task.session, task.row, task.owner, task.now), task.foreground)
    else Effect(Await(t, ResolveRejecting(task.session)))
  }

  function Accept(policy: Policy, t: TaskId, a: Acceptance, foreground: bool): Effect {
    if !foreground then Effect(Finish(t), accept := Some(a))
    else if a.now - a.row.lastSeenAt >= TouchInterval(policy)
    then Effect(Await(t, ResolveTouching(a.session, a.now)), accept := Some(a))
    else Effect(Finish(t), accept := Some(a), sees := Some((a.session, a.now)))
  }

  function ResolveReject(t: TaskId, task: Task): Effect
    requires task.ResolveRejecting?
  {
    Effect(Finish(t), session := DropSessions({task.session}))
  }

  function ResolveTouch(w: World, t: TaskId, task: Task): Effect
    requires task.ResolveTouching?
  {
    var s := task.session;
    Effect(Finish(t),
           session := if s in w.sessions && w.sessions[s].lastSeenAt < task.now
                      then PutSession(s, w.sessions[s].(lastSeenAt := task.now)) else SameSessions,
           sees := Some((s, task.now)))
  }

  // ---- unlock: the ORM writes only the columns whose value differs from the loaded row

  function UnlockRead(w: World, t: TaskId, u: UserId): Effect {
    if u !in w.users then NoEffect else Effect(Await(t, Unlocking(u, w.users[u])))
  }

  function UnlockEvents(u: UserId, count: bool, lock: bool): seq<Event> {
    if count && lock then [CountCleared(u), LockCleared(u)]
    else if count then [CountCleared(u)]
    else if lock then [LockCleared(u)] else []
  }

  function UnlockWrite(w: World, t: TaskId, task: Task): Effect
    requires task.Unlocking?
  {
    if task.user !in w.users then Effect(Finish(t)) else
    var row := w.users[task.user];
    var count := task.seen.failedLoginCount != 0;
    var lock := task.seen.lockedUntil.Some?;
    Effect(Finish(t),
           user := PutUser(task.user, row.(failedLoginCount := if count then 0 else row.failedLoginCount,
                                           lockedUntil := if lock then None else row.lockedUntil)),
           events := UnlockEvents(task.user, count, lock))
  }

  // ---- administration

  function AddLocalUser(w: World, u: UserId, password: Password, salt: nat): Effect {
    if u in w.realms then NoEffect
    else Effect(SameTasks,
                user := PutUser(u, UserRow(Local, Some(HashPassword(password, salt)), Some(w.clock), true, 0, None)),
                chose := Some(((u, w.clock), password)))
  }

  function AddDirectoryUser(w: World, u: UserId, d: DirectoryId): Effect {
    if u in w.realms then NoEffect
    else Effect(SameTasks, user := PutUser(u, UserRow(Directory(d), None, None, true, 0, None)))
  }

  function AddDirectorySession(w: World, policy: Policy, u: UserId, s: SessionId): Effect {
    if s in w.born || u !in w.users || !w.users[u].realm.Directory? || !w.users[u].isActive then NoEffect
    else Effect(SameTasks, session := PutSession(s, NewSession(u, policy, w.clock, CredentialMarker(w.users[u]))),
                sees := Some((s, w.clock)))
  }

  function Activate(w: World, u: UserId, active: bool): Effect {
    if u !in w.users then NoEffect
    else Effect(SameTasks, user := PutUser(u, w.users[u].(isActive := active)))
  }

  /** Deleting a user row deletes its sessions too. */
  function RemoveUser(w: World, u: UserId): Effect {
    Effect(SameTasks, user := DropUser(u), session := DropSessions(SessionsOf(w.sessions, u, None)))
  }

  // ---- steps

  function AdvanceTask(w: World, policy: Policy, t: TaskId, drawn: nat): Effect
    requires t in w.tasks
  {
    var task := w.tasks[t];
    match task
    case LoginVerifying(_, _, _, _, _, _) => LoginVerify(t, task)
    case LoginFailing(_, _) => LoginFail(w, policy, t, task)
    case LoginLocking(_, _) => LoginLock(w, policy, t, task)
    case LoginPassed(_, _, _, _, _) => LoginReread(w, t, task)
    case LoginChecked(_, _, _, _, _, _) => LoginSucceed(w, t, task)
    case LoginRehashing(_, _, _, _) => LoginRehash(w, t, task, drawn)
    case LoginCreating(_, _, _) => LoginCreate(w, policy, t, task, drawn)
    case ChangeVerifying(_, _, _, _, _) => ChangeVerify(t, task)
    case ChangeHashing(_, _, _, _) => ChangeHash(w, t, task, drawn)
    case ChangeWriting(_, _, _, _, _, _) => ChangeWrite(w, t, task)
    case ChangeRevoking(_, _, _, _) => ChangeRevoke(w, t, task)
    case ChangeStamping(_, _, _, _) => ChangeStamp(w, t, task)
    case ResolveExpired(_, _, _) => ResolveDelete(w, policy, t, task)
    case ResolveRereading(_, _, _) => ResolveReread(w, t, task)
    case ResolveLoaded(_, _, _, _) => ResolveUser(w, policy, t, task)
    case ResolveChecking(_, _, _, _, _) => ResolveCheck(w, policy, t, task)
    case ResolveRejecting(_) => ResolveReject(t, task)
    case ResolveTouching(_, _) => ResolveTouch(w, t, task)
    case Unlocking(_, _) => UnlockWrite(w, t, task)
  }

  function EffectOf(w: World, policy: Policy, step: Step): Effect {
    match step
    case BeginLogin(t, u, password) => if t in w.tasks then NoEffect else LoginRead(w, t, u, password)
    case BeginOwnChange(t, u, current, password, keep) =>
      if t in w.tasks then NoEffect else ChangeRead(w, t, u, current, password, keep)
    case BeginReset(t, u, password, keep) => if t in w.tasks then NoEffect else ResetRead(w, t, u, password, keep)
    case BeginResolve(t, s, foreground) => if t in w.tasks then NoEffect else ResolveRead(w, policy, t, s, foreground)
    case BeginUnlock(t, u) => if t in w.tasks then NoEffect else UnlockRead(w, t, u)
    case Advance(t, drawn) => if t in w.tasks then AdvanceTask(w, policy, t, drawn) else NoEffect
    case Tick(elapsed) => NoEffect
    case CreateLocalUser(u, password, salt) => AddLocalUser(w, u, password, salt)
    case CreateDirectoryUser(u, d) => AddDirectoryUser(w, u, d)
    case SetDirectory(d, usable) => Effect(SameTasks, directory := Some((d, usable)))
    case DirectoryLogin(u, s) => AddDirectorySession(w, policy, u, s)
    case SetActive(u, active) => Activate(w, u, active)
    case DeleteUser(u) => RemoveUser(w, u)
    case RevokeForUser(u, keep) => Effect(SameTasks, session := DropSessions(SessionsOf(w.sessions, u, keep)))
    case RevokeSession(s) => Effect(SameTasks, session := DropSessions({s}))
    case Purge => Effect(SameTasks, session := DropSessions(ExpiredSessions(w.sessions, policy, w.clock)))
  }

  // ---- carrying out an effect

  function NewUsers(users: Users, change: UserChange): Users {
    match change
    case SameUsers => users
    case PutUser(u, row) => users[u := row]
    case DropUser(u) => users - {u}
  }

  function NewSessions(sessions: Sessions, change: SessionChange): Sessions {
    match change
    case SameSessions => sessions
    case PutSession(s, row) => sessions[s := row]
    case DropSessions(ids) => sessions - ids
  }

  function NewTasks(tasks: map<TaskId, Task>, change: TaskChange): map<TaskId, Task> {
    match change
    case SameTasks => tasks
    case Await(t, task) => tasks[t := task]
    case Finish(t) => tasks - {t}
  }

  function NewRealms(realms: map<UserId, Realm>, change: UserChange): map<UserId, Realm> {
    if change.PutUser? then realms[change.id := change.row.realm] else realms
  }

  function NewBorn(born: map<SessionId, Time>, change: SessionChange): map<SessionId, Time> {
    if change.PutSession? then born[change.id := change.row.createdAt] else born
  }

  /** The later of the start readings of two finished foreground requests. */
  function NewSeen(seen: map<SessionId, Time>, sees: Option<(SessionId, Time)>): map<SessionId, Time> {
    if sees.None? || (sees.value.0 in seen && sees.value.1 <= seen[sees.value.0]) then seen
    else seen[sees.value.0 := sees.value.1]
  }

  function Perform(w: World, e: Effect): World {
    World(
      NewUsers(w.users, e.user),
      NewSessions(w.sessions, e.session),
      if e.directory.Some? then w.directories[e.directory.value.0 := e.directory.value.1] else w.directories,
      NewTasks(w.tasks, e.task),
      w.clock,
      NewRealms(w.realms, e.user),
      if e.chose.Some? then w.chosen[e.chose.value.0 := e.chose.value.1] else w.chosen,
      if e.vouch.Some? then w.vouched[e.vouch.value.0 := e.vouch.value.1] else w.vouched,
      NewBorn(w.born, e.session),
      NewSeen(w.seen, e.sees),
      if e.accept.Some? then w.accepted + [e.accept.value] else w.accepted,
      w.log + e.events)
  }

  function Apply(w: World, policy: Policy, step: Step): World {
    if step.Tick? then w.(clock := w.clock + step.elapsed) else Perform(w, EffectOf(w, policy, step))
  }

  /** The world after `steps`, taken in order from the empty database. */
  function Run(policy: Policy, steps: seq<Step>): World
    decreases |steps|
  {
    if steps == [] then InitialWorld() else Apply(Run(policy, steps[..|steps| - 1]), policy, steps[|steps| - 1])
  }
}
