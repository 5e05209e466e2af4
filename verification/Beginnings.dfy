/** What every step of a run goes back to: the request that began its task. */
module Beginnings {
  import opened Accounts
  import opened LoginProtocol
  import opened Logins
  import opened Options
  import CredentialSafety

  predicate Begins(step: Step) {
    step.BeginLogin? || step.BeginOwnChange? || step.BeginReset? || step.BeginResolve? || step.BeginUnlock?
  }

  /** The request behind task `t`: the latest one that found the number free. */
  ghost function RequestOf(policy: Policy, steps: seq<Step>, t: TaskId): Option<Step>
    decreases |steps|
  {
    if steps == [] then None else
    var front, last := steps[..|steps| - 1], steps[|steps| - 1];
    if Begins(last) && last.task == t && t !in Run(policy, front).tasks then Some(last) else RequestOf(policy, front, t)
  }

  /** The request allows setting this password: a reset does, and an own change if the hash that
      it will replace was made from the current password typed with it. */
  ghost predicate Allows(request: Step, u: UserId, password: Password, keep: Option<SessionId>,
                         expected: Option<PasswordHash>) {
    || (request.BeginReset? && request.user == u && request.password == password && request.keep == keep
      && expected.None?)
    || (request.BeginOwnChange? && request.user == u && request.password == password && request.keep == keep
        && expected.Some? && expected.value.password == request.current && request.current != password)
  }

  ghost predicate Sets(request: Step, u: UserId, password: Password, keep: Option<SessionId>) {
    (request.BeginReset? || request.BeginOwnChange?)
    && request.user == u && request.password == password && request.keep == keep
  }

  ghost predicate LogsIn(request: Step, u: UserId, password: Password) {
    request.BeginLogin? && request.user == u && request.password == password
  }

  /** What a task holds was in its request. */
  ghost predicate Serves(task: Task, request: Step) {
    match task
    case LoginVerifying(u, p, _, _, _, _) => LogsIn(request, u, p)
    case LoginFailing(u, _) => request.BeginLogin? && request.user == u
    case LoginLocking(u, _) => request.BeginLogin? && request.user == u
    case LoginPassed(u, p, _, _, _) => LogsIn(request, u, p)
    case LoginChecked(u, p, _, _, _, _) => LogsIn(request, u, p)
    case LoginRehashing(u, p, _, _) => LogsIn(request, u, p)
    case LoginCreating(u, p, _) => LogsIn(request, u, p)
    case ChangeVerifying(u, current, p, keep, _) =>
      request.BeginOwnChange? && Sets(request, u, p, keep) && request.current == current
    case ChangeHashing(u, p, keep, expected) => Allows(request, u, p, keep, expected)
    case ChangeWriting(u, p, keep, expected, hash, _) => Allows(request, u, p, keep, expected) && hash.password == p
    case ChangeRevoking(u, p, keep, _) => Sets(request, u, p, keep)
    case ChangeStamping(u, p, s, _) => Sets(request, u, p, Some(s))
    case ResolveExpired(s, _, f) => request.BeginResolve? && request.session == s && request.foreground == f
    case ResolveRereading(s, _, f) => request.BeginResolve? && request.session == s && request.foreground == f
    case ResolveLoaded(s, _, _, f) => request.BeginResolve? && request.session == s && request.foreground == f
    case ResolveChecking(s, _, _, _, f) => request.BeginResolve? && request.session == s && request.foreground == f
    case ResolveRejecting(s) => request.BeginResolve? && request.session == s
    case ResolveTouching(s, _) => request.BeginResolve? && request.session == s && request.foreground
    case Unlocking(u, _) => request.BeginUnlock? && request.user == u
  }

  // ---- one step

  lemma LoginGoesOn(w: World, policy: Policy, t: TaskId, drawn: nat, request: Step)
    requires t in w.tasks && CredentialSafety.IsLogin(w.tasks[t]) && Serves(w.tasks[t], request)
    ensures var e := AdvanceTask(w, policy, t, drawn);
            e.task.Await? ==> e.task.id == t && Serves(e.task.task, request)
  {
  }

  lemma ChangeGoesOn(w: World, policy: Policy, t: TaskId, drawn: nat, request: Step)
    requires t in w.tasks && CredentialSafety.IsChange(w.tasks[t]) && Serves(w.tasks[t], request)
    ensures var e := AdvanceTask(w, policy, t, drawn);
            e.task.Await? ==> e.task.id == t && Serves(e.task.task, request)
  {
  }

  lemma LookupGoesOn(w: World, policy: Policy, t: TaskId, drawn: nat, request: Step)
    requires t in w.tasks && !CredentialSafety.IsLogin(w.tasks[t]) && !CredentialSafety.IsChange(w.tasks[t])
    requires Serves(w.tasks[t], request)
    ensures var e := AdvanceTask(w, policy, t, drawn);
            e.task.Await? ==> e.task.id == t && Serves(e.task.task, request)
  {
  }

  lemma TaskGoesOn(w: World, policy: Policy, t: TaskId, drawn: nat, request: Step)
    requires t in w.tasks && Serves(w.tasks[t], request)
    ensures var e := AdvanceTask(w, policy, t, drawn);
            e.task.Await? ==> e.task.id == t && Serves(e.task.task, request)
  {
    if CredentialSafety.IsLogin(w.tasks[t]) {
      LoginGoesOn(w, policy, t, drawn, request);
    } else if CredentialSafety.IsChange(w.tasks[t]) {
      ChangeGoesOn(w, policy, t, drawn, request);
    } else {
      LookupGoesOn(w, policy, t, drawn, request);
    }
  }

  lemma RequestIsServed(w: World, policy: Policy, step: Step)
    requires Begins(step)
    ensures var e := EffectOf(w, policy, step);
            e.task.Await? ==> e.task.id == step.task && step.task !in w.tasks && Serves(e.task.task, step)
  {
  }

  lemma OtherStepsBeginNothing(w: World, policy: Policy, step: Step)
    requires !Begins(step) && (step.Advance? ==> step.task !in w.tasks)
    ensures EffectOf(w, policy, step).task.SameTasks?
  {
  }

  /** Every task serves its request. */
  ghost predicate AllServe(policy: Policy, steps: seq<Step>) {
    forall t :: t in Run(policy, steps).tasks ==> TaskServes(policy, steps, t)
  }

  ghost predicate TaskServes(policy: Policy, steps: seq<Step>, t: TaskId)
    requires t in Run(policy, steps).tasks
  {
    RequestOf(policy, steps, t).Some? && Serves(Run(policy, steps).tasks[t], RequestOf(policy, steps, t).value)
  }

  lemma RequestExtends(policy: Policy, steps: seq<Step>, step: Step, t: TaskId)
    ensures RequestOf(policy, steps + [step], t)
            == if Begins(step) && step.task == t && t !in Run(policy, steps).tasks then Some(step)
               else RequestOf(policy, steps, t)
    ensures Run(policy, steps + [step]) == Apply(Run(policy, steps), policy, step)
  {
    assert (steps + [step])[..|steps + [step]| - 1] == steps;
  }

  /** The tasks after one step: those before, but the one that moved. */
  lemma TasksAfter(w: World, policy: Policy, step: Step, t: TaskId)
    requires t in Apply(w, policy, step).tasks
    ensures var e, task := EffectOf(w, policy, step), Apply(w, policy, step).tasks[t];
            || (t in w.tasks && task == w.tasks[t] && !(e.task.Await? && e.task.id == t))
            || (!step.Tick? && e.task.Await? && e.task.id == t && task == e.task.task)
  {
  }

  lemma OneMoreServes(policy: Policy, steps: seq<Step>, step: Step, t: TaskId)
    requires AllServe(policy, steps) && t in Apply(Run(policy, steps), policy, step).tasks
    ensures t in Run(policy, steps + [step]).tasks && TaskServes(policy, steps + [step], t)
  {
    var w := Run(policy, steps);
    RequestExtends(policy, steps, step, t);
    TasksAfter(w, policy, step, t);
    if Begins(step) {
      RequestIsServed(w, policy, step);
    } else if step.Advance? && step.task in w.tasks {
      assert TaskServes(policy, steps, step.task);
      TaskGoesOn(w, policy, step.task, step.drawn, RequestOf(policy, steps, step.task).value);
    } else {
      OtherStepsBeginNothing(w, policy, step);
    }
    if t in w.tasks { assert TaskServes(policy, steps, t); }
  }

  lemma {:induction false} RunServes(policy: Policy, steps: seq<Step>)
    ensures AllServe(policy, steps)
    decreases |steps|
  {
    if steps != [] {
      var front, last := steps[..|steps| - 1], steps[|steps| - 1];
      RunServes(policy, front);
      assert steps == front + [last];
      forall t | t in Run(policy, steps).tasks ensures TaskServes(policy, steps, t) {
        RequestExtends(policy, front, last, t);
        OneMoreServes(policy, front, last, t);
      }
    }
  }

  // ---- which steps change a password

  /** The password that verifies for a user. */
  ghost function PasswordOf(users: Users, u: UserId): Option<Password> {
    if u in users && users[u].passwordHash.Some? then Some(users[u].passwordHash.value.password) else None
  }

  /** The request may set this password: a reset may, and an own change whose current password is
      the one that verifies. */
  ghost predicate Entitles(users: Users, request: Step, u: UserId, password: Password) {
    || (request.BeginReset? && request.user == u && request.password == password)
    || (request.BeginOwnChange? && request.user == u && request.password == password
        && PasswordOf(users, u) == Some(request.current) && request.current != password)
  }

  lemma WriteSetsPassword(w: World, t: TaskId, request: Step, u: UserId)
    requires t in w.tasks && w.tasks[t].ChangeWriting? && Serves(w.tasks[t], request) && u in w.users
    ensures var users := NewUsers(w.users, ChangeWrite(w, t, w.tasks[t]).user);
            PasswordOf(users, u) != PasswordOf(w.users, u) ==>
              PasswordOf(users, u).Some? && Entitles(w.users, request, u, PasswordOf(users, u).value)
  {
  }

  lemma RehashKeepsPassword(w: World, t: TaskId, drawn: nat, u: UserId)
    requires CredentialSafety.CredentialInv(w) && t in w.tasks && w.tasks[t].LoginRehashing? && u in w.users
    ensures PasswordOf(NewUsers(w.users, LoginRehash(w, t, w.tasks[t], drawn).user), u) == PasswordOf(w.users, u)
  {
    assert CredentialSafety.TaskOk(w, w.tasks[t]);
  }

  lemma OtherTasksKeepPasswords(w: World, policy: Policy, t: TaskId, drawn: nat, u: UserId)
    requires t in w.tasks && !w.tasks[t].ChangeWriting? && !w.tasks[t].LoginRehashing? && u in w.users
    ensures PasswordOf(NewUsers(w.users, AdvanceTask(w, policy, t, drawn).user), u) == PasswordOf(w.users, u)
  {
  }

  lemma OtherStepsKeepPasswords(w: World, policy: Policy, step: Step, u: UserId)
    requires !step.Advance? && u in w.users && w.users.Keys <= w.realms.Keys && !(step.DeleteUser? && step.user == u)
    ensures PasswordOf(NewUsers(w.users, EffectOf(w, policy, step).user), u) == PasswordOf(w.users, u)
  {
  }

  lemma UsersAfter(w: World, policy: Policy, step: Step)
    ensures Apply(w, policy, step).users == NewUsers(w.users, EffectOf(w, policy, step).user)
  {
  }

  /** Over every run: whenever a step changes which password verifies for a user, it carries out a
      reset, or an own change whose typed current password verified against the very hash that is
      replaced; and the new password is the one typed with it. */
  lemma PasswordChangesAreEntitled(policy: Policy, steps: seq<Step>, step: Step, u: UserId)
    requires var w, w' := Run(policy, steps), Run(policy, steps + [step]);
             u in w.users && u in w'.users && PasswordOf(w.users, u) != PasswordOf(w'.users, u)
    ensures var w, w' := Run(policy, steps), Run(policy, steps + [step]);
            && step.Advance? && RequestOf(policy, steps, step.task).Some? && PasswordOf(w'.users, u).Some?
            && Entitles(w.users, RequestOf(policy, steps, step.task).value, u, PasswordOf(w'.users, u).value)
  {
    var w := Run(policy, steps);
    RequestExtends(policy, steps, step, 0);
    RunServes(policy, steps);
    CredentialSafety.RunKeeps(policy, steps);
    UsersAfter(w, policy, step);
    if step.Advance? && step.task in w.tasks {
      AdvanceIsEntitled(policy, steps, step, u);
    } else {
      UsersHaveRealms(w);
      if !step.Advance? { OtherStepsKeepPasswords(w, policy, step, u); }
    }
  }

  lemma UsersHaveRealms(w: World)
    requires CredentialSafety.CredentialInv(w)
    ensures w.users.Keys <= w.realms.Keys
  {
    forall u | u in w.users ensures u in w.realms { assert CredentialSafety.UserOk(w, u, w.users[u]); }
  }

  lemma AdvanceIsEntitled(policy: Policy, steps: seq<Step>, step: Step, u: UserId)
    requires AllServe(policy, steps) && CredentialSafety.CredentialInv(Run(policy, steps))
    requires step.Advance? && step.task in Run(policy, steps).tasks && u in Run(policy, steps).users
    ensures var w, w' := Run(policy, steps), Apply(Run(policy, steps), policy, step);
            PasswordOf(w'.users, u) != PasswordOf(w.users, u) ==>
              RequestOf(policy, steps, step.task).Some? && PasswordOf(w'.users, u).Some?
              && Entitles(w.users, RequestOf(policy, steps, step.task).value, u, PasswordOf(w'.users, u).value)
  {
    var w, t := Run(policy, steps), step.task;
    assert TaskServes(policy, steps, t);
    UsersAfter(w, policy, step);
    if w.tasks[t].ChangeWriting? {
      WriteSetsPassword(w, t, RequestOf(policy, steps, t).value, u);
    } else if w.tasks[t].LoginRehashing? {
      RehashKeepsPassword(w, t, step.drawn, u);
    } else {
      OtherTasksKeepPasswords(w, policy, t, step.drawn, u);
    }
  }

  // ---- which steps make sessions and restamp them

  /** Whose session it is and which generation it carries. */
  ghost predicate SameOwner(a: SessionRow, b: SessionRow) {
    a.userId == b.userId && a.credentialMarker == b.credentialMarker
  }

  /** A session is made by a login for its user, or restamped by a change that keeps it. */
  ghost predicate MakesSession(w: World, request: Step, s: SessionId, row: SessionRow) {
    || (request.BeginLogin? && request.user == row.userId && s !in w.sessions)
    || ((request.BeginReset? || request.BeginOwnChange?) && request.keep == Some(s) && s in w.sessions
        && request.user == row.userId == w.sessions[s].userId)
  }

  lemma CreateMakesSession(w: World, policy: Policy, t: TaskId, drawn: nat, request: Step, s: SessionId)
    requires t in w.tasks && w.tasks[t].LoginCreating? && Serves(w.tasks[t], request) && w.sessions.Keys <= w.born.Keys
    ensures var after := NewSessions(w.sessions, LoginCreate(w, policy, t, w.tasks[t], drawn).session);
            s in after && !(s in w.sessions && SameOwner(w.sessions[s], after[s])) ==>
              MakesSession(w, request, s, after[s])
  {
  }

  lemma StampMakesSession(w: World, t: TaskId, request: Step, s: SessionId)
    requires t in w.tasks && w.tasks[t].ChangeStamping? && Serves(w.tasks[t], request)
    ensures var after := NewSessions(w.sessions, ChangeStamp(w, t, w.tasks[t]).session);
            s in after && !(s in w.sessions && SameOwner(w.sessions[s], after[s])) ==>
              MakesSession(w, request, s, after[s])
  {
  }

  lemma OtherTasksKeepOwners(w: World, policy: Policy, t: TaskId, drawn: nat, s: SessionId)
    requires t in w.tasks && !w.tasks[t].LoginCreating? && !w.tasks[t].ChangeStamping?
    ensures var after := NewSessions(w.sessions, AdvanceTask(w, policy, t, drawn).session);
            s in after ==> s in w.sessions && SameOwner(w.sessions[s], after[s])
  {
  }

  lemma OtherStepsKeepOwners(w: World, policy: Policy, step: Step, s: SessionId)
    requires !step.DirectoryLogin? && (step.Advance? ==> step.task !in w.tasks)
    ensures var after := NewSessions(w.sessions, EffectOf(w, policy, step).session);
            s in after ==> s in w.sessions && SameOwner(w.sessions[s], after[s])
  {
  }

  /** Over every run: a session that is new, or has another user or generation than before, was
      made by a directory login, by a local login for its user, or by a password change of its
      user that keeps it. */
  lemma SessionsComeFromLogins(policy: Policy, steps: seq<Step>, step: Step, s: SessionId)
    requires var w, w' := Run(policy, steps), Run(policy, steps + [step]);
             s in w'.sessions && !(s in w.sessions && SameOwner(w.sessions[s], w'.sessions[s]))
    ensures var w, w' := Run(policy, steps), Run(policy, steps + [step]);
            || (step.DirectoryLogin? && step.session == s && step.user == w'.sessions[s].userId)
            || (step.Advance? && RequestOf(policy, steps, step.task).Some?
                && MakesSession(w, RequestOf(policy, steps, step.task).value, s, w'.sessions[s]))
  {
    var w := Run(policy, steps);
    RequestExtends(policy, steps, step, 0);
    RunServes(policy, steps);
    SessionsAreBorn(policy, steps);
    SessionsAfter(w, policy, step);
    if step.Advance? && step.task in w.tasks {
      assert TaskServes(policy, steps, step.task);
      var request := RequestOf(policy, steps, step.task).value;
      if w.tasks[step.task].LoginCreating? {
        CreateMakesSession(w, policy, step.task, step.drawn, request, s);
      } else if w.tasks[step.task].ChangeStamping? {
        StampMakesSession(w, step.task, request, s);
      } else {
        OtherTasksKeepOwners(w, policy, step.task, step.drawn, s);
      }
    } else if step.DirectoryLogin? {
      DirectoryMakesSession(w, policy, step, s);
    } else {
      OtherStepsKeepOwners(w, policy, step, s);
    }
  }

  lemma DirectoryMakesSession(w: World, policy: Policy, step: Step, s: SessionId)
    requires step.DirectoryLogin?
    ensures var after := NewSessions(w.sessions, EffectOf(w, policy, step).session);
            s in after && !(s in w.sessions && SameOwner(w.sessions[s], after[s])) ==>
              step.session == s && step.user == after[s].userId
  {
  }

  lemma SessionsAfter(w: World, policy: Policy, step: Step)
    ensures Apply(w, policy, step).sessions == NewSessions(w.sessions, EffectOf(w, policy, step).session)
    ensures Apply(w, policy, step).born == NewBorn(w.born, EffectOf(w, policy, step).session)
  {
  }

  lemma {:induction false} SessionsAreBorn(policy: Policy, steps: seq<Step>)
    ensures Run(policy, steps).sessions.Keys <= Run(policy, steps).born.Keys
    decreases |steps|
  {
    if steps != [] {
      var front, last := steps[..|steps| - 1], steps[|steps| - 1];
      SessionsAreBorn(policy, front);
      SessionsAfter(Run(policy, front), policy, last);
    }
  }

  // ---- what the history says was typed

  predicate IsTyped(step: Step, u: UserId, password: Password) {
    (step.BeginLogin? || step.BeginReset? || step.BeginOwnChange? || step.CreateLocalUser?)
    && step.user == u && step.password == password
  }

  ghost predicate Typed(steps: seq<Step>, u: UserId, password: Password) {
    exists i :: 0 <= i < |steps| && IsTyped(steps[i], u, password)
  }

  ghost predicate HistoryTyped(w: World, steps: seq<Step>) {
    && (forall k :: k in w.chosen ==> Typed(steps, k.0, w.chosen[k]))
    && (forall k :: k in w.vouched ==> Typed(steps, k.1, w.vouched[k]))
  }

  lemma TypedStays(steps: seq<Step>, step: Step, u: UserId, password: Password)
    ensures Typed(steps, u, password) ==> Typed(steps + [step], u, password)
    ensures IsTyped(step, u, password) ==> Typed(steps + [step], u, password)
  {
    if Typed(steps, u, password) {
      var i :| 0 <= i < |steps| && IsTyped(steps[i], u, password);
      assert (steps + [step])[i] == steps[i];
    }
    assert (steps + [step])[|steps|] == step;
  }

  lemma {:induction false} RequestIsAStep(policy: Policy, steps: seq<Step>, t: TaskId)
    ensures RequestOf(policy, steps, t).Some? ==> RequestOf(policy, steps, t).value in steps
    decreases |steps|
  {
    if steps != [] { RequestIsAStep(policy, steps[..|steps| - 1], t); }
  }

  /** What one step adds to the history. */
  lemma AdvanceRecordsTyped(w: World, policy: Policy, t: TaskId, drawn: nat, request: Step)
    requires t in w.tasks && Serves(w.tasks[t], request)
    ensures var e := AdvanceTask(w, policy, t, drawn);
            && (e.chose.Some? ==> IsTyped(request, e.chose.value.0.0, e.chose.value.1))
            && (e.vouch.Some? ==> IsTyped(request, e.vouch.value.0.1, e.vouch.value.1))
  {
    var e := AdvanceTask(w, policy, t, drawn);
    if !w.tasks[t].ChangeWriting? && !w.tasks[t].ChangeStamping? && !w.tasks[t].LoginCreating? {
      assert e.chose.None? && e.vouch.None?;
    }
  }

  lemma OtherStepsRecordTyped(w: World, policy: Policy, step: Step)
    requires step.Advance? ==> step.task !in w.tasks
    ensures var e := EffectOf(w, policy, step);
            && (e.chose.Some? ==> IsTyped(step, e.chose.value.0.0, e.chose.value.1)) && e.vouch.None?
  {
  }

  lemma OneMoreTyped(policy: Policy, steps: seq<Step>, step: Step)
    requires HistoryTyped(Run(policy, steps), steps) && AllServe(policy, steps)
    ensures HistoryTyped(Apply(Run(policy, steps), policy, step), steps + [step])
  {
    var w := Run(policy, steps);
    var w' := Apply(w, policy, step);
    var e := EffectOf(w, policy, step);
    var source := step;
    if step.Advance? && step.task in w.tasks {
      assert TaskServes(policy, steps, step.task);
      source := RequestOf(policy, steps, step.task).value;
      RequestIsAStep(policy, steps, step.task);
      AdvanceRecordsTyped(w, policy, step.task, step.drawn, source);
    } else {
      OtherStepsRecordTyped(w, policy, step);
    }
    HistoryAfter(w, policy, step);
    forall k | k in w'.chosen ensures Typed(steps + [step], k.0, w'.chosen[k]) {
      if e.chose.Some? && e.chose.value.0 == k { SourceIsTyped(steps, step, source, k.0, w'.chosen[k]); }
      TypedStays(steps, step, k.0, w'.chosen[k]);
    }
    forall k | k in w'.vouched ensures Typed(steps + [step], k.1, w'.vouched[k]) {
      if e.vouch.Some? && e.vouch.value.0 == k { SourceIsTyped(steps, step, source, k.1, w'.vouched[k]); }
      TypedStays(steps, step, k.1, w'.vouched[k]);
    }
  }

  lemma SourceIsTyped(steps: seq<Step>, step: Step, source: Step, u: UserId, password: Password)
    requires (source in steps || source == step) && IsTyped(source, u, password)
    ensures Typed(steps + [step], u, password)
  {
    if source in steps {
      var i :| 0 <= i < |steps| && steps[i] == source;
      assert Typed(steps, u, password);
    }
    TypedStays(steps, step, u, password);
  }

  lemma HistoryAfter(w: World, policy: Policy, step: Step)
    ensures var w', e := Apply(w, policy, step), EffectOf(w, policy, step);
            && w'.chosen == (if e.chose.Some? then w.chosen[e.chose.value.0 := e.chose.value.1] else w.chosen)
            && w'.vouched == if e.vouch.Some? then w.vouched[e.vouch.value.0 := e.vouch.value.1] else w.vouched
  {
  }

  /** Every password that the history holds was typed in some request for that user. */
  lemma {:induction false} HistoryWasTyped(policy: Policy, steps: seq<Step>)
    ensures HistoryTyped(Run(policy, steps), steps)
    decreases |steps|
  {
    if steps != [] {
      var front, last := steps[..|steps| - 1], steps[|steps| - 1];
      HistoryWasTyped(policy, front);
      RunServes(policy, front);
      OneMoreTyped(policy, front, last);
      assert steps == front + [last];
    }
  }

  // ---- wrong passwords are counted

  /** The step begins a login with a password that the stored hash was not made from. */
  ghost predicate IsWrongLogin(w: World, step: Step, u: UserId) {
    && step.BeginLogin? && step.user == u && step.task !in w.tasks
    && MayTry(w.users, u, w.clock) && !Matches(w.users[u], step.password)
  }

  ghost function WrongLogins(policy: Policy, steps: seq<Step>, u: UserId): nat
    decreases |steps|
  {
    if steps == [] then 0 else
    var front, last := steps[..|steps| - 1], steps[|steps| - 1];
    WrongLogins(policy, front, u) + if IsWrongLogin(Run(policy, front), last, u) then 1 else 0
  }

  ghost function Failures(log: seq<Event>, u: UserId): nat {
    if log == [] then 0 else Failures(log[..|log| - 1], u) + if log[|log| - 1] == Failed(u) then 1 else 0
  }

  /** A login of `u` that has read a hash its password does not match, and is not counted yet. */
  predicate IsWrong(task: Task, u: UserId) {
    || (task.LoginVerifying? && task.user == u && (task.hash.None? || task.hash.value.password != task.password))
    || (task.LoginFailing? && task.user == u)
  }

  ghost function UnderWay(w: World, u: UserId): set<TaskId> {
    WrongTasks(w.tasks, u)
  }

  ghost function WrongTasks(tasks: map<TaskId, Task>, u: UserId): set<TaskId> {
    set t | t in tasks && IsWrong(tasks[t], u)
  }

  lemma WrongTasksWithout(tasks: map<TaskId, Task>, t: TaskId, u: UserId)
    ensures WrongTasks(tasks - {t}, u) == WrongTasks(tasks, u) - {t}
    ensures |WrongTasks(tasks, u) - {t}| == |WrongTasks(tasks, u)| - Ind(t in WrongTasks(tasks, u))
  {
  }

  lemma WrongTasksWith(tasks: map<TaskId, Task>, t: TaskId, task: Task, u: UserId)
    ensures WrongTasks(tasks[t := task], u) == (WrongTasks(tasks, u) - {t}) + if IsWrong(task, u) then {t} else {}
  {
  }

  /** The task that a step moves was, or is, such a login. */
  ghost predicate WasWrong(w: World, e: Effect, u: UserId) {
    !e.task.SameTasks? && e.task.id in w.tasks && IsWrong(w.tasks[e.task.id], u)
  }

  ghost predicate WillBeWrong(e: Effect, u: UserId) {
    e.task.Await? && IsWrong(e.task.task, u)
  }

  function Ind(b: bool): int {
    if b then 1 else 0
  }

  lemma UnderWayAfter(w: World, e: Effect, u: UserId)
    ensures |UnderWay(Perform(w, e), u)| == |UnderWay(w, u)| + Ind(WillBeWrong(e, u)) - Ind(WasWrong(w, e, u))
  {
    if !e.task.SameTasks? {
      var t := e.task.id;
      WrongTasksWithout(w.tasks, t, u);
      assert WasWrong(w, e, u) <==> t in WrongTasks(w.tasks, u);
      if e.task.Await? { WrongTasksWith(w.tasks, t, e.task.task, u); }
    }
  }

  lemma {:induction false} FailuresOfMore(log: seq<Event>, events: seq<Event>, u: UserId)
    ensures Failures(log + events, u) == Failures(log, u) + Failures(events, u)
    decreases |events|
  {
    if events == [] {
      assert log + events == log;
    } else {
      FailuresOfMore(log, events[..|events| - 1], u);
      assert (log + events)[..|log + events| - 1] == log + events[..|events| - 1];
    }
  }

  /** A step neither loses nor invents a wrong login, but the one that it begins. */
  ghost predicate Balanced(w: World, e: Effect, u: UserId, begun: bool) {
    Failures(e.events, u) + Ind(WillBeWrong(e, u)) - Ind(WasWrong(w, e, u)) == Ind(begun)
  }

  lemma OneEvent(event: Event, u: UserId)
    ensures Failures([event], u) == Ind(event == Failed(u)) && Failures([], u) == 0
  {
    assert [event][..0] == [];
  }

  lemma VerifyBalances(w: World, t: TaskId, u: UserId)
    requires t in w.tasks && w.tasks[t].LoginVerifying?
    ensures Balanced(w, LoginVerify(t, w.tasks[t]), u, false)
  {
  }

  lemma FailBalances(w: World, policy: Policy, t: TaskId, u: UserId)
    requires t in w.tasks && w.tasks[t].LoginFailing? && u in w.users
    ensures Balanced(w, LoginFail(w, policy, t, w.tasks[t]), u, false)
  {
    OneEvent(Failed(w.tasks[t].user), u);
  }

  /** Other tasks are no such login, become none, and log no failure. */
  lemma OtherTaskLogsNoFailure(w: World, policy: Policy, t: TaskId, drawn: nat, u: UserId)
    requires t in w.tasks && !w.tasks[t].LoginVerifying? && !w.tasks[t].LoginFailing?
    ensures var e := AdvanceTask(w, policy, t, drawn);
            && !WillBeWrong(e, u) && (!e.task.SameTasks? ==> e.task.id == t)
            && forall i :: 0 <= i < |e.events| ==> !e.events[i].Failed?
  {
    if CredentialSafety.IsLogin(w.tasks[t]) {
      LoginLogsNoFailure(w, policy, t, drawn, u);
    } else if CredentialSafety.IsChange(w.tasks[t]) {
      ChangeLogsNoFailure(w, policy, t, drawn, u);
    } else {
      LookupLogsNoFailure(w, policy, t, drawn, u);
    }
  }

  ghost predicate LogsNoFailure(e: Effect, t: TaskId, u: UserId) {
    && !WillBeWrong(e, u) && (!e.task.SameTasks? ==> e.task.id == t)
    && forall i :: 0 <= i < |e.events| ==> !e.events[i].Failed?
  }

  lemma LoginLogsNoFailure(w: World, policy: Policy, t: TaskId, drawn: nat, u: UserId)
    requires t in w.tasks && CredentialSafety.IsLogin(w.tasks[t])
    requires !w.tasks[t].LoginVerifying? && !w.tasks[t].LoginFailing?
    ensures LogsNoFailure(AdvanceTask(w, policy, t, drawn), t, u)
  {
  }

  lemma ChangeLogsNoFailure(w: World, policy: Policy, t: TaskId, drawn: nat, u: UserId)
    requires t in w.tasks && CredentialSafety.IsChange(w.tasks[t])
    ensures LogsNoFailure(AdvanceTask(w, policy, t, drawn), t, u)
  {
  }

  lemma LookupLogsNoFailure(w: World, policy: Policy, t: TaskId, drawn: nat, u: UserId)
    requires t in w.tasks && !CredentialSafety.IsLogin(w.tasks[t]) && !CredentialSafety.IsChange(w.tasks[t])
    ensures LogsNoFailure(AdvanceTask(w, policy, t, drawn), t, u)
  {
  }

  lemma {:induction false} NoFailures(events: seq<Event>, u: UserId)
    requires forall i :: 0 <= i < |events| ==> !events[i].Failed?
    ensures Failures(events, u) == 0
    decreases |events|
  {
    if events != [] { NoFailures(events[..|events| - 1], u); }
  }

  lemma AdvanceBalances(w: World, policy: Policy, t: TaskId, drawn: nat, u: UserId)
    requires t in w.tasks && u in w.users
    ensures Balanced(w, AdvanceTask(w, policy, t, drawn), u, false)
  {
    if w.tasks[t].LoginVerifying? {
      VerifyBalances(w, t, u);
    } else if w.tasks[t].LoginFailing? {
      FailBalances(w, policy, t, u);
    } else {
      OtherTaskLogsNoFailure(w, policy, t, drawn, u);
      NoFailures(AdvanceTask(w, policy, t, drawn).events, u);
    }
  }

  lemma LoginBalances(w: World, policy: Policy, step: Step, u: UserId)
    requires step.BeginLogin?
    ensures Balanced(w, EffectOf(w, policy, step), u, IsWrongLogin(w, step, u))
  {
  }

  lemma OtherStepBalances(w: World, policy: Policy, step: Step, u: UserId)
    requires !step.BeginLogin? && (step.Advance? ==> step.task !in w.tasks)
    ensures Balanced(w, EffectOf(w, policy, step), u, false)
  {
    var e := EffectOf(w, policy, step);
    assert e.events == [] && !WillBeWrong(e, u) && (!e.task.SameTasks? ==> e.task.id !in w.tasks);
  }

  lemma StepBalances(w: World, policy: Policy, step: Step, u: UserId)
    requires u in w.users
    ensures Balanced(w, EffectOf(w, policy, step), u, IsWrongLogin(w, step, u))
  {
    if step.BeginLogin? {
      LoginBalances(w, policy, step, u);
    } else if step.Advance? && step.task in w.tasks {
      AdvanceBalances(w, policy, step.task, step.drawn, u);
    } else {
      OtherStepBalances(w, policy, step, u);
    }
  }

  /** While the user's row is there. Before there was a row there was nothing to count. */
  ghost predicate AllCounted(w: World, wrong: nat, u: UserId) {
    && (u in w.users ==> u in w.realms && wrong == Failures(w.log, u) + |UnderWay(w, u)|)
    && (u !in w.realms ==> wrong == 0 && Failures(w.log, u) == 0 && UnderWay(w, u) == {})
  }

  lemma StrangersAreNotCounted(w: World, policy: Policy, step: Step, u: UserId)
    requires u !in w.users && UnderWay(w, u) == {}
    ensures var e := EffectOf(w, policy, step);
            !WillBeWrong(e, u) && Failures(e.events, u) == 0 && !IsWrongLogin(w, step, u)
  {
    var e := EffectOf(w, policy, step);
    if step.Advance? && step.task in w.tasks {
      assert IsWrong(w.tasks[step.task], u) <==> step.task in UnderWay(w, u);
      StrangerAdvances(w, policy, step.task, step.drawn, u);
    } else {
      assert e.events == [];
    }
  }

  lemma StrangerAdvances(w: World, policy: Policy, t: TaskId, drawn: nat, u: UserId)
    requires t in w.tasks && !IsWrong(w.tasks[t], u)
    ensures var e := AdvanceTask(w, policy, t, drawn); !WillBeWrong(e, u) && Failures(e.events, u) == 0
  {
    var e := AdvanceTask(w, policy, t, drawn);
    if w.tasks[t].LoginVerifying? {
      assert e.events == [];
    } else if w.tasks[t].LoginFailing? {
      OneEvent(Failed(w.tasks[t].user), u);
    } else {
      OtherTaskLogsNoFailure(w, policy, t, drawn, u);
      NoFailures(e.events, u);
    }
  }

  lemma StepCounts(w: World, policy: Policy, step: Step, u: UserId, wrong: nat)
    requires AllCounted(w, wrong, u) && !step.Tick?
    ensures AllCounted(Perform(w, EffectOf(w, policy, step)), wrong + Ind(IsWrongLogin(w, step, u)), u)
  {
    var e := EffectOf(w, policy, step);
    UnderWayAfter(w, e, u);
    FailuresOfMore(w.log, e.events, u);
    UserComesAndGoes(w, policy, step, u);
    if u in w.users {
      StepBalances(w, policy, step, u);
    } else if u !in w.realms {
      StrangersAreNotCounted(w, policy, step, u);
    }
  }

  /** A row whose user had one before is not made again. */
  lemma UserComesAndGoes(w: World, policy: Policy, step: Step, u: UserId)
    ensures var w' := Perform(w, EffectOf(w, policy, step));
            && (u in w'.users ==> u in w.users || u !in w.realms)
            && w.realms.Keys <= w'.realms.Keys && (u in w'.users && u in w.realms ==> u in w'.realms)
            && (u in w'.users && u !in w.users ==> u in w'.realms)
  {
    var e := EffectOf(w, policy, step);
    if step.Advance? && step.task in w.tasks { TasksMakeNoUser(w, policy, step.task, step.drawn); }
  }

  lemma TasksMakeNoUser(w: World, policy: Policy, t: TaskId, drawn: nat)
    requires t in w.tasks
    ensures var e := AdvanceTask(w, policy, t, drawn); (e.user.PutUser? ==> e.user.id in w.users) && !e.user.DropUser?
  {
  }

  lemma {:induction false} RunCounts(policy: Policy, steps: seq<Step>, u: UserId)
    ensures AllCounted(Run(policy, steps), WrongLogins(policy, steps, u), u)
    decreases |steps|
  {
    if steps != [] {
      var front, last := steps[..|steps| - 1], steps[|steps| - 1];
      RunCounts(policy, front, u);
      if !last.Tick? { StepCounts(Run(policy, front), policy, last, u, WrongLogins(policy, front, u)); }
    }
  }

  /** Over every run: as long as the user's row is there, the logins that began with a wrong password
      are exactly the failures counted and the logins still under way to it. */
  lemma WrongPasswordsAreCounted(policy: Policy, steps: seq<Step>, u: UserId)
    requires u in Run(policy, steps).users
    ensures var w := Run(policy, steps); WrongLogins(policy, steps, u) == Failures(w.log, u) + |UnderWay(w, u)|
  {
    RunCounts(policy, steps, u);
  }
}
