/** In every interleaving, a session is accepted only if its client typed, or itself set,
    the password that is the user's current one. */
module CredentialSafety {
  import opened Accounts
  import opened LoginProtocol
  import opened Options

  /** Generation `g` of user `u` is the one that set `password`. */
  ghost predicate Chose(w: World, u: UserId, g: Time, password: Password) {
    (u, g) in w.chosen && w.chosen[(u, g)] == password
  }

  ghost predicate UserOk(w: World, u: UserId, row: UserRow) {
    u in w.realms && w.realms[u] == row.realm
    && match row.realm
       case Local =>
         row.passwordChangedAt.Some? && row.passwordHash.Some?
         && Chose(w, u, row.passwordChangedAt.value, row.passwordHash.value.password)
       case Directory(_) => row.passwordChangedAt.None? && row.passwordHash.None?
  }

  ghost predicate IsLocal(w: World, u: UserId) {
    u in w.realms && w.realms[u] == Local
  }

  ghost predicate MarkerOk(w: World, s: SessionId, row: SessionRow) {
    row.credentialMarker.Some? ==> (s, row.userId, row.credentialMarker.value) in w.vouched
  }

  ghost predicate GenerationOk(w: World, u: UserId, generation: Option<Time>, password: Password) {
    generation.Some? && Chose(w, u, generation.value, password)
  }

  ghost predicate TaskOk(w: World, task: Task) {
    match task
    case LoginVerifying(u, _, _, generation, hash, _) => hash.Some?
      && GenerationOk(w, u, generation, hash.value.password)
    case LoginPassed(u, password, _, generation, _) => GenerationOk(w, u, generation, password)
    case LoginChecked(u, password, _, generation, hash, _) =>
      GenerationOk(w, u, generation, password) && (hash.Some? ==> hash.value.password == password)
    case LoginRehashing(u, password, generation, verified) =>
      GenerationOk(w, u, generation, password) && verified.password == password
    case LoginCreating(u, password, generation) => GenerationOk(w, u, generation, password)
    case ChangeVerifying(u, _, _, _, _) => IsLocal(w, u)
    case ChangeHashing(u, _, _, _) => IsLocal(w, u)
    case ChangeWriting(u, password, _, _, newHash, _) => newHash.password == password && IsLocal(w, u)
    case ChangeRevoking(u, password, _, generation) => Chose(w, u, generation, password)
    case ChangeStamping(u, password, _, generation) => Chose(w, u, generation, password)
    case ResolveLoaded(s, row, _, _) => MarkerOk(w, s, row)
    case ResolveChecking(_, _, owner, _, _) => owner.realm.Directory?
    case _ => true
  }

  /** The password typed for the accepted session is the one the stored hash verifies. */
  ghost predicate AcceptanceOk(w: World, a: Acceptance) {
    a.user.realm.Local? ==>
      a.user.passwordChangedAt.Some?
      && var key := (a.session, a.row.userId, a.user.passwordChangedAt.value);
      key in w.vouched && VerifyPassword(a.user.passwordHash, w.vouched[key]).ok
  }

  ghost predicate UsersOk(w: World) {
    forall u :: u in w.users ==> UserOk(w, u, w.users[u])
  }

  ghost predicate MarkersOk(w: World) {
    forall s :: s in w.sessions ==> MarkerOk(w, s, w.sessions[s])
  }

  ghost predicate TasksOk(w: World) {
    forall t :: t in w.tasks ==> TaskOk(w, w.tasks[t])
  }

  ghost predicate HistoryOk(w: World) {
    && (forall k :: k in w.vouched ==> Chose(w, k.1, k.2, w.vouched[k]))
    && (forall k :: k in w.chosen ==> k.0 in w.realms)
  }

  ghost predicate AcceptancesOk(w: World) {
    forall i :: 0 <= i < |w.accepted| ==> AcceptanceOk(w, w.accepted[i])
  }

  ghost predicate CredentialInv(w: World) {
    UsersOk(w) && MarkersOk(w) && TasksOk(w) && HistoryOk(w) && AcceptancesOk(w)
  }

  /** The history maps only grow. */
  ghost predicate Grows(w: World, w': World) {
    && (forall k :: k in w.chosen ==> k in w'.chosen && w'.chosen[k] == w.chosen[k])
    && (forall k :: k in w.vouched ==> k in w'.vouched && w'.vouched[k] == w.vouched[k])
    && (forall u :: u in w.realms ==> u in w'.realms && w'.realms[u] == w.realms[u])
  }

  /** What one step may do: every row, task and history entry it writes is in order on its own. */
  ghost predicate GoodEffect(w: World, e: Effect) {
    var w' := Perform(w, e);
    && (e.user.PutUser? ==>
          UserOk(w', e.user.id, e.user.row) && (e.user.id in w.realms ==> w.realms[e.user.id] == e.user.row.realm))
    && (e.session.PutSession? ==> MarkerOk(w', e.session.id, e.session.row))
    && (e.task.Await? ==> TaskOk(w', e.task.task))
    && (e.chose.Some? ==> e.chose.value.0 !in w.chosen && e.chose.value.0.0 in w'.realms)
    && (e.vouch.Some? ==> Chose(w', e.vouch.value.0.1, e.vouch.value.0.2, e.vouch.value.1))
    && (e.accept.Some? ==> AcceptanceOk(w', e.accept.value))
  }

  lemma HistoryGrows(w: World, e: Effect)
    requires CredentialInv(w) && GoodEffect(w, e)
    ensures Grows(w, Perform(w, e)) && HistoryOk(Perform(w, e))
  {
  }

  lemma TaskStaysOk(w: World, w': World, task: Task)
    requires Grows(w, w') && TaskOk(w, task)
    ensures TaskOk(w', task)
  {
  }

  lemma TasksStayOk(w: World, e: Effect)
    requires CredentialInv(w) && GoodEffect(w, e) && Grows(w, Perform(w, e))
    ensures TasksOk(Perform(w, e))
  {
    var w' := Perform(w, e);
    forall t | t in w'.tasks ensures TaskOk(w', w'.tasks[t]) {
      if t in w.tasks && w.tasks[t] == w'.tasks[t] { TaskStaysOk(w, w', w.tasks[t]); }
    }
  }

  lemma UsersStayOk(w: World, e: Effect)
    requires CredentialInv(w) && GoodEffect(w, e) && Grows(w, Perform(w, e))
    ensures UsersOk(Perform(w, e))
  {
  }

  lemma MarkersStayOk(w: World, e: Effect)
    requires CredentialInv(w) && GoodEffect(w, e) && Grows(w, Perform(w, e))
    ensures MarkersOk(Perform(w, e))
  {
  }

  lemma AcceptancesStayOk(w: World, e: Effect)
    requires CredentialInv(w) && GoodEffect(w, e) && Grows(w, Perform(w, e))
    ensures AcceptancesOk(Perform(w, e))
  {
  }

  lemma GoodEffectKeeps(w: World, e: Effect)
    requires CredentialInv(w) && GoodEffect(w, e)
    ensures CredentialInv(Perform(w, e))
  {
    HistoryGrows(w, e);
    TasksStayOk(w, e);
    UsersStayOk(w, e);
    MarkersStayOk(w, e);
    AcceptancesStayOk(w, e);
  }

  lemma LoginVerifyGood(w: World, t: TaskId)
    requires CredentialInv(w) && t in w.tasks && w.tasks[t].LoginVerifying?
    ensures GoodEffect(w, LoginVerify(t, w.tasks[t]))
  {
  }

  lemma LoginFailGood(w: World, t: TaskId, policy: Policy)
    requires CredentialInv(w) && t in w.tasks && w.tasks[t].LoginFailing?
    ensures GoodEffect(w, LoginFail(w, policy, t, w.tasks[t]))
  {
  }

  lemma LoginLockGood(w: World, t: TaskId, policy: Policy)
    requires CredentialInv(w) && t in w.tasks && w.tasks[t].LoginLocking?
    ensures GoodEffect(w, LoginLock(w, policy, t, w.tasks[t]))
  {
  }

  lemma LoginRereadGood(w: World, t: TaskId)
    requires CredentialInv(w) && t in w.tasks && w.tasks[t].LoginPassed?
    ensures GoodEffect(w, LoginReread(w, t, w.tasks[t]))
  {
  }

  lemma LoginSucceedGood(w: World, t: TaskId)
    requires CredentialInv(w) && t in w.tasks && w.tasks[t].LoginChecked?
    ensures GoodEffect(w, LoginSucceed(w, t, w.tasks[t]))
  {
  }

  lemma LoginRehashGood(w: World, t: TaskId, salt: nat)
    requires CredentialInv(w) && t in w.tasks && w.tasks[t].LoginRehashing?
    ensures GoodEffect(w, LoginRehash(w, t, w.tasks[t], salt))
  {
  }

  lemma LoginCreateGood(w: World, t: TaskId, policy: Policy, s: SessionId)
    requires CredentialInv(w) && t in w.tasks && w.tasks[t].LoginCreating?
    ensures GoodEffect(w, LoginCreate(w, policy, t, w.tasks[t], s))
  {
  }

  lemma ChangeVerifyGood(w: World, t: TaskId)
    requires CredentialInv(w) && t in w.tasks && w.tasks[t].ChangeVerifying?
    ensures GoodEffect(w, ChangeVerify(t, w.tasks[t]))
  {
  }

  lemma ChangeHashGood(w: World, t: TaskId, salt: nat)
    requires CredentialInv(w) && t in w.tasks && w.tasks[t].ChangeHashing?
    ensures GoodEffect(w, ChangeHash(w, t, w.tasks[t], salt))
  {
  }

  lemma PasswordWriteGood(w: World, t: TaskId, u: UserId, next: Task, hash: PasswordHash, g: Time)
    requires CredentialInv(w) && u in w.users && IsLocal(w, u) && (u, g) !in w.chosen
    requires next.ChangeRevoking? && next.user == u && next.password == hash.password && next.newGeneration == g
    ensures GoodEffect(w, Effect(Await(t, next), user := PutUser(u, SetPassword(w.users[u], hash, g)),
                                 chose := Some(((u, g), hash.password)), events := [PasswordSet(u)]))
  {
    assert UserOk(w, u, w.users[u]);
  }

  lemma ChangeWriteGood(w: World, t: TaskId)
    requires CredentialInv(w) && t in w.tasks && w.tasks[t].ChangeWriting?
    ensures GoodEffect(w, ChangeWrite(w, t, w.tasks[t]))
  {
    var task := w.tasks[t];
    assert TaskOk(w, task);
    if task.user in w.users && (task.user, task.changedAt) !in w.chosen {
      var next := ChangeRevoking(task.user, task.password, task.keep, task.changedAt);
      PasswordWriteGood(w, t, task.user, next, task.newHash, task.changedAt);
    }
  }

  lemma ChangeRevokeGood(w: World, t: TaskId)
    requires CredentialInv(w) && t in w.tasks && w.tasks[t].ChangeRevoking?
    ensures GoodEffect(w, ChangeRevoke(w, t, w.tasks[t]))
  {
  }

  lemma ChangeStampGood(w: World, t: TaskId)
    requires CredentialInv(w) && t in w.tasks && w.tasks[t].ChangeStamping?
    ensures GoodEffect(w, ChangeStamp(w, t, w.tasks[t]))
  {
  }

  lemma ResolveRereadGood(w: World, t: TaskId)
    requires CredentialInv(w) && t in w.tasks && w.tasks[t].ResolveRereading?
    ensures GoodEffect(w, ResolveReread(w, t, w.tasks[t]))
  {
  }

  lemma UsableRowIsVouched(w: World, s: SessionId, row: SessionRow, now: Time)
    requires UsersOk(w) && HistoryOk(w) && MarkerOk(w, s, row) && Usable(w.users, row)
    ensures AcceptanceOk(w, Acceptance(s, row, w.users[row.userId], now))
  {
    assert UserOk(w, row.userId, w.users[row.userId]);
    if row.credentialMarker.Some? {
      var key := (s, row.userId, row.credentialMarker.value);
      assert Chose(w, row.userId, row.credentialMarker.value, w.vouched[key]);
    }
  }

  lemma AcceptGood(w: World, policy: Policy, t: TaskId, a: Acceptance, foreground: bool)
    requires AcceptanceOk(w, a)
    ensures GoodEffect(w, Accept(policy, t, a, foreground))
  {
  }

  lemma ResolveUserGood(w: World, t: TaskId, policy: Policy)
    requires CredentialInv(w) && t in w.tasks && w.tasks[t].ResolveLoaded?
    ensures GoodEffect(w, ResolveUser(w, policy, t, w.tasks[t]))
  {
    var task := w.tasks[t];
    assert TaskOk(w, task);
    if Usable(w.users, task.row) && w.users[task.row.userId].realm.Local? {
      UsableRowIsVouched(w, task.session, task.row, task.now);
      AcceptGood(w, policy, t, Acceptance(task.session, task.row, w.users[task.row.userId], task.now), task.foreground);
    }
  }

  lemma ResolveCheckGood(w: World, t: TaskId, policy: Policy)
    requires CredentialInv(w) && t in w.tasks && w.tasks[t].ResolveChecking?
    ensures GoodEffect(w, ResolveCheck(w, policy, t, w.tasks[t]))
  {
    var task := w.tasks[t];
    assert TaskOk(w, task);
    if DirectoryUsable(w.directories, task.owner) {
      AcceptGood(w, policy, t, Acceptance(task.session, task.row, task.owner, task.now), task.foreground);
    }
  }

  lemma ResolveTouchGood(w: World, t: TaskId)
    requires CredentialInv(w) && t in w.tasks && w.tasks[t].ResolveTouching?
    ensures GoodEffect(w, ResolveTouch(w, t, w.tasks[t]))
  {
  }

  lemma UnlockWriteGood(w: World, t: TaskId)
    requires CredentialInv(w) && t in w.tasks && w.tasks[t].Unlocking?
    ensures GoodEffect(w, UnlockWrite(w, t, w.tasks[t]))
  {
  }

  lemma ResolveDropGood(w: World, t: TaskId, policy: Policy)
    requires t in w.tasks && (w.tasks[t].ResolveExpired? || w.tasks[t].ResolveRejecting?)
    ensures w.tasks[t].ResolveExpired? ==> GoodEffect(w, ResolveDelete(w, policy, t, w.tasks[t]))
    ensures w.tasks[t].ResolveRejecting? ==> GoodEffect(w, ResolveReject(t, w.tasks[t]))
  {
  }

  predicate IsLogin(task: Task) {
    || task.LoginVerifying? || task.LoginFailing? || task.LoginLocking? || task.LoginPassed? || task.LoginChecked?
    || task.LoginRehashing? || task.LoginCreating?
  }

  predicate IsChange(task: Task) {
    task.ChangeVerifying? || task.ChangeHashing? || task.ChangeWriting? || task.ChangeRevoking? || task.ChangeStamping?
  }

  lemma AdvanceLoginGood(w: World, policy: Policy, t: TaskId, drawn: nat)
    requires CredentialInv(w) && t in w.tasks && IsLogin(w.tasks[t])
    ensures GoodEffect(w, AdvanceTask(w, policy, t, drawn))
  {
    match w.tasks[t]
    case LoginVerifying(_, _, _, _, _, _) => LoginVerifyGood(w, t);
    case LoginFailing(_, _) => LoginFailGood(w, t, policy);
    case LoginLocking(_, _) => LoginLockGood(w, t, policy);
    case LoginPassed(_, _, _, _, _) => LoginRereadGood(w, t);
    case LoginChecked(_, _, _, _, _, _) => LoginSucceedGood(w, t);
    case LoginRehashing(_, _, _, _) => LoginRehashGood(w, t, drawn);
    case LoginCreating(_, _, _) => LoginCreateGood(w, t, policy, drawn);
  }

  lemma AdvanceCheckGood(w: World, policy: Policy, t: TaskId, drawn: nat)
    requires CredentialInv(w) && t in w.tasks && (w.tasks[t].ChangeVerifying? || w.tasks[t].ChangeHashing?)
    ensures GoodEffect(w, AdvanceTask(w, policy, t, drawn))
  {
    if w.tasks[t].ChangeVerifying? { ChangeVerifyGood(w, t); } else { ChangeHashGood(w, t, drawn); }
  }

  lemma AdvanceWriteGood(w: World, policy: Policy, t: TaskId, drawn: nat)
    requires CredentialInv(w) && t in w.tasks && w.tasks[t].ChangeWriting?
    ensures GoodEffect(w, AdvanceTask(w, policy, t, drawn))
  {
    assert AdvanceTask(w, policy, t, drawn) == ChangeWrite(w, t, w.tasks[t]);
    ChangeWriteGood(w, t);
  }

  lemma AdvanceSessionsGood(w: World, policy: Policy, t: TaskId, drawn: nat)
    requires CredentialInv(w) && t in w.tasks && (w.tasks[t].ChangeRevoking? || w.tasks[t].ChangeStamping?)
    ensures GoodEffect(w, AdvanceTask(w, policy, t, drawn))
  {
    if w.tasks[t].ChangeRevoking? { ChangeRevokeGood(w, t); } else { ChangeStampGood(w, t); }
  }

  lemma AdvanceOtherGood(w: World, policy: Policy, t: TaskId, drawn: nat)
    requires CredentialInv(w) && t in w.tasks && !IsLogin(w.tasks[t]) && !IsChange(w.tasks[t])
    ensures GoodEffect(w, AdvanceTask(w, policy, t, drawn))
  {
    match w.tasks[t]
    case ResolveExpired(_, _, _) => ResolveDropGood(w, t, policy);
    case ResolveRereading(_, _, _) => ResolveRereadGood(w, t);
    case ResolveLoaded(_, _, _, _) => ResolveUserGood(w, t, policy);
    case ResolveChecking(_, _, _, _, _) => ResolveCheckGood(w, t, policy);
    case ResolveRejecting(_) => ResolveDropGood(w, t, policy);
    case ResolveTouching(_, _) => ResolveTouchGood(w, t);
    case Unlocking(_, _) => UnlockWriteGood(w, t);
  }

  lemma AdvanceGood(w: World, policy: Policy, t: TaskId, drawn: nat)
    requires CredentialInv(w) && t in w.tasks
    ensures GoodEffect(w, AdvanceTask(w, policy, t, drawn))
  {
    if IsLogin(w.tasks[t]) {
      AdvanceLoginGood(w, policy, t, drawn);
    } else if IsChange(w.tasks[t]) {
      if w.tasks[t].ChangeVerifying? || w.tasks[t].ChangeHashing? {
        AdvanceCheckGood(w, policy, t, drawn);
      } else if w.tasks[t].ChangeWriting? {
        AdvanceWriteGood(w, policy, t, drawn);
      } else {
        AdvanceSessionsGood(w, policy, t, drawn);
      }
    } else {
      AdvanceOtherGood(w, policy, t, drawn);
    }
  }

  lemma LoginReadGood(w: World, t: TaskId, u: UserId, password: Password)
    requires CredentialInv(w)
    ensures GoodEffect(w, LoginRead(w, t, u, password))
  {
  }

  lemma ChangeBeginGood(w: World, t: TaskId, u: UserId, current: Password, password: Password, keep: Option<SessionId>)
    requires CredentialInv(w)
    ensures GoodEffect(w, ChangeRead(w, t, u, current, password, keep))
    ensures GoodEffect(w, ResetRead(w, t, u, password, keep))
  {
  }

  lemma ResolveReadGood(w: World, policy: Policy, t: TaskId, s: SessionId, foreground: bool)
    requires CredentialInv(w)
    ensures GoodEffect(w, ResolveRead(w, policy, t, s, foreground))
  {
  }

  lemma NewUserGood(w: World, u: UserId, password: Password, salt: nat, d: DirectoryId)
    requires CredentialInv(w)
    ensures GoodEffect(w, AddLocalUser(w, u, password, salt))
    ensures GoodEffect(w, AddDirectoryUser(w, u, d))
  {
  }

  lemma UserAdministrationGood(w: World, policy: Policy, u: UserId, s: SessionId, active: bool)
    requires CredentialInv(w)
    ensures GoodEffect(w, AddDirectorySession(w, policy, u, s))
    ensures GoodEffect(w, Activate(w, u, active))
  {
  }

  predicate IsBegin(step: Step) {
    step.BeginLogin? || step.BeginOwnChange? || step.BeginReset? || step.BeginResolve? || step.BeginUnlock?
  }

  predicate MakesUser(step: Step) {
    step.DirectoryLogin? || step.SetActive? || step.CreateLocalUser? || step.CreateDirectoryUser?
  }

  lemma UnlockReadGood(w: World, t: TaskId, u: UserId)
    ensures GoodEffect(w, UnlockRead(w, t, u))
  {
  }

  lemma BeginGood(w: World, policy: Policy, step: Step)
    requires CredentialInv(w) && IsBegin(step)
    ensures GoodEffect(w, EffectOf(w, policy, step))
  {
    match step
    case BeginLogin(t, u, password) => LoginReadGood(w, t, u, password);
    case BeginOwnChange(t, u, current, password, keep) => ChangeBeginGood(w, t, u, current, password, keep);
    case BeginReset(t, u, password, keep) => ChangeBeginGood(w, t, u, password, password, keep);
    case BeginResolve(t, s, foreground) => ResolveReadGood(w, policy, t, s, foreground);
    case BeginUnlock(t, u) => UnlockReadGood(w, t, u);
  }

  lemma UserStepGood(w: World, policy: Policy, step: Step)
    requires CredentialInv(w) && MakesUser(step)
    ensures GoodEffect(w, EffectOf(w, policy, step))
  {
    if step.DirectoryLogin? || step.SetActive? {
      OldUserStepGood(w, policy, step);
    } else {
      NewUserStepGood(w, policy, step);
    }
  }

  lemma OldUserStepGood(w: World, policy: Policy, step: Step)
    requires CredentialInv(w) && (step.DirectoryLogin? || step.SetActive?)
    ensures GoodEffect(w, EffectOf(w, policy, step))
  {
    if step.SetActive? {
      UserAdministrationGood(w, policy, step.user, 0, step.active);
    } else {
      UserAdministrationGood(w, policy, step.user, step.session, true);
    }
  }

  lemma NewUserStepGood(w: World, policy: Policy, step: Step)
    requires CredentialInv(w) && (step.CreateLocalUser? || step.CreateDirectoryUser?)
    ensures GoodEffect(w, EffectOf(w, policy, step))
  {
    if step.CreateLocalUser? {
      assert EffectOf(w, policy, step) == AddLocalUser(w, step.user, step.password, step.salt);
      NewUserGood(w, step.user, step.password, step.salt, 0);
    } else {
      assert EffectOf(w, policy, step) == AddDirectoryUser(w, step.user, step.directory);
      NewUserGood(w, step.user, "", 0, step.directory);
    }
  }

  /** The other steps write no user row and no session row. */
  lemma OtherStepGood(w: World, policy: Policy, step: Step)
    requires !IsBegin(step) && !MakesUser(step) && !step.Advance?
    ensures GoodEffect(w, EffectOf(w, policy, step))
  {
    var e := EffectOf(w, policy, step);
    assert !e.user.PutUser? && !e.session.PutSession? && e.task.SameTasks?;
    assert e.chose.None? && e.vouch.None? && e.accept.None?;
  }

  lemma StepGood(w: World, policy: Policy, step: Step)
    requires CredentialInv(w)
    ensures GoodEffect(w, EffectOf(w, policy, step))
  {
    if step.Advance? {
      if step.task in w.tasks { AdvanceGood(w, policy, step.task, step.drawn); }
    } else if IsBegin(step) {
      BeginGood(w, policy, step);
    } else if MakesUser(step) {
      UserStepGood(w, policy, step);
    } else {
      OtherStepGood(w, policy, step);
    }
  }

  lemma StepKeeps(w: World, policy: Policy, step: Step)
    requires CredentialInv(w)
    ensures CredentialInv(Apply(w, policy, step))
  {
    StepGood(w, policy, step);
    GoodEffectKeeps(w, EffectOf(w, policy, step));
  }

  lemma {:induction false} RunKeeps(policy: Policy, steps: seq<Step>)
    ensures CredentialInv(Run(policy, steps))
    decreases |steps|
  {
    if steps != [] {
      RunKeeps(policy, steps[..|steps| - 1]);
      StepKeeps(Run(policy, steps[..|steps| - 1]), policy, steps[|steps| - 1]);
    }
  }

  /** Whatever the interleaving: a lookup accepts a local user's session only if some client
      typed the password of the user's current generation for that very session. */
  lemma AcceptedSessionsKnowCurrentPassword(policy: Policy, steps: seq<Step>, i: nat)
    requires i < |Run(policy, steps).accepted|
    requires Run(policy, steps).accepted[i].user.realm.Local?
    ensures var w := Run(policy, steps);
            var a := w.accepted[i];
            a.user.passwordChangedAt.Some?
            && var key := (a.session, a.row.userId, a.user.passwordChangedAt.value);
            key in w.vouched && VerifyPassword(a.user.passwordHash, w.vouched[key]).ok
  {
    RunKeeps(policy, steps);
    assert AcceptanceOk(Run(policy, steps), Run(policy, steps).accepted[i]);
  }

  /** The stored hash always verifies exactly the password that its generation set. */
  lemma StoredHashFollowsGeneration(policy: Policy, steps: seq<Step>, u: UserId, password: Password)
    requires u in Run(policy, steps).users
    requires Run(policy, steps).users[u].realm.Local?
    ensures var w := Run(policy, steps);
            w.users[u].passwordChangedAt.Some?
            && (VerifyPassword(w.users[u].passwordHash, password).ok
                <==> Chose(w, u, w.users[u].passwordChangedAt.value, password))
  {
    RunKeeps(policy, steps);
  }
}
