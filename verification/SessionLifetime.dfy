/** Idle and absolute timeouts over every interleaving of lookups, touches and deletions. */
module SessionLifetime {
  import opened Accounts
  import opened LoginProtocol
  import opened Options
  import CredentialSafety

  ghost predicate RowOk(w: World, policy: Policy, s: SessionId, row: SessionRow) {
    && s in w.born && s in w.seen
    && row.createdAt == w.born[s] && row.expiresAt == w.born[s] + policy.absoluteTimeout
    && row.createdAt <= row.lastSeenAt && row.lastSeenAt > w.seen[s] - TouchInterval(policy)
  }

  ghost predicate RowsOk(w: World, policy: Policy) {
    forall s :: s in w.sessions ==> RowOk(w, policy, s, w.sessions[s])
  }

  ghost predicate TaskOk(w: World, policy: Policy, task: Task) {
    match task
    case ResolveExpired(s, now, _) => s in w.born && now <= w.clock
    case ResolveRereading(s, now, _) =>
      s in w.born && now <= w.clock && (s in w.sessions ==> !IsExpired(w.sessions[s], policy, now))
    case ResolveLoaded(s, row, now, _) =>
      s in w.born && now <= w.clock && !IsExpired(row, policy, now)
      && (s in w.sessions ==> row.lastSeenAt <= w.sessions[s].lastSeenAt)
    case ResolveChecking(s, row, _, now, _) =>
      s in w.born && now <= w.clock && !IsExpired(row, policy, now)
      && (s in w.sessions ==> row.lastSeenAt <= w.sessions[s].lastSeenAt)
    case ResolveTouching(s, now) => s in w.born && now <= w.clock
    case ResolveRejecting(s) => s in w.born
    case _ => true
  }

  ghost predicate TasksOk(w: World, policy: Policy) {
    forall t :: t in w.tasks ==> TaskOk(w, policy, w.tasks[t])
  }

  ghost predicate HistoryOk(w: World, policy: Policy) {
    && (forall i :: 0 <= i < |w.accepted| ==> !IsExpired(w.accepted[i].row, policy, w.accepted[i].now))
    && (forall i :: 0 <= i < |w.log| && w.log[i].SessionExpired? ==> IsExpired(w.log[i].row, policy, w.log[i].now))
  }

  ghost predicate LifetimeInv(w: World, policy: Policy) {
    w.seen.Keys <= w.born.Keys && RowsOk(w, policy) && TasksOk(w, policy) && HistoryOk(w, policy)
  }

  /** Rows that stay keep their deadline and are seen no earlier; new rows take a new id. */
  ghost predicate SessionsAdvance(w: World, w': World) {
    forall s :: s in w'.sessions && s in w.born ==>
      s in w.sessions && w.sessions[s].lastSeenAt <= w'.sessions[s].lastSeenAt
      && w.sessions[s].expiresAt == w'.sessions[s].expiresAt
  }

  ghost predicate GoodEffect(w: World, policy: Policy, e: Effect) {
    var w' := Perform(w, e);
    && (e.session.PutSession? ==>
          var s := e.session.id;
          && RowOk(w', policy, s, e.session.row)
          && (s in w.born ==> s in w.sessions
                              && w.sessions[s].lastSeenAt <= e.session.row.lastSeenAt
                              && w.sessions[s].createdAt == e.session.row.createdAt
                              && w.sessions[s].expiresAt == e.session.row.expiresAt))
    && (e.sees.Some? ==> e.sees.value.0 in w'.born && (e.sees.value.0 in w'.sessions ==>
                            w'.sessions[e.sees.value.0].lastSeenAt > e.sees.value.1 - TouchInterval(policy)))
    && (e.task.Await? ==> TaskOk(w', policy, e.task.task))
    && (e.accept.Some? ==> !IsExpired(e.accept.value.row, policy, e.accept.value.now))
    && (forall i :: 0 <= i < |e.events| && e.events[i].SessionExpired? ==>
      IsExpired(e.events[i].row, policy, e.events[i].now))
  }

  lemma SessionsDoAdvance(w: World, policy: Policy, e: Effect)
    requires LifetimeInv(w, policy) && GoodEffect(w, policy, e)
    ensures SessionsAdvance(w, Perform(w, e)) && w.born.Keys <= Perform(w, e).born.Keys
  {
  }

  lemma RowsStayOk(w: World, policy: Policy, e: Effect)
    requires LifetimeInv(w, policy) && GoodEffect(w, policy, e)
    ensures RowsOk(Perform(w, e), policy)
  {
  }

  lemma TaskStaysOk(w: World, w': World, policy: Policy, task: Task)
    requires TaskOk(w, policy, task) && SessionsAdvance(w, w')
    requires w.clock <= w'.clock && w.born.Keys <= w'.born.Keys
    ensures TaskOk(w', policy, task)
  {
  }

  lemma TasksStayOk(w: World, policy: Policy, e: Effect)
    requires LifetimeInv(w, policy) && GoodEffect(w, policy, e)
    ensures TasksOk(Perform(w, e), policy)
  {
  }

  lemma EffectKeeps(w: World, policy: Policy, e: Effect)
    requires LifetimeInv(w, policy) && GoodEffect(w, policy, e)
    ensures LifetimeInv(Perform(w, e), policy)
  {
    RowsStayOk(w, policy, e);
    TasksStayOk(w, policy, e);
  }

  lemma AcceptGood(w: World, policy: Policy, t: TaskId, a: Acceptance, foreground: bool)
    requires LifetimeInv(w, policy) && a.session in w.born && a.now <= w.clock && !IsExpired(a.row, policy, a.now)
    requires a.session in w.sessions ==> a.row.lastSeenAt <= w.sessions[a.session].lastSeenAt
    ensures GoodEffect(w, policy, Accept(policy, t, a, foreground))
  {
  }

  lemma ResolveUserGood(w: World, policy: Policy, t: TaskId)
    requires LifetimeInv(w, policy) && t in w.tasks && w.tasks[t].ResolveLoaded?
    ensures GoodEffect(w, policy, ResolveUser(w, policy, t, w.tasks[t]))
  {
    var task := w.tasks[t];
    assert TaskOk(w, policy, task);
    if Usable(w.users, task.row) && w.users[task.row.userId].realm.Local? {
      AcceptGood(w, policy, t, Acceptance(task.session, task.row, w.users[task.row.userId], task.now), task.foreground);
    }
  }

  lemma ResolveCheckGood(w: World, policy: Policy, t: TaskId)
    requires LifetimeInv(w, policy) && t in w.tasks && w.tasks[t].ResolveChecking?
    ensures GoodEffect(w, policy, ResolveCheck(w, policy, t, w.tasks[t]))
  {
    var task := w.tasks[t];
    assert TaskOk(w, policy, task);
    if DirectoryUsable(w.directories, task.owner) {
      AcceptGood(w, policy, t, Acceptance(task.session, task.row, task.owner, task.now), task.foreground);
    }
  }

  lemma ResolveTouchGood(w: World, policy: Policy, t: TaskId)
    requires LifetimeInv(w, policy) && t in w.tasks && w.tasks[t].ResolveTouching? && 2 <= policy.idleTimeout
    ensures GoodEffect(w, policy, ResolveTouch(w, t, w.tasks[t]))
  {
  }

  lemma ResolveDeleteGood(w: World, policy: Policy, t: TaskId)
    requires LifetimeInv(w, policy) && t in w.tasks && w.tasks[t].ResolveExpired?
    ensures GoodEffect(w, policy, ResolveDelete(w, policy, t, w.tasks[t]))
  {
    assert TaskOk(w, policy, w.tasks[t]);
  }

  lemma ResolveRereadGood(w: World, policy: Policy, t: TaskId)
    requires LifetimeInv(w, policy) && t in w.tasks && w.tasks[t].ResolveRereading?
    ensures GoodEffect(w, policy, ResolveReread(w, t, w.tasks[t]))
  {
    assert TaskOk(w, policy, w.tasks[t]);
  }

  lemma ResolveRejectGood(w: World, policy: Policy, t: TaskId)
    requires t in w.tasks && w.tasks[t].ResolveRejecting?
    ensures GoodEffect(w, policy, ResolveReject(t, w.tasks[t]))
  {
  }

  lemma LoginCreateGood(w: World, policy: Policy, t: TaskId, s: SessionId)
    requires LifetimeInv(w, policy) && t in w.tasks && w.tasks[t].LoginCreating? && 2 <= policy.idleTimeout
    ensures GoodEffect(w, policy, LoginCreate(w, policy, t, w.tasks[t], s))
  {
  }

  lemma ChangeStampGood(w: World, policy: Policy, t: TaskId)
    requires LifetimeInv(w, policy) && t in w.tasks && w.tasks[t].ChangeStamping?
    ensures GoodEffect(w, policy, ChangeStamp(w, t, w.tasks[t]))
  {
  }

  predicate IsResolve(task: Task) {
    || task.ResolveExpired? || task.ResolveRereading? || task.ResolveLoaded? || task.ResolveChecking?
    || task.ResolveRejecting? || task.ResolveTouching?
  }

  /** Most steps put no session row, and wait for nothing that reads one. */
  predicate Plain(e: Effect) {
    && !e.session.PutSession? && e.sees.None? && e.accept.None?
    && (e.task.Await? ==> !IsResolve(e.task.task))
    && (forall i :: 0 <= i < |e.events| ==> !e.events[i].SessionExpired?)
  }

  lemma PlainIsGood(w: World, policy: Policy, e: Effect)
    requires Plain(e)
    ensures GoodEffect(w, policy, e)
  {
  }

  lemma LoginIsPlain(w: World, policy: Policy, t: TaskId, drawn: nat)
    requires t in w.tasks && CredentialSafety.IsLogin(w.tasks[t]) && !w.tasks[t].LoginCreating?
    ensures Plain(AdvanceTask(w, policy, t, drawn))
  {
  }

  lemma ChangeIsPlain(w: World, policy: Policy, t: TaskId, drawn: nat)
    requires t in w.tasks && CredentialSafety.IsChange(w.tasks[t]) && !w.tasks[t].ChangeStamping?
    ensures Plain(AdvanceTask(w, policy, t, drawn))
  {
  }

  lemma UnlockIsPlain(w: World, policy: Policy, t: TaskId, drawn: nat)
    requires t in w.tasks && w.tasks[t].Unlocking?
    ensures Plain(AdvanceTask(w, policy, t, drawn))
  {
  }

  lemma AdvanceJudgeGood(w: World, policy: Policy, t: TaskId, drawn: nat)
    requires LifetimeInv(w, policy) && t in w.tasks && (w.tasks[t].ResolveLoaded? || w.tasks[t].ResolveChecking?)
    ensures GoodEffect(w, policy, AdvanceTask(w, policy, t, drawn))
  {
    var task := w.tasks[t];
    if task.ResolveLoaded? {
      assert AdvanceTask(w, policy, t, drawn) == ResolveUser(w, policy, t, task);
      ResolveUserGood(w, policy, t);
    } else {
      assert AdvanceTask(w, policy, t, drawn) == ResolveCheck(w, policy, t, task);
      ResolveCheckGood(w, policy, t);
    }
  }

  lemma AdvanceExpiredGood(w: World, policy: Policy, t: TaskId, drawn: nat)
    requires LifetimeInv(w, policy) && t in w.tasks && (w.tasks[t].ResolveExpired? || w.tasks[t].ResolveRereading?)
    ensures GoodEffect(w, policy, AdvanceTask(w, policy, t, drawn))
  {
    if w.tasks[t].ResolveExpired? { ResolveDeleteGood(w, policy, t); } else { ResolveRereadGood(w, policy, t); }
  }

  lemma AdvanceLastGood(w: World, policy: Policy, t: TaskId, drawn: nat)
    requires LifetimeInv(w, policy) && t in w.tasks && 2 <= policy.idleTimeout
    requires w.tasks[t].ResolveRejecting? || w.tasks[t].ResolveTouching?
    ensures GoodEffect(w, policy, AdvanceTask(w, policy, t, drawn))
  {
    if w.tasks[t].ResolveRejecting? { ResolveRejectGood(w, policy, t); } else { ResolveTouchGood(w, policy, t); }
  }

  lemma AdvanceResolveGood(w: World, policy: Policy, t: TaskId, drawn: nat)
    requires LifetimeInv(w, policy) && t in w.tasks && IsResolve(w.tasks[t]) && 2 <= policy.idleTimeout
    ensures GoodEffect(w, policy, AdvanceTask(w, policy, t, drawn))
  {
    if w.tasks[t].ResolveLoaded? || w.tasks[t].ResolveChecking? {
      AdvanceJudgeGood(w, policy, t, drawn);
    } else if w.tasks[t].ResolveExpired? || w.tasks[t].ResolveRereading? {
      AdvanceExpiredGood(w, policy, t, drawn);
    } else {
      AdvanceLastGood(w, policy, t, drawn);
    }
  }

  lemma AdvanceGood(w: World, policy: Policy, t: TaskId, drawn: nat)
    requires LifetimeInv(w, policy) && t in w.tasks && 2 <= policy.idleTimeout
    ensures GoodEffect(w, policy, AdvanceTask(w, policy, t, drawn))
  {
    if IsResolve(w.tasks[t]) {
      AdvanceResolveGood(w, policy, t, drawn);
    } else if w.tasks[t].LoginCreating? {
      LoginCreateGood(w, policy, t, drawn);
    } else if w.tasks[t].ChangeStamping? {
      ChangeStampGood(w, policy, t);
    } else {
      AdvanceIsPlain(w, policy, t, drawn);
      PlainIsGood(w, policy, AdvanceTask(w, policy, t, drawn));
    }
  }

  lemma AdvanceIsPlain(w: World, policy: Policy, t: TaskId, drawn: nat)
    requires t in w.tasks && !IsResolve(w.tasks[t]) && !w.tasks[t].LoginCreating? && !w.tasks[t].ChangeStamping?
    ensures Plain(AdvanceTask(w, policy, t, drawn))
  {
    if CredentialSafety.IsLogin(w.tasks[t]) {
      LoginIsPlain(w, policy, t, drawn);
    } else if CredentialSafety.IsChange(w.tasks[t]) {
      ChangeIsPlain(w, policy, t, drawn);
    } else {
      UnlockIsPlain(w, policy, t, drawn);
    }
  }

  lemma ResolveReadGood(w: World, policy: Policy, t: TaskId, s: SessionId, foreground: bool)
    requires LifetimeInv(w, policy)
    ensures GoodEffect(w, policy, ResolveRead(w, policy, t, s, foreground))
  {
  }

  lemma DirectorySessionGood(w: World, policy: Policy, u: UserId, s: SessionId)
    requires LifetimeInv(w, policy) && 2 <= policy.idleTimeout
    ensures GoodEffect(w, policy, AddDirectorySession(w, policy, u, s))
  {
  }

  lemma AdministrationIsPlain(w: World, policy: Policy, step: Step)
    requires !step.Advance? && !step.BeginResolve? && !step.DirectoryLogin?
    ensures Plain(EffectOf(w, policy, step))
  {
  }

  lemma BirthGood(w: World, policy: Policy, step: Step)
    requires LifetimeInv(w, policy) && 2 <= policy.idleTimeout && (step.BeginResolve? || step.DirectoryLogin?)
    ensures GoodEffect(w, policy, EffectOf(w, policy, step))
  {
    if step.BeginResolve? {
      ResolveReadGood(w, policy, step.task, step.session, step.foreground);
    } else {
      DirectorySessionGood(w, policy, step.user, step.session);
    }
  }

  lemma StepGood(w: World, policy: Policy, step: Step)
    requires LifetimeInv(w, policy) && 2 <= policy.idleTimeout
    ensures GoodEffect(w, policy, EffectOf(w, policy, step))
  {
    if step.Advance? && step.task in w.tasks {
      AdvanceGood(w, policy, step.task, step.drawn);
    } else if step.BeginResolve? || step.DirectoryLogin? {
      BirthGood(w, policy, step);
    } else {
      StepIsPlain(w, policy, step);
      PlainIsGood(w, policy, EffectOf(w, policy, step));
    }
  }

  lemma StepIsPlain(w: World, policy: Policy, step: Step)
    requires !step.BeginResolve? && !step.DirectoryLogin? && (step.Advance? ==> step.task !in w.tasks)
    ensures Plain(EffectOf(w, policy, step))
  {
    if !step.Advance? { AdministrationIsPlain(w, policy, step); }
  }

  lemma StepKeeps(w: World, policy: Policy, step: Step)
    requires LifetimeInv(w, policy) && 2 <= policy.idleTimeout
    ensures LifetimeInv(Apply(w, policy, step), policy)
    ensures SessionsAdvance(w, Apply(w, policy, step)) && w.born.Keys <= Apply(w, policy, step).born.Keys
  {
    if step.Tick? {
      var w' := Apply(w, policy, step);
      forall t | t in w'.tasks ensures TaskOk(w', policy, w'.tasks[t]) {
        TaskStaysOk(w, w', policy, w.tasks[t]);
      }
      forall s | s in w'.sessions ensures RowOk(w', policy, s, w'.sessions[s]) {
        assert RowOk(w, policy, s, w.sessions[s]);
      }
    } else {
      StepGood(w, policy, step);
      SessionsDoAdvance(w, policy, EffectOf(w, policy, step));
      EffectKeeps(w, policy, EffectOf(w, policy, step));
    }
  }

  lemma {:induction false} RunKeeps(policy: Policy, steps: seq<Step>)
    requires 2 <= policy.idleTimeout
    ensures LifetimeInv(Run(policy, steps), policy)
    decreases |steps|
  {
    if steps != [] {
      RunKeeps(policy, steps[..|steps| - 1]);
      StepKeeps(Run(policy, steps[..|steps| - 1]), policy, steps[|steps| - 1]);
    }
  }

  lemma {:induction false} SessionsAdvanceAlong(policy: Policy, steps: seq<Step>, k: nat, s: SessionId)
    requires 2 <= policy.idleTimeout && k <= |steps| && s in Run(policy, steps[..k]).sessions
    ensures var w := Run(policy, steps);
            && s in w.born
            && (s in w.sessions ==> Run(policy, steps[..k]).sessions[s].lastSeenAt <= w.sessions[s].lastSeenAt)
    decreases |steps|
  {
    if k == |steps| {
      assert steps[..k] == steps;
      RunKeeps(policy, steps);
      assert RowOk(Run(policy, steps), policy, s, Run(policy, steps).sessions[s]);
    } else {
      var rest := steps[..|steps| - 1];
      assert rest[..k] == steps[..k];
      SessionsAdvanceAlong(policy, rest, k, s);
      RunKeeps(policy, rest);
      StepKeeps(Run(policy, rest), policy, steps[|steps| - 1]);
    }
  }

  /** `last_seen_at` never goes back, however requests on one session overlap. */
  lemma LastSeenNeverDecreases(policy: Policy, steps: seq<Step>, k: nat, s: SessionId)
    requires 2 <= policy.idleTimeout && k <= |steps|
    requires s in Run(policy, steps[..k]).sessions && s in Run(policy, steps).sessions
    ensures Run(policy, steps[..k]).sessions[s].lastSeenAt <= Run(policy, steps).sessions[s].lastSeenAt
  {
    SessionsAdvanceAlong(policy, steps, k, s);
  }

  /** A lookup that meant to delete a row as expired, but finds it touched meanwhile, goes on with the
      row as it is then; if the row is gone it ends. */
  lemma TouchedRowGoesOn(w: World, policy: Policy, t: TaskId, drawn: nat, s: SessionId, now: Time, foreground: bool)
    requires t in w.tasks && w.tasks[t] == ResolveExpired(s, now, foreground)
    ensures var w1 := Apply(w, policy, Advance(t, drawn));
            var w2 := Apply(w1, policy, Advance(t, drawn));
            if s in w.sessions && now < w.sessions[s].expiresAt && now - policy.idleTimeout < w.sessions[s].lastSeenAt
            then && w2.sessions == w.sessions && w2.users == w.users
                 && w2.tasks == w.tasks[t := ResolveLoaded(s, w.sessions[s], now, foreground)]
            else w2.sessions == w.sessions - {s} && w2.users == w.users && w2.tasks == w.tasks - {t}
  {
    var w1 := Apply(w, policy, Advance(t, drawn));
    if s in w.sessions && StillExpired(w.sessions[s], policy, now) {
      assert w1.tasks == w.tasks - {t} && w1.sessions == w.sessions - {s};
    } else {
      assert w1.tasks == w.tasks[t := ResolveRereading(s, now, foreground)] && w1.sessions == w.sessions;
      RereadEndsOrGoesOn(w1, policy, t, drawn);
    }
  }

  lemma RereadEndsOrGoesOn(w: World, policy: Policy, t: TaskId, drawn: nat)
    requires t in w.tasks && w.tasks[t].ResolveRereading?
    ensures var task, w' := w.tasks[t], Apply(w, policy, Advance(t, drawn));
            && w'.sessions == w.sessions && w'.users == w.users
            && w'.tasks == if task.session in w.sessions
                           then w.tasks[t := ResolveLoaded(task.session, w.sessions[task.session], task.now,
                                                           task.foreground)]
                           else w.tasks - {t}
  {
  }

  /** A session's user exists: deleting users takes sessions along, and none is made without. */
  ghost predicate SessionsHaveUsers(w: World) {
    forall s :: s in w.sessions ==> w.sessions[s].userId in w.users
  }

  lemma StepKeepsSessionUsers(w: World, policy: Policy, step: Step)
    requires SessionsHaveUsers(w)
    ensures SessionsHaveUsers(Apply(w, policy, step))
  {
    if step.Advance? && step.task in w.tasks {
      TaskKeepsSessionUsers(w, policy, step.task, step.drawn);
    } else if !step.Tick? {
      OtherStepKeepsSessionUsers(w, policy, step);
    }
  }

  lemma TaskKeepsSessionUsers(w: World, policy: Policy, t: TaskId, drawn: nat)
    requires SessionsHaveUsers(w) && t in w.tasks
    ensures var e := AdvanceTask(w, policy, t, drawn);
            var users, sessions := NewUsers(w.users, e.user), NewSessions(w.sessions, e.session);
            forall s :: s in sessions ==> sessions[s].userId in users
  {
  }

  lemma OtherStepKeepsSessionUsers(w: World, policy: Policy, step: Step)
    requires SessionsHaveUsers(w) && !step.Tick? && !(step.Advance? && step.task in w.tasks)
    ensures var e := EffectOf(w, policy, step);
            var users, sessions := NewUsers(w.users, e.user), NewSessions(w.sessions, e.session);
            forall s :: s in sessions ==> sessions[s].userId in users
  {
  }

  lemma {:induction false} EverySessionHasItsUser(policy: Policy, steps: seq<Step>)
    ensures SessionsHaveUsers(Run(policy, steps))
    decreases |steps|
  {
    if steps != [] {
      EverySessionHasItsUser(policy, steps[..|steps| - 1]);
      StepKeepsSessionUsers(Run(policy, steps[..|steps| - 1]), policy, steps[|steps| - 1]);
    }
  }

  /** The start reading that the spacing of requests is measured from never goes back. */
  lemma {:induction false} SeenNeverDecreases(policy: Policy, steps: seq<Step>, k: nat, s: SessionId)
    requires k <= |steps| && s in Run(policy, steps[..k]).seen
    ensures s in Run(policy, steps).seen && Run(policy, steps[..k]).seen[s] <= Run(policy, steps).seen[s]
    decreases |steps|
  {
    if k == |steps| {
      assert steps[..k] == steps;
    } else {
      var rest := steps[..|steps| - 1];
      assert rest[..k] == steps[..k];
      SeenNeverDecreases(policy, rest, k, s);
      SeenGrows(Run(policy, rest), policy, steps[|steps| - 1], s);
    }
  }

  lemma SeenGrows(w: World, policy: Policy, step: Step, s: SessionId)
    requires s in w.seen
    ensures var w' := Apply(w, policy, step); s in w'.seen && w.seen[s] <= w'.seen[s]
  {
    var sees := if step.Tick? then None else EffectOf(w, policy, step).sees;
    assert Apply(w, policy, step).seen == NewSeen(w.seen, sees);
  }

  /** A lookup returns only rows unexpired at its own time, and deletes as expired only rows
      that are expired at its own time. */
  lemma LookupsRespectExpiry(policy: Policy, steps: seq<Step>, i: nat)
    requires 2 <= policy.idleTimeout
    ensures var w := Run(policy, steps);
            && (i < |w.accepted| ==> !IsExpired(w.accepted[i].row, policy, w.accepted[i].now))
            && (i < |w.log| && w.log[i].SessionExpired? ==> IsExpired(w.log[i].row, policy, w.log[i].now))
  {
    RunKeeps(policy, steps);
  }

  /** The latest finished foreground request on `s` started, by its own clock reading, at
      most `gap` ago, and the absolute limit has not passed. */
  ghost predicate SeenWithin(w: World, policy: Policy, s: SessionId, gap: Time) {
    && s in w.seen && s in w.born
    && w.clock <= w.seen[s] + gap
    && w.clock < w.born[s] + policy.absoluteTimeout
  }

  ghost predicate Spaced(w: World, policy: Policy, s: SessionId) {
    SeenWithin(w, policy, s, policy.idleTimeout - TouchInterval(policy))
  }

  /** A minute, or half the idle timeout if that is shorter; an odd microsecond rounds to even. */
  lemma TouchIntervalExactly(policy: Policy)
    ensures var touch, idle := TouchInterval(policy), policy.idleTimeout;
            && (idle > 120_000_000 ==> touch == 60_000_000)
            && (idle <= 120_000_000 ==> -1 <= 2 * touch - idle <= 1)
            && (idle <= 120_000_000 && idle % 2 == 0 ==> 2 * touch == idle)
            && (idle <= 120_000_000 && idle % 2 != 0 ==> touch % 2 == 0)
  {
  }

  lemma SpacedRowIsLive(w: World, policy: Policy, s: SessionId, now: Time)
    requires LifetimeInv(w, policy) && s in w.sessions && Spaced(w, policy, s) && now <= w.clock
    ensures !IsExpired(w.sessions[s], policy, now) && !StillExpired(w.sessions[s], policy, now)
  {
  }

  /** In such a state no purge deletes the session ... */
  lemma SpacedRequestsSurvivePurge(policy: Policy, steps: seq<Step>, s: SessionId)
    requires 2 <= policy.idleTimeout
    requires s in Run(policy, steps).sessions && Spaced(Run(policy, steps), policy, s)
    ensures s in Apply(Run(policy, steps), policy, Purge).sessions
  {
    RunKeeps(policy, steps);
    SpacedRowIsLive(Run(policy, steps), policy, s, Run(policy, steps).clock);
  }

  /** ... no overlapping lookup deletes it as expired, however old that lookup's own time is ... */
  lemma SpacedRequestsSurviveLookups(policy: Policy, steps: seq<Step>, s: SessionId, t: TaskId, drawn: nat)
    requires 2 <= policy.idleTimeout
    requires s in Run(policy, steps).sessions && Spaced(Run(policy, steps), policy, s)
    requires t in Run(policy, steps).tasks && Run(policy, steps).tasks[t].ResolveExpired?
    ensures s in Apply(Run(policy, steps), policy, Advance(t, drawn)).sessions
  {
    RunKeeps(policy, steps);
    var w := Run(policy, steps);
    assert TaskOk(w, policy, w.tasks[t]);
    SpacedRowIsLive(w, policy, s, w.tasks[t].now);
  }

  /** ... and every new lookup finds it unexpired. */
  lemma SpacedRequestsFindSession(policy: Policy, steps: seq<Step>, s: SessionId, t: TaskId, foreground: bool)
    requires 2 <= policy.idleTimeout
    requires s in Run(policy, steps).sessions && Spaced(Run(policy, steps), policy, s)
    requires t !in Run(policy, steps).tasks
    ensures var w := Run(policy, steps);
            Apply(w, policy, BeginResolve(t, s, foreground)).tasks
            == w.tasks[t := ResolveLoaded(s, w.sessions[s], w.clock, foreground)]
  {
    RunKeeps(policy, steps);
    SpacedRowIsLive(Run(policy, steps), policy, s, Run(policy, steps).clock);
  }

  // ---- a whole run of spaced requests

  /** Nothing but its age stands against `s`: its user may use it, and no lookup is about to
      reject it. */
  ghost predicate Undisputed(w: World, s: SessionId) {
    IsUsable(w, s) && forall t :: t in w.tasks ==> !Disputes(w, s, w.tasks[t])
  }

  ghost predicate IsUsable(w: World, s: SessionId) {
    && s in w.sessions && Usable(w.users, w.sessions[s])
    && DirectoryUsable(w.directories, w.users[w.sessions[s].userId])
  }

  /** A lookup of `s` that rejects it, or that read another user, password or directory. */
  ghost predicate Disputes(w: World, s: SessionId, task: Task)
    requires IsUsable(w, s)
  {
    match task
    case ResolveRejecting(s') => s' == s
    case ResolveLoaded(s', row, _, _) =>
      s' == s && (row.userId != w.sessions[s].userId || row.credentialMarker != w.sessions[s].credentialMarker)
    case ResolveChecking(s', _, owner, _, _) => s' == s && owner.realm != w.users[w.sessions[s].userId].realm
    case _ => false
  }

  /** A step that revokes `s`, or deletes or deactivates its user, changes that user's password or
      makes that user's directory unusable. */
  ghost predicate Ends(w: World, step: Step, s: SessionId)
    requires s in w.sessions
  {
    var u := w.sessions[s].userId;
    match step
    case RevokeForUser(v, keep) => v == u && keep != Some(s)
    case RevokeSession(s') => s' == s
    case DeleteUser(v) => v == u
    case SetActive(v, active) => v == u && !active
    case SetDirectory(d, usable) => u in w.users && w.users[u].realm == Directory(d) && !usable
    case Advance(t, _) =>
      t in w.tasks
      && (w.tasks[t].ChangeWriting? || w.tasks[t].ChangeRevoking? || w.tasks[t].ChangeStamping?) && w.tasks[t].user == u
    case _ => false
  }

  /** What a step may do to an undisputed session. */
  ghost predicate Spares(w: World, e: Effect, s: SessionId)
    requires Undisputed(w, s)
  {
    var row := w.sessions[s];
    && (e.session.PutSession? && e.session.id == s ==>
          e.session.row.userId == row.userId && e.session.row.credentialMarker == row.credentialMarker)
    && (e.session.DropSessions? ==> s !in e.session.ids)
    && (e.user.PutUser? && e.user.id == row.userId ==>
          && e.user.row.isActive && CredentialMarker(e.user.row) == row.credentialMarker
          && e.user.row.realm == w.users[row.userId].realm)
    && (e.directory.Some? && w.users[row.userId].realm == Directory(e.directory.value.0) ==> e.directory.value.1)
    && (e.user.DropUser? ==> e.user.id != row.userId)
    && (e.task.Await? && e.task.task.ResolveRejecting? ==> e.task.task.session != s)
    && (e.task.Await? && e.task.task.ResolveLoaded? && e.task.task.session == s ==>
          e.task.task.row.userId == row.userId && e.task.task.row.credentialMarker == row.credentialMarker)
    && (e.task.Await? && e.task.task.ResolveChecking? && e.task.task.session == s ==>
          e.task.task.owner.realm == w.users[row.userId].realm)
  }

  lemma SparedStaysUsable(w: World, e: Effect, s: SessionId)
    requires Undisputed(w, s) && Spares(w, e, s)
    ensures var w' := Perform(w, e);
            && IsUsable(w', s)
            && w'.sessions[s].userId == w.sessions[s].userId
            && w'.sessions[s].credentialMarker == w.sessions[s].credentialMarker
            && w'.users[w.sessions[s].userId].realm == w.users[w.sessions[s].userId].realm
  {
  }

  lemma SparedStaysUndisputed(w: World, e: Effect, s: SessionId)
    requires Undisputed(w, s) && Spares(w, e, s)
    ensures Undisputed(Perform(w, e), s)
  {
    var w' := Perform(w, e);
    SparedStaysUsable(w, e, s);
    forall t | t in w'.tasks ensures !Disputes(w', s, w'.tasks[t]) {
      if e.task.Await? && e.task.id == t {
        assert w'.tasks[t] == e.task.task;
      } else {
        assert w'.tasks[t] == w.tasks[t] && !Disputes(w, s, w.tasks[t]);
      }
    }
  }

  lemma LoginSpares(w: World, policy: Policy, t: TaskId, drawn: nat, s: SessionId)
    requires Undisputed(w, s) && s in w.born && t in w.tasks && CredentialSafety.IsLogin(w.tasks[t])
    ensures Spares(w, AdvanceTask(w, policy, t, drawn), s)
  {
  }

  lemma ChangeSpares(w: World, policy: Policy, t: TaskId, drawn: nat, s: SessionId)
    requires Undisputed(w, s) && t in w.tasks && CredentialSafety.IsChange(w.tasks[t]) && !Ends(w, Advance(t, drawn), s)
    ensures Spares(w, AdvanceTask(w, policy, t, drawn), s)
  {
  }

  lemma UnlockSpares(w: World, policy: Policy, t: TaskId, drawn: nat, s: SessionId)
    requires Undisputed(w, s) && t in w.tasks && w.tasks[t].Unlocking?
    ensures Spares(w, AdvanceTask(w, policy, t, drawn), s)
  {
  }

  lemma ExpiredSpares(w: World, policy: Policy, t: TaskId, s: SessionId)
    requires LifetimeInv(w, policy) && Spaced(w, policy, s) && Undisputed(w, s) && t in w.tasks
             && w.tasks[t].ResolveExpired?
    ensures Spares(w, ResolveDelete(w, policy, t, w.tasks[t]), s)
  {
    assert TaskOk(w, policy, w.tasks[t]);
    SpacedRowIsLive(w, policy, s, w.tasks[t].now);
  }

  lemma ReadSpares(w: World, policy: Policy, t: TaskId, s: SessionId)
    requires Undisputed(w, s) && t in w.tasks
    ensures w.tasks[t].ResolveRereading? ==> Spares(w, ResolveReread(w, t, w.tasks[t]), s)
    ensures w.tasks[t].ResolveTouching? ==> Spares(w, ResolveTouch(w, t, w.tasks[t]), s)
    ensures w.tasks[t].ResolveRejecting? ==> Spares(w, ResolveReject(t, w.tasks[t]), s)
  {
    assert !Disputes(w, s, w.tasks[t]);
  }

  lemma JudgeSpares(w: World, policy: Policy, t: TaskId, s: SessionId)
    requires Undisputed(w, s) && t in w.tasks
    ensures w.tasks[t].ResolveLoaded? ==> Spares(w, ResolveUser(w, policy, t, w.tasks[t]), s)
    ensures w.tasks[t].ResolveChecking? ==> Spares(w, ResolveCheck(w, policy, t, w.tasks[t]), s)
  {
    assert !Disputes(w, s, w.tasks[t]);
  }

  lemma ResolveSpares(w: World, policy: Policy, t: TaskId, drawn: nat, s: SessionId)
    requires LifetimeInv(w, policy) && Spaced(w, policy, s) && Undisputed(w, s) && t in w.tasks && IsResolve(w.tasks[t])
    ensures Spares(w, AdvanceTask(w, policy, t, drawn), s)
  {
    if w.tasks[t].ResolveExpired? {
      ExpiredSpares(w, policy, t, s);
    } else {
      ReadSpares(w, policy, t, s);
      JudgeSpares(w, policy, t, s);
    }
  }

  lemma AdvanceSpares(w: World, policy: Policy, t: TaskId, drawn: nat, s: SessionId)
    requires LifetimeInv(w, policy) && Spaced(w, policy, s) && Undisputed(w, s)
    requires t in w.tasks && !Ends(w, Advance(t, drawn), s)
    ensures Spares(w, AdvanceTask(w, policy, t, drawn), s)
  {
    if IsResolve(w.tasks[t]) {
      ResolveSpares(w, policy, t, drawn, s);
    } else if CredentialSafety.IsLogin(w.tasks[t]) {
      LoginSpares(w, policy, t, drawn, s);
    } else if CredentialSafety.IsChange(w.tasks[t]) {
      ChangeSpares(w, policy, t, drawn, s);
    } else {
      UnlockSpares(w, policy, t, drawn, s);
    }
  }

  lemma BeginSpares(w: World, policy: Policy, step: Step, s: SessionId)
    requires Undisputed(w, s) && CredentialSafety.IsBegin(step)
    ensures Spares(w, EffectOf(w, policy, step), s)
  {
  }

  lemma UserStepSpares(w: World, policy: Policy, step: Step, s: SessionId)
    requires Undisputed(w, s) && s in w.born && w.users.Keys <= w.realms.Keys && !Ends(w, step, s)
    requires CredentialSafety.MakesUser(step) || step.DeleteUser? || step.SetDirectory?
    ensures Spares(w, EffectOf(w, policy, step), s)
  {
  }

  lemma RevokeSpares(w: World, policy: Policy, step: Step, s: SessionId)
    requires Undisputed(w, s) && !Ends(w, step, s) && (step.RevokeForUser? || step.RevokeSession? || step.Tick?)
    ensures Spares(w, EffectOf(w, policy, step), s)
  {
  }

  lemma PurgeSpares(w: World, policy: Policy, s: SessionId)
    requires LifetimeInv(w, policy) && Spaced(w, policy, s) && Undisputed(w, s)
    ensures Spares(w, EffectOf(w, policy, Purge), s)
  {
    SpacedRowIsLive(w, policy, s, w.clock);
  }

  lemma StepSpares(w: World, policy: Policy, step: Step, s: SessionId)
    requires LifetimeInv(w, policy) && Spaced(w, policy, s) && Undisputed(w, s) && w.users.Keys <= w.realms.Keys
    requires !Ends(w, step, s)
    ensures Spares(w, EffectOf(w, policy, step), s)
  {
    if step.Advance? {
      if step.task in w.tasks { AdvanceSpares(w, policy, step.task, step.drawn, s); }
    } else if step.Purge? {
      PurgeSpares(w, policy, s);
    } else if CredentialSafety.IsBegin(step) {
      BeginSpares(w, policy, step, s);
    } else if step.RevokeForUser? || step.RevokeSession? || step.Tick? {
      RevokeSpares(w, policy, step, s);
    } else {
      UserStepSpares(w, policy, step, s);
    }
  }

  lemma SpacedStepKeeps(w: World, policy: Policy, step: Step, s: SessionId)
    requires LifetimeInv(w, policy) && Spaced(w, policy, s) && Undisputed(w, s) && w.users.Keys <= w.realms.Keys
    requires !Ends(w, step, s)
    ensures Undisputed(Apply(w, policy, step), s)
  {
    if !step.Tick? {
      StepSpares(w, policy, step, s);
      SparedStaysUndisputed(w, EffectOf(w, policy, step), s);
    }
  }

  lemma UsersHaveRealms(policy: Policy, steps: seq<Step>)
    ensures Run(policy, steps).users.Keys <= Run(policy, steps).realms.Keys
  {
    CredentialSafety.RunKeeps(policy, steps);
    var w := Run(policy, steps);
    forall u | u in w.users ensures u in w.realms {
      assert CredentialSafety.UserOk(w, u, w.users[u]);
    }
  }

  /** At this point of the run requests are spaced and the next step does not end `s`. */
  ghost predicate KeptAliveAt(policy: Policy, steps: seq<Step>, j: nat, s: SessionId)
    requires j < |steps|
  {
    var w := Run(policy, steps[..j]);
    Spaced(w, policy, s) && (s in w.sessions ==> !Ends(w, steps[j], s))
  }

  /** ... and so at every point from `k` on. */
  ghost predicate KeptAlive(policy: Policy, steps: seq<Step>, k: nat, s: SessionId) {
    forall j :: k <= j < |steps| ==> KeptAliveAt(policy, steps, j, s)
  }

  lemma KeptAliveBefore(policy: Policy, steps: seq<Step>, rest: seq<Step>, k: nat, s: SessionId)
    requires k < |steps| && KeptAlive(policy, steps, k, s) && rest == steps[..|steps| - 1]
    ensures KeptAlive(policy, rest, k, s)
  {
    forall j | k <= j < |rest| ensures KeptAliveAt(policy, rest, j, s) {
      assert rest[..j] == steps[..j] && rest[j] == steps[j] && KeptAliveAt(policy, steps, j, s);
    }
  }

  lemma OneMoreStepLives(policy: Policy, rest: seq<Step>, step: Step, s: SessionId)
    requires 2 <= policy.idleTimeout
    requires Undisputed(Run(policy, rest), s) && Spaced(Run(policy, rest), policy, s)
             && !Ends(Run(policy, rest), step, s)
    ensures Undisputed(Run(policy, rest + [step]), s)
  {
    RunKeeps(policy, rest);
    UsersHaveRealms(policy, rest);
    SpacedStepKeeps(Run(policy, rest), policy, step, s);
    RunExtends(policy, rest, step);
  }

  /** A session whose foreground requests keep that spacing at every point of a run, and that
      nobody revokes or disputes, lives through the whole run, whatever else happens. */
  lemma {:induction false} SpacedSessionLives(policy: Policy, steps: seq<Step>, k: nat, s: SessionId)
    requires 2 <= policy.idleTimeout && k <= |steps|
    requires Undisputed(Run(policy, steps[..k]), s)
    requires KeptAlive(policy, steps, k, s)
    ensures Undisputed(Run(policy, steps), s)
    decreases |steps|
  {
    if k == |steps| {
      assert steps[..k] == steps;
    } else {
      var last := |steps| - 1;
      var rest := steps[..last];
      assert rest[..k] == steps[..k];
      KeptAliveBefore(policy, steps, rest, k, s);
      SpacedSessionLives(policy, rest, k, s);
      assert KeptAliveAt(policy, steps, last, s);
      OneMoreStepLives(policy, rest, steps[last], s);
      assert steps == rest + [steps[last]];
    }
  }

  lemma AdvanceMakesNoSession(w: World, policy: Policy, t: TaskId, drawn: nat)
    requires t in w.tasks && !w.tasks[t].LoginCreating?
    ensures NewSessions(w.sessions, AdvanceTask(w, policy, t, drawn).session).Keys <= w.sessions.Keys
  {
    if !IsResolve(w.tasks[t]) && !w.tasks[t].ChangeStamping? { AdvanceIsPlain(w, policy, t, drawn); }
  }

  lemma MakerAwaitsNoLookup(w: World, policy: Policy, step: Step, s: SessionId)
    requires s !in w.sessions && s in Apply(w, policy, step).sessions
    ensures EffectOf(w, policy, step).task.Await? ==> !IsLookup(EffectOf(w, policy, step).task.task)
  {
    if step.Advance? && step.task in w.tasks {
      if !w.tasks[step.task].LoginCreating? { AdvanceMakesNoSession(w, policy, step.task, step.drawn); }
    } else if !step.Advance? && !step.BeginResolve? && !step.DirectoryLogin? {
      AdministrationIsPlain(w, policy, step);
    }
  }

  /** A lookup that holds what it read of a session, or rejects it. */
  predicate IsLookup(task: Task) {
    task.ResolveRejecting? || task.ResolveLoaded? || task.ResolveChecking?
  }

  lemma NoLookupBeforeBirth(w: World, policy: Policy, t: TaskId, s: SessionId)
    requires LifetimeInv(w, policy) && s !in w.born && t in w.tasks
    ensures IsLookup(w.tasks[t]) ==> w.tasks[t].session != s
  {
    assert TaskOk(w, policy, w.tasks[t]);
  }

  lemma NothingDisputesNewSession(w: World, policy: Policy, step: Step, s: SessionId, t: TaskId)
    requires LifetimeInv(w, policy) && s !in w.born && s !in w.sessions && s in Apply(w, policy, step).sessions
    requires t in Apply(w, policy, step).tasks
    ensures var task := Apply(w, policy, step).tasks[t]; IsLookup(task) ==> task.session != s
  {
    MakerAwaitsNoLookup(w, policy, step, s);
    TasksAfter(w, policy, step, t);
    if t in w.tasks { NoLookupBeforeBirth(w, policy, t, s); }
  }

  lemma TasksAfter(w: World, policy: Policy, step: Step, t: TaskId)
    requires t in Apply(w, policy, step).tasks
    ensures var e, task := EffectOf(w, policy, step), Apply(w, policy, step).tasks[t];
            (t in w.tasks && task == w.tasks[t]) || (e.task.Await? && task == e.task.task)
  {
  }

  lemma SessionsAreBorn(w: World, policy: Policy)
    requires LifetimeInv(w, policy)
    ensures w.sessions.Keys <= w.born.Keys
  {
    assert forall s :: s in w.sessions ==> RowOk(w, policy, s, w.sessions[s]);
  }

  lemma NewSessionStep(w: World, policy: Policy, step: Step, s: SessionId)
    requires LifetimeInv(w, policy) && s !in w.born && IsUsable(Apply(w, policy, step), s)
    ensures Undisputed(Apply(w, policy, step), s)
  {
    var w' := Apply(w, policy, step);
    SessionsAreBorn(w, policy);
    forall t | t in w'.tasks ensures !Disputes(w', s, w'.tasks[t]) {
      NothingDisputesNewSession(w, policy, step, s, t);
    }
  }

  /** A session that a step makes for a user who may use it is undisputed. */
  lemma NewSessionIsUndisputed(policy: Policy, steps: seq<Step>, step: Step, s: SessionId)
    requires 2 <= policy.idleTimeout
    requires s !in Run(policy, steps).born && IsUsable(Apply(Run(policy, steps), policy, step), s)
    ensures Undisputed(Apply(Run(policy, steps), policy, step), s)
  {
    RunKeeps(policy, steps);
    NewSessionStep(Run(policy, steps), policy, step, s);
  }

  // ---- that spacing is exact

  lemma RunExtends(policy: Policy, steps: seq<Step>, step: Step)
    ensures Run(policy, steps + [step]) == Apply(Run(policy, steps), policy, step)
  {
    assert (steps + [step])[..|steps + [step]| - 1] == steps;
  }

  /** Whoever was seen within `gap` survives every purge. */
  ghost predicate SpacingSuffices(policy: Policy, gap: Time) {
    forall steps, s ::
      s in Run(policy, steps).sessions && SeenWithin(Run(policy, steps), policy, s, gap) ==>
        s in Apply(Run(policy, steps), policy, Purge).sessions
  }

  /** The only session, of a user of a usable directory, logged in at 0. */
  ghost predicate Shows(w: World, row: Option<SessionRow>, tasks: map<TaskId, Task>, clock: Time, seen: Time,
                        log: seq<Event>) {
    && w.users == map[0 := DIRECTORY_USER] && w.directories == map[0 := true]
    && w.sessions == (if row.Some? then map[7 := row.value] else map[])
    && w.tasks == tasks && w.clock == clock && w.born == map[7 := 0] && w.seen == map[7 := seen] && w.log == log
  }

  const DIRECTORY_USER := UserRow(Directory(0), None, None, true, 0, None)

  function FirstRow(policy: Policy): SessionRow {
    SessionRow(0, 0, 0, policy.absoluteTimeout, None)
  }

  function LoginSteps(): seq<Step> {
    [CreateDirectoryUser(0, 0)] + [SetDirectory(0, true)] + [DirectoryLogin(0, 7)]
  }

  lemma UserIsMade(policy: Policy)
    ensures var w := Run(policy, [CreateDirectoryUser(0, 0)]);
            w == InitialWorld().(users := map[0 := DIRECTORY_USER], realms := map[0 := Directory(0)])
  {
    RunExtends(policy, [], CreateDirectoryUser(0, 0));
    assert [] + [CreateDirectoryUser(0, 0)] == [CreateDirectoryUser(0, 0)];
    assert InitialWorld().log + [] == [];
  }

  lemma DirectoryIsMade(policy: Policy, w: World)
    requires w == InitialWorld().(users := map[0 := DIRECTORY_USER], realms := map[0 := Directory(0)])
    ensures Apply(w, policy, SetDirectory(0, true)) == w.(directories := map[0 := true])
  {
  }

  lemma SessionIsMade(policy: Policy, w: World)
    requires w.users == map[0 := DIRECTORY_USER] && w.directories == map[0 := true] && w.sessions == map[]
             && w.tasks == map[]
    requires w.clock == 0 && w.born == map[] && w.seen == map[] && w.log == []
    ensures Shows(Apply(w, policy, DirectoryLogin(0, 7)), Some(FirstRow(policy)), map[], 0, 0, [])
  {
  }

  lemma LogsIn(policy: Policy)
    ensures After(policy, LoginSteps(), Some(FirstRow(policy)), map[], 0, 0, [])
  {
    var first := [CreateDirectoryUser(0, 0)];
    UserIsMade(policy);
    RunExtends(policy, first, SetDirectory(0, true));
    DirectoryIsMade(policy, Run(policy, first));
    RunExtends(policy, first + [SetDirectory(0, true)], DirectoryLogin(0, 7));
    SessionIsMade(policy, Run(policy, first + [SetDirectory(0, true)]));
  }

  // One step each, from any state of this form.

  lemma TimePasses(w: World, policy: Policy, elapsed: nat, row: Option<SessionRow>, tasks: map<TaskId, Task>,
                   clock: Time, seen: Time, log: seq<Event>)
    requires Shows(w, row, tasks, clock, seen, log)
    ensures Shows(Apply(w, policy, Tick(elapsed)), row, tasks, clock + elapsed, seen, log)
  {
  }

  lemma LookupBegins(w: World, policy: Policy, t: TaskId, foreground: bool, row: SessionRow, tasks: map<TaskId, Task>,
                     clock: Time, seen: Time)
    requires Shows(w, Some(row), tasks, clock, seen, []) && t !in tasks
    ensures Shows(Apply(w, policy, BeginResolve(t, 7, foreground)), Some(row),
                  tasks[t := if IsExpired(row, policy, clock) then ResolveExpired(7, clock, foreground)
                             else ResolveLoaded(7, row, clock, foreground)], clock, seen, [])
  {
  }

  lemma LookupCompares(w: World, policy: Policy, t: TaskId, now: Time, foreground: bool, row: SessionRow,
                       tasks: map<TaskId, Task>, clock: Time, seen: Time)
    requires Shows(w, Some(row), tasks, clock, seen, []) && t in tasks
             && tasks[t] == ResolveLoaded(7, row, now, foreground)
    requires row.userId == 0 && row.credentialMarker == None
    ensures Shows(Apply(w, policy, Advance(t, 0)), Some(row),
                  tasks[t := ResolveChecking(7, row, DIRECTORY_USER, now, foreground)], clock, seen, [])
  {
  }

  lemma LookupGoesToTouch(w: World, policy: Policy, t: TaskId, now: Time, row: SessionRow, tasks: map<TaskId, Task>,
                          clock: Time, seen: Time)
    requires Shows(w, Some(row), tasks, clock, seen, [])
    requires t in tasks && tasks[t] == ResolveChecking(7, row, DIRECTORY_USER, now, true)
    requires now - row.lastSeenAt >= TouchInterval(policy)
    ensures Shows(Apply(w, policy, Advance(t, 0)), Some(row), tasks[t := ResolveTouching(7, now)], clock, seen, [])
  {
  }

  lemma LookupEndsUntouched(w: World, policy: Policy, t: TaskId, now: Time, row: SessionRow, tasks: map<TaskId, Task>,
                            clock: Time, seen: Time)
    requires Shows(w, Some(row), tasks, clock, seen, []) && seen <= now
    requires t in tasks && tasks[t] == ResolveChecking(7, row, DIRECTORY_USER, now, true)
    requires now - row.lastSeenAt < TouchInterval(policy)
    ensures Shows(Apply(w, policy, Advance(t, 0)), Some(row), tasks - {t}, clock, now, [])
  {
  }

  lemma LookupDeletes(w: World, policy: Policy, t: TaskId, now: Time, foreground: bool, row: SessionRow,
                      tasks: map<TaskId, Task>, clock: Time, seen: Time)
    requires Shows(w, Some(row), tasks, clock, seen, []) && t in tasks && tasks[t] == ResolveExpired(7, now, foreground)
    requires StillExpired(row, policy, now)
    ensures Shows(Apply(w, policy, Advance(t, 0)), None, tasks - {t}, clock, seen, [SessionExpired(7, row, now)])
  {
    assert [] + [SessionExpired(7, row, now)] == [SessionExpired(7, row, now)];
    assert map[7 := row] - {7} == map[];
  }

  lemma TouchComesTooLate(w: World, policy: Policy, t: TaskId, now: Time, tasks: map<TaskId, Task>, clock: Time,
                          seen: Time, log: seq<Event>)
    requires Shows(w, None, tasks, clock, seen, log) && t in tasks && tasks[t] == ResolveTouching(7, now) && seen <= now
    ensures Shows(Apply(w, policy, Advance(t, 0)), None, tasks - {t}, clock, now, log)
  {
  }

  // The same for runs.

  ghost predicate After(policy: Policy, steps: seq<Step>, row: Option<SessionRow>, tasks: map<TaskId, Task>,
                        clock: Time, seen: Time, log: seq<Event>) {
    Shows(Run(policy, steps), row, tasks, clock, seen, log)
  }

  lemma ThenTimePasses(policy: Policy, before: seq<Step>, elapsed: nat, row: SessionRow, tasks: map<TaskId, Task>,
                       clock: Time, seen: Time)
    requires After(policy, before, Some(row), tasks, clock, seen, [])
    ensures After(policy, before + [Tick(elapsed)], Some(row), tasks, clock + elapsed, seen, [])
  {
    RunExtends(policy, before, Tick(elapsed));
    TimePasses(Run(policy, before), policy, elapsed, Some(row), tasks, clock, seen, []);
  }

  lemma ThenLookupBegins(policy: Policy, before: seq<Step>, t: TaskId, foreground: bool, row: SessionRow,
                         tasks: map<TaskId, Task>, clock: Time, seen: Time)
    requires After(policy, before, Some(row), tasks, clock, seen, []) && t !in tasks
    ensures After(policy, before + [BeginResolve(t, 7, foreground)], Some(row),
                  tasks[t := if IsExpired(row, policy, clock) then ResolveExpired(7, clock, foreground)
                             else ResolveLoaded(7, row, clock, foreground)], clock, seen, [])
  {
    RunExtends(policy, before, BeginResolve(t, 7, foreground));
    LookupBegins(Run(policy, before), policy, t, foreground, row, tasks, clock, seen);
  }

  lemma OneTaskReplaced(t: TaskId, a: Task, b: Task)
    ensures map[t := a][t := b] == map[t := b] && t in map[t := a] && map[t := a][t] == a
  {
  }

  /** The only task goes on from `a` to `b`. */
  lemma ThenTaskGoesOn(policy: Policy, before: seq<Step>, t: TaskId, a: Task, b: Task, row: SessionRow, clock: Time,
                       seen: Time)
    requires Shows(Apply(Run(policy, before), policy, Advance(t, 0)), Some(row), map[t := a][t := b], clock, seen, [])
    ensures After(policy, before + [Advance(t, 0)], Some(row), map[t := b], clock, seen, [])
  {
    OneTaskReplaced(t, a, b);
    RunExtends(policy, before, Advance(t, 0));
  }

  lemma ThenLookupCompares(policy: Policy, before: seq<Step>, t: TaskId, now: Time, foreground: bool, row: SessionRow,
                           clock: Time, seen: Time)
    requires After(policy, before, Some(row), map[t := ResolveLoaded(7, row, now, foreground)], clock, seen, [])
    requires row.userId == 0 && row.credentialMarker == None
    ensures After(policy, before + [Advance(t, 0)], Some(row),
                  map[t := ResolveChecking(7, row, DIRECTORY_USER, now, foreground)], clock, seen, [])
  {
    var a, b := ResolveLoaded(7, row, now, foreground), ResolveChecking(7, row, DIRECTORY_USER, now, foreground);
    OneTaskReplaced(t, a, b);
    LookupCompares(Run(policy, before), policy, t, now, foreground, row, map[t := a], clock, seen);
    ThenTaskGoesOn(policy, before, t, a, b, row, clock, seen);
  }

  lemma ThenLookupGoesToTouch(policy: Policy, before: seq<Step>, t: TaskId, now: Time, row: SessionRow, clock: Time,
                              seen: Time)
    requires After(policy, before, Some(row), map[t := ResolveChecking(7, row, DIRECTORY_USER, now, true)], clock,
               seen, [])
    requires now - row.lastSeenAt >= TouchInterval(policy)
    ensures After(policy, before + [Advance(t, 0)], Some(row), map[t := ResolveTouching(7, now)], clock, seen, [])
  {
    var a, b := ResolveChecking(7, row, DIRECTORY_USER, now, true), ResolveTouching(7, now);
    OneTaskReplaced(t, a, b);
    LookupGoesToTouch(Run(policy, before), policy, t, now, row, map[t := a], clock, seen);
    ThenTaskGoesOn(policy, before, t, a, b, row, clock, seen);
  }

  lemma ThenLookupEndsUntouched(policy: Policy, before: seq<Step>, t: TaskId, now: Time, row: SessionRow, clock: Time,
                                seen: Time)
    requires After(policy, before, Some(row), map[t := ResolveChecking(7, row, DIRECTORY_USER, now, true)], clock,
               seen, [])
    requires now - row.lastSeenAt < TouchInterval(policy) && seen <= now
    ensures After(policy, before + [Advance(t, 0)], Some(row), map[], clock, now, [])
  {
    var tasks := map[t := ResolveChecking(7, row, DIRECTORY_USER, now, true)];
    RunExtends(policy, before, Advance(t, 0));
    LookupEndsUntouched(Run(policy, before), policy, t, now, row, tasks, clock, seen);
    assert tasks - {t} == map[];
  }

  lemma ThenLookupDeletes(policy: Policy, before: seq<Step>, t: TaskId, row: SessionRow, tasks: map<TaskId, Task>,
                          clock: Time, seen: Time)
    requires After(policy, before, Some(row), tasks[t := ResolveExpired(7, clock, false)], clock, seen, [])
             && t !in tasks
    requires StillExpired(row, policy, clock)
    ensures After(policy, before + [Advance(t, 0)], None, tasks, clock, seen, [SessionExpired(7, row, clock)])
  {
    var both := tasks[t := ResolveExpired(7, clock, false)];
    RunExtends(policy, before, Advance(t, 0));
    LookupDeletes(Run(policy, before), policy, t, clock, false, row, both, clock, seen);
    assert both - {t} == tasks;
  }

  lemma ThenTouchComesTooLate(policy: Policy, before: seq<Step>, t: TaskId, now: Time, clock: Time, seen: Time,
                              log: seq<Event>)
    requires After(policy, before, None, map[t := ResolveTouching(7, now)], clock, seen, log) && seen <= now
    ensures After(policy, before + [Advance(t, 0)], None, map[], clock, now, log)
  {
    var tasks := map[t := ResolveTouching(7, now)];
    RunExtends(policy, before, Advance(t, 0));
    TouchComesTooLate(Run(policy, before), policy, t, now, tasks, clock, seen, log);
    assert tasks - {t} == map[];
  }

  /** A request one microsecond too early for a touch. */
  lemma WaitsUntouched(policy: Policy, login: seq<Step>) returns (steps: seq<Step>)
    requires 2 <= policy.idleTimeout < policy.absoluteTimeout
    requires After(policy, login, Some(FirstRow(policy)), map[], 0, 0, [])
    ensures var now := TouchInterval(policy) - 1;
            After(policy, steps, Some(FirstRow(policy)), map[1 := ResolveLoaded(7, FirstRow(policy), now, true)], now,
              0, [])
  {
    var now, row := TouchInterval(policy) - 1, FirstRow(policy);
    ThenTimePasses(policy, login, now, row, map[], 0, 0);
    ThenLookupBegins(policy, login + [Tick(now)], 1, true, row, map[], now, 0);
    steps := login + [Tick(now)] + [BeginResolve(1, 7, true)];
  }

  lemma FinishesUntouched(policy: Policy, before: seq<Step>) returns (steps: seq<Step>)
    requires 2 <= policy.idleTimeout < policy.absoluteTimeout
    requires var now := TouchInterval(policy) - 1;
             After(policy, before, Some(FirstRow(policy)), map[1 := ResolveLoaded(7, FirstRow(policy), now, true)],
               now, 0, [])
    ensures After(policy, steps, Some(FirstRow(policy)), map[], TouchInterval(policy) - 1, TouchInterval(policy) - 1,
              [])
  {
    var now, row := TouchInterval(policy) - 1, FirstRow(policy);
    ThenLookupCompares(policy, before, 1, now, true, row, now, 0);
    ThenLookupEndsUntouched(policy, before + [Advance(1, 0)], 1, now, row, now, 0);
    steps := before + [Advance(1, 0)] + [Advance(1, 0)];
  }

  /** It is finished; when the idle timeout has passed since the login, the row is expired. */
  lemma UntouchedSession(policy: Policy) returns (steps: seq<Step>)
    requires 2 <= policy.idleTimeout < policy.absoluteTimeout
    ensures After(policy, steps, Some(FirstRow(policy)), map[], policy.idleTimeout, TouchInterval(policy) - 1, [])
  {
    var now := TouchInterval(policy) - 1;
    LogsIn(policy);
    var waiting := WaitsUntouched(policy, LoginSteps());
    var used := FinishesUntouched(policy, waiting);
    ThenTimePasses(policy, used, policy.idleTimeout - now, FirstRow(policy), map[], now, now);
    steps := used + [Tick(policy.idleTimeout - now)];
  }

  lemma UntouchedSessionIsLost(w: World, policy: Policy, gap: Time)
    requires policy.idleTimeout < policy.absoluteTimeout && gap > policy.idleTimeout - TouchInterval(policy)
    requires Shows(w, Some(FirstRow(policy)), map[], policy.idleTimeout, TouchInterval(policy) - 1, [])
    ensures 7 in w.sessions && SeenWithin(w, policy, 7, gap) && 7 !in Apply(w, policy, Purge).sessions
  {
  }

  lemma SeenRowIsLive(w: World, policy: Policy, s: SessionId, gap: Time)
    requires LifetimeInv(w, policy) && s in w.sessions && SeenWithin(w, policy, s, gap)
    requires gap <= policy.idleTimeout - TouchInterval(policy) || policy.absoluteTimeout <= policy.idleTimeout
    ensures s in Apply(w, policy, Purge).sessions
  {
    assert RowOk(w, policy, s, w.sessions[s]);
  }

  /** The spacing is the largest that is enough: with one microsecond more some session is
      lost, unless the absolute limit comes first anyway. */
  lemma SpacingIsExact(policy: Policy, gap: Time)
    requires 2 <= policy.idleTimeout
    ensures SpacingSuffices(policy, gap)
            <==> gap <= policy.idleTimeout - TouchInterval(policy) || policy.absoluteTimeout <= policy.idleTimeout
  {
    if gap <= policy.idleTimeout - TouchInterval(policy) || policy.absoluteTimeout <= policy.idleTimeout {
      forall steps, s | s in Run(policy, steps).sessions && SeenWithin(Run(policy, steps), policy, s, gap)
        ensures s in Apply(Run(policy, steps), policy, Purge).sessions
      {
        RunKeeps(policy, steps);
        SeenRowIsLive(Run(policy, steps), policy, s, gap);
      }
    } else {
      var steps := UntouchedSession(policy);
      UntouchedSessionIsLost(Run(policy, steps), policy, gap);
    }
  }

  // ---- requests that only start close together are not enough

  const SECOND: Time := 1_000_000

  const ONE_MINUTE_IDLE := Policy(60 * SECOND, 3600 * SECOND, 5, 60 * SECOND)

  const SLOW_ROW := SessionRow(0, 0, 0, 3600 * SECOND, None)

  /** A login at 0 s; a foreground request at 30 s that still waits for its touch when a
      background lookup comes at 60 s. */
  function SlowRequest(): seq<Step> {
    AtSixty() + [BeginResolve(3, 7, false)] + [Advance(3, 0)] + [Advance(2, 0)]
  }

  function AtThirty(): seq<Step> {
    LoginSteps() + [Tick(30 * SECOND)] + [BeginResolve(2, 7, true)]
  }

  function AtSixty(): seq<Step> {
    AtThirty() + [Advance(2, 0)] + [Advance(2, 0)] + [Tick(30 * SECOND)]
  }

  lemma SlowRequestBegins(login: seq<Step>)
    requires After(ONE_MINUTE_IDLE, login, Some(SLOW_ROW), map[], 0, 0, [])
    ensures After(ONE_MINUTE_IDLE, login + [Tick(30 * SECOND)] + [BeginResolve(2, 7, true)], Some(SLOW_ROW),
                  map[2 := ResolveLoaded(7, SLOW_ROW, 30 * SECOND, true)], 30 * SECOND, 0, [])
  {
    ThenTimePasses(ONE_MINUTE_IDLE, login, 30 * SECOND, SLOW_ROW, map[], 0, 0);
    ThenLookupBegins(ONE_MINUTE_IDLE, login + [Tick(30 * SECOND)], 2, true, SLOW_ROW, map[], 30 * SECOND, 0);
  }

  lemma SlowRequestWaits(begun: seq<Step>)
    requires After(ONE_MINUTE_IDLE, begun, Some(SLOW_ROW), map[2 := ResolveLoaded(7, SLOW_ROW, 30 * SECOND, true)],
                   30 * SECOND, 0, [])
    ensures After(ONE_MINUTE_IDLE, begun + [Advance(2, 0)] + [Advance(2, 0)] + [Tick(30 * SECOND)], Some(SLOW_ROW),
                  map[2 := ResolveTouching(7, 30 * SECOND)], 60 * SECOND, 0, [])
  {
    var p, now, compared := ONE_MINUTE_IDLE, 30 * SECOND, begun + [Advance(2, 0)];
    ThenLookupCompares(p, begun, 2, now, true, SLOW_ROW, now, 0);
    ThenLookupGoesToTouch(p, compared, 2, now, SLOW_ROW, now, 0);
    ThenTimePasses(p, compared + [Advance(2, 0)], now, SLOW_ROW, map[2 := ResolveTouching(7, now)], now, 0);
  }

  lemma SlowRequestLosesRow(waiting: seq<Step>)
    requires After(ONE_MINUTE_IDLE, waiting, Some(SLOW_ROW), map[2 := ResolveTouching(7, 30 * SECOND)], 60 * SECOND, 0,
               [])
    ensures After(ONE_MINUTE_IDLE, waiting + [BeginResolve(3, 7, false)] + [Advance(3, 0)], None,
                  map[2 := ResolveTouching(7, 30 * SECOND)], 60 * SECOND, 0, [SessionExpired(7, SLOW_ROW, 60 * SECOND)])
  {
    var touching := map[2 := ResolveTouching(7, 30 * SECOND)];
    ThenLookupBegins(ONE_MINUTE_IDLE, waiting, 3, false, SLOW_ROW, touching, 60 * SECOND, 0);
    ThenLookupDeletes(ONE_MINUTE_IDLE, waiting + [BeginResolve(3, 7, false)], 3, SLOW_ROW, touching, 60 * SECOND, 0);
  }

  /** It is not enough that foreground requests START within idle timeout less touch interval
      of each other: here the second is 30 s after the login, and the session is lost. */
  lemma SlowRequestLosesSession()
    ensures ONE_MINUTE_IDLE.idleTimeout - TouchInterval(ONE_MINUTE_IDLE) == 30 * SECOND
    ensures After(ONE_MINUTE_IDLE, SlowRequest(), None, map[], 60 * SECOND, 30 * SECOND,
                  [SessionExpired(7, SLOW_ROW, 60 * SECOND)])
  {
    LogsIn(ONE_MINUTE_IDLE);
    assert FirstRow(ONE_MINUTE_IDLE) == SLOW_ROW;
    SlowRequestBegins(LoginSteps());
    SlowRequestWaits(AtThirty());
    SlowRequestLosesRow(AtSixty());
    ThenTouchComesTooLate(ONE_MINUTE_IDLE, AtSixty() + [BeginResolve(3, 7, false)] + [Advance(3, 0)], 2, 30 * SECOND,
                          60 * SECOND, 0, [SessionExpired(7, SLOW_ROW, 60 * SECOND)]);
  }
}
