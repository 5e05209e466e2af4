/** The failure counter and the lock, over every interleaving of logins. A failed login
    counts and locks in two separate statements. */
module Lockout {
  import opened Accounts
  import opened LoginProtocol
  import opened Options

  ghost predicate Concerns(event: Event, u: UserId) {
    !event.SessionExpired? && event.user == u
  }

  /** Failures of `u` since its counter was last reset, counted from the history alone. */
  ghost function FailuresSince(log: seq<Event>, u: UserId): nat {
    if log == [] then 0 else
    var rest := log[..|log| - 1];
    match log[|log| - 1]
    case Failed(v) => FailuresSince(rest, u) + if v == u then 1 else 0
    case Locked(v, _) => if v == u then 0 else FailuresSince(rest, u)
    case LoggedIn(v, _) => if v == u then 0 else FailuresSince(rest, u)
    case PasswordSet(v) => if v == u then 0 else FailuresSince(rest, u)
    case CountCleared(v) => if v == u then 0 else FailuresSince(rest, u)
    case _ => FailuresSince(rest, u)
  }

  /** Until when `u` is locked, from the history alone. */
  ghost function LockedUntil(log: seq<Event>, u: UserId): Option<Time> {
    if log == [] then None else
    var rest := log[..|log| - 1];
    match log[|log| - 1]
    case Locked(v, until) => if v == u then Some(until) else LockedUntil(rest, u)
    case LoggedIn(v, _) => if v == u then None else LockedUntil(rest, u)
    case PasswordSet(v) => if v == u then None else LockedUntil(rest, u)
    case LockCleared(v) => if v == u then None else LockedUntil(rest, u)
    case _ => LockedUntil(rest, u)
  }

  ghost predicate EventOk(log: seq<Event>, event: Event, policy: Policy) {
    match event
    case Locked(u, _) => FailuresSince(log, u) >= policy.maxFailures
    case LoggedIn(u, now) => LockedUntil(log, u).None? || LockedUntil(log, u).value <= now
    case SessionExpired(_, row, now) => IsExpired(row, policy, now)
    case _ => true
  }

  ghost predicate LogOk(log: seq<Event>, policy: Policy) {
    forall i :: 0 <= i < |log| ==> EventOk(log[..i], log[i], policy)
  }

  /** A failed login of `u` is between its two statements. */
  ghost predicate LockPending(w: World, u: UserId) {
    exists t :: t in w.tasks && w.tasks[t].LoginLocking? && w.tasks[t].user == u
  }

  ghost predicate RowOk(w: World, u: UserId, row: UserRow) {
    row.failedLoginCount == FailuresSince(w.log, u) && row.lockedUntil == LockedUntil(w.log, u)
  }

  ghost predicate RowsOk(w: World) {
    forall u :: u in w.users ==> u in w.realms && RowOk(w, u, w.users[u])
  }

  ghost predicate UsersKnown(w: World) {
    forall i :: 0 <= i < |w.log| && !w.log[i].SessionExpired? ==> w.log[i].user in w.realms
  }

  ghost predicate FullsPending(w: World, policy: Policy) {
    forall u :: u in w.users && IsFull(w.users[u], policy) ==> LockPending(w, u)
  }

  ghost predicate LockInv(w: World, policy: Policy) {
    RowsOk(w) && UsersKnown(w) && FullsPending(w, policy) && LogOk(w.log, policy)
  }

  lemma {:induction false} OtherEvents(log: seq<Event>, events: seq<Event>, u: UserId)
    requires forall i :: 0 <= i < |events| ==> !Concerns(events[i], u)
    ensures FailuresSince(log + events, u) == FailuresSince(log, u)
    ensures LockedUntil(log + events, u) == LockedUntil(log, u)
    decreases |events|
  {
    if events == [] {
      assert log + events == log;
    } else {
      var rest := events[..|events| - 1];
      OtherEvents(log, rest, u);
      assert (log + events)[..|log + events| - 1] == log + rest;
    }
  }

  lemma UnknownUser(w: World, u: UserId)
    requires UsersKnown(w) && u !in w.realms
    ensures FailuresSince(w.log, u) == 0 && LockedUntil(w.log, u) == None
  {
    forall i | 0 <= i < |w.log| ensures !Concerns(w.log[i], u) {}
    OtherEvents([], w.log, u);
    assert [] + w.log == w.log;
  }

  /** What one step may do to counters and locks. */
  ghost predicate GoodLocking(w: World, policy: Policy, e: Effect) {
    var w' := Perform(w, e);
    && (e.user.PutUser? ==>
          && RowOk(w', e.user.id, e.user.row)
          && (IsFull(e.user.row, policy) ==>
                (e.user.id in w.users && IsFull(w.users[e.user.id], policy))
                || (e.task.Await? && e.task.task.LoginLocking? && e.task.task.user == e.user.id)))
    && (!e.task.SameTasks? && e.task.id in w.tasks && w.tasks[e.task.id].LoginLocking? ==>
          var u := w.tasks[e.task.id].user; u in w'.users ==> !IsFull(w'.users[u], policy))
    && (forall i :: 0 <= i < |e.events| ==>
          && (e.events[i].SessionExpired? || (e.user.PutUser? && e.events[i].user == e.user.id))
          && EventOk(w.log + e.events[..i], e.events[i], policy))
  }

  lemma RowsStayOk(w: World, policy: Policy, e: Effect)
    requires LockInv(w, policy) && GoodLocking(w, policy, e)
    ensures RowsOk(Perform(w, e)) && UsersKnown(Perform(w, e))
  {
    var w' := Perform(w, e);
    forall u | u in w'.users ensures u in w'.realms && RowOk(w', u, w'.users[u]) {
      if !(e.user.PutUser? && e.user.id == u) {
        assert RowOk(w, u, w.users[u]);
        OtherEvents(w.log, e.events, u);
      }
    }
  }

  lemma LogStaysOk(w: World, policy: Policy, e: Effect)
    requires LockInv(w, policy) && GoodLocking(w, policy, e)
    ensures LogOk(Perform(w, e).log, policy)
  {
    var log := w.log + e.events;
    forall i | 0 <= i < |log| ensures EventOk(log[..i], log[i], policy) {
      if i < |w.log| {
        assert log[..i] == w.log[..i];
      } else {
        assert log[..i] == w.log + e.events[..i - |w.log|];
      }
    }
  }

  lemma FullsStayPending(w: World, policy: Policy, e: Effect)
    requires LockInv(w, policy) && GoodLocking(w, policy, e)
    ensures FullsPending(Perform(w, e), policy)
  {
    var w' := Perform(w, e);
    forall u | u in w'.users && IsFull(w'.users[u], policy) ensures LockPending(w', u) {
      if e.user.PutUser? && e.user.id == u && e.task.Await? && e.task.task.LoginLocking? && e.task.task.user == u {
        assert w'.tasks[e.task.id] == e.task.task;
      } else {
        assert u in w.users && IsFull(w.users[u], policy);
        var t :| t in w.tasks && w.tasks[t].LoginLocking? && w.tasks[t].user == u;
        assert t in w'.tasks && w'.tasks[t] == w.tasks[t];
      }
    }
  }

  lemma SingleEvent(w: World, e: Effect)
    requires |e.events| <= 1
    ensures e.events == [] ==> w.log + e.events == w.log
    ensures e.events != [] ==> w.log + e.events == w.log + [e.events[0]]
    ensures e.events != [] ==> w.log + e.events[..0] == w.log
    ensures e.events != [] ==> (w.log + e.events)[..|w.log + e.events| - 1] == w.log
  {
  }

  lemma LoginFailStep(w: World, policy: Policy, t: TaskId)
    requires LockInv(w, policy) && 1 <= policy.maxFailures && t in w.tasks && w.tasks[t].LoginFailing?
    ensures GoodLocking(w, policy, LoginFail(w, policy, t, w.tasks[t]))
  {
  }

  lemma LoginLockStep(w: World, policy: Policy, t: TaskId)
    requires LockInv(w, policy) && 1 <= policy.maxFailures && t in w.tasks && w.tasks[t].LoginLocking?
    ensures GoodLocking(w, policy, LoginLock(w, policy, t, w.tasks[t]))
  {
    var u := w.tasks[t].user;
    var e := LoginLock(w, policy, t, w.tasks[t]);
    if u in w.users { assert RowOk(w, u, w.users[u]); }
    SingleEvent(w, e);
  }

  lemma LoginSucceedStep(w: World, policy: Policy, t: TaskId)
    requires LockInv(w, policy) && 1 <= policy.maxFailures && t in w.tasks && w.tasks[t].LoginChecked?
    ensures GoodLocking(w, policy, LoginSucceed(w, t, w.tasks[t]))
  {
    var u := w.tasks[t].user;
    var e := LoginSucceed(w, t, w.tasks[t]);
    if u in w.users { assert RowOk(w, u, w.users[u]); }
    SingleEvent(w, e);
  }

  lemma ChangeWriteStep(w: World, policy: Policy, t: TaskId)
    requires LockInv(w, policy) && 1 <= policy.maxFailures && t in w.tasks && w.tasks[t].ChangeWriting?
    ensures GoodLocking(w, policy, ChangeWrite(w, t, w.tasks[t]))
  {
  }

  lemma UnlockedCounts(log: seq<Event>, u: UserId)
    ensures FailuresSince(log + [CountCleared(u)], u) == 0
    ensures LockedUntil(log + [CountCleared(u)], u) == LockedUntil(log, u)
    ensures FailuresSince(log + [LockCleared(u)], u) == FailuresSince(log, u)
    ensures LockedUntil(log + [LockCleared(u)], u) == None
  {
  }

  lemma UnlockFolds(log: seq<Event>, u: UserId, count: bool, lock: bool)
    ensures var log' := log + UnlockEvents(u, count, lock);
            && FailuresSince(log', u) == (if count then 0 else FailuresSince(log, u))
            && LockedUntil(log', u) == (if lock then None else LockedUntil(log, u))
  {
    var first := [CountCleared(u)];
    UnlockedCounts(log, u);
    UnlockedCounts(log + first, u);
    assert log + [CountCleared(u), LockCleared(u)] == log + first + [LockCleared(u)];
    assert log + [] == log;
  }

  lemma UnlockRow(w: World, t: TaskId)
    requires RowsOk(w) && t in w.tasks && w.tasks[t].Unlocking? && w.tasks[t].user in w.users
    ensures var e := UnlockWrite(w, t, w.tasks[t]);
            e.user.PutUser? && e.user.id == w.tasks[t].user && RowOk(Perform(w, e), e.user.id, e.user.row)
            && e.user.row.failedLoginCount <= w.users[e.user.id].failedLoginCount
  {
    var u := w.tasks[t].user;
    assert RowOk(w, u, w.users[u]);
    UnlockFolds(w.log, u, w.tasks[t].seen.failedLoginCount != 0, w.tasks[t].seen.lockedUntil.Some?);
  }

  lemma UnlockWriteStep(w: World, policy: Policy, t: TaskId)
    requires LockInv(w, policy) && 1 <= policy.maxFailures && t in w.tasks && w.tasks[t].Unlocking?
    ensures GoodLocking(w, policy, UnlockWrite(w, t, w.tasks[t]))
  {
    if w.tasks[t].user in w.users { UnlockRow(w, t); }
  }

  lemma ResolveDeleteStep(w: World, policy: Policy, t: TaskId)
    requires LockInv(w, policy) && t in w.tasks && w.tasks[t].ResolveExpired?
    ensures GoodLocking(w, policy, ResolveDelete(w, policy, t, w.tasks[t]))
  {
  }

  lemma RehashStep(w: World, policy: Policy, t: TaskId, drawn: nat)
    requires LockInv(w, policy) && 1 <= policy.maxFailures && t in w.tasks && w.tasks[t].LoginRehashing?
    ensures GoodLocking(w, policy, LoginRehash(w, t, w.tasks[t], drawn))
  {
    var e := LoginRehash(w, t, w.tasks[t], drawn);
    assert w.log + e.events == w.log;
    if w.tasks[t].user in w.users { assert RowOk(w, w.tasks[t].user, w.users[w.tasks[t].user]); }
  }

  lemma OtherTaskStep(w: World, policy: Policy, t: TaskId, drawn: nat)
    requires LockInv(w, policy) && 1 <= policy.maxFailures && t in w.tasks
    requires var task := w.tasks[t];
             !task.LoginFailing? && !task.LoginLocking? && !task.LoginChecked? && !task.ChangeWriting?
             && !task.ResolveExpired? && !task.Unlocking?
    ensures GoodLocking(w, policy, AdvanceTask(w, policy, t, drawn))
  {
    if w.tasks[t].LoginRehashing? {
      RehashStep(w, policy, t, drawn);
    } else {
      OtherTaskIsQuiet(w, policy, t, drawn);
      NoUserStep(w, policy, AdvanceTask(w, policy, t, drawn));
    }
  }

  lemma OtherTaskIsQuiet(w: World, policy: Policy, t: TaskId, drawn: nat)
    requires t in w.tasks
    requires var task := w.tasks[t];
             !task.LoginFailing? && !task.LoginLocking? && !task.LoginChecked? && !task.ChangeWriting?
             && !task.ResolveExpired? && !task.Unlocking? && !task.LoginRehashing?
    ensures var e := AdvanceTask(w, policy, t, drawn);
            !e.user.PutUser? && e.events == [] && (!e.task.SameTasks? ==> e.task.id == t)
  {
  }

  lemma AdvanceLoginStep(w: World, policy: Policy, t: TaskId, drawn: nat)
    requires LockInv(w, policy) && 1 <= policy.maxFailures && t in w.tasks
    requires w.tasks[t].LoginFailing? || w.tasks[t].LoginLocking? || w.tasks[t].LoginChecked?
    ensures GoodLocking(w, policy, AdvanceTask(w, policy, t, drawn))
  {
    match w.tasks[t]
    case LoginFailing(_, _) => LoginFailStep(w, policy, t);
    case LoginLocking(_, _) => LoginLockStep(w, policy, t);
    case LoginChecked(_, _, _, _, _, _) => LoginSucceedStep(w, policy, t);
  }

  lemma AdvanceWriteStep(w: World, policy: Policy, t: TaskId, drawn: nat)
    requires LockInv(w, policy) && 1 <= policy.maxFailures && t in w.tasks
    requires w.tasks[t].ChangeWriting? || w.tasks[t].ResolveExpired?
    ensures GoodLocking(w, policy, AdvanceTask(w, policy, t, drawn))
  {
    if w.tasks[t].ChangeWriting? {
      assert AdvanceTask(w, policy, t, drawn) == ChangeWrite(w, t, w.tasks[t]);
      ChangeWriteStep(w, policy, t);
    } else {
      assert AdvanceTask(w, policy, t, drawn) == ResolveDelete(w, policy, t, w.tasks[t]);
      ResolveDeleteStep(w, policy, t);
    }
  }

  lemma AdvanceUnlockStep(w: World, policy: Policy, t: TaskId, drawn: nat)
    requires LockInv(w, policy) && 1 <= policy.maxFailures && t in w.tasks && w.tasks[t].Unlocking?
    ensures GoodLocking(w, policy, AdvanceTask(w, policy, t, drawn))
  {
    assert AdvanceTask(w, policy, t, drawn) == UnlockWrite(w, t, w.tasks[t]);
    UnlockWriteStep(w, policy, t);
  }

  lemma AdvanceStep(w: World, policy: Policy, t: TaskId, drawn: nat)
    requires LockInv(w, policy) && 1 <= policy.maxFailures && t in w.tasks
    ensures GoodLocking(w, policy, AdvanceTask(w, policy, t, drawn))
  {
    var task := w.tasks[t];
    if task.LoginFailing? || task.LoginLocking? || task.LoginChecked? {
      AdvanceLoginStep(w, policy, t, drawn);
    } else if task.ChangeWriting? || task.ResolveExpired? {
      AdvanceWriteStep(w, policy, t, drawn);
    } else if task.Unlocking? {
      AdvanceUnlockStep(w, policy, t, drawn);
    } else {
      OtherTaskStep(w, policy, t, drawn);
    }
  }

  lemma NewUserStep(w: World, policy: Policy, u: UserId, row: UserRow, e: Effect)
    requires LockInv(w, policy) && 1 <= policy.maxFailures && u !in w.realms
    requires row.failedLoginCount == 0 && row.lockedUntil.None?
    requires e.task.SameTasks? && e.user == PutUser(u, row) && e.events == []
    ensures GoodLocking(w, policy, e)
  {
    UnknownUser(w, u);
    assert w.log + e.events == w.log;
  }

  lemma ActivationStep(w: World, policy: Policy, u: UserId, active: bool)
    requires LockInv(w, policy) && 1 <= policy.maxFailures
    ensures GoodLocking(w, policy, Activate(w, u, active))
  {
    if u in w.users { assert RowOk(w, u, w.users[u]); }
    assert w.log + Activate(w, u, active).events == w.log;
  }

  /** A step that writes no user row and ends no failed login. */
  lemma NoUserStep(w: World, policy: Policy, e: Effect)
    requires !e.user.PutUser? && e.events == []
    requires !e.task.SameTasks? && e.task.id in w.tasks ==> !w.tasks[e.task.id].LoginLocking?
    ensures GoodLocking(w, policy, e)
  {
  }

  lemma OtherAdministration(w: World, policy: Policy, step: Step)
    requires !step.Advance? && !step.SetActive? && !step.CreateLocalUser? && !step.CreateDirectoryUser?
    ensures GoodLocking(w, policy, EffectOf(w, policy, step))
  {
    var e := EffectOf(w, policy, step);
    assert !e.user.PutUser? && e.events == [] && (!e.task.SameTasks? ==> e.task.id !in w.tasks);
    NoUserStep(w, policy, e);
  }

  lemma CreatingStep(w: World, policy: Policy, step: Step)
    requires LockInv(w, policy) && 1 <= policy.maxFailures && (step.CreateLocalUser? || step.CreateDirectoryUser?)
    ensures GoodLocking(w, policy, EffectOf(w, policy, step))
  {
    var e := EffectOf(w, policy, step);
    if step.user in w.realms { NoUserStep(w, policy, e); } else { NewUserStep(w, policy, step.user, e.user.row, e); }
  }

  lemma AdministrationStep(w: World, policy: Policy, step: Step)
    requires LockInv(w, policy) && 1 <= policy.maxFailures && !step.Advance?
    ensures GoodLocking(w, policy, EffectOf(w, policy, step))
  {
    if step.SetActive? {
      ActivationStep(w, policy, step.user, step.active);
    } else if step.CreateLocalUser? || step.CreateDirectoryUser? {
      CreatingStep(w, policy, step);
    } else {
      OtherAdministration(w, policy, step);
    }
  }

  lemma StepKeeps(w: World, policy: Policy, step: Step)
    requires LockInv(w, policy) && 1 <= policy.maxFailures
    ensures LockInv(Apply(w, policy, step), policy)
  {
    if !step.Tick? {
      if step.Advance? && step.task in w.tasks {
        AdvanceStep(w, policy, step.task, step.drawn);
      } else if !step.Advance? {
        AdministrationStep(w, policy, step);
      }
      var e := EffectOf(w, policy, step);
      if step.Advance? && step.task !in w.tasks {
        assert w.log + e.events == w.log;
      }
      RowsStayOk(w, policy, e);
      LogStaysOk(w, policy, e);
      FullsStayPending(w, policy, e);
    } else {
      var w' := Apply(w, policy, step);
      forall u | u in w'.users && IsFull(w'.users[u], policy) ensures LockPending(w', u) {
        var t :| t in w.tasks && w.tasks[t].LoginLocking? && w.tasks[t].user == u;
        assert t in w'.tasks && w'.tasks[t] == w.tasks[t];
      }
    }
  }

  lemma {:induction false} RunKeeps(policy: Policy, steps: seq<Step>)
    requires 1 <= policy.maxFailures
    ensures LockInv(Run(policy, steps), policy)
    decreases |steps|
  {
    if steps != [] {
      RunKeeps(policy, steps[..|steps| - 1]);
      StepKeeps(Run(policy, steps[..|steps| - 1]), policy, steps[|steps| - 1]);
    }
  }

  /** The counter is below the maximum whenever no failed login of the user is between
      its counting and its locking statement. */
  lemma CounterBelowMaximum(policy: Policy, steps: seq<Step>, u: UserId)
    requires 1 <= policy.maxFailures
    requires u in Run(policy, steps).users && !LockPending(Run(policy, steps), u)
    ensures Run(policy, steps).users[u].failedLoginCount < policy.maxFailures
  {
    RunKeeps(policy, steps);
  }

  /** Every lock comes after at least the maximum number of failures since the last reset,
      and the stored counter is exactly that number of failures. */
  lemma LocksFollowFailures(policy: Policy, steps: seq<Step>, i: nat)
    requires 1 <= policy.maxFailures
    ensures var w := Run(policy, steps);
            && (i < |w.log| && w.log[i].Locked? ==> FailuresSince(w.log[..i], w.log[i].user) >= policy.maxFailures)
            && (forall u :: u in w.users ==> w.users[u].failedLoginCount == FailuresSince(w.log, u))
  {
    RunKeeps(policy, steps);
    var w := Run(policy, steps);
    assert i < |w.log| ==> EventOk(w.log[..i], w.log[i], policy);
    forall u | u in w.users ensures w.users[u].failedLoginCount == FailuresSince(w.log, u) {
      assert RowOk(w, u, w.users[u]);
    }
  }

  /** No login succeeds while a lock that the history shows is still running at its time. */
  lemma NoLoginWhileLocked(policy: Policy, steps: seq<Step>, i: nat)
    requires 1 <= policy.maxFailures
    requires i < |Run(policy, steps).log| && Run(policy, steps).log[i].LoggedIn?
    ensures var log := Run(policy, steps).log;
            var lock := LockedUntil(log[..i], log[i].user);
            lock.None? || lock.value <= log[i].now
  {
    RunKeeps(policy, steps);
    assert EventOk(Run(policy, steps).log[..i], Run(policy, steps).log[i], policy);
  }
}
