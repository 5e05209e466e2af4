/** Keeping the scheduler's collector jobs in step with the plugin registry. */
module CollectorJobs {
  import opened Options
  import opened PluginRegistry

  type JobId = string

  datatype Trigger = Interval(seconds: int) | Cron(expression: string)

  /** `settings` stands for the settings object handed to the job. */
  datatype Job = Job(trigger: Trigger, pluginId: PluginId, settings: nat, misfireGrace: int)

  /** An enabled registration with its configuration. */
  datatype Desired = Desired(pluginId: PluginId, interval: int)

  const PREFIX: string := "collector:"

  function JobIdOf(plugin: PluginId): JobId {
    if plugin == "builtin.vcenter.events" then "poll_events"
    else if plugin == "builtin.vcenter.host_quickstats" then "poll_perf"
    else PREFIX + plugin
  }

  predicate IsCollectorJobId(id: JobId) {
    id == "poll_events" || id == "poll_perf" || PREFIX <= id
  }

  function MisfireGrace(interval: int): (grace: int)
    ensures grace >= 1 && (interval >= 2 ==> 2 * grace <= interval < 2 * grace + 2)
  {
    if interval / 2 < 1 then 1 else interval / 2
  }

  function FreshJob(d: Desired, settings: nat): Job {
    Job(Interval(d.interval), d.pluginId, settings, MisfireGrace(d.interval))
  }

  lemma JobIdsAreDistinct(a: PluginId, b: PluginId)
    ensures IsCollectorJobId(JobIdOf(a)) && (JobIdOf(a) == JobIdOf(b) ==> a == b)
  {
    assert (PREFIX + a)[..|PREFIX|] == PREFIX && (PREFIX + b)[..|PREFIX|] == PREFIX;
    assert (PREFIX + a)[|PREFIX|..] == a && (PREFIX + b)[|PREFIX|..] == b;
    assert "poll_events"[0] != PREFIX[0] && "poll_perf"[0] != PREFIX[0];
    assert PREFIX <= PREFIX + a;
  }

  /** The two built-in plugins keep their old job ids; every other id is prefixed. */
  lemma JobIdsAreNamed(p: PluginId)
    ensures JobIdOf(p) == "poll_events" || JobIdOf(p) == "poll_perf" || JobIdOf(p) == "collector:" + p
    ensures JobIdOf(p) == "poll_events" <==> p == "builtin.vcenter.events"
    ensures JobIdOf(p) == "poll_perf" <==> p == "builtin.vcenter.host_quickstats"
  {
    assert "poll_events"[0] == 'p' && "poll_perf"[0] == 'p' && (PREFIX + p)[0] == 'c';
    assert "poll_events"[5] != "poll_perf"[5];
  }

  // ---- a fresh set-up

  function Wanted(enabled: seq<Desired>, id: JobId): (r: Option<Desired>)
    ensures r.Some? ==> r.value in enabled && JobIdOf(r.value.pluginId) == id
  {
    if enabled == [] then None
    else if JobIdOf(enabled[|enabled| - 1].pluginId) == id then Some(enabled[|enabled| - 1])
    else Wanted(enabled[..|enabled| - 1], id)
  }

  /** The registry names each plugin once. */
  ghost predicate DistinctPlugins(enabled: seq<Desired>) {
    forall i, j :: 0 <= i < j < |enabled| ==> enabled[i].pluginId != enabled[j].pluginId
  }

  /** What `id` should hold after a set-up from nothing. */
  function Fresh(enabled: seq<Desired>, settings: nat, id: JobId): Option<Job> {
    if Wanted(enabled, id).Some? then Some(FreshJob(Wanted(enabled, id).value, settings)) else None
  }

  function JobAt(jobs: map<JobId, Job>, id: JobId): Option<Job> {
    if id in jobs then Some(jobs[id]) else None
  }

  class Scheduler {
    var jobs: map<JobId, Job>

    constructor ()
      ensures jobs == map[]
    {
      jobs := map[];
    }

    method AddJob(id: JobId, job: Job)
      requires id !in jobs
      modifies this
      ensures jobs == old(jobs)[id := job]
    {
      jobs := jobs[id := job];
    }

    method RemoveJob(id: JobId)
      requires id in jobs
      modifies this
      ensures jobs == old(jobs) - {id}
    {
      jobs := jobs - {id};
    }

    /** Only the trigger changes. */
    method RescheduleJob(id: JobId, trigger: Trigger)
      requires id in jobs
      modifies this
      ensures jobs == old(jobs)[id := old(jobs)[id].(trigger := trigger)]
    {
      jobs := jobs[id := jobs[id].(trigger := trigger)];
    }
  }

  lemma {:induction false} WantedIsUnique(enabled: seq<Desired>, j: nat)
    requires DistinctPlugins(enabled) && j < |enabled|
    ensures Wanted(enabled, JobIdOf(enabled[j].pluginId)) == Some(enabled[j])
    decreases |enabled|
  {
    var n := |enabled| - 1;
    JobIdsAreDistinct(enabled[j].pluginId, enabled[n].pluginId);
    if j < n { WantedIsUnique(enabled[..n], j); }
  }

  /** The collector part of a set-up, on a scheduler without collector jobs. */
  method SetUpCollectorJobs(scheduler: Scheduler, settings: nat, enabled: seq<Desired>)
    requires DistinctPlugins(enabled) && forall id :: id in scheduler.jobs ==> !IsCollectorJobId(id)
    modifies scheduler
    ensures forall id :: JobAt(scheduler.jobs, id)
                         == if IsCollectorJobId(id) then Fresh(enabled, settings, id)
                           else JobAt(old(scheduler.jobs), id)
  {
    for i := 0 to |enabled|
      invariant forall id :: JobAt(scheduler.jobs, id)
                             == if IsCollectorJobId(id) then Fresh(enabled[..i], settings, id)
                               else JobAt(old(scheduler.jobs), id)
    {
      var d := enabled[i];
      JobIdsAreDistinct(d.pluginId, d.pluginId);
      NotYetWanted(enabled, i);
      assert enabled[..i + 1][..i] == enabled[..i];
      assert JobAt(scheduler.jobs, JobIdOf(d.pluginId)) == None;
      scheduler.AddJob(JobIdOf(d.pluginId), FreshJob(d, settings));
    }
    assert enabled[..|enabled|] == enabled;
  }

  /** The job of every enabled plugin after a set-up. */
  lemma FreshJobs(enabled: seq<Desired>, settings: nat, j: nat)
    requires DistinctPlugins(enabled) && j < |enabled|
    ensures var d := enabled[j];
            var job := Fresh(enabled, settings, JobIdOf(d.pluginId));
            && job.Some? && job.value.trigger == Interval(d.interval) && job.value.pluginId == d.pluginId
            && job.value.settings == settings
            && (d.interval >= 2 ==> 2 * job.value.misfireGrace <= d.interval < 2 * job.value.misfireGrace + 2)
  {
    WantedIsUnique(enabled, j);
  }

  lemma NotYetWanted(enabled: seq<Desired>, i: nat)
    requires DistinctPlugins(enabled) && i < |enabled|
    ensures Wanted(enabled[..i], JobIdOf(enabled[i].pluginId)).None?
  {
    var id := JobIdOf(enabled[i].pluginId);
    if Wanted(enabled[..i], id).Some? {
      var j :| 0 <= j < i && enabled[j] == Wanted(enabled[..i], id).value;
      JobIdsAreDistinct(enabled[j].pluginId, enabled[i].pluginId);
    }
  }

  // ---- from a registry to the wanted jobs

  ghost predicate IsEnabled(registry: Registrations, p: PluginId) {
    p in registry && registry[p].status == Enabled && registry[p].config.Some?
  }

  /** `enabled` names the enabled registrations with their intervals, each once. */
  ghost predicate NamesEnabled(registry: Registrations, enabled: seq<Desired>) {
    && DistinctPlugins(enabled)
    && (forall d :: d in enabled ==>
      IsEnabled(registry, d.pluginId) && d.interval == registry[d.pluginId].config.value.interval)
    && (forall p :: IsEnabled(registry, p) ==> Desired(p, registry[p].config.value.interval) in enabled)
  }

  /** In a built registry every enabled plugin has its configuration and a job at least every
      ten seconds apart. */
  lemma BuiltRegistryIsWanted(registry: Registrations, enabled: seq<Desired>)
    requires Sound(registry) && NamesEnabled(registry, enabled)
    ensures forall d :: d in enabled ==> d.interval >= 10
    ensures forall p :: p in registry ==>
              (registry[p].status == Enabled <==> exists d :: d in enabled && d.pluginId == p)
  {
    forall p | p in registry ensures registry[p].status == Enabled <==> exists d :: d in enabled && d.pluginId == p {
      if registry[p].status == Enabled {
        assert EnabledProperly(registry[p]) && IsEnabled(registry, p);
        var d := Desired(p, registry[p].config.value.interval);
        assert d in enabled && d.pluginId == p;
      }
    }
  }

  /** `enabled` names the enabled registrations but those in `left`. */
  ghost predicate NamesEnabledBut(registry: Registrations, enabled: seq<Desired>, left: set<PluginId>) {
    && DistinctPlugins(enabled)
    && (forall d :: d in enabled ==>
          d.pluginId !in left && IsEnabled(registry, d.pluginId)
            && d.interval == registry[d.pluginId].config.value.interval)
    && (forall p :: IsEnabled(registry, p) && p !in left ==> Desired(p, registry[p].config.value.interval) in enabled)
  }

  lemma OneMoreEnabled(registry: Registrations, enabled: seq<Desired>, left: set<PluginId>, d: Desired)
    requires NamesEnabledBut(registry, enabled, left + {d.pluginId}) && d.pluginId !in left
    requires IsEnabled(registry, d.pluginId) && d.interval == registry[d.pluginId].config.value.interval
    ensures NamesEnabledBut(registry, enabled + [d], left)
  {
    assert forall i :: 0 <= i < |enabled| ==> enabled[i] in enabled && enabled[i].pluginId != d.pluginId;
  }

  /** Lists the enabled registrations, in any order. */
  method EnabledPlugins(registry: Registrations) returns (enabled: seq<Desired>)
    requires Sound(registry)
    ensures NamesEnabled(registry, enabled)
  {
    enabled := [];
    var left := registry.Keys;
    while left != {}
      invariant left <= registry.Keys && NamesEnabledBut(registry, enabled, left)
      decreases |left|
    {
      var p :| p in left;
      ghost var before := left;
      left := left - {p};
      assert before == left + {p};
      assert registry[p].status == Enabled ==> EnabledProperly(registry[p]);
      if registry[p].status == Enabled {
        var d := Desired(p, registry[p].config.value.interval);
        OneMoreEnabled(registry, enabled, left, d);
        enabled := enabled + [d];
      }
    }
  }

  // ---- reconciling

  /** What `id` holds after reconciling: other jobs stay, unwanted ones go, missing ones are
      fresh, and a wanted one that exists gets the wanted interval and keeps the rest. */
  function Reconciled(enabled: seq<Desired>, settings: nat, jobs: map<JobId, Job>, id: JobId): Option<Job> {
    if !IsCollectorJobId(id) then JobAt(jobs, id)
    else if Wanted(enabled, id).None? then None
    else if id !in jobs then Fresh(enabled, settings, id)
    else Some(jobs[id].(trigger := Interval(Wanted(enabled, id).value.interval)))
  }

  method ReconcileCollectorJobs(scheduler: Scheduler, settings: nat, enabled: seq<Desired>)
    returns (added: seq<PluginId>, removed: seq<JobId>, rescheduled: seq<PluginId>)
    requires DistinctPlugins(enabled)
    modifies scheduler
    ensures IsResult(enabled, settings, old(scheduler.jobs), scheduler.jobs)
    ensures added == [] && removed == [] && rescheduled == [] <==> scheduler.jobs == old(scheduler.jobs)
    ensures NoneTwice(removed) && forall id :: id in removed <==> IsUnwanted(enabled, old(scheduler.jobs), id)
    ensures Reported(enabled, old(scheduler.jobs), |enabled|, added, rescheduled)
  {
    added, rescheduled := [], [];
    ghost var before := scheduler.jobs;
    var existing := scheduler.jobs;
    removed := RemoveUnwanted(scheduler, enabled);
    NothingReconciledYet(enabled, settings, before, scheduler.jobs);
    for i := 0 to |enabled|
      invariant Half(enabled, settings, before, scheduler.jobs, i)
      invariant added == [] && removed == [] && rescheduled == [] <==> scheduler.jobs == before
      invariant Reported(enabled, before, i, added, rescheduled)
    {
      var id := JobIdOf(enabled[i].pluginId);
      ghost var now := scheduler.jobs;
      OneIsWanted(enabled, settings, before, i);
      var isNew, isMoved := ReconcileOne(scheduler, settings, enabled[i], JobAt(existing, id));
      OneMoreReported(enabled, before, i, added, rescheduled, isNew, isMoved);
      added := if isNew then added + [enabled[i].pluginId] else added;
      rescheduled := if isMoved then rescheduled + [enabled[i].pluginId] else rescheduled;
      OneMoreReconciled(enabled, settings, before, now, scheduler.jobs, i);
      assert isNew || isMoved ==> JobAt(scheduler.jobs, id) != JobAt(before, id);
    }
    AllReconciled(enabled, settings, before, scheduler.jobs);
  }

  method ReconcileOne(scheduler: Scheduler, settings: nat, d: Desired, existing: Option<Job>)
    returns (isNew: bool, isMoved: bool)
    requires existing == JobAt(scheduler.jobs, JobIdOf(d.pluginId))
    modifies scheduler
    ensures forall id :: id != JobIdOf(d.pluginId) ==> JobAt(scheduler.jobs, id) == JobAt(old(scheduler.jobs), id)
    ensures JobAt(scheduler.jobs, JobIdOf(d.pluginId))
            == Some(if existing.None? then FreshJob(d, settings) else existing.value.(trigger := Interval(d.interval)))
    ensures isNew == existing.None? && isMoved == (existing.Some? && existing.value.trigger != Interval(d.interval))
    ensures if isNew || isMoved then JobAt(scheduler.jobs, JobIdOf(d.pluginId)) != existing
            else scheduler.jobs == old(scheduler.jobs)
  {
    isNew, isMoved := existing.None?, false;
    if isNew {
      scheduler.AddJob(JobIdOf(d.pluginId), FreshJob(d, settings));
    } else if existing.value.trigger != Interval(d.interval) {
      scheduler.RescheduleJob(JobIdOf(d.pluginId), Interval(d.interval));
      isMoved := true;
    }
  }

  lemma OneIsWanted(enabled: seq<Desired>, settings: nat, before: map<JobId, Job>, i: nat)
    requires DistinctPlugins(enabled) && i < |enabled|
    ensures var id := JobIdOf(enabled[i].pluginId);
            Reconciled(enabled, settings, before, id)
            == Some(if id in before then before[id].(trigger := Interval(enabled[i].interval))
              else FreshJob(enabled[i], settings))
  {
    WantedIsUnique(enabled, i);
    JobIdsAreDistinct(enabled[i].pluginId, enabled[i].pluginId);
  }

  lemma NothingReconciledYet(enabled: seq<Desired>, settings: nat, before: map<JobId, Job>, jobs: map<JobId, Job>)
    requires DistinctPlugins(enabled)
    requires forall id :: JobAt(jobs, id)
                          == if IsCollectorJobId(id) && Wanted(enabled, id).None? then None else JobAt(before, id)
    ensures Half(enabled, settings, before, jobs, 0)
  {
    forall j | 0 <= j < |enabled|
      ensures JobAt(jobs, JobIdOf(enabled[j].pluginId)) == JobAt(before, JobIdOf(enabled[j].pluginId))
    {
      WantedIsUnique(enabled, j);
    }
  }

  lemma AllReconciled(enabled: seq<Desired>, settings: nat, before: map<JobId, Job>, jobs: map<JobId, Job>)
    requires Half(enabled, settings, before, jobs, |enabled|)
    ensures IsResult(enabled, settings, before, jobs)
  {
  }

  /** The first `i` wanted jobs are reconciled, the others are as before, the unwanted are gone. */
  ghost predicate Half(enabled: seq<Desired>, settings: nat, before: map<JobId, Job>, jobs: map<JobId, Job>, i: nat)
    requires i <= |enabled|
  {
    && (forall id :: !IsCollectorJobId(id) || Wanted(enabled, id).None? ==>
      JobAt(jobs, id) == Reconciled(enabled, settings, before, id))
    && (forall j :: 0 <= j < i ==>
      JobAt(jobs, JobIdOf(enabled[j].pluginId)) == Reconciled(enabled, settings, before, JobIdOf(enabled[j].pluginId)))
    && (forall j :: i <= j < |enabled| ==>
      JobAt(jobs, JobIdOf(enabled[j].pluginId)) == JobAt(before, JobIdOf(enabled[j].pluginId)))
  }

  lemma OneMoreReconciled(enabled: seq<Desired>, settings: nat, before: map<JobId, Job>, now: map<JobId, Job>,
                          jobs: map<JobId, Job>, i: nat)
    requires DistinctPlugins(enabled) && i < |enabled| && Half(enabled, settings, before, now, i)
    requires forall id :: id != JobIdOf(enabled[i].pluginId) ==> JobAt(jobs, id) == JobAt(now, id)
    requires JobAt(jobs, JobIdOf(enabled[i].pluginId))
               == Reconciled(enabled, settings, before, JobIdOf(enabled[i].pluginId))
    ensures Half(enabled, settings, before, jobs, i + 1)
  {
    WantedIsUnique(enabled, i);
    JobIdsAreDistinct(enabled[i].pluginId, enabled[i].pluginId);
    forall j | 0 <= j < |enabled| && j != i
      ensures JobAt(jobs, JobIdOf(enabled[j].pluginId)) == JobAt(now, JobIdOf(enabled[j].pluginId))
    {
      JobIdsAreDistinct(enabled[j].pluginId, enabled[i].pluginId);
    }
  }

  predicate IsUnwanted(enabled: seq<Desired>, jobs: map<JobId, Job>, id: JobId) {
    id in jobs && IsCollectorJobId(id) && Wanted(enabled, id).None?
  }

  ghost predicate IsOneOf(enabled: seq<Desired>, p: PluginId) {
    exists j :: 0 <= j < |enabled| && enabled[j].pluginId == p
  }

  ghost predicate NoneTwice<T(!new)>(s: seq<T>) {
    forall a, b :: 0 <= a < b < |s| ==> s[a] != s[b]
  }

  /** Which of the first `i` plugins are reported as added and as rescheduled; nothing else is. */
  ghost predicate Reported(enabled: seq<Desired>, before: map<JobId, Job>, i: nat, added: seq<PluginId>,
                           rescheduled: seq<PluginId>)
    requires i <= |enabled|
  {
    && (forall j :: 0 <= j < |enabled| ==>
          var p, job := enabled[j].pluginId, JobAt(before, JobIdOf(enabled[j].pluginId));
          && (p in added <==> j < i && job.None?)
          && (p in rescheduled <==> j < i && job.Some? && job.value.trigger != Interval(enabled[j].interval)))
    && (forall p :: p in added || p in rescheduled ==> IsOneOf(enabled, p))
    && NoneTwice(added) && NoneTwice(rescheduled)
  }

  lemma OneMoreReported(enabled: seq<Desired>, before: map<JobId, Job>, i: nat, added: seq<PluginId>,
                        rescheduled: seq<PluginId>, isNew: bool, isMoved: bool)
    requires DistinctPlugins(enabled) && i < |enabled| && Reported(enabled, before, i, added, rescheduled)
    requires var job := JobAt(before, JobIdOf(enabled[i].pluginId));
             isNew == job.None? && isMoved == (job.Some? && job.value.trigger != Interval(enabled[i].interval))
    ensures Reported(enabled, before, i + 1, if isNew then added + [enabled[i].pluginId] else added,
                     if isMoved then rescheduled + [enabled[i].pluginId] else rescheduled)
  {
  }

  method RemoveUnwanted(scheduler: Scheduler, enabled: seq<Desired>) returns (removed: seq<JobId>)
    modifies scheduler
    ensures forall id :: JobAt(scheduler.jobs, id)
                         == if IsCollectorJobId(id) && Wanted(enabled, id).None? then None
                           else JobAt(old(scheduler.jobs), id)
    ensures removed == [] <==> scheduler.jobs == old(scheduler.jobs)
    ensures NoneTwice(removed) && forall id :: id in removed <==> IsUnwanted(enabled, old(scheduler.jobs), id)
  {
    removed := [];
    var unwanted := set id | id in scheduler.jobs && IsUnwanted(enabled, scheduler.jobs, id);
    ghost var all := unwanted;
    while unwanted != {}
      invariant unwanted <= all && scheduler.jobs == old(scheduler.jobs) - (all - unwanted)
      invariant all <= old(scheduler.jobs).Keys && (removed == [] <==> all == unwanted)
      invariant NoneTwice(removed) && forall id :: id in removed <==> id in all - unwanted
      decreases |unwanted|
    {
      var id :| id in unwanted;
      scheduler.RemoveJob(id);
      removed := removed + [id];
      unwanted := unwanted - {id};
      assert id in all - unwanted;
    }
    if all != {} {
      var id :| id in all;
      assert id in old(scheduler.jobs) && id !in scheduler.jobs;
    }
  }

  // ---- what reconciling gives

  ghost predicate IsResult(enabled: seq<Desired>, settings: nat, jobs: map<JobId, Job>, after: map<JobId, Job>) {
    forall id :: JobAt(after, id) == Reconciled(enabled, settings, jobs, id)
  }

  /** Collector jobs are filed under their plugin's job id. */
  ghost predicate Proper(jobs: map<JobId, Job>) {
    forall id :: id in jobs && IsCollectorJobId(id) ==> id == JobIdOf(jobs[id].pluginId)
  }

  /** A second reconciliation with the same registry changes nothing, whatever the settings. */
  lemma SecondReconcileChangesNothing(enabled: seq<Desired>, settings: nat, later: nat, jobs: map<JobId, Job>,
                                      after: map<JobId, Job>)
    requires IsResult(enabled, settings, jobs, after)
    ensures IsResult(enabled, later, after, after)
  {
  }

  /** Any scheduler ends with exactly the wanted collector jobs, each with the wanted plugin and
      interval, and with all its other jobs. */
  lemma ReconciledRunsTheWantedJobs(enabled: seq<Desired>, settings: nat, jobs: map<JobId, Job>, after: map<JobId, Job>)
    requires IsResult(enabled, settings, jobs, after) && Proper(jobs) && DistinctPlugins(enabled)
    ensures Proper(after)
    ensures forall id :: id in after && IsCollectorJobId(id) <==> Wanted(enabled, id).Some?
    ensures forall d :: d in enabled ==>
              JobIdOf(d.pluginId) in after && after[JobIdOf(d.pluginId)].pluginId == d.pluginId
                                         && after[JobIdOf(d.pluginId)].trigger == Interval(d.interval)
    ensures forall id :: !IsCollectorJobId(id) ==> JobAt(after, id) == JobAt(jobs, id)
  {
    forall id ensures id in after && IsCollectorJobId(id) <==> Wanted(enabled, id).Some? {
      assert JobAt(after, id) == Reconciled(enabled, settings, jobs, id);
      if Wanted(enabled, id).Some? {
        JobIdsAreDistinct(Wanted(enabled, id).value.pluginId, Wanted(enabled, id).value.pluginId);
      }
    }
    forall d | d in enabled
      ensures JobIdOf(d.pluginId) in after && after[JobIdOf(d.pluginId)].pluginId == d.pluginId
              && after[JobIdOf(d.pluginId)].trigger == Interval(d.interval)
    {
      var j :| 0 <= j < |enabled| && enabled[j] == d;
      var id := JobIdOf(d.pluginId);
      WantedIsUnique(enabled, j);
      assert JobAt(after, id) == Reconciled(enabled, settings, jobs, id);
      if id in jobs { JobIdsAreDistinct(jobs[id].pluginId, d.pluginId); }
    }
    forall id | id in after && IsCollectorJobId(id) ensures id == JobIdOf(after[id].pluginId) {
      assert JobAt(after, id) == Reconciled(enabled, settings, jobs, id);
    }
  }

  /** From any scheduler and any built registry: reconciling leaves a job for exactly the enabled
      plugins, with the interval of their configuration, which is at least ten seconds. */
  lemma ReconciledFollowsRegistry(registry: Registrations, enabled: seq<Desired>, settings: nat, jobs: map<JobId, Job>,
                                  after: map<JobId, Job>)
    requires Sound(registry) && NamesEnabled(registry, enabled)
    requires IsResult(enabled, settings, jobs, after) && Proper(jobs)
    ensures forall p :: p in registry && registry[p].status == Enabled ==>
              && JobIdOf(p) in after && after[JobIdOf(p)].pluginId == p
              && after[JobIdOf(p)].trigger == Interval(registry[p].config.value.interval)
              && registry[p].config.value.interval >= 10
    ensures forall id :: id in after && IsCollectorJobId(id) ==>
              after[id].pluginId in registry && registry[after[id].pluginId].status == Enabled
  {
    ReconciledRunsTheWantedJobs(enabled, settings, jobs, after);
    BuiltRegistryIsWanted(registry, enabled);
    forall p | p in registry && registry[p].status == Enabled
      ensures JobIdOf(p) in after && after[JobIdOf(p)].pluginId == p
              && after[JobIdOf(p)].trigger == Interval(registry[p].config.value.interval)
              && registry[p].config.value.interval >= 10
    {
      assert EnabledProperly(registry[p]) && IsEnabled(registry, p);
      assert Desired(p, registry[p].config.value.interval) in enabled;
    }
    forall id | id in after && IsCollectorJobId(id)
      ensures after[id].pluginId in registry && registry[after[id].pluginId].status == Enabled
    {
      var d := Wanted(enabled, id).value;
      assert d in enabled && JobIdOf(d.pluginId) == id && after[JobIdOf(d.pluginId)].pluginId == d.pluginId;
    }
  }

  /** The result equals a fresh set-up exactly if every wanted job that existed already had the
      settings and the misfire grace that a fresh one would get: rescheduling changes neither. */
  lemma EqualsFreshSetUpExactly(enabled: seq<Desired>, settings: nat, jobs: map<JobId, Job>, after: map<JobId, Job>)
    requires IsResult(enabled, settings, jobs, after) && Proper(jobs)
    ensures (forall id :: IsCollectorJobId(id) ==> JobAt(after, id) == Fresh(enabled, settings, id))
            <==> forall id :: id in jobs && IsCollectorJobId(id) && Wanted(enabled, id).Some? ==>
                   jobs[id].settings == settings
                     && jobs[id].misfireGrace == MisfireGrace(Wanted(enabled, id).value.interval)
  {
    forall id | IsCollectorJobId(id)
      ensures JobAt(after, id) == Fresh(enabled, settings, id)
              <==> (id in jobs && Wanted(enabled, id).Some? ==>
                      jobs[id].settings == settings
                        && jobs[id].misfireGrace == MisfireGrace(Wanted(enabled, id).value.interval))
    {
      assert JobAt(after, id) == Reconciled(enabled, settings, jobs, id);
      if id in jobs && Wanted(enabled, id).Some? {
        JobIdsAreDistinct(jobs[id].pluginId, Wanted(enabled, id).value.pluginId);
      }
    }
  }

  /** A collector moved from 60 to 600 seconds keeps the grace of 30 seconds; a fresh one gets 300. */
  lemma RescheduledJobKeepsItsGrace(settings: nat)
    ensures var d, id := Desired("x", 600), JobIdOf("x");
            var old60 := map[id := FreshJob(Desired("x", 60), settings)];
            && Reconciled([d], settings, old60, id) == Some(Job(Interval(600), "x", settings, 30))
            && Fresh([d], settings, id) == Some(Job(Interval(600), "x", settings, 300))
  {
  }
}
