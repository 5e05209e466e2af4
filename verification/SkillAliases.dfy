/** Publishing every project skill under three alias directories: plan, apply, roll back. */
module SkillAliases {
  import opened Options

  /** The places that matter: an alias (root 0 is `.cursor/skills`), the canonical directory
      of a skill, and anything else. */
  datatype Path = Alias(root: nat, skill: string) | Canonical(skill: string) | Elsewhere(name: string)

  const ALIAS_ROOTS: nat := 3

  /** A link keeps where it points and how that is spelled: None is the spelling that
      `os.path.relpath` gives, Some is any other text for the same place. */
  datatype Entry = Directory | File | Symlink(to: Path, spelling: Option<string>)

  type FileSystem = map<Path, Entry>

  /** Follows links to something that is not a link; None for loops and missing ends. */
  function Resolve(fs: FileSystem, p: Path, seen: set<Path>): Option<Path>
    decreases fs.Keys - seen
  {
    if p in seen || p !in fs then None
    else match fs[p]
      case Symlink(to, _) => Resolve(fs, to, seen + {p})
      case _ => Some(p)
  }

  function Resolved(fs: FileSystem, p: Path): Option<Path> {
    Resolve(fs, p, {})
  }

  // ---- planning

  datatype Action = Create | Keep | Migrate

  datatype AliasPlan = AliasPlan(alias: Path, skill: string, action: Action)

  predicate IsAlias(fs: FileSystem, p: Path) {
    p in fs && fs[p].Symlink?
  }

  function LegacyLink(skill: string): Entry {
    Symlink(Alias(0, skill), None)
  }

  function NewLink(skill: string): Entry {
    Symlink(Canonical(skill), None)
  }

  /** None when something else is in the way. */
  function ClassifyAlias(fs: FileSystem, alias: Path, skill: string): Option<AliasPlan> {
    if alias !in fs then Some(AliasPlan(alias, skill, Create))
    else if IsAlias(fs, alias) && Resolved(fs, alias) == Some(Canonical(skill)) then Some(AliasPlan(alias, skill, Keep))
    else if fs[alias] == LegacyLink(skill) then Some(AliasPlan(alias, skill, Migrate))
    else None
  }

  /** The i-th alias to look at: skills in order, roots within each skill. */
  function AliasAt(skills: seq<string>, i: nat): Path
    requires i < |skills| * ALIAS_ROOTS
  {
    Alias(i % ALIAS_ROOTS, skills[i / ALIAS_ROOTS])
  }

  predicate Distinct(skills: seq<string>) {
    forall i, j :: 0 <= i < j < |skills| ==> skills[i] != skills[j]
  }

  /** Every skill has a real canonical directory. */
  predicate Discovered(fs: FileSystem, skills: seq<string>) {
    Distinct(skills)
    && forall i :: 0 <= i < |skills| ==> Canonical(skills[i]) in fs && fs[Canonical(skills[i])] == Directory
  }

  /** `plans` is the classification of every alias in `fs`. */
  ghost predicate IsPlan(fs: FileSystem, skills: seq<string>, plans: seq<AliasPlan>) {
    && |plans| == |skills| * ALIAS_ROOTS
    && forall i :: 0 <= i < |plans| ==> ClassifyAlias(fs, AliasAt(skills, i), skills[i / ALIAS_ROOTS]) == Some(plans[i])
  }

  ghost predicate HasConflict(fs: FileSystem, skills: seq<string>) {
    exists i :: 0 <= i < |skills| * ALIAS_ROOTS
      && ClassifyAlias(fs, AliasAt(skills, i), skills[i / ALIAS_ROOTS]) == None
  }

  /** When looking where a link leads fails, the link counts as broken: then one that is
      spelled like the legacy link is migrated although it may work. */
  ghost predicate IsPlanUnderFaults(fs: FileSystem, skills: seq<string>, plans: seq<AliasPlan>) {
    && |plans| == |skills| * ALIAS_ROOTS
    && forall i :: 0 <= i < |plans| ==> Planned(fs, AliasAt(skills, i), skills[i / ALIAS_ROOTS], plans[i])
  }

  ghost predicate Planned(fs: FileSystem, alias: Path, skill: string, plan: AliasPlan) {
    || ClassifyAlias(fs, alias, skill) == Some(plan)
    || (HasLegacyLink(fs, alias, skill) && plan == AliasPlan(alias, skill, Migrate))
  }

  predicate HasLegacyLink(fs: FileSystem, alias: Path, skill: string) {
    alias in fs && fs[alias] == LegacyLink(skill)
  }

  ghost predicate HasLegacyLinks(fs: FileSystem, skills: seq<string>) {
    exists i :: 0 <= i < |skills| * ALIAS_ROOTS && HasLegacyLink(fs, AliasAt(skills, i), skills[i / ALIAS_ROOTS])
  }

  // ---- applying

  /** What a completed run leaves: a direct link for every alias that was not kept. */
  function Published(fs: FileSystem, plans: seq<AliasPlan>): FileSystem {
    if plans == [] then fs else
    var plan := plans[|plans| - 1];
    var before := Published(fs, plans[..|plans| - 1]);
    if plan.action.Keep? then before else before[plan.alias := NewLink(plan.skill)]
  }

  datatype Outcome = Applied | Failed(stuck: set<Path>)

  function CountFaults(faults: seq<bool>): nat {
    if faults == [] then 0 else (if faults[0] then 1 else 0) + CountFaults(faults[1..])
  }

  class AliasTree {
    var fs: FileSystem
    var faults: seq<bool> // whether the next file operations fail, in order

    constructor (fs: FileSystem, faults: seq<bool>)
      ensures this.fs == fs && this.faults == faults
    {
      this.fs, this.faults := fs, faults;
    }

    /** How many operations are still going to fail. */
    ghost function Pending(): nat
      reads this`faults
    {
      CountFaults(faults)
    }

    method Attempt() returns (ok: bool)
      modifies this`faults
      ensures Pending() == old(Pending()) - if ok then 0 else 1
    {
      if faults == [] { return true; }
      ok := !faults[0];
      faults := faults[1..];
    }

    /** Looks where `p` leads; on failure the answer is None, as for a broken link. */
    method Look(p: Path) returns (end: Option<Path>)
      modifies this`faults
      ensures end == Resolved(fs, p) || (end.None? && Pending() < old(Pending()))
      ensures Pending() <= old(Pending())
    {
      var ok := Attempt();
      end := if ok then Resolved(fs, p) else None;
    }

    /** A failing look at the skill itself ends the run, which comes out like a conflict. */
    method Classify(alias: Path, skill: string) returns (plan: Option<AliasPlan>)
      modifies this`faults
      ensures Pending() <= old(Pending())
      ensures plan.Some? ==> Planned(fs, alias, skill, plan.value)
      ensures Pending() == old(Pending()) ==> plan == ClassifyAlias(fs, alias, skill)
      ensures ClassifyAlias(fs, alias, skill).None? ==> plan.None?
    {
      if alias !in fs { return Some(AliasPlan(alias, skill, Create)); }
      if IsAlias(fs, alias) {
        var end := Look(alias);
        var found := Attempt();
        if !found { return None; }
        if end == Some(Canonical(skill)) { return Some(AliasPlan(alias, skill, Keep)); }
      }
      plan := if HasLegacyLink(fs, alias, skill) then Some(AliasPlan(alias, skill, Migrate)) else None;
    }

    /** All aliases are classified before anything changes; one conflict refuses the plan. */
    method BuildPlan(skills: seq<string>) returns (plans: Option<seq<AliasPlan>>)
      modifies this`faults
      ensures Pending() <= old(Pending())
      ensures plans.Some? ==> IsPlanUnderFaults(fs, skills, plans.value)
      ensures HasConflict(fs, skills) ==> plans.None?
      ensures Pending() == old(Pending()) && plans.Some? ==> IsPlan(fs, skills, plans.value)
      ensures Pending() == old(Pending()) && plans.None? ==> HasConflict(fs, skills)
      ensures Pending() == old(Pending()) ==>
                (plans.Some? <==> forall skill, root: nat :: skill in skills && root < 3 ==>
                                    IsReady(fs, Alias(root, skill), skill))
    {
      ConflictsByEntries(fs, skills);
      var found: seq<AliasPlan> := [];
      var failed := false;
      for i := 0 to |skills| * ALIAS_ROOTS
        invariant Pending() <= old(Pending())
        invariant !failed ==> |found| == i && forall j :: 0 <= j < i ==>
                                Planned(fs, AliasAt(skills, j), skills[j / ALIAS_ROOTS], found[j])
        invariant (exists j ::
                     0 <= j < i && ClassifyAlias(fs, AliasAt(skills, j), skills[j / ALIAS_ROOTS]) == None) ==> failed
        invariant failed && Pending() == old(Pending()) ==> HasConflict(fs, skills)
        invariant !failed && Pending() == old(Pending()) ==>
                    forall j :: 0 <= j < i ==>
                      ClassifyAlias(fs, AliasAt(skills, j), skills[j / ALIAS_ROOTS]) == Some(found[j])
      {
        var plan := Classify(AliasAt(skills, i), skills[i / ALIAS_ROOTS]);
        if plan.Some? { found := found + [plan.value]; } else { failed := true; }
      }
      plans := if failed then None else Some(found);
    }

    method Verify(skills: seq<string>) returns (ok: bool)
      modifies this`faults
      ensures Pending() <= old(Pending())
      ensures ok ==> AllPublished(fs, skills)
      ensures Pending() == old(Pending()) ==> (ok <==> AllPublished(fs, skills))
    {
      ok := true;
      for i := 0 to |skills| * ALIAS_ROOTS
        invariant Pending() <= old(Pending())
        invariant ok ==> forall j :: 0 <= j < i ==> IsPublished(fs, skills, j)
        invariant !ok && Pending() == old(Pending()) ==> !AllPublished(fs, skills)
      {
        var alias := AliasAt(skills, i);
        ghost var published := IsPublished(fs, skills, i);
        if IsAlias(fs, alias) {
          var end := Look(alias);
          var found := Attempt();
          if !found || end != Some(Canonical(skills[i / ALIAS_ROOTS])) { ok := false; }
        } else {
          ok := false;
        }
      }
    }

    /** Removes a link and nothing else. */
    method RemoveAlias(alias: Path) returns (ok: bool)
      modifies this
      ensures ok ==> IsAlias(old(fs), alias) && fs == old(fs) - {alias}
      ensures !ok ==> fs == old(fs)
      ensures Pending() <= old(Pending())
      ensures IsAlias(old(fs), alias) ==> Pending() == old(Pending()) - if ok then 0 else 1
    {
      ok := Attempt();
      ok := ok && IsAlias(fs, alias);
      if ok { fs := fs - {alias}; }
    }

    method CreateAlias(alias: Path, entry: Entry) returns (ok: bool)
      modifies this
      ensures ok ==> alias !in old(fs) && fs == old(fs)[alias := entry]
      ensures !ok ==> fs == old(fs)
      ensures Pending() <= old(Pending())
      ensures alias !in old(fs) ==> Pending() == old(Pending()) - if ok then 0 else 1
    {
      ok := Attempt();
      ok := ok && alias !in fs;
      if ok { fs := fs[alias := entry]; }
    }

    /** Undoes one alias: `before` is what it held before the run. */
    method RollbackPlan(plan: AliasPlan, ghost before: FileSystem) returns (ok: bool)
      requires plan.alias in fs ==> IsAlias(fs, plan.alias)
      requires Undoable(plan, before)
      modifies this
      ensures fs - {plan.alias} == old(fs) - {plan.alias}
      ensures ok ==> Same(fs, before, plan.alias)
      ensures Pending() == old(Pending()) - if ok then 0 else 1
    {
      if plan.alias in fs {
        ok := RemoveAlias(plan.alias);
        if !ok { return; }
      }
      ok := true;
      if plan.action.Migrate? { ok := CreateAlias(plan.alias, LegacyLink(plan.skill)); }
    }

    /** One plan: afterwards its alias is either published, or as before, or stuck. */
    method ApplyOne(plan: AliasPlan, ghost before: FileSystem) returns (ok: bool, stuck: set<Path>)
      requires Undoable(plan, before) && Same(fs, before, plan.alias)
      requires Canonical(plan.skill) in fs && fs[Canonical(plan.skill)] == Directory
      modifies this
      ensures stuck <= {plan.alias}
      ensures ok ==> stuck == {} && fs == old(fs)[plan.alias := NewLink(plan.skill)]
      ensures !ok ==> fs - {plan.alias} == old(fs) - {plan.alias}
      ensures !ok && stuck == {} ==> Same(fs, before, plan.alias)
      ensures Pending() == old(Pending()) - (if ok then 0 else 1) - |stuck|
    {
      stuck := {};
      if plan.action.Migrate? {
        ok := RemoveAlias(plan.alias);
        if !ok { return; }
      }
      ok := CreateAlias(plan.alias, NewLink(plan.skill));
      if ok {
        DirectLinkResolves(fs, plan.alias, plan.skill);
        ok := Attempt(); // looking at the new link may fail too
        ok := ok && IsAlias(fs, plan.alias) && Resolved(fs, plan.alias) == Some(Canonical(plan.skill));
      }
      if !ok {
        var undone := RollbackPlan(plan, before);
        if !undone { stuck := {plan.alias}; }
      }
    }

    /** Undoes the applied plans, last first, and reports those it could not undo. */
    method UndoAll(applied: seq<AliasPlan>, ghost before: FileSystem) returns (stuck: set<Path>)
      requires DistinctAliases(applied) && forall j :: 0 <= j < |applied| ==> Undoable(applied[j], before)
      requires forall j :: 0 <= j < |applied| ==> IsAlias(fs, applied[j].alias)
      modifies this
      ensures forall p :: !Mentions(applied, p) ==> Same(fs, old(fs), p)
      ensures forall j :: 0 <= j < |applied| ==> applied[j].alias in stuck || Same(fs, before, applied[j].alias)
      ensures old(Pending()) == 0 ==> stuck == {}
    {
      stuck := {};
      var k := |applied|;
      while k > 0
        invariant 0 <= k <= |applied| && UndoneFrom(fs, old(fs), before, applied, k, stuck)
        invariant old(Pending()) == 0 ==> Pending() == 0 && stuck == {}
      {
        k := k - 1;
        ghost var was := fs;
        var undone := RollbackPlan(applied[k], before);
        UndoneOneMore(was, fs, old(fs), before, applied, k, stuck, undone);
        if !undone { stuck := stuck + {applied[k].alias}; }
      }
    }

    /** Either every plan is applied, or the tree is as before except for the aliases that
        are reported stuck; one failing operation alone leaves nothing stuck. */
    method ApplyPlan(plans: seq<AliasPlan>, skills: seq<string>) returns (outcome: Outcome)
      requires Discovered(fs, skills) && IsPlanUnderFaults(fs, skills, plans)
      modifies this
      ensures outcome.Applied? ==> fs == Published(old(fs), plans)
      ensures outcome.Failed? ==> forall p :: p !in outcome.stuck ==> Same(fs, old(fs), p)
      ensures outcome.Failed? && outcome.stuck == {} ==> fs == old(fs)
      ensures outcome.Failed? && old(Pending()) <= 1 ==> outcome.stuck == {}
      ensures outcome.Applied? ==> Pending() == old(Pending())
      ensures old(Pending()) == 0 || (forall i :: 0 <= i < |plans| ==> plans[i].action.Keep?) ==> outcome.Applied?
    {
      ghost var before := fs;
      var applied: seq<AliasPlan> := [];
      for i := 0 to |plans|
        invariant fs == Published(before, plans[..i]) && applied == Changing(plans[..i])
        invariant Pending() == old(Pending())
      {
        var plan := plans[i];
        assert plans[..i + 1][..i] == plans[..i];
        if !plan.action.Keep? {
          PlansAreUndoable(before, skills, plans);
          PublishedSoFar(before, skills, plans, i);
          ghost var was := fs;
          var ok, stuck := ApplyOne(plan, before);
          if !ok {
            OthersStay(was, fs, plan.alias);
            ChangingIsUndoable(before, skills, plans, i);
            ghost var half := fs;
            assert forall j :: 0 <= j < |applied| ==> Same(half, was, applied[j].alias);
            var alsoStuck := UndoAll(applied, before);
            EveryPathUndone(before, was, half, fs, applied, plan.alias, stuck, alsoStuck);
            return Failed(stuck + alsoStuck);
          }
          applied := applied + [plan];
        }
      }
      assert plans[..|plans|] == plans;
      outcome := Applied;
    }

    /** The command: exit code 0 means that every alias ends at its skill. A failing look at
        the result gives exit code 1 although everything is published. Without failures it
        succeeds exactly if no alias is anything but absent, right already or the legacy link. */
    method Synchronize(skills: seq<string>, checkOnly: bool) returns (code: int, stuck: set<Path>)
      requires Discovered(fs, skills)
      modifies this
      ensures code == 0 || code == 1
      ensures code == 0 ==> stuck == {} && skills != [] && AllPublished(fs, skills)
      ensures stuck == {} ==> fs == old(fs) || (AllPublished(fs, skills) && StillResolves(old(fs), fs))
      ensures forall p :: p !in stuck && stuck != {} ==> Same(fs, old(fs), p)
      ensures code == 1 && stuck == {} && fs != old(fs) ==> Pending() < old(Pending())
      ensures old(Pending()) <= 1 ==> stuck == {}
      ensures checkOnly ==> fs == old(fs)
      ensures checkOnly && Pending() == old(Pending()) ==>
                (code == 0 <==> skills != [] && forall skill, root: nat :: skill in skills && root < 3 ==>
                                  LeadsHome(fs, Alias(root, skill), skill))
      ensures old(AllPublished(fs, skills)) && (old(Pending()) == 0 || !HasLegacyLinks(old(fs), skills)) ==>
                fs == old(fs)
      ensures code == 0 ==> forall skill, root: nat :: skill in skills && root < 3 ==>
                LeadsHome(fs, Alias(root, skill), skill)
      ensures !checkOnly && old(Pending()) == 0 ==>
                (code == 0 <==> skills != [] && forall skill, root: nat :: skill in skills && root < 3 ==>
                                  IsReady(old(fs), Alias(root, skill), skill))
      ensures !checkOnly && old(Pending()) == 0 && code == 0 ==> IsUpdated(old(fs), fs, skills)
    {
      stuck := {};
      if skills == [] { return 1, {}; }
      var plans := BuildPlan(skills);
      PublishedIsAllKeep(fs, skills);
      ConflictsByEntries(fs, skills);
      PublishedByEntries(fs, skills);
      if plans.None? { return 1, {}; }
      if checkOnly {
        if exists i :: 0 <= i < |plans.value| && !plans.value[i].action.Keep? { return 1, {}; }
      } else {
        ghost var before := fs;
        var outcome := ApplyPlan(plans.value, skills);
        if outcome.Failed? { return 1, outcome.stuck; }
        PublishedTreeStays(before, skills, plans.value);
        if IsPlan(before, skills, plans.value) { PlanUpdates(before, skills, plans.value); }
        PublishedResolves(before, skills, plans.value);
      }
      PublishedIsAllKeep(fs, skills);
      var again := BuildPlan(skills);
      if again.None? { return 1, {}; }
      var verified := Verify(skills);
      PublishedByEntries(fs, skills);
      code := if verified then 0 else 1;
    }
  }

  ghost predicate Same(a: FileSystem, b: FileSystem, p: Path) {
    (p in a <==> p in b) && (p in a ==> a[p] == b[p])
  }

  /** The loop that undoes, after the plans from `k` on. */
  ghost predicate UndoneFrom(now: FileSystem, start: FileSystem, before: FileSystem, applied: seq<AliasPlan>, k: nat,
                             stuck: set<Path>)
    requires k <= |applied|
  {
    && (forall p :: !Mentions(applied, p) ==> Same(now, start, p))
    && (forall j :: 0 <= j < k ==> IsAlias(now, applied[j].alias))
    && (forall j :: k <= j < |applied| ==> applied[j].alias in stuck || Same(now, before, applied[j].alias))
  }

  lemma UndoneOneMore(was: FileSystem, now: FileSystem, start: FileSystem, before: FileSystem, applied: seq<AliasPlan>,
                      k: nat, stuck: set<Path>, undone: bool)
    requires k < |applied| && DistinctAliases(applied) && UndoneFrom(was, start, before, applied, k + 1, stuck)
    requires now - {applied[k].alias} == was - {applied[k].alias}
    requires undone ==> Same(now, before, applied[k].alias)
    ensures UndoneFrom(now, start, before, applied, k, if undone then stuck else stuck + {applied[k].alias})
  {
    OthersStay(was, now, applied[k].alias);
    assert Mentions(applied, applied[k].alias);
    forall j | 0 <= j < |applied| && j != k ensures Same(now, was, applied[j].alias) {}
    forall p | !Mentions(applied, p) ensures Same(now, start, p) {
      assert Same(was, start, p) && Same(now, was, p);
    }
  }

  ghost predicate Mentions(plans: seq<AliasPlan>, p: Path) {
    exists j :: 0 <= j < |plans| && plans[j].alias == p
  }

  ghost predicate Undoable(plan: AliasPlan, before: FileSystem) {
    && !plan.action.Keep? && plan.alias.Alias?
    && (plan.action.Create? ==> plan.alias !in before)
    && (plan.action.Migrate? ==> plan.alias in before && before[plan.alias] == LegacyLink(plan.skill))
  }

  ghost predicate DistinctAliases(plans: seq<AliasPlan>) {
    forall i, j :: 0 <= i < j < |plans| ==> plans[i].alias != plans[j].alias
  }

  /** The plans that change something, in order. */
  function Changing(plans: seq<AliasPlan>): seq<AliasPlan> {
    if plans == [] then [] else
    var before := Changing(plans[..|plans| - 1]);
    if plans[|plans| - 1].action.Keep? then before else before + [plans[|plans| - 1]]
  }

  lemma OthersStay(a: FileSystem, b: FileSystem, p: Path)
    requires b - {p} == a - {p}
    ensures forall q :: q != p ==> Same(b, a, q)
  {
    forall q | q != p ensures Same(b, a, q) {
      assert q in b - {p} <==> q in b;
      assert q in a - {p} <==> q in a;
      if q in b { assert (b - {p})[q] == b[q] && (a - {p})[q] == a[q]; }
    }
  }

  lemma PlansAreUndoable(fs: FileSystem, skills: seq<string>, plans: seq<AliasPlan>)
    requires Discovered(fs, skills) && IsPlanUnderFaults(fs, skills, plans)
    ensures DistinctAliases(plans)
    ensures forall i :: 0 <= i < |plans| && !plans[i].action.Keep? ==> Undoable(plans[i], fs)
    ensures forall i :: 0 <= i < |plans| ==>
              plans[i].alias == AliasAt(skills, i) && plans[i].skill == skills[i / ALIAS_ROOTS]
              && Canonical(plans[i].skill) in fs && fs[Canonical(plans[i].skill)] == Directory
  {
  }

  lemma MentionsMore(some: seq<AliasPlan>, all: seq<AliasPlan>, p: Path)
    requires some <= all
    ensures Mentions(some, p) ==> Mentions(all, p)
  {
  }

  /** Exactly the aliases of changing plans are replaced. */
  lemma {:induction false} PublishedAt(fs: FileSystem, plans: seq<AliasPlan>)
    requires DistinctAliases(plans)
    ensures forall j :: 0 <= j < |plans| && !plans[j].action.Keep? ==>
              IsAlias(Published(fs, plans), plans[j].alias)
              && Published(fs, plans)[plans[j].alias] == NewLink(plans[j].skill)
    ensures forall p :: !Mentions(Changing(plans), p) ==> Same(Published(fs, plans), fs, p)
    ensures forall x :: x in Changing(plans) <==> x in plans && !x.action.Keep?
    decreases |plans|
  {
    if plans != [] {
      var front, last := plans[..|plans| - 1], plans[|plans| - 1];
      PublishedAt(fs, front);
      assert plans == front + [last];
      forall p | !Mentions(Changing(plans), p) ensures Same(Published(fs, plans), fs, p) {
        MentionsMore(Changing(front), Changing(plans), p);
        if !last.action.Keep? { assert Changing(plans)[|Changing(plans)| - 1] == last; }
      }
    }
  }

  /** Before its turn an alias is still as planned, and canonical directories never change. */
  lemma PublishedSoFar(fs: FileSystem, skills: seq<string>, plans: seq<AliasPlan>, i: nat)
    requires Discovered(fs, skills) && IsPlanUnderFaults(fs, skills, plans) && i < |plans|
    ensures var now := Published(fs, plans[..i]);
            && Same(now, fs, plans[i].alias)
            && Canonical(plans[i].skill) in now && now[Canonical(plans[i].skill)] == Directory
  {
    PlansAreUndoable(fs, skills, plans);
    PublishedAt(fs, plans[..i]);
    forall p | Mentions(Changing(plans[..i]), p) ensures p != plans[i].alias && p.Alias? {
      var j :| 0 <= j < |Changing(plans[..i])| && Changing(plans[..i])[j].alias == p;
      assert Changing(plans[..i])[j] in plans[..i];
      var k :| 0 <= k < i && plans[k] == Changing(plans[..i])[j];
    }
    assert Same(Published(fs, plans[..i]), fs, Canonical(plans[i].skill));
  }

  lemma {:induction false} ChangingDistinct(plans: seq<AliasPlan>)
    requires DistinctAliases(plans)
    ensures DistinctAliases(Changing(plans)) && forall x :: x in Changing(plans) <==> x in plans && !x.action.Keep?
    decreases |plans|
  {
    if plans != [] {
      var front, last := plans[..|plans| - 1], plans[|plans| - 1];
      ChangingDistinct(front);
      assert plans == front + [last];
      forall x | x in front ensures x.alias != last.alias {
        var k :| 0 <= k < |front| && front[k] == x;
        assert plans[k].alias != plans[|plans| - 1].alias;
      }
      forall j | 0 <= j < |Changing(front)| ensures Changing(front)[j].alias != last.alias {
        assert Changing(front)[j] in front;
      }
    }
  }

  /** At a failure of plan `i`, everything applied so far can be undone. */
  lemma ChangingIsUndoable(fs: FileSystem, skills: seq<string>, plans: seq<AliasPlan>, i: nat)
    requires Discovered(fs, skills) && IsPlanUnderFaults(fs, skills, plans) && i < |plans|
    ensures var applied := Changing(plans[..i]);
            && DistinctAliases(applied)
            && (forall j :: 0 <= j < |applied| ==>
                  Undoable(applied[j], fs) && applied[j].alias != plans[i].alias
                  && IsAlias(Published(fs, plans[..i]), applied[j].alias))
            && (forall p :: !Mentions(applied, p) ==> Same(Published(fs, plans[..i]), fs, p))
  {
    var applied := Changing(plans[..i]);
    PlansAreUndoable(fs, skills, plans);
    ChangingDistinct(plans[..i]);
    PublishedAt(fs, plans[..i]);
    forall j | 0 <= j < |applied|
      ensures Undoable(applied[j], fs) && applied[j].alias != plans[i].alias
      ensures IsAlias(Published(fs, plans[..i]), applied[j].alias)
    {
      assert applied[j] in plans[..i];
      var k :| 0 <= k < i && plans[..i][k] == applied[j];
      assert plans[k] == applied[j];
    }
  }

  lemma EveryPathUndone(before: FileSystem, was: FileSystem, half: FileSystem, now: FileSystem, applied: seq<AliasPlan>,
                        alias: Path, stuck: set<Path>, alsoStuck: set<Path>)
    requires forall p :: !Mentions(applied, p) ==> Same(was, before, p)
    requires forall q :: q != alias ==> Same(half, was, q)
    requires stuck == {} ==> Same(half, before, alias)
    requires stuck <= {alias} && !Mentions(applied, alias)
    requires forall p :: !Mentions(applied, p) ==> Same(now, half, p)
    requires forall j :: 0 <= j < |applied| ==> applied[j].alias in alsoStuck || Same(now, before, applied[j].alias)
    ensures forall p :: p !in stuck + alsoStuck ==> Same(now, before, p)
    ensures stuck + alsoStuck == {} ==> now == before
  {
    forall p | p !in stuck + alsoStuck ensures Same(now, before, p) {
      if !Mentions(applied, p) {
        assert Same(now, half, p) && Same(was, before, p);
        if p == alias { assert stuck == {}; } else { assert Same(half, was, p); }
      } else {
        var j :| 0 <= j < |applied| && applied[j].alias == p;
      }
    }
    if stuck + alsoStuck == {} {
      forall p ensures Same(now, before, p) {}
      assert now.Keys == before.Keys by {
        forall p ensures p in now.Keys <==> p in before.Keys { assert Same(now, before, p); }
      }
      forall p | p in now ensures now[p] == before[p] { assert Same(now, before, p); }
    }
  }

  lemma DirectLinkResolves(fs: FileSystem, alias: Path, skill: string)
    requires alias.Alias? && alias in fs && fs[alias] == NewLink(skill)
    requires Canonical(skill) in fs && fs[Canonical(skill)] == Directory
    ensures Resolved(fs, alias) == Some(Canonical(skill))
  {
    assert {} + {alias} == {alias};
    assert Resolve(fs, Canonical(skill), {alias}) == Some(Canonical(skill));
  }

  // ---- following links

  /** Exactly `k` links lead from `p` to `end`, which is not a link. */
  ghost predicate Reaches(fs: FileSystem, p: Path, end: Path, k: nat)
    decreases k
  {
    p in fs && if fs[p].Symlink? then k > 0 && Reaches(fs, fs[p].to, end, k - 1) else k == 0 && p == end
  }

  lemma {:induction false} ReachesOnce(fs: FileSystem, p: Path, end: Path, k: nat, other: Path, j: nat)
    requires Reaches(fs, p, end, k) && Reaches(fs, p, other, j)
    ensures end == other && k == j
    decreases k
  {
    if fs[p].Symlink? { ReachesOnce(fs, fs[p].to, end, k - 1, other, j - 1); }
  }

  lemma {:induction false} ResolvedReaches(fs: FileSystem, p: Path, seen: set<Path>, end: Path) returns (k: nat)
    requires Resolve(fs, p, seen) == Some(end)
    ensures Reaches(fs, p, end, k)
    decreases fs.Keys - seen
  {
    if fs[p].Symlink? {
      var rest := ResolvedReaches(fs, fs[p].to, seen + {p}, end);
      k := rest + 1;
    } else {
      k := 0;
    }
  }

  ghost predicate Farther(fs: FileSystem, p: Path, end: Path, k: nat) {
    exists j: nat :: j > k && Reaches(fs, p, end, j)
  }

  /** Nothing seen on the way is met again: it is farther from the end. */
  lemma {:induction false} ReachesResolved(fs: FileSystem, p: Path, seen: set<Path>, end: Path, k: nat)
    requires Reaches(fs, p, end, k)
    requires forall x :: x in seen ==> Farther(fs, x, end, k)
    ensures Resolve(fs, p, seen) == Some(end)
    decreases k
  {
    if p in seen {
      var j: nat :| j > k && Reaches(fs, p, end, j);
      ReachesOnce(fs, p, end, k, end, j);
    } else if fs[p].Symlink? {
      forall x | x in seen + {p} ensures Farther(fs, x, end, k - 1) {
        if x in seen { assert Farther(fs, x, end, k); }
      }
      ReachesResolved(fs, fs[p].to, seen + {p}, end, k - 1);
    }
  }

  ghost predicate LeadsTo(fs: FileSystem, p: Path, end: Path) {
    exists k: nat :: Reaches(fs, p, end, k)
  }

  lemma LinkLeadsOn(fs: FileSystem, p: Path, end: Path)
    requires IsAlias(fs, p) && LeadsTo(fs, fs[p].to, end)
    ensures LeadsTo(fs, p, end)
  {
    var k: nat :| Reaches(fs, fs[p].to, end, k);
    assert Reaches(fs, p, end, k + 1);
  }

  /** Resolution with a loop check finds `end` exactly when some number of links leads there. */
  lemma ResolvesExactlyAlongChains(fs: FileSystem, p: Path, end: Path)
    ensures Resolved(fs, p) == Some(end) <==> LeadsTo(fs, p, end)
  {
    if Resolved(fs, p) == Some(end) { var k := ResolvedReaches(fs, p, {}, end); }
    if LeadsTo(fs, p, end) {
      var k: nat :| Reaches(fs, p, end, k);
      ReachesResolved(fs, p, {}, end, k);
    }
  }

  lemma SelfLinkLeadsNowhere(fs: FileSystem, p: Path, end: Path, k: nat)
    requires IsAlias(fs, p) && fs[p].to == p
    ensures !Reaches(fs, p, end, k)
    decreases k
  {
  }

  /** An alias that is about to change leads nowhere, or to its own skill already. */
  lemma ChangedAliasesLeadToTheirSkill(fs: FileSystem, skills: seq<string>, plans: seq<AliasPlan>, i: nat, end: Path,
                                       k: nat)
    requires Discovered(fs, skills) && IsPlanUnderFaults(fs, skills, plans) && i < |plans| && !plans[i].action.Keep?
    requires Reaches(fs, plans[i].alias, end, k)
    ensures end == Canonical(plans[i].skill)
  {
    PlansAreUndoable(fs, skills, plans);
    var skill := plans[i].skill;
    var first := ALIAS_ROOTS * (i / ALIAS_ROOTS);
    assert plans[first].alias == Alias(0, skill) && plans[first].skill == skill;
    assert Reaches(fs, Alias(0, skill), end, k - 1);
    if plans[first].action.Migrate? {
      SelfLinkLeadsNowhere(fs, Alias(0, skill), end, k - 1);
    } else {
      assert Planned(fs, AliasAt(skills, first), skill, plans[first]);
      ResolvesExactlyAlongChains(fs, Alias(0, skill), Canonical(skill));
      var j: nat :| Reaches(fs, Alias(0, skill), Canonical(skill), j);
      ReachesOnce(fs, Alias(0, skill), end, k - 1, Canonical(skill), j);
    }
  }

  /** When every look succeeded it never leads anywhere, so no working chain passes it. */
  lemma ChangedAliasesLeadNowhere(fs: FileSystem, skills: seq<string>, plans: seq<AliasPlan>, i: nat, end: Path, k: nat)
    requires Discovered(fs, skills) && IsPlan(fs, skills, plans) && i < |plans| && !plans[i].action.Keep?
    ensures !Reaches(fs, plans[i].alias, end, k)
  {
    assert ClassifyAlias(fs, AliasAt(skills, i), skills[i / ALIAS_ROOTS]) == Some(plans[i]);
    ResolvesExactlyAlongChains(fs, plans[i].alias, end);
    if Reaches(fs, plans[i].alias, end, k) {
      ChangedAliasesLeadToTheirSkill(fs, skills, plans, i, end, k);
    }
  }

  /** `p` now leads straight to `end`. */
  ghost predicate Shortcut(now: FileSystem, p: Path, end: Path) {
    IsAlias(now, p) && now[p].to == end && Reaches(now, end, end, 0)
  }

  lemma {:induction false} ChainStays(fs: FileSystem, now: FileSystem, p: Path, end: Path, k: nat)
    requires Reaches(fs, p, end, k)
    requires forall x, j: nat, e :: Reaches(fs, x, e, j) ==> Same(now, fs, x) || Shortcut(now, x, e)
    ensures LeadsTo(now, p, end)
    decreases k
  {
    if Shortcut(now, p, end) {
      assert Reaches(now, p, end, 1);
    } else if fs[p].Symlink? {
      ChainStays(fs, now, fs[p].to, end, k - 1);
      assert Same(now, fs, p);
      LinkLeadsOn(now, p, end);
    } else {
      assert Same(now, fs, p) && Reaches(now, p, end, 0);
    }
  }

  lemma SkillsStay(fs: FileSystem, skills: seq<string>, plans: seq<AliasPlan>)
    requires Discovered(fs, skills) && IsPlanUnderFaults(fs, skills, plans)
    ensures forall skill :: Same(Published(fs, plans), fs, Canonical(skill))
  {
    PlansAreUndoable(fs, skills, plans);
    PublishedAt(fs, plans);
    forall c | 0 <= c < |Changing(plans)| ensures Changing(plans)[c].alias.Alias? {
      assert Changing(plans)[c] in plans;
    }
    assert forall skill :: !Mentions(Changing(plans), Canonical(skill));
  }

  lemma WorkingPathsStay(fs: FileSystem, skills: seq<string>, plans: seq<AliasPlan>)
    requires Discovered(fs, skills) && IsPlanUnderFaults(fs, skills, plans)
    ensures forall x, j: nat, e :: Reaches(fs, x, e, j) ==>
              Same(Published(fs, plans), fs, x) || Shortcut(Published(fs, plans), x, e)
  {
    PlansAreUndoable(fs, skills, plans);
    PublishedAt(fs, plans);
    SkillsStay(fs, skills, plans);
    forall x, j: nat, e | Reaches(fs, x, e, j)
      ensures Same(Published(fs, plans), fs, x) || Shortcut(Published(fs, plans), x, e)
    {
      if Mentions(Changing(plans), x) {
        var c :| 0 <= c < |Changing(plans)| && Changing(plans)[c].alias == x;
        assert Changing(plans)[c] in plans;
        var i :| 0 <= i < |plans| && plans[i] == Changing(plans)[c];
        ChangedAliasesLeadToTheirSkill(fs, skills, plans, i, e, j);
        assert Same(Published(fs, plans), fs, e);
      }
    }
  }

  // ---- the whole run

  // ---- the same in terms of entries alone

  /** The alias is a link, and a chain of links ends at the skill's directory. */
  ghost predicate LeadsHome(fs: FileSystem, alias: Path, skill: string) {
    alias in fs && fs[alias].Symlink? && LeadsTo(fs, alias, Canonical(skill))
  }

  /** Nothing there, the right link already, or a link that is spelled as the legacy one. */
  ghost predicate IsReady(fs: FileSystem, alias: Path, skill: string) {
    alias !in fs || LeadsHome(fs, alias, skill) || fs[alias] == Symlink(Alias(0, skill), None)
  }

  /** Aliases that led home are as before; the others are direct links; nothing else has changed. */
  ghost predicate IsUpdated(before: FileSystem, now: FileSystem, skills: seq<string>) {
    && (forall skill, root: nat :: skill in skills && root < 3 ==>
          var alias := Alias(root, skill);
          if LeadsHome(before, alias, skill) then Same(now, before, alias)
          else alias in now && now[alias] == Symlink(Canonical(skill), None))
    && (forall p: Path :: !(p.Alias? && p.skill in skills && p.root < 3) ==> Same(now, before, p))
  }

  lemma AliasOfSkill(skills: seq<string>, i: nat)
    requires i < |skills| * ALIAS_ROOTS
    ensures var alias := AliasAt(skills, i);
            alias.skill == skills[i / ALIAS_ROOTS] && alias.skill in skills && alias.root < 3
  {
  }

  lemma IndexOfAlias(skills: seq<string>, skill: string, root: nat) returns (i: nat)
    requires skill in skills && root < 3
    ensures i < |skills| * ALIAS_ROOTS && AliasAt(skills, i) == Alias(root, skill) && skills[i / ALIAS_ROOTS] == skill
  {
    var k :| 0 <= k < |skills| && skills[k] == skill;
    i := ALIAS_ROOTS * k + root;
  }

  lemma ReadyIsClassified(fs: FileSystem, alias: Path, skill: string)
    ensures ClassifyAlias(fs, alias, skill).Some? <==> IsReady(fs, alias, skill)
    ensures LeadsHome(fs, alias, skill) <==> ClassifyAlias(fs, alias, skill) == Some(AliasPlan(alias, skill, Keep))
    ensures ClassifyAlias(fs, alias, skill).Some? ==>
              var plan := ClassifyAlias(fs, alias, skill).value; plan.alias == alias && plan.skill == skill
  {
    ResolvesExactlyAlongChains(fs, alias, Canonical(skill));
  }

  lemma ConflictsByEntries(fs: FileSystem, skills: seq<string>)
    ensures HasConflict(fs, skills)
            <==> exists skill, root: nat :: skill in skills && root < 3 && !IsReady(fs, Alias(root, skill), skill)
  {
    if HasConflict(fs, skills) {
      var i :| 0 <= i < |skills| * ALIAS_ROOTS
        && ClassifyAlias(fs, AliasAt(skills, i), skills[i / ALIAS_ROOTS]) == None;
      AliasOfSkill(skills, i);
      ReadyIsClassified(fs, AliasAt(skills, i), skills[i / ALIAS_ROOTS]);
    }
    forall skill, root: nat | skill in skills && root < 3 && !IsReady(fs, Alias(root, skill), skill)
      ensures HasConflict(fs, skills)
    {
      var i := IndexOfAlias(skills, skill, root);
      ReadyIsClassified(fs, Alias(root, skill), skill);
    }
  }

  lemma PublishedByEntries(fs: FileSystem, skills: seq<string>)
    ensures AllPublished(fs, skills)
            <==> forall skill, root: nat :: skill in skills && root < 3 ==> LeadsHome(fs, Alias(root, skill), skill)
  {
    forall i | 0 <= i < |skills| * ALIAS_ROOTS
      ensures IsPublished(fs, skills, i) <==> LeadsHome(fs, AliasAt(skills, i), skills[i / ALIAS_ROOTS])
    {
      ResolvesExactlyAlongChains(fs, AliasAt(skills, i), Canonical(skills[i / ALIAS_ROOTS]));
      AliasOfSkill(skills, i);
    }
    if AllPublished(fs, skills) {
      forall skill, root: nat | skill in skills && root < 3 ensures LeadsHome(fs, Alias(root, skill), skill) {
        var i := IndexOfAlias(skills, skill, root);
        assert IsPublished(fs, skills, i);
      }
    }
  }

  lemma PlanAt(fs: FileSystem, skills: seq<string>, plans: seq<AliasPlan>, skill: string, root: nat) returns (i: nat)
    requires IsPlan(fs, skills, plans) && skill in skills && root < 3
    ensures i < |plans| && plans[i].alias == Alias(root, skill) && plans[i].skill == skill
    ensures plans[i].action.Keep? <==> LeadsHome(fs, Alias(root, skill), skill)
  {
    i := IndexOfAlias(skills, skill, root);
    assert ClassifyAlias(fs, AliasAt(skills, i), skills[i / ALIAS_ROOTS]) == Some(plans[i]);
    ReadyIsClassified(fs, Alias(root, skill), skill);
  }

  lemma KeptIsNotChanged(plans: seq<AliasPlan>, i: nat)
    requires DistinctAliases(plans) && i < |plans| && plans[i].action.Keep?
    ensures !Mentions(Changing(plans), plans[i].alias)
  {
    ChangingDistinct(plans);
    forall c | 0 <= c < |Changing(plans)| ensures Changing(plans)[c].alias != plans[i].alias {
      assert Changing(plans)[c] in plans && !Changing(plans)[c].action.Keep?;
      var j :| 0 <= j < |plans| && plans[j] == Changing(plans)[c];
      assert i < j || j < i;
    }
  }

  lemma OnlyAliasesChange(fs: FileSystem, skills: seq<string>, plans: seq<AliasPlan>, p: Path)
    requires Discovered(fs, skills) && IsPlan(fs, skills, plans)
    requires !(p.Alias? && p.skill in skills && p.root < 3)
    ensures !Mentions(Changing(plans), p)
  {
    PlansAreUndoable(fs, skills, plans);
    ChangingDistinct(plans);
    forall c | 0 <= c < |Changing(plans)| ensures Changing(plans)[c].alias != p {
      assert Changing(plans)[c] in plans;
      var j :| 0 <= j < |plans| && plans[j] == Changing(plans)[c];
      AliasOfSkill(skills, j);
    }
  }

  /** Applying a whole plan makes exactly the promised changes. */
  lemma PlanUpdates(fs: FileSystem, skills: seq<string>, plans: seq<AliasPlan>)
    requires Discovered(fs, skills) && IsPlan(fs, skills, plans)
    ensures IsUpdated(fs, Published(fs, plans), skills)
  {
    var now := Published(fs, plans);
    PlansAreUndoable(fs, skills, plans);
    PublishedAt(fs, plans);
    forall skill, root: nat | skill in skills && root < 3
      ensures var alias := Alias(root, skill);
              if LeadsHome(fs, alias, skill) then Same(now, fs, alias)
              else alias in now && now[alias] == Symlink(Canonical(skill), None)
    {
      var i := PlanAt(fs, skills, plans, skill, root);
      if plans[i].action.Keep? { KeptIsNotChanged(plans, i); }
    }
    forall p: Path | !(p.Alias? && p.skill in skills && p.root < 3) ensures Same(now, fs, p) {
      OnlyAliasesChange(fs, skills, plans, p);
    }
  }

  ghost predicate IsPublished(fs: FileSystem, skills: seq<string>, i: nat)
    requires i < |skills| * ALIAS_ROOTS
  {
    IsAlias(fs, AliasAt(skills, i)) && Resolved(fs, AliasAt(skills, i)) == Some(Canonical(skills[i / ALIAS_ROOTS]))
  }

  /** Every alias is a link that ends at its skill. */
  ghost predicate AllPublished(fs: FileSystem, skills: seq<string>) {
    forall i :: 0 <= i < |skills| * ALIAS_ROOTS ==> IsPublished(fs, skills, i)
  }

  /** Every path that resolved before still resolves, to the same place. */
  ghost predicate StillResolves(before: FileSystem, now: FileSystem) {
    forall p, end :: Resolved(before, p) == Some(end) ==> Resolved(now, p) == Some(end)
  }

  /** A path that resolved before resolves to the same place after, and every alias is published. */
  lemma PublishedResolves(fs: FileSystem, skills: seq<string>, plans: seq<AliasPlan>)
    requires Discovered(fs, skills) && IsPlanUnderFaults(fs, skills, plans)
    ensures StillResolves(fs, Published(fs, plans))
    ensures Discovered(Published(fs, plans), skills) && AllPublished(Published(fs, plans), skills)
  {
    var now := Published(fs, plans);
    WorkingPathsStay(fs, skills, plans);
    forall p, end | Resolved(fs, p) == Some(end) ensures Resolved(now, p) == Some(end) {
      var k := ResolvedReaches(fs, p, {}, end);
      ChainStays(fs, now, p, end, k);
      ResolvesExactlyAlongChains(now, p, end);
    }
    SkillsStay(fs, skills, plans);
    forall i | 0 <= i < |skills| ensures Canonical(skills[i]) in now && now[Canonical(skills[i])] == Directory {
      assert Same(now, fs, Canonical(skills[i]));
    }
    forall i | 0 <= i < |skills| * ALIAS_ROOTS ensures IsPublished(now, skills, i) {
      OneIsPublished(fs, skills, plans, i);
    }
  }

  lemma OneIsPublished(fs: FileSystem, skills: seq<string>, plans: seq<AliasPlan>, i: nat)
    requires Discovered(fs, skills) && IsPlanUnderFaults(fs, skills, plans) && i < |plans|
    requires StillResolves(fs, Published(fs, plans)) && Discovered(Published(fs, plans), skills)
    requires forall x, j: nat, e :: Reaches(fs, x, e, j) ==>
               Same(Published(fs, plans), fs, x) || Shortcut(Published(fs, plans), x, e)
    ensures IsPublished(Published(fs, plans), skills, i)
  {
    PlansAreUndoable(fs, skills, plans);
    PublishedAt(fs, plans);
    if plans[i].action.Keep? {
      assert Planned(fs, AliasAt(skills, i), skills[i / ALIAS_ROOTS], plans[i]);
      ResolvesExactlyAlongChains(fs, plans[i].alias, Canonical(plans[i].skill));
      var k: nat :| Reaches(fs, plans[i].alias, Canonical(plans[i].skill), k);
      assert Same(Published(fs, plans), fs, plans[i].alias)
             || Shortcut(Published(fs, plans), plans[i].alias, Canonical(plans[i].skill));
    } else {
      DirectLinkResolves(Published(fs, plans), plans[i].alias, plans[i].skill);
    }
  }

  lemma {:induction false} KeepingPublishesNothing(fs: FileSystem, plans: seq<AliasPlan>)
    requires forall i :: 0 <= i < |plans| ==> plans[i].action.Keep?
    ensures Published(fs, plans) == fs
    decreases |plans|
  {
    if plans != [] { KeepingPublishesNothing(fs, plans[..|plans| - 1]); }
  }

  lemma PublishedTreeStays(fs: FileSystem, skills: seq<string>, plans: seq<AliasPlan>)
    requires IsPlanUnderFaults(fs, skills, plans)
    ensures AllPublished(fs, skills) && (IsPlan(fs, skills, plans) || !HasLegacyLinks(fs, skills)) ==>
              Published(fs, plans) == fs
  {
    if AllPublished(fs, skills) && (IsPlan(fs, skills, plans) || !HasLegacyLinks(fs, skills)) {
      forall i | 0 <= i < |plans| ensures plans[i].action.Keep? {
        assert IsPublished(fs, skills, i);
        assert Planned(fs, AliasAt(skills, i), skills[i / ALIAS_ROOTS], plans[i]);
      }
      KeepingPublishesNothing(fs, plans);
    }
  }

  /** A published tree classifies as all-keep, and only a published tree does. */
  lemma PublishedIsAllKeep(fs: FileSystem, skills: seq<string>)
    ensures AllPublished(fs, skills) ==> !HasConflict(fs, skills)
    ensures forall plans: seq<AliasPlan> :: IsPlan(fs, skills, plans) ==>
              (AllPublished(fs, skills) <==> forall i :: 0 <= i < |plans| ==> plans[i].action.Keep?)
  {
    forall i | 0 <= i < |skills| * ALIAS_ROOTS
      ensures var alias, skill := AliasAt(skills, i), skills[i / ALIAS_ROOTS];
              IsPublished(fs, skills, i) <==> ClassifyAlias(fs, alias, skill) == Some(AliasPlan(alias, skill, Keep))
    {
    }
    forall plans: seq<AliasPlan> | IsPlan(fs, skills, plans)
      ensures AllPublished(fs, skills) <==> forall i :: 0 <= i < |plans| ==> plans[i].action.Keep?
    {
      forall i | 0 <= i < |plans| ensures IsPublished(fs, skills, i) <==> plans[i].action.Keep? {
        assert ClassifyAlias(fs, AliasAt(skills, i), skills[i / ALIAS_ROOTS]) == Some(plans[i]);
      }
    }
  }

  /** After a completed run a new plan exists, keeps every alias, and applying it changes nothing. */
  lemma SecondRunChangesNothing(fs: FileSystem, skills: seq<string>, plans: seq<AliasPlan>, again: seq<AliasPlan>)
    requires Discovered(fs, skills) && IsPlanUnderFaults(fs, skills, plans)
    ensures !HasConflict(Published(fs, plans), skills)
    ensures IsPlan(Published(fs, plans), skills, again) ==>
              (forall i :: 0 <= i < |again| ==> again[i].action.Keep?)
              && Published(Published(fs, plans), again) == Published(fs, plans)
  {
    PublishedResolves(fs, skills, plans);
    PublishedIsAllKeep(Published(fs, plans), skills);
    if IsPlan(Published(fs, plans), skills, again) { KeepingPublishesNothing(Published(fs, plans), again); }
  }
}
