/** Building the registry of collector plugins. */
module PluginRegistry {
  import opened Options

  type PluginId = string
  type MetricKey = string

  datatype Plugin = Plugin(id: PluginId, keys: seq<MetricKey>)

  /** A floating-point number: a time-out may be configured as any of these. */
  datatype Float = Finite(value: real) | PlusInfinity | MinusInfinity | NaN

  /** `x <= 0`, which NaN never is. */
  predicate AtMostZero(x: Float) {
    x.MinusInfinity? || (x.Finite? && x.value <= 0.0)
  }

  datatype Config = Config(enabled: bool, interval: int, timeout: Float)

  /** A discovered plugin with what its manifest check and its settings gave. `broken` is a plugin
      whose manifest cannot be read; it is registered under `candidateId`. `interval` and `timeout`
      are None when the configured text is not a number; `valuesOk` says the config is a table. */
  datatype Candidate = Candidate(plugin: Plugin, candidateId: PluginId, broken: bool, invalid: bool, enabled: bool,
                                 interval: Option<int>, timeout: Option<Float>, valuesOk: bool)

  datatype Status = Enabled | Disabled | Failed

  datatype Registration = Registration(pluginId: PluginId, plugin: Option<Plugin>, config: Option<Config>,
                                       status: Status)

  type Registrations = map<PluginId, Registration>

  function Broken(id: PluginId): Registration {
    Registration(id, None, None, Failed)
  }

  /** The checked configuration; None is a configuration error. */
  function ConfigOf(c: Candidate): (r: Option<Config>)
    ensures r.Some? ==> r.value.interval >= 10 && !AtMostZero(r.value.timeout)
  {
    if c.interval.Some? && c.timeout.Some? && c.interval.value >= 10 && !AtMostZero(c.timeout.value) && c.valuesOk
    then Some(Config(c.enabled, c.interval.value, c.timeout.value)) else None
  }

  /** The check asks whether the time-out is at most zero, so it lets NaN pass: an accepted
      time-out is positive exactly if it is a number. */
  lemma AcceptedTimeoutIsPositiveExactly(c: Candidate)
    requires ConfigOf(c).Some?
    ensures var timeout := ConfigOf(c).value.timeout;
            timeout.PlusInfinity? || (timeout.Finite? && timeout.value > 0.0) <==> c.timeout != Some(NaN)
  {
  }

  lemma NaNTimeoutIsAccepted(plugin: Plugin)
    ensures ConfigOf(Candidate(plugin, plugin.id, false, false, true, Some(60), Some(NaN), true))
              == Some(Config(true, 60, NaN))
  {
  }

  /** Claims keys in order until one has an owner already. */
  method ClaimKeys(owners: map<MetricKey, PluginId>, id: PluginId, keys: seq<MetricKey>)
    returns (claimed: map<MetricKey, PluginId>, clash: bool)
    ensures forall k :: k in owners ==> k in claimed && claimed[k] == owners[k]
    ensures forall k :: k in claimed && k !in owners ==> k in keys && claimed[k] == id
    ensures clash <==> !ClaimsFreely(owners.Keys, keys)
    ensures claimed.Keys == owners.Keys + ClaimedKeys(owners.Keys, keys)
    ensures !clash ==> forall i :: 0 <= i < |keys| ==> keys[i] in claimed && claimed[keys[i]] == id
  {
    claimed := owners;
    for i := 0 to |keys|
      invariant forall k :: k in owners ==> k in claimed && claimed[k] == owners[k]
      invariant forall k :: k in claimed <==> k in owners || k in keys[..i]
      invariant forall k :: k in claimed && k !in owners ==> claimed[k] == id
      invariant ClaimsFreely(owners.Keys, keys[..i])
    {
      if keys[i] in claimed {
        if keys[i] !in owners {
          var j :| 0 <= j < i && keys[j] == keys[i];
        }
        ClaimedUpToClash(owners.Keys, keys, i);
        return claimed, true;
      }
      claimed := claimed[keys[i] := id];
      assert keys[..i + 1] == keys[..i] + [keys[i]];
    }
    assert keys[..|keys|] == keys;
    ClaimedWithoutClash(owners.Keys, keys);
    clash := false;
  }

  /** No key has an owner or is named twice. */
  ghost predicate ClaimsFreely(owned: set<MetricKey>, keys: seq<MetricKey>) {
    && (forall i :: 0 <= i < |keys| ==> keys[i] !in owned)
    && (forall i, j :: 0 <= i < j < |keys| ==> keys[i] != keys[j])
  }

  /** The keys before the first one that has an owner or is named for the second time. */
  ghost function ClaimedKeys(owned: set<MetricKey>, keys: seq<MetricKey>): set<MetricKey> {
    set i | 0 <= i < |keys| && FreeUpTo(owned, keys, i) :: keys[i]
  }

  ghost predicate FreeUpTo(owned: set<MetricKey>, keys: seq<MetricKey>, i: nat)
    requires i < |keys|
  {
    ClaimsFreely(owned, keys[..i + 1])
  }

  lemma ClaimedUpToClash(owned: set<MetricKey>, keys: seq<MetricKey>, i: nat)
    requires i < |keys| && ClaimsFreely(owned, keys[..i]) && (keys[i] in owned || keys[i] in keys[..i])
    ensures forall k :: k in ClaimedKeys(owned, keys) <==> k in keys[..i]
  {
    forall k | k in keys[..i] ensures k in ClaimedKeys(owned, keys) {
      var j :| 0 <= j < i && keys[..i][j] == k;
      PrefixClaimsFreely(owned, keys, i, j);
    }
    forall j | i <= j < |keys| ensures !FreeUpTo(owned, keys, j) {
      NotFreePastClash(owned, keys, i, j);
    }
  }

  lemma NotFreePastClash(owned: set<MetricKey>, keys: seq<MetricKey>, i: nat, j: nat)
    requires i <= j < |keys| && (keys[i] in owned || keys[i] in keys[..i])
    ensures !FreeUpTo(owned, keys, j)
  {
    var front := keys[..j + 1];
    assert front[i] == keys[i];
    if keys[i] in keys[..i] {
      var m :| 0 <= m < i && keys[..i][m] == keys[i];
      assert front[m] == front[i];
    }
  }

  lemma PrefixClaimsFreely(owned: set<MetricKey>, keys: seq<MetricKey>, i: nat, j: nat)
    requires j < i <= |keys| && ClaimsFreely(owned, keys[..i])
    ensures FreeUpTo(owned, keys, j)
  {
    assert keys[..j + 1] == keys[..i][..j + 1];
  }

  lemma ClaimedWithoutClash(owned: set<MetricKey>, keys: seq<MetricKey>)
    requires ClaimsFreely(owned, keys)
    ensures forall k :: k in ClaimedKeys(owned, keys) <==> k in keys
  {
    assert keys[..|keys|] == keys;
    forall k | k in keys ensures k in ClaimedKeys(owned, keys) {
      var j :| 0 <= j < |keys| && keys[j] == k;
      PrefixClaimsFreely(owned, keys, |keys|, j);
    }
  }

  ghost predicate EnabledProperly(r: Registration) {
    && r.plugin.Some? && r.plugin.value.id == r.pluginId
    && r.config.Some? && r.config.value.enabled && r.config.value.interval >= 10
    && !AtMostZero(r.config.value.timeout)
    && (forall i, j :: 0 <= i < j < |r.plugin.value.keys| ==> r.plugin.value.keys[i] != r.plugin.value.keys[j])
  }

  /** What the loop keeps: every key of an enabled plugin belongs to it. */
  ghost predicate Owned(registry: Registrations, owners: map<MetricKey, PluginId>) {
    forall id :: id in registry ==>
      && registry[id].pluginId == id
      && (registry[id].status == Enabled ==>
            EnabledProperly(registry[id])
            && forall k :: k in registry[id].plugin.value.keys ==> k in owners && owners[k] == id)
  }

  /** The id of candidate `i` is known before the candidate is looked at. */
  ghost predicate Seen(discovered: Registrations, candidates: seq<Candidate>, i: nat)
    requires i < |candidates|
  {
    IdOf(candidates[i]) in discovered || exists j :: 0 <= j < i && IdOf(candidates[j]) == IdOf(candidates[i])
  }

  /** The keys that have an owner when candidate `n` is looked at. An enabled candidate claims its
      keys also when something else is wrong with it. */
  ghost function OwnedBefore(discovered: Registrations, candidates: seq<Candidate>, n: nat): set<MetricKey>
    requires n <= |candidates|
  {
    if n == 0 then {} else
    var owned, c := OwnedBefore(discovered, candidates, n - 1), candidates[n - 1];
    if c.broken || !c.enabled || Seen(discovered, candidates, n - 1) then owned
    else owned + ClaimedKeys(owned, c.plugin.keys)
  }

  /** Everything that makes one of the first `n` candidates end as failed. */
  ghost predicate Fails(discovered: Registrations, candidates: seq<Candidate>, n: nat, i: nat)
    requires i < n <= |candidates|
  {
    var c := candidates[i];
    || c.broken || c.invalid || IdOf(c) in discovered
    || (exists j :: 0 <= j < n && j != i && IdOf(candidates[j]) == IdOf(c))
    || c.interval.None? || c.interval.value < 10 || !c.valuesOk
    || c.timeout.None? || c.timeout == Some(MinusInfinity)
    || (c.timeout.value.Finite? && c.timeout.value.value <= 0.0)
    || (c.enabled && exists a :: 0 <= a < |c.plugin.keys| && Clashes(discovered, candidates, i, a))
  }

  /** Key `a` of candidate `i` has an owner already or is named a second time. */
  ghost predicate Clashes(discovered: Registrations, candidates: seq<Candidate>, i: nat, a: nat)
    requires i < |candidates| && a < |candidates[i].plugin.keys|
  {
    var keys := candidates[i].plugin.keys;
    keys[a] in OwnedBefore(discovered, candidates, i) || keys[a] in keys[..a]
  }

  lemma ClashOrFree(discovered: Registrations, candidates: seq<Candidate>, i: nat)
    requires i < |candidates|
    ensures var keys := candidates[i].plugin.keys;
            (exists a :: 0 <= a < |keys| && Clashes(discovered, candidates, i, a))
            <==> !ClaimsFreely(OwnedBefore(discovered, candidates, i), keys)
  {
    var keys := candidates[i].plugin.keys;
    if a, b :| 0 <= a < b < |keys| && keys[a] == keys[b] {
      assert keys[..b][a] == keys[b];
      assert Clashes(discovered, candidates, i, b);
    }
    if a :| 0 <= a < |keys| && keys[a] in OwnedBefore(discovered, candidates, i) {
      assert Clashes(discovered, candidates, i, a);
    }
  }

  ghost predicate Explained(candidates: seq<Candidate>, n: nat, k: MetricKey)
    requires n <= |candidates|
  {
    exists j :: 0 <= j < n && Claims(candidates[j], k)
  }

  /** Owned keys were claimed by enabled candidates. */
  lemma {:induction false} OwnedIsExplained(discovered: Registrations, candidates: seq<Candidate>, n: nat)
    requires n <= |candidates|
    ensures forall k :: k in OwnedBefore(discovered, candidates, n) ==> Explained(candidates, n, k)
  {
    if n > 0 {
      OwnedIsExplained(discovered, candidates, n - 1);
      forall k | k in OwnedBefore(discovered, candidates, n) ensures Explained(candidates, n, k) {
        if k in OwnedBefore(discovered, candidates, n - 1) {
          assert Explained(candidates, n - 1, k);
        } else {
          assert Claims(candidates[n - 1], k);
        }
      }
    }
  }

  lemma FlawlessDoesNotFail(discovered: Registrations, candidates: seq<Candidate>, i: nat)
    requires i < |candidates| && Flawless(discovered, candidates, i)
    ensures !Fails(discovered, candidates, |candidates|, i)
  {
    OwnedIsExplained(discovered, candidates, i);
    ClashOrFree(discovered, candidates, i);
    var c := candidates[i];
    if c.enabled {
      forall a | 0 <= a < |c.plugin.keys| ensures c.plugin.keys[a] !in OwnedBefore(discovered, candidates, i) {
        assert c.plugin.keys[a] in c.plugin.keys;
        assert !Explained(candidates, i, c.plugin.keys[a]);
      }
    }
  }

  predicate Claims(c: Candidate, k: MetricKey) {
    !c.broken && c.enabled && k in c.plugin.keys
  }

  /** Enabled plugins have distinct ids, an interval of at least ten seconds, and no metric key in
      common. */
  ghost predicate Sound(registry: Registrations) {
    && (forall id :: id in registry ==>
      registry[id].pluginId == id && (registry[id].status == Enabled ==> EnabledProperly(registry[id])))
    && (forall a, b ::
          a in registry && b in registry && a != b && registry[a].status == Enabled && registry[b].status == Enabled ==>
          forall k :: k in registry[a].plugin.value.keys ==> k !in registry[b].plugin.value.keys)
  }

  lemma OwnersSeparate(registry: Registrations, owners: map<MetricKey, PluginId>)
    requires Owned(registry, owners)
    ensures Sound(registry)
  {
  }

  /** Nothing is wrong with candidate `i`, and nothing else wants its id or its keys. */
  ghost predicate Flawless(discovered: Registrations, candidates: seq<Candidate>, i: nat)
    requires i < |candidates|
  {
    var c := candidates[i];
    && !c.broken && !c.invalid && ConfigOf(c).Some? && c.plugin.id !in discovered
    && (forall j :: 0 <= j < |candidates| && j != i ==> IdOf(candidates[j]) != c.plugin.id)
    && (c.enabled ==> (forall a, b :: 0 <= a < b < |c.plugin.keys| ==> c.plugin.keys[a] != c.plugin.keys[b])
                      && forall j, k :: 0 <= j < |candidates| && j != i && Claims(candidates[j], k) ==>
                        k !in c.plugin.keys)
  }

  ghost predicate RegisteredAs(registry: Registrations, c: Candidate) {
    && c.plugin.id in registry && registry[c.plugin.id].plugin == Some(c.plugin)
    && registry[c.plugin.id].status == (if c.enabled then Enabled else Disabled)
    && c.interval.Some? && c.timeout.Some?
    && registry[c.plugin.id].config == Some(Config(c.enabled, c.interval.value, c.timeout.value))
  }

  ghost predicate Unopposed(c: Candidate, registry: Registrations, owners: map<MetricKey, PluginId>) {
    && !c.broken && !c.invalid && ConfigOf(c).Some? && c.plugin.id !in registry
    && (c.enabled ==> ClaimsFreely(owners.Keys, c.plugin.keys))
  }

  /** One turn of the loop over the candidates. */
  method RegisterOne(registry: Registrations, owners: map<MetricKey, PluginId>, c: Candidate)
    returns (after: Registrations, claimed: map<MetricKey, PluginId>)
    requires Owned(registry, owners)
    ensures Owned(after, claimed)
    ensures after.Keys == registry.Keys + {IdOf(c)} && forall id :: id in registry && id != IdOf(c) ==>
              after[id] == registry[id]
    ensures forall k :: k in claimed ==> k in owners || Claims(c, k)
    ensures claimed.Keys == owners.Keys + if c.broken || !c.enabled || IdOf(c) in registry then {}
                                          else ClaimedKeys(owners.Keys, c.plugin.keys)
    ensures if Unopposed(c, registry, owners) then RegisteredAs(after, c) else after[IdOf(c)].status == Failed
  {
    var id := IdOf(c);
    claimed := owners;
    if c.broken { return registry[id := Broken(id)], owners; }
    if id in registry { return registry[id := registry[id].(status := Failed)], owners; }
    var config := ConfigOf(c);
    var failed := c.invalid || config.None?;
    if c.enabled {
      var clash;
      claimed, clash := ClaimKeys(owners, id, c.plugin.keys);
      failed := failed || clash;
    }
    var status := if failed then Failed else if c.enabled then Enabled else Disabled;
    after := registry[id := Registration(id, Some(c.plugin), config, status)];
  }

  /** `discovered` are the failures known before any candidate is looked at, `configured` the
      plugin ids that the configuration file names. */
  method BuildRegistry(discovered: Registrations, candidates: seq<Candidate>, configured: set<PluginId>)
    returns (registry: Registrations)
    requires forall id :: id in discovered ==> discovered[id].pluginId == id && discovered[id].status == Failed
    ensures Sound(registry)
    ensures forall i :: 0 <= i < |candidates| && Flawless(discovered, candidates, i) ==>
              RegisteredAs(registry, candidates[i])
    ensures forall i :: 0 <= i < |candidates| ==> EndsRight(discovered, candidates, |candidates|, registry, i)
    ensures registry.Keys == discovered.Keys + (set i | 0 <= i < |candidates| :: IdOf(candidates[i])) + configured
  {
    registry := discovered;
    var owners: map<MetricKey, PluginId> := map[];
    for i := 0 to |candidates|
      invariant Built(discovered, candidates, i, registry, owners)
    {
      ghost var before, owned := registry, owners;
      registry, owners := RegisterOne(registry, owners, candidates[i]);
      OneMoreBuilt(discovered, candidates, i, before, owned, registry, owners);
    }
    OwnersSeparate(registry, owners);
    StaysRight(discovered, candidates, registry, map id | id in configured - registry.Keys :: Broken(id));
    registry := registry + map id | id in configured - registry.Keys :: Broken(id);
  }

  lemma StaysRight(discovered: Registrations, candidates: seq<Candidate>, registry: Registrations,
                   more: Registrations)
    requires registry.Keys !! more.Keys
    requires forall i :: 0 <= i < |candidates| ==> EndsRight(discovered, candidates, |candidates|, registry, i)
    ensures forall i :: 0 <= i < |candidates| ==> EndsRight(discovered, candidates, |candidates|, registry + more, i)
    ensures forall i :: 0 <= i < |candidates| && Flawless(discovered, candidates, i) ==>
              RegisteredAs(registry + more, candidates[i])
  {
    forall i | 0 <= i < |candidates|
      ensures EndsRight(discovered, candidates, |candidates|, registry + more, i)
      ensures Flawless(discovered, candidates, i) ==> RegisteredAs(registry + more, candidates[i])
    {
      assert EndsRight(discovered, candidates, |candidates|, registry, i);
      if Flawless(discovered, candidates, i) { FlawlessDoesNotFail(discovered, candidates, i); }
    }
  }

  /** What the loop keeps before candidate `i`. */
  ghost predicate Built(discovered: Registrations, candidates: seq<Candidate>, i: nat, registry: Registrations,
                        owners: map<MetricKey, PluginId>)
    requires i <= |candidates|
  {
    && Owned(registry, owners) && Counted(discovered, candidates, i, registry.Keys, owners.Keys)
    && Settled(discovered, candidates, i, registry)
  }

  ghost predicate Counted(discovered: Registrations, candidates: seq<Candidate>, n: nat, ids: set<PluginId>,
                          owned: set<MetricKey>)
    requires n <= |candidates|
  {
    ids == discovered.Keys + IdsBefore(candidates, n) && owned == OwnedBefore(discovered, candidates, n)
  }

  ghost predicate Settled(discovered: Registrations, candidates: seq<Candidate>, n: nat, registry: Registrations)
    requires n <= |candidates|
  {
    && (forall id :: id in discovered ==> id in registry && registry[id].status == Failed)
    && (forall j :: 0 <= j < n ==> EndsRight(discovered, candidates, n, registry, j))
  }

  /** Candidate `j` is failed exactly for one of the reasons, and otherwise registered as it is configured. */
  ghost predicate EndsRight(discovered: Registrations, candidates: seq<Candidate>, n: nat, registry: Registrations,
                            j: nat)
    requires j < n <= |candidates|
  {
    var id := if candidates[j].broken then candidates[j].candidateId else candidates[j].plugin.id;
    && id in registry
    && if Fails(discovered, candidates, n, j) then registry[id].status == Failed
       else RegisteredAs(registry, candidates[j])
  }

  lemma NewEndsRight(discovered: Registrations, candidates: seq<Candidate>, i: nat, registry: Registrations,
                     owners: map<MetricKey, PluginId>, after: Registrations)
    requires i < |candidates| && Built(discovered, candidates, i, registry, owners) && IdOf(candidates[i]) in after
    requires if Unopposed(candidates[i], registry, owners) then RegisteredAs(after, candidates[i])
             else after[IdOf(candidates[i])].status == Failed
    ensures EndsRight(discovered, candidates, i + 1, after, i)
  {
    ClashOrFree(discovered, candidates, i);
  }

  lemma OldEndsRight(discovered: Registrations, candidates: seq<Candidate>, i: nat, registry: Registrations,
                     owners: map<MetricKey, PluginId>, after: Registrations, j: nat)
    requires j < i < |candidates| && Built(discovered, candidates, i, registry, owners)
    requires after.Keys == registry.Keys + {IdOf(candidates[i])}
    requires forall id :: id in registry && id != IdOf(candidates[i]) ==> after[id] == registry[id]
    requires if Unopposed(candidates[i], registry, owners) then RegisteredAs(after, candidates[i])
             else after[IdOf(candidates[i])].status == Failed
    ensures EndsRight(discovered, candidates, i + 1, after, j)
  {
    assert EndsRight(discovered, candidates, i, registry, j);
    if IdOf(candidates[j]) == IdOf(candidates[i]) {
      assert !Unopposed(candidates[i], registry, owners);
    } else {
      assert Fails(discovered, candidates, i + 1, j) == Fails(discovered, candidates, i, j);
    }
  }

  lemma OneMoreBuilt(discovered: Registrations, candidates: seq<Candidate>, i: nat, registry: Registrations,
                     owners: map<MetricKey, PluginId>, after: Registrations, claimed: map<MetricKey, PluginId>)
    requires i < |candidates| && Built(discovered, candidates, i, registry, owners) && Owned(after, claimed)
    requires after.Keys == registry.Keys + {IdOf(candidates[i])}
    requires forall id :: id in registry && id != IdOf(candidates[i]) ==> after[id] == registry[id]
    requires claimed.Keys == owners.Keys
             + if candidates[i].broken || !candidates[i].enabled || IdOf(candidates[i]) in registry then {}
               else ClaimedKeys(owners.Keys, candidates[i].plugin.keys)
    requires if Unopposed(candidates[i], registry, owners) then RegisteredAs(after, candidates[i])
             else after[IdOf(candidates[i])].status == Failed
    ensures Built(discovered, candidates, i + 1, after, claimed)
  {
    AllEndRight(discovered, candidates, i, registry, owners, after, i + 1);
    OneMoreCounted(discovered, candidates, i, registry.Keys, owners.Keys, claimed.Keys);
  }

  function IdsBefore(candidates: seq<Candidate>, n: nat): set<PluginId>
    requires n <= |candidates|
  {
    set j | 0 <= j < n :: IdOf(candidates[j])
  }

  lemma IdsGrow(candidates: seq<Candidate>, i: nat)
    requires i < |candidates|
    ensures IdsBefore(candidates, i + 1) == IdsBefore(candidates, i) + {IdOf(candidates[i])}
  {
  }

  lemma OneMoreCounted(discovered: Registrations, candidates: seq<Candidate>, i: nat, ids: set<PluginId>,
                       owned: set<MetricKey>, claimed: set<MetricKey>)
    requires i < |candidates| && Counted(discovered, candidates, i, ids, owned)
    requires claimed == owned + if candidates[i].broken || !candidates[i].enabled || IdOf(candidates[i]) in ids then {}
                                else ClaimedKeys(owned, candidates[i].plugin.keys)
    ensures Counted(discovered, candidates, i + 1, ids + {IdOf(candidates[i])}, claimed)
  {
    IdsGrow(candidates, i);
    assert Seen(discovered, candidates, i) <==> IdOf(candidates[i]) in ids;
  }

  lemma AllEndRight(discovered: Registrations, candidates: seq<Candidate>, i: nat, registry: Registrations,
                    owners: map<MetricKey, PluginId>, after: Registrations, n: nat)
    requires i < |candidates| && n == i + 1 && Built(discovered, candidates, i, registry, owners)
    requires after.Keys == registry.Keys + {IdOf(candidates[i])}
    requires forall id :: id in registry && id != IdOf(candidates[i]) ==> after[id] == registry[id]
    requires if Unopposed(candidates[i], registry, owners) then RegisteredAs(after, candidates[i])
             else after[IdOf(candidates[i])].status == Failed
    ensures Settled(discovered, candidates, n, after)
  {
    NewEndsRight(discovered, candidates, i, registry, owners, after);
    forall j | 0 <= j < i ensures EndsRight(discovered, candidates, n, after, j) {
      OldEndsRight(discovered, candidates, i, registry, owners, after, j);
    }
  }

  function IdOf(c: Candidate): PluginId {
    if c.broken then c.candidateId else c.plugin.id
  }
}
