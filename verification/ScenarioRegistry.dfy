/**
 The loaded scenarios and the start-up check of the enabled profiles, and what the two
 checks together promise the observe phase.
 */
module ScenarioRegistry {
  import opened Basics
  import opened Profiles
  import Ordering
  import opened Scenarios
  import opened ManifestText
  import opened Loading
  import opened ObservePhase
  import opened Polling

  datatype Registry = Registry(manifests: map<string, Manifest>, known: map<string, Profile>)

  /** Implementations by name; a later one replaces an earlier one of the same name. */
  function KnownProfiles(values: seq<Profile>): map<string, Profile> {
    if values == [] then map[]
    else
      var n := |values| - 1;
      KnownProfiles(values[..n])[values[n].name := values[n]]
  }

  lemma {:induction false} KnownIsListed(values: seq<Profile>, name: string)
    requires name in KnownProfiles(values)
    ensures KnownProfiles(values)[name] in values && KnownProfiles(values)[name].name == name
  {
    var n := |values| - 1;
    if values[n].name == name {
    } else {
      KnownIsListed(values[..n], name);
    }
  }

  predicate LastOfName(values: seq<Profile>, name: string, i: int) {
    && 0 <= i < |values| && values[i].name == name
    && forall j :: i < j < |values| ==> values[j].name != name
  }

  /** Every implementation is known by its name, and of several with one name the last. */
  lemma {:induction false} LastOfNameIsKnown(values: seq<Profile>, name: string)
    ensures name in KnownProfiles(values) <==> exists i :: 0 <= i < |values| && values[i].name == name
    ensures name in KnownProfiles(values) ==>
      exists i :: LastOfName(values, name, i) && KnownProfiles(values)[name] == values[i]
  {
    if values == [] {
    } else {
      var n := |values| - 1;
      var front := values[..n];
      LastOfNameIsKnown(front, name);
      if values[n].name == name {
        assert LastOfName(values, name, n);
      } else if name in KnownProfiles(front) {
        var i :| LastOfName(front, name, i) && KnownProfiles(front)[name] == front[i];
        assert values[i].name == name && LastOfName(values, name, i);
      } else {
        forall i | 0 <= i < |values| ensures values[i].name != name {
          if i < n { assert front[i].name != name; }
        }
      }
    }
  }

  // ----- loading a directory

  ghost function EntryOf(doc: RawManifest, known: map<string, Profile>): Option<(string, Manifest)> {
    if Acceptable(doc, known) then Some((doc.id, ManifestOf(doc, known))) else None
  }

  ghost function Reader(known: map<string, Profile>): RawManifest -> Option<(string, Manifest)> {
    doc => EntryOf(doc, known)
  }

  method LoadDir(docs: seq<RawManifest>, implementations: seq<Profile>) returns (r: Built<Registry>)
    ensures r.Ok? <==> Loadable(docs, Reader(KnownProfiles(implementations)))
    ensures r.Ok? ==> r.value.known == KnownProfiles(implementations)
    ensures r.Ok? ==> Loads(docs, Reader(r.value.known), r.value.manifests)
  {
    if |docs| == 0 {
      return Error("no scenario manifests");
    }
    var known := KnownProfiles(implementations);
    var manifests: map<string, Manifest> := map[];
    ghost var read := Reader(known);
    for i := 0 to |docs|
      invariant AllRead(docs[..i], read) && DistinctKeys(docs[..i], read)
      invariant Loads(docs[..i], read, manifests)
    {
      var doc := new Document(docs[i]);
      var built := BuildManifest(doc, known);
      assert read(docs[i]) == if built.Ok? then Some((built.value.id, built.value)) else None;
      if built.Error? {
        return Error(built.message);
      }
      if built.value.id in manifests {
        DuplicateKey(docs, i, read, manifests);
        return Error("duplicate scenario");
      }
      LoadOneMore(docs, i, read, manifests);
      manifests := manifests[built.value.id := built.value];
    }
    assert docs[..|docs|] == docs;
    return Ok(Registry(manifests, known));
  }

  /** The order of the files decides neither whether a directory loads nor what it loads to. */
  lemma FileOrderIsIrrelevant(a: seq<RawManifest>, b: seq<RawManifest>, known: map<string, Profile>,
                              m: map<string, Manifest>, n: map<string, Manifest>)
    requires multiset(a) == multiset(b)
    ensures Loadable(a, Reader(known)) <==> Loadable(b, Reader(known))
    ensures Loads(a, Reader(known), m) && Loads(b, Reader(known), n) ==> m == n
  {
    OrderIsIrrelevant(a, b, Reader(known), m, n);
  }

  // ----- the enabled profiles

  /** An enabled status oracle of `method_` that the scenario has a contract for. */
  ghost predicate Produces(registry: Registry, manifest: Manifest, enabled: seq<string>, method_: CheckMethod,
                           name: string)
  {
    && name in manifest.contracts && name in enabled && name in registry.known
    && registry.known[name].role.StatusOracle? && registry.known[name].method_ == method_
  }

  ghost predicate HasProducer(registry: Registry, manifest: Manifest, enabled: seq<string>, method_: CheckMethod) {
    exists name :: Produces(registry, manifest, enabled, method_, name)
  }

  function DependenciesFor(manifest: Manifest, name: string): seq<Dependency> {
    if name in manifest.dependencies then manifest.dependencies[name] else []
  }

  ghost predicate Produced(registry: Registry, manifest: Manifest, enabled: seq<string>, d: Dependency) {
    && (d.OcspPublished? ==> HasProducer(registry, manifest, enabled, OcspDirect))
    && (d.CrlPublished? ==> HasProducer(registry, manifest, enabled, Crl))
  }

  ghost predicate Runnable(registry: Registry, manifest: Manifest, enabled: seq<string>, name: string) {
    && name in manifest.contracts
    && forall d :: d in DependenciesFor(manifest, name) ==> Produced(registry, manifest, enabled, d)
  }

  ghost predicate ScenarioRunnable(registry: Registry, manifest: Manifest, enabled: seq<string>) {
    forall i :: 0 <= i < |enabled| ==> Runnable(registry, manifest, enabled, enabled[i])
  }

  ghost predicate EnabledRunnable(registry: Registry, enabled: seq<string>) {
    forall id :: id in registry.manifests ==> ScenarioRunnable(registry, registry.manifests[id], enabled)
  }

  method HasEnabledProducer(registry: Registry, manifest: Manifest, enabled: seq<string>, method_: CheckMethod)
    returns (found: bool)
    ensures found <==> HasProducer(registry, manifest, enabled, method_)
  {
    var rest := manifest.contracts.Keys;
    while rest != {}
      invariant rest <= manifest.contracts.Keys
      invariant forall name :: Produces(registry, manifest, enabled, method_, name) ==> name in rest
      decreases |rest|
    {
      var name :| name in rest;
      rest := rest - {name};
      if name in enabled && name in registry.known
         && registry.known[name].role.StatusOracle? && registry.known[name].method_ == method_
      {
        assert Produces(registry, manifest, enabled, method_, name);
        return true;
      }
    }
    return false;
  }

  method CheckScenario(registry: Registry, manifest: Manifest, enabled: seq<string>) returns (ok: bool)
    ensures ok <==> ScenarioRunnable(registry, manifest, enabled)
  {
    for i := 0 to |enabled|
      invariant forall k :: 0 <= k < i ==> Runnable(registry, manifest, enabled, enabled[k])
    {
      var profile := enabled[i];
      if profile !in manifest.contracts {
        assert !Runnable(registry, manifest, enabled, enabled[i]);
        return false;
      }
      var dependencies := DependenciesFor(manifest, profile);
      for k := 0 to |dependencies|
        invariant forall j :: 0 <= j < k ==> Produced(registry, manifest, enabled, dependencies[j])
      {
        var produced := true;
        match dependencies[k] {
          case OcspPublished => produced := HasEnabledProducer(registry, manifest, enabled, OcspDirect);
          case CrlPublished => produced := HasEnabledProducer(registry, manifest, enabled, Crl);
          case _ =>
        }
        assert produced <==> Produced(registry, manifest, enabled, dependencies[k]);
        if !produced {
          assert dependencies[k] in DependenciesFor(manifest, profile);
          assert !Runnable(registry, manifest, enabled, enabled[i]);
          return false;
        }
      }
    }
    return true;
  }

  method ValidateEnabledProfiles(registry: Registry, enabled: seq<string>) returns (ok: bool)
    ensures ok <==> EnabledRunnable(registry, enabled)
  {
    var rest := registry.manifests.Keys;
    while rest != {}
      invariant rest <= registry.manifests.Keys
      invariant forall id :: id in registry.manifests.Keys - rest ==>
        ScenarioRunnable(registry, registry.manifests[id], enabled)
      decreases |rest|
    {
      var id :| id in rest;
      var runnable := CheckScenario(registry, registry.manifests[id], enabled);
      if !runnable {
        return false;
      }
      rest := rest - {id};
    }
    return true;
  }

  // ----- what the observe phase may rely on

  /** What the runner looks up for one implementation before it observes a scenario. */
  function MemberOf(manifest: Manifest, enabled: seq<string>, p: Profile): Member {
    Member(p, p.name in enabled,
           if p.name in manifest.dependencies then Some(manifest.dependencies[p.name]) else None,
           if p.name in manifest.contracts then Some(manifest.contracts[p.name]) else None)
  }

  function SetupFor(manifest: Manifest, implementations: seq<Profile>, enabled: seq<string>, config: PollConfig,
                    ackAt: int): (r: Setup)
    ensures |r.members| == |implementations|
  {
    Setup(seq(|implementations|, i requires 0 <= i < |implementations| =>
              MemberOf(manifest, enabled, implementations[i])),
          config, manifest.stapling == "on", ackAt)
  }

  /** The boundary exists and some goroutine of the phase is charged with resolving it. */
  ghost predicate HasResolver(setup: Setup, d: Dependency) {
    match d
    case IssuerAck => true
    case OcspPublished => exists i :: 0 <= i < |setup.members| && IsOracle(setup.members[i], OcspDirect)
    case CrlPublished => exists i :: 0 <= i < |setup.members| && IsOracle(setup.members[i], Crl)
    case StaplePublished => setup.staplingOn
    case Unlisted(_) => false
  }

  lemma TypedListFacts(role: Role, stapling: string, names: seq<string>)
    requires GoodDependencies(role, stapling, names)
    ensures var ds := Dependencies(Ordering.Sort(names));
      && ds != []
      && (forall d :: d in ds ==> !d.Unlisted? && (d.StaplePublished? ==> stapling == "on"))
      && (role.StatusOracle? ==> ds == [IssuerAck])
  {
    var sorted := Ordering.Sort(names);
    SortKeeps(names);
    forall i | 0 <= i < |sorted| ensures AllowedDependency(role, stapling, sorted[i]) {
      assert sorted[i] in names;
    }
    if role.StatusOracle? {
      assert forall i :: 0 <= i < |sorted| ==> sorted[i] == "issuer_ack";
      assert |sorted| <= 1;
    }
  }

  /** What a built manifest guarantees about the boundaries of a profile it has a contract for. */
  ghost predicate GoodBoundaries(manifest: Manifest, role: Role, name: string) {
    && name in manifest.dependencies && manifest.dependencies[name] != []
    && (forall d :: d in manifest.dependencies[name] ==>
        !d.Unlisted? && (d.StaplePublished? ==> manifest.stapling == "on"))
    && (role.StatusOracle? ==> manifest.dependencies[name] == [IssuerAck])
  }

  lemma AcceptedDependencies(raw: RawManifest, known: map<string, Profile>, name: string)
    requires Acceptable(raw, known) && name in raw.profiles
    ensures GoodBoundaries(ManifestOf(raw, known), known[name].role, name)
  {
    assert name in raw.dependencies;
    TypedListFacts(known[name].role, raw.stapling, raw.dependencies[name]);
  }

  lemma LoadedDependencies(docs: seq<RawManifest>, registry: Registry, scenario: string, name: string)
    requires Loads(docs, Reader(registry.known), registry.manifests) && scenario in registry.manifests
    requires name in registry.manifests[scenario].contracts
    ensures name in registry.known
    ensures GoodBoundaries(registry.manifests[scenario], registry.known[name].role, name)
  {
    var k := EntryFor(docs, Reader(registry.known), scenario, registry.manifests);
    assert EntryOf(docs[k], registry.known).Some?;
    AcceptedDependencies(docs[k], registry.known, name);
  }

  lemma {:induction false} ProducerIsOracle(registry: Registry, manifest: Manifest, implementations: seq<Profile>,
                                            enabled: seq<string>,
                         config: PollConfig, ackAt: int, method_: CheckMethod)
    requires registry.known == KnownProfiles(implementations) && HasProducer(registry, manifest, enabled, method_)
    ensures var setup := SetupFor(manifest, implementations, enabled, config, ackAt);
      exists i :: 0 <= i < |setup.members| && IsOracle(setup.members[i], method_)
  {
    var setup := SetupFor(manifest, implementations, enabled, config, ackAt);
    var name :| Produces(registry, manifest, enabled, method_, name);
    KnownIsListed(implementations, name);
    var i :| 0 <= i < |implementations| && implementations[i] == registry.known[name];
    assert IsOracle(setup.members[i], method_);
  }

  /** A member of the phase whose contract is there and whose every boundary somebody resolves. */
  ghost predicate WellGated(setup: Setup, m: Member) {
    && m.contract.Some? && m.dependencies.Some? && m.dependencies.value != []
    && forall d :: d in m.dependencies.value ==> HasResolver(setup, d)
  }

  lemma {:induction false} BoundariesResolve(registry: Registry, manifest: Manifest, implementations: seq<Profile>,
                                             enabled: seq<string>,
                                             config: PollConfig, ackAt: int, i: nat)
    requires registry.known == KnownProfiles(implementations)
    requires i < |implementations| && implementations[i].name in registry.known
    requires Runnable(registry, manifest, enabled, implementations[i].name)
    requires GoodBoundaries(manifest, registry.known[implementations[i].name].role, implementations[i].name)
    ensures var setup := SetupFor(manifest, implementations, enabled, config, ackAt);
      && WellGated(setup, setup.members[i])
      && (registry.known[implementations[i].name].role.StatusOracle? ==>
          setup.members[i].dependencies == Some([IssuerAck]))
  {
    var setup := SetupFor(manifest, implementations, enabled, config, ackAt);
    var name := implementations[i].name;
    forall d | d in manifest.dependencies[name] ensures HasResolver(setup, d) {
      assert Produced(registry, manifest, enabled, d);
      if d.OcspPublished? {
        ProducerIsOracle(registry, manifest, implementations, enabled, config, ackAt, OcspDirect);
      } else if d.CrlPublished? {
        ProducerIsOracle(registry, manifest, implementations, enabled, config, ackAt, Crl);
      }
    }
  }

  /**
   A scenario that was built and accepted for the enabled profiles leaves none of them waiting on a boundary
   nobody produces.
   */
  lemma {:induction false} AcceptedScenarioIsWellGated(
    docs: seq<RawManifest>, registry: Registry, implementations: seq<Profile>, enabled: seq<string>,
    scenario: string, config: PollConfig, ackAt: int, i: nat)
    requires registry.known == KnownProfiles(implementations) && Loads(docs, Reader(registry.known), registry.manifests)
    requires EnabledRunnable(registry, enabled) && scenario in registry.manifests
    requires i < |implementations| && implementations[i].name in enabled
    ensures implementations[i].name in registry.known
    ensures var setup := SetupFor(registry.manifests[scenario], implementations, enabled, config, ackAt);
      && WellGated(setup, setup.members[i])
      && (registry.known[implementations[i].name].role.StatusOracle? ==>
          setup.members[i].dependencies == Some([IssuerAck]))
  {
    var manifest := registry.manifests[scenario];
    var name := implementations[i].name;
    assert Runnable(registry, manifest, enabled, name);
    LoadedDependencies(docs, registry, scenario, name);
    BoundariesResolve(registry, manifest, implementations, enabled, config, ackAt, i);
  }

  /** Every reason a manifest may name explains exactly one decision. */
  lemma ReasonExplainsOneDecision(reason: string)
    ensures ValidReason(reason) <==> exists d :: ReasonCompatible(d, reason)
    ensures forall d, e :: ReasonCompatible(d, reason) && ReasonCompatible(e, reason) ==> d == e
  {
    if reason in ACCEPT_REASONS { assert ReasonCompatible(Accept, reason); }
    else if reason in INCONCLUSIVE_REASONS { assert ReasonCompatible(Inconclusive, reason); }
    else if reason in HARNESS_REASONS { assert ReasonCompatible(HarnessError, reason); }
    else if reason in REJECT_REASONS { assert ReasonCompatible(Reject, reason); }
  }
}
