/**
 Scenario manifests: parsing and building one document, loading a directory of them, and
 the check that the enabled profiles can run every scenario. Lists keep their order in the
 document; the canonical JSON is taken of the sorted document.
 */
module Scenarios {
  import opened Basics
  import opened Profiles
  import opened Ordering
  import opened ManifestText
  import EnvelopeText

  /** A built manifest; `canonical` is the JSON of the normalized document, which its digest is taken over. */
  datatype Manifest = Manifest(
    id: string, dependencies: map<string, seq<Dependency>>, contracts: map<string, Contract>, stapling: string,
    canonical: EnvelopeText.Bytes)

  datatype Built<+T> = Ok(value: T) | Error(message: string)

  const VERSION := 1

  // ----- vocabulary

  function DecisionOf(text: string): Option<Decision> {
    if text == "ACCEPT" then Some(Accept)
    else if text == "REJECT" then Some(Reject)
    else if text == "INCONCLUSIVE" then Some(Inconclusive)
    else if text == "HARNESS_ERROR" then Some(HarnessError)
    else None
  }

  const ACCEPT_REASONS: set<Reason> := {"STATUS_GOOD", "NO_REVOCATION_CHECK"}
  const INCONCLUSIVE_REASONS: set<Reason> := {"NETWORK_FAILURE", "TLS_FAILURE"}
  const HARNESS_REASONS: set<Reason> := {HARNESS_FAILURE}
  const REJECT_REASONS: set<Reason> := {
    REVOKED, "EXPIRED", "MISSING_STATUS", "INVALID_STATUS", "STALE_STATUS", "FUTURE_STATUS",
    "MISSING_FRESHNESS_BOUND", "UNKNOWN_STATUS", "CLIENT_POLICY"}

  predicate ValidReason(reason: string) {
    reason in ACCEPT_REASONS + INCONCLUSIVE_REASONS + HARNESS_REASONS + REJECT_REASONS
  }

  predicate ReasonCompatible(decision: Decision, reason: Reason) {
    if reason in ACCEPT_REASONS then decision == Accept
    else if reason in INCONCLUSIVE_REASONS then decision == Inconclusive
    else if reason in HARNESS_REASONS then decision == HarnessError
    else if reason in REJECT_REASONS then decision == Reject
    else false
  }

  function DependencyOf(name: string): Dependency {
    if name == "issuer_ack" then IssuerAck
    else if name == "ocsp_published" then OcspPublished
    else if name == "crl_published" then CrlPublished
    else if name == "staple_published" then StaplePublished
    else Unlisted(name)
  }

  predicate KnownEvidence(name: string) { !DependencyOf(name).Unlisted? }

  function Dependencies(names: seq<string>): (r: seq<Dependency>)
    ensures |r| == |names| && forall i :: 0 <= i < |names| ==> r[i] == DependencyOf(names[i])
  {
    seq(|names|, i requires 0 <= i < |names| => DependencyOf(names[i]))
  }

  // ----- what a document must satisfy

  ghost predicate Distinct(s: seq<string>) {
    forall i, j :: 0 <= i < j < |s| ==> s[i] != s[j]
  }

  ghost predicate ReasonFits(decision: Decision, reason: string) {
    ValidReason(reason) && ReasonCompatible(decision, reason)
  }

  ghost predicate GoodExpectation(e: RawExpectation) {
    && DecisionOf(e.decision).Some?
    && e.reasons != [] && Distinct(e.reasons)
    && forall r :: r in e.reasons ==> ReasonFits(DecisionOf(e.decision).value, r)
  }

  ghost predicate GoodContract(c: RawContract) {
    GoodExpectation(c.before) && GoodExpectation(c.after) && GoodExpectation(c.policyAfter)
  }

  ghost predicate AllowedDependency(role: Role, stapling: string, name: string) {
    && KnownEvidence(name)
    && (role.StatusOracle? ==> name == "issuer_ack")
    && (name == "staple_published" ==> stapling == "on")
  }

  ghost predicate GoodDependencies(role: Role, stapling: string, names: seq<string>) {
    && names != [] && Distinct(names)
    && forall d :: d in names ==> AllowedDependency(role, stapling, d)
  }

  ghost predicate GoodHeader(raw: RawManifest) {
    raw.id != "" && raw.version == VERSION && |raw.profiles| > 0 && raw.stapling in {"on", "off", "stale"}
  }

  ghost predicate GoodProfiles(raw: RawManifest, known: map<string, Profile>) {
    forall name :: name in raw.profiles ==> name in known && GoodContract(raw.profiles[name])
  }

  ghost predicate GoodEvidence(raw: RawManifest, known: map<string, Profile>) {
    && raw.dependencies.Keys == raw.profiles.Keys && raw.profiles.Keys <= known.Keys
    && forall name :: name in raw.dependencies ==>
       GoodDependencies(known[name].role, raw.stapling, raw.dependencies[name])
  }

  ghost predicate Acceptable(raw: RawManifest, known: map<string, Profile>) {
    GoodHeader(raw) && GoodProfiles(raw, known) && GoodEvidence(raw, known)
  }

  // ----- what building it gives

  function NormalExpectation(e: RawExpectation): RawExpectation { e.(reasons := Sort(e.reasons)) }

  function NormalContract(c: RawContract): RawContract {
    RawContract(NormalExpectation(c.before), NormalExpectation(c.after), NormalExpectation(c.policyAfter))
  }

  function NormalLists(lists: map<string, seq<string>>): map<string, seq<string>> {
    map name | name in lists :: Sort(lists[name])
  }

  function NormalContracts(contracts: map<string, RawContract>): map<string, RawContract> {
    map name | name in contracts :: NormalContract(contracts[name])
  }

  /** The document with every list sorted: what is marshalled and digested. */
  function Normal(raw: RawManifest): RawManifest {
    raw.(dependencies := NormalLists(raw.dependencies), profiles := NormalContracts(raw.profiles))
  }

  ghost function ContractOf(c: RawContract): Contract
    requires GoodContract(c)
  {
    Contract(
      Expectation(DecisionOf(c.before.decision).value, Sort(c.before.reasons), DecisionOf(c.after.decision).value,
                  Sort(c.after.reasons)),
      Expectation(Unset, [], DecisionOf(c.policyAfter.decision).value, Sort(c.policyAfter.reasons)))
  }

  ghost function ContractsOf(raw: RawManifest): map<string, Contract>
    requires forall name :: name in raw.profiles ==> GoodContract(raw.profiles[name])
  {
    map name | name in raw.profiles :: ContractOf(raw.profiles[name])
  }

  function TypedDependencies(lists: map<string, seq<string>>): map<string, seq<Dependency>> {
    map name | name in lists :: Dependencies(lists[name])
  }

  ghost function DependenciesOf(raw: RawManifest): map<string, seq<Dependency>> {
    TypedDependencies(NormalLists(raw.dependencies))
  }

  /** The canonical JSON of a document: its normal form, marshalled. */
  ghost function CanonicalJson(raw: RawManifest): EnvelopeText.Bytes { Marshalled(Normal(raw)) }

  /** The manifest an acceptable document stands for. */
  ghost function ManifestOf(raw: RawManifest, known: map<string, Profile>): Manifest
    requires Acceptable(raw, known)
  {
    Manifest(raw.id, DependenciesOf(raw), ContractsOf(raw), raw.stapling, CanonicalJson(raw))
  }

  // ----- parsing

  lemma SortKeeps(s: seq<string>)
    ensures forall x :: x in Sort(s) <==> x in s
    ensures Distinct(Sort(s)) <==> Distinct(s)
    ensures Sort(Sort(s)) == Sort(s) && |Sort(s)| == |s|
  {
    SortSpec(s);
    SortSpec(Sort(s));
    assert forall x :: x in Sort(s) <==> x in multiset(Sort(s));
    assert forall x :: x in s <==> x in multiset(s);
    SortedUnique(Sort(Sort(s)), Sort(s));
    DistinctByCount(s);
    DistinctByCount(Sort(s));
  }

  lemma DistinctByCount(s: seq<string>)
    ensures Distinct(s) <==> forall x :: multiset(s)[x] <= 1
  {
    if Distinct(s) {
      DistinctMultiset(s);
    } else {
      var i, j :| 0 <= i < j < |s| && s[i] == s[j];
      TwoCopies(s, i, j);
    }
  }

  method ParseExpectation(value: RawExpectation) returns (r: Built<(Decision, seq<Reason>)>)
    ensures r.Ok? <==> GoodExpectation(value)
    ensures r.Ok? ==> r.value == (DecisionOf(value.decision).value, Sort(value.reasons))
  {
    var decision := DecisionOf(value.decision);
    if decision.None? {
      return Error("unknown decision");
    }
    if |value.reasons| == 0 {
      return Error("must declare at least one reason");
    }
    var reasons: seq<Reason> := [];
    var seen: set<Reason> := {};
    for i := 0 to |value.reasons|
      invariant reasons == value.reasons[..i] && Distinct(reasons)
      invariant forall x :: x in seen <==> x in reasons
      invariant forall x :: x in reasons ==> ReasonFits(decision.value, x)
    {
      var reason := value.reasons[i];
      assert reason in value.reasons;
      if !ValidReason(reason) {
        return Error("unknown reason");
      }
      if reason in seen {
        assert exists k :: 0 <= k < i && value.reasons[k] == value.reasons[i];
        return Error("repeated reason");
      }
      if !ReasonCompatible(decision.value, reason) {
        return Error("incompatible reason");
      }
      seen := seen + {reason};
      reasons := reasons + [reason];
    }
    assert value.reasons[..|value.reasons|] == value.reasons;
    return Ok((decision.value, Sort(reasons)));
  }

  method ParseContract(value: RawContract) returns (r: Built<Contract>)
    ensures r.Ok? <==> GoodContract(value)
    ensures r.Ok? ==> r.value == ContractOf(value)
  {
    var before := ParseExpectation(value.before);
    if before.Error? { return Error(before.message); }
    var after := ParseExpectation(value.after);
    if after.Error? { return Error(after.message); }
    var policy := ParseExpectation(value.policyAfter);
    if policy.Error? { return Error(policy.message); }
    return Ok(Contract(
                Expectation(before.value.0, before.value.1, after.value.0, after.value.1),
                Expectation(Unset, [], policy.value.0, policy.value.1)));
  }

  // ----- building

  method NormalizeLists(lists: map<string, seq<string>>) returns (n: map<string, seq<string>>)
    ensures n == NormalLists(lists)
  {
    n := lists;
    var rest := lists.Keys;
    while rest != {}
      invariant rest <= lists.Keys == n.Keys
      invariant forall k :: k in lists ==> n[k] == if k in rest then lists[k] else Sort(lists[k])
      decreases |rest|
    {
      var name :| name in rest;
      n := n[name := Sort(n[name])];
      rest := rest - {name};
    }
  }

  method NormalizeContracts(contracts: map<string, RawContract>) returns (n: map<string, RawContract>)
    ensures n == NormalContracts(contracts)
  {
    n := contracts;
    var rest := contracts.Keys;
    while rest != {}
      invariant rest <= contracts.Keys == n.Keys
      invariant forall k :: k in contracts ==> n[k] == if k in rest then contracts[k] else NormalContract(contracts[k])
      decreases |rest|
    {
      var name :| name in rest;
      n := n[name := NormalContract(n[name])];
      rest := rest - {name};
    }
  }

  /** A decoded document; its lists belong to the caller too. */
  class Document {
    var raw: RawManifest

    constructor (raw: RawManifest)
      ensures this.raw == raw
    {
      this.raw := raw;
    }

    /** `normalizeManifest`: every list in the document is sorted in place, and nothing else changes. */
    method NormalizeManifest()
      modifies this
      ensures raw == Normal(old(raw))
    {
      var dependencies := NormalizeLists(raw.dependencies);
      raw := raw.(dependencies := dependencies);
      var contracts := NormalizeContracts(raw.profiles);
      raw := raw.(profiles := contracts);
    }
  }

  method BuildContracts(raw: RawManifest, known: map<string, Profile>) returns (r: Built<map<string, Contract>>)
    ensures r.Ok? <==> GoodProfiles(raw, known)
    ensures r.Ok? ==> r.value == ContractsOf(raw)
  {
    var contracts: map<string, Contract> := map[];
    var rest := raw.profiles.Keys;
    while rest != {}
      invariant rest <= raw.profiles.Keys && contracts.Keys == raw.profiles.Keys - rest
      invariant forall k :: k in contracts ==>
        k in known && GoodContract(raw.profiles[k]) && contracts[k] == ContractOf(raw.profiles[k])
      decreases |rest|
    {
      var name :| name in rest;
      if name !in known {
        return Error("unknown profile");
      }
      var contract := ParseContract(raw.profiles[name]);
      if contract.Error? {
        return Error(contract.message);
      }
      contracts := contracts[name := contract.value];
      rest := rest - {name};
    }
    assert contracts == ContractsOf(raw);
    return Ok(contracts);
  }

  method CheckDependencyList(role: Role, stapling: string, names: seq<string>) returns (ok: bool)
    ensures ok <==> GoodDependencies(role, stapling, names)
  {
    var seen: set<string> := {};
    if |names| == 0 {
      return false;
    }
    for i := 0 to |names|
      invariant Distinct(names[..i])
      invariant forall x :: x in seen <==> x in names[..i]
      invariant forall x :: x in names[..i] ==> KnownEvidence(x) && (role.StatusOracle? ==> x == "issuer_ack")
    {
      var name := names[i];
      assert name in names && names[..i + 1] == names[..i] + [name];
      if !KnownEvidence(name) {
        return false;
      }
      if name in seen {
        assert exists k :: 0 <= k < i && names[k] == names[i];
        return false;
      }
      seen := seen + {name};
      if role.StatusOracle? && name != "issuer_ack" {
        return false;
      }
    }
    assert names[..|names|] == names;
    if "staple_published" in seen && stapling != "on" {
      return false;
    }
    return true;
  }

  method CheckEvidence(raw: RawManifest, known: map<string, Profile>) returns (ok: bool)
    requires raw.profiles.Keys <= known.Keys
    ensures ok <==> GoodEvidence(raw, known)
  {
    var rest := raw.profiles.Keys;
    while rest != {}
      invariant rest <= raw.profiles.Keys && raw.profiles.Keys - rest <= raw.dependencies.Keys
      decreases |rest|
    {
      var name :| name in rest;
      if name !in raw.dependencies {
        return false;
      }
      rest := rest - {name};
    }
    rest := raw.dependencies.Keys;
    while rest != {}
      invariant rest <= raw.dependencies.Keys && raw.dependencies.Keys - rest <= raw.profiles.Keys
      invariant forall k :: k in raw.dependencies.Keys - rest ==>
        GoodDependencies(known[k].role, raw.stapling, raw.dependencies[k])
      decreases |rest|
    {
      var name :| name in rest;
      if name !in known {
        return false;
      }
      if name !in raw.profiles {
        return false;
      }
      var good := CheckDependencyList(known[name].role, raw.stapling, raw.dependencies[name]);
      if !good {
        return false;
      }
      rest := rest - {name};
    }
    return true;
  }

  /** `build`: a document whose header is good is normalized for its caller as well, accepted or not. */
  method BuildManifest(doc: Document, known: map<string, Profile>) returns (r: Built<Manifest>)
    modifies doc
    ensures doc.raw == if GoodHeader(old(doc.raw)) then Normal(old(doc.raw)) else old(doc.raw)
    ensures r.Ok? <==> Acceptable(old(doc.raw), known)
    ensures r.Ok? ==> r.value == ManifestOf(old(doc.raw), known)
  {
    ghost var given := doc.raw;
    if doc.raw.id == "" {
      return Error("id is required");
    }
    if doc.raw.version != VERSION {
      return Error("unsupported version");
    }
    if |doc.raw.profiles| == 0 {
      return Error("no profiles");
    }
    if doc.raw.stapling !in {"on", "off", "stale"} {
      return Error("invalid execution.stapling");
    }
    doc.NormalizeManifest();
    var n := doc.raw;
    NormalProfilesKeep(given, known);
    NormalEvidenceKeeps(given, known);
    var contracts := BuildContracts(n, known);
    if contracts.Error? {
      return Error(contracts.message);
    }
    var good := CheckEvidence(n, known);
    if !good {
      return Error("evidence dependencies");
    }
    var canonical := Marshal(n);
    return Ok(Manifest(n.id, TypedDependencies(n.dependencies), contracts.value, n.stapling, canonical));
  }

  // ----- the canonical JSON

  lemma NormalExpectationKeeps(e: RawExpectation)
    ensures GoodExpectation(NormalExpectation(e)) <==> GoodExpectation(e)
  {
    SortKeeps(e.reasons);
    assert e.reasons == [] <==> Sort(e.reasons) == [];
  }

  lemma NormalContractKeeps(c: RawContract)
    ensures GoodContract(NormalContract(c)) <==> GoodContract(c)
    ensures GoodContract(c) ==> ContractOf(NormalContract(c)) == ContractOf(c)
  {
    NormalExpectationKeeps(c.before);
    NormalExpectationKeeps(c.after);
    NormalExpectationKeeps(c.policyAfter);
    SortKeeps(c.before.reasons);
    SortKeeps(c.after.reasons);
    SortKeeps(c.policyAfter.reasons);
  }

  lemma NormalDependenciesKeep(role: Role, stapling: string, names: seq<string>)
    ensures GoodDependencies(role, stapling, Sort(names)) <==> GoodDependencies(role, stapling, names)
  {
    SortKeeps(names);
    assert names == [] <==> Sort(names) == [];
  }

  lemma NormalContractStays(c: RawContract)
    ensures NormalContract(NormalContract(c)) == NormalContract(c)
  {
    SortKeeps(c.before.reasons);
    SortKeeps(c.after.reasons);
    SortKeeps(c.policyAfter.reasons);
  }

  lemma NormalHeaderKeeps(raw: RawManifest)
    ensures GoodHeader(Normal(raw)) <==> GoodHeader(raw)
  {
    assert Normal(raw).profiles.Keys == raw.profiles.Keys;
    assert |Normal(raw).profiles| == |Normal(raw).profiles.Keys| && |raw.profiles| == |raw.profiles.Keys|;
  }

  lemma NormalProfilesKeep(raw: RawManifest, known: map<string, Profile>)
    ensures GoodProfiles(Normal(raw), known) <==> GoodProfiles(raw, known)
    ensures GoodProfiles(raw, known) ==> ContractsOf(Normal(raw)) == ContractsOf(raw)
  {
    var n := Normal(raw);
    forall name | name in raw.profiles
      ensures GoodContract(n.profiles[name]) <==> GoodContract(raw.profiles[name])
      ensures GoodContract(raw.profiles[name]) ==> ContractOf(n.profiles[name]) == ContractOf(raw.profiles[name])
    {
      NormalContractKeeps(raw.profiles[name]);
    }
  }

  lemma NormalEvidenceKeeps(raw: RawManifest, known: map<string, Profile>)
    ensures GoodEvidence(Normal(raw), known) <==> GoodEvidence(raw, known)
  {
    var n := Normal(raw);
    assert n.dependencies.Keys == raw.dependencies.Keys && n.profiles.Keys == raw.profiles.Keys;
    if raw.dependencies.Keys == raw.profiles.Keys && raw.profiles.Keys <= known.Keys {
      forall name | name in raw.dependencies
        ensures GoodDependencies(known[name].role, n.stapling, n.dependencies[name])
                <==> GoodDependencies(known[name].role, raw.stapling, raw.dependencies[name])
      {
        NormalDependenciesKeep(known[name].role, raw.stapling, raw.dependencies[name]);
      }
    }
  }

  lemma NormalStays(raw: RawManifest)
    ensures Normal(Normal(raw)) == Normal(raw)
  {
    forall name | name in raw.dependencies ensures Sort(Sort(raw.dependencies[name])) == Sort(raw.dependencies[name]) {
      SortKeeps(raw.dependencies[name]);
    }
    assert NormalLists(NormalLists(raw.dependencies)) == NormalLists(raw.dependencies);
    forall name | name in raw.profiles
      ensures NormalContract(NormalContract(raw.profiles[name])) == NormalContract(raw.profiles[name])
    {
      NormalContractStays(raw.profiles[name]);
    }
    assert NormalContracts(NormalContracts(raw.profiles)) == NormalContracts(raw.profiles);
  }

  /** Sorting a document's lists neither rescues nor breaks it, and changes nothing it builds to. */
  lemma NormalKeepsMeaning(raw: RawManifest, known: map<string, Profile>)
    ensures Acceptable(Normal(raw), known) <==> Acceptable(raw, known)
    ensures Acceptable(raw, known) ==> ManifestOf(Normal(raw), known) == ManifestOf(raw, known)
  {
    NormalHeaderKeeps(raw);
    NormalProfilesKeep(raw, known);
    NormalEvidenceKeeps(raw, known);
    NormalStays(raw);
  }

  // ----- what is built is what is written

  /** A decision and a boundary as manifests spell them. */
  function DecisionText(d: Decision): string {
    match d
    case Accept => "ACCEPT"
    case Reject => "REJECT"
    case Inconclusive => "INCONCLUSIVE"
    case HarnessError => "HARNESS_ERROR"
    case Unset => ""
  }

  function BoundaryText(d: Dependency): string {
    match d
    case IssuerAck => "issuer_ack"
    case OcspPublished => "ocsp_published"
    case CrlPublished => "crl_published"
    case StaplePublished => "staple_published"
    case Unlisted(name) => name
  }

  function BoundaryTexts(ds: seq<Dependency>): (r: seq<string>)
    ensures |r| == |ds| && forall i :: 0 <= i < |ds| ==> r[i] == BoundaryText(ds[i])
  {
    seq(|ds|, i requires 0 <= i < |ds| => BoundaryText(ds[i]))
  }

  /** Half a contract says what the document's expectation says: its decision, and its reasons in order. */
  ghost predicate SaysAsWritten(decision: Decision, reasons: seq<Reason>, e: RawExpectation) {
    DecisionText(decision) == e.decision && Sorted(reasons) && multiset(reasons) == multiset(e.reasons)
  }

  ghost predicate ContractAsWritten(built: Contract, c: RawContract) {
    && SaysAsWritten(built.baseline.before, built.baseline.beforeReasons, c.before)
    && SaysAsWritten(built.baseline.after, built.baseline.afterReasons, c.after)
    && SaysAsWritten(built.policy.after, built.policy.afterReasons, c.policyAfter)
    && built.policy.before == Unset && built.policy.beforeReasons == []
  }

  /** The boundaries are those of the document's list, spelled the same and in order. */
  ghost predicate BoundariesAsWritten(ds: seq<Dependency>, names: seq<string>) {
    && Sorted(BoundaryTexts(ds)) && multiset(BoundaryTexts(ds)) == multiset(names)
    && (IssuerAck in ds <==> "issuer_ack" in names) && (OcspPublished in ds <==> "ocsp_published" in names)
    && (CrlPublished in ds <==> "crl_published" in names) && (StaplePublished in ds <==> "staple_published" in names)
  }

  lemma SpelledBack(e: RawExpectation)
    requires GoodExpectation(e)
    ensures SaysAsWritten(DecisionOf(e.decision).value, Sort(e.reasons), e)
  {
    SortSpec(e.reasons);
  }

  lemma BoundarySpelled(name: string)
    ensures BoundaryText(DependencyOf(name)) == name
  {}

  lemma BoundaryRead(d: Dependency)
    requires !d.Unlisted?
    ensures DependencyOf(BoundaryText(d)) == d
  {
    var texts := ["issuer_ack", "ocsp_published", "crl_published", "staple_published"];
    assert |texts[0]| == 10 && |texts[1]| == 14 && |texts[2]| == 13 && |texts[3]| == 16;
  }

  lemma BoundaryListed(names: seq<string>, d: Dependency)
    requires !d.Unlisted?
    ensures d in Dependencies(names) <==> BoundaryText(d) in names
  {
    var ds := Dependencies(names);
    BoundaryRead(d);
    if d in ds {
      var i :| 0 <= i < |ds| && ds[i] == d;
      BoundarySpelled(names[i]);
    }
    if BoundaryText(d) in names {
      var i :| 0 <= i < |names| && names[i] == BoundaryText(d);
      assert ds[i] == d;
    }
  }

  lemma TextsRestored(names: seq<string>)
    ensures BoundaryTexts(Dependencies(names)) == names
  {
    forall i | 0 <= i < |names| ensures BoundaryTexts(Dependencies(names))[i] == names[i] {
      BoundarySpelled(names[i]);
    }
  }

  lemma SortedListed(names: seq<string>, d: Dependency)
    requires !d.Unlisted?
    ensures d in Dependencies(Sort(names)) <==> BoundaryText(d) in names
  {
    BoundaryListed(Sort(names), d);
    SortKeeps(names);
  }

  lemma DependenciesAsWritten(names: seq<string>)
    ensures BoundariesAsWritten(Dependencies(Sort(names)), names)
  {
    SortSpec(names);
    TextsRestored(Sort(names));
    SortedListed(names, IssuerAck);
    SortedListed(names, OcspPublished);
    SortedListed(names, CrlPublished);
    SortedListed(names, StaplePublished);
  }

  lemma ContractBuilt(c: RawContract)
    requires GoodContract(c)
    ensures ContractAsWritten(ContractOf(c), c)
  {
    SpelledBack(c.before);
    SpelledBack(c.after);
    SpelledBack(c.policyAfter);
  }

  /** A good expectation that names one of these reasons asks for the decision the reason stands for. */
  lemma ReasonsNameTheDecision(e: RawExpectation)
    requires GoodExpectation(e)
    ensures REVOKED in e.reasons ==> e.decision == "REJECT"
    ensures "STATUS_GOOD" in e.reasons ==> e.decision == "ACCEPT"
    ensures "NETWORK_FAILURE" in e.reasons ==> e.decision == "INCONCLUSIVE"
    ensures HARNESS_FAILURE in e.reasons ==> e.decision == "HARNESS_ERROR"
  {
    forall r | r in e.reasons ensures ReasonCompatible(DecisionOf(e.decision).value, r) {
      assert ReasonFits(DecisionOf(e.decision).value, r);
    }
  }

  /** Exactly the document's profiles have a contract, each a good one and the one written there. */
  ghost predicate ContractsAsWritten(contracts: map<string, Contract>, raw: RawManifest) {
    && contracts.Keys == raw.profiles.Keys
    && forall name :: name in contracts ==>
      GoodContract(raw.profiles[name]) && ContractAsWritten(contracts[name], raw.profiles[name])
  }

  lemma ContractsBuilt(raw: RawManifest)
    requires forall name :: name in raw.profiles ==> GoodContract(raw.profiles[name])
    ensures ContractsAsWritten(ContractsOf(raw), raw)
  {
    forall name | name in raw.profiles ensures ContractAsWritten(ContractsOf(raw)[name], raw.profiles[name]) {
      ContractBuilt(raw.profiles[name]);
    }
  }

  /** The manifest of an acceptable document has, for every profile, the contract and the boundaries written there. */
  lemma BuiltAsWritten(raw: RawManifest, known: map<string, Profile>)
    requires Acceptable(raw, known)
    ensures var m := ManifestOf(raw, known);
      && m.id == raw.id && m.stapling == raw.stapling && m.canonical == CanonicalJson(raw)
      && ContractsAsWritten(m.contracts, raw)
      && m.dependencies.Keys == raw.profiles.Keys
      && forall name :: name in m.dependencies ==> BoundariesAsWritten(m.dependencies[name], raw.dependencies[name])
  {
    ContractsBuilt(raw);
    forall name | name in raw.dependencies
      ensures BoundariesAsWritten(DependenciesOf(raw)[name], raw.dependencies[name])
    {
      DependenciesAsWritten(raw.dependencies[name]);
    }
  }

  /** Two expectations listing the same reasons, each as often, in any order. */
  ghost predicate SameReasons(a: RawExpectation, b: RawExpectation) {
    a.decision == b.decision && multiset(a.reasons) == multiset(b.reasons)
  }

  ghost predicate SameContract(a: RawContract, b: RawContract) {
    SameReasons(a.before, b.before) && SameReasons(a.after, b.after) && SameReasons(a.policyAfter, b.policyAfter)
  }

  ghost predicate SameLists(a: map<string, seq<string>>, b: map<string, seq<string>>) {
    a.Keys == b.Keys && forall name :: name in a ==> multiset(a[name]) == multiset(b[name])
  }

  ghost predicate SameContracts(a: map<string, RawContract>, b: map<string, RawContract>) {
    a.Keys == b.Keys && forall name :: name in a ==> SameContract(a[name], b[name])
  }

  /** Two documents that differ at most in the order of their reason and dependency lists. */
  ghost predicate SameUpToOrder(a: RawManifest, b: RawManifest) {
    && a.id == b.id && a.version == b.version && a.stapling == b.stapling
    && SameLists(a.dependencies, b.dependencies) && SameContracts(a.profiles, b.profiles)
  }

  lemma SortIffPermutation(a: seq<string>, b: seq<string>)
    ensures Sort(a) == Sort(b) <==> multiset(a) == multiset(b)
  {
    SortSpec(a);
    SortSpec(b);
    if multiset(a) == multiset(b) {
      SortedUnique(Sort(a), Sort(b));
    }
  }

  lemma NormalContractIff(a: RawContract, b: RawContract)
    ensures NormalContract(a) == NormalContract(b) <==> SameContract(a, b)
  {
    SortIffPermutation(a.before.reasons, b.before.reasons);
    SortIffPermutation(a.after.reasons, b.after.reasons);
    SortIffPermutation(a.policyAfter.reasons, b.policyAfter.reasons);
  }

  lemma NormalListsIff(a: map<string, seq<string>>, b: map<string, seq<string>>)
    ensures NormalLists(a) == NormalLists(b) <==> SameLists(a, b)
  {
    assert NormalLists(a).Keys == a.Keys && NormalLists(b).Keys == b.Keys;
    if a.Keys == b.Keys {
      forall name | name in a
        ensures NormalLists(a)[name] == NormalLists(b)[name] <==> multiset(a[name]) == multiset(b[name])
      {
        SortIffPermutation(a[name], b[name]);
      }
    }
  }

  lemma NormalContractsIff(a: map<string, RawContract>, b: map<string, RawContract>)
    ensures NormalContracts(a) == NormalContracts(b) <==> SameContracts(a, b)
  {
    assert NormalContracts(a).Keys == a.Keys && NormalContracts(b).Keys == b.Keys;
    if a.Keys == b.Keys {
      forall name | name in a
        ensures NormalContracts(a)[name] == NormalContracts(b)[name] <==> SameContract(a[name], b[name])
      {
        NormalContractIff(a[name], b[name]);
      }
    }
  }

  lemma NormalIffSame(a: RawManifest, b: RawManifest)
    ensures Normal(a) == Normal(b) <==> SameUpToOrder(a, b)
  {
    NormalListsIff(a.dependencies, b.dependencies);
    NormalContractsIff(a.profiles, b.profiles);
  }

  /** The canonical JSON is equal exactly for documents that differ only in list order. */
  lemma CanonicalJsonIffSame(a: RawManifest, b: RawManifest)
    ensures CanonicalJson(a) == CanonicalJson(b) <==> SameUpToOrder(a, b)
  {
    NormalIffSame(a, b);
    if CanonicalJson(a) == CanonicalJson(b) {
      MarshalledFixesDocument(Normal(a), Normal(b));
    }
  }

  /** Documents with one canonical JSON are accepted together and then build the same manifest. */
  lemma SameCanonicalBuildsSame(a: RawManifest, b: RawManifest, known: map<string, Profile>)
    requires CanonicalJson(a) == CanonicalJson(b)
    ensures Acceptable(a, known) <==> Acceptable(b, known)
    ensures Acceptable(a, known) ==> ManifestOf(a, known) == ManifestOf(b, known)
  {
    MarshalledFixesDocument(Normal(a), Normal(b));
    NormalKeepsMeaning(a, known);
    NormalKeepsMeaning(b, known);
  }

  /** Reordering reason and dependency lists changes neither acceptance nor anything that is built. */
  lemma ListOrderIsIrrelevant(a: RawManifest, b: RawManifest, known: map<string, Profile>)
    requires SameUpToOrder(a, b)
    ensures Acceptable(a, known) <==> Acceptable(b, known)
    ensures Acceptable(a, known) ==> ManifestOf(a, known) == ManifestOf(b, known)
  {
    CanonicalJsonIffSame(a, b);
    SameCanonicalBuildsSame(a, b, known);
  }
}
