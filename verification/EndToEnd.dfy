/** A valid trial of a loaded and accepted scenario, from the start-up checks to the verdict. */
module EndToEnd {
  import opened Basics
  import opened Profiles
  import opened Scenarios
  import opened ManifestText
  import opened Loading
  import opened ScenarioRegistry
  import opened Polling
  import opened ObservePhase
  import opened ObserveSafety
  import opened ObserveTheorems
  import opened ObserveRecords
  import opened ObservePolling
  import Cycle

  /** The results the collector hands over: the oracles' and then the clients', in any order once sorted. */
  ghost predicate HandedOver(s: State, results: seq<Result>) {
    multiset(results) == multiset(Records(s.ocsp.results) + Records(s.crl.results) + Records(s.clients))
  }

  /** The only entry of member `i`. */
  ghost predicate OnlyEntry(list: seq<Entry>, e: nat, i: nat) {
    && e < |list| && list[e].index == i
    && forall k :: 0 <= k < |list| && list[k].index == i ==> k == e
  }

  /** The evidence of exactly the required boundaries, all of it from before the first attempt. */
  ghost predicate EvidenceFirst(r: Result, deps: seq<Dependency>) {
    && r.requiredEvidence == deps
    && (forall d :: d in r.evidenceSatisfiedAt <==> d in deps)
    && (r.attempts > 0 ==> forall d :: d in r.evidenceSatisfiedAt ==> r.evidenceSatisfiedAt[d] <= r.clientAttemptAt)
  }

  lemma HandedOverClient(s: State, results: seq<Result>, e: nat)
    requires HandedOver(s, results) && e < |s.clients|
    ensures s.clients[e].result in results
  {
    var clients := Records(s.clients);
    var all := Records(s.ocsp.results) + Records(s.crl.results) + clients;
    assert clients[e] == s.clients[e].result;
    assert all[|all| - |clients| + e] == clients[e];
    assert clients[e] in multiset(all);
    assert clients[e] in multiset(results);
  }

  lemma CollectedClient(setup: Setup, states: seq<State>, events: seq<Event>, k: nat, i: nat) returns (e: nat)
    requires IsRun(setup, states, events) && k < |states| && states[k].main.Collected?
    requires i < |setup.members| && IsClient(setup.members[i])
    ensures i < |states[k].tasks| && OnlyEntry(states[k].clients, e, i)
    ensures states[k].tasks[i] == Finished(states[k].clients[e].result)
    ensures TaskOk(setup, states[k], setup.members[i], states[k].tasks[i])
  {
    RunInv(setup, states, events, k);
    CollectedResults(setup, states, events, k);
    var s := states[k];
    assert HasIndex(s.clients, i);
    e :| 0 <= e < |s.clients| && s.clients[e].index == i;
  }

  /** A client whose record is no harness error had all its evidence first. */
  lemma CleanClientHadEvidence(setup: Setup, s: State, m: Member, r: Result)
    requires TaskOk(setup, s, m, Finished(r)) && IsClient(m) && m.dependencies.Some?
    requires !r.decision.HarnessError?
    ensures EvidenceFirst(r, m.dependencies.value)
  {
    HeldKeys(setup, s, m.dependencies.value, r.evidenceSatisfiedAt,
             if r.attempts > 0 then r.clientAttemptAt else s.clock);
  }

  /**
   In a valid trial of a scenario that was loaded and accepted for the enabled profiles, every
   enabled client has exactly one result, and it carries exactly the evidence its manifest
   requires, satisfied before its first attempt.
   */
  lemma ValidTrialGatesEveryClient(
    docs: seq<RawManifest>, registry: Registry, implementations: seq<Profile>, enabled: seq<string>, scenario: string,
    config: PollConfig, states: seq<State>, events: seq<Event>, k: nat, env: Cycle.Environment, maxAge: int, i: nat)
    returns (e: nat)
    requires registry.known == KnownProfiles(implementations) && Loads(docs, Reader(registry.known), registry.manifests)
    requires EnabledRunnable(registry, enabled) && scenario in registry.manifests
    requires IsRun(SetupFor(registry.manifests[scenario], implementations, enabled, config, env.revoke.ackAt), states,
                   events)
    requires k < |states| && states[k].main.Collected? && HandedOver(states[k], env.results)
    requires Cycle.TrialValid(env, maxAge)
    requires i < |implementations| && implementations[i].name in enabled && implementations[i].role.ClientExecutor?
    ensures OnlyEntry(states[k].clients, e, i) && states[k].clients[e].result in env.results
    ensures implementations[i].name in registry.manifests[scenario].dependencies
    ensures EvidenceFirst(states[k].clients[e].result,
                          registry.manifests[scenario].dependencies[implementations[i].name])
  {
    var setup := SetupFor(registry.manifests[scenario], implementations, enabled, config, env.revoke.ackAt);
    AcceptedScenarioIsWellGated(docs, registry, implementations, enabled, scenario, config, env.revoke.ackAt, i);
    assert setup.members[i] == MemberOf(registry.manifests[scenario], enabled, implementations[i]);
    e := CollectedClient(setup, states, events, k, i);
    var r := states[k].clients[e].result;
    HandedOverClient(states[k], env.results, e);
    assert Cycle.HarnessClean(r);
    CleanClientHadEvidence(setup, states[k], setup.members[i], r);
  }

  /** With stapling on, a valid trial published the revoked staple before it collected its results. */
  lemma ValidTrialPublishedStaple(setup: Setup, states: seq<State>, events: seq<Event>, k: nat, env: Cycle.Environment,
                                  maxAge: int)
    requires IsRun(setup, states, events) && k < |states| && states[k].main.Collected? && setup.staplingOn
    requires env.stapleFailed <==> states[k].vars == Some(StapleError)
    requires Cycle.TrialValid(env, maxAge)
    ensures states[k].staple.Satisfied?
  {
    StapleWrittenBeforeOpen(setup, states, events, k);
    RunInv(setup, states, events, k);
  }

  // ----- what the documents say

  /** An observation is the one an expectation of a document names: its decision, for one of its reasons. */
  predicate AsDocumented(e: RawExpectation, o: Observation) {
    DecisionText(o.decision) == e.decision && o.reason in e.reasons
  }

  lemma DecisionSpelledOnce(d: Decision, e: Decision)
    requires DecisionText(d) == DecisionText(e)
    ensures d == e
  {
    assert |DecisionText(Accept)| == |DecisionText(Reject)| && DecisionText(Accept)[0] != DecisionText(Reject)[0];
  }

  /** Comparing with a half that says what a good expectation says is comparing with the document. */
  lemma ComparedAsDocumented(decision: Decision, reasons: seq<Reason>, e: RawExpectation, o: Observation)
    requires SaysAsWritten(decision, reasons, e) && GoodExpectation(e)
    ensures o.decision == decision && ReasonAllowed(o.reason, reasons) <==> AsDocumented(e, o)
  {
    SameMembers(reasons, e.reasons);
    assert e.reasons[0] in reasons;
    if DecisionText(o.decision) == e.decision { DecisionSpelledOnce(o.decision, decision); }
  }

  /** What a poll holds before its first attempt is no outcome a document can ask for. */
  lemma NothingSeenIsUndocumented(e: RawExpectation)
    requires GoodExpectation(e)
    ensures !AsDocumented(e, UNOBSERVED)
  {
    ReasonsNameTheDecision(e);
  }

  /** A scenario has the contracts of the document it was loaded from. */
  lemma LoadedContracts(docs: seq<RawManifest>, registry: Registry, scenario: string) returns (j: nat)
    requires Loads(docs, Reader(registry.known), registry.manifests) && scenario in registry.manifests
    ensures j < |docs| && docs[j].id == scenario
    ensures ContractsAsWritten(registry.manifests[scenario].contracts, docs[j])
  {
    j := EntryFor(docs, Reader(registry.known), scenario, registry.manifests);
    assert EntryOf(docs[j], registry.known).Some?;
    BuiltAsWritten(docs[j], registry.known);
  }

  /** A clean record met its expectation, and its policy, exactly when its outcome is one the document names. */
  lemma JudgedAsDocumented(setup: Setup, contract: Contract, c: RawContract, began: int, turns: seq<Attempt>, r: Result)
    requires PolledAlone(setup, contract, began, turns, r) && r.decision != HarnessError
    requires ContractAsWritten(contract, c) && GoodContract(c)
    ensures r.expectationMet <==> AsDocumented(c.after, Observation(r.decision, r.reason))
    ensures r.policyMet <==> AsDocumented(c.policyAfter, Observation(r.decision, r.reason))
  {
    var x, o := contract.baseline, Observation(r.decision, r.reason);
    ComparedAsDocumented(x.after, x.afterReasons, c.after, o);
    ComparedAsDocumented(contract.policy.after, contract.policy.afterReasons, c.policyAfter, o);
    StopsThere(setup.config, x, began + setup.config.maxWait, EnvOf(turns), r);
    NothingSeenIsUndocumented(c.after);
  }

  /**
   In any run of a loaded scenario a member's record, if it is no harness error, is judged by the scenario's own
   document: it met the expectation, and the policy, exactly when decision and reason are named there.
   */
  lemma ResultsJudgedByDocument(
    docs: seq<RawManifest>, registry: Registry, implementations: seq<Profile>, enabled: seq<string>, scenario: string,
    config: PollConfig, ackAt: int, states: seq<State>, events: seq<Event>, k: nat, i: nat)
    returns (j: nat)
    requires Loads(docs, Reader(registry.known), registry.manifests) && scenario in registry.manifests
    requires IsRun(SetupFor(registry.manifests[scenario], implementations, enabled, config, ackAt), states, events)
    requires k < |states| && i < |implementations| && i < |states[k].tasks|
    requires states[k].tasks[i].Finished? && states[k].tasks[i].result.decision != HarnessError
    ensures j < |docs| && docs[j].id == scenario && implementations[i].name in docs[j].profiles
    ensures var c, r := docs[j].profiles[implementations[i].name], states[k].tasks[i].result;
      && (r.expectationMet <==> AsDocumented(c.after, Observation(r.decision, r.reason)))
      && (r.policyMet <==> AsDocumented(c.policyAfter, Observation(r.decision, r.reason)))
  {
    var manifest := registry.manifests[scenario];
    var setup := SetupFor(manifest, implementations, enabled, config, ackAt);
    assert setup.members[i] == MemberOf(manifest, enabled, implementations[i]);
    PollsEndAsAlone(setup, states, events, k, i);
    j := LoadedContracts(docs, registry, scenario);
    JudgedAsDocumented(setup, setup.members[i].contract.value, docs[j].profiles[implementations[i].name],
                       BeganAt(states, events, k, i), TurnsOf(states, events, k, i), states[k].tasks[i].result);
  }

  /** A probe succeeded and saw what the document has before revocation. */
  predicate ProbeAsDocumented(raw: RawManifest, p: Cycle.Probe) {
    p.err == "" && p.profile in raw.profiles && AsDocumented(raw.profiles[p.profile].before, p.observation)
  }

  lemma PreflightJudged(raw: RawManifest, env: Cycle.Environment)
    requires ContractsAsWritten(env.contracts, raw)
    ensures Cycle.PreflightPasses(env) <==>
      forall k :: 0 <= k < |env.probes| ==> ProbeAsDocumented(raw, env.probes[k])
  {
    forall k | 0 <= k < |env.probes| && env.probes[k].profile in env.contracts
      ensures AsDocumented(raw.profiles[env.probes[k].profile].before, env.probes[k].observation) <==>
        MatchesBefore(env.contracts[env.probes[k].profile].baseline, env.probes[k].observation)
    {
      var x := env.contracts[env.probes[k].profile].baseline;
      ComparedAsDocumented(x.before, x.beforeReasons, raw.profiles[env.probes[k].profile].before,
                           env.probes[k].observation);
    }
  }

  /** A preflight of a loaded scenario passes exactly when every probe saw what its document has before revocation. */
  lemma PreflightJudgedByDocument(docs: seq<RawManifest>, registry: Registry, scenario: string, env: Cycle.Environment)
    returns (j: nat)
    requires Loads(docs, Reader(registry.known), registry.manifests) && scenario in registry.manifests
    requires env.contracts == registry.manifests[scenario].contracts
    ensures j < |docs| && docs[j].id == scenario
    ensures Cycle.PreflightPasses(env) <==>
      forall k :: 0 <= k < |env.probes| ==> ProbeAsDocumented(docs[j], env.probes[k])
  {
    j := LoadedContracts(docs, registry, scenario);
    PreflightJudged(docs[j], env);
  }
}
