/**
 One probe cycle from issuance to verdict. The report, the cleanup flag and the issuer
 calls are fields the cycle updates; what Vault, the canary, the clients and the disk
 answer is the argument `env`.
 */
module Cycle {
  import opened Basics
  import opened Profiles

  datatype Phase = Issue | Canary | PreflightPhase | Revoke | Observe | PersistEvidence | Evaluate | Complete

  datatype Stapling = StaplingOn | StaplingOff | StaplingStale

  /** One BEFORE probe: what it saw, its error if it failed, and its start on the monotonic clock (zero is unset). */
  datatype Probe = Probe(profile: string, observation: Observation, err: string, startedAt: int)

  datatype Preflight = Preflight(profile: string, decision: Decision, reason: Reason, met: bool, err: string,
                                 startedAt: int, ageAtRevoke: int)

  datatype RevokeReply = RevokeReply(ok: bool, requestAt: int, ackAt: int)

  /** Everything the cycle learns from outside, in the order it asks; `probes` are in profile-name order. */
  datatype Environment = Environment(
    issued: bool, artifactsStored: bool,
    stapling: Stapling, stapleFetched: bool, stapleGood: bool, stapleValid: bool,
    canaryStarted: bool,
    contracts: map<string, Contract>, probes: seq<Probe>, preflightStored: bool,
    revokeRequestAt: int, revoke: RevokeReply,
    results: seq<Result>, stapleFailed: bool, publishedStaple: bool,
    resultsStored: bool, stapleStored: bool,
    cleanupOk: bool)

  datatype IssuerCall = IssueCanary(ok: bool) | ExperimentRevoke(ok: bool) | CompensatingRevoke(ok: bool)

  datatype Cleanup = Cleanup(attempted: bool, revoked: bool)

  datatype Failure = Failure(phase: Phase, message: string)

  datatype Report = Report(
    phase: Phase, valid: bool, revokeAckAt: int, cleanup: Cleanup,
    preflight: seq<Preflight>, results: seq<Result>, failure: Option<Failure>)

  const NEW_REPORT := Report(Issue, false, 0, Cleanup(false, false), [], [], None)

  // ----- what must hold at each boundary

  ghost predicate StapleReady(env: Environment) {
    env.stapling.StaplingOff? || (env.stapleFetched && env.stapleGood && env.stapleValid)
  }

  ghost predicate ReachesPreflight(env: Environment) {
    env.issued && env.artifactsStored && StapleReady(env) && env.canaryStarted
  }

  /** A probe that returned an error is recorded as a harness error, whatever else it returned. */
  function Observed(p: Probe): Observation {
    if p.err == "" then p.observation else Observation(HarnessError, HARNESS_FAILURE)
  }

  ghost predicate EveryProfileHasContract(env: Environment) {
    forall k :: 0 <= k < |env.probes| ==> env.probes[k].profile in env.contracts
  }

  /** No probe failed and every observation is the one its BEFORE contract names. */
  ghost predicate PreflightPasses(env: Environment) {
    && EveryProfileHasContract(env)
    && forall k :: 0 <= k < |env.probes| ==>
      env.probes[k].err == "" && MatchesBefore(env.contracts[env.probes[k].profile].baseline, env.probes[k].observation)
  }

  /** Every BEFORE probe was started within `maxAge` of the revoke request. */
  ghost predicate FreshAt(probes: seq<Probe>, now: int, maxAge: int) {
    maxAge > 0 && forall k :: 0 <= k < |probes| ==> probes[k].startedAt != 0 && now - probes[k].startedAt <= maxAge
  }

  ghost predicate ReachesRevoke(env: Environment, maxAge: int) {
    ReachesPreflight(env) && PreflightPasses(env) && FreshAt(env.probes, env.revokeRequestAt, maxAge)
  }

  /** The certificate was revoked by the experiment, and the clients were watched. */
  ghost predicate Observes(env: Environment, maxAge: int) {
    ReachesRevoke(env, maxAge) && env.revoke.ok
  }

  predicate HarnessClean(r: Result) { r.decision != HarnessError && r.err == "" }

  ghost predicate TrialValid(env: Environment, maxAge: int) {
    && Observes(env, maxAge)
    && env.preflightStored && env.resultsStored && (env.publishedStaple ==> env.stapleStored) && !env.stapleFailed
    && forall k :: 0 <= k < |env.results| ==> HarnessClean(env.results[k])
  }

  ghost predicate Conforms(env: Environment, enforce: bool) {
    forall k :: 0 <= k < |env.results| ==> env.results[k].expectationMet && (enforce ==> env.results[k].policyMet)
  }

  /** The phase a cycle that fails reports. */
  ghost function FailedAt(env: Environment, maxAge: int): Phase {
    if !env.issued then Issue
    else if !env.artifactsStored then PersistEvidence
    else if !ReachesPreflight(env) then Canary
    else if !env.preflightStored then PersistEvidence
    else if !ReachesRevoke(env, maxAge) then PreflightPhase
    else if !env.revoke.ok then Revoke
    else if !env.resultsStored || (env.publishedStaple && !env.stapleStored) then PersistEvidence
    else if env.stapleFailed then Observe
    else Evaluate
  }

  /** `r` records `probe` and the comparison with its BEFORE contract. */
  ghost predicate Records(env: Environment, probe: Probe, r: Preflight) {
    && r.profile == probe.profile && r.startedAt == probe.startedAt && r.err == probe.err
    && Observation(r.decision, r.reason) == Observed(probe)
    && probe.profile in env.contracts
    && r.met == MatchesBefore(env.contracts[probe.profile].baseline, Observed(probe))
  }

  ghost predicate Recorded(env: Environment, recorded: seq<Preflight>) {
    |recorded| == |env.probes| && forall i :: 0 <= i < |recorded| ==> Records(env, env.probes[i], recorded[i])
  }

  ghost predicate AgedRecord(env: Environment, probe: Probe, r: Preflight) {
    Records(env, probe, r) && r.ageAtRevoke == env.revoke.requestAt - probe.startedAt
  }

  /**
   The BEFORE record of a trial that reached its revoke: each age is measured from the request time the
   issuer reports.
   */
  ghost predicate Aged(env: Environment, recorded: seq<Preflight>) {
    |recorded| == |env.probes| && forall i :: 0 <= i < |recorded| ==> AgedRecord(env, env.probes[i], recorded[i])
  }

  class Runner {
    const preflightMaxAge: int
    const enforce: bool
    var report: Report
    var cleanupArmed: bool
    var calls: seq<IssuerCall>
    var preflightWrites: nat

    constructor (preflightMaxAge: int, enforce: bool)
      ensures this.preflightMaxAge == preflightMaxAge && this.enforce == enforce
    {
      this.preflightMaxAge, this.enforce := preflightMaxAge, enforce;
      report, cleanupArmed, calls, preflightWrites := NEW_REPORT, false, [], 0;
    }

    method Fail(phase: Phase, message: string) returns (err: Option<Failure>)
      modifies this`report
      ensures err == Some(Failure(phase, message))
      ensures report == old(report).(phase := phase, failure := err)
    {
      err := Some(Failure(phase, message));
      report := report.(phase := phase, failure := err);
    }

    /**
     `RunOnce`: whatever happens, a certificate that was issued is revoked by the experiment
     or handed once to the compensating revoke, never both and never neither.
     */
    method RunOnce(env: Environment) returns (err: Option<Failure>)
      modifies this
      ensures !env.issued ==> calls == [IssueCanary(false)]
      ensures env.issued ==> calls == CallsUpToRevoke(env) + Compensation(env)
      ensures env.issued ==> (ExperimentRevoke(true) in calls <==> CompensatingRevoke(env.cleanupOk) !in calls)
      ensures report.cleanup.attempted <==> CompensatingRevoke(env.cleanupOk) in calls
      ensures report.cleanup.revoked <==> report.cleanup.attempted && env.cleanupOk
      ensures err == report.failure && (err.None? <==> report.phase == Complete)
      ensures report.valid <==> TrialValid(env, preflightMaxAge)
      ensures err.None? <==> TrialValid(env, preflightMaxAge) && Conforms(env, enforce)
      ensures err.Some? ==> report.phase == FailedAt(env, preflightMaxAge)
      ensures report.valid && env.revoke.requestAt <= env.revokeRequestAt ==>
        WithinAge(report.preflight, preflightMaxAge)
      ensures Observes(env, preflightMaxAge) ==>
        report.revokeAckAt == env.revoke.ackAt && report.results == env.results && Aged(env, report.preflight)
      ensures ReachesPreflight(env) && EveryProfileHasContract(env) && !Observes(env, preflightMaxAge) ==>
        Recorded(env, report.preflight)
      ensures preflightWrites == if ReachesPreflight(env) then 1 else 0
    {
      report, calls, cleanupArmed, preflightWrites := NEW_REPORT, [IssueCanary(env.issued)], false, 0;
      if !env.issued {
        err := Fail(Issue, "issuing canary");
        return;
      }
      cleanupArmed := true;
      err := Experiment(env);
      if report.valid && env.revoke.requestAt <= env.revokeRequestAt {
        ValidTrialIsCausal(env, preflightMaxAge, report.preflight);
      }
      // The deferred compensating revoke.
      if cleanupArmed {
        calls := calls + [CompensatingRevoke(env.cleanupOk)];
        report := report.(cleanup := Cleanup(true, env.cleanupOk));
      }
    }

    method PersistPreflight(env: Environment) returns (ok: bool)
      modifies this`preflightWrites
      ensures preflightWrites == old(preflightWrites) + 1 && ok == env.preflightStored
    {
      preflightWrites := preflightWrites + 1;
      ok := env.preflightStored;
    }

    /** Failing after the preflight still files the BEFORE evidence; a failed write takes over the verdict. */
    method FailWithPreflight(env: Environment, phase: Phase, message: string) returns (err: Option<Failure>)
      requires phase != Complete
      modifies this`report, this`preflightWrites
      ensures preflightWrites == old(preflightWrites) + 1
      ensures err.Some? && err.value.phase == (if env.preflightStored then phase else PersistEvidence)
      ensures report == old(report).(phase := err.value.phase, failure := err)
    {
      var stored := PersistPreflight(env);
      if !stored {
        err := Fail(PersistEvidence, "persisting preflight evidence");
      } else {
        err := Fail(phase, message);
      }
    }

    /** The report, calls and cleanup flag as they are right after a certificate was issued. */
    ghost predicate Issued(env: Environment)
      reads this
    {
      env.issued && cleanupArmed && calls == [IssueCanary(true)] && report == NEW_REPORT && preflightWrites == 0
    }

    ghost function CallsUpToRevoke(env: Environment): seq<IssuerCall> {
      [IssueCanary(true)] + if ReachesRevoke(env, preflightMaxAge) then [ExperimentRevoke(env.revoke.ok)] else []
    }

    /** The compensating revoke runs exactly when the experiment did not revoke. */
    ghost function Compensation(env: Environment): seq<IssuerCall> {
      if Observes(env, preflightMaxAge) then [] else [CompensatingRevoke(env.cleanupOk)]
    }

    /** From issuance up to the running canary. */
    method UpToCanary(env: Environment) returns (err: Option<Failure>)
      requires env.issued
      modifies this`report
      ensures err.None? <==> ReachesPreflight(env)
      ensures err.Some? ==> err.value.phase == FailedAt(env, preflightMaxAge)
      ensures err.Some? ==> report == old(report).(phase := err.value.phase, failure := err)
      ensures err.None? ==> report == old(report).(phase := Canary)
    {
      report := report.(phase := PersistEvidence);
      if !env.artifactsStored {
        err := Fail(PersistEvidence, "persisting cycle artifacts");
        return;
      }
      if env.stapling.StaplingOn? || env.stapling.StaplingStale? {
        if !env.stapleFetched || !env.stapleGood || !env.stapleValid {
          err := Fail(Canary, "pre-revocation OCSP staple");
          return;
        }
      }
      report := report.(phase := Canary);
      if !env.canaryStarted {
        err := Fail(Canary, "starting canary server");
        return;
      }
      err := None;
    }

    /** From issuance up to and including the revoke request. */
    method UpToRevoke(env: Environment) returns (err: Option<Failure>)
      requires Issued(env)
      modifies this
      ensures err.None? <==> Observes(env, preflightMaxAge)
      ensures calls == CallsUpToRevoke(env)
      ensures cleanupArmed <==> err.Some?
      ensures err.Some? ==> report.failure == err && report.phase == err.value.phase == FailedAt(env, preflightMaxAge)
      ensures err.Some? ==> preflightWrites == if ReachesPreflight(env) then 1 else 0
      ensures err.None? ==> report.failure == None && preflightWrites == 0
      ensures ReachesPreflight(env) && EveryProfileHasContract(env) ==> Recorded(env, report.preflight)
      ensures !report.valid && report.cleanup == Cleanup(false, false)
    {
      err := UpToCanary(env);
      if err.Some? {
        return;
      }
      report := report.(phase := PreflightPhase);
      var preflight, passed := RunPreflight(env);
      report := report.(preflight := preflight);
      if !passed {
        err := FailWithPreflight(env, PreflightPhase, "preflight");
        return;
      }
      var recent := ValidatePreflightAge(env.probes, env.revokeRequestAt);
      if !recent {
        err := FailWithPreflight(env, PreflightPhase, "stale preflight");
        return;
      }
      report := report.(phase := Revoke);
      calls := calls + [ExperimentRevoke(env.revoke.ok)];
      if !env.revoke.ok {
        err := FailWithPreflight(env, Revoke, "revoking canary");
        return;
      }
      cleanupArmed := false;
      err := None;
    }

    method RunPreflight(env: Environment) returns (preflight: seq<Preflight>, passed: bool)
      ensures passed <==> PreflightPasses(env)
      ensures if EveryProfileHasContract(env) then Recorded(env, preflight) else preflight == []
    {
      for i := 0 to |env.probes|
        invariant forall k :: 0 <= k < i ==> env.probes[k].profile in env.contracts
      {
        if env.probes[i].profile !in env.contracts {
          return [], false;
        }
      }
      preflight := [];
      for i := 0 to |env.probes|
        invariant |preflight| == i
        invariant forall k :: 0 <= k < i ==> Records(env, env.probes[k], preflight[k])
      {
        var probe := env.probes[i];
        var o := Observed(probe);
        var met := MatchesBefore(env.contracts[probe.profile].baseline, o);
        preflight := preflight + [Preflight(probe.profile, o.decision, o.reason, met, probe.err, probe.startedAt, 0)];
      }
      for i := 0 to |preflight|
        invariant forall k :: 0 <= k < i ==> preflight[k].err == "" && preflight[k].met
      {
        assert Records(env, env.probes[i], preflight[i]);
        if preflight[i].err != "" || !preflight[i].met {
          return preflight, false;
        }
      }
      assert forall k :: 0 <= k < |env.probes| ==> Records(env, env.probes[k], preflight[k]);
      return preflight, true;
    }

    method ValidatePreflightAge(probes: seq<Probe>, now: int) returns (recent: bool)
      ensures recent <==> FreshAt(probes, now, preflightMaxAge)
    {
      if preflightMaxAge <= 0 { return false; }
      for i := 0 to |probes|
        invariant forall k :: 0 <= k < i ==> probes[k].startedAt != 0 && now - probes[k].startedAt <= preflightMaxAge
      {
        if probes[i].startedAt == 0 { return false; }
        if now - probes[i].startedAt > preflightMaxAge { return false; }
      }
      return true;
    }

    method StampAges(env: Environment)
      requires Recorded(env, report.preflight)
      modifies this`report
      ensures report == old(report).(preflight := report.preflight)
      ensures Aged(env, report.preflight)
    {
      var stamped := [];
      for i := 0 to |report.preflight|
        invariant |stamped| == i
        invariant forall k :: 0 <= k < i ==> AgedRecord(env, env.probes[k], stamped[k])
      {
        assert Records(env, env.probes[i], report.preflight[i]);
        var item := report.preflight[i];
        stamped := stamped + [item.(ageAtRevoke := env.revoke.requestAt - item.startedAt)];
      }
      report := report.(preflight := stamped);
    }

    /** Everything between issuance and the deferred cleanup. */
    method Experiment(env: Environment) returns (err: Option<Failure>)
      requires Issued(env)
      modifies this
      ensures calls == CallsUpToRevoke(env)
      ensures cleanupArmed <==> !(Observes(env, preflightMaxAge))
      ensures err == report.failure && (err.None? <==> report.phase == Complete)
      ensures report.valid <==> TrialValid(env, preflightMaxAge)
      ensures err.None? <==> TrialValid(env, preflightMaxAge) && Conforms(env, enforce)
      ensures err.Some? ==> report.phase == FailedAt(env, preflightMaxAge)
      ensures Observes(env, preflightMaxAge) ==>
        report.revokeAckAt == env.revoke.ackAt && report.results == env.results && Aged(env, report.preflight)
      ensures ReachesPreflight(env) && EveryProfileHasContract(env) && !Observes(env, preflightMaxAge) ==>
        Recorded(env, report.preflight)
      ensures preflightWrites == if ReachesPreflight(env) then 1 else 0
      ensures report.cleanup == Cleanup(false, false)
    {
      err := UpToRevoke(env);
      if err.Some? {
        return;
      }
      StampAges(env);
      report := report.(revokeAckAt := env.revoke.ackAt, phase := Observe, results := env.results);
      report := report.(phase := PersistEvidence);
      var stored := PersistPreflight(env);
      if !stored {
        err := Fail(PersistEvidence, "persisting preflight evidence");
        return;
      }
      if !env.resultsStored {
        err := Fail(PersistEvidence, "persisting post-revocation evidence");
        return;
      }
      if env.publishedStaple && !env.stapleStored {
        err := Fail(PersistEvidence, "persisting published OCSP staple");
        return;
      }
      if env.stapleFailed {
        err := Fail(Observe, "publishing revoked OCSP staple");
        return;
      }
      err := Judge(env);
    }

    method Judge(env: Environment) returns (err: Option<Failure>)
      requires report.results == env.results && !report.valid && report.failure.None?
      modifies this`report
      ensures report.valid <==> forall k :: 0 <= k < |env.results| ==> HarnessClean(env.results[k])
      ensures err.None? <==> report.valid && Conforms(env, enforce)
      ensures err == report.failure && report.phase == if err.None? then Complete else Evaluate
      ensures report == old(report).(valid := report.valid, phase := report.phase, failure := report.failure)
    {
      report := report.(phase := Evaluate);
      for i := 0 to |env.results|
        invariant report == old(report).(phase := Evaluate)
        invariant forall k :: 0 <= k < i ==> HarnessClean(env.results[k])
      {
        if env.results[i].decision == HarnessError || env.results[i].err != "" {
          err := Fail(Evaluate, "profile failed");
          return;
        }
      }
      report := report.(valid := true);
      for i := 0 to |env.results|
        invariant report == old(report).(phase := Evaluate, valid := true)
        invariant forall k :: 0 <= k < i ==> env.results[k].expectationMet && (enforce ==> env.results[k].policyMet)
      {
        if !env.results[i].expectationMet {
          err := Fail(Evaluate, "security regression");
          return;
        }
        if !env.results[i].policyMet && enforce {
          err := Fail(Evaluate, "security policy violation");
          return;
        }
      }
      report := report.(phase := Complete);
      err := None;
    }
  }

  /** Every BEFORE record met its contract, without error, within `maxAge` of the revoke request. */
  ghost predicate WithinAge(recorded: seq<Preflight>, maxAge: int) {
    forall i :: 0 <= i < |recorded| ==> recorded[i].met && recorded[i].err == "" && recorded[i].ageAtRevoke <= maxAge
  }

  /** An issuer that reports no later request time than it was given keeps the limit in every valid trial. */
  lemma ValidTrialIsCausal(env: Environment, maxAge: int, recorded: seq<Preflight>)
    requires TrialValid(env, maxAge) && Aged(env, recorded)
    requires env.revoke.requestAt <= env.revokeRequestAt
    ensures WithinAge(recorded, maxAge)
  {
    forall i | 0 <= i < |recorded|
      ensures recorded[i].met && recorded[i].err == "" && recorded[i].ageAtRevoke <= maxAge
    {
      assert AgedRecord(env, env.probes[i], recorded[i]);
    }
  }

  /** Every valid trial with these two request times keeps the limit. */
  ghost predicate AlwaysWithinAge(maxAge: int, givenAt: int, requestAt: int) {
    forall env, recorded :: KeepsAge(env, recorded, maxAge, givenAt, requestAt)
  }

  ghost predicate KeepsAge(env: Environment, recorded: seq<Preflight>, maxAge: int, givenAt: int, requestAt: int) {
    TrialValid(env, maxAge) && Aged(env, recorded) && env.revokeRequestAt == givenAt
      && env.revoke.requestAt == requestAt
    ==> WithinAge(recorded, maxAge)
  }

  /** A valid trial whose only probe started exactly `maxAge` before the time given to the issuer. */
  lemma OldestProbe(maxAge: int, givenAt: int, requestAt: int) returns (env: Environment, recorded: seq<Preflight>)
    requires 0 < maxAge < givenAt
    ensures TrialValid(env, maxAge) && Aged(env, recorded)
    ensures env.revokeRequestAt == givenAt && env.revoke.requestAt == requestAt
    ensures |recorded| == 1 && recorded[0].ageAtRevoke == maxAge + (requestAt - givenAt)
  {
    var good := Observation(Accept, "STATUS_GOOD");
    var expectation := Expectation(Accept, [], Reject, [REVOKED]);
    var startedAt := givenAt - maxAge;
    env := Environment(true, true, StaplingOff, false, false, false, true,
                       map["curl" := Contract(expectation, expectation)], [Probe("curl", good, "", startedAt)], true,
                       givenAt, RevokeReply(true, requestAt, requestAt), [], false, false, true, true, true);
    recorded := [Preflight("curl", Accept, "STATUS_GOOD", true, "", startedAt, requestAt - startedAt)];
    assert AgedRecord(env, env.probes[0], recorded[0]);
  }

  /**
   The limit on recorded ages holds in every valid trial exactly when the issuer reports no later request
   time than it was given.
   */
  lemma AgeLimitIffNoLaterRequest(maxAge: int, givenAt: int, requestAt: int)
    requires 0 < maxAge < givenAt
    ensures AlwaysWithinAge(maxAge, givenAt, requestAt) <==> requestAt <= givenAt
  {
    if requestAt <= givenAt {
      forall env, recorded ensures KeepsAge(env, recorded, maxAge, givenAt, requestAt) {
        if TrialValid(env, maxAge) && Aged(env, recorded)
           && env.revokeRequestAt == givenAt && env.revoke.requestAt == requestAt
        {
          ValidTrialIsCausal(env, maxAge, recorded);
        }
      }
    } else {
      var env, recorded := OldestProbe(maxAge, givenAt, requestAt);
      assert !KeepsAge(env, recorded, maxAge, givenAt, requestAt);
    }
  }
}
