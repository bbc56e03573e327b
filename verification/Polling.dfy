/** Polling one profile after revocation, and the publication evidence drawn from status oracles. */
module Polling {
  import opened Basics
  import opened Profiles

  /** The polling part of the configuration: durations in clock units, zero attempts for no limit. */
  datatype PollConfig = PollConfig(maxWait: int, pollInterval: int, maxAttempts: nat)

  /** What `pollOne` holds between attempts before the first one. */
  const UNOBSERVED := Observation(Inconclusive, HARNESS_FAILURE)

  /** An error from the probe overrides whatever it observed. */
  function Judged(o: Observation, failure: Option<string>): Observation {
    if failure.Some? then Observation(HarnessError, HARNESS_FAILURE) else o
  }

  function BlankResult(profile: string): Result {
    Result(profile, HarnessError, HARNESS_FAILURE, false, false, 0, 0, 0, [], map[], "")
  }

  function MetResult(profile: string, o: Observation, now: int, attempts: nat): Result {
    BlankResult(profile).(decision := o.decision, reason := o.reason, expectationMet := true, decisionAt := now,
                          attempts := attempts)
  }

  function ExhaustedResult(profile: string, o: Observation, lastErr: Option<string>, now: int, attempts: nat): Result {
    BlankResult(profile).(decision := o.decision, reason := o.reason, decisionAt := now, attempts := attempts,
      err := if !o.decision.HarnessError? then ""
             else if lastErr.Some? then lastErr.value else "profile returned an error outcome")
  }

  const CANCELLED := "context canceled"

  function CancelledResult(profile: string, attempts: nat): Result {
    BlankResult(profile).(attempts := attempts, err := CANCELLED)
  }

  function ApplyPolicy(contract: Option<Contract>, r: Result): Result {
    r.(policyMet := contract.Some? && MatchesAfter(contract.value.policy, Observation(r.decision, r.reason)))
  }

  /**
   One turn of the polling loop as the environment plays it: what the probe returns, and the clock readings in
   their order. `started` is the reading after the top of the turn, which an exhausted loop reports.
   */
  datatype Attempt = Attempt(
    top: int, started: int, observation: Observation, failure: Option<string>,
    decided: int, checked: int, waitFrom: int, cancelled: bool)

  function Wait(config: PollConfig, deadline: int, from: int): int {
    if deadline - from < config.pollInterval then deadline - from else config.pollInterval
  }

  predicate Ordered(start: int, turn: Attempt) {
    start <= turn.top <= turn.started <= turn.decided <= turn.checked <= turn.waitFrom
  }

  predicate Follows(config: PollConfig, start: int, turn: Attempt, next: Attempt) {
    && turn.waitFrom <= next.top
    && turn.waitFrom + Wait(config, start + config.maxWait, turn.waitFrom) <= next.top
  }

  /** Clock readings never go back, and a timer that fires has let its wait pass. */
  ghost predicate TurnTimed(config: PollConfig, start: int, env: nat -> Attempt, k: nat) {
    Ordered(start, env(k)) && Follows(config, start, env(k), env(k + 1))
  }

  ghost predicate Timed(config: PollConfig, start: int, env: nat -> Attempt) {
    forall k: nat :: TurnTimed(config, start, env, k)
  }

  function TimeLeft(deadline: int, env: nat -> Attempt, k: nat): nat {
    if env(k).top < deadline then deadline - env(k).top else 0
  }

  /** A turn that does not end polling brings the deadline closer. */
  lemma TurnPasses(config: PollConfig, start: int, env: nat -> Attempt, k: nat)
    requires Timed(config, start, env) && config.pollInterval > 0 && env(k).top < start + config.maxWait
    ensures TimeLeft(start + config.maxWait, env, k + 1) < TimeLeft(start + config.maxWait, env, k)
  {
    assert TurnTimed(config, start, env, k);
  }

  function ObservationAt(env: nat -> Attempt, k: nat): Observation { Judged(env(k).observation, env(k).failure) }

  /** The last thing seen in `n` attempts. */
  function LastSeen(env: nat -> Attempt, n: nat): Observation {
    if n == 0 then UNOBSERVED else ObservationAt(env, n - 1)
  }

  /** The check after attempt `n - 1` ends polling: by count or by the clock. */
  predicate OutAfterProbe(config: PollConfig, deadline: int, env: nat -> Attempt, n: nat) {
    n > 0 && ((config.maxAttempts > 0 && n >= config.maxAttempts) || env(n - 1).checked > deadline)
  }

  /** The wait after attempt `n - 1` is cut short. */
  predicate GaveUp(config: PollConfig, deadline: int, env: nat -> Attempt, n: nat) {
    n > 0 && env(n - 1).cancelled && Wait(config, deadline, env(n - 1).waitFrom) > 0
  }

  predicate ReachesTop(config: PollConfig, deadline: int, env: nat -> Attempt, n: nat) {
    !OutAfterProbe(config, deadline, env, n) && !GaveUp(config, deadline, env, n)
  }

  predicate Goes(config: PollConfig, deadline: int, env: nat -> Attempt, n: nat) {
    ReachesTop(config, deadline, env, n) && env(n).top < deadline
  }

  /** Attempt `k` was made within budget and did not match. */
  ghost predicate Tried(config: PollConfig, x: Expectation, deadline: int, env: nat -> Attempt, k: nat) {
    Goes(config, deadline, env, k) && !MatchesAfter(x, ObservationAt(env, k))
  }

  ghost predicate KeptTrying(config: PollConfig, x: Expectation, deadline: int, env: nat -> Attempt, n: nat) {
    forall k: nat :: k < n ==> Tried(config, x, deadline, env, k)
  }

  /** The record is the profile's own, and the loop itself adds no evidence, attempt time or policy verdict. */
  predicate FreshRecord(r: Result, profile: string) {
    r.profile == profile && r.requiredEvidence == [] && r.evidenceSatisfiedAt == map[] && r.clientAttemptAt == 0
      && !r.policyMet
  }

  /** What is reported for a failed attempt: its own error, or that the profile called its outcome an error. */
  function FailureText(failure: Option<string>): string {
    match failure
    case Some(text) => text
    case None => "profile returned an error outcome"
  }

  /** The error kept from attempt to attempt is that of the last one, if that was a harness error. */
  ghost predicate KeepsError(env: nat -> Attempt, n: nat, lastErr: Option<string>) {
    LastSeen(env, n).decision.HarnessError? ==> lastErr == env(n - 1).failure
  }

  /** The three ways polling ends after `r.attempts` attempts, each with the error it reports. */
  ghost predicate EndsMet(config: PollConfig, x: Expectation, deadline: int, env: nat -> Attempt, r: Result) {
    var n := r.attempts;
    && n > 0 && r.expectationMet && KeptTrying(config, x, deadline, env, n - 1)
    && Goes(config, deadline, env, n - 1)
    && MatchesAfter(x, ObservationAt(env, n - 1))
    && Observation(r.decision, r.reason) == ObservationAt(env, n - 1) && r.decisionAt == env(n - 1).decided
    && r.err == ""
  }

  ghost predicate EndsExhausted(config: PollConfig, x: Expectation, deadline: int, env: nat -> Attempt, r: Result) {
    var n := r.attempts;
    && !r.expectationMet && KeptTrying(config, x, deadline, env, n)
    && Observation(r.decision, r.reason) == LastSeen(env, n)
    && r.err == (if LastSeen(env, n).decision.HarnessError? then FailureText(env(n - 1).failure) else "")
    && if OutAfterProbe(config, deadline, env, n) then r.decisionAt == env(n - 1).decided
       else !GaveUp(config, deadline, env, n) && env(n).top >= deadline && r.decisionAt == env(n).started
  }

  ghost predicate EndsCancelled(config: PollConfig, x: Expectation, deadline: int, env: nat -> Attempt, r: Result) {
    var n := r.attempts;
    && !r.expectationMet && KeptTrying(config, x, deadline, env, n)
    && !OutAfterProbe(config, deadline, env, n) && GaveUp(config, deadline, env, n)
    && Observation(r.decision, r.reason) == Observation(HarnessError, HARNESS_FAILURE) && r.decisionAt == 0
    && r.err == CANCELLED
  }

  ghost predicate Ends(config: PollConfig, x: Expectation, deadline: int, env: nat -> Attempt, r: Result) {
    || EndsMet(config, x, deadline, env, r)
    || EndsExhausted(config, x, deadline, env, r)
    || EndsCancelled(config, x, deadline, env, r)
  }

  /** What the ways of ending fix of a result. */
  predicate SameOutcome(r: Result, q: Result) {
    && r.attempts == q.attempts && r.decision == q.decision && r.reason == q.reason
    && r.expectationMet == q.expectationMet && r.decisionAt == q.decisionAt
    && r.err == q.err
  }

  ghost predicate Reaches(config: PollConfig, x: Expectation, deadline: int, env: nat -> Attempt, n: nat) {
    (n > 0 ==> Tried(config, x, deadline, env, n - 1)) && Goes(config, deadline, env, n)
  }

  lemma StopsThere(config: PollConfig, x: Expectation, deadline: int, env: nat -> Attempt, r: Result)
    requires Ends(config, x, deadline, env, r)
    ensures !Reaches(config, x, deadline, env, r.attempts)
    ensures r.expectationMet <==> r.attempts > 0 && MatchesAfter(x, ObservationAt(env, r.attempts - 1))
  {
    var n := r.attempts;
    if !r.expectationMet && n > 0 { assert Tried(config, x, deadline, env, n - 1); }
  }

  lemma GotThere(config: PollConfig, x: Expectation, deadline: int, env: nat -> Attempt, r: Result, n: nat)
    requires Ends(config, x, deadline, env, r) && n < r.attempts
    ensures Reaches(config, x, deadline, env, n)
  {
    if n > 0 { assert Tried(config, x, deadline, env, n - 1); }
    assert (r.expectationMet && n == r.attempts - 1) || Tried(config, x, deadline, env, n);
  }

  /** An error is reported only beside an unmet harness error: an observation, even an unwelcome one, has none. */
  lemma ErrorOnlyForHarness(config: PollConfig, x: Expectation, deadline: int, env: nat -> Attempt, r: Result)
    requires Ends(config, x, deadline, env, r)
    ensures r.err != "" ==> r.decision.HarnessError? && !r.expectationMet
    ensures r.decision.HarnessError? && !r.expectationMet && r.err == "" ==>
      r.attempts > 0 && env(r.attempts - 1).failure == Some("")
  {}

  /** The turns an environment plays leave the loop one outcome. */
  lemma OutcomeIsDetermined(config: PollConfig, x: Expectation, deadline: int, env: nat -> Attempt, r: Result,
                            q: Result)
    requires Ends(config, x, deadline, env, r) && Ends(config, x, deadline, env, q)
    ensures SameOutcome(r, q)
  {
    StopsThere(config, x, deadline, env, r);
    StopsThere(config, x, deadline, env, q);
    if r.attempts < q.attempts { GotThere(config, x, deadline, env, q, r.attempts); }
    if q.attempts < r.attempts { GotThere(config, x, deadline, env, r, q.attempts); }
  }

  /** The loop is at its top after `n` attempts. */
  ghost predicate UnderWay(config: PollConfig, x: Expectation, deadline: int, env: nat -> Attempt, n: nat) {
    KeptTrying(config, x, deadline, env, n) && ReachesTop(config, deadline, env, n)
  }

  lemma ExitAtTop(config: PollConfig, x: Expectation, deadline: int, env: nat -> Attempt, profile: string,
                  lastErr: Option<string>, n: nat)
    requires UnderWay(config, x, deadline, env, n) && env(n).top >= deadline && KeepsError(env, n, lastErr)
    ensures Ends(config, x, deadline, env, ExhaustedResult(profile, LastSeen(env, n), lastErr, env(n).started, n))
    ensures config.maxAttempts > 0 ==> n <= config.maxAttempts
  {}

  lemma ExitMet(config: PollConfig, x: Expectation, deadline: int, env: nat -> Attempt, profile: string, n: nat)
    requires UnderWay(config, x, deadline, env, n) && env(n).top < deadline
    requires MatchesAfter(x, ObservationAt(env, n))
    ensures Ends(config, x, deadline, env, MetResult(profile, ObservationAt(env, n), env(n).decided, n + 1))
    ensures config.maxAttempts > 0 ==> n + 1 <= config.maxAttempts
  {}

  lemma TryAgain(config: PollConfig, x: Expectation, deadline: int, env: nat -> Attempt, n: nat)
    requires UnderWay(config, x, deadline, env, n) && env(n).top < deadline
    requires !MatchesAfter(x, ObservationAt(env, n))
    ensures KeptTrying(config, x, deadline, env, n + 1)
    ensures config.maxAttempts > 0 ==> n + 1 <= config.maxAttempts
  {}

  lemma ExitAfterProbe(config: PollConfig, x: Expectation, deadline: int, env: nat -> Attempt, profile: string,
                       lastErr: Option<string>, n: nat)
    requires KeptTrying(config, x, deadline, env, n) && OutAfterProbe(config, deadline, env, n)
    requires KeepsError(env, n, lastErr)
    ensures Ends(config, x, deadline, env,
                 ExhaustedResult(profile, ObservationAt(env, n - 1), lastErr, env(n - 1).decided, n))
  {}

  lemma ExitCancelled(config: PollConfig, x: Expectation, deadline: int, env: nat -> Attempt, profile: string, n: nat)
    requires KeptTrying(config, x, deadline, env, n)
    requires !OutAfterProbe(config, deadline, env, n) && GaveUp(config, deadline, env, n)
    ensures Ends(config, x, deadline, env, CancelledResult(profile, n))
  {}

  /** The deferred stamping of attempt time and policy leaves the outcome alone. */
  lemma Stamped(config: PollConfig, x: Expectation, deadline: int, env: nat -> Attempt, r: Result,
                contract: Option<Contract>, first: int)
    requires Ends(config, x, deadline, env, r)
    ensures Ends(config, x, deadline, env, ApplyPolicy(contract, r.(clientAttemptAt := first)))
  {}

  function RemainingAt(deadline: int, env: nat -> Attempt, k: nat): int { deadline - env(k).top }

  /** Every attempt starts before the deadline and may run no longer than the time left. */
  ghost predicate WithinWait(timeouts: seq<int>, timeout: int, deadline: int, env: nat -> Attempt) {
    forall k :: 0 <= k < |timeouts| ==> 0 < timeouts[k] <= timeout && timeouts[k] <= RemainingAt(deadline, env, k)
  }

  lemma OneMoreTimeout(timeouts: seq<int>, more: int, timeout: int, deadline: int, env: nat -> Attempt)
    requires WithinWait(timeouts, timeout, deadline, env)
    requires 0 < more <= timeout && more <= RemainingAt(deadline, env, |timeouts|)
    ensures WithinWait(timeouts + [more], timeout, deadline, env)
  {}

  /** One turn with time left: the probe's answer, the checks after it and the wait. */
  method TakeTurn(config: PollConfig, profile: string, x: Expectation, deadline: int, ghost env: nat -> Attempt,
                  turn: Attempt, attempts: nat, lastErr: Option<string>)
    returns (observation: Observation, err: Option<string>, ended: Option<Result>)
    requires UnderWay(config, x, deadline, env, attempts) && turn == env(attempts) && turn.top < deadline
    ensures observation == LastSeen(env, attempts + 1)
    ensures ended.None? ==>
      UnderWay(config, x, deadline, env, attempts + 1) && KeepsError(env, attempts + 1, err)
    ensures ended.Some? ==> Ends(config, x, deadline, env, ended.value) && ended.value.attempts == attempts + 1
    ensures ended.Some? ==> FreshRecord(ended.value, profile)
    ensures config.maxAttempts > 0 ==> attempts + 1 <= config.maxAttempts
  {
    observation := Judged(turn.observation, turn.failure);
    err := lastErr;
    if MatchesAfter(x, observation) {
      ExitMet(config, x, deadline, env, profile, attempts);
      return observation, err, Some(MetResult(profile, observation, turn.decided, attempts + 1));
    }
    TryAgain(config, x, deadline, env, attempts);
    if observation.decision == HarnessError {
      err := turn.failure;
    }
    if turn.checked > deadline || (config.maxAttempts > 0 && attempts + 1 >= config.maxAttempts) {
      ExitAfterProbe(config, x, deadline, env, profile, err, attempts + 1);
      return observation, err, Some(ExhaustedResult(profile, observation, err, turn.decided, attempts + 1));
    }
    if Wait(config, deadline, turn.waitFrom) > 0 && turn.cancelled {
      ExitCancelled(config, x, deadline, env, profile, attempts + 1);
      return observation, err, Some(CancelledResult(profile, attempts + 1));
    }
    ended := None;
  }

  /** The polling loop; `timeouts` are the attempt timeouts handed to the probe. */
  method PollLoop(config: PollConfig, profile: string, timeout: int, x: Expectation, start: int, env: nat -> Attempt)
    returns (r: Result, timeouts: seq<int>)
    requires config.pollInterval > 0 && timeout > 0
    requires Timed(config, start, env)
    ensures |timeouts| == r.attempts && WithinWait(timeouts, timeout, start + config.maxWait, env)
    ensures config.maxAttempts > 0 ==> r.attempts <= config.maxAttempts
    ensures Ends(config, x, start + config.maxWait, env, r) && FreshRecord(r, profile)
  {
    var deadline := start + config.maxWait;
    var attempts: nat := 0;
    var lastErr: Option<string> := None;
    var lastObservation := UNOBSERVED;
    timeouts := [];
    ghost var left := TimeLeft(deadline, env, 0);
    while true
      invariant |timeouts| == attempts && WithinWait(timeouts, timeout, deadline, env)
      invariant lastObservation == LastSeen(env, attempts) && KeepsError(env, attempts, lastErr)
      invariant UnderWay(config, x, deadline, env, attempts)
      invariant left == TimeLeft(deadline, env, attempts)
      decreases left
    {
      var turn := env(attempts);
      var remaining := RemainingAt(deadline, env, attempts);
      if remaining <= 0 {
        ExitAtTop(config, x, deadline, env, profile, lastErr, attempts);
        return ExhaustedResult(profile, lastObservation, lastErr, turn.started, attempts), timeouts;
      }
      TurnPasses(config, start, env, attempts);
      var attemptTimeout := if remaining < timeout then remaining else timeout;
      OneMoreTimeout(timeouts, attemptTimeout, timeout, deadline, env);
      timeouts := timeouts + [attemptTimeout];
      var ended: Option<Result>;
      lastObservation, lastErr, ended :=
        TakeTurn(config, profile, x, deadline, env, turn, attempts, lastErr);
      attempts := attempts + 1;
      left := TimeLeft(deadline, env, attempts);
      if ended.Some? {
        return ended.value, timeouts;
      }
    }
  }

  /** `pollOne`: the loop for a profile with a contract, then the deferred attempt time and policy verdict. */
  method PollOne(config: PollConfig, profile: string, timeout: int, contract: Option<Contract>, start: int,
                 env: nat -> Attempt)
    returns (r: Result, timeouts: seq<int>)
    requires config.pollInterval > 0 && timeout > 0
    requires Timed(config, start, env)
    ensures r.policyMet <==> contract.Some? && MatchesAfter(contract.value.policy, Observation(r.decision, r.reason))
    ensures |timeouts| == r.attempts && WithinWait(timeouts, timeout, start + config.maxWait, env)
    ensures config.maxAttempts > 0 ==> r.attempts <= config.maxAttempts
    ensures r.clientAttemptAt == if r.attempts > 0 then env(0).started else 0
    ensures r.profile == profile && r.requiredEvidence == [] && r.evidenceSatisfiedAt == map[]
    ensures r.err != "" ==> r.decision.HarnessError? && !r.expectationMet
    ensures contract.None? ==> r.attempts == 0 && r.decision == HarnessError && !r.expectationMet && r.err != ""
    ensures contract.Some? ==> Ends(config, contract.value.baseline, start + config.maxWait, env, r)
  {
    if contract.None? {
      return ApplyPolicy(contract, BlankResult(profile).(err := "profile has no expectation for scenario")), [];
    }
    r, timeouts := PollLoop(config, profile, timeout, contract.value.baseline, start, env);
    var firstAttempt := if r.attempts > 0 then env(0).started else 0;
    ErrorOnlyForHarness(config, contract.value.baseline, start + config.maxWait, env, r);
    Stamped(config, contract.value.baseline, start + config.maxWait, env, r, contract, firstAttempt);
    r := ApplyPolicy(contract, r.(clientAttemptAt := firstAttempt));
  }

  // ----- publication evidence

  predicate ConfirmsRevocation(r: Result) {
    r.decision == Reject && r.reason == REVOKED && r.decisionAt != 0
  }

  /** `at` is the earliest moment any of the oracles confirmed the revocation. */
  ghost predicate EarliestConfirmation(results: seq<Result>, at: int) {
    && (exists k :: 0 <= k < |results| && ConfirmsRevocation(results[k]) && results[k].decisionAt == at)
    && (forall k :: 0 <= k < |results| && ConfirmsRevocation(results[k]) ==> at <= results[k].decisionAt)
  }

  ghost predicate Unconfirmed(results: seq<Result>) {
    forall k :: 0 <= k < |results| ==> !ConfirmsRevocation(results[k])
  }

  function Earliest(current: int, candidate: int): int {
    if current == 0 || (candidate != 0 && candidate < current) then candidate else current
  }

  /** The loop over a method's results; zero when nothing confirmed the revocation. */
  function Publication(results: seq<Result>): int {
    if results == [] then 0
    else
      var before, last := Publication(results[..|results| - 1]), results[|results| - 1];
      if ConfirmsRevocation(last) then Earliest(before, last.decisionAt) else before
  }

  /** Merely finished oracles confirm nothing: only `REJECT`/`REVOKED` results do, and the earliest counts. */
  lemma {:induction false} PublicationMeaning(results: seq<Result>)
    ensures Publication(results) == 0 <==> Unconfirmed(results)
    ensures Publication(results) != 0 ==> EarliestConfirmation(results, Publication(results))
  {
    if results == [] {
    } else {
      var n := |results| - 1;
      PublicationMeaning(results[..n]);
      assert forall k :: 0 <= k < n ==> results[..n][k] == results[k];
      if ConfirmsRevocation(results[n]) {
        if Publication(results[..n]) != 0 {
          var k :| 0 <= k < n && ConfirmsRevocation(results[..n][k])
              && results[..n][k].decisionAt == Publication(results[..n]);
          assert ConfirmsRevocation(results[k]);
        }
      }
    }
  }

  method PublicationEvidence(results: seq<Result>) returns (at: Option<int>)
    ensures at.Some? ==> EarliestConfirmation(results, at.value)
    ensures at.None? <==> Unconfirmed(results)
  {
    var first := 0;
    for i := 0 to |results|
      invariant first == Publication(results[..i])
    {
      var result := results[i];
      assert results[..i + 1][..i] == results[..i];
      if result.decision == Reject && result.reason == REVOKED && result.decisionAt != 0 {
        first := Earliest(first, result.decisionAt);
      }
    }
    assert results[..|results|] == results;
    PublicationMeaning(results);
    return if first != 0 then Some(first) else None;
  }
}
