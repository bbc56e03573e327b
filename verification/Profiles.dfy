/** The assurance vocabulary the scenario registry and the runner share. */
module Profiles {

  datatype Role = StatusOracle | ClientExecutor

  datatype CheckMethod = OcspDirect | OcspStapled | Crl | NoMethod

  /** `Unset` is the empty decision a policy leaves in the BEFORE half of its expectation. */
  datatype Decision = Accept | Reject | Inconclusive | HarnessError | Unset

  /** A reason code, as it is written in manifests and reports. */
  type Reason = string

  const REVOKED: Reason := "REVOKED"
  const HARNESS_FAILURE: Reason := "HARNESS_FAILURE"

  datatype Observation = Observation(decision: Decision, reason: Reason)

  datatype Expectation = Expectation(before: Decision, beforeReasons: seq<Reason>, after: Decision,
                                     afterReasons: seq<Reason>)

  predicate ReasonAllowed(reason: Reason, allowed: seq<Reason>) {
    allowed == [] || reason in allowed
  }

  predicate MatchesBefore(x: Expectation, o: Observation) {
    o.decision == x.before && ReasonAllowed(o.reason, x.beforeReasons)
  }

  predicate MatchesAfter(x: Expectation, o: Observation) {
    o.decision == x.after && ReasonAllowed(o.reason, x.afterReasons)
  }

  datatype Contract = Contract(baseline: Expectation, policy: Expectation)

  /** A timeline boundary a manifest may make a profile wait for. */
  datatype Dependency = IssuerAck | OcspPublished | CrlPublished | StaplePublished | Unlisted(name: string)

  datatype Profile = Profile(name: string, role: Role, method_: CheckMethod)

  /** One profile's record in a report. Times are clock readings; zero is Go's unset time. */
  datatype Result = Result(
    profile: string, decision: Decision, reason: Reason,
    expectationMet: bool, policyMet: bool,
    decisionAt: int, clientAttemptAt: int, attempts: nat,
    requiredEvidence: seq<Dependency>, evidenceSatisfiedAt: map<Dependency, int>,
    err: string)
}
