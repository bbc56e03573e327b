/** What each record of the observe phase rests on: why a member was never probed, and what its evidence was. */
module ObserveRecords {
  import opened Basics
  import opened Profiles
  import opened Polling
  import opened ObservePhase
  import opened ObserveSafety
  import opened ObserveTheorems

  /** A boundary that lets nobody pass: nothing stands for it, it failed, or it opened without a time. */
  ghost predicate Unmet(setup: Setup, s: State, d: Dependency) {
    || BarrierOf(setup, s, d) == None || BarrierOf(setup, s, d) == Some(Failed)
    || BarrierOf(setup, s, d) == Some(Satisfied(0))
  }

  /** Why a member may end without a single probe. */
  ghost predicate Cause(setup: Setup, s: State, m: Member) {
    || m.contract.None?
    || (IsClient(m) &&
          (m.dependencies.None? || s.cancelled || exists d :: d in m.dependencies.value && Unmet(setup, s, d)))
  }

  function Required(m: Member): seq<Dependency> { if m.dependencies.Some? then m.dependencies.value else [] }

  /** Every stamp is of a required boundary and is the time at which that boundary opened. */
  ghost predicate EvidenceTrue(setup: Setup, s: State, m: Member, satisfied: map<Dependency, int>) {
    forall d :: d in satisfied ==>
      d in Required(m) && satisfied[d] != 0 && BarrierOf(setup, s, d) == Some(Satisfied(satisfied[d]))
  }

  ghost predicate RecordTrue(setup: Setup, s: State, m: Member, r: Result) {
    && r.profile == m.profile.name && r.requiredEvidence == Required(m)
    && (if IsClient(m) then EvidenceTrue(setup, s, m, r.evidenceSatisfiedAt)
        else r.evidenceSatisfiedAt == map[IssuerAck := setup.ackAt])
  }

  ghost predicate Accounted(setup: Setup, s: State, m: Member, t: Task) {
    match t
    case Absent => true
    case Gating(_, satisfied) => EvidenceTrue(setup, s, m, satisfied)
    case Running(p, satisfied) =>
      && EvidenceTrue(setup, s, m, satisfied)
      && (p.attempts == 0 ==> p.last == UNOBSERVED && (p.stage.Ready? || p.stage.Top?))
      && (!p.stage.Ready? ==> m.contract.Some?)
    case Finished(r) =>
      && RecordTrue(setup, s, m, r)
      && (r.attempts == 0 ==> !r.expectationMet && (r.decision.HarnessError? ==> Cause(setup, s, m)))
  }

  // ----- one step

  lemma AccountedLater(setup: Setup, s: State, s': State, m: Member, t: Task)
    requires Accounted(setup, s, m, t) && Later(setup, s, s') && (s.cancelled ==> s'.cancelled)
    ensures Accounted(setup, s', m, t)
  {
    if t.Finished? && NeverProbed(t.result) && m.contract.Some? && m.dependencies.Some? && !s.cancelled {
      assert Cause(setup, s, m);
      var d :| d in m.dependencies.value && Unmet(setup, s, d);
      assert Unmet(setup, s', d);
    }
  }

  lemma GatingAccounted(setup: Setup, s: State, i: nat, act: Action, now: int)
    requires TaskEnabled(setup, s, i, act, now) && s.tasks[i].Gating?
    requires TaskOk(setup, s, setup.members[i], s.tasks[i]) && Accounted(setup, s, setup.members[i], s.tasks[i])
    ensures Accounted(setup, s, setup.members[i], TaskStep(setup, s, i, act, now))
  {
    var m, t := setup.members[i], s.tasks[i];
    if act.AwaitEvidence? && m.dependencies.Some? {
      var d := m.dependencies.value[t.next];
      assert d in m.dependencies.value;
      assert Unmet(setup, s, d) ||
        TaskStep(setup, s, i, act, now) == Gating(t.next + 1, t.satisfied[d := BarrierOf(setup, s, d).value.at]);
    }
  }

  lemma PollingAccounted(setup: Setup, s: State, i: nat, act: Action, now: int)
    requires TaskEnabled(setup, s, i, act, now) && s.tasks[i].Running?
    requires TaskOk(setup, s, setup.members[i], s.tasks[i]) && Accounted(setup, s, setup.members[i], s.tasks[i])
    ensures Accounted(setup, s, setup.members[i], TaskStep(setup, s, i, act, now))
  {}

  lemma OthersUntouched(setup: Setup, s: State, act: Action, now: int, i: nat)
    requires Inv(setup, s) && Enabled(setup, s, act, now) && i < |s.tasks| && !(IsTaskAction(act) && act.i == i)
    ensures Step(setup, s, act, now).tasks[i] == s.tasks[i]
  {
    StepInv(setup, s, act, now);
    if !IsTaskAction(act) { OtherCase(setup, s, act, now); }
  }

  lemma StepAccounted(setup: Setup, s: State, act: Action, now: int, i: nat)
    requires Inv(setup, s) && Enabled(setup, s, act, now) && i < |s.tasks|
    requires Accounted(setup, s, setup.members[i], s.tasks[i])
    ensures i < |Step(setup, s, act, now).tasks|
    ensures Accounted(setup, Step(setup, s, act, now), setup.members[i], Step(setup, s, act, now).tasks[i])
  {
    var s' := Step(setup, s, act, now);
    var m := setup.members[i];
    StepInv(setup, s, act, now);
    assert TaskOk(setup, s, m, s.tasks[i]);
    if IsTaskAction(act) && act.i == i {
      var t := TaskStep(setup, s, i, act, now);
      if s.tasks[i].Gating? {
        GatingAccounted(setup, s, i, act, now);
      } else {
        PollingAccounted(setup, s, i, act, now);
      }
      assert s'.tasks[i] == t;
      AccountedLater(setup, s, s', m, t);
    } else {
      OthersUntouched(setup, s, act, now, i);
      AccountedLater(setup, s, s', m, s.tasks[i]);
    }
  }

  lemma {:induction false} RunAccounted(setup: Setup, states: seq<State>, events: seq<Event>, k: nat, i: nat)
    requires IsRun(setup, states, events) && k < |states| && i < |setup.members|
    ensures i < |states[k].tasks| && Accounted(setup, states[k], setup.members[i], states[k].tasks[i])
  {
    if k == 0 {
    } else {
      RunInv(setup, states, events, k - 1);
      RunAccounted(setup, states, events, k - 1, i);
      StepAccounted(setup, states[k - 1], events[k - 1].action, events[k - 1].now, i);
    }
  }

  // ----- whole runs

  /** The converse of `FailedDependencyEndsClient`: nobody ends unprobed without a reason of its own. */
  lemma UnprobedHasCause(setup: Setup, states: seq<State>, events: seq<Event>, k: nat, i: nat)
    requires IsRun(setup, states, events) && k < |states| && i < |setup.members|
    ensures i < |states[k].tasks|
    ensures var m, t := setup.members[i], states[k].tasks[i];
      t.Finished? && t.result.attempts == 0 && t.result.decision.HarnessError? ==>
        || m.contract.None?
        || (IsClient(m) && (m.dependencies.None? || states[k].cancelled))
        || (IsClient(m) && exists d :: d in m.dependencies.value && Unmet(setup, states[k], d))
  {
    RunAccounted(setup, states, events, k, i);
    var m, t := setup.members[i], states[k].tasks[i];
    if t.Finished? && t.result.attempts == 0 && t.result.decision.HarnessError? && m.contract.Some?
       && m.dependencies.Some? && !states[k].cancelled
    {
      assert Cause(setup, states[k], m);
      var d :| d in m.dependencies.value && Unmet(setup, states[k], d);
    }
  }

  /** A finished member's record is its own, and its stamps are the times at which required boundaries opened. */
  lemma RecordsAreTrue(setup: Setup, states: seq<State>, events: seq<Event>, k: nat, i: nat)
    requires IsRun(setup, states, events) && k < |states| && i < |setup.members|
    ensures i < |states[k].tasks|
    ensures states[k].tasks[i].Finished? ==>
      RecordTrue(setup, states[k], setup.members[i], states[k].tasks[i].result)
  {
    RunAccounted(setup, states, events, k, i);
  }

  // ----- what had happened when a client first probed

  /** Time `at` is the earliest confirmation of the revocation by an enabled oracle of `method_`, all of them done. */
  ghost predicate FirstConfirmed(setup: Setup, s: State, method_: CheckMethod, at: int) {
    && OraclesDone(setup, s, method_)
    && (exists i :: Confirmed(setup, s, method_, i, at))
    && (forall i, later :: Confirmed(setup, s, method_, i, later) ==> at <= later)
  }

  /** What the boundary `d` stands for came about at time `at`. */
  ghost predicate CameAbout(setup: Setup, s: State, d: Dependency, at: int) {
    match d
    case IssuerAck => at == setup.ackAt
    case OcspPublished => FirstConfirmed(setup, s, OcspDirect, at)
    case CrlPublished => FirstConfirmed(setup, s, Crl, at)
    case StaplePublished => s.vars.Some? && s.vars.value.Published? && s.vars.value.publishedAt == at
    case Unlisted(_) => false
  }

  lemma OpenedCameAbout(setup: Setup, states: seq<State>, events: seq<Event>, k: nat, d: Dependency, at: int)
    requires IsRun(setup, states, events) && k < |states|
    requires BarrierOf(setup, states[k], d) == Some(Satisfied(at))
    ensures CameAbout(setup, states[k], d, at)
  {
    RunInv(setup, states, events, k);
    match d
    case OcspPublished => PublicationNeedsConfirmation(setup, states, events, k, OcspDirect);
    case CrlPublished => PublicationNeedsConfirmation(setup, states, events, k, Crl);
    case _ =>
  }

  /**
   A client that has probed did so after everything its manifest names had come about: the acknowledgement, the
   earliest confirmation by its enabled oracles, the published staple.
   */
  lemma ProbeFollowsCauses(setup: Setup, states: seq<State>, events: seq<Event>, k: nat, i: nat, d: Dependency)
    returns (at: int)
    requires IsRun(setup, states, events) && k < |states| && i < |setup.members| && IsClient(setup.members[i])
    requires d in Required(setup.members[i])
    requires i < |states[k].tasks| && states[k].tasks[i].Finished? && states[k].tasks[i].result.attempts > 0
    ensures var r := states[k].tasks[i].result;
      && d in r.evidenceSatisfiedAt && r.evidenceSatisfiedAt[d] == at <= r.clientAttemptAt
      && CameAbout(setup, states[k], d, at)
  {
    EvidenceBeforeProbe(setup, states, events, k, i);
    RecordsAreTrue(setup, states, events, k, i);
    at := states[k].tasks[i].result.evidenceSatisfiedAt[d];
    OpenedCameAbout(setup, states, events, k, d, at);
  }
}
