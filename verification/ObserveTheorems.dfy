/** Guarantees of every run of the observe phase: gating, publication, results, and that it ends. */
module ObserveTheorems {
  import opened Basics
  import opened Profiles
  import opened Polling
  import opened ObservePhase
  import opened ObserveSafety

  datatype Event = Event(action: Action, now: int)

  /** `states` is a run of the phase from its start: each event takes one state to the next. */
  ghost predicate IsRun(setup: Setup, states: seq<State>, events: seq<Event>) {
    && |states| == |events| + 1
    && states[0] == Start(setup, states[0].clock) && states[0].clock > 0 && setup.ackAt <= states[0].clock
    && forall k :: 0 <= k < |events| ==>
        && Enabled(setup, states[k], events[k].action, events[k].now)
        && states[k + 1] == Step(setup, states[k], events[k].action, events[k].now)
  }

  lemma {:induction false} RunInv(setup: Setup, states: seq<State>, events: seq<Event>, k: nat)
    requires IsRun(setup, states, events) && k < |states|
    ensures Inv(setup, states[k])
  {
    if k == 0 {
      StartInv(setup, states[0].clock);
    } else {
      RunInv(setup, states, events, k - 1);
      StepInv(setup, states[k - 1], events[k - 1].action, events[k - 1].now);
    }
  }

  // ----- barriers

  /** A barrier that has opened keeps its time or its error for the rest of the run. */
  lemma {:induction false} BarrierWrittenOnce(setup: Setup, states: seq<State>, events: seq<Event>, j: nat, k: nat,
                                              d: Dependency)
    requires IsRun(setup, states, events) && j <= k < |states|
    requires BarrierOf(setup, states[j], d) != Some(Pending)
    ensures BarrierOf(setup, states[k], d) == BarrierOf(setup, states[j], d)
    decreases k
  {
    if j == k {
    } else {
      BarrierWrittenOnce(setup, states, events, j, k - 1, d);
      RunInv(setup, states, events, k - 1);
      StepInv(setup, states[k - 1], events[k - 1].action, events[k - 1].now);
    }
  }

  function GroupOf(s: State, method_: CheckMethod): Group { if method_.OcspDirect? then s.ocsp else s.crl }

  /** Oracle `i` of `method_` finished and confirmed the revocation at time `at`. */
  ghost predicate Confirmed(setup: Setup, s: State, method_: CheckMethod, i: nat, at: int) {
    && i < |s.tasks| && i < |setup.members| && IsOracle(setup.members[i], method_)
    && s.tasks[i].Finished? && ConfirmsRevocation(s.tasks[i].result) && s.tasks[i].result.decisionAt == at
  }

  /** A publication barrier opens only when its oracles are done, with the earliest confirmation or in failure. */
  lemma PublicationNeedsConfirmation(setup: Setup, states: seq<State>, events: seq<Event>, k: nat, method_: CheckMethod)
    requires IsRun(setup, states, events) && k < |states|
    requires method_.OcspDirect? || method_.Crl?
    ensures var s := states[k]; var b := GroupOf(s, method_).barrier;
      && (!b.Pending? ==> OraclesDone(setup, s, method_))
      && (b.Satisfied? ==>
            && (exists i :: Confirmed(setup, s, method_, i, b.at))
            && (forall i, at :: Confirmed(setup, s, method_, i, at) ==> b.at <= at))
      && (b.Failed? ==> forall i, at :: !Confirmed(setup, s, method_, i, at))
  {
    RunInv(setup, states, events, k);
    var s := states[k];
    var g := GroupOf(s, method_);
    var results := Records(g.results);
    if !g.barrier.Pending? {
      assert g.barrier == ResolveGroup(g).barrier;
      PublicationMeaning(results);
      if g.barrier.Satisfied? {
        var e :| 0 <= e < |results| && ConfirmsRevocation(results[e]) && results[e].decisionAt == g.barrier.at;
        assert Confirmed(setup, s, method_, g.results[e].index, g.barrier.at);
      }
      forall i, at | Confirmed(setup, s, method_, i, at) ensures g.barrier.Satisfied? && g.barrier.at <= at {
        assert HasIndex(g.results, i);
        var e :| 0 <= e < |g.results| && g.results[e].index == i;
        assert ConfirmsRevocation(results[e]);
      }
    }
  }

  // ----- clients

  /** Evidence keys are exactly the required ones and no stamp is later than the first attempt. */
  ghost predicate StampedBefore(deps: seq<Dependency>, satisfied: map<Dependency, int>, attemptAt: int) {
    && (forall d :: d in satisfied <==> d in deps)
    && (forall d :: d in satisfied ==> satisfied[d] <= attemptAt)
  }

  lemma HeldKeys(setup: Setup, s: State, deps: seq<Dependency>, satisfied: map<Dependency, int>, bound: int)
    requires EvidenceHeld(setup, s, deps, |deps|, satisfied, bound)
    ensures StampedBefore(deps, satisfied, bound)
    ensures forall d :: d in deps ==> BarrierOf(setup, s, d) == Some(Satisfied(satisfied[d]))
  {
    assert deps[..|deps|] == deps;
    forall d | d in deps ensures Held(setup, s, d, satisfied, bound) {
      var j :| 0 <= j < |deps| && deps[j] == d;
      assert Held(setup, s, deps[j], satisfied, bound);
    }
  }

  /**
   A client that has probed had every manifest dependency satisfied first; its record carries
   exactly the required evidence, stamped no later than its first attempt.
   */
  lemma EvidenceBeforeProbe(setup: Setup, states: seq<State>, events: seq<Event>, k: nat, i: nat)
    requires IsRun(setup, states, events) && k < |states| && i < |setup.members| && IsClient(setup.members[i])
    ensures i < |states[k].tasks|
    ensures var t, m := states[k].tasks[i], setup.members[i];
      && (t.Running? && t.poll.attempts > 0 ==>
            m.dependencies.Some? && StampedBefore(m.dependencies.value, t.satisfied, t.poll.first)
            && forall d :: d in m.dependencies.value ==>
               BarrierOf(setup, states[k], d) == Some(Satisfied(t.satisfied[d])))
      && (t.Finished? && t.result.attempts > 0 ==>
            m.dependencies.Some? && t.result.requiredEvidence == m.dependencies.value
            && StampedBefore(t.result.requiredEvidence, t.result.evidenceSatisfiedAt, t.result.clientAttemptAt))
  {
    RunInv(setup, states, events, k);
    var s, m := states[k], setup.members[i];
    var t := s.tasks[i];
    assert TaskOk(setup, s, m, t);
    if t.Running? && t.poll.attempts > 0 {
      HeldKeys(setup, s, m.dependencies.value, t.satisfied, t.poll.first);
    }
    if t.Finished? && t.result.attempts > 0 {
      HeldKeys(setup, s, m.dependencies.value, t.result.evidenceSatisfiedAt, t.result.clientAttemptAt);
    }
  }

  /** A dependency that failed, or that no barrier stands for, ends its clients in a harness error with no probe. */
  lemma FailedDependencyEndsClient(setup: Setup, states: seq<State>, events: seq<Event>, k: nat, i: nat, d: Dependency)
    requires IsRun(setup, states, events) && k < |states| && i < |setup.members| && IsClient(setup.members[i])
    requires setup.members[i].dependencies.Some? && d in setup.members[i].dependencies.value
    requires BarrierOf(setup, states[k], d) == Some(Failed) || BarrierOf(setup, states[k], d) == None
    ensures i < |states[k].tasks| && !states[k].tasks[i].Running?
    ensures states[k].tasks[i].Finished? ==> NeverProbed(states[k].tasks[i].result)
  {
    RunInv(setup, states, events, k);
    var s, m := states[k], setup.members[i];
    var t := s.tasks[i];
    assert TaskOk(setup, s, m, t);
    var deps := m.dependencies.value;
    var j :| 0 <= j < |deps| && deps[j] == d;
    assert forall satisfied, bound :: !Held(setup, s, deps[j], satisfied, bound);
  }

  // ----- the collector

  ghost predicate OneResultEach(setup: Setup, w: Waiter, list: seq<Entry>) {
    && (forall k :: 0 <= k < |list| ==> list[k].index < |setup.members| && Collects(w, setup.members[list[k].index]))
    && OncePerIndex(list)
    && (forall i: nat :: i < |setup.members| && Collects(w, setup.members[i]) ==> HasIndex(list, i))
  }

  /** A run that ends has one result for every enabled client and every enabled OCSP or CRL oracle, and no other. */
  lemma CollectedResults(setup: Setup, states: seq<State>, events: seq<Event>, k: nat)
    requires IsRun(setup, states, events) && k < |states| && states[k].main.Collected?
    ensures OneResultEach(setup, ForClients, states[k].clients)
    ensures OneResultEach(setup, ForOracles(OcspDirect), states[k].ocsp.results)
    ensures OneResultEach(setup, ForOracles(Crl), states[k].crl.results)
  {
    RunInv(setup, states, events, k);
  }

  /** The staple goroutine's variables are written before its barrier opens, hence before they are collected. */
  lemma StapleWrittenBeforeOpen(setup: Setup, states: seq<State>, events: seq<Event>, k: nat)
    requires IsRun(setup, states, events) && k < |states| && setup.staplingOn
    requires !states[k].staple.Pending? || states[k].main.Collected?
    ensures var s := states[k];
      && s.vars.Some?
      && (s.staple.Satisfied? <==> s.vars.value.Published?)
      && (s.staple.Satisfied? ==> s.vars.value.sourceAt <= s.staple.at == s.vars.value.publishedAt)
  {
    RunInv(setup, states, events, k);
  }

  // ----- no deadlock

  lemma PollCanStep(setup: Setup, s: State, i: nat) returns (act: Action, now: int)
    requires Inv(setup, s) && i < |s.tasks| && s.tasks[i].Running?
    ensures Enabled(setup, s, act, now) && !act.CancelContext?
  {
    var p := s.tasks[i].poll;
    now := s.clock;
    match p.stage
    case Ready => act := BeginPolling(i);
    case Top => act := BeginAttempt(i, s.clock);
    case Probing => act := EndAttempt(i, UNOBSERVED, None, s.clock, s.clock);
    case Sleeping(wake) => act, now := WakeUp(i), if wake > s.clock then wake else s.clock;
  }

  lemma GroupCanStep(setup: Setup, s: State, method_: CheckMethod) returns (act: Action, now: int)
    requires Inv(setup, s) && (method_.OcspDirect? || method_.Crl?) && !GroupOf(s, method_).phase.Sent?
    ensures Enabled(setup, s, act, now) && !act.CancelContext?
  {
    now := s.clock;
    if GroupOf(s, method_).phase.Resolved? {
      act := if method_.OcspDirect? then SendOcsp else SendCrl;
    } else if OraclesDone(setup, s, method_) {
      act := if method_.OcspDirect? then ResolveOcsp else ResolveCrl;
    } else {
      var i :| 0 <= i < |setup.members| && IsOracle(setup.members[i], method_) && !s.tasks[i].Finished?;
      assert TaskOk(setup, s, setup.members[i], s.tasks[i]);
      act, now := PollCanStep(setup, s, i);
    }
  }

  lemma StapleCanStep(setup: Setup, s: State) returns (act: Action, now: int)
    requires Inv(setup, s) && setup.staplingOn && s.staple.Pending?
    ensures Enabled(setup, s, act, now) && !act.CancelContext?
  {
    act := StapleStep(true);
    now := if s.stapler.StapleSleeping? && s.stapler.wake > s.clock then s.stapler.wake else s.clock;
  }

  lemma ClientCanStep(setup: Setup, s: State, i: nat) returns (act: Action, now: int)
    requires Inv(setup, s) && i < |s.tasks| && IsClient(setup.members[i]) && !s.tasks[i].Finished?
    ensures Enabled(setup, s, act, now) && !act.CancelContext?
  {
    var t, m := s.tasks[i], setup.members[i];
    assert TaskOk(setup, s, m, t);
    now := s.clock;
    if t.Running? {
      act, now := PollCanStep(setup, s, i);
    } else if m.dependencies.Some? && t.next == |m.dependencies.value| {
      act := BeginPolling(i);
    } else if m.dependencies.Some? && BarrierOf(setup, s, m.dependencies.value[t.next]) == Some(Pending) {
      match m.dependencies.value[t.next]
      case OcspPublished => act, now := GroupCanStep(setup, s, OcspDirect);
      case CrlPublished => act, now := GroupCanStep(setup, s, Crl);
      case StaplePublished => act, now := StapleCanStep(setup, s);
      case IssuerAck => assert false;
      case Unlisted(_) => assert false;
    } else {
      act := AwaitEvidence(i);
    }
  }

  /** Until the results are collected some goroutine can move, cancelled or not. */
  lemma NoDeadlock(setup: Setup, states: seq<State>, events: seq<Event>, k: nat)
    requires IsRun(setup, states, events) && k < |states| && !states[k].main.Collected?
    ensures exists act, now :: Enabled(setup, states[k], act, now) && !act.CancelContext?
  {
    RunInv(setup, states, events, k);
    var s := states[k];
    var act, now;
    if CollectEnabled(setup, s) {
      act, now := Collect, s.clock;
    } else {
      match s.main
      case AwaitClients =>
        var i :| 0 <= i < |setup.members| && IsClient(setup.members[i]) && !s.tasks[i].Finished?;
        act, now := ClientCanStep(setup, s, i);
      case AwaitOcsp => act, now := GroupCanStep(setup, s, OcspDirect);
      case AwaitCrl => act, now := GroupCanStep(setup, s, Crl);
      case AwaitStaple => act, now := StapleCanStep(setup, s);
    }
    assert Enabled(setup, s, act, now);
  }

  // ----- every run ends

  /** Turns a polling loop can still make: none takes less than one clock unit away from its deadline. */
  function LoopBudget(maxWait: int): nat { 4 * Max0(maxWait) + 5 }

  function PollMeasure(setup: Setup, p: Poll, clock: int): nat {
    var left := Max0(p.deadline - clock);
    match p.stage
    case Ready => LoopBudget(setup.config.maxWait)
    case Top => if left == 0 then 1 else 4 * left + 4
    case Probing => 4 * left + 3
    case Sleeping(wake) => 4 * Max0(p.deadline - (if wake > clock then wake else clock)) + 5
  }

  function TaskMeasure(setup: Setup, m: Member, t: Task, clock: int): nat {
    match t
    case Absent => 0
    case Gating(next, _) =>
      LoopBudget(setup.config.maxWait) + 1 + (if m.dependencies.Some? then Max0(|m.dependencies.value| - next) else 0)
    case Running(p, _) => PollMeasure(setup, p, clock)
    case Finished(_) => 0
  }

  function TasksMeasure(setup: Setup, tasks: seq<Task>, clock: int): nat
    requires |tasks| <= |setup.members|
  {
    if tasks == [] then 0
    else
      var n := |tasks| - 1;
      TasksMeasure(setup, tasks[..n], clock) + TaskMeasure(setup, setup.members[n], tasks[n], clock)
  }

  function StapleMeasure(setup: Setup, s: State): nat {
    match s.stapler
    case Off => 0
    case StapleReady => LoopBudget(setup.config.maxWait) + 5
    case StapleTop(d) => (if d <= s.clock then 1 else 4 * (d - s.clock) + 4) + 5
    case Fetching(d) => 4 * Max0(d - s.clock) + 3 + 5
    case StapleSleeping(d, wake) => 4 * Max0(d - (if wake > s.clock then wake else s.clock)) + 5 + 5
    case Publishing(_) => 4
    case Returned(_) => 3
    case Written(_) => 2
    case Open => 0
  }

  function GroupMeasure(g: Group): nat { if g.phase.Gathering? then 2 else if g.phase.Resolved? then 1 else 0 }

  function MainMeasure(m: Main): nat {
    match m case AwaitClients => 4 case AwaitOcsp => 3 case AwaitCrl => 2 case AwaitStaple => 1 case Collected => 0
  }

  /** Steps still possible, counted from the time left, the attempts in hand and the goroutines' progress. */
  function Measure(setup: Setup, s: State): nat
    requires |s.tasks| == |setup.members|
  {
    TasksMeasure(setup, s.tasks, s.clock) + StapleMeasure(setup, s) + GroupMeasure(s.ocsp) + GroupMeasure(s.crl)
    + MainMeasure(s.main) + (if s.cancelled then 0 else 1)
  }

  lemma {:induction false} TasksLater(setup: Setup, tasks: seq<Task>, clock: int, now: int)
    requires |tasks| <= |setup.members| && clock <= now
    ensures TasksMeasure(setup, tasks, now) <= TasksMeasure(setup, tasks, clock)
  {
    if tasks == [] {
    } else {
      TasksLater(setup, tasks[..|tasks| - 1], clock, now);
    }
  }

  lemma {:induction false} TasksPut(setup: Setup, tasks: seq<Task>, i: nat, t: Task, clock: int)
    requires i < |tasks| <= |setup.members|
    ensures TasksMeasure(setup, tasks[i := t], clock) ==
      TasksMeasure(setup, tasks, clock) - TaskMeasure(setup, setup.members[i], tasks[i], clock)
        + TaskMeasure(setup, setup.members[i], t, clock)
  {
    var n := |tasks| - 1;
    var put := tasks[i := t];
    if i == n {
      assert put[..n] == tasks[..n];
    } else {
      TasksPut(setup, tasks[..n], i, t, clock);
      assert put[..n] == tasks[..n][i := t];
    }
  }

  lemma TaskStepShrinks(setup: Setup, s: State, i: nat, act: Action, now: int)
    requires setup.config.pollInterval > 0 && s.clock <= now && TaskEnabled(setup, s, i, act, now)
    ensures TaskMeasure(setup, setup.members[i], TaskStep(setup, s, i, act, now), now)
          < TaskMeasure(setup, setup.members[i], s.tasks[i], s.clock)
  {}

  /** A task steps down while, as time passes, no other task's measure grows. */
  lemma TasksShrink(setup: Setup, s: State, i: nat, act: Action, now: int)
    requires |s.tasks| == |setup.members|
    requires setup.config.pollInterval > 0 && s.clock <= now && TaskEnabled(setup, s, i, act, now)
    ensures TasksMeasure(setup, s.tasks[i := TaskStep(setup, s, i, act, now)], now)
            < TasksMeasure(setup, s.tasks, s.clock)
  {
    var t := TaskStep(setup, s, i, act, now);
    TaskStepShrinks(setup, s, i, act, now);
    TasksPut(setup, s.tasks, i, t, s.clock);
    TasksPut(setup, s.tasks[i := t], i, Absent, s.clock);
    TasksPut(setup, s.tasks[i := t], i, Absent, now);
    TasksLater(setup, s.tasks[i := t][i := Absent], s.clock, now);
  }

  lemma StapleShrinks(setup: Setup, s: State, act: Action, now: int)
    requires setup.config.pollInterval > 0 && Enabled(setup, s, act, now) && (act.StapleStep? || act.StapleGiveUp?)
    ensures StapleMeasure(setup, Step(setup, s, act, now)) < StapleMeasure(setup, s)
  {}

  lemma StapleLater(setup: Setup, s: State, s': State)
    requires s'.stapler == s.stapler && s.clock <= s'.clock
    ensures StapleMeasure(setup, s') <= StapleMeasure(setup, s)
  {}

  lemma TaskMoveShrinks(setup: Setup, s: State, s': State)
    requires |s.tasks| == |s'.tasks| == |setup.members|
    requires s'.stapler == s.stapler && s.clock <= s'.clock && s'.main == s.main && s'.cancelled == s.cancelled
    requires s'.ocsp.phase == s.ocsp.phase && s'.crl.phase == s.crl.phase
    requires TasksMeasure(setup, s'.tasks, s'.clock) < TasksMeasure(setup, s.tasks, s.clock)
    ensures Measure(setup, s') < Measure(setup, s)
  {
    StapleLater(setup, s, s');
  }

  lemma OtherMoveShrinks(setup: Setup, s: State, act: Action, now: int)
    requires setup.config.pollInterval > 0 && |s.tasks| == |setup.members| && Enabled(setup, s, act, now)
      && !IsTaskAction(act)
    ensures var s' := Step(setup, s, act, now); s'.tasks == s.tasks && Measure(setup, s') < Measure(setup, s)
  {
    var s' := Step(setup, s, act, now);
    TasksLater(setup, s.tasks, s.clock, now);
    if act.StapleStep? || act.StapleGiveUp? {
      StapleShrinks(setup, s, act, now);
    } else {
      StapleLater(setup, s, s');
    }
  }

  /** Every step uses up some of the measure. */
  lemma StepShrinks(setup: Setup, s: State, act: Action, now: int)
    requires setup.config.pollInterval > 0 && |s.tasks| == |setup.members| && Enabled(setup, s, act, now)
    ensures |Step(setup, s, act, now).tasks| == |setup.members|
    ensures Measure(setup, Step(setup, s, act, now)) < Measure(setup, s)
  {
    if IsTaskAction(act) {
      var s' := Step(setup, s, act, now);
      TasksShrink(setup, s, act.i, act, now);
      TaskMoveShrinks(setup, s, s');
    } else {
      OtherMoveShrinks(setup, s, act, now);
    }
  }

  /** No run is longer than its initial measure: with a positive interval every schedule runs out. */
  lemma {:induction false} RunsEnd(setup: Setup, states: seq<State>, events: seq<Event>, k: nat)
    requires IsRun(setup, states, events) && setup.config.pollInterval > 0 && k < |states|
    ensures |states[k].tasks| == |setup.members|
    ensures k + Measure(setup, states[k]) <= Measure(setup, Start(setup, states[0].clock))
  {
    if k == 0 {
    } else {
      RunsEnd(setup, states, events, k - 1);
      StepShrinks(setup, states[k - 1], events[k - 1].action, events[k - 1].now);
    }
  }
}
