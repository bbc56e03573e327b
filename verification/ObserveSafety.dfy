/** What every interleaving of the observe phase keeps. */
module ObserveSafety {
  import opened Basics
  import opened Profiles
  import opened Polling
  import opened ObservePhase

  /** Evidence `d` was recorded with the time its barrier opened, no later than `bound`. */
  ghost predicate Held(setup: Setup, s: State, d: Dependency, satisfied: map<Dependency, int>, bound: int) {
    && d in satisfied && satisfied[d] != 0 && satisfied[d] <= bound
    && BarrierOf(setup, s, d) == Some(Satisfied(satisfied[d]))
  }

  /** Exactly the first `n` dependencies are recorded, and all of them held by `bound`. */
  ghost predicate EvidenceHeld(setup: Setup, s: State, deps: seq<Dependency>, n: nat, satisfied: map<Dependency, int>,
                               bound: int)
  {
    && n <= |deps|
    && (forall j :: 0 <= j < n ==> Held(setup, s, deps[j], satisfied, bound))
    && (forall d :: d in satisfied ==> d in deps[..n])
  }

  ghost predicate NeverProbed(r: Result) {
    r.attempts == 0 && r.decision.HarnessError? && !r.expectationMet
  }

  /** A client's record: all its evidence before its first attempt, or a harness error and no attempt. */
  ghost predicate ClientOutcome(setup: Setup, s: State, deps: seq<Dependency>, r: Result) {
    && r.requiredEvidence == deps
    && (EvidenceHeld(setup, s, deps, |deps|, r.evidenceSatisfiedAt,
                     if r.attempts > 0 then r.clientAttemptAt else s.clock)
        || NeverProbed(r))
  }

  ghost predicate TaskOk(setup: Setup, s: State, m: Member, t: Task) {
    match t
    case Absent => !TakesPart(m)
    case Gating(next, satisfied) =>
      && IsClient(m)
      && (if m.dependencies.Some? then EvidenceHeld(setup, s, m.dependencies.value, next, satisfied, s.clock)
          else next == 0)
    case Running(p, satisfied) =>
      && TakesPart(m) && p.first <= s.clock && (p.attempts == 0 ==> p.first == 0)
      && (IsClient(m) ==>
            && m.dependencies.Some?
            && EvidenceHeld(setup, s, m.dependencies.value, |m.dependencies.value|, satisfied,
                            if p.attempts > 0 then p.first else s.clock))
    case Finished(r) =>
      && TakesPart(m) && r.decisionAt <= s.clock && r.clientAttemptAt <= s.clock
      && (IsClient(m) && m.dependencies.Some? ==> ClientOutcome(setup, s, m.dependencies.value, r))
      && (IsClient(m) && m.dependencies.None? ==> NeverProbed(r))
  }

  /** Which results a waiter collects. */
  datatype Waiter = ForClients | ForOracles(method_: CheckMethod)

  predicate Collects(w: Waiter, m: Member) {
    match w
    case ForClients => IsClient(m)
    case ForOracles(method_) => IsOracle(m, method_)
  }

  ghost predicate EntriesMatch(setup: Setup, s: State, w: Waiter, list: seq<Entry>) {
    forall k :: 0 <= k < |list| ==>
      && list[k].index < |s.tasks| && list[k].index < |setup.members|
      && s.tasks[list[k].index] == Finished(list[k].result)
      && Collects(w, setup.members[list[k].index])
  }

  ghost predicate OncePerIndex(list: seq<Entry>) {
    forall j, k :: 0 <= j < k < |list| ==> list[j].index != list[k].index
  }

  ghost predicate HasIndex(list: seq<Entry>, i: nat) { exists k :: 0 <= k < |list| && list[k].index == i }

  ghost predicate AllListed(setup: Setup, s: State, w: Waiter, list: seq<Entry>) {
    forall i: nat :: i < |s.tasks| && i < |setup.members| && Collects(w, setup.members[i]) && s.tasks[i].Finished? ==>
        HasIndex(list, i)
  }

  /** The list holds each finished member of `w` once, with the result it finished with. */
  ghost predicate ListOk(setup: Setup, s: State, w: Waiter, list: seq<Entry>) {
    EntriesMatch(setup, s, w, list) && OncePerIndex(list) && AllListed(setup, s, w, list)
  }

  ghost predicate GroupOk(setup: Setup, s: State, g: Group, method_: CheckMethod) {
    && ListOk(setup, s, ForOracles(method_), g.results)
    && (g.phase.Gathering? <==> g.barrier.Pending?)
    && (!g.phase.Gathering? ==> OraclesDone(setup, s, method_) && g.barrier == ResolveGroup(g).barrier)
    && (g.barrier.Satisfied? ==> g.barrier.at != 0 && g.barrier.at <= s.clock)
  }

  ghost predicate StapleOk(setup: Setup, s: State) {
    && (setup.staplingOn <==> !s.stapler.Off?)
    && (!setup.staplingOn ==> s.staple == Failed && s.vars == None)
    && (setup.staplingOn ==> (s.staple.Pending? <==> !s.stapler.Open?))
    && (match s.stapler
        case Publishing(at) => 0 < at <= s.clock && s.vars == None
        case Returned(o) => OutcomeOk(s, o) && s.vars == None
        case Written(o) => OutcomeOk(s, o) && s.vars == Some(o)
        case Open => s.vars.Some? && OutcomeOk(s, s.vars.value)
          && s.staple == (if s.vars.value.Published? then Satisfied(s.vars.value.publishedAt) else Failed)
        case _ => s.vars == None)
  }

  ghost predicate OutcomeOk(s: State, o: StapleOutcome) {
    o.Published? ==> 0 < o.sourceAt <= o.publishedAt <= s.clock
  }

  ghost predicate MainOk(setup: Setup, s: State) {
    && (!s.main.AwaitClients? ==> ClientsDone(setup, s))
    && (s.main.AwaitCrl? || s.main.AwaitStaple? || s.main.Collected? ==> s.ocsp.phase.Sent?)
    && (s.main.AwaitStaple? || s.main.Collected? ==> s.crl.phase.Sent?)
    && (s.main.Collected? && setup.staplingOn ==> !s.staple.Pending?)
  }

  ghost predicate Inv(setup: Setup, s: State) {
    && |s.tasks| == |setup.members| && s.clock > 0 && setup.ackAt <= s.clock
    && (forall i :: 0 <= i < |s.tasks| ==> TaskOk(setup, s, setup.members[i], s.tasks[i]))
    && ListOk(setup, s, ForClients, s.clients)
    && GroupOk(setup, s, s.ocsp, OcspDirect) && GroupOk(setup, s, s.crl, Crl)
    && StapleOk(setup, s) && MainOk(setup, s)
  }

  lemma StartInv(setup: Setup, clock: int)
    requires clock > 0 && setup.ackAt <= clock
    ensures Inv(setup, Start(setup, clock))
  {}

  // ----- steps

  /** Time passes and open barriers stay as they are. */
  ghost predicate Later(setup: Setup, s: State, s': State) {
    && s.clock <= s'.clock
    && forall d :: BarrierOf(setup, s, d) != Some(Pending) ==> BarrierOf(setup, s', d) == BarrierOf(setup, s, d)
  }

  lemma HeldLater(setup: Setup, s: State, s': State, deps: seq<Dependency>, n: nat, satisfied: map<Dependency, int>,
                  bound: int, bound': int)
    requires EvidenceHeld(setup, s, deps, n, satisfied, bound) && Later(setup, s, s') && bound <= bound'
    ensures EvidenceHeld(setup, s', deps, n, satisfied, bound')
  {
    forall j | 0 <= j < n ensures Held(setup, s', deps[j], satisfied, bound') {
      assert Held(setup, s, deps[j], satisfied, bound);
    }
  }

  lemma TaskLater(setup: Setup, s: State, s': State, m: Member, t: Task)
    requires TaskOk(setup, s, m, t) && Later(setup, s, s')
    ensures TaskOk(setup, s', m, t)
  {
    if m.dependencies.Some? {
      var deps := m.dependencies.value;
      match t
      case Gating(next, satisfied) => HeldLater(setup, s, s', deps, next, satisfied, s.clock, s'.clock);
      case Running(p, satisfied) =>
        if IsClient(m) {
          HeldLater(setup, s, s', deps, |deps|, satisfied,
            if p.attempts > 0 then p.first else s.clock, if p.attempts > 0 then p.first else s'.clock);
        }
      case Finished(r) =>
        if IsClient(m) && !NeverProbed(r) {
          HeldLater(setup, s, s', deps, |deps|, r.evidenceSatisfiedAt,
            if r.attempts > 0 then r.clientAttemptAt else s.clock,
            if r.attempts > 0 then r.clientAttemptAt else s'.clock);
        }
      case Absent =>
    }
  }

  ghost predicate BarriersOpenedBefore(setup: Setup, s: State) {
    forall d :: BarrierOf(setup, s, d).Some? && BarrierOf(setup, s, d).value.Satisfied? ==>
        BarrierOf(setup, s, d).value.at <= s.clock
  }

  /** One step of one goroutine keeps its own record straight. */
  lemma TaskStepOk(setup: Setup, s: State, i: nat, act: Action, now: int)
    requires TaskEnabled(setup, s, i, act, now) && s.clock <= now && s.clock > 0 && setup.ackAt <= s.clock
    requires TaskOk(setup, s, setup.members[i], s.tasks[i])
    requires BarriersOpenedBefore(setup, s)
    ensures TaskOk(setup, s.(clock := now), setup.members[i], TaskStep(setup, s, i, act, now))
    ensures !s.tasks[i].Finished? && TakesPart(setup.members[i])
  {
    TaskLater(setup, s, s.(clock := now), setup.members[i], s.tasks[i]);
    if s.tasks[i].Gating? {
      GatingStepOk(setup, s, i, act, now);
    } else {
      RunningStepOk(setup, s, i, act, now);
    }
  }

  lemma GatingStepOk(setup: Setup, s: State, i: nat, act: Action, now: int)
    requires TaskEnabled(setup, s, i, act, now) && s.clock <= now && s.clock > 0
    requires s.tasks[i].Gating? && BarriersOpenedBefore(setup, s)
    requires TaskOk(setup, s.(clock := now), setup.members[i], s.tasks[i])
    ensures TaskOk(setup, s.(clock := now), setup.members[i], TaskStep(setup, s, i, act, now))
  {
    var m, t := setup.members[i], s.tasks[i];
    if act.AwaitEvidence? && m.dependencies.Some? {
      var b := BarrierOf(setup, s, m.dependencies.value[t.next]);
      if b.Some? && b.value.Satisfied? && b.value.at != 0 {
        AwaitOk(setup, s.(clock := now), m.dependencies.value, t.next, t.satisfied, b.value.at);
      }
    }
  }

  lemma RunningStepOk(setup: Setup, s: State, i: nat, act: Action, now: int)
    requires TaskEnabled(setup, s, i, act, now) && s.clock <= now && s.clock > 0
    requires s.tasks[i].Running?
    requires TaskOk(setup, s.(clock := now), setup.members[i], s.tasks[i])
    ensures TaskOk(setup, s.(clock := now), setup.members[i], TaskStep(setup, s, i, act, now))
  {}

  lemma AwaitOk(setup: Setup, s: State, deps: seq<Dependency>, n: nat, satisfied: map<Dependency, int>, at: int)
    requires EvidenceHeld(setup, s, deps, n, satisfied, s.clock) && n < |deps|
    requires BarrierOf(setup, s, deps[n]) == Some(Satisfied(at)) && at != 0 && at <= s.clock
    ensures EvidenceHeld(setup, s, deps, n + 1, satisfied[deps[n] := at], s.clock)
  {
    var more := satisfied[deps[n] := at];
    assert deps[..n + 1] == deps[..n] + [deps[n]];
    forall j | 0 <= j < n + 1 ensures Held(setup, s, deps[j], more, s.clock) {
      if j < n { assert Held(setup, s, deps[j], satisfied, s.clock); }
    }
  }

  lemma AppendOk(setup: Setup, s: State, s': State, w: Waiter, list: seq<Entry>, i: nat, t: Task)
    requires |s.tasks| == |setup.members| && i < |s.tasks| && s'.tasks == s.tasks[i := t] && !s.tasks[i].Finished?
    requires ListOk(setup, s, w, list)
    ensures ListOk(setup, s', w,
                   if t.Finished? && Collects(w, setup.members[i]) then list + [Entry(i, t.result)] else list)
  {
    assert forall k :: 0 <= k < |list| ==> list[k].index != i;
    if t.Finished? && Collects(w, setup.members[i]) {
      var list' := list + [Entry(i, t.result)];
      assert EntriesMatch(setup, s', w, list');
      forall x: nat | x < |s'.tasks| && Collects(w, setup.members[x]) && s'.tasks[x].Finished?
        ensures HasIndex(list', x)
      {
        if x == i {
          assert list'[|list|].index == x;
        } else {
          assert HasIndex(list, x);
          var k :| 0 <= k < |list| && list[k].index == x;
          assert list'[k].index == x;
        }
      }
    } else {
      assert EntriesMatch(setup, s', w, list);
      forall x: nat | x < |s'.tasks| && Collects(w, setup.members[x]) && s'.tasks[x].Finished?
        ensures HasIndex(list, x)
      {
        assert x != i;
      }
    }
  }

  lemma BarrierTimes(setup: Setup, s: State)
    requires Inv(setup, s)
    ensures BarriersOpenedBefore(setup, s)
  {}

  /** The parts of the state a task step may touch: its own slot, its waiter's list and the clock. */
  ghost predicate TaskMoved(setup: Setup, s: State, s': State, i: nat, t: Task) {
    && |s.tasks| == |setup.members| && i < |s.tasks| && !s.tasks[i].Finished? && s.clock <= s'.clock
    && s' == PutTask(setup, s.(clock := s'.clock), i, t)
  }

  lemma TaskCaseLists(setup: Setup, s: State, s': State, i: nat, t: Task)
    requires TaskMoved(setup, s, s', i, t)
    requires ListOk(setup, s, ForClients, s.clients)
    requires ListOk(setup, s, ForOracles(OcspDirect), s.ocsp.results)
      && ListOk(setup, s, ForOracles(Crl), s.crl.results)
    requires TakesPart(setup.members[i])
    ensures ListOk(setup, s', ForClients, s'.clients)
    ensures ListOk(setup, s', ForOracles(OcspDirect), s'.ocsp.results)
      && ListOk(setup, s', ForOracles(Crl), s'.crl.results)
  {
    AppendOk(setup, s, s', ForClients, s.clients, i, t);
    AppendOk(setup, s, s', ForOracles(OcspDirect), s.ocsp.results, i, t);
    AppendOk(setup, s, s', ForOracles(Crl), s.crl.results, i, t);
  }

  /** A resolved group's oracles have all finished, so no task step can touch it. */
  lemma GroupUntouched(setup: Setup, s: State, s': State, g: Group, g': Group, method_: CheckMethod, i: nat, t: Task)
    requires GroupOk(setup, s, g, method_) && TaskMoved(setup, s, s', i, t) && s'.tasks == s.tasks[i := t]
    requires g'.phase == g.phase && g'.barrier == g.barrier && ListOk(setup, s', ForOracles(method_), g'.results)
    requires g' == g || IsOracle(setup.members[i], method_)
    ensures GroupOk(setup, s', g', method_)
  {
    if !g.phase.Gathering? {
      assert !IsOracle(setup.members[i], method_);
    }
  }

  lemma TaskCaseGroups(setup: Setup, s: State, s': State, i: nat, t: Task)
    requires Inv(setup, s) && TaskMoved(setup, s, s', i, t) && TakesPart(setup.members[i])
    requires ListOk(setup, s', ForOracles(OcspDirect), s'.ocsp.results)
      && ListOk(setup, s', ForOracles(Crl), s'.crl.results)
    ensures GroupOk(setup, s', s'.ocsp, OcspDirect) && GroupOk(setup, s', s'.crl, Crl)
  {
    GroupUntouched(setup, s, s', s.ocsp, s'.ocsp, OcspDirect, i, t);
    GroupUntouched(setup, s, s', s.crl, s'.crl, Crl, i, t);
  }

  lemma TaskCaseRest(setup: Setup, s: State, s': State, i: nat, t: Task)
    requires TaskMoved(setup, s, s', i, t) && StapleOk(setup, s) && MainOk(setup, s)
    ensures StapleOk(setup, s') && MainOk(setup, s')
  {
    if !s.main.AwaitClients? {
      assert !IsClient(setup.members[i]);
    }
  }

  lemma TaskCase(setup: Setup, s: State, i: nat, act: Action, now: int)
    requires Inv(setup, s) && s.clock <= now && TaskEnabled(setup, s, i, act, now)
    ensures Inv(setup, PutTask(setup, s.(clock := now), i, TaskStep(setup, s, i, act, now)))
    ensures Later(setup, s, PutTask(setup, s.(clock := now), i, TaskStep(setup, s, i, act, now)))
  {
    BarrierTimes(setup, s);
    assert TaskOk(setup, s, setup.members[i], s.tasks[i]);
    TaskStepOk(setup, s, i, act, now);
    var t := TaskStep(setup, s, i, act, now);
    var s' := PutTask(setup, s.(clock := now), i, t);
    assert TaskMoved(setup, s, s', i, t);
    TaskCaseTasks(setup, s, s', i, t);
    TaskCaseLists(setup, s, s', i, t);
    TaskCaseGroups(setup, s, s', i, t);
    TaskCaseRest(setup, s, s', i, t);
  }

  lemma TaskCaseTasks(setup: Setup, s: State, s': State, i: nat, t: Task)
    requires TaskMoved(setup, s, s', i, t)
    requires TaskOk(setup, s.(clock := s'.clock), setup.members[i], t)
    requires forall x :: 0 <= x < |s.tasks| ==> TaskOk(setup, s, setup.members[x], s.tasks[x])
    ensures Later(setup, s, s') && |s'.tasks| == |s.tasks|
    ensures forall x :: 0 <= x < |s'.tasks| ==> TaskOk(setup, s', setup.members[x], s'.tasks[x])
  {
    assert Later(setup, s, s');
    forall x | 0 <= x < |s'.tasks| ensures TaskOk(setup, s', setup.members[x], s'.tasks[x]) {
      if x == i {
        TaskLater(setup, s.(clock := s'.clock), s', setup.members[i], t);
      } else {
        TaskLater(setup, s, s', setup.members[x], s.tasks[x]);
      }
    }
  }

  lemma PublicationTime(setup: Setup, s: State, g: Group, method_: CheckMethod)
    requires Inv(setup, s) && ListOk(setup, s, ForOracles(method_), g.results)
    ensures Publication(Records(g.results)) <= s.clock
  {
    var results := Records(g.results);
    PublicationMeaning(results);
    if Publication(results) != 0 {
      var k :| 0 <= k < |results| && ConfirmsRevocation(results[k]) && results[k].decisionAt == Publication(results);
      var i := g.results[k].index;
      assert TaskOk(setup, s, setup.members[i], s.tasks[i]);
    }
  }

  lemma ListKept(setup: Setup, s: State, s': State, w: Waiter, list: seq<Entry>)
    requires ListOk(setup, s, w, list) && s'.tasks == s.tasks
    ensures ListOk(setup, s', w, list)
  {}

  predicate IsTaskAction(act: Action) {
    act.AwaitEvidence? || act.GiveUpWaiting? || act.BeginPolling? || act.BeginAttempt? || act.EndAttempt?
      || act.WakeUp? || act.GiveUpSleeping?
  }

  /** Nothing a group holds changes while only time, the staple or the collector moves. */
  lemma GroupLater(setup: Setup, s: State, s': State, g: Group, method_: CheckMethod)
    requires GroupOk(setup, s, g, method_) && s'.tasks == s.tasks && s.clock <= s'.clock
    ensures GroupOk(setup, s', g, method_)
  {
    ListKept(setup, s, s', ForOracles(method_), g.results);
  }

  lemma GroupResolves(setup: Setup, s: State, s': State, g: Group, method_: CheckMethod)
    requires Inv(setup, s) && GroupOk(setup, s, g, method_) && s'.tasks == s.tasks && s.clock <= s'.clock
    requires g.phase.Gathering? && OraclesDone(setup, s, method_)
    ensures GroupOk(setup, s', ResolveGroup(g), method_)
  {
    PublicationTime(setup, s, g, method_);
    ListKept(setup, s, s', ForOracles(method_), g.results);
  }

  lemma StapleCase(setup: Setup, s: State, fetched: bool, now: int)
    requires Inv(setup, s) && s.clock <= now && StapleEnabled(s, now)
    ensures var s' := StapleMove(setup, s.(clock := now), fetched, now);
      && StapleOk(setup, s') && s'.staple == (if s.staple.Pending? then s'.staple else s.staple)
      && s' == s.(clock := now, stapler := s'.stapler, vars := s'.vars, staple := s'.staple)
  {}

  lemma OtherGroups(setup: Setup, s: State, act: Action, now: int)
    requires Inv(setup, s) && Enabled(setup, s, act, now) && !IsTaskAction(act)
    requires var s' := Step(setup, s, act, now); s'.tasks == s.tasks && s'.clock == now
    ensures var s' := Step(setup, s, act, now);
      GroupOk(setup, s', s'.ocsp, OcspDirect) && GroupOk(setup, s', s'.crl, Crl)
  {
    var s' := Step(setup, s, act, now);
    if act.ResolveOcsp? {
      GroupResolves(setup, s, s', s.ocsp, OcspDirect);
    } else {
      GroupLater(setup, s, s', s.ocsp, OcspDirect);
    }
    if act.ResolveCrl? {
      GroupResolves(setup, s, s', s.crl, Crl);
    } else {
      GroupLater(setup, s, s', s.crl, Crl);
    }
  }

  /** Outside the tasks a step moves the clock and one of: the staple goroutine, a group, the collector, the context. */
  ghost predicate StepKeepsRest(setup: Setup, s: State, s': State, now: int) {
    && s'.tasks == s.tasks && s'.clients == s.clients && s'.clock == now
    && Later(setup, s, s') && StapleOk(setup, s') && MainOk(setup, s')
  }

  lemma StapleStepCase(setup: Setup, s: State, fetched: bool, now: int)
    requires Inv(setup, s) && Enabled(setup, s, StapleStep(fetched), now)
    ensures StepKeepsRest(setup, s, Step(setup, s, StapleStep(fetched), now), now)
  {
    StapleCase(setup, s, fetched, now);
  }

  lemma StapleGiveUpCase(setup: Setup, s: State, now: int)
    requires Inv(setup, s) && Enabled(setup, s, StapleGiveUp, now)
    ensures StepKeepsRest(setup, s, Step(setup, s, StapleGiveUp, now), now)
  {}

  /** Only a pending barrier is resolved, and sending results moves no barrier. */
  lemma GroupCase(setup: Setup, s: State, act: Action, now: int)
    requires Inv(setup, s) && Enabled(setup, s, act, now)
    requires act.ResolveOcsp? || act.SendOcsp? || act.ResolveCrl? || act.SendCrl?
    ensures StepKeepsRest(setup, s, Step(setup, s, act, now), now)
  {
    LaterWithin(setup, s, Step(setup, s, act, now), now);
  }

  lemma LaterWithin(setup: Setup, s: State, s': State, now: int)
    requires s.clock <= now == s'.clock && s'.staple == s.staple
    requires s'.ocsp.barrier == s.ocsp.barrier || s.ocsp.barrier.Pending?
    requires s'.crl.barrier == s.crl.barrier || s.crl.barrier.Pending?
    ensures Later(setup, s, s')
  {}

  lemma CollectCase(setup: Setup, s: State, act: Action, now: int)
    requires Inv(setup, s) && Enabled(setup, s, act, now) && (act.Collect? || act.CancelContext?)
    ensures StepKeepsRest(setup, s, Step(setup, s, act, now), now)
  {
    LaterWithin(setup, s, Step(setup, s, act, now), now);
  }

  lemma OtherCase(setup: Setup, s: State, act: Action, now: int)
    requires Inv(setup, s) && Enabled(setup, s, act, now) && !IsTaskAction(act)
    ensures StepKeepsRest(setup, s, Step(setup, s, act, now), now)
  {
    if act.StapleStep? {
      StapleStepCase(setup, s, act.fetched, now);
    } else if act.StapleGiveUp? {
      StapleGiveUpCase(setup, s, now);
    } else if act.Collect? || act.CancelContext? {
      CollectCase(setup, s, act, now);
    } else {
      GroupCase(setup, s, act, now);
    }
  }

  /** Every step keeps the invariant, and never changes a barrier that has opened. */
  lemma StepInv(setup: Setup, s: State, act: Action, now: int)
    requires Inv(setup, s) && Enabled(setup, s, act, now)
    ensures Inv(setup, Step(setup, s, act, now))
    ensures Later(setup, s, Step(setup, s, act, now))
  {
    if IsTaskAction(act) {
      TaskCase(setup, s, act.i, act, now);
    } else {
      OtherCase(setup, s, act, now);
      OtherGroups(setup, s, act, now);
      var s' := Step(setup, s, act, now);
      forall x | 0 <= x < |s'.tasks| ensures TaskOk(setup, s', setup.members[x], s'.tasks[x]) {
        TaskLater(setup, s, s', setup.members[x], s.tasks[x]);
      }
      ListKept(setup, s, s', ForClients, s.clients);
    }
  }
}
