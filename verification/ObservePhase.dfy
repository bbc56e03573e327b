/**
 The observe phase of a cycle: status oracles, the staple publisher, evidence-gated
 clients and the collecting goroutine, interleaved under one clock. A probe is an
 arbitrary answer; a step happens at a clock reading no earlier than the last.
 */
module ObservePhase {
  import opened Basics
  import opened Profiles
  import opened Polling

  // ----- the fixed part of a cycle

  datatype Member = Member(profile: Profile, enabled: bool, dependencies: Option<seq<Dependency>>,
                           contract: Option<Contract>)

  /** `ackAt` is the issuer's revocation acknowledgement. */
  datatype Setup = Setup(members: seq<Member>, config: PollConfig, staplingOn: bool, ackAt: int)

  predicate IsClient(m: Member) { m.enabled && m.profile.role.ClientExecutor? }

  predicate IsOracle(m: Member, method_: CheckMethod) {
    m.enabled && m.profile.role.StatusOracle? && m.profile.method_ == method_
  }

  predicate TakesPart(m: Member) { IsClient(m) || IsOracle(m, OcspDirect) || IsOracle(m, Crl) }

  // ----- goroutines

  datatype Stage = Ready | Top | Probing | Sleeping(wake: int)

  datatype Poll = Poll(stage: Stage, deadline: int, attempts: nat, first: int, last: Observation,
                       lastErr: Option<string>)

  const NEW_POLL := Poll(Ready, 0, 0, 0, UNOBSERVED, None)

  datatype Task =
    | Absent
    | Gating(next: nat, satisfied: map<Dependency, int>)
    | Running(poll: Poll, satisfied: map<Dependency, int>)
    | Finished(result: Result)

  /** A write-once barrier: it opens once, with a time or with an error. */
  datatype Barrier = Pending | Satisfied(at: int) | Failed

  /** The goroutine that polls one oracle method, resolves its barrier and hands over the results. */
  datatype Group = Group(phase: GroupPhase, barrier: Barrier, results: seq<Entry>)
  datatype GroupPhase = Gathering | Resolved | Sent

  datatype Entry = Entry(index: nat, result: Result)

  datatype StapleOutcome = StapleError | Published(sourceAt: int, publishedAt: int)

  datatype Stapler =
    | Off | StapleReady | StapleTop(deadline: int) | Fetching(deadline: int) | StapleSleeping(deadline: int, wake: int)
    | Publishing(sourceAt: int) | Returned(outcome: StapleOutcome) | Written(outcome: StapleOutcome) | Open

  datatype Main = AwaitClients | AwaitOcsp | AwaitCrl | AwaitStaple | Collected

  /** `vars` is what the staple goroutine leaves for the collector: error, source time and response. */
  datatype State = State(
    clock: int, cancelled: bool, tasks: seq<Task>, clients: seq<Entry>,
    ocsp: Group, crl: Group, stapler: Stapler, vars: Option<StapleOutcome>, staple: Barrier, main: Main)

  function FirstTask(m: Member): Task {
    if IsClient(m) then Gating(0, map[])
    else if TakesPart(m) then Running(NEW_POLL, map[])
    else Absent
  }

  function Start(setup: Setup, clock: int): State {
    State(clock, false, seq(|setup.members|, i requires 0 <= i < |setup.members| => FirstTask(setup.members[i])), [],
      Group(Gathering, Pending, []), Group(Gathering, Pending, []),
      if setup.staplingOn then StapleReady else Off, None, if setup.staplingOn then Pending else Failed, AwaitClients)
  }

  function BarrierOf(setup: Setup, s: State, d: Dependency): Option<Barrier> {
    match d
    case IssuerAck => Some(Satisfied(setup.ackAt))
    case OcspPublished => Some(s.ocsp.barrier)
    case CrlPublished => Some(s.crl.barrier)
    case StaplePublished => Some(s.staple)
    case Unlisted(_) => None
  }

  datatype Action =
    | CancelContext
    | AwaitEvidence(i: nat) | GiveUpWaiting(i: nat)
    | BeginPolling(i: nat) | BeginAttempt(i: nat, top: int)
    | EndAttempt(i: nat, observation: Observation, failure: Option<string>, decided: int, checked: int)
    | WakeUp(i: nat) | GiveUpSleeping(i: nat)
    | StapleStep(fetched: bool) | StapleGiveUp
    | ResolveOcsp | SendOcsp | ResolveCrl | SendCrl
    | Collect

  // ----- task steps

  /** The poll result of member `i` with what its goroutine adds before recording it. */
  function Record(setup: Setup, i: nat, satisfied: map<Dependency, int>, r: Result): Result
    requires i < |setup.members|
  {
    var m := setup.members[i];
    var required := if m.dependencies.Some? then m.dependencies.value else [];
    r.(requiredEvidence := required,
       evidenceSatisfiedAt := if IsClient(m) then satisfied else map[IssuerAck := setup.ackAt])
  }

  function Harness(setup: Setup, i: nat, satisfied: map<Dependency, int>, err: string): Task
    requires i < |setup.members|
  {
    Finished(Record(setup, i, satisfied, BlankResult(setup.members[i].profile.name).(err := err)))
  }

  function Polled(setup: Setup, i: nat, poll: Poll, satisfied: map<Dependency, int>, r: Result): Task
    requires i < |setup.members|
  {
    Finished(Record(setup, i, satisfied, ApplyPolicy(setup.members[i].contract, r.(clientAttemptAt := poll.first))))
  }

  function OverBudget(setup: Setup, poll: Poll, now: int): bool {
    now > poll.deadline || (setup.config.maxAttempts > 0 && poll.attempts >= setup.config.maxAttempts)
  }

  /** What the poll does with what an attempt saw: match, stop, or wait for the next turn. */
  function AfterAttempt(setup: Setup, i: nat, poll: Poll, satisfied: map<Dependency, int>, seen: Observation,
                        failure: Option<string>, decided: int, checked: int, now: int): Task
    requires i < |setup.members|
  {
    var m := setup.members[i];
    var p := poll.(last := seen, lastErr := if seen.decision.HarnessError? then failure else poll.lastErr);
    if m.contract.Some? && MatchesAfter(m.contract.value.baseline, seen) then
      Polled(setup, i, p, satisfied, MetResult(m.profile.name, seen, decided, p.attempts))
    else if OverBudget(setup, p, checked) then
      Polled(setup, i, p, satisfied, ExhaustedResult(m.profile.name, seen, p.lastErr, decided, p.attempts))
    else
      var wait := Wait(setup.config, p.deadline, now);
      Running(p.(stage := if wait <= 0 then Top else Sleeping(now + wait)), satisfied)
  }

  predicate TaskEnabled(setup: Setup, s: State, i: nat, act: Action, now: int) {
    && i < |s.tasks| == |setup.members|
    && var t := s.tasks[i]; var m := setup.members[i];
    match act
    case AwaitEvidence(_) =>
      && t.Gating?
      && (m.dependencies.None? || (t.next < |m.dependencies.value| &&
            BarrierOf(setup, s, m.dependencies.value[t.next]) != Some(Pending)))
    case GiveUpWaiting(_) =>
      t.Gating? && s.cancelled && m.dependencies.Some? && t.next < |m.dependencies.value|
      && BarrierOf(setup, s, m.dependencies.value[t.next]).Some?
    case BeginPolling(_) =>
      || (t.Gating? && m.dependencies.Some? && t.next == |m.dependencies.value|)
      || (t.Running? && t.poll.stage.Ready?)
    case BeginAttempt(_, top) => t.Running? && t.poll.stage.Top? && s.clock <= top <= now
    case EndAttempt(_, _, _, decided, checked) =>
      t.Running? && t.poll.stage.Probing? && s.clock <= decided <= checked <= now
    case WakeUp(_) => t.Running? && t.poll.stage.Sleeping? && t.poll.stage.wake <= now
    case GiveUpSleeping(_) => t.Running? && t.poll.stage.Sleeping? && s.cancelled
    case _ => false
  }

  function TaskStep(setup: Setup, s: State, i: nat, act: Action, now: int): Task
    requires TaskEnabled(setup, s, i, act, now)
  {
    var t, m := s.tasks[i], setup.members[i];
    match act
    case AwaitEvidence(_) =>
      if m.dependencies.None? then Harness(setup, i, map[], "no evidence dependencies")
      else
        var d := m.dependencies.value[t.next];
        (match BarrierOf(setup, s, d)
         case None => Harness(setup, i, t.satisfied, "unavailable evidence dependency")
         case Some(Satisfied(at)) =>
           if at == 0 then Harness(setup, i, t.satisfied, "closed without a satisfaction timestamp")
           else Gating(t.next + 1, t.satisfied[d := at])
         case Some(_) => Harness(setup, i, t.satisfied, "evidence dependency failed"))
    case GiveUpWaiting(_) => Harness(setup, i, t.satisfied, "context canceled")
    case BeginPolling(_) =>
      if m.contract.None? then
        Polled(setup, i, NEW_POLL, t.satisfied, BlankResult(m.profile.name).(err := "no expectation"))
      else Running(NEW_POLL.(stage := Top, deadline := now + setup.config.maxWait), t.satisfied)
    case BeginAttempt(_, top) =>
      var p := t.poll;
      if p.deadline - top <= 0 then
        Polled(setup, i, p, t.satisfied, ExhaustedResult(m.profile.name, p.last, p.lastErr, now, p.attempts))
      else
        t.(poll := p.(stage := Probing, attempts := p.attempts + 1, first := if p.attempts == 0 then now else p.first))
    case EndAttempt(_, observation, failure, decided, checked) =>
      AfterAttempt(setup, i, t.poll, t.satisfied, Judged(observation, failure), failure, decided, checked, now)
    case WakeUp(_) => t.(poll := t.poll.(stage := Top))
    case GiveUpSleeping(_) => Polled(setup, i, t.poll, t.satisfied, CancelledResult(m.profile.name, t.poll.attempts))
  }

  /** Installs a task; a finished one is appended to the results its waiter collects. */
  function PutTask(setup: Setup, s: State, i: nat, t: Task): State
    requires i < |s.tasks| == |setup.members|
  {
    var m := setup.members[i];
    var s1 := s.(tasks := s.tasks[i := t]);
    if !t.Finished? then s1
    else if IsClient(m) then s1.(clients := s.clients + [Entry(i, t.result)])
    else if IsOracle(m, OcspDirect) then s1.(ocsp := s.ocsp.(results := s.ocsp.results + [Entry(i, t.result)]))
    else s1.(crl := s.crl.(results := s.crl.results + [Entry(i, t.result)]))
  }

  // ----- the other goroutines

  function Records(entries: seq<Entry>): seq<Result> {
    seq(|entries|, k requires 0 <= k < |entries| => entries[k].result)
  }

  predicate OraclesDone(setup: Setup, s: State, method_: CheckMethod) {
    forall i :: 0 <= i < |setup.members| && i < |s.tasks| && IsOracle(setup.members[i], method_) ==>
        s.tasks[i].Finished?
  }

  predicate ClientsDone(setup: Setup, s: State) {
    forall i :: 0 <= i < |setup.members| && i < |s.tasks| && IsClient(setup.members[i]) ==> s.tasks[i].Finished?
  }

  function ResolveGroup(g: Group): Group {
    var at := Publication(Records(g.results));
    g.(phase := Resolved, barrier := if at != 0 then Satisfied(at) else Failed)
  }

  predicate StapleEnabled(s: State, now: int) {
    !s.stapler.Off? && !s.stapler.Open? && (s.stapler.StapleSleeping? ==> s.stapler.wake <= now)
  }

  /** `refreshRevokedStaple`, then the shared variables, then the barrier. */
  function StapleMove(setup: Setup, s: State, fetched: bool, now: int): State
    requires StapleEnabled(s, now)
  {
    match s.stapler
    case StapleReady => s.(stapler := StapleTop(now + setup.config.maxWait))
    case StapleTop(deadline) =>
      s.(stapler := if deadline - now <= 0 then Returned(StapleError) else Fetching(deadline))
    case Fetching(deadline) =>
      if fetched then s.(stapler := Publishing(now))
      else
        var wait := Wait(setup.config, deadline, now);
        s.(stapler := if wait <= 0 then StapleTop(deadline) else StapleSleeping(deadline, now + wait))
    case StapleSleeping(deadline, _) => s.(stapler := StapleTop(deadline))
    case Publishing(sourceAt) => s.(stapler := Returned(Published(sourceAt, now)))
    case Returned(outcome) => s.(stapler := Written(outcome), vars := Some(outcome))
    case Written(outcome) =>
      s.(stapler := Open, staple := if outcome.Published? then Satisfied(outcome.publishedAt) else Failed)
  }

  predicate CollectEnabled(setup: Setup, s: State) {
    match s.main
    case AwaitClients => ClientsDone(setup, s)
    case AwaitOcsp => s.ocsp.phase.Sent?
    case AwaitCrl => s.crl.phase.Sent?
    case AwaitStaple => setup.staplingOn ==> !s.staple.Pending?
    case Collected => false
  }

  function NextMain(m: Main): Main {
    match m
    case AwaitClients => AwaitOcsp
    case AwaitOcsp => AwaitCrl
    case AwaitCrl => AwaitStaple
    case _ => Collected
  }

  predicate Enabled(setup: Setup, s: State, act: Action, now: int) {
    && s.clock <= now
    && match act
       case CancelContext => !s.cancelled
       case StapleStep(_) => StapleEnabled(s, now)
       case StapleGiveUp => s.stapler.StapleSleeping? && s.cancelled
       case ResolveOcsp => s.ocsp.phase.Gathering? && OraclesDone(setup, s, OcspDirect)
       case SendOcsp => s.ocsp.phase.Resolved?
       case ResolveCrl => s.crl.phase.Gathering? && OraclesDone(setup, s, Crl)
       case SendCrl => s.crl.phase.Resolved?
       case Collect => CollectEnabled(setup, s)
       case _ => TaskEnabled(setup, s, act.i, act, now)
  }

  function Step(setup: Setup, s: State, act: Action, now: int): State
    requires Enabled(setup, s, act, now)
  {
    var t := s.(clock := now);
    match act
    case CancelContext => t.(cancelled := true)
    case StapleStep(fetched) => StapleMove(setup, t, fetched, now)
    case StapleGiveUp => t.(stapler := Returned(StapleError))
    case ResolveOcsp => t.(ocsp := ResolveGroup(s.ocsp))
    case SendOcsp => t.(ocsp := s.ocsp.(phase := Sent))
    case ResolveCrl => t.(crl := ResolveGroup(s.crl))
    case SendCrl => t.(crl := s.crl.(phase := Sent))
    case Collect => t.(main := NextMain(s.main))
    case _ => PutTask(setup, t, act.i, TaskStep(setup, s, act.i, act, now))
  }
}
