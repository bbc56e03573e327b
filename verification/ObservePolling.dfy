/** Every poll of the observe phase, whatever is interleaved with it, ends as the polling loop run alone does. */
module ObservePolling {
  import opened Basics
  import opened Profiles
  import opened Polling
  import opened ObservePhase
  import opened ObserveSafety
  import opened ObserveTheorems
  import opened ObserveRecords

  const NO_TURN := Attempt(0, 0, UNOBSERVED, None, 0, 0, 0, false)

  // ----- what a run did to one poll

  /** What member `i`'s polling loop met in the first `k` steps of a run, turn by turn. */
  function TurnsOf(states: seq<State>, events: seq<Event>, k: nat, i: nat): seq<Attempt>
    requires k < |states| == |events| + 1
  {
    if k == 0 then []
    else OneMoreTurn(TurnsOf(states, events, k - 1, i), events[k - 1].action, events[k - 1].now, i)
  }

  /** A turn that has begun carries the reading of its beginning until its attempt ends. */
  function OneMoreTurn(turns: seq<Attempt>, act: Action, now: int, i: nat): seq<Attempt> {
    match act
    case BeginAttempt(j, top) =>
      if j == i then turns + [Attempt(top, now, UNOBSERVED, None, now, now, now, false)] else turns
    case EndAttempt(j, observation, failure, decided, checked) =>
      if j == i && turns != [] then
        ChangeLast(turns, turns[|turns| - 1].(observation := observation, failure := failure,
                                              decided := decided, checked := checked, waitFrom := now))
      else turns
    case GiveUpSleeping(j) =>
      if j == i && turns != [] then ChangeLast(turns, turns[|turns| - 1].(cancelled := true)) else turns
    case _ => turns
  }

  function ChangeLast(turns: seq<Attempt>, turn: Attempt): seq<Attempt>
    requires turns != []
  {
    turns[|turns| - 1 := turn]
  }

  /** The clock reading from which the deadline of member `i`'s poll was counted. */
  function BeganAt(states: seq<State>, events: seq<Event>, k: nat, i: nat): int
    requires k < |states| == |events| + 1
  {
    if k == 0 then 0 else LaterBegan(BeganAt(states, events, k - 1, i), events[k - 1].action, events[k - 1].now, i)
  }

  function LaterBegan(began: int, act: Action, now: int, i: nat): int {
    match act
    case BeginPolling(j) => if j == i then now else began
    case _ => began
  }

  // ----- ended as alone

  /** The turns as the environment of a polling loop. */
  function EnvOf(turns: seq<Attempt>): nat -> Attempt { (k: nat) => TurnAt(turns, k) }

  function TurnAt(turns: seq<Attempt>, k: nat): Attempt { if k < |turns| then turns[k] else NO_TURN }

  /** The turns are in order, the first after the loop began, and every wait between two has passed. */
  ghost predicate TurnsTimed(config: PollConfig, began: int, turns: seq<Attempt>) {
    && (forall k :: 0 <= k < |turns| ==> Ordered(began, turns[k]))
    && (forall k :: 0 < k < |turns| ==> Follows(config, began, turns[k - 1], turns[k]))
  }

  /** The turns alone decide that polling ends, and how: nothing after the last one is looked at. */
  ghost predicate EndsOver(config: PollConfig, x: Expectation, deadline: int, turns: seq<Attempt>, r: Result) {
    var n, env := r.attempts, EnvOf(turns);
    && Ends(config, x, deadline, env, r) && n <= |turns| <= n + 1
    && (|turns| == n ==>
          r.expectationMet || OutAfterProbe(config, deadline, env, n) || GaveUp(config, deadline, env, n))
  }

  /** The record is what `Polling.PollOne` promises, for a loop that began at `began` and met these turns. */
  ghost predicate PolledAlone(setup: Setup, contract: Contract, began: int, turns: seq<Attempt>, r: Result) {
    && TurnsTimed(setup.config, began, turns)
    && EndsOver(setup.config, contract.baseline, began + setup.config.maxWait, turns, r)
    && r.clientAttemptAt == (if r.attempts > 0 then turns[0].started else 0)
    && (r.policyMet <==> MatchesAfter(contract.policy, Observation(r.decision, r.reason)))
  }

  // ----- the loop under way

  ghost predicate PollTimed(config: PollConfig, p: Poll, began: int, clock: int, turns: seq<Attempt>) {
    var n := |turns|;
    && began <= clock && p.deadline == began + config.maxWait
    && TurnsTimed(config, began, turns)
    && p.first == (if n > 0 then turns[0].started else 0)
    && (n > 0 ==>
          && turns[n - 1].waitFrom <= clock
          && var wake := turns[n - 1].waitFrom + Wait(config, p.deadline, turns[n - 1].waitFrom);
          && (p.stage.Top? ==> wake <= clock)
          && (p.stage.Sleeping? ==> p.stage.wake == wake))
  }

  ghost predicate PollHistory(config: PollConfig, x: Expectation, p: Poll, turns: seq<Attempt>) {
    var n, env := |turns|, EnvOf(turns);
    && p.attempts == n
    && (p.stage.Top? || p.stage.Sleeping? ==>
          UnderWay(config, x, p.deadline, env, n) && p.last == LastSeen(env, n) && KeepsError(env, n, p.lastErr))
    && (p.stage.Sleeping? ==> n > 0 && Wait(config, p.deadline, turns[n - 1].waitFrom) > 0)
    && (p.stage.Probing? ==>
          && n > 0 && turns[n - 1].top < p.deadline && !turns[n - 1].cancelled
          && UnderWay(config, x, p.deadline, env, n - 1))
  }

  ghost predicate TaskHistory(setup: Setup, m: Member, t: Task, clock: int, began: int, turns: seq<Attempt>) {
    match t
    case Absent => turns == []
    case Gating(_, _) => turns == []
    case Running(p, _) =>
      if p.stage.Ready? then turns == []
      else
        && m.contract.Some?
        && PollHistory(setup.config, m.contract.value.baseline, p, turns)
        && PollTimed(setup.config, p, began, clock, turns)
    case Finished(r) =>
      || (turns == [] && NeverProbed(r))
      || (m.contract.Some? && PolledAlone(setup, m.contract.value, began, turns, r))
  }

  // ----- only the turns looked at matter

  predicate SameSight(a: Attempt, b: Attempt) {
    a.top == b.top && a.observation == b.observation && a.failure == b.failure
  }

  /** Of the last of `n` turns only the top and what was seen matter. */
  ghost predicate SameTries(e: nat -> Attempt, f: nat -> Attempt, n: nat) {
    && (forall k: nat :: k + 1 < n ==> e(k) == f(k))
    && (n > 0 ==> SameSight(e(n - 1), f(n - 1)))
  }

  lemma TriesDependOnTurns(config: PollConfig, x: Expectation, deadline: int, e: nat -> Attempt, f: nat -> Attempt,
                           n: nat)
    requires SameTries(e, f, n) && KeptTrying(config, x, deadline, e, n)
    ensures KeptTrying(config, x, deadline, f, n)
  {
    forall k: nat | k < n ensures Tried(config, x, deadline, f, k) {
      assert Tried(config, x, deadline, e, k);
      assert SameSight(e(k), f(k));
      if k > 0 { assert e(k - 1) == f(k - 1); }
    }
  }

  lemma UnderWayAlike(config: PollConfig, x: Expectation, deadline: int, e: nat -> Attempt, f: nat -> Attempt, n: nat)
    requires (forall k: nat :: k < n ==> e(k) == f(k)) && UnderWay(config, x, deadline, e, n)
    ensures UnderWay(config, x, deadline, f, n) && LastSeen(e, n) == LastSeen(f, n)
  {
    TriesDependOnTurns(config, x, deadline, e, f, n);
  }

  // ----- timing

  lemma OneMoreTimed(config: PollConfig, began: int, turns: seq<Attempt>, turn: Attempt)
    requires TurnsTimed(config, began, turns) && Ordered(began, turn)
    requires turns != [] ==> Follows(config, began, turns[|turns| - 1], turn)
    ensures TurnsTimed(config, began, turns + [turn])
  {}

  lemma LastChangedTimed(config: PollConfig, began: int, turns: seq<Attempt>, turn: Attempt)
    requires turns != [] && TurnsTimed(config, began, turns) && Ordered(began, turn)
    requires turn.top == turns[|turns| - 1].top
    ensures TurnsTimed(config, began, ChangeLast(turns, turn))
  {}

  // ----- one step of the task

  lemma BeginPollingHistory(setup: Setup, s: State, i: nat, now: int, began: int)
    requires TaskEnabled(setup, s, i, BeginPolling(i), now)
    requires TaskHistory(setup, setup.members[i], s.tasks[i], s.clock, began, [])
    ensures TaskHistory(setup, setup.members[i], TaskStep(setup, s, i, BeginPolling(i), now), now, now, [])
  {}

  lemma TurnBegins(config: PollConfig, x: Expectation, p: Poll, began: int, clock: int, turns: seq<Attempt>, top: int,
                   now: int)
    returns (more: seq<Attempt>)
    requires p.stage.Top? && PollHistory(config, x, p, turns) && PollTimed(config, p, began, clock, turns)
    requires clock <= top <= now
    ensures more == turns + [Attempt(top, now, UNOBSERVED, None, now, now, now, false)]
    ensures TurnsTimed(config, began, more)
    ensures UnderWay(config, x, p.deadline, EnvOf(more), |turns|) && p.last == LastSeen(EnvOf(more), |turns|)
    ensures KeepsError(EnvOf(more), |turns|, p.lastErr)
  {
    var turn := Attempt(top, now, UNOBSERVED, None, now, now, now, false);
    more := turns + [turn];
    OneMoreTimed(config, began, turns, turn);
    forall k: nat | k < |turns| ensures EnvOf(turns)(k) == EnvOf(more)(k) {
      assert more[k] == turns[k];
    }
    UnderWayAlike(config, x, p.deadline, EnvOf(turns), EnvOf(more), |turns|);
  }

  /** A loop whose last turn found no time left. */
  lemma EndedAtTop(config: PollConfig, x: Expectation, deadline: int, turns: seq<Attempt>, profile: string,
                   lastErr: Option<string>)
    requires turns != [] && UnderWay(config, x, deadline, EnvOf(turns), |turns| - 1)
    requires turns[|turns| - 1].top >= deadline && KeepsError(EnvOf(turns), |turns| - 1, lastErr)
    ensures EndsOver(config, x, deadline, turns,
                     ExhaustedResult(profile, LastSeen(EnvOf(turns), |turns| - 1), lastErr,
                                     turns[|turns| - 1].started, |turns| - 1))
  {
    ExitAtTop(config, x, deadline, EnvOf(turns), profile, lastErr, |turns| - 1);
  }

  /** What the goroutine adds to the loop's result does not touch its outcome. */
  lemma RecordKeeps(setup: Setup, i: nat, poll: Poll, satisfied: map<Dependency, int>, r: Result, began: int,
                    turns: seq<Attempt>)
    requires i < |setup.members| && setup.members[i].contract.Some? && TurnsTimed(setup.config, began, turns)
    requires EndsOver(setup.config, setup.members[i].contract.value.baseline, began + setup.config.maxWait, turns, r)
    requires poll.first == if r.attempts > 0 then turns[0].started else 0
    ensures Polled(setup, i, poll, satisfied, r).Finished?
    ensures PolledAlone(setup, setup.members[i].contract.value, began, turns,
                        Polled(setup, i, poll, satisfied, r).result)
  {
    var m, q := setup.members[i], Polled(setup, i, poll, satisfied, r).result;
    var x, deadline, env := m.contract.value.baseline, began + setup.config.maxWait, EnvOf(turns);
    assert SameOutcome(r, q);
    SameOutcomeEnds(setup.config, x, deadline, env, r, q);
  }

  lemma SameOutcomeEnds(config: PollConfig, x: Expectation, deadline: int, env: nat -> Attempt, r: Result, q: Result)
    requires Ends(config, x, deadline, env, r) && SameOutcome(r, q)
    ensures Ends(config, x, deadline, env, q)
  {}

  lemma BeginAttemptHistory(setup: Setup, s: State, i: nat, top: int, now: int, began: int, turns: seq<Attempt>)
    requires TaskEnabled(setup, s, i, BeginAttempt(i, top), now)
    requires TaskHistory(setup, setup.members[i], s.tasks[i], s.clock, began, turns)
    ensures TaskHistory(setup, setup.members[i], TaskStep(setup, s, i, BeginAttempt(i, top), now), now, began,
                        OneMoreTurn(turns, BeginAttempt(i, top), now, i))
  {
    var m, p := setup.members[i], s.tasks[i].poll;
    var x, n := m.contract.value.baseline, |turns|;
    var more := TurnBegins(setup.config, x, p, began, s.clock, turns, top, now);
    if p.deadline - top <= 0 {
      EndedAtTop(setup.config, x, p.deadline, more, m.profile.name, p.lastErr);
      RecordKeeps(setup, i, p, s.tasks[i].satisfied,
                  ExhaustedResult(m.profile.name, p.last, p.lastErr, now, p.attempts), began, more);
    }
  }

  /** The attempt of the last turn has ended. */
  lemma TurnEnds(config: PollConfig, x: Expectation, p: Poll, began: int, clock: int, turns: seq<Attempt>,
                 turn: Attempt)
    requires p.stage.Probing? && PollHistory(config, x, p, turns) && PollTimed(config, p, began, clock, turns)
    requires var last := turns[|turns| - 1]; turn.top == last.top && turn.started == last.started && !turn.cancelled
    requires clock <= turn.decided <= turn.checked <= turn.waitFrom
    ensures TurnsTimed(config, began, ChangeLast(turns, turn))
    ensures UnderWay(config, x, p.deadline, EnvOf(ChangeLast(turns, turn)), |turns| - 1)
    ensures EnvOf(ChangeLast(turns, turn))(|turns| - 1) == turn && turn.top < p.deadline
  {
    var n, more := |turns|, ChangeLast(turns, turn);
    LastChangedTimed(config, began, turns, turn);
    forall k: nat | k < n - 1 ensures EnvOf(turns)(k) == EnvOf(more)(k) {
      assert more[k] == turns[k];
    }
    UnderWayAlike(config, x, p.deadline, EnvOf(turns), EnvOf(more), n - 1);
  }

  lemma EndedMet(config: PollConfig, x: Expectation, deadline: int, turns: seq<Attempt>, profile: string)
    requires turns != [] && UnderWay(config, x, deadline, EnvOf(turns), |turns| - 1)
    requires var turn := turns[|turns| - 1];
      turn.top < deadline && MatchesAfter(x, Judged(turn.observation, turn.failure))
    ensures var turn := turns[|turns| - 1];
      EndsOver(config, x, deadline, turns, MetResult(profile, Judged(turn.observation, turn.failure), turn.decided,
                                                     |turns|))
  {
    ExitMet(config, x, deadline, EnvOf(turns), profile, |turns| - 1);
  }

  lemma EndedAfterProbe(config: PollConfig, x: Expectation, deadline: int, turns: seq<Attempt>, profile: string,
                        lastErr: Option<string>)
    requires turns != [] && KeptTrying(config, x, deadline, EnvOf(turns), |turns|)
    requires OutAfterProbe(config, deadline, EnvOf(turns), |turns|) && KeepsError(EnvOf(turns), |turns|, lastErr)
    ensures var turn := turns[|turns| - 1];
      EndsOver(config, x, deadline, turns, ExhaustedResult(profile, Judged(turn.observation, turn.failure), lastErr,
                                                           turn.decided, |turns|))
  {
    ExitAfterProbe(config, x, deadline, EnvOf(turns), profile, lastErr, |turns|);
  }

  /** After an attempt that did not match, with budget left. */
  lemma AttemptGoesOn(config: PollConfig, x: Expectation, p: Poll, began: int, now: int, turns: seq<Attempt>)
    returns (q: Poll)
    requires turns != [] && p.attempts == |turns| && p.deadline == began + config.maxWait && began <= now
    requires TurnsTimed(config, began, turns) && p.first == turns[0].started
    requires KeptTrying(config, x, p.deadline, EnvOf(turns), |turns|)
    requires p.last == LastSeen(EnvOf(turns), |turns|) && KeepsError(EnvOf(turns), |turns|, p.lastErr)
    requires !OutAfterProbe(config, p.deadline, EnvOf(turns), |turns|)
    requires turns[|turns| - 1].waitFrom == now && !turns[|turns| - 1].cancelled
    ensures var wait := Wait(config, p.deadline, now);
      q == p.(stage := if wait <= 0 then Top else Sleeping(now + wait))
    ensures PollHistory(config, x, q, turns) && PollTimed(config, q, began, now, turns)
  {
    var wait := Wait(config, p.deadline, now);
    q := p.(stage := if wait <= 0 then Top else Sleeping(now + wait));
  }

  /** A loop that ended when attempt `|turns|` did. */
  lemma EndsNow(config: PollConfig, x: Expectation, deadline: int, turns: seq<Attempt>, profile: string,
                lastErr: Option<string>)
    requires turns != [] && UnderWay(config, x, deadline, EnvOf(turns), |turns| - 1)
    requires turns[|turns| - 1].top < deadline && KeepsError(EnvOf(turns), |turns|, lastErr)
    ensures var turn, n := turns[|turns| - 1], |turns|;
      var seen := Judged(turn.observation, turn.failure);
      && EnvOf(turns)(n - 1) == turn && LastSeen(EnvOf(turns), n) == seen
      && (MatchesAfter(x, seen) ==> EndsOver(config, x, deadline, turns, MetResult(profile, seen, turn.decided, n)))
      && (!MatchesAfter(x, seen) ==> KeptTrying(config, x, deadline, EnvOf(turns), n))
      && (!MatchesAfter(x, seen) && OutAfterProbe(config, deadline, EnvOf(turns), n) ==>
            EndsOver(config, x, deadline, turns, ExhaustedResult(profile, seen, lastErr, turn.decided, n)))
  {
    var turn := turns[|turns| - 1];
    if MatchesAfter(x, Judged(turn.observation, turn.failure)) {
      EndedMet(config, x, deadline, turns, profile);
    } else {
      TryAgain(config, x, deadline, EnvOf(turns), |turns| - 1);
      if OutAfterProbe(config, deadline, EnvOf(turns), |turns|) {
        EndedAfterProbe(config, x, deadline, turns, profile, lastErr);
      }
    }
  }

  lemma AfterAttemptHistory(setup: Setup, i: nat, p: Poll, satisfied: map<Dependency, int>, clock: int, began: int,
                            turns: seq<Attempt>, turn: Attempt)
    requires i < |setup.members| && setup.members[i].contract.Some? && p.stage.Probing?
    requires PollHistory(setup.config, setup.members[i].contract.value.baseline, p, turns)
    requires PollTimed(setup.config, p, began, clock, turns)
    requires var last := turns[|turns| - 1]; turn.top == last.top && turn.started == last.started && !turn.cancelled
    requires clock <= turn.decided <= turn.checked <= turn.waitFrom
    ensures var seen := Judged(turn.observation, turn.failure);
      TaskHistory(setup, setup.members[i],
                  AfterAttempt(setup, i, p, satisfied, seen, turn.failure, turn.decided, turn.checked, turn.waitFrom),
                  turn.waitFrom, began, ChangeLast(turns, turn))
  {
    var m, config, n := setup.members[i], setup.config, |turns|;
    var x, more, seen := m.contract.value.baseline, ChangeLast(turns, turn), Judged(turn.observation, turn.failure);
    TurnEnds(config, x, p, began, clock, turns, turn);
    var after := p.(last := seen, lastErr := if seen.decision.HarnessError? then turn.failure else p.lastErr);
    EndsNow(config, x, p.deadline, more, m.profile.name, after.lastErr);
    if MatchesAfter(x, seen) {
      RecordKeeps(setup, i, after, satisfied, MetResult(m.profile.name, seen, turn.decided, n), began, more);
    } else if OverBudget(setup, after, turn.checked) {
      RecordKeeps(setup, i, after, satisfied,
                  ExhaustedResult(m.profile.name, seen, after.lastErr, turn.decided, n), began, more);
    } else {
      var q := AttemptGoesOn(config, x, after, began, turn.waitFrom, more);
    }
  }

  lemma EndAttemptHistory(setup: Setup, s: State, i: nat, act: Action, now: int, began: int, turns: seq<Attempt>)
    requires act.EndAttempt? && act.i == i && TaskEnabled(setup, s, i, act, now)
    requires TaskHistory(setup, setup.members[i], s.tasks[i], s.clock, began, turns)
    ensures TaskHistory(setup, setup.members[i], TaskStep(setup, s, i, act, now), now, began,
                        OneMoreTurn(turns, act, now, i))
  {
    var turn := turns[|turns| - 1].(observation := act.observation, failure := act.failure, decided := act.decided,
                                    checked := act.checked, waitFrom := now);
    AfterAttemptHistory(setup, i, s.tasks[i].poll, s.tasks[i].satisfied, s.clock, began, turns, turn);
  }

  lemma SleepCutShort(config: PollConfig, x: Expectation, p: Poll, began: int, clock: int, turns: seq<Attempt>,
                      profile: string)
    requires p.stage.Sleeping? && PollHistory(config, x, p, turns) && PollTimed(config, p, began, clock, turns)
    ensures var more := ChangeLast(turns, turns[|turns| - 1].(cancelled := true));
      TurnsTimed(config, began, more) && EndsOver(config, x, p.deadline, more, CancelledResult(profile, |turns|))
  {
    var n := |turns|;
    var more := ChangeLast(turns, turns[n - 1].(cancelled := true));
    LastChangedTimed(config, began, turns, more[n - 1]);
    forall k: nat | k + 1 < n ensures EnvOf(turns)(k) == EnvOf(more)(k) {
      assert more[k] == turns[k];
    }
    assert SameSight(EnvOf(turns)(n - 1), EnvOf(more)(n - 1));
    TriesDependOnTurns(config, x, p.deadline, EnvOf(turns), EnvOf(more), n);
    ExitCancelled(config, x, p.deadline, EnvOf(more), profile, n);
  }

  lemma GiveUpSleepingHistory(setup: Setup, s: State, i: nat, now: int, began: int, turns: seq<Attempt>)
    requires TaskEnabled(setup, s, i, GiveUpSleeping(i), now)
    requires TaskHistory(setup, setup.members[i], s.tasks[i], s.clock, began, turns)
    ensures TaskHistory(setup, setup.members[i], TaskStep(setup, s, i, GiveUpSleeping(i), now), now, began,
                        OneMoreTurn(turns, GiveUpSleeping(i), now, i))
  {
    var m, p := setup.members[i], s.tasks[i].poll;
    SleepCutShort(setup.config, m.contract.value.baseline, p, began, s.clock, turns, m.profile.name);
    RecordKeeps(setup, i, p, s.tasks[i].satisfied, CancelledResult(m.profile.name, p.attempts), began,
                OneMoreTurn(turns, GiveUpSleeping(i), now, i));
  }

  lemma GatingHistory(setup: Setup, s: State, i: nat, act: Action, now: int, began: int)
    requires TaskEnabled(setup, s, i, act, now) && (act.AwaitEvidence? || act.GiveUpWaiting?)
    ensures TaskHistory(setup, setup.members[i], TaskStep(setup, s, i, act, now), now, began, [])
  {}

  lemma WakeUpHistory(setup: Setup, s: State, i: nat, now: int, began: int, turns: seq<Attempt>)
    requires TaskEnabled(setup, s, i, WakeUp(i), now) && s.clock <= now
    requires TaskHistory(setup, setup.members[i], s.tasks[i], s.clock, began, turns)
    ensures TaskHistory(setup, setup.members[i], TaskStep(setup, s, i, WakeUp(i), now), now, began, turns)
  {}

  lemma TaskStepHistory(setup: Setup, s: State, i: nat, act: Action, now: int, began: int, turns: seq<Attempt>)
    requires IsTaskAction(act) && act.i == i && TaskEnabled(setup, s, i, act, now) && s.clock <= now
    requires TaskHistory(setup, setup.members[i], s.tasks[i], s.clock, began, turns)
    ensures TaskHistory(setup, setup.members[i], TaskStep(setup, s, i, act, now), now, LaterBegan(began, act, now, i),
                        OneMoreTurn(turns, act, now, i))
  {
    match act
    case AwaitEvidence(_) => GatingHistory(setup, s, i, act, now, began);
    case GiveUpWaiting(_) => GatingHistory(setup, s, i, act, now, began);
    case BeginPolling(_) => BeginPollingHistory(setup, s, i, now, began);
    case BeginAttempt(_, top) => BeginAttemptHistory(setup, s, i, top, now, began, turns);
    case EndAttempt(_, _, _, _, _) => EndAttemptHistory(setup, s, i, act, now, began, turns);
    case WakeUp(_) => WakeUpHistory(setup, s, i, now, began, turns);
    case GiveUpSleeping(_) => GiveUpSleepingHistory(setup, s, i, now, began, turns);
  }

  // ----- whole runs

  lemma PutTaskPuts(setup: Setup, s: State, i: nat, t: Task)
    requires i < |s.tasks| == |setup.members|
    ensures PutTask(setup, s, i, t).tasks == s.tasks[i := t] && PutTask(setup, s, i, t).clock == s.clock
  {}

  lemma TaskMoves(setup: Setup, s: State, act: Action, now: int)
    requires Enabled(setup, s, act, now) && IsTaskAction(act)
    ensures act.i < |s.tasks| && s.clock <= now && TaskEnabled(setup, s, act.i, act, now)
    ensures Step(setup, s, act, now).tasks == s.tasks[act.i := TaskStep(setup, s, act.i, act, now)]
    ensures Step(setup, s, act, now).clock == now
  {
    PutTaskPuts(setup, s.(clock := now), act.i, TaskStep(setup, s, act.i, act, now));
  }

  lemma OtherTaskUntouched(setup: Setup, s: State, act: Action, now: int, i: nat)
    requires Inv(setup, s) && Enabled(setup, s, act, now) && i < |s.tasks| && !(IsTaskAction(act) && act.i == i)
    ensures |Step(setup, s, act, now).tasks| == |s.tasks| && Step(setup, s, act, now).tasks[i] == s.tasks[i]
    ensures s.clock <= now == Step(setup, s, act, now).clock
  {
    if IsTaskAction(act) {
      TaskMoves(setup, s, act, now);
    } else {
      OtherCase(setup, s, act, now);
    }
  }

  lemma NotItsTurn(act: Action, now: int, i: nat, began: int, turns: seq<Attempt>)
    requires !(IsTaskAction(act) && act.i == i)
    ensures OneMoreTurn(turns, act, now, i) == turns && LaterBegan(began, act, now, i) == began
  {}

  lemma HistoryLater(setup: Setup, m: Member, t: Task, clock: int, now: int, began: int, turns: seq<Attempt>)
    requires TaskHistory(setup, m, t, clock, began, turns) && clock <= now
    ensures TaskHistory(setup, m, t, now, began, turns)
  {}

  /** One step of anybody, seen from member `i`. */
  lemma StepHistory(setup: Setup, s: State, act: Action, now: int, i: nat, began: int, turns: seq<Attempt>)
    requires Inv(setup, s) && Enabled(setup, s, act, now) && i < |s.tasks|
    requires TaskHistory(setup, setup.members[i], s.tasks[i], s.clock, began, turns)
    ensures var s' := Step(setup, s, act, now);
      && i < |s'.tasks|
      && TaskHistory(setup, setup.members[i], s'.tasks[i], s'.clock, LaterBegan(began, act, now, i),
                     OneMoreTurn(turns, act, now, i))
  {
    if IsTaskAction(act) && act.i == i {
      TaskMoves(setup, s, act, now);
      TaskStepHistory(setup, s, i, act, now, began, turns);
    } else {
      OtherTaskUntouched(setup, s, act, now, i);
      NotItsTurn(act, now, i, began, turns);
      HistoryLater(setup, setup.members[i], s.tasks[i], s.clock, now, began, turns);
    }
  }

  lemma {:induction false} RunHistory(setup: Setup, states: seq<State>, events: seq<Event>, k: nat, i: nat)
    requires IsRun(setup, states, events) && k < |states| && i < |setup.members|
    ensures i < |states[k].tasks|
    ensures TaskHistory(setup, setup.members[i], states[k].tasks[i], states[k].clock, BeganAt(states, events, k, i),
                        TurnsOf(states, events, k, i))
  {
    if k == 0 {
      StartInv(setup, states[0].clock);
    } else {
      RunInv(setup, states, events, k - 1);
      RunHistory(setup, states, events, k - 1, i);
      StepHistory(setup, states[k - 1], events[k - 1].action, events[k - 1].now, i,
                  BeganAt(states, events, k - 1, i), TurnsOf(states, events, k - 1, i));
    }
  }

  /** A member's record over its turns: never polled, with good cause, or what the loop run alone over them
      records. */
  ghost predicate PolledResult(setup: Setup, s: State, m: Member, began: int, turns: seq<Attempt>, r: Result) {
    || (turns == [] && NeverProbed(r) && Cause(setup, s, m))
    || (m.contract.Some? && PolledAlone(setup, m.contract.value, began, turns, r))
  }

  /** However its steps are interleaved, a finished poll ended over its own turns as the loop run alone does. */
  lemma PollsEndAsAlone(setup: Setup, states: seq<State>, events: seq<Event>, k: nat, i: nat)
    requires IsRun(setup, states, events) && k < |states| && i < |setup.members|
    ensures i < |states[k].tasks|
    ensures states[k].tasks[i].Finished? ==>
      PolledResult(setup, states[k], setup.members[i], BeganAt(states, events, k, i), TurnsOf(states, events, k, i),
                   states[k].tasks[i].result)
  {
    RunHistory(setup, states, events, k, i);
    RunAccounted(setup, states, events, k, i);
  }

  // ----- pace

  /** Between two attempts the interval passes, unless the deadline comes first. */
  ghost predicate Spaced(config: PollConfig, deadline: int, turns: seq<Attempt>) {
    forall j :: 0 < j < |turns| ==>
      turns[j].top >= turns[j - 1].waitFrom + config.pollInterval || turns[j].top >= deadline
  }

  lemma TimedIsSpaced(config: PollConfig, began: int, turns: seq<Attempt>)
    requires TurnsTimed(config, began, turns)
    ensures Spaced(config, began + config.maxWait, turns)
  {
    forall j | 0 < j < |turns|
      ensures turns[j].top >= turns[j - 1].waitFrom + config.pollInterval || turns[j].top >= began + config.maxWait
    {
      assert Follows(config, began, turns[j - 1], turns[j]);
    }
  }

  /** The turns are spaced, and a poll sleeps neither past its deadline nor longer than the interval. */
  ghost predicate Paced(config: PollConfig, t: Task, began: int, turns: seq<Attempt>) {
    var deadline := began + config.maxWait;
    && (turns != [] ==> Spaced(config, deadline, turns))
    && (t.Running? && t.poll.stage.Sleeping? ==>
          && turns != [] && t.poll.stage.wake <= deadline
          && t.poll.stage.wake <= turns[|turns| - 1].waitFrom + config.pollInterval)
  }

  lemma HistoryIsPaced(setup: Setup, m: Member, t: Task, clock: int, began: int, turns: seq<Attempt>)
    requires TaskHistory(setup, m, t, clock, began, turns)
    ensures Paced(setup.config, t, began, turns)
  {
    if turns != [] { TimedIsSpaced(setup.config, began, turns); }
  }

  /** No poll is hurried, and none sleeps past its deadline or longer than the interval. */
  lemma AttemptsArePaced(setup: Setup, states: seq<State>, events: seq<Event>, k: nat, i: nat)
    requires IsRun(setup, states, events) && k < |states| && i < |setup.members|
    ensures i < |states[k].tasks|
    ensures Paced(setup.config, states[k].tasks[i], BeganAt(states, events, k, i), TurnsOf(states, events, k, i))
  {
    RunHistory(setup, states, events, k, i);
    HistoryIsPaced(setup, setup.members[i], states[k].tasks[i], states[k].clock, BeganAt(states, events, k, i),
                   TurnsOf(states, events, k, i));
  }

  // ----- the loop itself on the same turns

  ghost predicate Extends(env: nat -> Attempt, turns: seq<Attempt>) {
    forall k: nat :: k < |turns| ==> env(k) == turns[k]
  }

  /** The turns, and after them a clock that stands still past the deadline. */
  function Onwards(config: PollConfig, began: int, turns: seq<Attempt>): nat -> Attempt {
    (k: nat) => OnwardsAt(config, began, turns, k)
  }

  function OnwardsAt(config: PollConfig, began: int, turns: seq<Attempt>, k: nat): Attempt {
    if k < |turns| then turns[k] else StandsAt(PastDeadline(config, began, turns))
  }

  function StandsAt(t: int): Attempt { Attempt(t, t, UNOBSERVED, None, t, t, t, false) }

  function PastDeadline(config: PollConfig, began: int, turns: seq<Attempt>): int {
    var last := if turns == [] then began else turns[|turns| - 1].waitFrom;
    if last < began + config.maxWait then began + config.maxWait else last
  }

  /** The turns of an interleaved poll can be played to the loop run alone. */
  lemma TurnsCanBePlayed(config: PollConfig, began: int, turns: seq<Attempt>)
    requires TurnsTimed(config, began, turns)
    ensures Timed(config, began, Onwards(config, began, turns)) && Extends(Onwards(config, began, turns), turns)
  {
    var env := Onwards(config, began, turns);
    forall k: nat ensures TurnTimed(config, began, env, k) {
      if k + 1 < |turns| {
        assert Ordered(began, turns[k]) && Follows(config, began, turns[k], turns[k + 1]);
      } else if k + 1 == |turns| {
        assert Ordered(began, turns[k]);
      } else if turns != [] {
        assert Ordered(began, turns[|turns| - 1]);
      }
    }
  }

  lemma EndsForAny(config: PollConfig, x: Expectation, deadline: int, turns: seq<Attempt>, env: nat -> Attempt,
                   r: Result)
    requires EndsOver(config, x, deadline, turns, r) && Extends(env, turns)
    ensures Ends(config, x, deadline, env, r)
  {
    var n, own := r.attempts, EnvOf(turns);
    forall k: nat | k < |turns| ensures own(k) == env(k) {
      assert env(k) == turns[k];
    }
    if r.expectationMet {
      TriesDependOnTurns(config, x, deadline, own, env, n - 1);
    } else {
      TriesDependOnTurns(config, x, deadline, own, env, n);
    }
  }

  /** Whatever the loop run alone on the same turns returns has the interleaved poll's outcome. */
  lemma LoopAgrees(setup: Setup, contract: Contract, began: int, turns: seq<Attempt>, r: Result, env: nat -> Attempt,
                   q: Result)
    requires PolledAlone(setup, contract, began, turns, r) && Extends(env, turns)
    requires Ends(setup.config, contract.baseline, began + setup.config.maxWait, env, q)
    ensures SameOutcome(r, q)
  {
    EndsForAny(setup.config, contract.baseline, began + setup.config.maxWait, turns, env, r);
    OutcomeIsDetermined(setup.config, contract.baseline, began + setup.config.maxWait, env, r, q);
  }

  /** Whichever way polling ends, the attempts stay within a positive limit. */
  lemma AttemptsBounded(config: PollConfig, x: Expectation, deadline: int, env: nat -> Attempt, r: Result)
    requires Ends(config, x, deadline, env, r) && config.maxAttempts > 0
    ensures r.attempts <= config.maxAttempts
  {
    var n := r.attempts;
    if n > 0 { assert r.expectationMet || Tried(config, x, deadline, env, n - 1); }
  }
}
