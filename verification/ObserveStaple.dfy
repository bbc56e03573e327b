/** The staple publisher of the observe phase: a fetched staple is published, and giving up has a reason. */
module ObserveStaple {
  import opened Basics
  import opened ObservePhase
  import opened ObserveSafety
  import opened ObserveTheorems

  /** When fetching began, when a fetch brought the revoked staple, and when that was handed to the canary. */
  datatype Milestones = Milestones(began: int, fetched: Option<int>, published: Option<int>)

  /** The milestones of the first `k` steps of a run, read off its events. */
  function MilestonesOf(states: seq<State>, events: seq<Event>, k: nat): Milestones
    requires k < |states| == |events| + 1
  {
    if k == 0 then Milestones(0, None, None)
    else OneMoreStep(MilestonesOf(states, events, k - 1), states[k - 1].stapler, events[k - 1].action,
                     events[k - 1].now)
  }

  function OneMoreStep(m: Milestones, before: Stapler, act: Action, now: int): Milestones {
    if !act.StapleStep? then m
    else if before.StapleReady? then m.(began := now)
    else if before.Fetching? && act.fetched then m.(fetched := Some(now))
    else if before.Publishing? then m.(published := Some(now))
    else m
  }

  /** Giving up: the context was cancelled, or the whole wait has passed since fetching began. */
  predicate OutOfTime(setup: Setup, s: State, m: Milestones) {
    s.cancelled || m.began + setup.config.maxWait <= s.clock
  }

  /** The outcome the goroutine carries is the one its milestones call for. */
  predicate Justified(setup: Setup, s: State, m: Milestones, outcome: StapleOutcome) {
    match outcome
    case StapleError => m.fetched.None? && m.published.None? && OutOfTime(setup, s, m)
    case Published(sourceAt, publishedAt) => m.fetched == Some(sourceAt) && m.published == Some(publishedAt)
  }

  predicate InStep(setup: Setup, s: State, m: Milestones) {
    match s.stapler
    case Publishing(at) => m.fetched == Some(at) && m.published.None?
    case Returned(outcome) => Justified(setup, s, m, outcome)
    case Written(outcome) => Justified(setup, s, m, outcome)
    case Open => s.vars.Some? && Justified(setup, s, m, s.vars.value)
    case Off => m.fetched.None? && m.published.None?
    case StapleReady => m.fetched.None? && m.published.None?
    case _ =>
      && m.fetched.None? && m.published.None? && s.stapler.deadline == m.began + setup.config.maxWait
      && (s.stapler.StapleSleeping? ==> s.stapler.wake <= s.stapler.deadline)
  }

  lemma StapleKept(setup: Setup, s: State, act: Action, now: int)
    requires Enabled(setup, s, act, now) && !act.StapleStep? && !act.StapleGiveUp?
    ensures var s' := Step(setup, s, act, now);
      s'.stapler == s.stapler && s'.vars == s.vars && s'.clock == now && (s.cancelled ==> s'.cancelled)
  {}

  lemma StepInStep(setup: Setup, s: State, m: Milestones, act: Action, now: int)
    requires Inv(setup, s) && Enabled(setup, s, act, now) && InStep(setup, s, m)
    ensures InStep(setup, Step(setup, s, act, now), OneMoreStep(m, s.stapler, act, now))
  {
    if !act.StapleStep? && !act.StapleGiveUp? {
      StapleKept(setup, s, act, now);
    }
  }

  lemma {:induction false} RunInStep(setup: Setup, states: seq<State>, events: seq<Event>, k: nat)
    requires IsRun(setup, states, events) && k < |states|
    ensures InStep(setup, states[k], MilestonesOf(states, events, k))
  {
    if k == 0 {
    } else {
      RunInv(setup, states, events, k - 1);
      RunInStep(setup, states, events, k - 1);
      StepInStep(setup, states[k - 1], MilestonesOf(states, events, k - 1), events[k - 1].action, events[k - 1].now);
    }
  }

  /**
   Once its barrier is resolved, the revoked staple was published exactly when a fetch had brought it, at the times
   of the fetch and of the hand-over; otherwise the wait had passed or the context was cancelled.
   */
  lemma FetchedStapleIsPublished(setup: Setup, states: seq<State>, events: seq<Event>, k: nat)
    requires IsRun(setup, states, events) && k < |states| && setup.staplingOn && !states[k].staple.Pending?
    ensures var s, m := states[k], MilestonesOf(states, events, k);
      && (s.staple.Satisfied? <==> m.fetched.Some?)
      && (s.staple.Satisfied? ==>
            m.published == Some(s.staple.at) && s.vars == Some(Published(m.fetched.value, s.staple.at)))
      && (s.staple.Failed? ==> s.cancelled || m.began + setup.config.maxWait <= s.clock)
  {
    RunInStep(setup, states, events, k);
    StapleWrittenBeforeOpen(setup, states, events, k);
    RunInv(setup, states, events, k);
  }

  /** A staple that was fetched at step `j` is never given up again. */
  lemma {:induction false} FetchSettlesIt(setup: Setup, states: seq<State>, events: seq<Event>, j: nat, k: nat)
    requires IsRun(setup, states, events) && j < k < |states|
    requires states[j].stapler.Fetching? && events[j].action == StapleStep(true)
    ensures MilestonesOf(states, events, k).fetched == Some(events[j].now)
    decreases k
  {
    RunInStep(setup, states, events, k);
    if k == j + 1 {
    } else {
      FetchSettlesIt(setup, states, events, j, k - 1);
      RunInStep(setup, states, events, k - 1);
    }
  }
}
