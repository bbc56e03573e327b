/**
 The canary server's shutdown: one accept loop, a handler for every accepted connection and
 any number of callers of `Close`, interleaved. A connection is named by the order of its acceptance.
 */
module Canary {

  /** `Taken` holds an accepted connection that is not registered yet. */
  datatype AcceptLoop = Accepting | Taken | Ended

  datatype Handler = Serving | Written | Unregistered | Disconnected | Gone

  datatype Closer = Idle | Called | StoppingListener | AwaitingLoop | Snapshotting | Closing(rest: set<nat>) | Waiting
      | Returned

  datatype Once = Unused | RunBy(k: nat) | Complete

  /** `group` is the wait group's counter, `closed` the connections whose `Close` was called. */
  datatype State = State(
    listening: bool, loop: AcceptLoop, handlers: seq<Handler>, conns: set<nat>, group: int,
    closed: set<nat>, closers: seq<Closer>, once: Once)

  /** `Handle` is the next operation of a connection's handler, `Advance` the next one of a caller of `Close`. */
  datatype Action = Arrive | AcceptFails | Register | Handle(c: nat) | Call(k: nat) | Advance(k: nat, c: nat)

  function Start(closers: nat): State {
    State(true, Accepting, [], {}, 0, {}, seq(closers, i => Idle), Unused)
  }

  predicate CloserAt(s: State, k: nat, stage: Closer) { k < |s.closers| && s.closers[k] == stage }

  predicate CanAdvance(s: State, k: nat, c: nat) {
    k < |s.closers| &&
    match s.closers[k]
    case Called => s.once.Unused? || s.once.Complete?
    case StoppingListener => true
    case AwaitingLoop => s.loop.Ended?
    case Snapshotting => true
    case Closing(rest) => rest == {} || c in rest
    case Waiting => s.group == 0
    case _ => false
  }

  predicate Enabled(s: State, act: Action) {
    match act
    case Arrive => s.listening && s.loop.Accepting?
    case AcceptFails => s.loop.Accepting?
    case Register => s.loop.Taken?
    case Handle(c) => c < |s.handlers| && !s.handlers[c].Gone?
    case Call(k) => CloserAt(s, k, Idle)
    case Advance(k, c) => CanAdvance(s, k, c)
  }

  /** A handler answers, leaves `conns`, closes its connection and signs off. */
  function HandleStep(s: State, c: nat): State
    requires c < |s.handlers| && !s.handlers[c].Gone?
  {
    match s.handlers[c]
    case Serving => s.(handlers := s.handlers[c := Written])
    case Written => s.(handlers := s.handlers[c := Unregistered], conns := s.conns - {c})
    case Unregistered => s.(handlers := s.handlers[c := Disconnected], closed := s.closed + {c})
    case Disconnected => s.(handlers := s.handlers[c := Gone], group := s.group - 1)
  }

  function Put(s: State, k: nat, stage: Closer): State
    requires k < |s.closers|
  {
    s.(closers := s.closers[k := stage])
  }

  /** The first caller runs the shutdown; later ones wait until it is complete. */
  function CloserStep(s: State, k: nat, c: nat): State
    requires CanAdvance(s, k, c)
  {
    match s.closers[k]
    case Called => if s.once.Unused? then Put(s, k, StoppingListener).(once := RunBy(k)) else Put(s, k, Returned)
    case StoppingListener => Put(s, k, AwaitingLoop).(listening := false)
    case AwaitingLoop => Put(s, k, Snapshotting)
    case Snapshotting => Put(s, k, Closing(s.conns))
    case Closing(rest) =>
      if rest == {} then Put(s, k, Waiting) else Put(s, k, Closing(rest - {c})).(closed := s.closed + {c})
    case Waiting => Put(s, k, Returned).(once := Complete)
  }

  function Step(s: State, act: Action): State
    requires Enabled(s, act)
  {
    match act
    case Arrive => s.(loop := Taken)
    case AcceptFails => s.(loop := Ended)
    case Register => s.(loop := Accepting, conns := s.conns + {|s.handlers|}, group := s.group + 1,
                        handlers := s.handlers + [Serving])
    case Handle(c) => HandleStep(s, c)
    case Call(k) => Put(s, k, Called)
    case Advance(k, c) => CloserStep(s, k, c)
  }

  // ----- sums

  function Total<T>(items: seq<T>, weight: T -> nat): nat {
    if items == [] then 0 else Total(items[..|items| - 1], weight) + weight(items[|items| - 1])
  }

  lemma {:induction false} TotalPut<T>(items: seq<T>, weight: T -> nat, i: nat, x: T)
    requires i < |items|
    ensures Total(items[i := x], weight) == Total(items, weight) - weight(items[i]) + weight(x)
  {
    var n := |items| - 1;
    var put := items[i := x];
    if i == n {
      assert put[..n] == items[..n];
    } else {
      assert put[..n] == items[..n][i := x];
      TotalPut(items[..n], weight, i, x);
    }
  }

  lemma TotalAdd<T>(items: seq<T>, weight: T -> nat, x: T)
    ensures Total(items + [x], weight) == Total(items, weight) + weight(x)
  {
    assert (items + [x])[..|items|] == items;
  }

  lemma {:induction false} TotalZero<T>(items: seq<T>, weight: T -> nat, i: nat)
    requires Total(items, weight) == 0 && i < |items|
    ensures weight(items[i]) == 0
  {
    var n := |items| - 1;
    if i == n {
    } else {
      TotalZero(items[..n], weight, i);
    }
  }

  function Live(h: Handler): nat { if h.Gone? then 0 else 1 }

  function LiveHandlers(s: State): nat { Total(s.handlers, Live) }

  // ----- what holds in every reachable state

  ghost predicate HandlerOk(s: State, c: nat)
    requires c < |s.handlers|
  {
    && (c in s.conns <==> s.handlers[c].Serving? || s.handlers[c].Written?)
    && (s.handlers[c].Disconnected? || s.handlers[c].Gone? ==> c in s.closed)
  }

  predicate Inside(stage: Closer) { !stage.Idle? && !stage.Called? && !stage.Returned? }

  predicate PastLoop(stage: Closer) { stage.Snapshotting? || stage.Closing? || stage.Waiting? }

  predicate CloserOk(s: State, k: nat)
    requires k < |s.closers|
  {
    var stage := s.closers[k];
    && (Inside(stage) <==> s.once == RunBy(k))
    && (stage.Returned? ==> s.once.Complete?)
    && (Inside(stage) && !stage.StoppingListener? ==> !s.listening)
    && (PastLoop(stage) ==> s.loop.Ended?)
  }

  /** Every connection a peer could still hold up is closed already or still on the closing caller's list. */
  ghost predicate Covered(s: State) {
    s.once.RunBy? && s.once.k < |s.closers| ==>
      match s.closers[s.once.k]
      case Closing(rest) => forall c :: c in s.conns ==> c in s.closed || c in rest
      case Waiting => forall c :: c in s.conns ==> c in s.closed
      case _ => true
  }

  ghost predicate Inv(s: State) {
    && (forall c :: c in s.conns ==> c < |s.handlers|)
    && (forall c: nat :: c < |s.handlers| ==> HandlerOk(s, c))
    && (forall k: nat :: k < |s.closers| ==> CloserOk(s, k))
    && (s.once.RunBy? ==> s.once.k < |s.closers|)
    && Covered(s)
    && s.group == LiveHandlers(s)
    && (s.once.Complete? ==> !s.listening && s.loop.Ended? && LiveHandlers(s) == 0)
  }

  lemma StartInv(closers: nat)
    ensures Inv(Start(closers))
  {}

  lemma StepGroup(s: State, act: Action)
    requires Inv(s) && Enabled(s, act)
    ensures Step(s, act).group == LiveHandlers(Step(s, act))
  {
    match act
    case Register => TotalAdd(s.handlers, Live, Serving);
    case Handle(c) => TotalPut(s.handlers, Live, c, Step(s, act).handlers[c]);
    case _ =>
  }

  lemma StepHandler(s: State, act: Action, c: nat)
    requires Inv(s) && Enabled(s, act) && c < |Step(s, act).handlers|
    ensures HandlerOk(Step(s, act), c)
  {
    assert c < |s.handlers| ==> HandlerOk(s, c);
  }

  lemma StepCloser(s: State, act: Action, k: nat)
    requires Inv(s) && Enabled(s, act) && k < |s.closers|
    ensures CloserOk(Step(s, act), k)
  {
    assert CloserOk(s, k);
    if act.Advance? { assert CloserOk(s, act.k); }
  }

  lemma StepCovered(s: State, act: Action)
    requires Inv(s) && Enabled(s, act)
    ensures Covered(Step(s, act))
  {
    if s.once.RunBy? { assert CloserOk(s, s.once.k); }
    if act.Advance? { assert CloserOk(s, act.k); }
  }

  lemma StepComplete(s: State, act: Action)
    requires Inv(s) && Enabled(s, act) && Step(s, act).once.Complete?
    ensures var s' := Step(s, act); !s'.listening && s'.loop.Ended? && LiveHandlers(s') == 0
  {
    StepGroup(s, act);
    if s.once.Complete? {
      if act.Handle? { TotalZero(s.handlers, Live, act.c); }
    } else {
      assert CloserOk(s, act.k);
    }
  }

  lemma StepInv(s: State, act: Action)
    requires Inv(s) && Enabled(s, act)
    ensures Inv(Step(s, act))
  {
    var s' := Step(s, act);
    StepGroup(s, act);
    StepCovered(s, act);
    forall c: nat | c < |s'.handlers| ensures HandlerOk(s', c) { StepHandler(s, act, c); }
    forall k: nat | k < |s'.closers| ensures CloserOk(s', k) { StepCloser(s, act, k); }
    if s'.once.Complete? { StepComplete(s, act); }
  }

  // ----- runs

  ghost predicate IsRun(states: seq<State>, acts: seq<Action>) {
    && |states| == |acts| + 1
    && states[0] == Start(|states[0].closers|)
    && forall i :: 0 <= i < |acts| ==> Enabled(states[i], acts[i]) && states[i + 1] == Step(states[i], acts[i])
  }

  lemma {:induction false} RunInv(states: seq<State>, acts: seq<Action>, i: nat)
    requires IsRun(states, acts) && i < |states|
    ensures Inv(states[i])
  {
    if i == 0 {
      StartInv(|states[0].closers|);
    } else {
      RunInv(states, acts, i - 1);
      StepInv(states[i - 1], acts[i - 1]);
    }
  }

  /** The listener is shut, every connection that was ever accepted is closed, and nobody serves one. */
  ghost predicate ShutDown(s: State) {
    && !s.listening && s.loop.Ended? && s.conns == {}
    && forall c: nat :: c < |s.handlers| ==> s.handlers[c].Gone? && c in s.closed
  }

  /** Whichever caller's `Close` has returned, the server is shut down. */
  lemma CloseMeansShutDown(states: seq<State>, acts: seq<Action>, i: nat, k: nat)
    requires IsRun(states, acts) && i < |states| && CloserAt(states[i], k, Returned)
    ensures ShutDown(states[i])
  {
    RunInv(states, acts, i);
    var s := states[i];
    assert CloserOk(s, k);
    forall c: nat | c < |s.handlers| ensures s.handlers[c].Gone? && c in s.closed {
      TotalZero(s.handlers, Live, c);
      assert HandlerOk(s, c);
    }
    assert forall c :: c in s.conns ==> c < |s.handlers| && HandlerOk(s, c);
  }

  /** Once a caller waits for the handlers, no handler is ever added. */
  lemma {:induction false} NoHandlerAfterWait(states: seq<State>, acts: seq<Action>, i: nat, j: nat, k: nat)
    requires IsRun(states, acts) && i <= j < |states| && CloserAt(states[i], k, Waiting)
    ensures |states[j].handlers| == |states[i].handlers| && states[j].loop.Ended?
    decreases j
  {
    RunInv(states, acts, i);
    assert CloserOk(states[i], k);
    if i == j {
    } else {
      NoHandlerAfterWait(states, acts, i, j - 1, k);
    }
  }

  /** After `Close` has returned nothing but further calls of `Close` happens, and they return at once. */
  lemma ShutDownIsFinal(states: seq<State>, acts: seq<Action>, i: nat, k: nat)
    requires IsRun(states, acts) && i < |acts| && CloserAt(states[i], k, Returned)
    ensures acts[i].Call? || (acts[i].Advance? && CloserAt(states[i + 1], acts[i].k, Returned))
    ensures CloserAt(states[i + 1], k, Returned)
  {
    CloseMeansShutDown(states, acts, i, k);
    RunInv(states, acts, i);
    assert CloserOk(states[i], k);
    if acts[i].Advance? { assert CloserOk(states[i], acts[i].k); }
  }

  // ----- until then the server serves

  /** How often an action was taken in the first `i` steps. */
  function Times(acts: seq<Action>, i: nat, act: Action): nat
    requires i <= |acts|
  {
    if i == 0 then 0 else Times(acts, i - 1, act) + if acts[i - 1] == act then 1 else 0
  }

  /** Every peer that arrived has its handler or is about to get it, and every handler makes its four operations. */
  ghost predicate Serves(s: State, acts: seq<Action>, i: nat)
    requires i <= |acts|
  {
    && Peers(s) == Times(acts, i, Arrive)
    && forall c: nat :: HandledSoFar(s, c, Times(acts, i, Handle(c)))
  }

  function Peers(s: State): nat { |s.handlers| + if s.loop.Taken? then 1 else 0 }

  predicate HandledSoFar(s: State, c: nat, times: nat) {
    if c < |s.handlers| then times + Remaining(s.handlers[c]) == 4 else times == 0
  }

  lemma StepHandled(s: State, act: Action, c: nat, times: nat)
    requires Enabled(s, act) && HandledSoFar(s, c, times)
    ensures HandledSoFar(Step(s, act), c, if act == Handle(c) then times + 1 else times)
  {}

  lemma StepPeers(s: State, act: Action)
    requires Enabled(s, act)
    ensures Peers(Step(s, act)) == Peers(s) + if act.Arrive? then 1 else 0
  {}

  lemma {:induction false} PeersAreServed(states: seq<State>, acts: seq<Action>, i: nat)
    requires IsRun(states, acts) && i < |states|
    ensures Serves(states[i], acts, i)
  {
    if i == 0 {
    } else {
      PeersAreServed(states, acts, i - 1);
      StepPeers(states[i - 1], acts[i - 1]);
      forall c: nat ensures HandledSoFar(states[i], c, Times(acts, i, Handle(c))) {
        assert HandledSoFar(states[i - 1], c, Times(acts, i - 1, Handle(c)));
        StepHandled(states[i - 1], acts[i - 1], c, Times(acts, i - 1, Handle(c)));
      }
    }
  }

  /** Until a caller begins the shutdown the listener is open, and only a handler closes its connection, once done. */
  ghost predicate OpenForPeers(s: State) {
    s.once.Unused? ==> s.listening && forall c: nat :: c in s.closed ==> SignedOff(s, c)
  }

  predicate SignedOff(s: State, c: nat) { c < |s.handlers| && Remaining(s.handlers[c]) <= 1 }

  lemma StepOpen(s: State, act: Action)
    requires Inv(s) && Enabled(s, act) && OpenForPeers(s)
    ensures OpenForPeers(Step(s, act))
  {
    if act.Advance? {
      assert CloserOk(s, act.k);
    } else if s.once.Unused? {
      forall c: nat | c in Step(s, act).closed ensures SignedOff(Step(s, act), c) {
        assert c in s.closed ==> SignedOff(s, c);
      }
    }
  }

  lemma {:induction false} OpenUntilClose(states: seq<State>, acts: seq<Action>, i: nat)
    requires IsRun(states, acts) && i < |states|
    ensures OpenForPeers(states[i])
  {
    if i == 0 {
    } else {
      RunInv(states, acts, i - 1);
      OpenUntilClose(states, acts, i - 1);
      StepOpen(states[i - 1], acts[i - 1]);
    }
  }

  // ----- a closing server comes to rest

  /**
   A peer connects, `Accept` fails on an open listener, a caller calls, or a peer lets a handshake on an open
   connection end.
   */
  predicate FromOutside(s: State, act: Action) {
    || act.Arrive? || (act.AcceptFails? && s.listening) || act.Call?
    || (act.Handle? && act.c < |s.handlers| && s.handlers[act.c].Serving? && act.c !in s.closed)
  }

  /**
   A `Close` that was called and has not returned can always make the server take another step, whatever the
   peers do.
   */
  lemma CloseNeverStuck(states: seq<State>, acts: seq<Action>, i: nat, k: nat)
    requires IsRun(states, acts) && i < |states| && k < |states[i].closers|
    requires !states[i].closers[k].Idle? && !states[i].closers[k].Returned?
    ensures exists act :: Enabled(states[i], act) && !FromOutside(states[i], act)
  {
    RunInv(states, acts, i);
    var act := NextStep(states[i], k);
  }

  lemma NextStep(s: State, k: nat) returns (act: Action)
    requires Inv(s) && k < |s.closers| && !s.closers[k].Idle? && !s.closers[k].Returned?
    ensures Enabled(s, act) && !FromOutside(s, act)
  {
    assert CloserOk(s, k);
    if s.loop.Accepting? && !s.listening { return AcceptFails; }
    if s.loop.Taken? { return Register; }
    if !s.once.RunBy? { return Advance(k, 0); }
    var r := s.once.k;
    assert CloserOk(s, r);
    if s.closers[r].Closing? && s.closers[r].rest != {} {
      var c :| c in s.closers[r].rest;
      return Advance(r, c);
    }
    if s.closers[r].Waiting? && s.group != 0 {
      var c := SomeLive(s.handlers);
      assert HandlerOk(s, c);
      return Handle(c);
    }
    return Advance(r, 0);
  }

  lemma {:induction false} SomeLive(handlers: seq<Handler>) returns (c: nat)
    requires Total(handlers, Live) > 0
    ensures c < |handlers| && !handlers[c].Gone?
  {
    var n := |handlers| - 1;
    if handlers[n].Gone? {
      c := SomeLive(handlers[..n]);
    } else {
      c := n;
    }
  }

  function Remaining(h: Handler): nat {
    match h case Serving => 4 case Written => 3 case Unregistered => 2 case Disconnected => 1 case Gone => 0
  }

  function CallLeft(stage: Closer): nat { if stage.Called? then 1 else 0 }

  function LoopLeft(loop: AcceptLoop): nat { match loop case Taken => 7 case Accepting => 1 case Ended => 0 }

  function OnceLeft(s: State): nat {
    match s.once
    case Complete => 0
    case Unused => 6 + |s.conns|
    case RunBy(k) => if k < |s.closers| then StageLeft(s.closers[k], |s.conns|) else 0
  }

  function StageLeft(stage: Closer, open: nat): nat {
    match stage
    case StoppingListener => 5 + open
    case AwaitingLoop => 4 + open
    case Snapshotting => 3 + open
    case Closing(rest) => 2 + |rest|
    case _ => 1
  }

  /** Steps that can still be taken without new peers and new calls. */
  function Measure(s: State): nat {
    Total(s.handlers, Remaining) + Total(s.closers, CallLeft) + LoopLeft(s.loop) + OnceLeft(s)
  }

  /** Every step but a new peer or a new call uses one up, so a closing server comes to rest with `Close` returned. */
  lemma StepsRunOut(states: seq<State>, acts: seq<Action>, i: nat)
    requires IsRun(states, acts) && i < |acts| && !acts[i].Arrive? && !acts[i].Call?
    ensures Inv(states[i]) && Inv(states[i + 1])
    ensures Measure(states[i + 1]) < Measure(states[i])
  {
    RunInv(states, acts, i);
    RunInv(states, acts, i + 1);
    StepShrinks(states[i], acts[i]);
  }

  lemma AdvanceShrinks(s: State, k: nat, c: nat)
    requires CanAdvance(s, k, c) && Inv(s) && Inv(CloserStep(s, k, c))
    ensures var s' := CloserStep(s, k, c);
      CallLeft(s'.closers[k]) + OnceLeft(s') < CallLeft(s.closers[k]) + OnceLeft(s)
  {
    assert CloserOk(s, k) && CloserOk(CloserStep(s, k, c), k);
  }

  lemma OneMore(s: set<nat>, c: nat)
    ensures |s + {c}| <= |s| + 1
  {
    if c in s {
      assert s + {c} == s;
    } else {
      assert |s + {c}| == |s| + |{c}|;
    }
  }

  /** Without a move of its callers a shutdown's work grows by no more than the open connections do. */
  lemma OnceLeftGrows(s: State, s': State, more: nat)
    requires s'.once == s.once && s'.closers == s.closers && |s'.conns| <= |s.conns| + more
    ensures OnceLeft(s') <= OnceLeft(s) + more
  {}

  lemma RegisterShrinks(s: State)
    requires s.loop.Taken?
    ensures Measure(Step(s, Register)) < Measure(s)
  {
    TotalAdd(s.handlers, Remaining, Serving);
    OneMore(s.conns, |s.handlers|);
    OnceLeftGrows(s, Step(s, Register), 1);
  }

  lemma HandleShrinks(s: State, c: nat)
    requires c < |s.handlers| && !s.handlers[c].Gone?
    ensures Measure(HandleStep(s, c)) < Measure(s)
  {
    TotalPut(s.handlers, Remaining, c, HandleStep(s, c).handlers[c]);
    Fewer(s.conns, c);
    OnceLeftGrows(s, HandleStep(s, c), 0);
  }

  lemma Fewer(s: set<nat>, c: nat)
    ensures |s - {c}| <= |s| && (c in s ==> |s - {c}| == |s| - 1)
  {
    if c in s {
      assert s == (s - {c}) + {c};
    } else {
      assert s - {c} == s;
    }
  }

  lemma StepShrinks(s: State, act: Action)
    requires Enabled(s, act) && !act.Arrive? && !act.Call? && Inv(s) && Inv(Step(s, act))
    ensures Measure(Step(s, act)) < Measure(s)
  {
    var s' := Step(s, act);
    match act
    case Register => RegisterShrinks(s);
    case Handle(c) => HandleShrinks(s, c);
    case Advance(k, c) => TotalPut(s.closers, CallLeft, k, s'.closers[k]); AdvanceShrinks(s, k, c);
    case AcceptFails =>
  }
}
