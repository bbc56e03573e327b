/**
 The anti-rollback state of the drift agent: what a baseline transaction decides,
 and the lock/read/validate/temp-write/rename/unlock protocol that many agents,
 any of which may crash, run against one state file.
 */
module BaselineState {
  import opened Basics

  const SEQUENCE_LIMIT := 0x1_0000_0000_0000_0000

  /** A `uint64`. */
  type Sequence = n: nat | n < SEQUENCE_LIMIT

  /**
   A digest field. `Sha256` is a free constructor: an injective hash whose values are never
   empty; `Text` is operator-supplied text that is no baseline's hash.
   */
  datatype Digest = NoDigest | Text(text: string) | Sha256(hashed: Baseline)

  /** The signed payload; `content` stands for the roots and times. */
  datatype Baseline = Baseline(sequence: Sequence, previousDigest: Digest, content: string)

  datatype State = State(highestSequence: Sequence, digest: Digest)

  datatype StateFile = Absent | Stored(state: State) | Corrupt

  const NO_STATE := State(0, NoDigest)

  function StateFor(b: Baseline): State { State(b.sequence, Sha256(b)) }

  datatype Verdict = Rollback | Equivocation | ChainMismatch | AlreadyAccepted | Advance

  /** The checks of one transaction, in source order. */
  function Judge(s: State, b: Baseline): Verdict {
    if b.sequence < s.highestSequence then Rollback
    else if b.sequence == s.highestSequence && s.digest != NoDigest && s.digest != Sha256(b) then Equivocation
    else if b.sequence > s.highestSequence && s.digest != NoDigest && b.previousDigest != s.digest then ChainMismatch
    else if b.sequence == s.highestSequence && s.digest == Sha256(b) then AlreadyAccepted
    else Advance
  }

  /** What a transaction reads: an absent file is the zero state. */
  function Seen(file: StateFile): State
    requires !file.Corrupt?
  {
    if file.Absent? then NO_STATE else file.state
  }

  // ----- histories

  /** Each entry advances on the one before: a higher sequence that names its digest. */
  ghost predicate IsChain(log: seq<Baseline>) {
    forall i :: 0 < i < |log| ==>
      log[i - 1].sequence < log[i].sequence && log[i].previousDigest == Sha256(log[i - 1])
  }

  /** The file after accepting `log` from nothing. */
  function FileOf(log: seq<Baseline>): StateFile {
    if log == [] then Absent else Stored(StateFor(log[|log| - 1]))
  }

  /** A baseline advances the file a chain left behind exactly when it extends that chain. */
  lemma AdvanceExtendsChain(log: seq<Baseline>, b: Baseline)
    requires IsChain(log)
    ensures Judge(Seen(FileOf(log)), b) == Advance <==> IsChain(log + [b])
    ensures IsChain(log + [b]) ==> FileOf(log + [b]) == Stored(StateFor(b))
  {
    var next := log + [b];
    if log != [] {
      var n := |log|;
      assert next[n - 1] == log[n - 1] && next[n] == b;
      if Judge(Seen(FileOf(log)), b) == Advance {
        forall i | 0 < i < |next|
          ensures next[i - 1].sequence < next[i].sequence && next[i].previousDigest == Sha256(next[i - 1])
        {
          if i < n { assert next[i - 1] == log[i - 1] && next[i] == log[i]; }
        }
      }
    }
  }

  lemma {:induction false} ChainIncreases(log: seq<Baseline>, i: nat, j: nat)
    requires IsChain(log) && i < j < |log|
    ensures log[i].sequence < log[j].sequence
    decreases j
  {
    if i + 1 == j {
    } else {
      ChainIncreases(log, i, j - 1);
    }
  }

  /** Why a baseline is refused after a history: it is compared with the last entry, and passed entries roll back. */
  lemma WhyRefused(log: seq<Baseline>, b: Baseline)
    requires log != [] && IsChain(log)
    ensures var last, verdict := log[|log| - 1], Judge(Seen(FileOf(log)), b);
      && (verdict == Rollback <==> b.sequence < last.sequence)
      && (verdict == Equivocation <==> b.sequence == last.sequence && b != last)
      && (verdict == AlreadyAccepted <==> b == last)
      && (verdict == ChainMismatch <==> b.sequence > last.sequence && b.previousDigest != Sha256(last))
      && (b in log[..|log| - 1] ==> verdict == Rollback)
  {
    var n := |log| - 1;
    if b in log[..n] {
      var i :| 0 <= i < n && log[i] == b;
      ChainIncreases(log, i, n);
    }
  }

  ghost predicate IsSuffix(a: seq<Baseline>, b: seq<Baseline>) {
    |a| <= |b| && b[|b| - |a|..] == a
  }

  /** One history is a suffix of the other still when both go on with the same entry. */
  lemma SuffixGoesOn(a: seq<Baseline>, b: seq<Baseline>)
    requires a != [] && b != [] && a[|a| - 1] == b[|b| - 1]
    requires IsSuffix(a[..|a| - 1], b[..|b| - 1])
    ensures IsSuffix(a, b)
  {
    var n, m := |a| - 1, |b| - 1;
    var tail := b[m - n..];
    assert tail[..n] == b[..m][m - n..];
    assert tail == tail[..n] + [tail[n]];
    assert a == a[..n] + [a[n]];
  }

  /** Agents that agree on the latest digest agree on the past: one history is a suffix of the other. */
  lemma {:induction false} EqualDigestsShareHistory(a: seq<Baseline>, b: seq<Baseline>)
    requires a != [] && b != [] && IsChain(a) && IsChain(b)
    requires Sha256(a[|a| - 1]) == Sha256(b[|b| - 1])
    ensures IsSuffix(a, b) || IsSuffix(b, a)
    decreases |a|
  {
    var n, m := |a| - 1, |b| - 1;
    if n == 0 {
      assert IsSuffix(a[..n], b[..m]);
      SuffixGoesOn(a, b);
    } else if m == 0 {
      assert IsSuffix(b[..m], a[..n]);
      SuffixGoesOn(b, a);
    } else {
      assert a[n].previousDigest == Sha256(a[n - 1]) && b[m].previousDigest == Sha256(b[m - 1]);
      EqualDigestsShareHistory(a[..n], b[..m]);
      if IsSuffix(a[..n], b[..m]) { SuffixGoesOn(a, b); } else { SuffixGoesOn(b, a); }
    }
  }

  // ----- the baseline producer

  /** Flags to baseline; `--next-from` overrides the sequence and digest flags. */
  function Produce(sequence: Sequence, previousDigest: Digest, nextFrom: Option<Baseline>,
                   content: string): Option<Baseline>
  {
    if sequence == 0 || (sequence > 1 && previousDigest == NoDigest) then None
    else match nextFrom
      case None => Some(Baseline(sequence, previousDigest, content))
      case Some(previous) =>
        if previous.sequence == SEQUENCE_LIMIT - 1 then None
        else Some(Baseline(previous.sequence + 1, Sha256(previous), content))
  }

  /**
   What the producer makes: the flags as given when they are in order, or the successor of the baseline it is given,
   which every agent on that baseline advances to; only the last sequence has none.
   */
  lemma ProducedAdvances(sequence: Sequence, previousDigest: Digest, nextFrom: Option<Baseline>, content: string)
    ensures var made := Produce(sequence, previousDigest, nextFrom, content);
      && (made.Some? <==>
            && sequence > 0 && (sequence == 1 || previousDigest != NoDigest)
            && (nextFrom.Some? ==> nextFrom.value.sequence < SEQUENCE_LIMIT - 1))
      && (made.Some? ==> made.value.content == content)
      && (made.Some? && nextFrom.None? ==>
            made.value.sequence == sequence && made.value.previousDigest == previousDigest)
      && (made.Some? && nextFrom.Some? ==>
            && made.value.sequence == nextFrom.value.sequence + 1
            && IsChain([nextFrom.value, made.value])
            && Judge(StateFor(nextFrom.value), made.value) == Advance)
  {}

  /** Baselines each produced with `--next-from` the one before. */
  ghost predicate IsReleaseLine(bs: seq<Baseline>) {
    forall i :: 0 < i < |bs| ==> Produce(1, NoDigest, Some(bs[i - 1]), bs[i].content) == Some(bs[i])
  }

  lemma {:induction false} ReleaseNumbers(bs: seq<Baseline>, i: nat)
    requires IsReleaseLine(bs) && i < |bs|
    ensures bs[i].sequence == bs[0].sequence + i
    ensures i > 0 ==> bs[i].previousDigest == Sha256(bs[i - 1])
  {
    if i == 0 {
    } else {
      ReleaseNumbers(bs, i - 1);
    }
  }

  /** A line goes on, with any content, exactly until its sequence numbers are used up. */
  lemma LineGoesOn(bs: seq<Baseline>, content: string)
    requires bs != [] && IsReleaseLine(bs)
    ensures bs[|bs| - 1].sequence < SEQUENCE_LIMIT - 1 <==>
      exists b: Baseline :: b.content == content && IsReleaseLine(bs + [b])
  {
    var last := bs[|bs| - 1];
    var made := Produce(1, NoDigest, Some(last), content);
    if made.Some? {
      var more := bs + [made.value];
      forall i | 0 < i < |more| ensures Produce(1, NoDigest, Some(more[i - 1]), more[i].content) == Some(more[i]) {
        if i < |bs| { assert more[i - 1] == bs[i - 1] && more[i] == bs[i]; }
      }
    } else {
      forall b: Baseline | b.content == content ensures !IsReleaseLine(bs + [b]) {
        var more := bs + [b];
        assert more[|bs| - 1] == last && more[|bs|] == b;
      }
    }
  }

  /** An agent on release `i` of a line re-accepts it, advances to release `i + 1` and refuses the rest. */
  lemma OnlyNextReleaseAdvances(bs: seq<Baseline>, i: nat, j: nat)
    requires IsReleaseLine(bs) && i < |bs| && j < |bs|
    ensures Judge(StateFor(bs[i]), bs[j]) ==
      if j < i then Rollback else if j == i then AlreadyAccepted else if j == i + 1 then Advance else ChainMismatch
  {
    ReleaseNumbers(bs, i);
    ReleaseNumbers(bs, j);
    if j > i + 1 {
      ReleaseNumbers(bs, j - 1);
      assert bs[j - 1] != bs[i];
    }
  }

  // ----- one transaction, run alone

  datatype WriteResult = WriteDone | WriteFailed | SyncFailed
  datatype Reply = Accepted | Refused(verdict: Verdict) | ReadError | ParseError | WriteError

  /**
   One transaction on `b`, from the file before to the file after and the reply. `readable` and `write` are
   what the disk does.
   */
  ghost predicate Transaction(before: StateFile, after: StateFile, b: Baseline, readable: bool, write: WriteResult,
                              r: Reply)
  {
    && (!readable ==> r == ReadError && after == before)
    && (readable && before.Corrupt? ==> r == ParseError && after == before)
    && (readable && !before.Corrupt? ==>
          var verdict := Judge(Seen(before), b);
          && (r == Accepted <==> verdict == AlreadyAccepted || (verdict == Advance && write == WriteDone))
          && (r == WriteError <==> verdict == Advance && write != WriteDone)
          && (r == Refused(verdict) <==> verdict != AlreadyAccepted && verdict != Advance)
          && after == if verdict == Advance && write != WriteFailed then Stored(StateFor(b)) else before)
  }

  class StateStore {
    var file: StateFile

    constructor ()
      ensures file == Absent
    {
      file := Absent;
    }

    /** `verifyAndAdvanceBaselineState` under the lock; the other arguments are what the disk does. */
    method VerifyAndAdvance(b: Baseline, readable: bool, write: WriteResult) returns (r: Reply)
      modifies this
      ensures Transaction(old(file), file, b, readable, write, r)
    {
      var state := NO_STATE;
      if !readable { return ReadError; }
      match file {
        case Absent =>
        case Corrupt => return ParseError;
        case Stored(s) => state := s;
      }
      var digest := Sha256(b);
      if b.sequence < state.highestSequence { return Refused(Rollback); }
      if b.sequence == state.highestSequence && state.digest != NoDigest && state.digest != digest {
        return Refused(Equivocation);
      }
      if b.sequence > state.highestSequence && state.digest != NoDigest && b.previousDigest != state.digest {
        return Refused(ChainMismatch);
      }
      if b.sequence == state.highestSequence && state.digest == digest { return Accepted; }
      if write == WriteFailed { return WriteError; }
      file := Stored(State(b.sequence, digest));
      if write == SyncFailed { return WriteError; }
      return Accepted;
    }
  }

  // ----- many agents

  /** The temporary file of a write in progress. */
  datatype Temp = NoTemp | Partial | Complete(state: State)

  datatype Phase =
    | Idle
    | Waiting(b: Baseline)
    | Holding(b: Baseline)
    | Loaded(b: Baseline, seen: State)
    | Writing(b: Baseline, temp: Temp)
    | Renamed(b: Baseline)
    | Releasing(b: Baseline, reply: Reply)
    | Crashed

  type Agent = nat

  /** `log` records, for the proofs, the baselines published so far. */
  datatype System = System(file: StateFile, holder: Option<Agent>, agents: map<Agent, Phase>, log: seq<Baseline>)

  datatype Action =
    | Begin(b: Baseline) | Acquire | LockFails
    | Read | ReadFails | Decide
    | WriteSome | WriteRest | WriteFails
    | Rename | SyncDirectory(ok: bool) | Release | Crash

  function PhaseOf(s: System, a: Agent): Phase { if a in s.agents then s.agents[a] else Idle }

  function To(s: System, a: Agent, p: Phase): System { s.(agents := s.agents[a := p]) }

  /** What agent `a` can do next. Without `locking`, the advisory lock is granted to everyone. */
  predicate Enabled(s: System, a: Agent, act: Action, locking: bool) {
    var p := PhaseOf(s, a);
    match act
    case Begin(_) => p.Idle?
    case Acquire => p.Waiting? && (locking ==> s.holder.None?)
    case LockFails => p.Waiting?
    case Read => p.Holding?
    case ReadFails => p.Holding?
    case Decide => p.Loaded?
    case WriteSome => p.Writing? && p.temp.NoTemp?
    case WriteRest => p.Writing? && p.temp.Partial?
    case WriteFails => p.Writing?
    case Rename => p.Writing? && p.temp.Complete?
    case SyncDirectory(_) => p.Renamed?
    case Release => p.Releasing?
    case Crash => !p.Crashed?
  }

  /** The kernel drops the lock when its holder releases it or dies. */
  function DropLock(s: System, a: Agent): System {
    if s.holder == Some(a) then s.(holder := None) else s
  }

  function Step(s: System, a: Agent, act: Action, locking: bool): System
    requires Enabled(s, a, act, locking)
  {
    var p := PhaseOf(s, a);
    match act
    case Begin(b) => To(s, a, Waiting(b))
    case Acquire => To(s.(holder := Some(a)), a, Holding(p.b))
    case LockFails => To(s, a, Idle)
    case Read =>
      if s.file.Corrupt? then To(s, a, Releasing(p.b, ParseError)) else To(s, a, Loaded(p.b, Seen(s.file)))
    case ReadFails => To(s, a, Releasing(p.b, ReadError))
    case Decide =>
      var verdict := Judge(p.seen, p.b);
      if verdict == Advance then To(s, a, Writing(p.b, NoTemp))
      else To(s, a, Releasing(p.b, if verdict == AlreadyAccepted then Accepted else Refused(verdict)))
    case WriteSome => To(s, a, p.(temp := Partial))
    case WriteRest => To(s, a, p.(temp := Complete(State(p.b.sequence, Sha256(p.b)))))
    case WriteFails => To(s, a, Releasing(p.b, WriteError))
    case Rename => To(s.(file := Stored(p.temp.state), log := s.log + [p.b]), a, Renamed(p.b))
    case SyncDirectory(ok) => To(s, a, Releasing(p.b, if ok then Accepted else WriteError))
    case Release => DropLock(To(s, a, Idle), a)
    case Crash => DropLock(To(s, a, Crashed), a)
  }

  predicate InTransaction(p: Phase) {
    p.Holding? || p.Loaded? || p.Writing? || p.Renamed? || p.Releasing?
  }

  /** What an agent in each phase may rely on. */
  ghost predicate PhaseInv(s: System, p: Phase) {
    match p
    case Loaded(_, seen) => !s.file.Corrupt? && seen == Seen(s.file)
    case Writing(b, temp) =>
      && !s.file.Corrupt? && Judge(Seen(s.file), b) == Advance
      && (temp.Complete? ==> temp.state == StateFor(b))
    case Renamed(b) => s.file == Stored(StateFor(b))
    case Releasing(b, reply) => ReplyHolds(s.file, b, reply)
    case _ => true
  }

  /** What a reply says about the file while the lock is still held. */
  ghost predicate ReplyHolds(file: StateFile, b: Baseline, reply: Reply) {
    match reply
    case Accepted => file == Stored(StateFor(b))
    case Refused(v) =>
      !file.Corrupt? && Judge(Seen(file), b) == v && (v.Rollback? || v.Equivocation? || v.ChainMismatch?)
    case ReadError => true
    case ParseError => file.Corrupt?
    case WriteError => file == Stored(StateFor(b)) || (!file.Corrupt? && Judge(Seen(file), b) == Advance)
  }

  ghost predicate Inv(s: System) {
    && IsChain(s.log) && s.file == FileOf(s.log)
    && (forall a: Agent :: InTransaction(PhaseOf(s, a)) <==> s.holder == Some(a))
    && (forall a: Agent :: PhaseInv(s, PhaseOf(s, a)))
  }

  /** A first start, or a restart on whatever an earlier run left behind. */
  ghost predicate Init(s: System) {
    IsChain(s.log) && s.file == FileOf(s.log) && s.holder == None && s.agents == map[]
  }

  lemma InitInv(s: System)
    requires Init(s)
    ensures Inv(s)
  {}

  /** Only the lock holder's rename changes the file, and it appends to the chain of the log. */
  lemma StepInv(s: System, a: Agent, act: Action)
    requires Inv(s) && Enabled(s, a, act, true)
    ensures Inv(Step(s, a, act, true))
  {
    var p := PhaseOf(s, a);
    var s' := Step(s, a, act, true);
    assert PhaseInv(s, p);
    if act.Rename? {
      assert s.holder == Some(a);
      AdvanceExtendsChain(s.log, p.b);
    }
    forall x: Agent ensures InTransaction(PhaseOf(s', x)) <==> s'.holder == Some(x) {
      assert InTransaction(PhaseOf(s, x)) <==> s.holder == Some(x);
      assert InTransaction(p) <==> s.holder == Some(a);
    }
    forall x: Agent ensures PhaseInv(s', PhaseOf(s', x)) {
      assert PhaseInv(s, PhaseOf(s, x));
      assert InTransaction(PhaseOf(s, x)) <==> s.holder == Some(x);
      assert InTransaction(p) <==> s.holder == Some(a);
    }
  }

  // ----- whole runs

  datatype Event = Event(agent: Agent, action: Action)

  /** `states` is a run: each state follows from the one before by the event between them. */
  ghost predicate IsRun(states: seq<System>, events: seq<Event>, locking: bool) {
    && |states| == |events| + 1
    && forall i :: 0 <= i < |events| ==>
        && Enabled(states[i], events[i].agent, events[i].action, locking)
        && states[i + 1] == Step(states[i], events[i].agent, events[i].action, locking)
  }

  lemma {:induction false} RunInv(states: seq<System>, events: seq<Event>, i: nat)
    requires IsRun(states, events, true) && Init(states[0]) && i < |states|
    ensures Inv(states[i])
  {
    if i == 0 {
      InitInv(states[0]);
    } else {
      RunInv(states, events, i - 1);
      StepInv(states[i - 1], events[i - 1].agent, events[i - 1].action);
    }
  }

  function Highest(file: StateFile): nat {
    if file.Stored? then file.state.highestSequence else 0
  }

  /** At every moment of every run the file is absent or one complete state with a baseline's digest. */
  lemma StateFileNeverTorn(states: seq<System>, events: seq<Event>, i: nat)
    requires IsRun(states, events, true) && Init(states[0]) && i < |states|
    ensures states[i].file.Absent? ||
      (states[i].file.Stored? && states[i].file.state.digest != NoDigest
       && exists b :: states[i].file.state == StateFor(b))
  {
    RunInv(states, events, i);
    var s := states[i];
    if s.log != [] { assert s.file.state == StateFor(s.log[|s.log| - 1]); }
  }

  /** Later moments of a run extend the published history, so the highest sequence never falls. */
  lemma {:induction false} HighestNeverFalls(states: seq<System>, events: seq<Event>, i: nat, j: nat)
    requires IsRun(states, events, true) && Init(states[0]) && i <= j < |states|
    ensures states[i].log <= states[j].log
    ensures Highest(states[i].file) <= Highest(states[j].file)
    decreases j
  {
    if i == j {
    } else {
      HighestNeverFalls(states, events, i, j - 1);
    }
    RunInv(states, events, i);
    RunInv(states, events, j);
    var n, m := |states[i].log|, |states[j].log|;
    if 0 < n < m {
      ChainIncreases(states[j].log, n - 1, m - 1);
    }
  }

  /** The protocol refines single transactions: the file moves only as one judged alone would move it. */
  lemma EveryChangeIsATransaction(states: seq<System>, events: seq<Event>, i: nat)
    requires IsRun(states, events, true) && Init(states[0]) && i < |events|
    requires states[i].file != states[i + 1].file
    ensures !states[i].file.Corrupt?
    ensures exists b :: Judge(Seen(states[i].file), b) == Advance && states[i + 1].file == Stored(StateFor(b))
  {
    RunInv(states, events, i);
    var p := PhaseOf(states[i], events[i].agent);
    assert PhaseInv(states[i], p);
    assert Judge(Seen(states[i].file), p.b) == Advance;
  }

  // ----- replies

  /** While a reply is pending, it is true of the file: a refusal names the verdict on what is stored. */
  lemma RepliesHold(states: seq<System>, events: seq<Event>, i: nat, a: Agent)
    requires IsRun(states, events, true) && Init(states[0]) && i < |states|
    requires PhaseOf(states[i], a).Releasing?
    ensures ReplyHolds(states[i].file, PhaseOf(states[i], a).b, PhaseOf(states[i], a).reply)
  {
    RunInv(states, events, i);
    assert PhaseInv(states[i], PhaseOf(states[i], a));
  }

  /** What an agent met in its latest transaction: the file when it got the lock, and what the disk did. */
  datatype Transcript = Transcript(before: StateFile, readable: bool, write: WriteResult)

  function TranscriptOf(states: seq<System>, events: seq<Event>, i: nat, a: Agent): Transcript
    requires i < |states| == |events| + 1
  {
    if i == 0 then Transcript(Absent, true, WriteDone)
    else
      var t := TranscriptOf(states, events, i - 1, a);
      if events[i - 1].agent != a then t else Met(t, states[i - 1].file, events[i - 1].action)
  }

  function Met(t: Transcript, file: StateFile, act: Action): Transcript {
    match act
    case Acquire => Transcript(file, true, WriteDone)
    case ReadFails => t.(readable := false)
    case WriteFails => t.(write := WriteFailed)
    case SyncDirectory(ok) => if ok then t else t.(write := SyncFailed)
    case _ => t
  }

  ghost predicate OnTheRecord(s: System, p: Phase, t: Transcript) {
    match p
    case Renamed(b) => t.readable && t.write == WriteDone && !t.before.Corrupt? && Judge(Seen(t.before), b) == Advance
    case Releasing(b, reply) => Transaction(t.before, s.file, b, t.readable, t.write, reply)
    case _ => InTransaction(p) ==> t == Transcript(s.file, true, WriteDone)
  }

  lemma StepOnTheRecord(s: System, e: Event, a: Agent, t: Transcript)
    requires Inv(s) && Enabled(s, e.agent, e.action, true) && OnTheRecord(s, PhaseOf(s, a), t)
    ensures var s' := Step(s, e.agent, e.action, true);
      OnTheRecord(s', PhaseOf(s', a), if e.agent == a then Met(t, s.file, e.action) else t)
  {
    assert PhaseInv(s, PhaseOf(s, e.agent));
    assert InTransaction(PhaseOf(s, a)) <==> s.holder == Some(a);
    assert InTransaction(PhaseOf(s, e.agent)) <==> s.holder == Some(e.agent);
  }

  lemma {:induction false} RunOnTheRecord(states: seq<System>, events: seq<Event>, i: nat, a: Agent)
    requires IsRun(states, events, true) && Init(states[0]) && i < |states|
    ensures OnTheRecord(states[i], PhaseOf(states[i], a), TranscriptOf(states, events, i, a))
  {
    if i == 0 {
    } else {
      RunInv(states, events, i - 1);
      RunOnTheRecord(states, events, i - 1, a);
      StepOnTheRecord(states[i - 1], events[i - 1], a, TranscriptOf(states, events, i - 1, a));
    }
  }

  /**
   Every reply is the one a transaction run alone gives: on the file as the agent found it under the lock, for the
   same answers of the disk, and the file is as that transaction leaves it.
   */
  lemma RepliesAreTransactions(states: seq<System>, events: seq<Event>, i: nat, a: Agent)
    requires IsRun(states, events, true) && Init(states[0]) && i < |states|
    requires PhaseOf(states[i], a).Releasing?
    ensures var p, t := PhaseOf(states[i], a), TranscriptOf(states, events, i, a);
      Transaction(t.before, states[i].file, p.b, t.readable, t.write, p.reply)
  {
    RunOnTheRecord(states, events, i, a);
  }

  /** An agent that checks the installed baseline once more is told so, unless the file could not be read. */
  lemma RecheckIsAccepted(states: seq<System>, events: seq<Event>, i: nat, a: Agent)
    requires IsRun(states, events, true) && Init(states[0]) && i < |states|
    requires PhaseOf(states[i], a).Releasing?
    requires TranscriptOf(states, events, i, a).before == Stored(StateFor(PhaseOf(states[i], a).b))
    ensures TranscriptOf(states, events, i, a).readable ==> PhaseOf(states[i], a).reply == Accepted
    ensures states[i].file == Stored(StateFor(PhaseOf(states[i], a).b))
  {
    RepliesAreTransactions(states, events, i, a);
  }

  /** How far an agent is from the end of its transaction. */
  function StepsLeft(p: Phase): nat {
    match p
    case Idle => 1
    case Waiting(_) => 9
    case Holding(_) => 8
    case Loaded(_, _) => 7
    case Writing(_, temp) => if temp.NoTemp? then 6 else if temp.Partial? then 5 else 4
    case Renamed(_) => 3
    case Releasing(_, _) => 2
    case Crashed => 0
  }

  /** Every step but the beginning of a transaction brings it closer to its end and leaves the other agents alone. */
  lemma TransactionsEnd(s: System, a: Agent, act: Action, x: Agent)
    requires Enabled(s, a, act, true) && !act.Begin?
    ensures var s' := Step(s, a, act, true);
      && StepsLeft(PhaseOf(s', a)) < StepsLeft(PhaseOf(s, a))
      && (x != a ==> PhaseOf(s', x) == PhaseOf(s, x))
  {}

  // ----- a corrupt file

  /** No agent gets past the reading of a corrupt file. */
  ghost predicate StuckOnCorrupt(s: System) {
    && s.file.Corrupt?
    && forall a: Agent :: NothingRead(PhaseOf(s, a))
  }

  predicate NothingRead(p: Phase) {
    && !p.Loaded? && !p.Writing? && !p.Renamed?
    && (p.Releasing? ==> p.reply == ReadError || p.reply == ParseError)
  }

  /** A state file that cannot be parsed is never overwritten, and nothing is accepted or refused on its account. */
  lemma {:induction false} CorruptFileStays(states: seq<System>, events: seq<Event>, locking: bool, i: nat)
    requires IsRun(states, events, locking) && states[0].file.Corrupt? && states[0].agents == map[] && i < |states|
    ensures StuckOnCorrupt(states[i])
  {
    if i == 0 {
    } else {
      CorruptFileStays(states, events, locking, i - 1);
      forall a: Agent ensures NothingRead(PhaseOf(states[i], a)) {
        assert NothingRead(PhaseOf(states[i - 1], a));
      }
    }
  }

  /** A reply of acceptance is only given while the file holds exactly the accepted baseline. */
  lemma AcceptedMeansPublished(states: seq<System>, events: seq<Event>, i: nat, a: Agent)
    requires IsRun(states, events, true) && Init(states[0]) && i < |states|
    requires PhaseOf(states[i], a).Releasing? && PhaseOf(states[i], a).reply == Accepted
    ensures states[i].file == Stored(StateFor(PhaseOf(states[i], a).b))
  {
    RunInv(states, events, i);
    assert PhaseInv(states[i], PhaseOf(states[i], a));
  }

  /** Crashes and stalls cannot wedge the file: a waiting agent can always get the lock or some holder can move. */
  lemma LockIsLive(states: seq<System>, events: seq<Event>, i: nat, a: Agent)
    requires IsRun(states, events, true) && Init(states[0]) && i < |states|
    requires PhaseOf(states[i], a).Waiting?
    ensures Enabled(states[i], a, Acquire, true) ||
      exists h: Agent, act: Action :: states[i].holder == Some(h) && !act.Crash? && Enabled(states[i], h, act, true)
  {
    RunInv(states, events, i);
    var s := states[i];
    if s.holder.Some? {
      var h := s.holder.value;
      assert InTransaction(PhaseOf(s, h)) <==> s.holder == Some(h);
      var p := PhaseOf(s, h);
      var act :=
        if p.Holding? then Read else if p.Loaded? then Decide else if p.Writing? then WriteFails
        else if p.Renamed? then SyncDirectory(true) else Release;
      assert Enabled(s, h, act, true);
    }
  }

  // ----- why the lock

  lemma ExtendRun(states: seq<System>, events: seq<Event>, a: Agent, act: Action)
    returns (longer: seq<System>, more: seq<Event>)
    requires IsRun(states, events, false) && Enabled(states[|events|], a, act, false)
    ensures IsRun(longer, more, false)
    ensures longer == states + [Step(states[|events|], a, act, false)] && more == events + [Event(a, act)]
  {
    more := events + [Event(a, act)];
    longer := states + [Step(states[|events|], a, act, false)];
  }

  /** Agent `a` validates `b` and prepares its temporary file; the rename is still to come. */
  lemma PrepareWrite(states: seq<System>, events: seq<Event>, a: Agent, b: Baseline)
    returns (longer: seq<System>, more: seq<Event>)
    requires IsRun(states, events, false)
    requires var s := states[|events|]; PhaseOf(s, a).Idle? && !s.file.Corrupt? && Judge(Seen(s.file), b) == Advance
    ensures IsRun(longer, more, false) && |longer| >= |states| && longer[0] == states[0]
    ensures var s, t := states[|events|], longer[|more|];
      && PhaseOf(t, a) == Writing(b, Complete(StateFor(b))) && t.file == s.file
      && forall x: Agent :: x != a ==> PhaseOf(t, x) == PhaseOf(s, x)
  {
    longer, more := ExtendRun(states, events, a, Begin(b));
    longer, more := ExtendRun(longer, more, a, Acquire);
    longer, more := ExtendRun(longer, more, a, Read);
    longer, more := ExtendRun(longer, more, a, Decide);
    longer, more := ExtendRun(longer, more, a, WriteSome);
    longer, more := ExtendRun(longer, more, a, WriteRest);
  }

  /** With atomic rename alone, a stalled agent can put an older baseline back. */
  lemma WithoutLockHighestFalls() returns (states: seq<System>, events: seq<Event>)
    ensures IsRun(states, events, false) && Init(states[0])
    ensures |events| > 0 && Highest(states[|events|].file) < Highest(states[|events| - 1].file)
  {
    var first := Baseline(1, NoDigest, "first");
    var stale, newer := Baseline(2, Sha256(first), "stale"), Baseline(3, Sha256(first), "newer");
    var start := System(Stored(StateFor(first)), None, map[], [first]);
    states, events := [start], [];
    states, events := PrepareWrite(states, events, 0, stale);
    states, events := PrepareWrite(states, events, 1, newer);
    states, events := ExtendRun(states, events, 1, Rename);
    states, events := ExtendRun(states, events, 0, Rename);
  }
}
