/** The fault sweep: trials at every delay, their log, and the counts a failure rate is taken from. */
module Sweep {
  import opened Counting

  datatype Reply = HarnessFailure | Outcome(valid: bool, failed: bool)

  datatype Record = Record(delay: int, passThrough: bool, valid: bool, failed: bool, harnessError: bool)

  datatype Stats = Stats(attempted: nat, validTrials: nat, harnessErrors: nat, failures: nat)

  /** What the responder, the context and the trials answer, by position in the sweep. */
  datatype Environment = Environment(cancelled: nat -> bool, setFails: nat -> bool, resetFails: bool,
                                     reply: (nat, nat) -> Reply)

  datatype Ending = Complete | BadInput | NegativeDelay | Cancelled | SetDelayFailed

  const ZERO := Stats(0, 0, 0, 0)

  // ----- counting again from the log

  predicate IsAt(r: Record, delay: int) { r.delay == delay }

  predicate IsValidAt(r: Record, delay: int) { r.delay == delay && r.valid }

  predicate IsHarnessAt(r: Record, delay: int) { r.delay == delay && !r.valid }

  predicate IsFailureAt(r: Record, delay: int) { r.delay == delay && r.valid && r.failed }

  ghost function At(delay: int): Record -> bool { r => IsAt(r, delay) }

  ghost function ValidAt(delay: int): Record -> bool { r => IsValidAt(r, delay) }

  ghost function HarnessAt(delay: int): Record -> bool { r => IsHarnessAt(r, delay) }

  ghost function FailureAt(delay: int): Record -> bool { r => IsFailureAt(r, delay) }

  /** The counts an auditor gets for one delay from the trial log alone. */
  ghost function Recount(log: seq<Record>, delay: int): Stats {
    Stats(Count(log, At(delay)), Count(log, ValidAt(delay)), Count(log, HarnessAt(delay)), Count(log, FailureAt(delay)))
  }

  lemma RecountBalanced(log: seq<Record>, delay: int)
    ensures var s := Recount(log, delay); s.attempted == s.validTrials + s.harnessErrors && s.failures <= s.validTrials
  {
    CountSplit(log, ValidAt(delay), HarnessAt(delay), At(delay));
    CountFewer(log, FailureAt(delay), ValidAt(delay));
  }

  /** The counts with one more trial. */
  function Tally(s: Stats, r: Record): Stats {
    Stats(s.attempted + 1, s.validTrials + if r.valid then 1 else 0, s.harnessErrors + if r.valid then 0 else 1,
          s.failures + if r.valid && r.failed then 1 else 0)
  }

  lemma RecountOneMore(log: seq<Record>, r: Record)
    ensures Recount(log + [r], r.delay) == Tally(Recount(log, r.delay), r)
  {
    CountOneMore(log, r, At(r.delay));
    CountOneMore(log, r, ValidAt(r.delay));
    CountOneMore(log, r, HarnessAt(r.delay));
    CountOneMore(log, r, FailureAt(r.delay));
  }

  lemma RecountAppend(a: seq<Record>, b: seq<Record>, delay: int)
    ensures var s, t, u := Recount(a + b, delay), Recount(a, delay), Recount(b, delay);
      && s.attempted == t.attempted + u.attempted && s.validTrials == t.validTrials + u.validTrials
      && s.harnessErrors == t.harnessErrors + u.harnessErrors && s.failures == t.failures + u.failures
  {
    CountAppend(a, b, At(delay));
    CountAppend(a, b, ValidAt(delay));
    CountAppend(a, b, HarnessAt(delay));
    CountAppend(a, b, FailureAt(delay));
  }

  /** Failures over valid trials: multiplied back it gives the failures, and without valid trials it is zero. */
  function FailureRate(s: Stats): (rate: real)
    ensures s.validTrials > 0 ==> rate * s.validTrials as real == s.failures as real
    ensures s.validTrials == 0 || s.failures == 0 ==> rate == 0.0
  {
    if s.validTrials == 0 then 0.0 else s.failures as real / s.validTrials as real
  }

  lemma RateBetweenZeroAndOne(log: seq<Record>, delay: int)
    ensures 0.0 <= FailureRate(Recount(log, delay)) <= 1.0
  {
    RecountBalanced(log, delay);
    var s := Recount(log, delay);
    if s.validTrials != 0 {
      Quotient(s.failures as real, s.validTrials as real);
    }
  }

  lemma Quotient(a: real, b: real)
    requires 0.0 <= a <= b && b > 0.0
    ensures 0.0 <= a / b <= 1.0
  {}

  // ----- blocks of trials

  function Flat(blocks: seq<seq<Record>>): seq<Record> {
    if blocks == [] then [] else Flat(blocks[..|blocks| - 1]) + blocks[|blocks| - 1]
  }

  function Occurrences(delays: seq<int>, delay: int): nat {
    if delays == [] then 0
    else Occurrences(delays[..|delays| - 1], delay) + if delays[|delays| - 1] == delay then 1 else 0
  }

  /** The last place of a delay that occurs. */
  function LastIndex(delays: seq<int>, delay: int): (r: nat)
    requires delay in delays
    ensures r < |delays| && delays[r] == delay
  {
    var n := |delays| - 1;
    if delays[n] == delay then n else LastIndex(delays[..n], delay)
  }

  /** One block of `trials` records at its delay for each delay that was swept. */
  ghost predicate BlocksOf(blocks: seq<seq<Record>>, delays: seq<int>, trials: nat) {
    |blocks| == |delays| && forall i :: 0 <= i < |blocks| ==> IsBlock(blocks[i], delays[i], trials)
  }

  ghost predicate IsBlock(block: seq<Record>, delay: int, trials: nat) {
    |block| == trials && forall j :: 0 <= j < |block| ==>
      block[j].delay == delay && (block[j].passThrough <==> delay == 0)
  }

  lemma BlockCount(block: seq<Record>, delay: int, trials: nat, other: int)
    requires IsBlock(block, delay, trials)
    ensures if other == delay then Recount(block, other).attempted == trials else Recount(block, other) == ZERO
  {
    CountUniform(block, At(other), other == delay);
    if other != delay {
      CountUniform(block, ValidAt(other), false);
      CountUniform(block, HarnessAt(other), false);
      CountUniform(block, FailureAt(other), false);
    }
  }

  /** What a recount of the whole log says about one delay. */
  ghost predicate RecountTells(blocks: seq<seq<Record>>, delays: seq<int>, trials: nat, delay: int)
    requires |blocks| == |delays|
  {
    var total, n := Recount(Flat(blocks), delay), Occurrences(delays, delay);
    && (n == 0 <==> delay !in delays)
    && (n == 0 ==> total == ZERO)
    && (n == 1 ==> total == Recount(blocks[LastIndex(delays, delay)], delay))
    && (n >= 1 ==> Recount(blocks[LastIndex(delays, delay)], delay).attempted == trials)
    && (n >= 2 ==> total.attempted >= 2 * trials)
    && (n >= 1 ==> total.attempted >= trials)
  }

  lemma OtherBlock(blocks: seq<seq<Record>>, delays: seq<int>, trials: nat, delay: int)
    requires blocks != [] && BlocksOf(blocks, delays, trials) && delays[|delays| - 1] != delay
    requires RecountTells(blocks[..|blocks| - 1], delays[..|blocks| - 1], trials, delay)
    ensures RecountTells(blocks, delays, trials, delay)
  {
    var n := |blocks| - 1;
    RecountAppend(Flat(blocks[..n]), blocks[n], delay);
    BlockCount(blocks[n], delays[n], trials, delay);
    assert delays == delays[..n] + [delays[n]];
  }

  lemma OwnBlock(blocks: seq<seq<Record>>, delays: seq<int>, trials: nat, delay: int)
    requires blocks != [] && BlocksOf(blocks, delays, trials) && delays[|delays| - 1] == delay
    requires RecountTells(blocks[..|blocks| - 1], delays[..|blocks| - 1], trials, delay)
    ensures RecountTells(blocks, delays, trials, delay)
  {
    var n := |blocks| - 1;
    RecountAppend(Flat(blocks[..n]), blocks[n], delay);
    BlockCount(blocks[n], delays[n], trials, delay);
  }

  /** Recounting the whole log sees every block of a delay, however often the delay was swept. */
  lemma {:induction false} RecountBlocks(blocks: seq<seq<Record>>, delays: seq<int>, trials: nat, delay: int)
    requires BlocksOf(blocks, delays, trials)
    ensures RecountTells(blocks, delays, trials, delay)
  {
    if blocks == [] {
    } else {
      var n := |blocks| - 1;
      RecountBlocks(blocks[..n], delays[..n], trials, delay);
      if delays[n] == delay {
        OwnBlock(blocks, delays, trials, delay);
      } else {
        OtherBlock(blocks, delays, trials, delay);
      }
    }
  }

  /** The stats kept are those of the last block of each delay. */
  ghost predicate KeepsLast(stats: map<int, Stats>, blocks: seq<seq<Record>>, delays: seq<int>)
    requires |blocks| == |delays|
  {
    && (forall d :: d in stats <==> d in delays)
    && forall d :: d in delays ==> stats[d] == Recount(blocks[LastIndex(delays, d)], d)
  }

  lemma KeepsLastOneMore(stats: map<int, Stats>, blocks: seq<seq<Record>>, delays: seq<int>, delay: int,
                         block: seq<Record>)
    requires |blocks| == |delays| && KeepsLast(stats, blocks, delays)
    ensures KeepsLast(stats[delay := Recount(block, delay)], blocks + [block], delays + [delay])
  {
    var more := delays + [delay];
    assert more[..|more| - 1] == delays;
    forall d | d in more ensures stats[delay := Recount(block, delay)][d] ==
        Recount((blocks + [block])[LastIndex(more, d)], d) {
      if d != delay { assert d in delays; }
    }
  }

  /** A swept delay's stats are the recount of the log exactly when the delay was swept once. */
  ghost predicate Faithful(stats: map<int, Stats>, log: seq<Record>, swept: seq<int>) {
    && (forall d :: d in stats <==> d in swept)
    && (forall d :: d in stats ==> (stats[d] == Recount(log, d) <==> Occurrences(swept, d) == 1))
  }

  lemma StatsFaithful(stats: map<int, Stats>, blocks: seq<seq<Record>>, swept: seq<int>, trials: nat)
    requires trials >= 1 && BlocksOf(blocks, swept, trials) && KeepsLast(stats, blocks, swept)
    ensures Faithful(stats, Flat(blocks), swept)
  {
    forall d | d in stats ensures stats[d] == Recount(Flat(blocks), d) <==> Occurrences(swept, d) == 1 {
      RecountBlocks(blocks, swept, trials, d);
    }
  }

  lemma {:induction false} DistinctOccurOnce(delays: seq<int>, d: int)
    requires forall i, j :: 0 <= i < j < |delays| ==> delays[i] != delays[j]
    ensures Occurrences(delays, d) == if d in delays then 1 else 0
  {
    if delays == [] {
    } else {
      var n := |delays| - 1;
      DistinctOccurOnce(delays[..n], d);
      assert delays == delays[..n] + [delays[n]];
    }
  }

  /** With pairwise distinct delays every count kept is the recount of the log. */
  lemma DistinctDelaysRecount(stats: map<int, Stats>, log: seq<Record>, swept: seq<int>, d: int)
    requires Faithful(stats, log, swept) && d in stats
    requires forall i, j :: 0 <= i < j < |swept| ==> swept[i] != swept[j]
    ensures stats[d] == Recount(log, d)
    ensures stats[d].attempted == stats[d].validTrials + stats[d].harnessErrors
      && stats[d].failures <= stats[d].validTrials
    ensures 0.0 <= FailureRate(stats[d]) <= 1.0
  {
    DistinctOccurOnce(swept, d);
    RecountBalanced(log, d);
    RateBetweenZeroAndOne(log, d);
  }

  // ----- the sweep

  class Controller {
    var calls: seq<int>

    constructor ()
      ensures calls == []
    {
      calls := [];
    }

    method SetDelay(delay: int, fails: bool) returns (ok: bool)
      modifies this
      ensures calls == old(calls) + [delay] && ok == !fails
    {
      calls := calls + [delay];
      ok := !fails;
    }
  }

  /** The record says what the trial answered; without a valid outcome it is a harness error. */
  ghost predicate RecordsReply(record: Record, reply: Reply) {
    && (record.valid <==> reply.Outcome? && reply.valid)
    && (record.failed <==> reply.Outcome? && reply.failed)
    && (record.harnessError <==> !record.valid)
  }

  /** Block `index` records the answers to its own trials, in their order. */
  ghost predicate BlockReplied(block: seq<Record>, index: nat, env: Environment) {
    forall j :: 0 <= j < |block| ==> RecordsReply(block[j], env.reply(index, j))
  }

  ghost predicate Replied(blocks: seq<seq<Record>>, env: Environment) {
    forall i :: 0 <= i < |blocks| ==> BlockReplied(blocks[i], i, env)
  }

  /** One trial: its record and the counts with it. */
  method RunTrial(delay: int, reply: Reply, before: Stats) returns (record: Record, stats: Stats)
    ensures record.delay == delay && (record.passThrough <==> delay == 0)
    ensures stats == Tally(before, record)
    ensures RecordsReply(record, reply)
  {
    stats := before.(attempted := before.attempted + 1);
    record := Record(delay, delay == 0, false, false, false);
    if reply.HarnessFailure? {
      stats := stats.(harnessErrors := stats.harnessErrors + 1);
      record := record.(harnessError := true);
      return;
    }
    record := record.(valid := reply.valid, failed := reply.failed);
    if !reply.valid {
      stats := stats.(harnessErrors := stats.harnessErrors + 1);
      record := record.(harnessError := true);
    } else {
      stats := stats.(validTrials := stats.validTrials + 1);
      if reply.failed {
        stats := stats.(failures := stats.failures + 1);
      }
    }
  }

  method RunBlock(delay: int, index: nat, trials: nat, env: Environment) returns (block: seq<Record>, stats: Stats)
    ensures IsBlock(block, delay, trials) && stats == Recount(block, delay)
    ensures BlockReplied(block, index, env)
  {
    block, stats := [], ZERO;
    for j := 0 to trials
      invariant IsBlock(block, delay, j) && stats == Recount(block, delay)
      invariant BlockReplied(block, index, env)
    {
      var record;
      record, stats := RunTrial(delay, env.reply(index, j), stats);
      RecountOneMore(block, record);
      block := block + [record];
    }
  }

  /** What a sweep holds once it is through with some delays. */
  ghost predicate Swept(stats: map<int, Stats>, log: seq<Record>, blocks: seq<seq<Record>>, swept: seq<int>,
                        trials: nat)
  {
    |blocks| == |swept| && log == Flat(blocks) && BlocksOf(blocks, swept, trials) && KeepsLast(stats, blocks, swept)
  }

  lemma NothingSwept(delays: seq<int>, trials: nat)
    ensures Swept(map[], [], [], delays[..0], trials)
  {}

  lemma SweptOneMore(stats: map<int, Stats>, log: seq<Record>, blocks: seq<seq<Record>>, delays: seq<int>, i: nat,
                     trials: nat, block: seq<Record>, counts: Stats)
    requires i < |delays| && Swept(stats, log, blocks, delays[..i], trials)
    requires IsBlock(block, delays[i], trials) && counts == Recount(block, delays[i])
    ensures Swept(stats[delays[i] := counts], log + block, blocks + [block], delays[..i + 1], trials)
  {
    assert delays[..i + 1] == delays[..i] + [delays[i]];
    KeepsLastOneMore(stats, blocks, delays[..i], delays[i], block);
    assert (blocks + [block])[..|blocks|] == blocks;
  }

  /** The first delay that cannot be swept, and why. */
  ghost predicate StopsAt(delays: seq<int>, env: Environment, i: nat, ending: Ending) {
    && i < |delays|
    && match ending
       case NegativeDelay => delays[i] < 0
       case Cancelled => delays[i] >= 0 && env.cancelled(i)
       case SetDelayFailed => delays[i] >= 0 && !env.cancelled(i) && env.setFails(i)
       case _ => false
  }

  /** The orders given for a sweep that ended after `swept` delays. */
  function Ordered(delays: seq<int>, swept: nat, ending: Ending): seq<int>
    requires swept <= |delays|
  {
    if ending == SetDelayFailed && swept < |delays| then delays[..swept + 1] else delays[..swept]
  }

  lemma OneMoreOrder(before: seq<int>, delays: seq<int>, i: nat)
    requires i < |delays|
    ensures before + delays[..i] + [delays[i]] == before + delays[..i + 1]
  {
    assert delays[..i + 1] == delays[..i] + [delays[i]];
  }

  /** The delays one after the other, up to the first that cannot be swept. */
  method SweepDelays(controller: Controller, delays: seq<int>, trials: nat, env: Environment)
    returns (stats: map<int, Stats>, log: seq<Record>, ending: Ending, ghost blocks: seq<seq<Record>>)
    modifies controller
    ensures ending != BadInput && |blocks| <= |delays| && (ending == Complete <==> |blocks| == |delays|)
    ensures Swept(stats, log, blocks, delays[..|blocks|], trials) && Replied(blocks, env)
    ensures ending != Complete ==> StopsAt(delays, env, |blocks|, ending)
    ensures controller.calls == old(controller.calls) + Ordered(delays, |blocks|, ending)
  {
    stats, log, blocks := map[], [], [];
    NothingSwept(delays, trials);
    ending := Complete;
    var i := 0;
    while i < |delays|
      invariant 0 <= i <= |delays| && |blocks| == i
      invariant Swept(stats, log, blocks, delays[..i], trials) && Replied(blocks, env)
      invariant controller.calls == old(controller.calls) + delays[..i]
    {
      var delay := delays[i];
      if delay < 0 {
        ending := NegativeDelay;
        return;
      }
      if env.cancelled(i) {
        ending := Cancelled;
        return;
      }
      var applied := controller.SetDelay(delay, env.setFails(i));
      OneMoreOrder(old(controller.calls), delays, i);
      if !applied {
        ending := SetDelayFailed;
        return;
      }
      var block, counts := RunBlock(delay, i, trials, env);
      SweptOneMore(stats, log, blocks, delays, i, trials, block, counts);
      log, blocks := log + block, blocks + [block];
      stats := stats[delay := counts];
      i := i + 1;
    }
  }

  /**
   `SweepDetailed`. However it ends, what was swept is a prefix of the delays, the log holds
   its trials in order, and once the inputs were accepted the responder's last order is no delay.
   */
  method SweepDetailed(controller: Controller, delays: seq<int>, trials: int, env: Environment)
    returns (stats: map<int, Stats>, log: seq<Record>, ending: Ending, ghost blocks: seq<seq<Record>>)
    modifies controller
    ensures trials < 1 ==>
      ending == BadInput && stats == map[] && log == [] && controller.calls == old(controller.calls)
    ensures trials >= 1 ==>
      && ending != BadInput && |blocks| <= |delays| && log == Flat(blocks)
      && BlocksOf(blocks, delays[..|blocks|], trials) && Replied(blocks, env)
      && Faithful(stats, log, delays[..|blocks|])
      && (ending == Complete <==> |blocks| == |delays|)
    ensures trials >= 1 && ending != Complete ==> StopsAt(delays, env, |blocks|, ending)
    ensures trials >= 1 ==>
      controller.calls == old(controller.calls) + delays[..|blocks| + (if ending == SetDelayFailed then 1 else 0)] + [0]
  {
    if trials < 1 {
      stats, log, ending, blocks := map[], [], BadInput, [];
      return;
    }
    stats, log, ending, blocks := SweepDelays(controller, delays, trials, env);
    StatsFaithful(stats, blocks, delays[..|blocks|], trials);
    // The deferred reset; a failure is only logged.
    var reset := controller.SetDelay(0, env.resetFails);
  }

  /** Sweeping one delay twice keeps only the second block's counts. */
  lemma RepeatedDelayLosesTrials() returns (stats: map<int, Stats>, blocks: seq<seq<Record>>)
    ensures BlocksOf(blocks, [5, 5], 1) && KeepsLast(stats, blocks, [5, 5])
    ensures stats[5] != Recount(Flat(blocks), 5)
  {
    var r := Record(5, false, true, false, false);
    blocks := [[r], [r]];
    stats := map[5 := Recount([r], 5)];
    assert [5, 5][..1] == [5] && [5][..0] == [];
    assert Occurrences([5], 5) == 1 && Occurrences([5, 5], 5) == 2;
    assert LastIndex([5, 5], 5) == 1;
    StatsFaithful(stats, blocks, [5, 5], 1);
  }
}
