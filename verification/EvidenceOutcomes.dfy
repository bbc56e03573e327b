/** Why an item of an evidence call ends as it does: nothing fails by itself, and no failure passes for success. */
module EvidenceOutcomes {
  import opened Basics
  import opened EnvelopeText
  import opened EvidenceRuns
  import opened EvidenceTheorems

  /**
   What befell one item: an operation of it was refused, so was the removal of its own file, and how many
   operations it made.
   */
  datatype Course = Course(spoiled: bool, left: bool, operations: nat)

  const NOT_BEGUN := Course(false, false, 0)

  /** Create, write, sync, close, sync the directory; a replacement is renamed before that and tidied up after. */
  function Operations(job: Job): nat {
    match job case Exclusive(_, _) => 5 case Replace(_, _) => 7 case Print(_) => 1
  }

  /** The item the process is at loses by its next operation: the system refuses it, or the name is taken. */
  predicate Spoils(c: Proc, files: map<Path, Bytes>, act: Action) {
    act.Move? && |c.done| < |c.script| && var item := c.script[|c.done|];
    match c.stage
    case Ready => NeedsMet(c, item) && (!act.ok || (item.job.Exclusive? && item.job.path in files))
    case Holding(_) => !act.ok
    case TempHolding(_, _) => !act.ok
    case _ => false
  }

  predicate Strands(c: Proc, act: Action) { act.Move? && c.stage.Undoing? && !act.ok }

  predicate NextIsSkipped(c: Proc) {
    |c.done| < |c.script| && c.stage.Ready? && !NeedsMet(c, c.script[|c.done|])
  }

  /** What befell item `k` of process `p` in the first `i` steps of a run, read off its operations. */
  function CourseOf(states: seq<State>, acts: seq<Action>, i: nat, p: nat, k: nat): Course
    requires i < |states| == |acts| + 1
  {
    if i == 0 then NOT_BEGUN
    else OneMoreStep(CourseOf(states, acts, i - 1, p, k), states[i - 1], acts[i - 1], p, k)
  }

  function OneMoreStep(f: Course, s: State, act: Action, p: nat, k: nat): Course {
    if act.p != p || p >= |s.procs| || |s.procs[p].done| != k then f
    else
      Course(f.spoiled || Spoils(s.procs[p], s.files, act), f.left || Strands(s.procs[p], act),
             if act.Move? && !NextIsSkipped(s.procs[p]) then f.operations + 1 else f.operations)
  }

  /** The outcome of item `k`, or the stage of the process while it is at it, is the one its course calls for. */
  predicate Settled(c: Proc, k: nat, f: Course)
    requires k < |c.script|
  {
    if k < |c.done| then
      && (c.done[k].Skipped? <==> !NeedsMet(c, c.script[k]))
      && (c.done[k].Succeeded? <==> NeedsMet(c, c.script[k]) && !f.spoiled)
      && (c.done[k] == Failed(true) <==> f.left)
      && (c.done[k].Succeeded? ==> f.operations == Operations(c.script[k].job))
      && (c.done[k].Skipped? ==> f == NOT_BEGUN)
    else if k > |c.done| then f == NOT_BEGUN
    else
      && !f.left && (!c.stage.Ready? ==> NeedsMet(c, c.script[k]))
      && match c.stage
         case Ready => f == NOT_BEGUN
         case Holding(n) => !f.spoiled && f.operations == n + 1
         case Undoing => f.spoiled
         case TempHolding(_, n) => !f.spoiled && f.operations == n + 1
         case Dropping(_, ok) => (ok <==> !f.spoiled) && (ok ==> f.operations == 6)
  }

  /** Later outcomes do not change what an item with an earlier need may rely on. */
  lemma NeedsStay(c: Proc, d: Proc, k: nat)
    requires c.done <= d.done && d.script == c.script && k < |c.script| && k <= |c.done|
    requires c.script[k].needs.Some? ==> c.script[k].needs.value < k
    ensures NeedsMet(d, d.script[k]) <==> NeedsMet(c, c.script[k])
  {}

  lemma OtherItemsSettled(c: Proc, d: Proc, k: nat, f: Course)
    requires c.done <= d.done && |d.done| <= |c.done| + 1 && d.script == c.script && k < |c.script| && k != |c.done|
    requires c.script[k].needs.Some? ==> c.script[k].needs.value < k
    requires Settled(c, k, f) && (|d.done| == k ==> d.stage.Ready?)
    ensures Settled(d, k, f)
  {
    if k < |c.done| { NeedsStay(c, d, k); }
  }

  /** The item the actor is at. */
  lemma OwnItemSettled(s: State, act: Action, f: Course)
    requires Inv(s) && Enabled(s, act) && act.Move?
    requires |s.procs[act.p].done| < |s.procs[act.p].script| && Settled(s.procs[act.p], |s.procs[act.p].done|, f)
    ensures var c := s.procs[act.p];
      && EffectOf(s, act).proc.script == c.script
      && Settled(EffectOf(s, act).proc, |c.done|, OneMoreStep(f, s, act, act.p, |c.done|))
  {
    var c := s.procs[act.p];
    assert ProcOk(s, act.p) && GoodItem(s.signer, c.script, |c.done|);
    ActorOutcome(s, act);
    NeedsStay(c, EffectOf(s, act).proc, |c.done|);
  }

  lemma ActorSettled(s: State, act: Action, k: nat, f: Course)
    requires Inv(s) && Enabled(s, act) && act.Move? && k < |s.procs[act.p].script| && Settled(s.procs[act.p], k, f)
    ensures EffectOf(s, act).proc.script == s.procs[act.p].script
    ensures Settled(EffectOf(s, act).proc, k, OneMoreStep(f, s, act, act.p, k))
  {
    var c := s.procs[act.p];
    if k == |c.done| {
      OwnItemSettled(s, act, f);
    } else {
      assert ProcOk(s, act.p) && GoodItem(s.signer, c.script, k);
      ActorOutcome(s, act);
      OtherItemsSettled(c, EffectOf(s, act).proc, k, f);
    }
  }

  lemma StepSettled(s: State, act: Action, p: nat, k: nat, f: Course)
    requires Inv(s) && Enabled(s, act) && p < |s.procs| && k < |s.procs[p].script| && Settled(s.procs[p], k, f)
    ensures k < |Step(s, act).procs[p].script|
    ensures Settled(Step(s, act).procs[p], k, OneMoreStep(f, s, act, p, k))
  {
    if act.p == p && act.Move? { ActorSettled(s, act, k, f); }
  }

  lemma {:induction false} RunSettled(calls: seq<Call>, states: seq<State>, acts: seq<Action>, i: nat, p: nat, k: nat)
    requires IsRun(calls, states, acts) && i < |states| && p < |states[0].procs| && k < |states[0].procs[p].script|
    ensures p < |states[i].procs| && states[i].procs[p].script == states[0].procs[p].script
    ensures Settled(states[i].procs[p], k, CourseOf(states, acts, i, p, k))
  {
    OutcomesStay(calls, states, acts, 0, i, p);
    if i == 0 {
    } else {
      RunSettled(calls, states, acts, i - 1, p, k);
      RunInv(calls, states, acts, i - 1);
      StepSettled(states[i - 1], acts[i - 1], p, k, CourseOf(states, acts, i - 1, p, k));
    }
  }

  /**
   However the calls are interleaved, an item is skipped exactly when the one it needs did not succeed, succeeds
   exactly when nothing of it was refused and its name was free, then after all its operations, and leaves a file
   behind exactly when it could not remove it.
   */
  lemma OutcomesHaveCauses(calls: seq<Call>, states: seq<State>, acts: seq<Action>, i: nat, p: nat, k: nat)
    requires IsRun(calls, states, acts) && i < |states| && p < |states[0].procs| && k < |states[0].procs[p].script|
    requires p < |states[i].procs| && k < |states[i].procs[p].done|
    ensures var c, f := states[i].procs[p], CourseOf(states, acts, i, p, k);
      && c.script == states[0].procs[p].script
      && var needs := c.script[k].needs;
      && (c.done[k].Skipped? <==> needs.Some? && !c.done[needs.value].Succeeded?)
      && (c.done[k].Succeeded? <==> !c.done[k].Skipped? && !f.spoiled)
      && (c.done[k].Succeeded? ==> f.operations == Operations(c.script[k].job))
      && (c.done[k] == Failed(true) <==> f.left)
  {
    RunSettled(calls, states, acts, i, p, k);
    RunInv(calls, states, acts, i);
    assert ProcOk(states[i], p) && GoodItem(states[i].signer, states[i].procs[p].script, k);
  }

  /** The rename of a replacement puts its whole content in place and takes the temporary name away. */
  lemma RenamePublishes(calls: seq<Call>, states: seq<State>, acts: seq<Action>, i: nat, x: nat)
    requires IsRun(calls, states, acts) && i < |acts| && acts[i].Move? && acts[i].ok
    requires states[i].procs[acts[i].p].stage == TempHolding(x, 3)
    ensures var c := states[i].procs[acts[i].p];
      && |c.done| < |c.script| && c.script[|c.done|].job.Replace?
      && var job := c.script[|c.done|].job;
      && job.path in states[i + 1].files && states[i + 1].files[job.path] == job.contents
      && Temporary(x) !in states[i + 1].files
  {
    RunInv(calls, states, acts, i);
    var c := states[i].procs[acts[i].p];
    assert ProcOk(states[i], acts[i].p) && GoodItem(states[i].signer, c.script, |c.done|);
  }
}
