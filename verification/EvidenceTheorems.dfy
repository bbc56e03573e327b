/** Whole runs of the evidence directory: what is published stays, and an attestation never stands alone. */
module EvidenceTheorems {
  import opened Basics
  import opened EnvelopeText
  import opened EvidenceRuns

  // ----- the calls that write evidence

  /** A call: finishing a cycle, with the signed identity if there is a key, or persisting artifacts. */
  datatype Call =
    | Finalize(cycle: string, payload: Unpadded, identity: Option<Bytes>, attestationOut: string, stdout: Bytes)
    | Persist(files: seq<(Path, Bytes)>)

  /** Artifacts go below a profile, or beside the report under a name of their own. */
  ghost predicate GoodCall(call: Call) {
    call.Persist? ==> forall i :: 0 <= i < |call.files| ==> ArtifactPath(call.files[i].0)
  }

  predicate ArtifactPath(path: Path) { path.InProfile? || (path.InCycle? && path.name != ATTESTATION) }

  function ScriptOf(g: Signer, call: Call): seq<Item> {
    match call
    case Finalize(cycle, payload, identity, attestationOut, stdout) =>
      FinalizeScript(g, cycle, payload, identity, attestationOut, stdout)
    case Persist(files) => PersistScript(files)
  }

  function EnvelopeFor(g: Signer, identity: Option<Bytes>, payload: Unpadded): Option<Bytes> {
    if identity.Some? then SignJSON(g, identity.value, payload) else None
  }

  /**
   `finalizeCycle` once the report is canonicalised: the attestation needs the archived report, nothing else
   is gated.
   */
  function FinalizeScript(g: Signer, cycle: string, payload: Unpadded, identity: Option<Bytes>,
                          attestationOut: string, stdout: Bytes): (r: seq<Item>)
    ensures |r| == if EnvelopeFor(g, identity, payload).Some? then 6 else 3
  {
    ReportItems(cycle, payload)
    + (match EnvelopeFor(g, identity, payload)
       case None => []
       case Some(envelope) => AttestationItems(cycle, envelope, attestationOut))
    + [Item(Print(stdout), None, false)]
  }

  function ReportItems(cycle: string, payload: Unpadded): (r: seq<Item>)
    ensures |r| == 2
  {
    [Item(Exclusive(InCycle(cycle, REPORT), payload), None, false),
     Item(Replace(Latest(LATEST_REPORT), payload), None, false)]
  }

  function AttestationItems(cycle: string, envelope: Bytes, attestationOut: string): (r: seq<Item>)
    ensures |r| == 3
  {
    [Item(Exclusive(InCycle(cycle, ATTESTATION), envelope), Some(0), false),
     Item(Replace(Latest(LATEST_ATTESTATION), envelope), None, false),
     Item(Replace(Outside(attestationOut), envelope), None, false)]
  }

  /** Artifacts written one after the other; the first failure ends the call. */
  function PersistScript(files: seq<(Path, Bytes)>): (r: seq<Item>)
    ensures |r| == |files|
  {
    seq(|files|, i requires 0 <= i < |files| => Item(Exclusive(files[i].0, files[i].1), None, true))
  }

  /** An item that is not gated and creates no attestation. */
  predicate Harmless(item: Item) {
    && item.needs.None?
    && match item.job
       case Exclusive(path, _) => Durable(path) && !(path.InCycle? && path.name == ATTESTATION)
       case Replace(path, _) => path.Latest? || path.Outside?
       case Print(_) => true
  }

  /** All but the archived attestation is harmless, and that follows the report. */
  lemma FinalizeItems(g: Signer, cycle: string, payload: Unpadded, identity: Option<Bytes>, attestationOut: string,
                      stdout: Bytes)
    ensures var script, envelope :=
        FinalizeScript(g, cycle, payload, identity, attestationOut, stdout), EnvelopeFor(g, identity, payload);
      && script[0] == Item(Exclusive(InCycle(cycle, REPORT), payload), None, false)
      && (envelope.Some? ==> script[2] == Item(Exclusive(InCycle(cycle, ATTESTATION), envelope.value), Some(0), false))
      && (forall k :: 0 <= k < |script| && !(k == 2 && envelope.Some?) ==> Harmless(script[k]))
  {
    var script := FinalizeScript(g, cycle, payload, identity, attestationOut, stdout);
    assert REPORT[0] != ATTESTATION[0];
    forall k | 0 <= k < 2 ensures script[k] == ReportItems(cycle, payload)[k] {}
    if EnvelopeFor(g, identity, payload).Some? {
      var items := AttestationItems(cycle, EnvelopeFor(g, identity, payload).value, attestationOut);
      forall k | 0 <= k < 3 ensures script[2 + k] == items[k] {}
    }
  }

  lemma FinalizeScriptGood(g: Signer, cycle: string, payload: Unpadded, identity: Option<Bytes>,
                           attestationOut: string, stdout: Bytes)
    requires GoodSigner(g)
    ensures GoodScript(g, FinalizeScript(g, cycle, payload, identity, attestationOut, stdout))
  {
    var script, envelope :=
      FinalizeScript(g, cycle, payload, identity, attestationOut, stdout), EnvelopeFor(g, identity, payload);
    FinalizeItems(g, cycle, payload, identity, attestationOut, stdout);
    if envelope.Some? {
      SignedAttests(g, identity.value, payload);
      assert SignsReport(g, script, 0, 2, cycle);
    }
    forall k: nat | k < |script| ensures GoodItem(g, script, k) {
      assert (k == 2 && envelope.Some?) || Harmless(script[k]);
    }
  }

  /** Every call's script keeps to the rules that whole runs rely on. */
  lemma CallsAreGood(g: Signer, call: Call)
    requires GoodSigner(g) && GoodCall(call)
    ensures GoodScript(g, ScriptOf(g, call))
  {
    match call
    case Finalize(cycle, payload, identity, attestationOut, stdout) =>
      FinalizeScriptGood(g, cycle, payload, identity, attestationOut, stdout);
    case Persist(files) =>
      var script := PersistScript(files);
      forall k: nat | k < |script| ensures GoodItem(g, script, k) {
        assert ArtifactPath(files[k].0);
      }
  }

  // ----- runs

  function Scripts(g: Signer, calls: seq<Call>): (r: seq<seq<Item>>)
    ensures |r| == |calls|
  {
    seq(|calls|, i requires 0 <= i < |calls| => ScriptOf(g, calls[i]))
  }

  /** Any number of finalize and persist calls on an empty evidence directory, interleaved. */
  ghost predicate IsRun(calls: seq<Call>, states: seq<State>, acts: seq<Action>) {
    && |states| == |acts| + 1
    && GoodSigner(states[0].signer) && (forall i :: 0 <= i < |calls| ==> GoodCall(calls[i]))
    && states[0] == Start(states[0].signer, Scripts(states[0].signer, calls))
    && forall i :: 0 <= i < |acts| ==> Enabled(states[i], acts[i]) && states[i + 1] == Step(states[i], acts[i])
  }

  lemma {:induction false} RunInv(calls: seq<Call>, states: seq<State>, acts: seq<Action>, i: nat)
    requires IsRun(calls, states, acts) && i < |states|
    ensures Inv(states[i]) && states[i].signer == states[0].signer
  {
    if i == 0 {
      var g := states[0].signer;
      forall j | 0 <= j < |calls| ensures GoodScript(g, Scripts(g, calls)[j]) {
        CallsAreGood(g, calls[j]);
      }
      StartInv(g, Scripts(g, calls));
    } else {
      RunInv(calls, states, acts, i - 1);
      StepInv(states[i - 1], acts[i - 1]);
    }
  }

  lemma StepKeepsOutcomes(s: State, act: Action, p: nat)
    requires Enabled(s, act) && p < |s.procs|
    ensures |Step(s, act).procs| == |s.procs| && Step(s, act).procs[p].script == s.procs[p].script
    ensures s.procs[p].done <= Step(s, act).procs[p].done
  {
    ActorOutcome(s, act);
  }

  /** Outcomes are never revised. */
  lemma {:induction false} OutcomesStay(calls: seq<Call>, states: seq<State>, acts: seq<Action>, i: nat, j: nat, p: nat)
    requires IsRun(calls, states, acts) && i <= j < |states| && p < |states[i].procs|
    ensures p < |states[j].procs| && states[j].procs[p].script == states[i].procs[p].script
    ensures states[i].procs[p].done <= states[j].procs[p].done
    decreases j
  {
    if i == j {
    } else {
      OutcomesStay(calls, states, acts, i, j - 1, p);
      StepKeepsOutcomes(states[j - 1], acts[j - 1], p);
    }
  }

  /** Item `k` of process `p` published its file by exclusive create. */
  ghost predicate Published(s: State, p: nat, k: nat) {
    && p < |s.procs| && k < |s.procs[p].script| && k < |s.procs[p].done|
    && s.procs[p].script[k].job.Exclusive? && s.procs[p].done[k].Succeeded?
  }

  /** A published file holds the published bytes in every later state. */
  lemma PublishedNeverChanges(calls: seq<Call>, states: seq<State>, acts: seq<Action>, i: nat, j: nat, p: nat, k: nat)
    requires IsRun(calls, states, acts) && i <= j < |states| && Published(states[i], p, k)
    ensures var job := states[i].procs[p].script[k].job;
      job.path in states[j].files && states[j].files[job.path] == job.contents
  {
    OutcomesStay(calls, states, acts, i, j, p);
    RunInv(calls, states, acts, j);
    assert ProcOk(states[j], p);
    assert Holds(states[j].procs[p], k) && Filled(states[j].procs[p], k);
    assert HeldOk(states[j], p, k);
  }

  /** At most one job ever publishes a path. */
  lemma PublishedOnce(calls: seq<Call>, states: seq<State>, acts: seq<Action>, i: nat, p: nat, k: nat, q: nat, l: nat)
    requires IsRun(calls, states, acts) && i < |states| && Published(states[i], p, k) && Published(states[i], q, l)
    requires states[i].procs[p].script[k].job.path == states[i].procs[q].script[l].job.path
    ensures p == q && k == l
  {
    RunInv(calls, states, acts, i);
    assert ProcOk(states[i], p) && ProcOk(states[i], q);
    assert HeldOk(states[i], p, k) && HeldOk(states[i], q, l);
  }

  /** A step that changes or removes a durable file is a step of the unfinished job that created it. */
  lemma OnlyTheCreatorTouches(calls: seq<Call>, states: seq<State>, acts: seq<Action>, i: nat, path: Path)
    requires IsRun(calls, states, acts) && i < |acts| && Durable(path) && path in states[i].files
    requires path !in states[i + 1].files || states[i + 1].files[path] != states[i].files[path]
    ensures acts[i].Move? && var c := states[i].procs[acts[i].p];
      && path in states[i].owner && states[i].owner[path] == (acts[i].p, |c.done|)
      && |c.done| < |c.script| && c.script[|c.done|].job.Exclusive? && c.script[|c.done|].job.path == path
      && (path !in states[i + 1].files ==>
            c.stage.Undoing? && states[i + 1].procs[acts[i].p].done == c.done + [Failed(false)])
  {
    RunInv(calls, states, acts, i);
    var s, act := states[i], acts[i];
    assert ProcOk(s, act.p) && FileOk(s, path);
    OnlyMine(s, act, path);
    var c := s.procs[act.p];
    assert GoodItem(s.signer, c.script, |c.done|);
  }

  // ----- artifact references

  datatype Artifact = Artifact(path: Path, digest: Digest)

  /** The references a call has collected: one for each artifact it wrote. */
  ghost function References(c: Proc): set<Artifact>
    requires |c.done| <= |c.script|
  {
    set k: nat | k < |c.done| && c.done[k].Succeeded? && c.script[k].job.Exclusive?
      :: Artifact(c.script[k].job.path, Sha256(c.script[k].job.contents))
  }

  /** Every reference keeps naming a file with the referenced hash. */
  lemma ReferencesStayTrue(calls: seq<Call>, states: seq<State>, acts: seq<Action>, i: nat, j: nat, p: nat, r: Artifact)
    requires IsRun(calls, states, acts) && i <= j < |states| && p < |states[i].procs|
    requires |states[i].procs[p].done| <= |states[i].procs[p].script| && r in References(states[i].procs[p])
    ensures r.path in states[j].files && Sha256(states[j].files[r.path]) == r.digest
  {
    var c := states[i].procs[p];
    var k: nat :| k < |c.done| && c.done[k].Succeeded? && c.script[k].job.Exclusive?
                  && r == Artifact(c.script[k].job.path, Sha256(c.script[k].job.contents));
    PublishedNeverChanges(calls, states, acts, i, j, p, k);
  }

  // ----- attestations

  /**
   The directory of `cycle` holds a report some job published and an attestation a job of the same call
   created for it.
   */
  ghost predicate Attested(s: State, cycle: string, p: nat, j: nat, k: nat) {
    && InCycle(cycle, ATTESTATION) in s.owner && s.owner[InCycle(cycle, ATTESTATION)] == (p, k)
    && Published(s, p, j) && SignsReport(s.signer, s.procs[p].script, j, k, cycle)
    && InCycle(cycle, REPORT) in s.files && s.files[InCycle(cycle, REPORT)] == s.procs[p].script[j].job.contents
    && InCycle(cycle, ATTESTATION) in s.files
    && (Filled(s.procs[p], k) ==> Attests(s.signer, s.files[InCycle(cycle, ATTESTATION)],
                                          s.files[InCycle(cycle, REPORT)]))
  }

  /**
   A cycle directory with an attestation holds the report it signs, byte for byte: nobody else's report, and
   never none.
   */
  lemma AttestationHasItsReport(calls: seq<Call>, states: seq<State>, acts: seq<Action>, i: nat, cycle: string)
    requires IsRun(calls, states, acts) && i < |states| && InCycle(cycle, ATTESTATION) in states[i].files
    ensures exists p, j, k :: Attested(states[i], cycle, p, j, k)
  {
    RunInv(calls, states, acts, i);
    var s, path := states[i], InCycle(cycle, ATTESTATION);
    assert FileOk(s, path);
    var (p, k) := s.owner[path];
    var c := s.procs[p];
    assert ProcOk(s, p) && HeldOk(s, p, k) && GoodItem(s.signer, c.script, k);
    var j := c.script[k].needs.value;
    assert Begun(c, k);
    assert Holds(c, j) && HeldOk(s, p, j);
    assert Attested(s, cycle, p, j, k);
  }

  /** Once the attestation is archived, report and attestation match for good, whatever later calls do. */
  lemma ArchivedAttestationStays(calls: seq<Call>, states: seq<State>, acts: seq<Action>, i: nat, j: nat,
                                 cycle: string, p: nat, k: nat)
    requires IsRun(calls, states, acts) && i <= j < |states| && Published(states[i], p, k)
    requires states[i].procs[p].script[k].job.path == InCycle(cycle, ATTESTATION)
    ensures InCycle(cycle, ATTESTATION) in states[j].files && InCycle(cycle, REPORT) in states[j].files
    ensures Attests(states[j].signer, states[j].files[InCycle(cycle, ATTESTATION)],
                    states[j].files[InCycle(cycle, REPORT)])
    ensures ReadEnvelope(states[j].files[InCycle(cycle, ATTESTATION)]).value.payload ==
      states[j].files[InCycle(cycle, REPORT)]
  {
    PublishedNeverChanges(calls, states, acts, i, j, p, k);
    OutcomesStay(calls, states, acts, i, j, p);
    RunInv(calls, states, acts, j);
    AttestationHasItsReport(calls, states, acts, j, cycle);
    var q, r, l :| Attested(states[j], cycle, q, r, l);
    assert ProcOk(states[j], p) && Holds(states[j].procs[p], k) && HeldOk(states[j], p, k);
    assert Filled(states[j].procs[p], k);
  }

  /** A latest copy or an exported attestation is always one whole content some call passed. */
  lemma LatestIsWhole(calls: seq<Call>, states: seq<State>, acts: seq<Action>, i: nat, path: Path)
    requires IsRun(calls, states, acts) && i < |states| && (path.Latest? || path.Outside?) && path in states[i].files
    ensures Offered(states[i], path, states[i].files[path])
  {
    RunInv(calls, states, acts, i);
    assert FileOk(states[i], path);
  }

  // ----- every call comes to its end

  predicate SkipsOnlyGated(c: Proc) {
    |c.done| <= |c.script| && forall k :: 0 <= k < |c.done| && c.done[k].Skipped? ==> c.script[k].needs.Some?
  }

  lemma StepSkips(s: State, act: Action, p: nat)
    requires Enabled(s, act) && p < |s.procs| && SkipsOnlyGated(s.procs[p])
    ensures SkipsOnlyGated(Step(s, act).procs[p])
  {
    ActorOutcome(s, act);
  }

  lemma {:induction false} RunSkips(calls: seq<Call>, states: seq<State>, acts: seq<Action>, i: nat, p: nat)
    requires IsRun(calls, states, acts) && i < |states| && p < |states[i].procs|
    ensures SkipsOnlyGated(states[i].procs[p])
  {
    if i == 0 {
    } else {
      ScriptsStay(states[i - 1], acts[i - 1], p);
      RunSkips(calls, states, acts, i - 1, p);
      StepSkips(states[i - 1], acts[i - 1], p);
    }
  }

  /** Whatever fails before it, a finalize call that returns has tried to print the report. */
  lemma ReportIsAlwaysPrinted(calls: seq<Call>, states: seq<State>, acts: seq<Action>, i: nat, p: nat)
    requires IsRun(calls, states, acts) && i < |states| && p < |states[i].procs|
    requires p < |calls| && calls[p].Finalize? && Returned(states[i].procs[p])
    ensures var c := states[i].procs[p]; var n := |c.script| - 1;
      |c.done| == |c.script| > 0 && c.script[n].job == Print(calls[p].stdout) && !c.done[n].Skipped?
  {
    OutcomesStay(calls, states, acts, 0, i, p);
    RunSkips(calls, states, acts, i, p);
    var c := states[i].procs[p];
    assert c.script == ScriptOf(states[0].signer, calls[p]);
    assert forall k :: 0 <= k < |c.script| ==> !c.script[k].last;
  }

  /** Operations a process can still make. */
  function Left(c: Proc): int {
    var begun :=
      match c.stage
      case Ready => 0
      case Holding(n) => 1 + n
      case Undoing => 5
      case TempHolding(_, n) => 1 + n
      case Dropping(_, _) => 6;
    7 * (|c.script| - |c.done|) - begun
  }

  lemma OperationShrinks(s: State, act: Action)
    requires Enabled(s, act) && act.Move? && StageOk(s, s.procs[act.p])
    ensures Left(EffectOf(s, act).proc) < Left(s.procs[act.p])
  {}

  /** Every operation brings its call closer to the end. */
  lemma CallsEnd(calls: seq<Call>, states: seq<State>, acts: seq<Action>, i: nat)
    requires IsRun(calls, states, acts) && i < |acts| && acts[i].Move?
    ensures 0 <= Left(states[i + 1].procs[acts[i].p]) < Left(states[i].procs[acts[i].p])
  {
    RunInv(calls, states, acts, i);
    RunInv(calls, states, acts, i + 1);
    var p := acts[i].p;
    assert ProcOk(states[i], p) && ProcOk(states[i + 1], p);
    OperationShrinks(states[i], acts[i]);
  }
}
