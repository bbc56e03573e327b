/**
 Finishing a cycle: archiving the report, signing it, updating the latest copies and printing.
 The call is proved against its script, and against what it leaves in the evidence directory.
 */
module Finalize {
  import opened Basics
  import opened EnvelopeText
  import opened EvidenceRuns
  import opened EvidenceStore
  import opened EvidenceTheorems

  /** The report as canonicalised: its cycle and its bytes, if it could be encoded. */
  datatype Report = Report(cycle: string, canonical: Option<Unpadded>)

  datatype SinkFaults = SinkFaults(report: Fault, latest: Fault, attestation: Fault, latestAttestation: Fault,
                                   exported: Fault, printed: bool)

  /** What the operating system does to each job of a finalize call. */
  function FaultFor(faults: SinkFaults): Job -> Fault { job => FaultOf(faults, job) }

  function FaultOf(faults: SinkFaults, job: Job): Fault {
    match job
    case Exclusive(path, _) => if path.InCycle? && path.name == ATTESTATION then faults.attestation else faults.report
    case Replace(path, _) =>
      if path == Latest(LATEST_REPORT) then faults.latest
      else if path.Latest? then faults.latestAttestation
      else faults.exported
    case Print(_) => if faults.printed then NoFault else CreateFails
  }

  /** The files and outcomes of a script that runs alone. */
  datatype Turn = Turn(files: map<Path, Bytes>, done: seq<bool>)

  function Take(t: Turn, item: Item, fault: Fault): Turn {
    if item.needs.Some? && !(item.needs.value < |t.done| && t.done[item.needs.value])
        then Turn(t.files, t.done + [false])
    else
      var (files, ok) := Performed(t.files, item.job, fault);
      Turn(files, t.done + [ok])
  }

  function Alone(files: map<Path, Bytes>, script: seq<Item>, fault: Job -> Fault): Turn {
    if script == [] then Turn(files, [])
    else
      var n := |script| - 1;
      Take(Alone(files, script[..n], fault), script[n], fault(script[n].job))
  }

  lemma {:induction false} AloneOneMore(files: map<Path, Bytes>, script: seq<Item>, k: nat, fault: Job -> Fault)
    requires k < |script|
    ensures Alone(files, script[..k + 1], fault) ==
      Take(Alone(files, script[..k], fault), script[k], fault(script[k].job))
  {
    assert script[..k + 1][..k] == script[..k];
  }

  /** The items of a script after those that led to `t`. */
  function TakeAll(t: Turn, items: seq<Item>, fault: Job -> Fault): Turn {
    if items == [] then t
    else
      var n := |items| - 1;
      Take(TakeAll(t, items[..n], fault), items[n], fault(items[n].job))
  }

  lemma {:induction false} AloneAppend(files: map<Path, Bytes>, a: seq<Item>, b: seq<Item>, fault: Job -> Fault)
    ensures Alone(files, a + b, fault) == TakeAll(Alone(files, a, fault), b, fault)
  {
    if b == [] {
      assert a + b == a;
    } else {
      var n := |b| - 1;
      assert (a + b)[..|a + b| - 1] == a + b[..n];
      AloneAppend(files, a, b[..n], fault);
    }
  }

  lemma TakeThree(t: Turn, items: seq<Item>, fault: Job -> Fault)
    requires |items| == 3
    ensures TakeAll(t, items, fault)
            == Take(Take(Take(t, items[0], fault(items[0].job)), items[1], fault(items[1].job)), items[2],
                    fault(items[2].job))
  {
    var two, one := items[..2], items[..1];
    assert items[..|items| - 1] == two && two[..1] == one && one[..0] == [];
    assert TakeAll(t, one, fault) == Take(t, items[0], fault(items[0].job));
    assert TakeAll(t, two, fault) == Take(TakeAll(t, one, fault), items[1], fault(items[1].job));
  }

  /** The files of a finalize script: those of its report items, of its attestation items if any, and no others. */
  lemma ScriptFiles(files: map<Path, Bytes>, g: Signer, cycle: string, payload: Unpadded, identity: Option<Bytes>,
                    attestationOut: string, stdout: Bytes, fault: Job -> Fault)
    ensures var reported := Alone(files, ReportItems(cycle, payload), fault);
      var script := FinalizeScript(g, cycle, payload, identity, attestationOut, stdout);
      Alone(files, script, fault).files ==
        match EnvelopeFor(g, identity, payload)
        case None => reported.files
        case Some(envelope) => TakeAll(reported, AttestationItems(cycle, envelope, attestationOut), fault).files
  {
    var a, printing := ReportItems(cycle, payload), [Item(Print(stdout), None, false)];
    assert printing[..0] == [];
    match EnvelopeFor(g, identity, payload)
    case None =>
      assert a + [] == a;
      AloneAppend(files, a, printing, fault);
    case Some(envelope) =>
      var items := AttestationItems(cycle, envelope, attestationOut);
      AloneAppend(files, a + items, printing, fault);
      AloneAppend(files, a, items, fault);
  }

  /** A cycle directory never holds an attestation without a report. */
  ghost predicate NoLoneAttestation(files: map<Path, Bytes>) {
    forall cycle: string :: InCycle(cycle, ATTESTATION) in files ==> InCycle(cycle, REPORT) in files
  }

  /** `marshalAttestation`: the envelope, if there is a payload that can be signed and an identity to sign it with. */
  method MarshalAttestation(g: Signer, identity: Option<Bytes>, payload: Unpadded) returns (envelope: Option<Bytes>)
    requires GoodSigner(g)
    ensures envelope == EnvelopeFor(g, identity, payload)
    ensures envelope.Some? ==> Attests(g, envelope.value, payload)
  {
    if identity.None? || !ObjectText(Trim(payload)) {
      return None;
    }
    SignedAttests(g, identity.value, payload);
    return SignJSON(g, identity.value, payload);
  }

  /** The three sinks of a signing run as turns of the script. */
  lemma SinkTurns(first: map<Path, Bytes>, second: map<Path, Bytes>, third: map<Path, Bytes>, fourth: map<Path, Bytes>,
                  cycle: string, envelope: Bytes, done: seq<bool>, oks: seq<bool>, attestationOut: string,
                    faults: SinkFaults)
    requires |done| == 2 && |oks| == 3
    requires (second, oks[0]) ==
      if done[0] then Performed(first, Exclusive(InCycle(cycle, ATTESTATION), envelope), faults.attestation)
          else (first, false)
    requires (third, oks[1]) == Performed(second, Replace(Latest(LATEST_ATTESTATION), envelope),
                                          faults.latestAttestation)
    requires (fourth, oks[2]) == Performed(third, Replace(Outside(attestationOut), envelope), faults.exported)
    ensures Turn(fourth, done + oks) == TakeAll(Turn(first, done), AttestationItems(cycle, envelope, attestationOut),
                                                FaultFor(faults))
  {
    var items, fault := AttestationItems(cycle, envelope, attestationOut), FaultFor(faults);
    assert LATEST_ATTESTATION[11] != LATEST_REPORT[11];
    TakeThree(Turn(first, done), items, fault);
    var one := Take(Turn(first, done), items[0], fault(items[0].job));
    assert one == Turn(second, done + [oks[0]]);
    var two := Take(one, items[1], fault(items[1].job));
    assert two == Turn(third, done + [oks[0]] + [oks[1]]);
    assert done + [oks[0]] + [oks[1]] + [oks[2]] == done + oks;
  }

  /** What they leave. */
  lemma SinkFiles(first: map<Path, Bytes>, second: map<Path, Bytes>, third: map<Path, Bytes>, fourth: map<Path, Bytes>,
                  cycle: string, envelope: Bytes, reportArchived: bool, attestationOut: string, faults: SinkFaults)
    requires second ==
      if reportArchived then Performed(first, Exclusive(InCycle(cycle, ATTESTATION), envelope), faults.attestation).0
          else first
    requires third == Performed(second, Replace(Latest(LATEST_ATTESTATION), envelope), faults.latestAttestation).0
    requires fourth == Performed(third, Replace(Outside(attestationOut), envelope), faults.exported).0
    ensures SinksDone(first, fourth, cycle, envelope, reportArchived, attestationOut, faults)
  {
    AttestationSinkFiles(first, second, cycle, envelope, reportArchived, faults);
    LatestSinkFiles(second, third, fourth, envelope, attestationOut, faults);
  }

  lemma AttestationSinkFiles(first: map<Path, Bytes>, second: map<Path, Bytes>, cycle: string, envelope: Bytes,
                             reportArchived: bool, faults: SinkFaults)
    requires second ==
      if reportArchived then Performed(first, Exclusive(InCycle(cycle, ATTESTATION), envelope), faults.attestation).0
          else first
    ensures forall path :: path in first ==> path in second && second[path] == first[path]
    ensures forall path :: path in second && path !in first ==> path == InCycle(cycle, ATTESTATION) && reportArchived
    ensures reportArchived && InCycle(cycle, ATTESTATION) !in first && faults.attestation.NoFault? ==>
      InCycle(cycle, ATTESTATION) in second && second[InCycle(cycle, ATTESTATION)] == envelope
  {}

  /** The two replacements leave every other file alone. */
  lemma LatestSinkFiles(second: map<Path, Bytes>, third: map<Path, Bytes>, fourth: map<Path, Bytes>, envelope: Bytes,
                        attestationOut: string, faults: SinkFaults)
    requires third == Performed(second, Replace(Latest(LATEST_ATTESTATION), envelope), faults.latestAttestation).0
    requires fourth == Performed(third, Replace(Outside(attestationOut), envelope), faults.exported).0
    ensures forall path :: Durable(path) ==> (path in fourth <==> path in second)
    ensures forall path :: Durable(path) && path in second ==> fourth[path] == second[path]
    ensures faults.exported.NoFault? ==>
      Outside(attestationOut) in fourth && fourth[Outside(attestationOut)] == envelope
    ensures faults.latestAttestation.NoFault? ==>
      Latest(LATEST_ATTESTATION) in fourth && fourth[Latest(LATEST_ATTESTATION)] == envelope
    ensures Latest(LATEST_REPORT) in second ==>
      Latest(LATEST_REPORT) in fourth && fourth[Latest(LATEST_REPORT)] == second[Latest(LATEST_REPORT)]
  {
    assert LATEST_ATTESTATION[11] != LATEST_REPORT[11];
  }

  // ----- the call

  /** The report's own sinks: its archived file and the latest copy. */
  method ReportSinks(store: Store, cycle: string, payload: Unpadded, faults: SinkFaults)
    returns (reportArchived: bool, latest: bool)
    modifies store`files
    ensures Turn(store.files, [reportArchived, latest]) ==
      Alone(old(store.files), ReportItems(cycle, payload), FaultFor(faults))
    ensures reportArchived <==> InCycle(cycle, REPORT) !in old(store.files) && faults.report.NoFault?
    ensures latest <==> faults.latest.NoFault?
    ensures ReportDone(old(store.files), store.files, cycle, payload, reportArchived, faults)
  {
    assert REPORT[0] != ATTESTATION[0];
    ghost var items, first := ReportItems(cycle, payload), store.files;
    reportArchived := store.ArchiveCycleFile(cycle, REPORT, payload, faults.report);
    latest := store.WriteReplace(Latest(LATEST_REPORT), payload, faults.latest);
    AloneOneMore(first, items, 0, FaultFor(faults));
    AloneOneMore(first, items, 1, FaultFor(faults));
    assert items[..2] == items && items[..0] == [];
  }

  /** The sinks of a signing run; the envelope joins the cycle's directory only when its report did. */
  method AttestationSinks(store: Store, cycle: string, envelope: Bytes, reportArchived: bool, ghost latest: bool,
                          attestationOut: string, faults: SinkFaults)
    returns (attested: bool, latestToo: bool, exported: bool)
    modifies store`files
    ensures Turn(store.files, [reportArchived, latest, attested, latestToo, exported])
            == TakeAll(Turn(old(store.files), [reportArchived, latest]),
                       AttestationItems(cycle, envelope, attestationOut), FaultFor(faults))
    ensures attested <==>
      reportArchived && InCycle(cycle, ATTESTATION) !in old(store.files) && faults.attestation.NoFault?
    ensures (latestToo <==> faults.latestAttestation.NoFault?) && (exported <==> faults.exported.NoFault?)
    ensures SinksDone(old(store.files), store.files, cycle, envelope, reportArchived, attestationOut, faults)
  {
    ghost var items, first := AttestationItems(cycle, envelope, attestationOut), store.files;
    attested := false;
    if reportArchived {
      attested := store.ArchiveCycleFile(cycle, ATTESTATION, envelope, faults.attestation);
    }
    ghost var second := store.files;
    latestToo := store.WriteReplace(Latest(LATEST_ATTESTATION), envelope, faults.latestAttestation);
    ghost var third := store.files;
    exported := store.WriteReplace(Outside(attestationOut), envelope, faults.exported);
    SinkTurns(first, second, third, store.files, cycle, envelope, [reportArchived, latest],
              [attested, latestToo, exported],
              attestationOut, faults);
    SinkFiles(first, second, third, store.files, cycle, envelope, reportArchived, attestationOut, faults);
  }

  /** The sinks that write files. */
  method FileSinks(store: Store, g: Signer, cycle: string, payload: Unpadded, signing: bool, identity: Option<Bytes>,
                   attestationOut: string, faults: SinkFaults) returns (failed: nat)
    requires GoodSigner(g) && NoLoneAttestation(store.files)
    modifies store`files
    ensures var signer := if signing then identity else None;
      && store.files == Alone(old(store.files), FinalizeScript(g, cycle, payload, signer, attestationOut, payload),
                              FaultFor(faults)).files
      && Finalized(g, old(store.files), store.files, cycle, payload, EnvelopeFor(g, signer, payload).Some?,
                   attestationOut, faults)
      && NoLoneAttestation(store.files)
      && (failed == 0 <==>
            && faults.report.NoFault? && faults.latest.NoFault? && InCycle(cycle, REPORT) !in old(store.files)
            && (signing ==> EnvelopeFor(g, signer, payload).Some? && AttestationSinksWork(faults)))
  {
    ghost var before := store.files;
    var reportArchived, latest := ReportSinks(store, cycle, payload, faults);
    ghost var between := store.files;
    failed := Missed(reportArchived) + Missed(latest);
    var envelope: Option<Bytes> := None;
    if signing {
      envelope := MarshalAttestation(g, identity, payload);
      failed := failed + Missed(envelope.Some?);
    }
    ScriptFiles(before, g, cycle, payload, if signing then identity else None, attestationOut, payload,
                FaultFor(faults));
    if envelope.Some? {
      NoAttestationYet(before, between, cycle, payload, reportArchived, faults);
      var attested, latestToo, exported :=
        AttestationSinks(store, cycle, envelope.value, reportArchived, latest, attestationOut, faults);
      // A skipped archive is no error of its own.
      failed := failed + Missed(attested || !reportArchived) + Missed(latestToo) + Missed(exported);
      SinksFinalize(g, before, between, store.files, cycle, payload, envelope.value, reportArchived, attestationOut,
                    faults);
    } else {
      ReportFinalizes(g, before, store.files, cycle, payload, reportArchived, attestationOut, faults);
    }
  }

  predicate AttestationSinksWork(faults: SinkFaults) {
    faults.attestation.NoFault? && faults.latestAttestation.NoFault? && faults.exported.NoFault?
  }

  lemma NoAttestationYet(before: map<Path, Bytes>, between: map<Path, Bytes>, cycle: string, payload: Unpadded,
                         reportArchived: bool, faults: SinkFaults)
    requires ReportDone(before, between, cycle, payload, reportArchived, faults) && NoLoneAttestation(before)
    ensures reportArchived ==> InCycle(cycle, ATTESTATION) !in between
  {
    assert REPORT[0] != ATTESTATION[0];
  }

  /**
   `finalizeCycle`: each sink is tried whatever became of the others, except that the
   attestation is archived only beside the report it signs; the report is always printed.
   The result is the number of errors joined.
   */
  method FinalizeCycle(store: Store, g: Signer, report: Option<Report>, cycleErr: bool, signing: bool,
                       identity: Option<Bytes>,
                       attestationOut: string, faults: SinkFaults) returns (errors: nat)
    requires GoodSigner(g) && NoLoneAttestation(store.files)
    modifies store
    ensures NoLoneAttestation(store.files) && KeepsDurable(old(store.files), store.files)
    ensures report.None? ==>
      store.files == old(store.files) && store.prints == old(store.prints) && errors == if cycleErr then 1 else 0
    ensures report.Some? && report.value.canonical.None? ==>
      store.files == old(store.files) && store.prints == old(store.prints) && errors > 0
    ensures report.Some? && report.value.canonical.Some? ==>
      var cycle, payload := report.value.cycle, report.value.canonical.value;
      var signer := if signing then identity else None;
      && store.prints == old(store.prints) + (if faults.printed then [payload] else [])
      && store.files == Alone(old(store.files), FinalizeScript(g, cycle, payload, signer, attestationOut, payload),
                              FaultFor(faults)).files
      && Finalized(g, old(store.files), store.files, cycle, payload, EnvelopeFor(g, signer, payload).Some?,
                   attestationOut, faults)
      && (errors == 0 <==>
            && !cycleErr && faults.report.NoFault? && faults.latest.NoFault? && faults.printed
            && InCycle(cycle, REPORT) !in old(store.files)
            && (signing ==> EnvelopeFor(g, signer, payload).Some? && AttestationSinksWork(faults)))
  {
    if report.None? {
      return if cycleErr then 1 else 0;
    }
    if report.value.canonical.None? {
      return if cycleErr then 2 else 1;
    }
    var payload := report.value.canonical.value;
    errors := if cycleErr then 1 else 0;
    var failed := FileSinks(store, g, report.value.cycle, payload, signing, identity, attestationOut, faults);
    errors := errors + failed;
    if faults.printed {
      store.prints := store.prints + [payload];
    } else {
      errors := errors + 1;
    }
  }

  function Missed(ok: bool): nat { if ok then 0 else 1 }

  // ----- what it leaves behind

  ghost predicate ReportDone(before: map<Path, Bytes>, after: map<Path, Bytes>, cycle: string, payload: Unpadded,
                             reportArchived: bool, faults: SinkFaults)
  {
    var report := InCycle(cycle, REPORT);
    && KeepsDurable(before, after)
    && (forall path :: Durable(path) && path in after && path !in before ==> path == report)
    && (reportArchived ==> report !in before && report in after && after[report] == payload)
    && (faults.latest.NoFault? ==> Latest(LATEST_REPORT) in after && after[Latest(LATEST_REPORT)] == payload)
  }

  /** What the attestation sinks leave: the archived and the exported envelope. */
  ghost predicate SinksDone(before: map<Path, Bytes>, after: map<Path, Bytes>, cycle: string, envelope: Bytes,
                            reportArchived: bool, attestationOut: string, faults: SinkFaults)
  {
    var attestation := InCycle(cycle, ATTESTATION);
    && KeepsDurable(before, after)
    && (forall path :: Durable(path) && path in after && path !in before ==> path == attestation && reportArchived)
    && (reportArchived && attestation !in before && faults.attestation.NoFault? ==>
          attestation in after && after[attestation] == envelope)
    && (faults.exported.NoFault? ==> Outside(attestationOut) in after && after[Outside(attestationOut)] == envelope)
    && (faults.latestAttestation.NoFault? ==>
          Latest(LATEST_ATTESTATION) in after && after[Latest(LATEST_ATTESTATION)] == envelope)
    && (Latest(LATEST_REPORT) in before ==>
          Latest(LATEST_REPORT) in after && after[Latest(LATEST_REPORT)] == before[Latest(LATEST_REPORT)])
  }

  /** What a finalize call leaves: the archived pair, the latest copy and the exported envelope. */
  ghost predicate Finalized(g: Signer, before: map<Path, Bytes>, after: map<Path, Bytes>, cycle: string,
                            payload: Unpadded, signing: bool, attestationOut: string, faults: SinkFaults)
  {
    var report, attestation := InCycle(cycle, REPORT), InCycle(cycle, ATTESTATION);
    && KeepsDurable(before, after)
    && (forall path :: Durable(path) && path in after && path !in before ==> path == report || path == attestation)
    && (report !in before && faults.report.NoFault? ==> report in after && after[report] == payload)
    && (attestation !in before && attestation in after ==>
          && signing && report !in before && report in after && after[report] == payload
          && (faults.attestation.NoFault? ==> Attests(g, after[attestation], after[report])))
    && (signing && report !in before && attestation !in before && faults.report.NoFault?
        && faults.attestation.NoFault? ==>
          attestation in after)
    && (faults.latest.NoFault? ==> Latest(LATEST_REPORT) in after && after[Latest(LATEST_REPORT)] == payload)
    && (signing && faults.latestAttestation.NoFault? ==>
          Latest(LATEST_ATTESTATION) in after && Attests(g, after[Latest(LATEST_ATTESTATION)], payload))
    && (signing && faults.exported.NoFault? ==>
          Outside(attestationOut) in after && Attests(g, after[Outside(attestationOut)], payload))
  }

  lemma ReportFinalizes(g: Signer, before: map<Path, Bytes>, after: map<Path, Bytes>, cycle: string, payload: Unpadded,
                        reportArchived: bool, attestationOut: string, faults: SinkFaults)
    requires ReportDone(before, after, cycle, payload, reportArchived, faults)
    requires reportArchived <==> InCycle(cycle, REPORT) !in before && faults.report.NoFault?
    requires NoLoneAttestation(before)
    ensures Finalized(g, before, after, cycle, payload, false, attestationOut, faults) && NoLoneAttestation(after)
  {
    assert REPORT[0] != ATTESTATION[0];
  }

  lemma SinksFinalize(g: Signer, before: map<Path, Bytes>, between: map<Path, Bytes>, after: map<Path, Bytes>,
                      cycle: string, payload: Unpadded,
                      envelope: Bytes, reportArchived: bool, attestationOut: string, faults: SinkFaults)
    requires ReportDone(before, between, cycle, payload, reportArchived, faults)
    requires SinksDone(between, after, cycle, envelope, reportArchived, attestationOut, faults)
    requires reportArchived <==> InCycle(cycle, REPORT) !in before && faults.report.NoFault?
    requires NoLoneAttestation(before) && Attests(g, envelope, payload)
    ensures Finalized(g, before, after, cycle, payload, true, attestationOut, faults) && NoLoneAttestation(after)
  {
    assert REPORT[0] != ATTESTATION[0];
    forall c: string | InCycle(c, ATTESTATION) in after ensures InCycle(c, REPORT) in after {
      if InCycle(c, ATTESTATION) in before {
        assert InCycle(c, REPORT) in before;
      }
    }
  }
}
