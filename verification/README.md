# Assurance core of PKI Sentinel

A Dafny model of two services and proofs about it. The trust-store drift agent compares the
roots a host trusts with a signed baseline and refuses to go back to an older one. The
revocation probe issues a certificate, revokes it, watches who notices, and files signed
evidence. Every module models one component:

- `DriftModel`, `DriftAgent`, `DriftTheorems`, `DriftReport`: the scan, defined without budgets; the agent's loops
  over maps and budgets, proved to compute it; what the result means, and every event and counter of its report
  read off the raw certificates and entries.
- `BaselineState`: the anti-rollback transaction, the chain of accepted baselines, and many agents
  that may crash running lock, read, validate, write, rename and unlock against one file.
- `Polling`, `ObservePhase`, `ObserveSafety`, `ObserveTheorems`: polling one profile; the concurrent phase of oracles,
  staple publisher, gated clients and collector; its safety, progress and end.
- `ObserveRecords`, `ObservePolling`, `ObserveStaple`: what each record of that phase rests on, that every poll ends
  as the loop run alone does, and when the staple is published.
- `Cycle`: one cycle from issuance to verdict with its compensating revoke.
- `ManifestText`, `Scenarios`, `Loading`, `ScenarioRegistry`: manifests, their canonical JSON, loading a
  directory, and what the start-up checks promise the observe phase.
- `JsonSpelling`: JSON as it is written, characters escaped, and why such a text has one value.
- `EnvelopeText`: the attestation envelope as bytes, and why it fixes the payload it was built around.
- `EvidenceRuns`, `EvidenceTheorems`, `EvidenceOutcomes`: the evidence directory under concurrent writers, crashes
  and failing operations; what stays, and why each write succeeds or fails.
- `ArtifactNames`, `EvidenceStore`, `Finalize`: the calls that persist and finish, one at a time.
- `EndToEnd`: from the documents and start-up checks to a valid trial.
- `Canary`: the accept loop, the handlers and any number of callers of `Close`.
- `JsonText`, `JsonScan`: JSON texts with unique names (section 4 of RFC 8259) and the two recursive
  scans over a token decoder.
- `Sweep`: fault-sweep trials, their log and their counts.
- `Basics`, `Ordering`, `Counting`, `Profiles`: shared definitions, sorting, counting, the assurance vocabulary.

Assumptions made explicit:

- SHA-256 is injective: a digest is a free constructor over what was hashed, and equal certificate
  hashes mean equal certificates.
- A signed statement is marshalled as the text of one JSON object, and different statements differently
  (`EvidenceRuns.JsonSignerGood` gives such a signer). The canonical report, which `json.Marshal` writes, has no
  blanks around it.
- Strings in documents are valid UTF-8. `json.Marshal` writes every other byte as U+FFFD, so that two documents
  differing in such bytes alone would share their canonical JSON.
- Cycle identifiers, profile names and phases are proper path elements: not empty, no slash, no dot names.
- The path given for exporting an attestation names no file of the evidence directory.
- Time is one integer clock that never goes back; zero is the unset time. A probe may return anything.
  The poll interval is positive, as the configuration loader demands
  (services/revocation-probe/internal/config/config.go:87-103).
- The random suffix of a temporary evidence file was not used before.
- A failure rate is an exact quotient.
- Wherever Go ranges over a map the model picks keys in an arbitrary order.

Where code and text disagree the code is followed. The help text of `pki_truststore_changed_roots`
(services/truststore-drift-agent/main.go:567) speaks only of a matching subject with another key; the
counter also includes same-key substitutions and policy changes of exact matches.

Results that are not plain confirmations:

- Sweep counts equal a recount of the log exactly for delays that were swept once; a repeated delay
  loses its earlier trials (`Sweep.StatsFaithful`, `Sweep.RepeatedDelayLosesTrials`).
- A recorded preflight age is measured from the request time the issuer returns, the limit from the
  time it was given. The two agree because the Vault client returns the time it was given
  (`Cycle.ValidTrialIsCausal`, `Cycle.AgeLimitIffNoLaterRequest`).
- A payload with blanks around its object would be signed, but an envelope read back loses the blanks and no longer
  attests it (`EvidenceRuns.SignedAttests`). The canonical report has none.
- An artifact name that consists only of slashes is cleaned to a slash and names its own directory, so storing it
  fails; no other name leaves its directory (`ArtifactNames.NameStaysInside`).
- Atomic rename alone does not prevent rollback; the lock does (`BaselineState.WithoutLockHighestFalls`).

## Model

| member | source | states |
|---|---|---|
| `DriftAgent.ValidateBaseline` | services/truststore-drift-agent/main.go:311-330 | accepts exactly the baselines whose entries have a key and a subject and whose identities (certificate hash, or key for a legacy entry) are all different |
| `DriftAgent.DeduplicateCertificates` | services/truststore-drift-agent/main.go:1037-1052 | each loaded certificate is kept once and none is lost, even when several share a key |
| `DriftAgent.AssignLegacy` | services/truststore-drift-agent/main.go:432-456 | legacy slots of a key go to its non-exact certificates in hash order, as many as the key has legacy entries |
| `DriftAgent.ClassifyCertificates` | services/truststore-drift-agent/main.go:458-503 | the counters and events of the classification loop are those of the budget-free classification of every certificate |
| `DriftAgent.SubstitutionBudget` | services/truststore-drift-agent/main.go:504-514 | the substitution budget of a key is the number of its observed certificates that no baseline hash matches |
| `DriftAgent.MatchLegacy` | services/truststore-drift-agent/main.go:515-525 | legacy entries consume the lesser of their number and the key's budget; the rest of the budget is what remains |
| `DriftAgent.FindMissing` | services/truststore-drift-agent/main.go:527-547 | the removal loop counts and reports exactly the entries for which their key has no certificate left |
| `DriftAgent.EvaluateTrustStore` | services/truststore-drift-agent/main.go:408-549 | the eight maps and three budgets compute the scan result defined without them |
| `DriftTheorems.CleanIffMatching` | services/truststore-drift-agent/main.go:408-549 | no unknown, missing or changed root exactly when certificates and entries pair off one to one: an exact-hash entry with its own certificate (policy agreeing when recorded), a legacy entry with a certificate of its key |
| `DriftTheorems.CleanGivesMatching` | services/truststore-drift-agent/main.go:408-549 | constructs that pairing from a scan without drift |
| `DriftTheorems.MatchingGivesClean` | services/truststore-drift-agent/main.go:408-549 | any such pairing makes the scan clean |
| `DriftTheorems.MissingCardinality` | services/truststore-drift-agent/main.go:504-547 | missing roots are the sum over keys of legacy plus unmatched entries beyond the key's free certificates |
| `DriftTheorems.MissingIsShortfall` | services/truststore-drift-agent/main.go:527-547 | when entries carry their certificate's key, missing roots are the sum over keys of baseline entries beyond observed certificates |
| `DriftTheorems.ChangedCardinality` | services/truststore-drift-agent/main.go:458-503 | same-key changes and legacy matches are, key by key, the non-exact certificates beyond and within the legacy count |
| `DriftTheorems.EveryCertificateOnce` | services/truststore-drift-agent/main.go:458-503 | every observed certificate is counted in exactly one of exact, legacy, changed and unknown |
| `DriftTheorems.CountersIgnoreOrder` | services/truststore-drift-agent/main.go:408-549 | no counter depends on the order of certificates or of baseline entries |
| `DriftTheorems.EventsIgnoreOrder` | services/truststore-drift-agent/main.go:441-547 | reordering the certificates leaves the multiset of events unchanged |
| `DriftTheorems.ExitZeroMeansConformant` | services/truststore-drift-agent/main.go:247-252 | the check exits with 0 exactly for a perfect pairing without expired certificates |
| `DriftTheorems.ValidRootsDistinct` | services/truststore-drift-agent/main.go:311-330 | a valid baseline lists a certificate at most once and has at most one legacy entry per key |
| `DriftTheorems.Check` | services/truststore-drift-agent/main.go:217-252 | a whole check on what the loader met: 2 for an invalid baseline, 0 exactly for a conforming store, whatever the order and repetitions |
| `DriftReport.EventsCounted` | services/truststore-drift-agent/main.go:408-549 | how often any event occurs in a report: once for each observed certificate with its subject and key for which the event's kind is called for, as said of hashes, keys, subjects, policies and expiry alone, and once for each missing entry; no other event occurs |
| `DriftReport.CountersCounted` | services/truststore-drift-agent/main.go:458-503 | changed roots are the exact matches whose recorded policy differs, plus the same-key surplus, plus the certificates of unknown hash and key whose subject is listed; unknown, expired and expiring roots are counted from raw fields too |
| `DriftReport.RemovalsPerKey` | services/truststore-drift-agent/main.go:527-547 | the removal events of a key are as many as its entries beyond the certificates free to stand for them |
| `DriftReport.LaterEntriesGoMissing` | services/truststore-drift-agent/main.go:519-547 | which entries of a key go missing: earlier ones are matched before later ones of their sort, legacy entries before lost certificates, and an entry whose certificate is there never goes missing |
| `BaselineState.StateStore.VerifyAndAdvance` | services/truststore-drift-agent/main.go:711-767 | one transaction: every refusal names its verdict and leaves the file, an advance replaces it by the new baseline's state, a failed directory sync reports an error after the replacement |
| `BaselineState.AdvanceExtendsChain` | services/truststore-drift-agent/main.go:744-766 | a baseline advances the file a chain left behind exactly when it extends that chain |
| `BaselineState.ChainIncreases` | services/truststore-drift-agent/main.go:744-766 | sequences strictly increase along an accepted history |
| `BaselineState.WhyRefused` | services/truststore-drift-agent/main.go:744-755 | after a history the verdict compares the baseline with the last entry: rolled back exactly below its sequence, equivocating exactly at it with other content, accepted again exactly when it is the last entry; every passed entry rolls back |
| `BaselineState.EqualDigestsShareHistory` | services/truststore-drift-agent/main.go:744-766 | agents that agree on the last digest have histories of which one is a suffix of the other |
| `BaselineState.ReleaseNumbers` | services/truststore-drift-agent/main.go:136-164 | release i of a next-from line has the i-th following sequence and its predecessor's digest |
| `BaselineState.LineGoesOn` | services/truststore-drift-agent/main.go:136-164 | a next-from line can be continued with any content exactly until its sequence numbers are used up |
| `BaselineState.OnlyNextReleaseAdvances` | services/truststore-drift-agent/main.go:744-766 | an agent on a release of a line re-accepts it, advances to the next one only, and says why it refuses any other |
| `BaselineState.StepInv` | services/truststore-drift-agent/main.go:711-767 | under the lock every step of every agent, crashes included, keeps the file equal to the last entry of a hash chain |
| `BaselineState.StateFileNeverTorn` | services/truststore-drift-agent/main.go:791-834 | at every moment of every run the file is absent or one complete state with a baseline's digest |
| `BaselineState.HighestNeverFalls` | services/truststore-drift-agent/main.go:711-767 | later moments of a run extend the published history and never lower the highest sequence |
| `BaselineState.EveryChangeIsATransaction` | services/truststore-drift-agent/main.go:744-766 | the file only ever changes as one transaction judged against its current content would change it |
| `BaselineState.RepliesHold` | services/truststore-drift-agent/main.go:744-767 | while a reply is pending it is true of the file: a refusal is Rollback, Equivocation or ChainMismatch and is the verdict on what is stored, acceptance means exactly this baseline is stored |
| `BaselineState.RepliesAreTransactions` | services/truststore-drift-agent/main.go:711-767 | every reply of every agent, and the file it leaves, is what one transaction run alone gives on the file the agent found under the lock and the same answers of the disk |
| `BaselineState.RecheckIsAccepted` | services/truststore-drift-agent/main.go:753-755 | an agent that checks the installed baseline once more is told it is accepted, and the file stays |
| `BaselineState.CorruptFileStays` | services/truststore-drift-agent/main.go:736-743 | in every run, locked or not, a state file that cannot be parsed is never overwritten and every reply on it is an error |
| `BaselineState.AcceptedMeansPublished` | services/truststore-drift-agent/main.go:711-767 | acceptance is answered only while the file holds exactly the accepted baseline |
| `BaselineState.LockIsLive` | services/truststore-drift-agent/state_lock_unix.go:11-41 | a waiting agent can take the lock or its holder can move: a crash never leaves it held |
| `BaselineState.WithoutLockHighestFalls` | services/truststore-drift-agent/state_lock_unix.go:11-41 | without the lock two agents and an atomic rename suffice to lower the highest sequence |
| `Cycle.Runner.RunOnce` | services/revocation-probe/internal/runner/runner.go:150-480 | an issued certificate gets exactly one successful experiment revoke or one compensating revoke; validity, completion, the failing phase, the filing of the preflight and the age limit are each characterised by what the cycle met |
| `Cycle.Runner.RunPreflight` | services/revocation-probe/internal/runner/runner.go:669-737 | passes exactly when every profile has a contract, no probe failed and every observation matches its BEFORE contract |
| `Cycle.Runner.ValidatePreflightAge` | services/revocation-probe/internal/runner/runner.go:739-752 | accepts exactly when the limit is positive and every probe started, within the limit of the revoke request |
| `Cycle.Runner.UpToRevoke` | services/revocation-probe/internal/runner/runner.go:187-339 | the revoke request is made exactly when every boundary before it held; otherwise cleanup stays armed |
| `Cycle.Runner.Judge` | services/revocation-probe/internal/runner/runner.go:451-479 | the trial is valid exactly without harness errors, complete exactly when every contract, and every enforced policy, is met |
| `Cycle.ValidTrialIsCausal` | services/revocation-probe/internal/runner/runner.go:299-345 | when the issuer reports no later request time than it was given, every BEFORE record of a valid trial met its contract within the limit |
| `Cycle.AgeLimitIffNoLaterRequest` | services/revocation-probe/internal/runner/runner.go:309-345 | the limit on recorded ages holds in every valid trial exactly when the issuer reports no later request time than it was given |
| `Polling.PollLoop` | services/revocation-probe/internal/runner/runner.go:933-1029 | stops at the first matching attempt within budget, else returns the last observation unmet with the error of that attempt if it was a harness error and none otherwise; attempts and timeouts stay within the configured limits |
| `Polling.PollOne` | services/revocation-probe/internal/runner/runner.go:933-1052 | adds the attempt time and a policy verdict that agrees with the decision and reason returned; an error is reported only beside an unmet harness error |
| `Polling.OutcomeIsDetermined` | services/revocation-probe/internal/runner/runner.go:933-1029 | the answers and clock readings a loop meets leave it one outcome: decision, reason, match, time, number of attempts and error |
| `Polling.PublicationMeaning` | services/revocation-probe/internal/runner/runner.go:863-881 | only rejections for revocation confirm publication, and the earliest one gives its time |
| `Polling.PublicationEvidence` | services/revocation-probe/internal/runner/runner.go:863-881 | the loop returns the earliest confirmation, or none exactly when nothing confirmed |
| `ObserveSafety.StepInv` | services/revocation-probe/internal/runner/runner.go:347-413 | every step of every goroutine keeps the gating, barrier and collection invariant |
| `ObserveTheorems.BarrierWrittenOnce` | services/revocation-probe/internal/runner/runner.go:788-819 | a resolved barrier never changes again |
| `ObserveTheorems.PublicationNeedsConfirmation` | services/revocation-probe/internal/runner/runner.go:354-372 | a publication barrier opens only after its oracles ended, with the earliest confirmation, and fails exactly when none of them confirmed |
| `ObserveTheorems.EvidenceBeforeProbe` | services/revocation-probe/internal/runner/runner.go:835-861 | a client's first probe starts after all its dependencies were satisfied; its stamps name exactly them and are no later than the attempt |
| `ObserveTheorems.FailedDependencyEndsClient` | services/revocation-probe/internal/runner/runner.go:835-861 | a client with a failed or unknown dependency never probes and ends in a harness error |
| `ObserveRecords.UnprobedHasCause` | services/revocation-probe/internal/runner/runner.go:756-861 | the converse: a member that ends in a harness error without an attempt has no contract or, as a client, no dependency list, a cancelled context, or a required boundary that is unknown, failed or opened without a time |
| `ObserveRecords.RecordsAreTrue` | services/revocation-probe/internal/runner/runner.go:756-931 | a finished record is the member's own, names its required boundaries, and stamps each with the time at which that boundary opened; an oracle's stamps the acknowledgement |
| `ObserveRecords.ProbeFollowsCauses` | services/revocation-probe/internal/runner/runner.go:347-399 | a client that probed did so after everything its manifest names had come about: the acknowledgement, the earliest confirmation among its finished oracles, the published staple |
| `ObserveTheorems.CollectedResults` | services/revocation-probe/internal/runner/runner.go:397-413 | a finished phase has exactly one result per enabled client and per enabled OCSP or CRL oracle, and no other |
| `ObserveTheorems.StapleWrittenBeforeOpen` | services/revocation-probe/internal/runner/runner.go:374-399 | the staple variables are written before their barrier opens and agree with it |
| `ObserveStaple.FetchedStapleIsPublished` | services/revocation-probe/internal/runner/runner.go:606-657 | once its barrier is resolved, the staple was published exactly when a fetch had brought it, at the times of fetch and hand-over; otherwise the deadline had passed or the context was cancelled |
| `ObserveStaple.FetchSettlesIt` | services/revocation-probe/internal/runner/runner.go:626-634 | a revoked staple that was fetched is never given up or fetched again |
| `ObserveTheorems.NoDeadlock` | services/revocation-probe/internal/runner/runner.go:347-413 | until the results are collected some goroutine can always take a step, cancelled or not |
| `ObserveTheorems.StepShrinks` | services/revocation-probe/internal/runner/runner.go:347-413 | every step lowers a measure of time left, attempts and goroutine progress |
| `ObserveTheorems.RunsEnd` | services/revocation-probe/internal/runner/runner.go:606-657 | no run is longer than the measure of its first state |
| `ObservePolling.PollsEndAsAlone` | services/revocation-probe/internal/runner/runner.go:933-1052 | in every interleaving a finished member was never polled, for one of the causes that allow this, or its turns are in order from the reading its deadline is counted from, with every wait passed, and its record is what the loop run alone promises over exactly these turns, error included |
| `ObservePolling.LoopAgrees` | services/revocation-probe/internal/runner/runner.go:933-1052 | whatever the loop run alone returns on those turns has the outcome of the interleaved poll |
| `ObservePolling.AttemptsArePaced` | services/revocation-probe/internal/runner/runner.go:933-1029 | between two attempts the interval passes unless the deadline comes first, and no sleep outlasts the interval or the deadline |
| `ObservePolling.TurnsCanBePlayed` | services/revocation-probe/internal/runner/runner.go:933-1052 | the turns of an interleaved poll are the beginning of a timed environment the loop can be run in |
| `ObservePolling.AttemptsBounded` | services/revocation-probe/internal/runner/runner.go:933-1029 | every ending keeps the attempts within a positive limit |
| `EndToEnd.ValidTrialGatesEveryClient` | services/revocation-probe/internal/runner/runner.go:150-480 | in a valid trial of a loaded and accepted scenario every enabled client has exactly one result, with exactly the evidence its manifest requires, satisfied before its first attempt |
| `EndToEnd.ValidTrialPublishedStaple` | services/revocation-probe/internal/runner/runner.go:374-449 | with stapling on a valid trial published the revoked staple before it collected its results |
| `EndToEnd.ResultsJudgedByDocument` | services/revocation-probe/internal/runner/runner.go:933-1052 | in every run of a loaded scenario a record that is no harness error met its expectation, and its policy, exactly when its decision and reason are named in the scenario's own document |
| `EndToEnd.PreflightJudgedByDocument` | services/revocation-probe/internal/runner/runner.go:669-737 | a preflight of a loaded scenario passes exactly when no probe failed and each saw the decision, for one of the reasons, that the document has before revocation |
| `Scenarios.ParseExpectation` | services/revocation-probe/internal/scenarios/registry.go:151-180 | accepts exactly a known decision with a non-empty list of different, known, compatible reasons, and sorts them |
| `Scenarios.Document.NormalizeManifest` | services/revocation-probe/internal/scenarios/registry.go:257-268 | sorts every reason and dependency list of the caller's document in place and touches nothing else |
| `Scenarios.CheckDependencyList` | services/revocation-probe/internal/scenarios/registry.go:310-337 | accepts exactly non-empty lists of different known boundaries, issuer acknowledgement only for status oracles, a published staple only with stapling on |
| `Scenarios.BuildManifest` | services/revocation-probe/internal/scenarios/registry.go:270-339 | accepts exactly the acceptable documents, builds the manifest they stand for, and leaves the caller's document normalized once its header is good |
| `Scenarios.BuiltAsWritten` | services/revocation-probe/internal/scenarios/registry.go:199-222 | field by field, for every profile: BEFORE, AFTER and policy halves have the decision the document spells there and a sorted permutation of its reasons, the policy has no BEFORE half, and the boundaries are the document's names in order |
| `Scenarios.ReasonsNameTheDecision` | services/revocation-probe/internal/scenarios/registry.go:151-197 | a good expectation that names a revocation asks for a rejection, a good status for acceptance, a harness failure for a harness error |
| `Scenarios.NormalKeepsMeaning` | services/revocation-probe/internal/scenarios/registry.go:257-339 | sorting a document's lists neither rescues nor breaks it and changes nothing it builds to |
| `JsonSpelling.EscapeFixed` | services/revocation-probe/internal/scenarios/registry.go:240-247 | an escaped string can be read back character by character up to its closing quote |
| `JsonSpelling.FlattenPrefix` | services/revocation-probe/internal/scenarios/registry.go:240-247 | a sequence of lexemes is that of one value only, also when more follows it |
| `JsonSpelling.JsonFixesValue` | services/revocation-probe/internal/scenarios/registry.go:240-247 | a compact JSON text, character by character, is the text of one value only |
| `ManifestText.Marshal` | services/revocation-probe/internal/scenarios/registry.go:240-247 | marshals a document to characters: struct members in declaration order, map members in key order, strings quoted and escaped |
| `ManifestText.MarshalledFixesDocument` | services/revocation-probe/internal/scenarios/registry.go:240-247 | equal JSON comes from equal documents only: keys, versions, lists and contracts can all be read off it |
| `Scenarios.CanonicalJsonIffSame` | services/revocation-probe/internal/scenarios/registry.go:240-268 | two documents have one canonical JSON, the text that is digested, exactly when they differ at most in list order |
| `Scenarios.SameCanonicalBuildsSame` | services/revocation-probe/internal/scenarios/registry.go:240-339 | one canonical JSON means one verdict, the same contracts and the same dependencies |
| `Scenarios.ListOrderIsIrrelevant` | services/revocation-probe/internal/scenarios/registry.go:257-339 | documents that differ only in list order are accepted together and build the same manifest |
| `ScenarioRegistry.ReasonExplainsOneDecision` | services/revocation-probe/internal/scenarios/registry.go:138-197 | a reason is valid exactly when it is compatible with some decision, and then with one only |
| `ScenarioRegistry.LoadDir` | services/revocation-probe/internal/scenarios/registry.go:343-369 | a directory loads exactly when it is non-empty, every document is acceptable and identifiers differ; the registry holds exactly their manifests |
| `ScenarioRegistry.LastOfNameIsKnown` | services/revocation-probe/internal/scenarios/registry.go:249-255 | every implementation is known by its name, and of several with one name the last |
| `ScenarioRegistry.FileOrderIsIrrelevant` | services/revocation-probe/internal/scenarios/registry.go:341-369 | the order of the files decides neither whether a directory loads nor what it loads to |
| `ScenarioRegistry.HasEnabledProducer` | services/revocation-probe/internal/scenarios/registry.go:444-455 | finds an enabled status oracle of the method under contract exactly when there is one |
| `ScenarioRegistry.ValidateEnabledProfiles` | services/revocation-probe/internal/scenarios/registry.go:417-442 | accepts exactly when every enabled profile has a contract in every scenario and every publication it waits for has a producer |
| `ScenarioRegistry.AcceptedScenarioIsWellGated` | services/revocation-probe/internal/scenarios/registry.go:310-442 | after both checks no enabled profile waits on a boundary nobody resolves in the observe phase, and an oracle waits for the acknowledgement alone |
| `EvidenceRuns.OnlyMine` | services/revocation-probe/internal/runner/evidence.go:184-215 | an operation touches only its own file, a free name, its replacement target or its temporary file |
| `EvidenceRuns.StepInv` | services/revocation-probe/internal/runner/evidence.go:184-307 | every operation, failure or crash of any writer keeps ownership, contents and gating intact |
| `EvidenceTheorems.FinalizeScriptGood` | services/revocation-probe/cmd/probe/main.go:210-261 | the order and gating of the finalize sinks archive an attestation only after the report whose bytes and hash it signs |
| `EvidenceTheorems.CallsAreGood` | services/revocation-probe/internal/runner/evidence.go:53-89 | every finalize call and every call that persists artifacts keeps to the rules whole runs rely on |
| `EvidenceTheorems.PublishedNeverChanges` | services/revocation-probe/internal/runner/evidence.go:184-215 | a file published by exclusive create holds its bytes in every later state |
| `EvidenceTheorems.PublishedOnce` | services/revocation-probe/internal/runner/evidence.go:184-215 | at most one job ever publishes a path |
| `EvidenceTheorems.OnlyTheCreatorTouches` | services/revocation-probe/internal/runner/evidence.go:190-214 | a durable file is changed or removed only by the unfinished job that created it, which then fails |
| `EvidenceTheorems.ReferencesStayTrue` | services/revocation-probe/internal/runner/evidence.go:317-353 | every returned reference keeps naming a file with the referenced hash |
| `EvidenceTheorems.AttestationHasItsReport` | services/revocation-probe/cmd/probe/main.go:227-250 | in every state a cycle directory with an attestation holds a published report, and the attestation of the same call reads back as an envelope of exactly its bytes and hash |
| `EvidenceTheorems.ArchivedAttestationStays` | services/revocation-probe/cmd/probe/main.go:227-250 | an archived attestation attests the report beside it for good, whatever later calls do: the payload read back is the report |
| `EvidenceTheorems.LatestIsWhole` | services/revocation-probe/internal/runner/evidence.go:268-307 | a latest copy or exported attestation is always one whole content some call passed |
| `EvidenceTheorems.ReportIsAlwaysPrinted` | services/revocation-probe/cmd/probe/main.go:257-260 | a finalize call that returns has tried to print the report, whatever failed before |
| `EvidenceTheorems.CallsEnd` | services/revocation-probe/internal/runner/evidence.go:184-307 | every operation brings its call closer to the end |
| `EvidenceOutcomes.OutcomesHaveCauses` | services/revocation-probe/internal/runner/evidence.go:184-307 | in every interleaving an item is skipped exactly when the one it needs did not succeed, succeeds exactly when no operation of it was refused and its name was free, then after every one of its operations, and leaves a file behind exactly when its removal was refused |
| `EvidenceOutcomes.RenamePublishes` | services/revocation-probe/internal/runner/evidence.go:303-307 | the rename of a latest copy puts its whole content in place and takes the temporary name away |
| `ArtifactNames.NameStaysInside` | services/revocation-probe/internal/runner/evidence.go:370-377 | a stored name has no parent reference and, exactly unless the given name is only slashes, is one proper path element |
| `ArtifactNames.StoredAsLastElement` | services/revocation-probe/internal/runner/evidence.go:370-377 | a name is stored as its last path element, whatever directories and trailing slashes surround it; an element without parent references is kept, a lone dot becomes an artifact |
| `ArtifactNames.FirstDotsReplaced` | services/revocation-probe/internal/runner/evidence.go:372 | the first parent reference of a name becomes an underscore, and so on in what follows |
| `EvidenceStore.PathTextFixesPath` | services/revocation-probe/internal/runner/evidence.go:53-89 | different cycles, profiles, phases or names that are proper path elements are never joined to the same path |
| `EvidenceStore.ParentNamesCollide` | services/revocation-probe/internal/runner/evidence.go:53-89 | names that are not proper elements are: a profile called like the parent directory shares files with another cycle |
| `EvidenceStore.Store.WriteNew` | services/revocation-probe/internal/runner/evidence.go:184-215 | succeeds only on a free name; a failure adds at most its own file and changes no other |
| `EvidenceStore.Store.PersistCommandEvidence` | services/revocation-probe/internal/runner/evidence.go:53-89 | colliding names stop it before it writes; success stores every record's bytes under its reference inside the profile's directory, orders the references by path and clears the raw records; existing files never change |
| `Finalize.FinalizeCycle` | services/revocation-probe/cmd/probe/main.go:210-261 | leaves the files of its script, prints once canonicalised, archives only an attestation of the report beside it, keeps every durable file, and reports no error exactly when every sink succeeded |
| `Finalize.FileSinks` | services/revocation-probe/cmd/probe/main.go:227-256 | the sinks that write files, with an envelope exactly when the payload could be signed; each is tried whatever became of the others |
| `EnvelopeText.EnvelopeReadsBack` | services/revocation-probe/internal/attestation/attestation.go:50-72 | an envelope is read back field by field, the payload byte for byte but for blanks around its object |
| `EnvelopeText.EnvelopeFixesFields` | services/revocation-probe/internal/attestation/attestation.go:50-72 | equal envelopes have equal statements, payloads and signatures, blanks included |
| `EnvelopeText.ObjectSpelled` | services/revocation-probe/internal/attestation/attestation.go:50-72 | the compact text of any JSON object, however its lexemes are spelled, ends exactly with its own last brace |
| `EvidenceRuns.SignedAttests` | services/revocation-probe/internal/attestation/attestation.go:78-116 | what is signed reads back as an envelope of the payload with a signed statement of the payload's hash, exactly when the payload has no blanks around its object |
| `EvidenceRuns.JsonSignerGood` | services/revocation-probe/internal/attestation/attestation.go:98-110 | statements written as JSON objects make a signer as all evidence theorems assume one |
| `EvidenceRuns.AttestationFixesPayload` | services/revocation-probe/internal/attestation/attestation.go:120-167 | an attestation attests one payload only, and one statement cannot attest two payloads |
| `Canary.StepInv` | services/revocation-probe/internal/canary/server.go:101-165 | every step of the accept loop, a handler or a closing caller keeps the registration and wait-group invariant |
| `Canary.CloseMeansShutDown` | services/revocation-probe/internal/canary/server.go:146-165 | when any caller's Close has returned, no connection is registered, every accepted one is closed and no handler lives |
| `Canary.NoHandlerAfterWait` | services/revocation-probe/internal/canary/server.go:150-163 | no handler is added once a caller waits for them |
| `Canary.PeersAreServed` | services/revocation-probe/internal/canary/server.go:101-133 | every peer that arrived has a handler or is about to get it, and each handler makes exactly its four operations, in every interleaving |
| `Canary.OpenUntilClose` | services/revocation-probe/internal/canary/server.go:101-165 | until some caller begins the shutdown the listener is open and only its own handler closes a connection |
| `Canary.ShutDownIsFinal` | services/revocation-probe/internal/canary/server.go:146-165 | after a Close returned, only further calls happen and they return at once |
| `Canary.CloseNeverStuck` | services/revocation-probe/internal/canary/server.go:146-165 | a called Close can always make the server take another step, without a new peer, another call, an accept error on the open listener or a peer giving up its handshake: the closing caller has closed, or will close, listener and connections |
| `Canary.StepsRunOut` | services/revocation-probe/internal/canary/server.go:101-165 | every step but a new peer or call uses up a measure, so a closing server comes to rest |
| `JsonText.ScanIffUniqueText` | services/revocation-probe/internal/attestation/attestation.go:228-290 | one pass consumes a text exactly when it is one JSON value in which no object repeats a name, with nothing after it |
| `JsonText.ScannedValue` | services/revocation-probe/internal/attestation/attestation.go:242-290 | what the pass consumes is the text of a value with different names at every depth |
| `JsonText.ValueScanned` | services/revocation-probe/internal/attestation/attestation.go:242-290 | the text of any such value is consumed, and nothing beyond it |
| `JsonScan.ScanJSONValue` | services/revocation-probe/internal/attestation/attestation.go:242-290 | the signer's recursive scan over the token decoder accepts exactly what the one-pass reading does and leaves the decoder right after it |
| `JsonScan.RejectDuplicateKeysInPayload` | services/revocation-probe/internal/attestation/attestation.go:228-240 | the signer accepts exactly one value with unique names |
| `JsonScan.ConsumeJSONValue` | services/truststore-drift-agent/main.go:347-389 | the agent's recursive scan accepts exactly what the one-pass reading does |
| `JsonScan.RejectDuplicateKeysInFile` | services/truststore-drift-agent/main.go:332-345 | the agent accepts exactly one value with unique keys: the same texts as the signer |
| `Sweep.RunTrial` | services/revocation-probe/internal/chaos/proxy.go:325-352 | one trial is recorded as it answered and counted alike, a failed or invalid one as a harness error |
| `Sweep.SweepDetailed` | services/revocation-probe/internal/chaos/proxy.go:299-358 | however it ends, a prefix of the delays was swept, the log holds its trials in order with what each trial answered, stats are as the log says for delays swept once, and the last order is no delay |
| `Sweep.StatsFaithful` | services/revocation-probe/internal/chaos/proxy.go:318-355 | a delay's stats are the recount of the log exactly when the delay was swept once |
| `Sweep.DistinctDelaysRecount` | services/revocation-probe/internal/chaos/proxy.go:299-358 | with different delays all stats are recounts, attempted is valid plus harness errors, and the rate lies between 0 and 1 |
| `Sweep.FailureRate` | services/revocation-probe/internal/chaos/proxy.go:270-275 | the rate times the valid trials is the number of failures; without valid trials it is zero |
| `Sweep.RateBetweenZeroAndOne` | services/revocation-probe/internal/chaos/proxy.go:270-275 | the failure rate of any recount lies between 0 and 1 |
| `Sweep.RepeatedDelayLosesTrials` | services/revocation-probe/internal/chaos/proxy.go:318-355 | sweeping a delay twice keeps only the second block's counts |

## Left out

- Cryptography and encoders: Ed25519, PEM, X.509, OCSP and YAML decoding, and the lexing of JSON
  characters; the scans start from lexemes. A payload the signer refuses is a finalize call without an envelope.
- OCSP and CRL freshness rules, subprocess profiles, TLS and HTTP exchanges, the fault proxy's handlers,
  Vault login: their answers are arguments.
- File modes, symbolic-link checks, directory creation and power-loss ordering of writes.
- Metrics, logging, command-line parsing, report formatting, CSV output, and the timeline's derived latencies.
- Argument and configuration checks of a cycle before its certificate is issued.
- Contents of error messages, except whose error a poll reports; which of several errors a range over a map meets
  first.
- Certificate fields other than the hashes, the subject and the expiry; serial numbers and key usages.
- The loaded state file's JSON: a file is absent, corrupt or one state.
- `SetOCSPStaple`: the certificate served to later handshakes is not part of the canary's state.
- ManifestText.Marshal: a list that is absent is not told apart from an empty one; documents with either are refused.
- Cycle.Runner.RunOnce: the results of the observe phase are an argument; `EndToEnd` ties them to a run of that phase.
