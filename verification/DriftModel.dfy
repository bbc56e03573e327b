/**
 Trust-store drift: the records, and what a scan means.

 A scan is described without budgets. An observed certificate is matched exactly
 when its hash is in the baseline; the remaining certificates of a key take that
 key's legacy (SPKI-only) entries in hash order; what is left over is drift.
 */
module DriftModel {
  import opened Ordering
  import opened Counting

  datatype Certificate =
    Certificate(certHash: string, spki: string, subject: string, policyHash: string, notAfter: int)

  datatype RootEntry = RootEntry(subject: string, spkiHash: string, certHash: string, policyHash: string)

  datatype EventKind =
    | RootPolicyChanged | RootCertChanged | UnknownRootAdded | RootChanged
    | RootExpired | RootExpiring | ExpectedRootRemoved

  datatype DriftEvent = DriftEvent(timestamp: int, kind: EventKind, subject: string, spkiHash: string)

  datatype ScanResult = ScanResult(
    unknownRoots: nat, missingRoots: nat, changedRoots: nat, expiredRoots: nat, expiringRoots: nat,
    baselineValid: bool, scanSuccess: bool, lastScan: int, events: seq<DriftEvent>)

  /** Thirty days, in the nanoseconds of Go's `time.Duration`. */
  const EXPIRY_WINDOW := 30 * 24 * 3600 * 1_000_000_000

  // ----- what the loader and the baseline parser establish

  /** SHA-256 identifies the certificate: equal hashes, equal certificates. */
  ghost predicate HashConsistent(certs: seq<Certificate>) {
    forall c, d :: c in certs && d in certs && c.certHash == d.certHash ==> c == d
  }

  /** The loader's guarantee: no two list positions hold the same certificate. */
  ghost predicate DistinctCertificates(certs: seq<Certificate>) {
    forall i, j :: 0 <= i < j < |certs| ==> certs[i].certHash != certs[j].certHash
  }

  ghost predicate DistinctCertHashes(roots: seq<RootEntry>) {
    forall i, j :: 0 <= i < j < |roots| && roots[i].certHash != "" ==> roots[i].certHash != roots[j].certHash
  }

  datatype Identity = ByCert(hash: string) | BySpki(key: string)

  /** The identity under which a baseline may list a root once. */
  function RootIdentity(r: RootEntry): Identity {
    if r.certHash != "" then ByCert(r.certHash) else BySpki(r.spkiHash)
  }

  ghost predicate ValidRoots(roots: seq<RootEntry>) {
    && (forall r :: r in roots ==> r.spkiHash != "" && r.subject != "")
    && (forall i, j :: 0 <= i < j < |roots| ==> RootIdentity(roots[i]) != RootIdentity(roots[j]))
  }

  // ----- the matching tiers

  ghost predicate Known(roots: seq<RootEntry>, hash: string) {
    hash != "" && exists r :: r in roots && r.certHash == hash
  }

  ghost predicate KeyKnown(roots: seq<RootEntry>, spki: string) {
    exists r :: r in roots && r.spkiHash == spki
  }

  ghost predicate SubjectKnown(roots: seq<RootEntry>, subject: string) {
    exists r :: r in roots && r.subject == subject
  }

  ghost predicate Observed(certs: seq<Certificate>, hash: string) {
    exists c :: c in certs && c.certHash == hash
  }

  /** The legacy entries of a key. */
  ghost function LegacyFor(spki: string): RootEntry -> bool {
    (r: RootEntry) => r.certHash == "" && r.spkiHash == spki
  }

  /** The certificate entries of a key that no observed certificate matches exactly. */
  ghost function LostFor(certs: seq<Certificate>, spki: string): RootEntry -> bool {
    (r: RootEntry) => r.certHash != "" && !Observed(certs, r.certHash) && r.spkiHash == spki
  }

  /** The observed certificates of a key that are not in the baseline by hash. */
  ghost function NonExact(roots: seq<RootEntry>, certs: seq<Certificate>, spki: string): set<Certificate> {
    set c | c in certs && !Known(roots, c.certHash) && c.spki == spki
  }

  ghost function Before(group: set<Certificate>, c: Certificate): set<Certificate> {
    set d | d in group && Less(d.certHash, c.certHash)
  }

  /** Legacy entries of a key go to its first non-exact certificates in hash order. */
  ghost predicate TakesLegacy(roots: seq<RootEntry>, certs: seq<Certificate>, c: Certificate) {
    |Before(NonExact(roots, certs, c.spki), c)| < Count(roots, LegacyFor(c.spki))
  }

  ghost predicate ExactPolicyDiffers(roots: seq<RootEntry>, c: Certificate) {
    exists r :: r in roots && r.certHash == c.certHash && r.policyHash != "" && r.policyHash != c.policyHash
  }

  ghost predicate SiblingPolicyDiffers(roots: seq<RootEntry>, c: Certificate) {
    exists r :: r in roots && r.spkiHash == c.spki && r.policyHash != "" && r.policyHash != c.policyHash
  }

  datatype Class = Exact(policyChanged: bool) | Legacy | Changed(policyChanged: bool) | Unknown(sameSubject: bool)

  ghost function Classify(roots: seq<RootEntry>, certs: seq<Certificate>, c: Certificate): Class {
    if Known(roots, c.certHash) then Exact(ExactPolicyDiffers(roots, c))
    else if !KeyKnown(roots, c.spki) then Unknown(SubjectKnown(roots, c.subject))
    else if TakesLegacy(roots, certs, c) then Legacy
    else Changed(SiblingPolicyDiffers(roots, c))
  }

  ghost predicate CountsAsChanged(k: Class) {
    k.Changed? || (k.Exact? && k.policyChanged) || (k.Unknown? && k.sameSubject)
  }

  /** The `j`-th baseline entry has nothing left to match: its key ran out of certificates. */
  ghost predicate IsMissing(roots: seq<RootEntry>, certs: seq<Certificate>, j: nat)
    requires j < |roots|
  {
    var r := roots[j];
    var free := |NonExact(roots, certs, r.spkiHash)|;
    if r.certHash == "" then
      Count(roots[..j], LegacyFor(r.spkiHash)) >= free
    else
      && !Observed(certs, r.certHash)
      && Count(roots[..j], LostFor(certs, r.spkiHash)) >= free - Count(roots, LegacyFor(r.spkiHash))
  }

  // ----- the report

  ghost function ClassEvents(k: Class, c: Certificate, now: int): seq<DriftEvent> {
    match k
    case Exact(policy) =>
      if policy then [DriftEvent(now, RootPolicyChanged, c.subject, c.spki)] else []
    case Legacy => []
    case Changed(policy) =>
      [DriftEvent(now, if policy then RootPolicyChanged else RootCertChanged, c.subject, c.spki)]
    case Unknown(same) =>
      [DriftEvent(now, if same then RootChanged else UnknownRootAdded, c.subject, c.spki)]
  }

  predicate Expired(c: Certificate, now: int) { now > c.notAfter }

  predicate Expiring(c: Certificate, now: int) { !Expired(c, now) && c.notAfter < now + EXPIRY_WINDOW }

  ghost function ExpiryEvents(c: Certificate, now: int): seq<DriftEvent> {
    if Expired(c, now) then [DriftEvent(now, RootExpired, c.subject, c.spki)]
    else if Expiring(c, now) then [DriftEvent(now, RootExpiring, c.subject, c.spki)]
    else []
  }

  ghost function EventsOf(roots: seq<RootEntry>, certs: seq<Certificate>, c: Certificate, now: int): seq<DriftEvent> {
    ClassEvents(Classify(roots, certs, c), c, now) + ExpiryEvents(c, now)
  }

  ghost function EventsIn(roots: seq<RootEntry>, certs: seq<Certificate>, now: int): Certificate -> seq<DriftEvent> {
    (c: Certificate) => EventsOf(roots, certs, c, now)
  }

  ghost function RemovalEvents(roots: seq<RootEntry>, certs: seq<Certificate>, n: nat, now: int): seq<DriftEvent>
    requires n <= |roots|
  {
    if n == 0 then []
    else
      RemovalEvents(roots, certs, n - 1, now)
      + if IsMissing(roots, certs, n - 1)
        then [DriftEvent(now, ExpectedRootRemoved, roots[n - 1].subject, roots[n - 1].spkiHash)] else []
  }

  /** How many of the first `n` baseline entries with a key satisfying `key` are missing. */
  ghost function MissingAmong(roots: seq<RootEntry>, certs: seq<Certificate>, n: nat, key: string -> bool): nat
    requires n <= |roots|
  {
    if n == 0 then 0
    else
      MissingAmong(roots, certs, n - 1, key)
      + if IsMissing(roots, certs, n - 1) && key(roots[n - 1].spkiHash) then 1 else 0
  }

  ghost function UnknownIn(roots: seq<RootEntry>, certs: seq<Certificate>): Certificate -> bool {
    (c: Certificate) => Classify(roots, certs, c).Unknown?
  }

  ghost function ChangedIn(roots: seq<RootEntry>, certs: seq<Certificate>): Certificate -> bool {
    (c: Certificate) => CountsAsChanged(Classify(roots, certs, c))
  }

  ghost function ExpiredAt(now: int): Certificate -> bool { (c: Certificate) => Expired(c, now) }

  ghost function ExpiringAt(now: int): Certificate -> bool { (c: Certificate) => Expiring(c, now) }

  ghost function AnyKey(): string -> bool { (s: string) => true }

  /** What a scan of `certs` against the baseline entries `roots` reports. */
  ghost function Evaluation(roots: seq<RootEntry>, certs: seq<Certificate>, now: int): ScanResult {
    ScanResult(
      Count(certs, UnknownIn(roots, certs)),
      MissingAmong(roots, certs, |roots|, AnyKey()),
      Count(certs, ChangedIn(roots, certs)),
      Count(certs, ExpiredAt(now)),
      Count(certs, ExpiringAt(now)),
      true, true, now,
      Gather(certs, EventsIn(roots, certs, now)) + RemovalEvents(roots, certs, |roots|, now))
  }
}
