/**
 The drift agent's loops over maps and budgets, as `evaluateTrustStore` and its
 helpers run them, proved to report exactly `DriftModel.Evaluation`.
 */
module DriftAgent {
  import opened Basics
  import opened Ordering
  import opened Counting
  import opened DriftModel

  datatype BaselineError = EmptySpki | EmptySubject | DuplicateIdentity(identity: Identity)
  datatype Outcome = Pass | Fail(error: BaselineError)

  /** Shared by the baseline producer and the strict parser. */
  method ValidateBaseline(roots: seq<RootEntry>) returns (r: Outcome)
    ensures r.Pass? <==> ValidRoots(roots)
  {
    var seen: set<Identity> := {};
    for i := 0 to |roots|
      invariant forall r :: r in roots[..i] ==> r.spkiHash != "" && r.subject != ""
      invariant forall k :: k in seen <==> exists j :: 0 <= j < i && RootIdentity(roots[j]) == k
      invariant forall j, k :: 0 <= j < k < i ==> RootIdentity(roots[j]) != RootIdentity(roots[k])
    {
      var root := roots[i];
      if root.spkiHash == "" { return Fail(EmptySpki); }
      if root.subject == "" { return Fail(EmptySubject); }
      var identity := RootIdentity(root);
      if identity in seen { return Fail(DuplicateIdentity(identity)); }
      seen := seen + {identity};
      assert roots[..i + 1] == roots[..i] + [root];
    }
    assert roots[..|roots|] == roots;
    return Pass;
  }

  /** Keeps the first of byte-identical certificates; distinct certificates that share a key all stay. */
  method DeduplicateCertificates(certs: seq<Certificate>) returns (unique: seq<Certificate>)
    requires HashConsistent(certs)
    ensures DistinctCertificates(unique) && HashConsistent(unique)
    ensures forall c :: c in unique <==> c in certs
  {
    unique := [];
    var seen: set<string> := {};
    for i := 0 to |certs|
      invariant forall h :: h in seen <==> Observed(unique, h)
      invariant forall c :: c in unique <==> c in certs[..i]
      invariant DistinctCertificates(unique)
    {
      var cert := certs[i];
      assert certs[..i + 1] == certs[..i] + [cert];
      if cert.certHash in seen {
        continue;
      }
      assert forall j :: 0 <= j < |unique| ==> unique[j] in unique && unique[j].certHash != cert.certHash;
      seen := seen + {cert.certHash};
      unique := unique + [cert];
      assert cert in unique;
      assert forall h :: Observed(unique[..|unique| - 1], h) ==> Observed(unique, h);
    }
    assert certs[..|certs|] == certs;
  }

  /** A Go map lookup: absent keys read as zero. */
  function Get(m: map<string, int>, k: string): int { if k in m then m[k] else 0 }

  ghost predicate HashIndex(roots: seq<RootEntry>, byHash: map<string, RootEntry>) {
    && (forall h :: h in byHash <==> Known(roots, h))
    && (forall h :: h in byHash ==> byHash[h] in roots && byHash[h].certHash == h)
  }

  ghost predicate KeyIndex(roots: seq<RootEntry>, bySpki: map<string, seq<RootEntry>>) {
    && (forall s :: s in bySpki <==> KeyKnown(roots, s))
    && (forall s, r :: s in bySpki ==> (r in bySpki[s] <==> r in roots && r.spkiHash == s))
  }

  ghost predicate SubjectIndex(roots: seq<RootEntry>, bySubject: map<string, RootEntry>) {
    forall t :: t in bySubject <==> SubjectKnown(roots, t)
  }

  method IndexBaseline(roots: seq<RootEntry>)
    returns (byHash: map<string, RootEntry>, bySpki: map<string, seq<RootEntry>>, bySubject: map<string, RootEntry>)
    ensures HashIndex(roots, byHash) && KeyIndex(roots, bySpki) && SubjectIndex(roots, bySubject)
  {
    byHash, bySpki, bySubject := map[], map[], map[];
    for i := 0 to |roots|
      invariant HashIndex(roots[..i], byHash) && KeyIndex(roots[..i], bySpki) && SubjectIndex(roots[..i], bySubject)
    {
      var root := roots[i];
      var prefix, next := roots[..i], roots[..i + 1];
      assert next == prefix + [root];
      assert forall r :: r in next <==> r in prefix || r == root;
      if root.certHash != "" {
        byHash := byHash[root.certHash := root];
      }
      bySpki := bySpki[root.spkiHash := (if root.spkiHash in bySpki then bySpki[root.spkiHash] else []) + [root]];
      bySubject := bySubject[root.subject := root];
    }
    assert roots[..|roots|] == roots;
  }

  ghost predicate KeyObserved(certs: seq<Certificate>, spki: string) {
    exists c :: c in certs && c.spki == spki
  }

  ghost function HashesOf(certs: seq<Certificate>, spki: string): set<string> {
    set c | c in certs && c.spki == spki :: c.certHash
  }

  ghost predicate ObservedIndex(certs: seq<Certificate>, byHash: map<string, Certificate>) {
    && (forall h :: h in byHash <==> Observed(certs, h))
    && (forall h :: h in byHash ==> byHash[h] in certs && byHash[h].certHash == h)
  }

  ghost predicate GroupIndex(certs: seq<Certificate>, bySpki: map<string, set<string>>) {
    && (forall s :: s in bySpki <==> KeyObserved(certs, s))
    && (forall s :: s in bySpki ==> bySpki[s] == HashesOf(certs, s))
  }

  method IndexObserved(certs: seq<Certificate>)
    returns (byHash: map<string, Certificate>, bySpki: map<string, set<string>>)
    ensures ObservedIndex(certs, byHash) && GroupIndex(certs, bySpki)
  {
    byHash, bySpki := map[], map[];
    for i := 0 to |certs|
      invariant ObservedIndex(certs[..i], byHash) && GroupIndex(certs[..i], bySpki)
    {
      var cert := certs[i];
      var prefix, next := certs[..i], certs[..i + 1];
      assert next == prefix + [cert];
      assert forall c :: c in next <==> c in prefix || c == cert;
      byHash := byHash[cert.certHash := cert];
      var group := (if cert.spki in bySpki then bySpki[cert.spki] else {}) + {cert.certHash};
      assert group == HashesOf(next, cert.spki);
      assert forall s :: s != cert.spki ==> HashesOf(next, s) == HashesOf(prefix, s);
      bySpki := bySpki[cert.spki := group];
    }
    assert certs[..|certs|] == certs;
  }

  method CountLegacy(roots: seq<RootEntry>) returns (budget: map<string, int>)
    ensures forall s :: Get(budget, s) == Count(roots, LegacyFor(s))
  {
    budget := map[];
    for i := 0 to |roots|
      invariant forall s :: Get(budget, s) == Count(roots[..i], LegacyFor(s))
    {
      var root := roots[i];
      assert roots[..i + 1][..i] == roots[..i];
      if root.certHash == "" {
        budget := budget[root.spkiHash := Get(budget, root.spkiHash) + 1];
      }
    }
    assert roots[..|roots|] == roots;
  }

  /** The non-exact certificates of a key whose hashes come first in `hashes`. */
  ghost function Taken(roots: seq<RootEntry>, certs: seq<Certificate>, spki: string,
                       hashes: seq<string>): set<Certificate>
  {
    set c | c in NonExact(roots, certs, spki) && c.certHash in hashes
  }

  /** One turn of the assignment loop: who has been served so far, and that hash order decides. */
  lemma TakenNext(roots: seq<RootEntry>, certs: seq<Certificate>, hashes: seq<string>, i: nat, c: Certificate)
    requires HashConsistent(certs) && i < |hashes|
    requires forall j, k :: 0 <= j < k < |hashes| ==> Less(hashes[j], hashes[k])
    requires forall h :: h in hashes <==> Observed(certs, h)
    requires c in certs && c.certHash == hashes[i]
    ensures forall s ::
      Taken(roots, certs, s, hashes[..i + 1]) == Taken(roots, certs, s, hashes[..i])
        + if s == c.spki && !Known(roots, c.certHash) then {c} else {}
    ensures c !in Taken(roots, certs, c.spki, hashes[..i])
    ensures Taken(roots, certs, c.spki, hashes[..i]) == Before(NonExact(roots, certs, c.spki), c)
  {
    assert hashes[..i + 1] == hashes[..i] + [hashes[i]];
    assert forall d :: d in certs && d.certHash == hashes[i] ==> d == c;
    forall j | 0 <= j < i ensures hashes[j] != hashes[i] {
      LessIrreflexive(hashes[i]);
    }
    forall d | d in NonExact(roots, certs, c.spki)
      ensures d.certHash in hashes[..i] <==> Less(d.certHash, c.certHash)
    {
      assert Observed(certs, d.certHash);
      var k :| 0 <= k < |hashes| && hashes[k] == d.certHash;
      LessTotal(hashes[k], hashes[i]);
      if k < i { assert hashes[..i][k] == d.certHash; }
    }
  }

  /** What the legacy budget of a key should be once the certificates hashed in `hashes` were served. */
  ghost function Left(roots: seq<RootEntry>, certs: seq<Certificate>, hashes: seq<string>, s: string): nat {
    Max0(Count(roots, LegacyFor(s)) - |Taken(roots, certs, s, hashes)|)
  }

  ghost predicate BudgetLeft(roots: seq<RootEntry>, certs: seq<Certificate>, budget: map<string, int>,
                             hashes: seq<string>)
  {
    forall s :: Get(budget, s) == Left(roots, certs, hashes, s)
  }

  /** Among certificates whose hashes are in `hashes`, `takers` marks those that take a legacy entry. */
  ghost predicate MarksTakers(roots: seq<RootEntry>, certs: seq<Certificate>, takers: map<string, bool>,
                              hashes: seq<string>)
  {
    && (forall h :: h in takers ==> takers[h] && h in hashes)
    && (forall c :: c in certs && !Known(roots, c.certHash) && c.certHash in hashes ==>
          (c.certHash in takers <==> TakesLegacy(roots, certs, c)))
  }

  /** The marks the classification consults: exactly the certificates that take a legacy entry. */
  ghost predicate LegacyMarks(roots: seq<RootEntry>, certs: seq<Certificate>, marks: map<string, bool>) {
    forall c :: c in certs && !Known(roots, c.certHash) ==>
      ((c.certHash in marks && marks[c.certHash]) <==> TakesLegacy(roots, certs, c))
  }

  method AssignLegacy(roots: seq<RootEntry>, certs: seq<Certificate>,
                      knownByCertHash: map<string, RootEntry>, observedByCertHash: map<string, Certificate>)
    returns (legacyCertificates: map<string, bool>)
    requires HashConsistent(certs)
    requires HashIndex(roots, knownByCertHash) && ObservedIndex(certs, observedByCertHash)
    ensures LegacyMarks(roots, certs, legacyCertificates)
  {
    var legacyBudget := CountLegacy(roots);
    var observedHashes := SortedKeys(observedByCertHash.Keys);
    legacyCertificates := map[];
    for i := 0 to |observedHashes|
      invariant BudgetLeft(roots, certs, legacyBudget, observedHashes[..i])
      invariant MarksTakers(roots, certs, legacyCertificates, observedHashes[..i])
    {
      var hash := observedHashes[i];
      var cert := observedByCertHash[hash];
      BudgetStep(roots, certs, observedHashes, i, cert, legacyBudget);
      MarkStep(roots, certs, observedHashes, i, cert, legacyCertificates);
      if hash in knownByCertHash {
        continue;
      }
      if Get(legacyBudget, cert.spki) > 0 {
        legacyCertificates := legacyCertificates[hash := true];
        legacyBudget := legacyBudget[cert.spki := Get(legacyBudget, cert.spki) - 1];
      }
    }
    assert observedHashes[..|observedHashes|] == observedHashes;
    assert forall c :: c in certs ==> Observed(certs, c.certHash);
  }

  lemma LeftNext(roots: seq<RootEntry>, certs: seq<Certificate>, hashes: seq<string>, i: nat, c: Certificate, s: string)
    requires HashConsistent(certs) && i < |hashes|
    requires forall j, k :: 0 <= j < k < |hashes| ==> Less(hashes[j], hashes[k])
    requires forall h :: h in hashes <==> Observed(certs, h)
    requires c in certs && c.certHash == hashes[i]
    ensures Left(roots, certs, hashes[..i + 1], s) == var before := Left(roots, certs, hashes[..i], s);
      if s == c.spki && !Known(roots, c.certHash) && before > 0 then before - 1 else before
    ensures s == c.spki && !Known(roots, c.certHash) ==>
      (Left(roots, certs, hashes[..i], s) > 0 <==> TakesLegacy(roots, certs, c))
  {
    TakenNext(roots, certs, hashes, i, c);
    TakenSize(roots, certs, hashes, i, c, s);
  }

  lemma TakenSize(roots: seq<RootEntry>, certs: seq<Certificate>, hashes: seq<string>, i: nat, c: Certificate,
                  s: string)
    requires i < |hashes| && c !in Taken(roots, certs, c.spki, hashes[..i])
    requires Taken(roots, certs, s, hashes[..i + 1]) == Taken(roots, certs, s, hashes[..i])
      + if s == c.spki && !Known(roots, c.certHash) then {c} else {}
    ensures |Taken(roots, certs, s, hashes[..i + 1])| == |Taken(roots, certs, s, hashes[..i])|
      + if s == c.spki && !Known(roots, c.certHash) then 1 else 0
  {}

  lemma BudgetStep(roots: seq<RootEntry>, certs: seq<Certificate>, hashes: seq<string>, i: nat, c: Certificate,
                   budget: map<string, int>)
    requires HashConsistent(certs) && i < |hashes|
    requires forall j, k :: 0 <= j < k < |hashes| ==> Less(hashes[j], hashes[k])
    requires forall h :: h in hashes <==> Observed(certs, h)
    requires c in certs && c.certHash == hashes[i]
    requires BudgetLeft(roots, certs, budget, hashes[..i])
    ensures var left := Get(budget, c.spki);
      BudgetLeft(roots, certs, if !Known(roots, c.certHash) && left > 0 then budget[c.spki := left - 1] else budget,
                 hashes[..i + 1])
    ensures !Known(roots, c.certHash) ==> (Get(budget, c.spki) > 0 <==> TakesLegacy(roots, certs, c))
  {
    var left := Get(budget, c.spki);
    var budget' := if !Known(roots, c.certHash) && left > 0 then budget[c.spki := left - 1] else budget;
    forall s ensures Get(budget', s) == Left(roots, certs, hashes[..i + 1], s) {
      assert Get(budget, s) == Left(roots, certs, hashes[..i], s);
      LeftNext(roots, certs, hashes, i, c, s);
    }
    LeftNext(roots, certs, hashes, i, c, c.spki);
    assert Get(budget, c.spki) == Left(roots, certs, hashes[..i], c.spki);
  }

  lemma MarkStep(roots: seq<RootEntry>, certs: seq<Certificate>, hashes: seq<string>, i: nat, c: Certificate,
                 takers: map<string, bool>)
    requires HashConsistent(certs) && i < |hashes|
    requires forall j, k :: 0 <= j < k < |hashes| ==> Less(hashes[j], hashes[k])
    requires c in certs && c.certHash == hashes[i]
    requires MarksTakers(roots, certs, takers, hashes[..i])
    ensures MarksTakers(roots, certs,
      if !Known(roots, c.certHash) && TakesLegacy(roots, certs, c) then takers[hashes[i] := true] else takers,
      hashes[..i + 1])
  {
    NotEarlier(hashes, i);
    assert hashes[..i + 1] == hashes[..i] + [hashes[i]];
    assert forall d :: d in certs && d.certHash == hashes[i] ==> d == c;
  }

  lemma NotEarlier(hashes: seq<string>, i: nat)
    requires i < |hashes|
    requires forall j, k :: 0 <= j < k < |hashes| ==> Less(hashes[j], hashes[k])
    ensures hashes[i] !in hashes[..i]
  {
    LessIrreflexive(hashes[i]);
  }

  /** The three-way branch on one observed certificate: its counter increments and its event. */
  method ClassifyOne(roots: seq<RootEntry>, certs: seq<Certificate>, c: Certificate, now: int,
                     knownByCertHash: map<string, RootEntry>, knownBySPKI: map<string, seq<RootEntry>>,
                     knownBySubject: map<string, RootEntry>, legacyCertificates: map<string, bool>)
    returns (unknown: nat, changed: nat, events: seq<DriftEvent>)
    requires c in certs
    requires DistinctCertHashes(roots)
    requires HashIndex(roots, knownByCertHash) && KeyIndex(roots, knownBySPKI) && SubjectIndex(roots, knownBySubject)
    requires LegacyMarks(roots, certs, legacyCertificates)
    ensures unknown == if Classify(roots, certs, c).Unknown? then 1 else 0
    ensures changed == if CountsAsChanged(Classify(roots, certs, c)) then 1 else 0
    ensures events == ClassEvents(Classify(roots, certs, c), c, now)
  {
    unknown, changed, events := 0, 0, [];
    if c.certHash in knownByCertHash {
      var known := knownByCertHash[c.certHash];
      OnlyEntry(roots, known);
      if known.policyHash != "" && known.policyHash != c.policyHash {
        changed := 1;
        events := [DriftEvent(now, RootPolicyChanged, c.subject, c.spki)];
      }
    } else if c.spki in knownBySPKI && |knownBySPKI[c.spki]| > 0 {
      if !(c.certHash in legacyCertificates && legacyCertificates[c.certHash]) {
        var differs := PolicyDiffers(knownBySPKI[c.spki], c.policyHash);
        changed := 1;
        events := [DriftEvent(now, if differs then RootPolicyChanged else RootCertChanged, c.subject, c.spki)];
      }
    } else {
      assert !KeyKnown(roots, c.spki);
      unknown := 1;
      var kind := UnknownRootAdded;
      if c.subject in knownBySubject {
        changed := 1;
        kind := RootChanged;
      }
      events := [DriftEvent(now, kind, c.subject, c.spki)];
    }
  }

  /** The expiry branch on one observed certificate. */
  method CheckExpiry(c: Certificate, now: int) returns (expired: nat, expiring: nat, events: seq<DriftEvent>)
    ensures expired == (if ExpiredAt(now)(c) then 1 else 0) && expiring == (if ExpiringAt(now)(c) then 1 else 0)
    ensures events == ExpiryEvents(c, now)
  {
    expired, expiring, events := 0, 0, [];
    if now > c.notAfter {
      expired := 1;
      events := [DriftEvent(now, RootExpired, c.subject, c.spki)];
    } else if c.notAfter < now + EXPIRY_WINDOW {
      expiring := 1;
      events := [DriftEvent(now, RootExpiring, c.subject, c.spki)];
    }
  }

  lemma OneMoreClassified(roots: seq<RootEntry>, certs: seq<Certificate>, now: int, i: nat)
    requires i < |certs|
    ensures var c, before, after := certs[i], certs[..i], certs[..i + 1];
      && Count(after, UnknownIn(roots, certs))
         == Count(before, UnknownIn(roots, certs)) + (if Classify(roots, certs, c).Unknown? then 1 else 0)
      && Count(after, ChangedIn(roots, certs))
         == Count(before, ChangedIn(roots, certs)) + (if CountsAsChanged(Classify(roots, certs, c)) then 1 else 0)
      && Count(after, ExpiredAt(now)) == Count(before, ExpiredAt(now)) + (if ExpiredAt(now)(c) then 1 else 0)
      && Count(after, ExpiringAt(now)) == Count(before, ExpiringAt(now)) + (if ExpiringAt(now)(c) then 1 else 0)
      && Gather(after, EventsIn(roots, certs, now))
         == Gather(before, EventsIn(roots, certs, now)) + EventsOf(roots, certs, c, now)
  {
    assert certs[..i + 1][..i] == certs[..i];
  }

  method ClassifyCertificates(roots: seq<RootEntry>, certs: seq<Certificate>, now: int,
                              knownByCertHash: map<string, RootEntry>, knownBySPKI: map<string, seq<RootEntry>>,
                              knownBySubject: map<string, RootEntry>, legacyCertificates: map<string, bool>)
    returns (unknown: nat, changed: nat, expired: nat, expiring: nat, events: seq<DriftEvent>)
    requires DistinctCertHashes(roots)
    requires HashIndex(roots, knownByCertHash) && KeyIndex(roots, knownBySPKI) && SubjectIndex(roots, knownBySubject)
    requires LegacyMarks(roots, certs, legacyCertificates)
    ensures unknown == Count(certs, UnknownIn(roots, certs)) && changed == Count(certs, ChangedIn(roots, certs))
    ensures expired == Count(certs, ExpiredAt(now)) && expiring == Count(certs, ExpiringAt(now))
    ensures events == Gather(certs, EventsIn(roots, certs, now))
  {
    unknown, changed, expired, expiring, events := 0, 0, 0, 0, [];
    for i := 0 to |certs|
      invariant unknown == Count(certs[..i], UnknownIn(roots, certs))
      invariant changed == Count(certs[..i], ChangedIn(roots, certs))
      invariant expired == Count(certs[..i], ExpiredAt(now))
      invariant expiring == Count(certs[..i], ExpiringAt(now))
      invariant events == Gather(certs[..i], EventsIn(roots, certs, now))
    {
      var c := certs[i];
      var unknownHere, changedHere, drift :=
        ClassifyOne(roots, certs, c, now, knownByCertHash, knownBySPKI, knownBySubject, legacyCertificates);
      var expiredHere, expiringHere, expiry := CheckExpiry(c, now);
      OneMoreClassified(roots, certs, now, i);
      unknown, changed := unknown + unknownHere, changed + changedHere;
      expired, expiring := expired + expiredHere, expiring + expiringHere;
      events := events + (drift + expiry);
    }
    assert certs[..|certs|] == certs;
  }

  lemma OnlyEntry(roots: seq<RootEntry>, known: RootEntry)
    requires DistinctCertHashes(roots) && known in roots && known.certHash != ""
    ensures forall r :: r in roots && r.certHash == known.certHash ==> r == known
  {
    var i :| 0 <= i < |roots| && roots[i] == known;
    forall r | r in roots && r.certHash == known.certHash ensures r == known {
      var j :| 0 <= j < |roots| && roots[j] == r;
      if i != j { assert roots[i].certHash == roots[j].certHash; }
    }
  }

  method PolicyDiffers(candidates: seq<RootEntry>, policyHash: string) returns (differs: bool)
    ensures differs <==> exists r :: r in candidates && r.policyHash != "" && r.policyHash != policyHash
  {
    for i := 0 to |candidates|
      invariant forall r :: r in candidates[..i] ==> r.policyHash == "" || r.policyHash == policyHash
    {
      var known := candidates[i];
      if known.policyHash != "" && known.policyHash != policyHash {
        return true;
      }
      assert candidates[..i + 1] == candidates[..i] + [known];
    }
    assert candidates[..|candidates|] == candidates;
    return false;
  }

  lemma {:induction false} HashImageSize(group: set<Certificate>, hashes: set<string>)
    requires forall c, d :: c in group && d in group && c.certHash == d.certHash ==> c == d
    requires hashes == set c | c in group :: c.certHash
    ensures |hashes| == |group|
    decreases |group|
  {
    if group == {} {
      assert hashes == {};
    } else {
      var c :| c in group;
      HashImageSize(group - {c}, hashes - {c.certHash});
    }
  }

  ghost function ExactOf(roots: seq<RootEntry>, hashes: set<string>): set<string> {
    set h | h in hashes && Known(roots, h)
  }

  lemma ExactStep(roots: seq<RootEntry>, hashes: set<string>, rest: set<string>, h: string)
    requires h in rest && rest <= hashes
    ensures |ExactOf(roots, hashes - (rest - {h}))|
            == |ExactOf(roots, hashes - rest)| + if Known(roots, h) then 1 else 0
  {
    assert ExactOf(roots, hashes - (rest - {h})) == ExactOf(roots, hashes - rest) + if Known(roots, h) then {h} else {};
  }

  method CountExact(roots: seq<RootEntry>, hashes: set<string>, knownByCertHash: map<string, RootEntry>)
    returns (exact: nat)
    requires HashIndex(roots, knownByCertHash)
    ensures exact == |ExactOf(roots, hashes)|
  {
    exact := 0;
    var rest := hashes;
    while rest != {}
      invariant rest <= hashes
      invariant exact == |ExactOf(roots, hashes - rest)|
      decreases |rest|
    {
      var h :| h in rest;
      ExactStep(roots, hashes, rest, h);
      rest := rest - {h};
      if h in knownByCertHash {
        exact := exact + 1;
      }
    }
    assert hashes - rest == hashes;
  }

  lemma NonExactSize(roots: seq<RootEntry>, certs: seq<Certificate>, spki: string)
    requires HashConsistent(certs)
    ensures var hashes := HashesOf(certs, spki); |hashes| - |ExactOf(roots, hashes)| == |NonExact(roots, certs, spki)|
  {
    var hashes := HashesOf(certs, spki);
    var exact := ExactOf(roots, hashes);
    assert hashes == exact + (hashes - exact);
    HashImageSize(NonExact(roots, certs, spki), hashes - exact);
  }

  method SubstitutionBudget(roots: seq<RootEntry>, certs: seq<Certificate>,
                            knownByCertHash: map<string, RootEntry>, observedBySPKI: map<string, set<string>>)
    returns (budget: map<string, int>)
    requires HashConsistent(certs)
    requires HashIndex(roots, knownByCertHash) && GroupIndex(certs, observedBySPKI)
    ensures forall s :: Get(budget, s) == |NonExact(roots, certs, s)|
  {
    budget := map[];
    var rest := observedBySPKI.Keys;
    while rest != {}
      invariant rest <= observedBySPKI.Keys
      invariant budget.Keys == observedBySPKI.Keys - rest
      invariant forall s :: s in budget ==> budget[s] == |NonExact(roots, certs, s)|
      decreases |rest|
    {
      var spki :| spki in rest;
      var hashes := observedBySPKI[spki];
      var exactMatches := CountExact(roots, hashes, knownByCertHash);
      NonExactSize(roots, certs, spki);
      budget := budget[spki := |hashes| - exactMatches];
      rest := rest - {spki};
    }
    forall s | s !in budget ensures NonExact(roots, certs, s) == {} {}
  }

  /** `roots` consumed their legacy share of each key's budget. */
  ghost predicate Consumed(roots: seq<RootEntry>, budget: map<string, int>, matches: map<string, int>,
                           remaining: map<string, int>)
  {
    forall s :: var legacy := Count(roots, LegacyFor(s)); var free := Get(budget, s);
      && Get(matches, s) == (if legacy < free then legacy else free)
      && Get(remaining, s) == Max0(free - legacy)
  }

  /** Lets legacy entries consume the substitution budget first, in baseline order. */
  method MatchLegacy(roots: seq<RootEntry>, substitution: map<string, int>)
    returns (legacyMatches: map<string, int>, remaining: map<string, int>)
    requires forall s :: Get(substitution, s) >= 0
    ensures Consumed(roots, substitution, legacyMatches, remaining)
  {
    legacyMatches, remaining := map[], substitution;
    for i := 0 to |roots|
      invariant Consumed(roots[..i], substitution, legacyMatches, remaining)
    {
      var root := roots[i];
      assert roots[..i + 1][..i] == roots[..i];
      if root.certHash == "" && Get(remaining, root.spkiHash) > 0 {
        legacyMatches := legacyMatches[root.spkiHash := Get(legacyMatches, root.spkiHash) + 1];
        remaining := remaining[root.spkiHash := Get(remaining, root.spkiHash) - 1];
      }
    }
    assert roots[..|roots|] == roots;
  }

  ghost predicate MatchesLeft(roots: seq<RootEntry>, certs: seq<Certificate>, i: nat, matches: map<string, int>)
    requires i <= |roots|
  {
    forall s :: Get(matches, s) == var legacy := Count(roots, LegacyFor(s)); var free := |NonExact(roots, certs, s)|;
      Max0((if legacy < free then legacy else free) - Count(roots[..i], LegacyFor(s)))
  }

  ghost predicate SpareLeft(roots: seq<RootEntry>, certs: seq<Certificate>, i: nat, spare: map<string, int>)
    requires i <= |roots|
  {
    forall s :: Get(spare, s) ==
      Max0(Max0(|NonExact(roots, certs, s)| - Count(roots, LegacyFor(s))) - Count(roots[..i], LostFor(certs, s)))
  }

  /** One turn of the removal loop: the budgets name the missing entries and carry over. */
  lemma MissingStep(roots: seq<RootEntry>, certs: seq<Certificate>, i: nat, matches: map<string, int>,
                    spare: map<string, int>)
    requires i < |roots| && MatchesLeft(roots, certs, i, matches) && SpareLeft(roots, certs, i, spare)
    ensures var r := roots[i]; var m, s := Get(matches, r.spkiHash), Get(spare, r.spkiHash);
      if r.certHash != "" then
        && MatchesLeft(roots, certs, i + 1, matches)
        && (IsMissing(roots, certs, i) <==> !Observed(certs, r.certHash) && s <= 0)
        && SpareLeft(roots, certs, i + 1,
                     if !Observed(certs, r.certHash) && s > 0 then spare[r.spkiHash := s - 1] else spare)
      else
        && SpareLeft(roots, certs, i + 1, spare)
        && (IsMissing(roots, certs, i) <==> m <= 0)
        && MatchesLeft(roots, certs, i + 1, if m > 0 then matches[r.spkiHash := m - 1] else matches)
  {
    assert roots[..i + 1][..i] == roots[..i];
    CountPrefix(roots, i, LegacyFor(roots[i].spkiHash));
  }

  lemma RemovalStep(roots: seq<RootEntry>, certs: seq<Certificate>, i: nat, now: int)
    requires i < |roots|
    ensures MissingAmong(roots, certs, i + 1, AnyKey()) ==
      MissingAmong(roots, certs, i, AnyKey()) + if IsMissing(roots, certs, i) then 1 else 0
    ensures RemovalEvents(roots, certs, i + 1, now) == RemovalEvents(roots, certs, i, now) +
      if IsMissing(roots, certs, i)
      then [DriftEvent(now, ExpectedRootRemoved, roots[i].subject, roots[i].spkiHash)] else []
  {}

  /** Whether an entry's root is there, and the budgets once it has taken its certificate. */
  method TakeCertificate(roots: seq<RootEntry>, certs: seq<Certificate>, i: nat,
                         observedByCertHash: map<string, Certificate>, matches: map<string, int>,
                         spare: map<string, int>)
    returns (absent: bool, legacyMatches: map<string, int>, substitution: map<string, int>)
    requires i < |roots| && ObservedIndex(certs, observedByCertHash)
    requires MatchesLeft(roots, certs, i, matches) && SpareLeft(roots, certs, i, spare)
    ensures absent <==> IsMissing(roots, certs, i)
    ensures MatchesLeft(roots, certs, i + 1, legacyMatches) && SpareLeft(roots, certs, i + 1, substitution)
  {
    var root := roots[i];
    MissingStep(roots, certs, i, matches, spare);
    legacyMatches, substitution := matches, spare;
    if root.certHash != "" {
      if root.certHash in observedByCertHash {
        return false, legacyMatches, substitution;
      }
      if Get(substitution, root.spkiHash) > 0 {
        substitution := substitution[root.spkiHash := Get(substitution, root.spkiHash) - 1];
        return false, legacyMatches, substitution;
      }
    } else if Get(legacyMatches, root.spkiHash) > 0 {
      legacyMatches := legacyMatches[root.spkiHash := Get(legacyMatches, root.spkiHash) - 1];
      return false, legacyMatches, substitution;
    }
    absent := true;
  }

  method FindMissing(roots: seq<RootEntry>, certs: seq<Certificate>, now: int,
                     observedByCertHash: map<string, Certificate>, matches: map<string, int>, spare: map<string, int>)
    returns (missing: nat, events: seq<DriftEvent>)
    requires ObservedIndex(certs, observedByCertHash)
    requires MatchesLeft(roots, certs, 0, matches) && SpareLeft(roots, certs, 0, spare)
    ensures missing == MissingAmong(roots, certs, |roots|, AnyKey())
    ensures events == RemovalEvents(roots, certs, |roots|, now)
  {
    missing, events := 0, [];
    var legacyMatches, substitution := matches, spare;
    for i := 0 to |roots|
      invariant missing == MissingAmong(roots, certs, i, AnyKey())
      invariant events == RemovalEvents(roots, certs, i, now)
      invariant MatchesLeft(roots, certs, i, legacyMatches)
      invariant SpareLeft(roots, certs, i, substitution)
    {
      var root := roots[i];
      RemovalStep(roots, certs, i, now);
      var absent;
      absent, legacyMatches, substitution :=
        TakeCertificate(roots, certs, i, observedByCertHash, legacyMatches, substitution);
      if !absent {
        continue;
      }
      missing := missing + 1;
      events := events + [DriftEvent(now, ExpectedRootRemoved, root.subject, root.spkiHash)];
    }
  }

  /** The budgets as the removal loop finds them. */
  lemma BudgetsReady(roots: seq<RootEntry>, certs: seq<Certificate>, substitution: map<string, int>,
                     matches: map<string, int>, remaining: map<string, int>)
    requires forall s :: Get(substitution, s) == |NonExact(roots, certs, s)|
    requires Consumed(roots, substitution, matches, remaining)
    ensures MatchesLeft(roots, certs, 0, matches) && SpareLeft(roots, certs, 0, remaining)
  {
    forall s ensures Get(substitution, s) == |NonExact(roots, certs, s)| {}
  }

  method EvaluateTrustStore(roots: seq<RootEntry>, certs: seq<Certificate>, now: int) returns (result: ScanResult)
    requires DistinctCertHashes(roots) && HashConsistent(certs)
    ensures result == Evaluation(roots, certs, now)
  {
    var knownByCertHash, knownBySPKI, knownBySubject := IndexBaseline(roots);
    var observedByCertHash, observedBySPKI := IndexObserved(certs);
    var legacyCertificates := AssignLegacy(roots, certs, knownByCertHash, observedByCertHash);
    var unknown, changed, expired, expiring, events :=
      ClassifyCertificates(roots, certs, now, knownByCertHash, knownBySPKI, knownBySubject, legacyCertificates);
    var substitution := SubstitutionBudget(roots, certs, knownByCertHash, observedBySPKI);
    var legacyMatches, remaining := MatchLegacy(roots, substitution);
    BudgetsReady(roots, certs, substitution, legacyMatches, remaining);
    var missing, removals := FindMissing(roots, certs, now, observedByCertHash, legacyMatches, remaining);
    result := ScanResult(unknown, missing, changed, expired, expiring, true, true, now, events + removals);
  }

  /** The exit status of `check`; invalid input and failed scans exit 2 before it is asked. */
  function CheckExitCode(r: ScanResult): int {
    if r.unknownRoots > 0 || r.missingRoots > 0 || r.changedRoots > 0 || r.expiredRoots > 0 then 1 else 0
  }
}
