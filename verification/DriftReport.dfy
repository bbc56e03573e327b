/** What a drift report says of each certificate and each entry, read off the store and the baseline alone. */
module DriftReport {
  import opened Basics
  import opened Ordering
  import opened Counting
  import opened DriftModel
  import opened DriftTheorems

  /** A count of thirty days in nanoseconds. */
  const THIRTY_DAYS := 2_592_000_000_000_000

  /** The non-exact certificates of its key that precede `c` in hash order use up the key's legacy entries. */
  ghost predicate LegacyUsedUp(roots: seq<RootEntry>, certs: seq<Certificate>, c: Certificate) {
    var earlier := set d | d in certs && d.spki == c.spki && Less(d.certHash, c.certHash)
                           && forall r :: r in roots ==> r.certHash == "" || r.certHash != d.certHash;
    |earlier| >= Count(roots, LegacyFor(c.spki))
  }

  /** What must be true of a certificate, by the lists alone, for an event of this kind to name it. */
  ghost predicate CallsFor(kind: EventKind, roots: seq<RootEntry>, certs: seq<Certificate>, c: Certificate, now: int) {
    var exact := exists r :: r in roots && r.certHash != "" && r.certHash == c.certHash;
    var knownKey := exists r :: r in roots && r.spkiHash == c.spki;
    var knownSubject := exists r :: r in roots && r.subject == c.subject;
    var brokenPolicy := exists r :: r in roots && r.certHash != "" && r.certHash == c.certHash
                                    && r.policyHash != "" && r.policyHash != c.policyHash;
    var foreignPolicy := exists r :: r in roots && r.spkiHash == c.spki
                                     && r.policyHash != "" && r.policyHash != c.policyHash;
    var substitute := !exact && knownKey && LegacyUsedUp(roots, certs, c);
    match kind
    case RootPolicyChanged => brokenPolicy || (substitute && foreignPolicy)
    case RootCertChanged => substitute && !foreignPolicy
    case UnknownRootAdded => !exact && !knownKey && !knownSubject
    case RootChanged => !exact && !knownKey && knownSubject
    case RootExpired => c.notAfter < now
    case RootExpiring => now <= c.notAfter < now + THIRTY_DAYS
    case ExpectedRootRemoved => false
  }

  lemma LegacyUsedUpIff(roots: seq<RootEntry>, certs: seq<Certificate>, c: Certificate)
    ensures LegacyUsedUp(roots, certs, c) <==> !TakesLegacy(roots, certs, c)
  {
    var earlier := set d | d in certs && d.spki == c.spki && Less(d.certHash, c.certHash)
                           && forall r :: r in roots ==> r.certHash == "" || r.certHash != d.certHash;
    assert earlier == Before(NonExact(roots, certs, c.spki), c);
  }

  // ----- events

  /** The class of a certificate against what the lists say of it. */
  lemma ClassCalls(roots: seq<RootEntry>, certs: seq<Certificate>, c: Certificate, now: int)
    ensures var k := Classify(roots, certs, c);
      && (CallsFor(RootPolicyChanged, roots, certs, c, now) <==> k == Exact(true) || k == Changed(true))
      && (CallsFor(RootCertChanged, roots, certs, c, now) <==> k == Changed(false))
      && (CallsFor(UnknownRootAdded, roots, certs, c, now) <==> k == Unknown(false))
      && (CallsFor(RootChanged, roots, certs, c, now) <==> k == Unknown(true))
  {
    LegacyUsedUpIff(roots, certs, c);
    ListsTell(roots, c);
  }

  lemma ListsTell(roots: seq<RootEntry>, c: Certificate)
    ensures Known(roots, c.certHash) <==> exists r :: r in roots && r.certHash != "" && r.certHash == c.certHash
    ensures Known(roots, c.certHash) ==>
      (ExactPolicyDiffers(roots, c) <==> exists r :: r in roots && r.certHash != "" && r.certHash == c.certHash
                                                     && r.policyHash != "" && r.policyHash != c.policyHash)
  {}

  lemma SingleOrNone<E>(x: seq<E>, e: E)
    requires |x| <= 1
    ensures multiset(x)[e] == One(x == [e])
  {}

  lemma Appended<E>(a: seq<E>, b: seq<E>, e: E)
    ensures multiset(a + b)[e] == multiset(a)[e] + multiset(b)[e]
  {}

  lemma OneEventEach(roots: seq<RootEntry>, certs: seq<Certificate>, c: Certificate, now: int, e: DriftEvent)
    ensures multiset(EventsOf(roots, certs, c, now))[e] ==
      One(e.timestamp == now && e.subject == c.subject && e.spkiHash == c.spki
          && CallsFor(e.kind, roots, certs, c, now))
  {
    var drift, expiry := ClassEvents(Classify(roots, certs, c), c, now), ExpiryEvents(c, now);
    Appended(drift, expiry, e);
    SingleOrNone(drift, e);
    SingleOrNone(expiry, e);
    DriftEventCalled(roots, certs, c, now, e);
    ExpiryEventCalled(roots, certs, c, now, e);
  }

  lemma DriftEventCalled(roots: seq<RootEntry>, certs: seq<Certificate>, c: Certificate, now: int, e: DriftEvent)
    ensures ClassEvents(Classify(roots, certs, c), c, now) == [e] <==>
      && e.timestamp == now && e.subject == c.subject && e.spkiHash == c.spki
      && !e.kind.RootExpired? && !e.kind.RootExpiring? && CallsFor(e.kind, roots, certs, c, now)
  {
    ClassCalls(roots, certs, c, now);
  }

  lemma ExpiryEventCalled(roots: seq<RootEntry>, certs: seq<Certificate>, c: Certificate, now: int, e: DriftEvent)
    ensures ExpiryEvents(c, now) == [e] <==>
      && e.timestamp == now && e.subject == c.subject && e.spkiHash == c.spki
      && (e.kind.RootExpired? || e.kind.RootExpiring?) && CallsFor(e.kind, roots, certs, c, now)
  {}

  /** Certificates an event like `e` should name. */
  ghost function NamedBy(e: DriftEvent, roots: seq<RootEntry>, certs: seq<Certificate>, now: int): Certificate -> bool {
    (c: Certificate) => e.subject == c.subject && e.spkiHash == c.spki && CallsFor(e.kind, roots, certs, c, now)
  }

  lemma {:induction false} GatheredOnce<T, E>(xs: seq<T>, f: T -> seq<E>, e: E, p: T -> bool)
    requires forall x :: x in xs ==> multiset(f(x))[e] == One(p(x))
    ensures multiset(Gather(xs, f))[e] == Count(xs, p)
  {
    if xs == [] {
    } else {
      GatheredOnce(xs[..|xs| - 1], f, e, p);
      GatherLast(xs, f);
    }
  }

  /** Entry `k` is missing and is the one `e` names. */
  ghost predicate Removes(e: DriftEvent, roots: seq<RootEntry>, certs: seq<Certificate>, k: nat)
    requires k < |roots|
  {
    IsMissing(roots, certs, k) && roots[k].subject == e.subject && roots[k].spkiHash == e.spkiHash
  }

  /** How many of the first `n` entries are missing and are named by `e`. */
  ghost function RemovedBy(e: DriftEvent, roots: seq<RootEntry>, certs: seq<Certificate>, n: nat): nat
    requires n <= |roots|
  {
    if n == 0 then 0 else RemovedBy(e, roots, certs, n - 1) + One(Removes(e, roots, certs, n - 1))
  }

  lemma OneRemoval(roots: seq<RootEntry>, certs: seq<Certificate>, n: nat, now: int, e: DriftEvent)
    requires 0 < n <= |roots|
    ensures multiset(LastRemoval(roots, certs, n, now))[e] ==
      One(e.timestamp == now && e.kind.ExpectedRootRemoved? && Removes(e, roots, certs, n - 1))
  {
    SingleOrNone(LastRemoval(roots, certs, n, now), e);
  }

  lemma LastAppended(roots: seq<RootEntry>, certs: seq<Certificate>, n: nat, now: int, e: DriftEvent)
    requires 0 < n <= |roots|
    ensures multiset(RemovalEvents(roots, certs, n, now))[e] ==
      multiset(RemovalEvents(roots, certs, n - 1, now))[e] + multiset(LastRemoval(roots, certs, n, now))[e]
  {
    Appended(RemovalEvents(roots, certs, n - 1, now), LastRemoval(roots, certs, n, now), e);
  }

  lemma {:induction false} RemovalsCounted(roots: seq<RootEntry>, certs: seq<Certificate>, n: nat, now: int,
                                           e: DriftEvent)
    requires n <= |roots|
    ensures multiset(RemovalEvents(roots, certs, n, now))[e] ==
      if e.timestamp == now && e.kind.ExpectedRootRemoved? then RemovedBy(e, roots, certs, n) else 0
  {
    if n == 0 {
    } else {
      RemovalsCounted(roots, certs, n - 1, now, e);
      LastAppended(roots, certs, n, now, e);
      OneRemoval(roots, certs, n, now, e);
    }
  }

  ghost function LastRemoval(roots: seq<RootEntry>, certs: seq<Certificate>, n: nat, now: int): (r: seq<DriftEvent>)
    requires 0 < n <= |roots|
    ensures RemovalEvents(roots, certs, n, now) == RemovalEvents(roots, certs, n - 1, now) + r
  {
    if IsMissing(roots, certs, n - 1)
    then [DriftEvent(now, ExpectedRootRemoved, roots[n - 1].subject, roots[n - 1].spkiHash)] else []
  }

  lemma NamedOrNot(roots: seq<RootEntry>, certs: seq<Certificate>, now: int, e: DriftEvent)
    ensures multiset(Gather(certs, EventsIn(roots, certs, now)))[e] ==
      if e.timestamp == now then Count(certs, NamedBy(e, roots, certs, now)) else 0
  {
    var f := EventsIn(roots, certs, now);
    var named := if e.timestamp == now then NamedBy(e, roots, certs, now) else (c: Certificate) => false;
    forall c | c in certs ensures multiset(f(c))[e] == One(named(c)) {
      OneEventEach(roots, certs, c, now, e);
    }
    GatheredOnce(certs, f, e, named);
    if e.timestamp != now { CountZero(certs, named); }
  }

  lemma NoneNamed(roots: seq<RootEntry>, certs: seq<Certificate>, now: int, e: DriftEvent)
    requires e.kind.ExpectedRootRemoved?
    ensures Count(certs, NamedBy(e, roots, certs, now)) == 0
  {
    CountZero(certs, NamedBy(e, roots, certs, now));
  }

  /**
   Every event is there exactly as often as something calls for it: one for each certificate of its kind, with that
   certificate's subject and key and the time of the scan, and one for each missing entry.
   */
  lemma {:induction false} EventsCounted(roots: seq<RootEntry>, certs: seq<Certificate>, now: int, e: DriftEvent)
    ensures multiset(Evaluation(roots, certs, now).events)[e] ==
      if e.timestamp != now then 0
      else if e.kind.ExpectedRootRemoved? then RemovedBy(e, roots, certs, |roots|)
      else Count(certs, NamedBy(e, roots, certs, now))
  {
    var found, removed := Gather(certs, EventsIn(roots, certs, now)), RemovalEvents(roots, certs, |roots|, now);
    Appended(found, removed, e);
    NamedOrNot(roots, certs, now, e);
    RemovalsCounted(roots, certs, |roots|, now, e);
    if e.kind.ExpectedRootRemoved? { NoneNamed(roots, certs, now, e); }
  }

  // ----- counters

  ghost function BrokenPolicy(roots: seq<RootEntry>): Certificate -> bool {
    (c: Certificate) => exists r :: r in roots && r.certHash != "" && r.certHash == c.certHash
                               && r.policyHash != "" && r.policyHash != c.policyHash
  }

  /** Neither the hash nor the key of `c` is in the baseline. */
  ghost predicate IsStranger(roots: seq<RootEntry>, c: Certificate) {
    forall r :: r in roots ==> r.spkiHash != c.spki && (r.certHash == "" || r.certHash != c.certHash)
  }

  ghost function Stranger(roots: seq<RootEntry>): Certificate -> bool { (c: Certificate) => IsStranger(roots, c) }

  /** A stranger under a subject of the baseline: a root that came back with a new key. */
  ghost function Rekeyed(roots: seq<RootEntry>): Certificate -> bool {
    (c: Certificate) => IsStranger(roots, c) && exists r :: r in roots && r.subject == c.subject
  }

  ghost function PastDue(now: int): Certificate -> bool { (c: Certificate) => c.notAfter < now }

  ghost function DueSoon(now: int): Certificate -> bool { (c: Certificate) => now <= c.notAfter < now + THIRTY_DAYS }

  /**
   The counters from the lists alone: changed roots are broken policies of exact matches, same-key certificates
   beyond the legacy entries, and re-keyed subjects.
   */
  lemma CountersCounted(roots: seq<RootEntry>, certs: seq<Certificate>, now: int)
    requires DistinctCertificates(certs)
    ensures var r := Evaluation(roots, certs, now);
      && r.changedRoots == Count(certs, BrokenPolicy(roots)) + Sum(KeysOf(roots), Surplus(roots, certs))
                           + Count(certs, Rekeyed(roots))
      && r.unknownRoots == Count(certs, Stranger(roots))
      && r.expiredRoots == Count(certs, PastDue(now)) && r.expiringRoots == Count(certs, DueSoon(now))
  {
    ChangedCardinality(roots, certs);
    forall c ensures OneOfThree(roots, certs, c) && UnknownIn(roots, certs)(c) == Stranger(roots)(c) {
      ClassIsOneOfThree(roots, certs, c);
    }
    CountThree(certs, ChangedIn(roots, certs), BrokenPolicy(roots), SameKeyChangedIn(roots, certs), Rekeyed(roots));
    CountSame(certs, UnknownIn(roots, certs), Stranger(roots));
    CountSame(certs, ExpiredAt(now), PastDue(now));
    CountSame(certs, ExpiringAt(now), DueSoon(now));
  }

  ghost predicate OneOfThree(roots: seq<RootEntry>, certs: seq<Certificate>, c: Certificate) {
    One(ChangedIn(roots, certs)(c)) ==
      One(BrokenPolicy(roots)(c)) + One(SameKeyChangedIn(roots, certs)(c)) + One(Rekeyed(roots)(c))
  }

  lemma ClassIsOneOfThree(roots: seq<RootEntry>, certs: seq<Certificate>, c: Certificate)
    ensures OneOfThree(roots, certs, c) && UnknownIn(roots, certs)(c) == Stranger(roots)(c)
  {
    ListsTell(roots, c);
    assert IsStranger(roots, c) <==> !Known(roots, c.certHash) && !KeyKnown(roots, c.spki);
  }

  lemma {:induction false} CountThree<T>(xs: seq<T>, whole: T -> bool, p: T -> bool, q: T -> bool, r: T -> bool)
    requires forall x :: x in xs ==> One(whole(x)) == One(p(x)) + One(q(x)) + One(r(x))
    ensures Count(xs, whole) == Count(xs, p) + Count(xs, q) + Count(xs, r)
  {
    if xs == [] {
    } else {
      CountThree(xs[..|xs| - 1], whole, p, q, r);
    }
  }

  ghost function RemovalOf(s: string): DriftEvent -> bool {
    (e: DriftEvent) => e.kind.ExpectedRootRemoved? && e.spkiHash == s
  }

  lemma {:induction false} RemovalsOfKey(roots: seq<RootEntry>, certs: seq<Certificate>, n: nat, now: int, s: string)
    requires n <= |roots|
    ensures Count(RemovalEvents(roots, certs, n, now), RemovalOf(s)) == MissingAmong(roots, certs, n, KeyIs(s))
  {
    if n == 0 {
    } else {
      RemovalsOfKey(roots, certs, n - 1, now, s);
      var before, last := RemovalEvents(roots, certs, n - 1, now), LastRemoval(roots, certs, n, now);
      if last == [] {
        assert before + last == before;
      } else {
        CountOneMore(before, last[0], RemovalOf(s));
        assert before + last == before + [last[0]];
      }
    }
  }

  lemma {:induction false} NoneGathered<T, E>(xs: seq<T>, f: T -> seq<E>, p: E -> bool)
    requires forall x :: x in xs ==> Count(f(x), p) == 0
    ensures Count(Gather(xs, f), p) == 0
  {
    if xs == [] {
    } else {
      var n := |xs| - 1;
      NoneGathered(xs[..n], f, p);
      CountAppend(Gather(xs[..n], f), f(xs[n]), p);
    }
  }

  lemma NoRemovalOfCertificate(roots: seq<RootEntry>, certs: seq<Certificate>, c: Certificate, now: int, s: string)
    ensures Count(EventsOf(roots, certs, c, now), RemovalOf(s)) == 0
  {
    CountZero(EventsOf(roots, certs, c, now), RemovalOf(s));
  }

  /** The removal events of a key are as many as its entries beyond the certificates free to stand for them. */
  lemma RemovalsPerKey(roots: seq<RootEntry>, certs: seq<Certificate>, now: int, s: string)
    ensures Count(Evaluation(roots, certs, now).events, RemovalOf(s)) == ShortfallOf(roots, certs, s)
  {
    forall c | c in certs ensures Count(EventsIn(roots, certs, now)(c), RemovalOf(s)) == 0 {
      NoRemovalOfCertificate(roots, certs, c, now, s);
    }
    NoneGathered(certs, EventsIn(roots, certs, now), RemovalOf(s));
    CountAppend(Gather(certs, EventsIn(roots, certs, now)), RemovalEvents(roots, certs, |roots|, now), RemovalOf(s));
    RemovalsOfKey(roots, certs, |roots|, now, s);
    MissingAllOfKey(roots, certs, s);
  }

  lemma CountGrows<T>(xs: seq<T>, i: nat, j: nat, p: T -> bool)
    requires i < j <= |xs|
    ensures Count(xs[..i], p) <= Count(xs[..j], p)
  {
    CountPrefix(xs[..j], i, p);
    assert xs[..j][..i] == xs[..i];
  }

  /**
   Which entries of a key go missing: earlier ones are matched before later ones of their sort, and legacy entries
   before lost certificates. An entry whose certificate is there never goes missing.
   */
  lemma LaterEntriesGoMissing(roots: seq<RootEntry>, certs: seq<Certificate>, i: nat, j: nat)
    requires i < |roots| && j < |roots| && roots[i].spkiHash == roots[j].spkiHash && IsMissing(roots, certs, i)
    ensures roots[i].certHash == "" || forall c :: c in certs ==> c.certHash != roots[i].certHash
    ensures roots[i].certHash == roots[j].certHash == "" && i < j ==> IsMissing(roots, certs, j)
    ensures roots[j].certHash != "" && (roots[i].certHash == "" || i < j) ==>
      (exists c :: c in certs && c.certHash == roots[j].certHash) || IsMissing(roots, certs, j)
  {
    var s := roots[i].spkiHash;
    if i < j {
      CountGrows(roots, i, j, LegacyFor(s));
      CountGrows(roots, i, j, LostFor(certs, s));
    }
    CountPrefix(roots, i, LegacyFor(s));
  }
}
