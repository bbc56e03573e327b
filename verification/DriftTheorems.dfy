/** What the drift budgets add up to, and when a scan is clean. */
module DriftTheorems {
  import opened Basics
  import opened Ordering
  import opened Counting
  import opened DriftModel
  import opened DriftAgent

  function Min(a: nat, b: nat): nat { if a < b then a else b }

  ghost function KeysOf(roots: seq<RootEntry>): set<string> { set r | r in roots :: r.spkiHash }

  ghost function KeyIs(s: string): string -> bool { (k: string) => k == s }

  // ----- missing roots

  /** One more entry of the baseline: which of a key's two counts it raises, and when it is missing. */
  lemma MissingOneMore(roots: seq<RootEntry>, certs: seq<Certificate>, n: nat, s: string)
    requires 0 < n <= |roots|
    ensures var legacy, lost := LegacyFor(s)(roots[n - 1]), LostFor(certs, s)(roots[n - 1]);
      var l, k := Count(roots[..n - 1], LegacyFor(s)), Count(roots[..n - 1], LostFor(certs, s));
      var free, total := |NonExact(roots, certs, s)|, Count(roots, LegacyFor(s));
      && !(legacy && lost)
      && Count(roots[..n], LegacyFor(s)) == l + One(legacy) && Count(roots[..n], LostFor(certs, s)) == k + One(lost)
      && MissingAmong(roots, certs, n, KeyIs(s))
         == MissingAmong(roots, certs, n - 1, KeyIs(s)) + One((legacy && l >= free) || (lost && k >= free - total))
  {
    CountPrefix(roots, n - 1, LegacyFor(s));
    CountPrefix(roots, n - 1, LostFor(certs, s));
  }

  function One(b: bool): nat { if b then 1 else 0 }

  lemma ShortageGrows(l: nat, k: nat, free: nat, total: nat, legacy: bool, lost: bool)
    requires !(legacy && lost)
    ensures Max0(l + One(legacy) - free) + Max0(k + One(lost) - Max0(free - total))
            == Max0(l - free) + Max0(k - Max0(free - total)) + One((legacy && l >= free) || (lost && k >= free - total))
  {}

  /** Missing entries of a key among the first `n`, and the shortage its counts show up to there. */
  ghost function MissingTo(roots: seq<RootEntry>, certs: seq<Certificate>, s: string, n: nat): int {
    if n <= |roots| then MissingAmong(roots, certs, n, KeyIs(s)) else 0
  }

  ghost function ShortageTo(roots: seq<RootEntry>, certs: seq<Certificate>, s: string, n: nat): int {
    if n <= |roots| then
      Max0(Count(roots[..n], LegacyFor(s)) - |NonExact(roots, certs, s)|)
      + Max0(Count(roots[..n], LostFor(certs, s)) - Max0(|NonExact(roots, certs, s)| - Count(roots, LegacyFor(s))))
    else 0
  }

  lemma GrowAlike(roots: seq<RootEntry>, certs: seq<Certificate>, s: string, n: nat)
    requires 0 < n <= |roots|
    ensures MissingTo(roots, certs, s, n) - MissingTo(roots, certs, s, n - 1)
            == ShortageTo(roots, certs, s, n) - ShortageTo(roots, certs, s, n - 1)
  {
    MissingOneMore(roots, certs, n, s);
    ShortageGrows(Count(roots[..n - 1], LegacyFor(s)), Count(roots[..n - 1], LostFor(certs, s)),
                  |NonExact(roots, certs, s)|, Count(roots, LegacyFor(s)),
                  LegacyFor(s)(roots[n - 1]), LostFor(certs, s)(roots[n - 1]));
  }

  lemma {:induction false} SameGrowth(f: nat -> int, g: nat -> int, n: nat)
    requires f(0) == g(0) && forall k: nat :: 0 < k <= n ==> Alike(f, g, k)
    ensures f(n) == g(n)
  {
    if n == 0 {
    } else {
      assert Alike(f, g, n);
      SameGrowth(f, g, n - 1);
    }
  }

  ghost predicate Alike(f: nat -> int, g: nat -> int, k: nat)
    requires k > 0
  {
    f(k) - f(k - 1) == g(k) - g(k - 1)
  }

  /** Entries of one key go missing as its free certificates run out: legacy entries, then the rest. */
  lemma MissingOfKey(roots: seq<RootEntry>, certs: seq<Certificate>, n: nat, s: string)
    requires n <= |roots|
    ensures var free := |NonExact(roots, certs, s)|;
      MissingAmong(roots, certs, n, KeyIs(s)) ==
        Max0(Count(roots[..n], LegacyFor(s)) - free)
        + Max0(Count(roots[..n], LostFor(certs, s)) - Max0(free - Count(roots, LegacyFor(s))))
  {
    var f := (k: nat) => MissingTo(roots, certs, s, k);
    var g := (k: nat) => ShortageTo(roots, certs, s, k);
    forall k: nat | 0 < k <= n ensures Alike(f, g, k) {
      GrowAlike(roots, certs, s, k);
    }
    SameGrowth(f, g, n);
  }

  ghost function MissingOf(roots: seq<RootEntry>, certs: seq<Certificate>, n: nat, s: string): nat
    requires n <= |roots|
  {
    MissingAmong(roots, certs, n, KeyIs(s))
  }

  ghost function MissingAt(roots: seq<RootEntry>, certs: seq<Certificate>, n: nat): string -> int
    requires n <= |roots|
  {
    (s: string) => MissingOf(roots, certs, n, s)
  }

  lemma {:induction false} MissingByKey(roots: seq<RootEntry>, certs: seq<Certificate>, n: nat)
    requires n <= |roots|
    ensures MissingAmong(roots, certs, n, AnyKey()) == Sum(KeysOf(roots), MissingAt(roots, certs, n))
  {
    var keys := KeysOf(roots);
    var f := MissingAt(roots, certs, n);
    if n == 0 {
      SumNonNegative(keys, f);
    } else {
      var g := MissingAt(roots, certs, n - 1);
      var s := roots[n - 1].spkiHash;
      forall k ensures f(k) == g(k) + if IsMissing(roots, certs, n - 1) && k == s then 1 else 0 {
        assert MissingOf(roots, certs, n, k)
            == MissingOf(roots, certs, n - 1, k) + if IsMissing(roots, certs, n - 1) && k == s then 1 else 0;
      }
      MissingByKey(roots, certs, n - 1);
      SumChange(keys, g, f, roots[n - 1].spkiHash);
    }
  }

  /** Entries of a key without an exact match, beyond the certificates free to stand for them. */
  ghost function ShortfallOf(roots: seq<RootEntry>, certs: seq<Certificate>, s: string): nat {
    Max0(Count(roots, LegacyFor(s)) + Count(roots, LostFor(certs, s)) - |NonExact(roots, certs, s)|)
  }

  ghost function Shortfall(roots: seq<RootEntry>, certs: seq<Certificate>): string -> int {
    (s: string) => ShortfallOf(roots, certs, s)
  }

  lemma MissingCardinality(roots: seq<RootEntry>, certs: seq<Certificate>)
    ensures MissingAmong(roots, certs, |roots|, AnyKey()) == Sum(KeysOf(roots), Shortfall(roots, certs))
  {
    var f, g := MissingAt(roots, certs, |roots|), Shortfall(roots, certs);
    MissingByKey(roots, certs, |roots|);
    forall s ensures f(s) == g(s) {
      MissingAllOfKey(roots, certs, s);
    }
    SumSame(KeysOf(roots), f, g);
  }

  lemma MissingAllOfKey(roots: seq<RootEntry>, certs: seq<Certificate>, s: string)
    ensures MissingAmong(roots, certs, |roots|, KeyIs(s)) == ShortfallOf(roots, certs, s)
  {
    var n := |roots|;
    MissingOfKey(roots, certs, n, s);
    WholePrefix(roots, LegacyFor(s));
    WholePrefix(roots, LostFor(certs, s));
  }

  lemma WholePrefix<T>(xs: seq<T>, p: T -> bool)
    ensures Count(xs[..|xs|], p) == Count(xs, p)
  {
    assert xs[..|xs|] == xs;
  }

  /** A baseline entry for a certificate names that certificate's own key, as the producer writes it. */
  ghost predicate CarriesOwnKey(roots: seq<RootEntry>, certs: seq<Certificate>) {
    forall r, c :: r in roots && c in certs && r.certHash != "" && r.certHash == c.certHash ==> r.spkiHash == c.spki
  }

  ghost function RootOfKey(s: string): RootEntry -> bool { (r: RootEntry) => r.spkiHash == s }

  ghost function CertOfKey(s: string): Certificate -> bool { (c: Certificate) => c.spki == s }

  ghost function FoundFor(certs: seq<Certificate>, s: string): RootEntry -> bool {
    (r: RootEntry) => r.certHash != "" && Observed(certs, r.certHash) && r.spkiHash == s
  }

  ghost function ExactFor(roots: seq<RootEntry>, s: string): Certificate -> bool {
    (c: Certificate) => Known(roots, c.certHash) && c.spki == s
  }

  ghost function FreeFor(roots: seq<RootEntry>, s: string): Certificate -> bool {
    (c: Certificate) => !Known(roots, c.certHash) && c.spki == s
  }

  lemma NonExactCount(roots: seq<RootEntry>, certs: seq<Certificate>, s: string)
    requires DistinctCertificates(certs)
    ensures Count(certs, FreeFor(roots, s)) == |NonExact(roots, certs, s)|
  {
    var free := FreeFor(roots, s);
    CountDistinct(certs, free);
    assert forall c :: free(c) <==> !Known(roots, c.certHash) && c.spki == s;
    assert Selected(certs, free) == NonExact(roots, certs, s);
  }

  lemma KeyBalance(roots: seq<RootEntry>, certs: seq<Certificate>, s: string)
    requires DistinctCertHashes(roots) && DistinctCertificates(certs) && CarriesOwnKey(roots, certs)
    ensures Count(roots, LegacyFor(s)) + Count(roots, LostFor(certs, s)) - |NonExact(roots, certs, s)|
         == Count(roots, RootOfKey(s)) - Count(certs, CertOfKey(s))
  {
    var rootHash := (r: RootEntry) => r.certHash;
    var certHash := (c: Certificate) => c.certHash;
    CountImage(roots, FoundFor(certs, s), rootHash);
    CountImage(certs, ExactFor(roots, s), certHash);
    assert ImageOf(roots, FoundFor(certs, s), rootHash) == ImageOf(certs, ExactFor(roots, s), certHash) by {
      forall h | h in ImageOf(roots, FoundFor(certs, s), rootHash)
        ensures h in ImageOf(certs, ExactFor(roots, s), certHash)
      {
        var r :| r in roots && FoundFor(certs, s)(r) && r.certHash == h;
        var c :| c in certs && c.certHash == h;
        assert ExactFor(roots, s)(c);
      }
      forall h | h in ImageOf(certs, ExactFor(roots, s), certHash)
        ensures h in ImageOf(roots, FoundFor(certs, s), rootHash)
      {
        var c :| c in certs && ExactFor(roots, s)(c) && c.certHash == h;
        var r :| r in roots && r.certHash == h;
        assert FoundFor(certs, s)(r);
      }
    }
    NonExactCount(roots, certs, s);
    CountSplit(certs, FreeFor(roots, s), ExactFor(roots, s), CertOfKey(s));
    var modern := (r: RootEntry) => r.certHash != "" && r.spkiHash == s;
    CountSplit(roots, FoundFor(certs, s), LostFor(certs, s), modern);
    CountSplit(roots, LegacyFor(s), modern, RootOfKey(s));
  }

  ghost function AbsentOf(roots: seq<RootEntry>, certs: seq<Certificate>, s: string): nat {
    Max0(Count(roots, RootOfKey(s)) - Count(certs, CertOfKey(s)))
  }

  ghost function Absent(roots: seq<RootEntry>, certs: seq<Certificate>): string -> int {
    (s: string) => AbsentOf(roots, certs, s)
  }

  /** The removal count the source aims at: per key, baseline entries beyond observed certificates. */
  lemma MissingIsShortfall(roots: seq<RootEntry>, certs: seq<Certificate>, now: int)
    requires DistinctCertHashes(roots) && DistinctCertificates(certs) && CarriesOwnKey(roots, certs)
    ensures Evaluation(roots, certs, now).missingRoots == Sum(KeysOf(roots), Absent(roots, certs))
  {
    MissingCardinality(roots, certs);
    var f, g := Shortfall(roots, certs), Absent(roots, certs);
    forall s ensures f(s) == g(s) {
      assert f(s) == g(s) by { KeyBalance(roots, certs, s); }
    }
    SumSame(KeysOf(roots), f, g);
  }

  // ----- legacy matches and same-key changes

  ghost predicate DistinctHashes(group: set<Certificate>) {
    forall c, d :: c in group && d in group && c.certHash == d.certHash ==> c == d
  }

  lemma {:induction false} LastInOrder(group: set<Certificate>) returns (m: Certificate)
    requires group != {} && DistinctHashes(group)
    ensures m in group && forall c :: c in group && c != m ==> Less(c.certHash, m.certHash)
    decreases |group|
  {
    m :| m in group;
    var rest := group - {m};
    if rest != {} {
      var n := LastInOrder(rest);
      LessTotal(m.certHash, n.certHash);
      if Less(m.certHash, n.certHash) {
        m := n;
      } else {
        forall c | c in rest && c != n ensures Less(c.certHash, m.certHash) {
          LessTransitive(c.certHash, n.certHash, m.certHash);
        }
      }
    }
  }

  ghost function FirstOf(group: set<Certificate>, k: nat): set<Certificate> {
    set c | c in group && |Before(group, c)| < k
  }

  /** A budget of `k` serves exactly `min(k, size)` certificates of a key. */
  lemma {:induction false} RankCount(group: set<Certificate>, k: nat)
    requires DistinctHashes(group)
    ensures |FirstOf(group, k)| == Min(k, |group|)
    decreases |group|
  {
    if group == {} {
      assert FirstOf(group, k) == {};
    } else {
      var m := LastInOrder(group);
      var rest := group - {m};
      RankCount(rest, k);
      FirstWithLast(group, m, k);
    }
  }

  lemma FirstWithLast(group: set<Certificate>, m: Certificate, k: nat)
    requires m in group && forall c :: c in group && c != m ==> Less(c.certHash, m.certHash)
    ensures |FirstOf(group, k)| == |FirstOf(group - {m}, k)| + if |group| <= k then 1 else 0
  {
    var rest := group - {m};
    RankOfLast(group, m);
    var last := if |group| <= k then {m} else {};
    assert |group| == |rest| + 1;
    forall c ensures c in FirstOf(group, k) <==> c in FirstOf(rest, k) || c in last {
      if c in rest {
        assert Before(group, c) == Before(rest, c);
      } else if c == m {
        assert Before(group, c) == rest;
      }
    }
    OneMoreFirst(FirstOf(group, k), FirstOf(rest, k), last);
  }

  lemma OneMoreFirst<T>(all: set<T>, few: set<T>, last: set<T>)
    requires (forall c :: c in all <==> c in few || c in last) && few !! last
    ensures |all| == |few| + |last|
  {
    assert all == few + last;
  }

  lemma RankOfLast(group: set<Certificate>, m: Certificate)
    requires m in group && forall c :: c in group && c != m ==> Less(c.certHash, m.certHash)
    ensures Before(group, m) == group - {m}
    ensures forall c :: c in group - {m} ==> Before(group, c) == Before(group - {m}, c)
  {
    LessIrreflexive(m.certHash);
    forall c | c in group - {m} ensures Before(group, c) == Before(group - {m}, c) {
      LessTotal(c.certHash, m.certHash);
    }
  }

  ghost function LegacyIn(roots: seq<RootEntry>, certs: seq<Certificate>): Certificate -> bool {
    (c: Certificate) => Classify(roots, certs, c).Legacy?
  }

  ghost function SameKeyChangedIn(roots: seq<RootEntry>, certs: seq<Certificate>): Certificate -> bool {
    (c: Certificate) => Classify(roots, certs, c).Changed?
  }

  ghost function ExactIn(roots: seq<RootEntry>, certs: seq<Certificate>): Certificate -> bool {
    (c: Certificate) => Classify(roots, certs, c).Exact?
  }

  ghost function KeyOf(): Certificate -> string { (c: Certificate) => c.spki }

  /** The free certificates of a key beyond its legacy entries, and those within. */
  ghost function Surplus(roots: seq<RootEntry>, certs: seq<Certificate>): string -> int {
    (s: string) => Max0(|NonExact(roots, certs, s)| - Count(roots, LegacyFor(s)))
  }

  ghost function Served(roots: seq<RootEntry>, certs: seq<Certificate>): string -> int {
    (s: string) => Min(Count(roots, LegacyFor(s)), |NonExact(roots, certs, s)|)
  }

  lemma HalvesOfKey(roots: seq<RootEntry>, certs: seq<Certificate>, s: string)
    requires DistinctCertificates(certs) && KeyKnown(roots, s)
    ensures CountAt(certs, LegacyIn(roots, certs), KeyOf())(s) == Served(roots, certs)(s)
    ensures CountAt(certs, SameKeyChangedIn(roots, certs), KeyOf())(s) == Surplus(roots, certs)(s)
  {
    var group := NonExact(roots, certs, s);
    var legacy := Count(roots, LegacyFor(s));
    var takes := AtKey(LegacyIn(roots, certs), KeyOf(), s);
    var changes := AtKey(SameKeyChangedIn(roots, certs), KeyOf(), s);
    RankCount(group, legacy);
    CountDistinct(certs, takes);
    forall c | c in certs
      ensures takes(c) <==> c in FirstOf(group, legacy)
      ensures changes(c) <==> c in group && c !in FirstOf(group, legacy)
    {}
    assert Selected(certs, takes) == FirstOf(group, legacy);
    NonExactCount(roots, certs, s);
    CountSplit(certs, takes, changes, FreeFor(roots, s));
  }

  /** Same-key changes and legacy matches are exactly the two halves of each key's free certificates. */
  lemma ChangedCardinality(roots: seq<RootEntry>, certs: seq<Certificate>)
    requires DistinctCertificates(certs)
    ensures Count(certs, SameKeyChangedIn(roots, certs)) == Sum(KeysOf(roots), Surplus(roots, certs))
    ensures Count(certs, LegacyIn(roots, certs)) == Sum(KeysOf(roots), Served(roots, certs))
  {
    var keys := KeysOf(roots);
    CountByKey(certs, SameKeyChangedIn(roots, certs), KeyOf(), keys);
    CountByKey(certs, LegacyIn(roots, certs), KeyOf(), keys);
    forall s | s in keys
      ensures CountAt(certs, LegacyIn(roots, certs), KeyOf())(s) == Served(roots, certs)(s)
      ensures CountAt(certs, SameKeyChangedIn(roots, certs), KeyOf())(s) == Surplus(roots, certs)(s)
    {
      HalvesOfKey(roots, certs, s);
    }
    SumSame(keys, CountAt(certs, SameKeyChangedIn(roots, certs), KeyOf()), Surplus(roots, certs));
    SumSame(keys, CountAt(certs, LegacyIn(roots, certs), KeyOf()), Served(roots, certs));
  }

  /** Every observed certificate is accounted for once, the middle two classes by the budgets. */
  lemma EveryCertificateOnce(roots: seq<RootEntry>, certs: seq<Certificate>, now: int)
    requires DistinctCertificates(certs)
    ensures |certs| == Count(certs, ExactIn(roots, certs)) + Sum(KeysOf(roots), Served(roots, certs))
      + Sum(KeysOf(roots), Surplus(roots, certs)) + Evaluation(roots, certs, now).unknownRoots
  {
    ChangedCardinality(roots, certs);
    ClassTotal(roots, certs, certs);
  }

  lemma {:induction false} ClassTotal(roots: seq<RootEntry>, certs: seq<Certificate>, list: seq<Certificate>)
    ensures |list| == Count(list, ExactIn(roots, certs)) + Count(list, LegacyIn(roots, certs))
      + Count(list, SameKeyChangedIn(roots, certs)) + Count(list, UnknownIn(roots, certs))
  {
    if list == [] {
    } else {
      ClassTotal(roots, certs, list[..|list| - 1]);
    }
  }

  // ----- a clean scan is a one-to-one matching

  /** `c` may stand for `r`: by its hash, with the recorded policy, or for a legacy entry by its key. */
  ghost predicate Matches(c: Certificate, r: RootEntry) {
    if r.certHash != "" then c.certHash == r.certHash && (r.policyHash == "" || r.policyHash == c.policyHash)
    else c.spki == r.spkiHash
  }

  /** `f` matches every observed certificate to its own baseline entry, leaving none over. */
  ghost predicate IsMatching(roots: seq<RootEntry>, certs: seq<Certificate>, f: seq<nat>) {
    IsPairing(f, |certs|, |roots|) && forall i :: 0 <= i < |f| ==> Matches(certs[i], roots[f[i]])
  }

  ghost predicate Clean(r: ScanResult) {
    r.unknownRoots == 0 && r.missingRoots == 0 && r.changedRoots == 0
  }

  ghost function CertIdentity(roots: seq<RootEntry>, c: Certificate): Identity {
    if Known(roots, c.certHash) then ByCert(c.certHash) else BySpki(c.spki)
  }

  ghost function CertIdentityIn(roots: seq<RootEntry>): Certificate -> Identity {
    (c: Certificate) => CertIdentity(roots, c)
  }

  ghost function RootIdentityOf(): RootEntry -> Identity { (r: RootEntry) => RootIdentity(r) }

  ghost function CertKeys(roots: seq<RootEntry>, certs: seq<Certificate>): seq<Identity> {
    seq(|certs|, i requires 0 <= i < |certs| => CertIdentity(roots, certs[i]))
  }

  ghost function RootKeys(roots: seq<RootEntry>): seq<Identity> {
    seq(|roots|, i requires 0 <= i < |roots| => RootIdentity(roots[i]))
  }

  lemma KeyCounts(roots: seq<RootEntry>, certs: seq<Certificate>, s: string)
    requires DistinctCertificates(certs)
    ensures multiset(CertKeys(roots, certs))[BySpki(s)] == |NonExact(roots, certs, s)|
    ensures multiset(RootKeys(roots))[BySpki(s)] == Count(roots, LegacyFor(s))
  {
    var p, q := KeyEquals(CertIdentityIn(roots), BySpki(s)), KeyEquals(RootIdentityOf(), BySpki(s));
    CountKey(certs, CertKeys(roots, certs), CertIdentityIn(roots), BySpki(s));
    CountSame(certs, p, FreeFor(roots, s));
    NonExactCount(roots, certs, s);
    CountKey(roots, RootKeys(roots), RootIdentityOf(), BySpki(s));
    CountSame(roots, q, LegacyFor(s));
  }

  lemma NoMissing(roots: seq<RootEntry>, certs: seq<Certificate>, now: int, s: string)
    requires Evaluation(roots, certs, now).missingRoots == 0
    ensures Count(roots, LegacyFor(s)) + Count(roots, LostFor(certs, s)) <= |NonExact(roots, certs, s)|
  {
    var shortfall := Shortfall(roots, certs);
    MissingCardinality(roots, certs);
    SumNonNegative(KeysOf(roots), shortfall);
    if s in KeysOf(roots) {
      assert shortfall(s) == 0;
    } else {
      CountZero(roots, LegacyFor(s));
      CountZero(roots, LostFor(certs, s));
    }
  }

  lemma NoDrift(roots: seq<RootEntry>, certs: seq<Certificate>, now: int)
    requires Clean(Evaluation(roots, certs, now)) && DistinctCertificates(certs)
    ensures forall c :: c in certs ==>
      if Known(roots, c.certHash) then !ExactPolicyDiffers(roots, c) else TakesLegacy(roots, certs, c)
    ensures forall s ::
      |NonExact(roots, certs, s)| == Count(roots, LegacyFor(s)) && Count(roots, LostFor(certs, s)) == 0
  {
    CountZero(certs, UnknownIn(roots, certs));
    CountZero(certs, ChangedIn(roots, certs));
    forall c | c in certs
      ensures if Known(roots, c.certHash) then !ExactPolicyDiffers(roots, c) else TakesLegacy(roots, certs, c)
    {
      assert !UnknownIn(roots, certs)(c) && !ChangedIn(roots, certs)(c);
    }
    forall s ensures |NonExact(roots, certs, s)| == Count(roots, LegacyFor(s)) && Count(roots, LostFor(certs, s)) == 0 {
      var group := NonExact(roots, certs, s);
      RankCount(group, Count(roots, LegacyFor(s)));
      assert FirstOf(group, Count(roots, LegacyFor(s))) == group;
      NoMissing(roots, certs, now, s);
    }
  }

  /** At most one entry, and at most one certificate, carries a hash. */
  lemma HashCounts(roots: seq<RootEntry>, certs: seq<Certificate>, h: string)
    requires DistinctCertHashes(roots) && DistinctCertificates(certs)
    ensures multiset(CertKeys(roots, certs))[ByCert(h)] == if Observed(certs, h) && Known(roots, h) then 1 else 0
    ensures multiset(RootKeys(roots))[ByCert(h)] == if Known(roots, h) then 1 else 0
  {
    var p, q := KeyEquals(CertIdentityIn(roots), ByCert(h)), KeyEquals(RootIdentityOf(), ByCert(h));
    CountKey(certs, CertKeys(roots, certs), CertIdentityIn(roots), ByCert(h));
    if Observed(certs, h) && Known(roots, h) {
      var i :| 0 <= i < |certs| && certs[i].certHash == h;
      CountOne(certs, p, i);
    } else {
      CountZero(certs, p);
    }
    CountKey(roots, RootKeys(roots), RootIdentityOf(), ByCert(h));
    if Known(roots, h) {
      var j :| 0 <= j < |roots| && roots[j].certHash == h;
      CountOne(roots, q, j);
    } else {
      CountZero(roots, q);
    }
  }

  lemma CleanGivesMatching(roots: seq<RootEntry>, certs: seq<Certificate>, now: int) returns (f: seq<nat>)
    requires DistinctCertHashes(roots) && DistinctCertificates(certs)
    requires Clean(Evaluation(roots, certs, now))
    ensures IsMatching(roots, certs, f)
  {
    NoDrift(roots, certs, now);
    var a, b := CertKeys(roots, certs), RootKeys(roots);
    forall k ensures multiset(a)[k] == multiset(b)[k] {
      match k
      case BySpki(s) => KeyCounts(roots, certs, s);
      case ByCert(h) =>
        HashCounts(roots, certs, h);
        if Known(roots, h) {
          var r :| r in roots && r.certHash == h;
          CountZero(roots, LostFor(certs, r.spkiHash));
          assert !LostFor(certs, r.spkiHash)(r);
        }
    }
    assert multiset(a) == multiset(b);
    f := PairEqual(a, b);
    forall i | 0 <= i < |f| ensures Matches(certs[i], roots[f[i]]) {
      assert a[i] == b[f[i]];
      assert CertIdentity(roots, certs[i]) == RootIdentity(roots[f[i]]);
      assert certs[i] in certs && roots[f[i]] in roots;
    }
  }

  /** In a matching, a certificate is exact just when its partner is a certificate entry. */
  lemma MatchingKeys(roots: seq<RootEntry>, certs: seq<Certificate>, f: seq<nat>, i: nat)
    requires DistinctCertificates(certs) && IsMatching(roots, certs, f) && i < |certs|
    ensures CertIdentity(roots, certs[i]) == RootIdentity(roots[f[i]])
  {
    var c, r := certs[i], roots[f[i]];
    if r.certHash != "" {
      assert r in roots;
    } else if Known(roots, c.certHash) {
      var k :| 0 <= k < |roots| && roots[k].certHash == c.certHash;
      var j := PairingOnto(f, |roots|, k);
      assert false;
    }
  }

  lemma MatchingGivesClean(roots: seq<RootEntry>, certs: seq<Certificate>, now: int, f: seq<nat>)
    requires DistinctCertHashes(roots) && DistinctCertificates(certs)
    requires IsMatching(roots, certs, f)
    ensures Clean(Evaluation(roots, certs, now))
  {
    var a, b := CertKeys(roots, certs), RootKeys(roots);
    forall i | 0 <= i < |f| ensures a[i] == b[f[i]] { MatchingKeys(roots, certs, f, i); }
    PairedPermutation(a, b, f);
    forall s ensures |NonExact(roots, certs, s)| == Count(roots, LegacyFor(s)) { KeyCounts(roots, certs, s); }
    forall i | 0 <= i < |certs|
      ensures !UnknownIn(roots, certs)(certs[i]) && !ChangedIn(roots, certs)(certs[i])
    {
      MatchedIsClean(roots, certs, f, i);
    }
    CountZero(certs, UnknownIn(roots, certs));
    CountZero(certs, ChangedIn(roots, certs));
    MissingCardinality(roots, certs);
    var shortfall := Shortfall(roots, certs);
    forall s ensures shortfall(s) == 0 {
      forall r | r in roots ensures !LostFor(certs, s)(r) {
        var k :| 0 <= k < |roots| && roots[k] == r;
        var i := PairingOnto(f, |roots|, k);
        assert Matches(certs[i], r) && certs[i] in certs;
      }
      CountZero(roots, LostFor(certs, s));
    }
    SumNonNegative(KeysOf(roots), shortfall);
  }

  lemma MatchedIsClean(roots: seq<RootEntry>, certs: seq<Certificate>, f: seq<nat>, i: nat)
    requires DistinctCertHashes(roots) && DistinctCertificates(certs) && IsMatching(roots, certs, f) && i < |certs|
    requires forall s :: |NonExact(roots, certs, s)| == Count(roots, LegacyFor(s))
    ensures !UnknownIn(roots, certs)(certs[i]) && !ChangedIn(roots, certs)(certs[i])
  {
    var c, r := certs[i], roots[f[i]];
    MatchingKeys(roots, certs, f, i);
    assert Matches(c, r) && r in roots && c in certs;
    if Known(roots, c.certHash) {
      OnlyEntry(roots, r);
    } else {
      var group := NonExact(roots, certs, c.spki);
      LessIrreflexive(c.certHash);
      assert Before(group, c) <= group - {c};
      SubsetSize(Before(group, c), group - {c});
    }
  }

  /**
   The meaning of a clean scan: nothing unknown, missing or changed exactly when the observed
   certificates and the baseline entries can be matched one to one.
   */
  lemma CleanIffMatching(roots: seq<RootEntry>, certs: seq<Certificate>, now: int)
    requires DistinctCertHashes(roots) && DistinctCertificates(certs)
    ensures Clean(Evaluation(roots, certs, now)) <==> exists f :: IsMatching(roots, certs, f)
  {
    if Clean(Evaluation(roots, certs, now)) {
      var f := CleanGivesMatching(roots, certs, now);
    }
    if f :| IsMatching(roots, certs, f) {
      MatchingGivesClean(roots, certs, now, f);
    }
  }

  /** The exit status of `check`: zero for a perfect matching without expired certificates. */
  lemma ExitZeroMeansConformant(roots: seq<RootEntry>, certs: seq<Certificate>, now: int)
    requires ValidRoots(roots) && DistinctCertificates(certs)
    ensures CheckExitCode(Evaluation(roots, certs, now)) == 0 <==>
      (exists f :: IsMatching(roots, certs, f)) && forall c :: c in certs ==> now <= c.notAfter
  {
    ValidRootsDistinct(roots);
    CleanIffMatching(roots, certs, now);
    CountZero(certs, ExpiredAt(now));
    assert (forall c :: c in certs ==> !ExpiredAt(now)(c)) <==> forall c :: c in certs ==> now <= c.notAfter;
  }

  lemma ValidRootsDistinct(roots: seq<RootEntry>)
    requires ValidRoots(roots)
    ensures DistinctCertHashes(roots)
    ensures forall s :: Count(roots, LegacyFor(s)) <= 1
  {
    forall i, j | 0 <= i < j < |roots| && roots[i].certHash != "" ensures roots[i].certHash != roots[j].certHash {
      assert RootIdentity(roots[i]) != RootIdentity(roots[j]);
    }
    forall s ensures Count(roots, LegacyFor(s)) <= 1 {
      if i :| 0 <= i < |roots| && LegacyFor(s)(roots[i]) {
        forall j | 0 <= j < |roots| && j != i ensures !LegacyFor(s)(roots[j]) {
          assert RootIdentity(roots[if i < j then i else j]) != RootIdentity(roots[if i < j then j else i]);
        }
        CountOne(roots, LegacyFor(s), i);
      } else {
        CountZero(roots, LegacyFor(s));
      }
    }
  }

  // ----- order does not matter

  lemma SameClass(roots: seq<RootEntry>, roots': seq<RootEntry>, certs: seq<Certificate>, certs': seq<Certificate>,
                  c: Certificate)
    requires multiset(roots) == multiset(roots') && multiset(certs) == multiset(certs')
    ensures Classify(roots, certs, c) == Classify(roots', certs', c)
  {
    assert forall r :: r in roots <==> r in multiset(roots);
    assert forall r :: r in roots' <==> r in multiset(roots');
    SameFree(roots, roots', certs, certs', c.spki);
    CountPermutation(roots, roots', LegacyFor(c.spki));
  }

  lemma SameFree(roots: seq<RootEntry>, roots': seq<RootEntry>, certs: seq<Certificate>, certs': seq<Certificate>,
                 s: string)
    requires multiset(roots) == multiset(roots') && multiset(certs) == multiset(certs')
    ensures NonExact(roots, certs, s) == NonExact(roots', certs', s)
    ensures forall h :: Observed(certs, h) <==> Observed(certs', h)
  {
    assert forall r :: r in roots <==> r in multiset(roots);
    assert forall r :: r in roots' <==> r in multiset(roots');
    assert forall c :: c in certs <==> c in multiset(certs);
    assert forall c :: c in certs' <==> c in multiset(certs');
    assert forall h :: Known(roots, h) <==> Known(roots', h);
  }

  lemma SameShortfall(roots: seq<RootEntry>, roots': seq<RootEntry>, certs: seq<Certificate>, certs': seq<Certificate>,
                      s: string)
    requires multiset(roots) == multiset(roots') && multiset(certs) == multiset(certs')
    ensures ShortfallOf(roots, certs, s) == ShortfallOf(roots', certs', s)
  {
    SameFree(roots, roots', certs, certs', s);
    CountPermutation(roots, roots', LegacyFor(s));
    CountPermutation(roots, roots', LostFor(certs, s));
    CountSame(roots', LostFor(certs, s), LostFor(certs', s));
  }

  lemma SameMissing(roots: seq<RootEntry>, roots': seq<RootEntry>, certs: seq<Certificate>, certs': seq<Certificate>)
    requires multiset(roots) == multiset(roots') && multiset(certs) == multiset(certs')
    ensures MissingAmong(roots, certs, |roots|, AnyKey()) == MissingAmong(roots', certs', |roots'|, AnyKey())
  {
    assert forall r :: r in roots <==> r in multiset(roots);
    assert forall r :: r in roots' <==> r in multiset(roots');
    assert KeysOf(roots) == KeysOf(roots');
    MissingCardinality(roots, certs);
    MissingCardinality(roots', certs');
    var f, g := Shortfall(roots, certs), Shortfall(roots', certs');
    forall s ensures f(s) == g(s) { SameShortfall(roots, roots', certs, certs', s); }
    SumSame(KeysOf(roots), f, g);
  }

  /** Every drift counter is independent of the order of certificates and of baseline entries. */
  lemma CountersIgnoreOrder(roots: seq<RootEntry>, roots': seq<RootEntry>, certs: seq<Certificate>,
                            certs': seq<Certificate>, now: int)
    requires multiset(roots) == multiset(roots') && multiset(certs) == multiset(certs')
    ensures var events := Evaluation(roots, certs, now).events;
      Evaluation(roots, certs, now) == Evaluation(roots', certs', now).(events := events)
  {
    var unknown, unknown' := UnknownIn(roots, certs), UnknownIn(roots', certs');
    var changed, changed' := ChangedIn(roots, certs), ChangedIn(roots', certs');
    forall c ensures unknown(c) == unknown'(c) && changed(c) == changed'(c) {
      SameClass(roots, roots', certs, certs', c);
    }
    CountSame(certs, unknown, unknown');
    CountSame(certs, changed, changed');
    CountPermutation(certs, certs', unknown');
    CountPermutation(certs, certs', changed');
    CountPermutation(certs, certs', ExpiredAt(now));
    CountPermutation(certs, certs', ExpiringAt(now));
    SameMissing(roots, roots', certs, certs');
  }

  lemma {:induction false} SameRemovals(roots: seq<RootEntry>, certs: seq<Certificate>, certs': seq<Certificate>,
                                        n: nat, now: int)
    requires multiset(certs) == multiset(certs') && n <= |roots|
    ensures RemovalEvents(roots, certs, n, now) == RemovalEvents(roots, certs', n, now)
  {
    if n == 0 {
    } else {
      SameRemovals(roots, certs, certs', n - 1, now);
      var r := roots[n - 1];
      SameFree(roots, roots, certs, certs', r.spkiHash);
      CountSame(roots[..n - 1], LostFor(certs, r.spkiHash), LostFor(certs', r.spkiHash));
    }
  }

  /** Reordering the observed certificates reorders the events and changes none of them. */
  lemma EventsIgnoreOrder(roots: seq<RootEntry>, certs: seq<Certificate>, certs': seq<Certificate>, now: int)
    requires multiset(certs) == multiset(certs')
    ensures multiset(Evaluation(roots, certs, now).events) == multiset(Evaluation(roots, certs', now).events)
  {
    var f, g := EventsIn(roots, certs, now), EventsIn(roots, certs', now);
    forall c ensures f(c) == g(c) { SameClass(roots, roots, certs, certs', c); }
    GatherPermutation(certs, certs', f, g);
    SameRemovals(roots, certs, certs', |roots|, now);
  }

  // ----- the check command

  /** Some listing of the store pairs off with the baseline, and nothing in it has expired. */
  ghost predicate Conforms(roots: seq<RootEntry>, store: set<Certificate>, now: int) {
    && (forall c :: c in store ==> now <= c.notAfter)
    && (exists certs, f :: Lists(certs, store) && IsMatching(roots, certs, f))
  }

  ghost predicate Lists(certs: seq<Certificate>, store: set<Certificate>) {
    DistinctCertificates(certs) && forall c :: c in certs <==> c in store
  }

  lemma ListingsPermute(certs: seq<Certificate>, certs': seq<Certificate>, store: set<Certificate>)
    requires Lists(certs, store) && Lists(certs', store)
    ensures multiset(certs) == multiset(certs')
  {
    DistinctMultiset(certs);
    DistinctMultiset(certs');
    forall c ensures multiset(certs)[c] == multiset(certs')[c] {
      assert c in certs <==> c in multiset(certs);
      assert c in certs' <==> c in multiset(certs');
    }
  }

  /**
   A whole `check` on a loaded trust store: exit 2 for an invalid baseline, exit 0 exactly for
   a conforming store, however often and in whatever order the loader met its certificates.
   */
  method Check(roots: seq<RootEntry>, loaded: seq<Certificate>, now: int) returns (code: int)
    requires HashConsistent(loaded)
    ensures code == 2 <==> !ValidRoots(roots)
    ensures code == 0 <==> ValidRoots(roots) && Conforms(roots, (set c | c in loaded), now)
  {
    var valid := ValidateBaseline(roots);
    if valid.Fail? {
      return 2;
    }
    var certs := DeduplicateCertificates(loaded);
    ValidRootsDistinct(roots);
    var result := EvaluateTrustStore(roots, certs, now);
    code := CheckExitCode(result);
    ExitZeroMeansConformant(roots, certs, now);
    ghost var store := set c | c in loaded;
    assert Lists(certs, store);
    if certs', f :| Lists(certs', store) && IsMatching(roots, certs', f) {
      ListingsPermute(certs, certs', store);
      MatchingGivesClean(roots, certs', now, f);
      CountersIgnoreOrder(roots, roots, certs, certs', now);
      CleanIffMatching(roots, certs, now);
    }
  }
}
