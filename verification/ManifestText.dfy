/**
 Manifest documents as decoded and the JSON they are marshalled to: object members in the
 order of the source's structs, maps in the order of their keys. The JSON fixes the document.
 */
module ManifestText {
  import opened Basics
  import opened Ordering
  import opened JsonText
  import opened JsonSpelling
  import opened EnvelopeText

  datatype RawExpectation = RawExpectation(decision: string, reasons: seq<string>)

  datatype RawContract = RawContract(before: RawExpectation, after: RawExpectation, policyAfter: RawExpectation)

  datatype RawManifest = RawManifest(
    id: string, version: int, dependencies: map<string, seq<string>>, profiles: map<string, RawContract>,
    stapling: string)

  // ----- numbers and keys

  lemma {:induction false} DecimalFixesNumber(m: nat, n: nat)
    requires Decimal(m) == Decimal(n)
    ensures m == n
    decreases m
  {
    var a, b := Decimal(m), Decimal(n);
    assert a[|a| - 1] == DIGITS[m % 10] && b[|b| - 1] == DIGITS[n % 10];
    DigitFixed(m % 10, n % 10);
    var front := a[..|a| - 1];
    assert front == (if m < 10 then "" else Decimal(m / 10));
    assert front == (if n < 10 then "" else Decimal(n / 10));
    if m < 10 || n < 10 {
    } else {
      DecimalFixesNumber(m / 10, n / 10);
    }
  }

  lemma DigitFixed(i: nat, j: nat)
    requires i < 10 && j < 10 && DIGITS[i] == DIGITS[j]
    ensures i == j
  {
    assert DIGITS == ['0', '1', '2', '3', '4', '5', '6', '7', '8', '9'];
  }

  function VersionText(v: int): string { if v < 0 then "-" + Decimal(-v) else Decimal(v) }

  lemma {:induction false} DecimalIsDigits(n: nat)
    ensures Decimal(n) != "" && Decimal(n)[0] in DIGITS
  {
    if n < 10 {
      assert Decimal(n) == [DIGITS[n]];
    } else {
      DecimalIsDigits(n / 10);
    }
  }

  lemma NoSignInDigits(n: nat)
    ensures Decimal(n) != "" && Decimal(n)[0] != '-'
  {
    DecimalIsDigits(n);
    var i :| 0 <= i < 10 && DIGITS[i] == Decimal(n)[0];
    assert DIGITS == ['0', '1', '2', '3', '4', '5', '6', '7', '8', '9'];
  }

  lemma {:induction false} VersionSign(v: int)
    ensures VersionText(v) != "" && (VersionText(v)[0] == '-' <==> v < 0)
    ensures v < 0 ==> VersionText(v)[1..] == Decimal(-v)
  {
    if v >= 0 { NoSignInDigits(v); }
  }

  lemma {:induction false} VersionFixed(v: int, w: int)
    requires VersionText(v) == VersionText(w)
    ensures v == w
  {
    VersionSign(v);
    VersionSign(w);
    if v < 0 {
      DecimalFixesNumber(-v, -w);
    } else {
      DecimalFixesNumber(v, w);
    }
  }

  /** The keys of a map as `encoding/json` lists them. */
  ghost function KeysInOrder(keys: set<string>): (r: seq<string>)
    ensures forall k :: k in r ==> k in keys
    decreases |keys|
  {
    if keys == {} then []
    else
      var k :| k in keys;
      var rest := KeysInOrder(keys - {k});
      InsertHolds(k, rest);
      Insert(k, rest)
  }

  lemma {:induction false} InsertHolds(x: string, s: seq<string>)
    ensures forall k :: k in Insert(x, s) <==> k == x || k in s
  {
    if s == [] {
    } else {
      assert s == [s[0]] + s[1..];
      InsertHolds(x, s[1..]);
    }
  }

  lemma {:induction false} KeysListed(keys: set<string>)
    ensures Sorted(KeysInOrder(keys)) && multiset(KeysInOrder(keys)) == multiset(keys)
    decreases |keys|
  {
    if keys == {} {
    } else {
      var k :| k in keys && KeysInOrder(keys) == Insert(k, KeysInOrder(keys - {k}));
      KeysListed(keys - {k});
      InsertSorted(k, KeysInOrder(keys - {k}));
      OneKeyOut(keys, k);
    }
  }

  lemma OneKeyOut(keys: set<string>, k: string)
    requires k in keys
    ensures multiset(keys) == multiset(keys - {k}) + multiset{k}
  {
    assert keys == (keys - {k}) + {k};
  }

  lemma {:induction false} KeysCovered(keys: set<string>)
    ensures forall k :: k in KeysInOrder(keys) <==> k in keys
  {
    KeysListed(keys);
    assert forall k :: k in KeysInOrder(keys) <==> k in multiset(KeysInOrder(keys));
  }

  method ListKeys(keys: set<string>) returns (r: seq<string>)
    ensures r == KeysInOrder(keys)
  {
    r := SortedKeys(keys);
    KeysListed(keys);
    forall i, j | 0 <= i < j < |r| ensures r[i] != r[j] { LessIrreflexive(r[i]); }
    DistinctMultiset(r);
    forall k ensures multiset(r)[k] == multiset(keys)[k] {
      assert k in r <==> k in multiset(r);
    }
    SortedUnique(r, KeysInOrder(keys));
  }

  // ----- the JSON of a document

  function ListJson(s: seq<string>): Value { Array(seq(|s|, i requires 0 <= i < |s| => Text(s[i]))) }

  function ExpectationJson(e: RawExpectation): Value {
    Object([Member("decision", Text(e.decision)), Member("reasons", ListJson(e.reasons))])
  }

  function ContractJson(c: RawContract): Value {
    Object([Member("baseline", Object([Member("before", ExpectationJson(c.before)),
                                       Member("after", ExpectationJson(c.after))])),
            Member("policy", Object([Member("after", ExpectationJson(c.policyAfter))]))])
  }

  ghost function MapJson<V>(m: map<string, V>, f: V -> Value): Value {
    var keys := KeysInOrder(m.Keys);
    Object(seq(|keys|, i requires 0 <= i < |keys| => MemberFor(m, f, keys[i])))
  }

  function MemberFor<V>(m: map<string, V>, f: V -> Value, key: string): Member {
    Member(key, if key in m then f(m[key]) else Object([]))
  }

  function DocumentJson(raw: RawManifest, dependencies: Value, profiles: Value): Value {
    Object([Member("id", Text(raw.id)), Member("version", Atom(VersionText(raw.version))),
            Member("evidence_dependencies", dependencies), Member("profiles", profiles),
            Member("execution", Object([Member("stapling", Text(raw.stapling))]))])
  }

  ghost function ManifestJson(raw: RawManifest): Value {
    DocumentJson(raw, MapJson(raw.dependencies, ListJson), MapJson(raw.profiles, ContractJson))
  }

  /** What the digest of a document is taken over. */
  ghost function Marshalled(raw: RawManifest): Bytes { JsonOf(ManifestJson(raw)) }

  method MarshalMap<V>(m: map<string, V>, f: V -> Value) returns (v: Value)
    ensures v == MapJson(m, f)
  {
    var keys := ListKeys(m.Keys);
    var members: seq<Member> := [];
    for i := 0 to |keys|
      invariant |members| == i && forall k :: 0 <= k < i ==> members[k] == MemberFor(m, f, keys[k])
    {
      members := members + [MemberFor(m, f, keys[i])];
    }
    v := Object(members);
  }

  /** `json.Marshal` of a document. */
  method Marshal(raw: RawManifest) returns (text: Bytes)
    ensures text == Marshalled(raw)
  {
    var dependencies := MarshalMap(raw.dependencies, ListJson);
    var profiles := MarshalMap(raw.profiles, ContractJson);
    text := JsonOf(DocumentJson(raw, dependencies, profiles));
  }

  // ----- the JSON fixes the document

  lemma ListFixed(a: seq<string>, b: seq<string>)
    requires ListJson(a) == ListJson(b)
    ensures a == b
  {
    assert |ListJson(a).items| == |a| && |ListJson(b).items| == |b|;
    forall i | 0 <= i < |a| ensures a[i] == b[i] {
      assert ListJson(a).items[i] == Text(a[i]) && ListJson(b).items[i] == Text(b[i]);
    }
  }

  lemma ExpectationFixed(a: RawExpectation, b: RawExpectation)
    requires ExpectationJson(a) == ExpectationJson(b)
    ensures a == b
  {
    assert ExpectationJson(a).members[0] == ExpectationJson(b).members[0];
    assert ExpectationJson(a).members[1] == ExpectationJson(b).members[1];
    ListFixed(a.reasons, b.reasons);
  }

  lemma ContractFixed(a: RawContract, b: RawContract)
    requires ContractJson(a) == ContractJson(b)
    ensures a == b
  {
    var x, y := ContractJson(a).members, ContractJson(b).members;
    assert x[0].value.members[0] == y[0].value.members[0] && x[0].value.members[1] == y[0].value.members[1];
    assert x[1].value.members[0] == y[1].value.members[0];
    ExpectationFixed(a.before, b.before);
    ExpectationFixed(a.after, b.after);
    ExpectationFixed(a.policyAfter, b.policyAfter);
  }

  lemma KeysFixed<V>(m: map<string, V>, n: map<string, V>, f: V -> Value)
    requires MapJson(m, f) == MapJson(n, f)
    ensures m.Keys == n.Keys
  {
    var keys, others := KeysInOrder(m.Keys), KeysInOrder(n.Keys);
    var members := MapJson(m, f).members;
    assert |members| == |keys| == |others|;
    forall i | 0 <= i < |keys| ensures keys[i] == others[i] {
      assert members[i] == MemberFor(m, f, keys[i]) && members[i] == MemberFor(n, f, others[i]);
    }
    assert keys == others;
    KeysCovered(m.Keys);
    KeysCovered(n.Keys);
    assert forall k :: k in m.Keys <==> k in n.Keys;
  }

  lemma ValuesFixed<V>(m: map<string, V>, n: map<string, V>, f: V -> Value, k: string)
    requires MapJson(m, f) == MapJson(n, f) && m.Keys == n.Keys && k in m
    ensures f(m[k]) == f(n[k])
  {
    var keys := KeysInOrder(m.Keys);
    KeysCovered(m.Keys);
    var i :| 0 <= i < |keys| && keys[i] == k;
    assert MapJson(m, f).members[i] == MemberFor(m, f, k);
    assert MapJson(n, f).members[i] == MemberFor(n, f, k);
  }

  lemma {:induction false} DecimalIsWord(n: nat)
    ensures Word(Decimal(n))
  {
    assert DIGITS == ['0', '1', '2', '3', '4', '5', '6', '7', '8', '9'];
    if n < 10 {
      assert Decimal(n) == [DIGITS[n]];
    } else {
      DecimalIsWord(n / 10);
    }
  }

  lemma VersionIsWord(v: int)
    ensures Word(VersionText(v))
  {
    DecimalIsWord(if v < 0 then -v else v);
  }

  lemma ListWordy(s: seq<string>)
    ensures Wordy(ListJson(s))
  {}

  lemma ExpectationWordy(e: RawExpectation)
    ensures Wordy(ExpectationJson(e))
  {
    ListWordy(e.reasons);
  }

  lemma ContractWordy(c: RawContract)
    ensures Wordy(ContractJson(c))
  {
    ExpectationWordy(c.before);
    ExpectationWordy(c.after);
    ExpectationWordy(c.policyAfter);
    PairWordy("before", ExpectationJson(c.before), "after", ExpectationJson(c.after));
    OneWordy("after", ExpectationJson(c.policyAfter));
    PairWordy("baseline", Object([Member("before", ExpectationJson(c.before)),
                                  Member("after", ExpectationJson(c.after))]),
              "policy", Object([Member("after", ExpectationJson(c.policyAfter))]));
  }

  lemma OneWordy(name: string, v: Value)
    requires Wordy(v)
    ensures Wordy(Object([Member(name, v)]))
  {}

  lemma PairWordy(name: string, v: Value, other: string, w: Value)
    requires Wordy(v) && Wordy(w)
    ensures Wordy(Object([Member(name, v), Member(other, w)]))
  {}

  lemma MapWordy<V>(m: map<string, V>, f: V -> Value)
    requires forall k :: k in m ==> Wordy(f(m[k]))
    ensures Wordy(MapJson(m, f))
  {
    var keys := KeysInOrder(m.Keys);
    forall i | 0 <= i < |keys| ensures Wordy(MemberFor(m, f, keys[i]).value) {
      if keys[i] in m { assert Wordy(f(m[keys[i]])); }
    }
  }

  /** The only number in a document is its version. */
  lemma ManifestWordy(raw: RawManifest)
    ensures Wordy(ManifestJson(raw))
  {
    VersionIsWord(raw.version);
    forall k | k in raw.dependencies ensures Wordy(ListJson(raw.dependencies[k])) {
      ListWordy(raw.dependencies[k]);
    }
    MapWordy(raw.dependencies, ListJson);
    forall k | k in raw.profiles ensures Wordy(ContractJson(raw.profiles[k])) {
      ContractWordy(raw.profiles[k]);
    }
    MapWordy(raw.profiles, ContractJson);
    OneWordy("stapling", Text(raw.stapling));
  }

  /** Documents with the same JSON are the same document. */
  lemma MarshalledFixesDocument(a: RawManifest, b: RawManifest)
    requires Marshalled(a) == Marshalled(b)
    ensures a == b
  {
    ManifestWordy(a);
    ManifestWordy(b);
    JsonFixesValue(ManifestJson(a), ManifestJson(b));
    MembersFixDocument(a, b);
  }

  lemma MembersFixDocument(a: RawManifest, b: RawManifest)
    requires ManifestJson(a) == ManifestJson(b)
    ensures a == b
  {
    var x, y := ManifestJson(a).members, ManifestJson(b).members;
    assert x[0] == y[0] && x[1] == y[1] && x[2] == y[2] && x[3] == y[3] && x[4] == y[4];
    assert x[4].value.members[0] == y[4].value.members[0];
    VersionFixed(a.version, b.version);
    KeysFixed(a.dependencies, b.dependencies, ListJson);
    forall k | k in a.dependencies ensures a.dependencies[k] == b.dependencies[k] {
      ValuesFixed(a.dependencies, b.dependencies, ListJson, k);
      ListFixed(a.dependencies[k], b.dependencies[k]);
    }
    assert a.dependencies == b.dependencies;
    KeysFixed(a.profiles, b.profiles, ContractJson);
    forall k | k in a.profiles ensures a.profiles[k] == b.profiles[k] {
      ValuesFixed(a.profiles, b.profiles, ContractJson, k);
      ContractFixed(a.profiles[k], b.profiles[k]);
    }
    assert a.profiles == b.profiles;
  }
}
