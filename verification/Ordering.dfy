/** Byte-wise string order and sorting, as Go's `sort.Strings` provides them. */
module Ordering {

  /** Lexicographic order: the strict total order Go's `<` puts on strings. */
  predicate Less(a: string, b: string) {
    b != [] && (a == [] || a[0] < b[0] || (a[0] == b[0] && Less(a[1..], b[1..])))
  }

  lemma LessIrreflexive(a: string)
    ensures !Less(a, a)
  {}

  lemma LessTransitive(a: string, b: string, c: string)
    requires Less(a, b) && Less(b, c)
    ensures Less(a, c)
  {}

  lemma {:induction false} LessTotal(a: string, b: string)
    ensures a == b || Less(a, b) || Less(b, a)
    ensures !(Less(a, b) && Less(b, a))
  {
    if a == [] || b == [] {
    } else {
      LessTotal(a[1..], b[1..]);
      assert a == [a[0]] + a[1..] && b == [b[0]] + b[1..];
    }
  }

  /** No later element precedes an earlier one. */
  ghost predicate Sorted(s: seq<string>) {
    forall i, j :: 0 <= i < j < |s| ==> !Less(s[j], s[i])
  }

  function Insert(x: string, s: seq<string>): seq<string> {
    if s == [] || !Less(s[0], x) then [x] + s else [s[0]] + Insert(x, s[1..])
  }

  lemma {:induction false} InsertSorted(x: string, s: seq<string>)
    requires Sorted(s)
    ensures Sorted(Insert(x, s)) && multiset(Insert(x, s)) == multiset(s) + multiset{x}
  {
    if s == [] {
    } else {
      assert s == [s[0]] + s[1..];
      if Less(s[0], x) {
        InsertSorted(x, s[1..]);
        PrependSorted(s[0], Insert(x, s[1..]), s, x);
      } else {
        FrontSorted(x, s);
      }
    }
  }

  lemma PrependSorted(h: string, t: seq<string>, s: seq<string>, x: string)
    requires s != [] && h == s[0] && Sorted(s) && Sorted(t) && Less(h, x)
    requires multiset(t) == multiset(s[1..]) + multiset{x}
    ensures Sorted([h] + t)
  {
    forall j | 0 <= j < |t| ensures !Less(t[j], h) {
      assert t[j] in multiset(t);
      LessTotal(h, x);
      if t[j] != x {
        assert t[j] in s[1..];
      }
    }
  }

  lemma FrontSorted(x: string, s: seq<string>)
    requires s != [] && Sorted(s) && !Less(s[0], x)
    ensures Sorted([x] + s)
  {
    forall j | 0 <= j < |s| ensures !Less(s[j], x) {
      if Less(s[j], x) {
        LessTotal(s[0], s[j]);
        if s[0] != s[j] { LessTransitive(s[0], s[j], x); }
      }
    }
  }

  /** `sort.Strings` (and `sort.Slice` with `<`). */
  function Sort(s: seq<string>): seq<string> {
    if s == [] then [] else Insert(s[0], Sort(s[1..]))
  }

  /** The sorted rearrangement of `s`. */
  lemma {:induction false} SortSpec(s: seq<string>)
    ensures Sorted(Sort(s)) && multiset(Sort(s)) == multiset(s)
    ensures |Sort(s)| == |s|
  {
    if s == [] {
    } else {
      assert s == [s[0]] + s[1..];
      SortSpec(s[1..]);
      InsertSorted(s[0], Sort(s[1..]));
    }
    assert |Sort(s)| == |multiset(Sort(s))| && |s| == |multiset(s)|;
  }

  lemma {:induction false} SortedHeadIsLeast(a: seq<string>, b: seq<string>)
    requires a != [] && b != [] && Sorted(a) && Sorted(b) && multiset(a) == multiset(b)
    ensures a[0] == b[0]
  {
    assert a[0] in multiset(b) && b[0] in multiset(a);
    var i :| 0 <= i < |b| && b[i] == a[0];
    var j :| 0 <= j < |a| && a[j] == b[0];
    LessTotal(a[0], b[0]);
  }

  /** Sorting forgets the order it was given: a sorted rearrangement is unique. */
  lemma {:induction false} SortedUnique(a: seq<string>, b: seq<string>)
    requires Sorted(a) && Sorted(b) && multiset(a) == multiset(b)
    ensures a == b
  {
    assert |a| == |multiset(a)| && |b| == |multiset(b)|;
    if a == [] {
    } else {
      SortedHeadIsLeast(a, b);
      assert a == [a[0]] + a[1..] && b == [b[0]] + b[1..];
      assert multiset(a[1..]) == multiset(a) - multiset{a[0]};
      assert multiset(b[1..]) == multiset(b) - multiset{b[0]};
      SortedUnique(a[1..], b[1..]);
    }
  }

  /** Map keys collected in any order and then sorted, as the source lists them. */
  method SortedKeys(keys: set<string>) returns (r: seq<string>)
    ensures Sorted(r)
    ensures forall k :: k in r <==> k in keys
    ensures forall i, j :: 0 <= i < j < |r| ==> Less(r[i], r[j])
  {
    var list: seq<string> := [];
    var rest := keys;
    while rest != {}
      invariant rest <= keys
      invariant forall k :: k in list <==> k in keys && k !in rest
      invariant forall i, j :: 0 <= i < j < |list| ==> list[i] != list[j]
      decreases |rest|
    {
      var k :| k in rest;
      rest := rest - {k};
      list := list + [k];
    }
    r := Sort(list);
    SortSpec(list);
    assert forall k :: k in r <==> k in multiset(r);
    assert forall k :: k in list <==> k in multiset(list);
    DistinctMultiset(list);
    forall i, j | 0 <= i < j < |r| ensures Less(r[i], r[j]) {
      LessTotal(r[i], r[j]);
      if r[i] == r[j] {
        TwoCopies(r, i, j);
      }
    }
  }

  lemma {:induction false} DistinctMultiset<T>(s: seq<T>)
    requires forall i, j :: 0 <= i < j < |s| ==> s[i] != s[j]
    ensures forall x :: multiset(s)[x] <= 1
  {
    if s == [] {
    } else {
      var n := |s| - 1;
      assert s == s[..n] + [s[n]];
      DistinctMultiset(s[..n]);
    }
  }

  lemma TwoCopies<T>(s: seq<T>, i: nat, j: nat)
    requires i < j < |s| && s[i] == s[j]
    ensures multiset(s)[s[i]] >= 2
  {
    assert s == s[..j] + [s[j]] + s[j + 1..];
    assert s[i] in s[..j];
  }

  // ----- records in the order of a key

  ghost predicate InOrder<T>(s: seq<T>, key: T -> string) {
    forall i, j :: 0 <= i < j < |s| ==> !Less(key(s[j]), key(s[i]))
  }

  function InsertBy<T>(x: T, s: seq<T>, key: T -> string): seq<T> {
    if s == [] || !Less(key(s[0]), key(x)) then [x] + s else [s[0]] + InsertBy(x, s[1..], key)
  }

  function SortBy<T>(s: seq<T>, key: T -> string): seq<T> {
    if s == [] then [] else InsertBy(s[0], SortBy(s[1..], key), key)
  }

  lemma {:induction false} InsertByOrdered<T>(x: T, s: seq<T>, key: T -> string)
    requires InOrder(s, key)
    ensures InOrder(InsertBy(x, s, key), key) && multiset(InsertBy(x, s, key)) == multiset(s) + multiset{x}
  {
    if s == [] {
    } else {
      assert s == [s[0]] + s[1..];
      if Less(key(s[0]), key(x)) {
        var t := InsertBy(x, s[1..], key);
        InsertByOrdered(x, s[1..], key);
        forall j | 0 <= j < |t| ensures !Less(key(t[j]), key(s[0])) {
          assert t[j] in multiset(t);
          LessTotal(key(s[0]), key(x));
          assert t[j] == x || t[j] in s[1..];
        }
      } else {
        forall j | 0 <= j < |s| ensures !Less(key(s[j]), key(x)) {
          LessTotal(key(s[0]), key(s[j]));
          if Less(key(s[j]), key(x)) && key(s[0]) != key(s[j]) { LessTransitive(key(s[0]), key(s[j]), key(x)); }
        }
      }
    }
  }

  /** `sort.Slice` by a key: an ordered rearrangement. */
  lemma {:induction false} SortBySpec<T>(s: seq<T>, key: T -> string)
    ensures InOrder(SortBy(s, key), key) && multiset(SortBy(s, key)) == multiset(s)
  {
    if s == [] {
    } else {
      assert s == [s[0]] + s[1..];
      SortBySpec(s[1..], key);
      InsertByOrdered(s[0], SortBy(s[1..], key), key);
    }
  }
}
