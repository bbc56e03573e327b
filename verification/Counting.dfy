/** Counting over sequences and sets: the arithmetic behind the drift budgets. */
module Counting {

  /** How many elements of `xs` satisfy `p`. */
  ghost function Count<T>(xs: seq<T>, p: T -> bool): nat {
    if xs == [] then 0 else Count(xs[..|xs| - 1], p) + (if p(xs[|xs| - 1]) then 1 else 0)
  }

  function Without<T>(xs: seq<T>, i: nat): (r: seq<T>)
    requires i < |xs|
    ensures |r| == |xs| - 1
    ensures multiset(r) == multiset(xs) - multiset{xs[i]}
  {
    assert xs == xs[..i] + [xs[i]] + xs[i + 1..];
    xs[..i] + xs[i + 1..]
  }

  lemma WithoutInner<T>(xs: seq<T>, i: nat)
    requires i + 1 < |xs|
    ensures var n := |xs| - 1; var rest := Without(xs, i);
      rest != [] && rest[..|rest| - 1] == Without(xs[..n], i) && rest[|rest| - 1] == xs[n] && xs[..n][i] == xs[i]
  {}

  lemma {:induction false} CountWithout<T>(xs: seq<T>, i: nat, p: T -> bool)
    requires i < |xs|
    ensures Count(xs, p) == Count(Without(xs, i), p) + (if p(xs[i]) then 1 else 0)
  {
    var n := |xs| - 1;
    if i == n {
      assert Without(xs, i) == xs[..n];
    } else {
      CountWithout(xs[..n], i, p);
      WithoutInner(xs, i);
    }
  }

  /** A count does not depend on the order of the list. */
  lemma {:induction false} CountPermutation<T>(xs: seq<T>, ys: seq<T>, p: T -> bool)
    requires multiset(xs) == multiset(ys)
    ensures Count(xs, p) == Count(ys, p)
  {
    assert |xs| == |multiset(xs)| && |ys| == |multiset(ys)|;
    if xs == [] {
    } else {
      var n := |xs| - 1;
      assert xs == xs[..n] + [xs[n]];
      assert xs[n] in multiset(ys);
      var i :| 0 <= i < |ys| && ys[i] == xs[n];
      CountPermutation(xs[..n], Without(ys, i), p);
      CountWithout(ys, i, p);
    }
  }

  /** The lists `f` makes of the elements of `xs`, one after another. */
  ghost function Gather<T, E>(xs: seq<T>, f: T -> seq<E>): seq<E> {
    if xs == [] then [] else Gather(xs[..|xs| - 1], f) + f(xs[|xs| - 1])
  }

  lemma {:induction false} GatherWithout<T, E>(xs: seq<T>, i: nat, f: T -> seq<E>)
    requires i < |xs|
    ensures multiset(Gather(xs, f)) == multiset(Gather(Without(xs, i), f)) + multiset(f(xs[i]))
  {
    var n := |xs| - 1;
    var last := multiset(f(xs[n]));
    assert multiset(Gather(xs, f)) == multiset(Gather(xs[..n], f)) + last by { GatherLast(xs, f); }
    if i == n {
      assert Without(xs, i) == xs[..n];
    } else {
      var inner := Without(xs[..n], i);
      assert multiset(Gather(xs[..n], f)) == multiset(Gather(inner, f)) + multiset(f(xs[i])) by {
        GatherWithout(xs[..n], i, f);
        assert xs[..n][i] == xs[i];
      }
      assert multiset(Gather(Without(xs, i), f)) == multiset(Gather(inner, f)) + last by {
        WithoutInner(xs, i);
        GatherLast(Without(xs, i), f);
      }
      SwapAdded(multiset(Gather(inner, f)), multiset(f(xs[i])), last);
    }
  }

  lemma SwapAdded<E>(a: multiset<E>, b: multiset<E>, c: multiset<E>)
    ensures a + b + c == a + c + b
  {}

  lemma GatherLast<T, E>(xs: seq<T>, f: T -> seq<E>)
    requires xs != []
    ensures multiset(Gather(xs, f)) == multiset(Gather(xs[..|xs| - 1], f)) + multiset(f(xs[|xs| - 1]))
  {}

  /** Reordering a list, with functions that agree on it, only reorders what is gathered. */
  lemma {:induction false} GatherPermutation<T, E>(xs: seq<T>, ys: seq<T>, f: T -> seq<E>, g: T -> seq<E>)
    requires multiset(xs) == multiset(ys) && forall x :: x in xs ==> f(x) == g(x)
    ensures multiset(Gather(xs, f)) == multiset(Gather(ys, g))
  {
    assert |xs| == |multiset(xs)| && |ys| == |multiset(ys)|;
    if xs == [] {
    } else {
      var n := |xs| - 1;
      assert xs == xs[..n] + [xs[n]];
      assert xs[n] in multiset(ys);
      var i :| 0 <= i < |ys| && ys[i] == xs[n];
      GatherPermutation(xs[..n], Without(ys, i), f, g);
      GatherWithout(ys, i, g);
    }
  }

  /** Pointwise equal predicates count the same. */
  lemma {:induction false} CountSame<T>(xs: seq<T>, p: T -> bool, q: T -> bool)
    requires forall x :: x in xs ==> p(x) == q(x)
    ensures Count(xs, p) == Count(xs, q)
  {
    if xs == [] {
    } else {
      CountSame(xs[..|xs| - 1], p, q);
    }
  }

  lemma {:induction false} CountZero<T>(xs: seq<T>, p: T -> bool)
    ensures Count(xs, p) == 0 <==> forall x :: x in xs ==> !p(x)
  {
    if xs == [] {
    } else {
      var n := |xs| - 1;
      CountZero(xs[..n], p);
      assert xs == xs[..n] + [xs[n]];
    }
  }

  lemma {:induction false} CountPrefix<T>(xs: seq<T>, k: nat, p: T -> bool)
    requires k < |xs|
    ensures Count(xs[..k + 1], p) == Count(xs[..k], p) + (if p(xs[k]) then 1 else 0)
    ensures Count(xs[..k + 1], p) <= Count(xs, p)
    decreases |xs| - k
  {
    assert xs[..k + 1][..k] == xs[..k];
    if k + 1 < |xs| {
      CountPrefix(xs, k + 1, p);
    } else {
      assert xs[..k + 1] == xs;
    }
  }

  lemma {:induction false} CountSplit<T>(xs: seq<T>, p: T -> bool, q: T -> bool, whole: T -> bool)
    requires forall x :: x in xs ==> (whole(x) <==> p(x) || q(x)) && !(p(x) && q(x))
    ensures Count(xs, whole) == Count(xs, p) + Count(xs, q)
  {
    if xs == [] {
    } else {
      CountSplit(xs[..|xs| - 1], p, q, whole);
    }
  }

  lemma {:induction false} CountAppend<T>(a: seq<T>, b: seq<T>, p: T -> bool)
    ensures Count(a + b, p) == Count(a, p) + Count(b, p)
  {
    if b == [] {
      assert a + b == a;
    } else {
      var n := |b| - 1;
      assert (a + b)[..|a + b| - 1] == a + b[..n];
      CountAppend(a, b[..n], p);
    }
  }

  lemma CountOneMore<T>(a: seq<T>, x: T, p: T -> bool)
    ensures Count(a + [x], p) == Count(a, p) + if p(x) then 1 else 0
  {
    assert (a + [x])[..|a|] == a;
  }

  lemma {:induction false} CountUniform<T>(xs: seq<T>, p: T -> bool, all: bool)
    requires forall i :: 0 <= i < |xs| ==> (p(xs[i]) <==> all)
    ensures Count(xs, p) == if all then |xs| else 0
  {
    if xs == [] {
    } else {
      CountUniform(xs[..|xs| - 1], p, all);
    }
  }

  lemma {:induction false} CountFewer<T>(xs: seq<T>, p: T -> bool, q: T -> bool)
    requires forall x :: x in xs && p(x) ==> q(x)
    ensures Count(xs, p) <= Count(xs, q)
  {
    if xs == [] {
    } else {
      CountFewer(xs[..|xs| - 1], p, q);
    }
  }

  ghost function Selected<T>(xs: seq<T>, p: T -> bool): set<T> {
    set x | x in xs && p(x)
  }

  /** In a list without repetition a count is the size of the set counted. */
  lemma {:induction false} CountDistinct<T>(xs: seq<T>, p: T -> bool)
    requires forall i, j :: 0 <= i < j < |xs| ==> xs[i] != xs[j]
    ensures Count(xs, p) == |Selected(xs, p)|
  {
    if xs != [] {
      var n := |xs| - 1;
      CountDistinct(xs[..n], p);
      assert xs == xs[..n] + [xs[n]];
      assert Selected(xs, p) == Selected(xs[..n], p) + if p(xs[n]) then {xs[n]} else {};
    } else {
      assert Selected(xs, p) == {};
    }
  }

  /** A predicate that holds at one position only counts one. */
  lemma CountOne<T>(xs: seq<T>, p: T -> bool, i: nat)
    requires i < |xs| && p(xs[i]) && forall j :: 0 <= j < |xs| && j != i ==> !p(xs[j])
    ensures Count(xs, p) == 1
  {
    CountWithout(xs, i, p);
    CountZero(Without(xs, i), p);
  }

  ghost function ImageOf<T>(xs: seq<T>, p: T -> bool, key: T -> string): set<string> {
    set x | x in xs && p(x) :: key(x)
  }

  /** Where the counted elements have different keys, a count is the number of keys. */
  lemma {:induction false} CountImage<T>(xs: seq<T>, p: T -> bool, key: T -> string)
    requires forall i, j :: 0 <= i < j < |xs| && p(xs[i]) && p(xs[j]) ==> key(xs[i]) != key(xs[j])
    ensures Count(xs, p) == |ImageOf(xs, p, key)|
  {
    if xs != [] {
      var n := |xs| - 1;
      CountImage(xs[..n], p, key);
      assert xs == xs[..n] + [xs[n]];
      assert ImageOf(xs, p, key) == ImageOf(xs[..n], p, key) + if p(xs[n]) then {key(xs[n])} else {};
    } else {
      assert ImageOf(xs, p, key) == {};
    }
  }

  ghost function KeyEquals<T, K>(key: T -> K, k: K): T -> bool { x => key(x) == k }

  /** The multiplicity of a key among the keys of a list is a count over the list. */
  lemma {:induction false} CountKey<T, K>(xs: seq<T>, keys: seq<K>, key: T -> K, k: K)
    requires |xs| == |keys| && forall i :: 0 <= i < |xs| ==> keys[i] == key(xs[i])
    ensures multiset(keys)[k] == Count(xs, KeyEquals(key, k))
  {
    if xs == [] {
    } else {
      var n := |xs| - 1;
      CountKey(xs[..n], keys[..n], key, k);
      assert keys == keys[..n] + [keys[n]];
    }
  }

  /** The sum of `f` over a finite set. */
  ghost function Sum(keys: set<string>, f: string -> int): int {
    if keys == {} then 0 else var k :| k in keys; f(k) + Sum(keys - {k}, f)
  }

  lemma {:induction false} SumPick(keys: set<string>, f: string -> int, x: string)
    requires x in keys
    ensures Sum(keys, f) == f(x) + Sum(keys - {x}, f)
    decreases |keys|
  {
    var k :| k in keys && Sum(keys, f) == f(k) + Sum(keys - {k}, f);
    if k == x {
    } else {
      SumPick(keys - {k}, f, x);
      SumPick(keys - {x}, f, k);
      assert keys - {k} - {x} == keys - {x} - {k};
    }
  }

  lemma {:induction false} SumSame(keys: set<string>, f: string -> int, g: string -> int)
    requires forall k :: k in keys ==> f(k) == g(k)
    ensures Sum(keys, f) == Sum(keys, g)
    decreases |keys|
  {
    if keys == {} {
    } else {
      var k :| k in keys;
      SumPick(keys, f, k);
      SumPick(keys, g, k);
      SumSame(keys - {k}, f, g);
    }
  }

  /** Changing a function at one key changes its sum by the difference there. */
  lemma SumChange(keys: set<string>, f: string -> int, g: string -> int, x: string)
    requires x in keys && forall k :: k in keys && k != x ==> f(k) == g(k)
    ensures Sum(keys, g) == Sum(keys, f) - f(x) + g(x)
  {
    SumPick(keys, f, x);
    SumPick(keys, g, x);
    SumSame(keys - {x}, f, g);
  }

  lemma {:induction false} SumNonNegative(keys: set<string>, f: string -> int)
    requires forall k :: k in keys ==> f(k) >= 0
    ensures Sum(keys, f) >= 0
    ensures Sum(keys, f) == 0 <==> forall k :: k in keys ==> f(k) == 0
    decreases |keys|
  {
    if keys == {} {
    } else {
      var k :| k in keys;
      SumPick(keys, f, k);
      SumNonNegative(keys - {k}, f);
    }
  }

  ghost function AtKey<T>(p: T -> bool, key: T -> string, k: string): T -> bool { x => p(x) && key(x) == k }

  ghost function CountAt<T>(xs: seq<T>, p: T -> bool, key: T -> string): string -> int {
    k => Count(xs, AtKey(p, key, k))
  }

  /** A list counted key by key. */
  lemma {:induction false} CountByKey<T>(xs: seq<T>, p: T -> bool, key: T -> string, keys: set<string>)
    requires forall x :: x in xs && p(x) ==> key(x) in keys
    ensures Count(xs, p) == Sum(keys, CountAt(xs, p, key))
  {
    var f := CountAt(xs, p, key);
    if xs == [] {
      SumNonNegative(keys, f);
    } else {
      var n := |xs| - 1;
      var g := CountAt(xs[..n], p, key);
      CountByKey(xs[..n], p, key, keys);
      if p(xs[n]) {
        SumChange(keys, g, f, key(xs[n]));
      } else {
        SumSame(keys, f, g);
      }
    }
  }

  /** `f` pairs every position of `a` with its own position of `b`. */
  ghost predicate IsPairing(f: seq<nat>, n: nat, m: nat) {
    && |f| == n == m
    && (forall i :: 0 <= i < |f| ==> f[i] < m)
    && (forall i, j :: 0 <= i < j < |f| ==> f[i] != f[j])
  }

  /** Two lists with the same elements can be paired off, equal with equal. */
  lemma {:induction false} PairEqual<K>(a: seq<K>, b: seq<K>) returns (f: seq<nat>)
    requires multiset(a) == multiset(b)
    ensures IsPairing(f, |a|, |b|)
    ensures forall i :: 0 <= i < |f| ==> a[i] == b[f[i]]
  {
    assert |a| == |multiset(a)| && |b| == |multiset(b)|;
    if a == [] {
      f := [];
    } else {
      var n := |a| - 1;
      assert a == a[..n] + [a[n]];
      assert a[n] in multiset(b);
      var j: nat :| j < |b| && b[j] == a[n];
      var g := PairEqual(a[..n], Without(b, j));
      f := Extend(a, b, j, g);
    }
  }

  lemma Extend<K>(a: seq<K>, b: seq<K>, j: nat, g: seq<nat>) returns (f: seq<nat>)
    requires a != [] && |a| == |b| && j < |b| && b[j] == a[|a| - 1]
    requires IsPairing(g, |a| - 1, |b| - 1)
    requires forall i :: 0 <= i < |g| ==> a[i] == Without(b, j)[g[i]]
    ensures IsPairing(f, |a|, |b|)
    ensures forall i :: 0 <= i < |f| ==> a[i] == b[f[i]]
  {
    var n := |g|;
    f := SkipOver(g, j) + [j];
    forall i | 0 <= i < |f| ensures f[i] < |b| && a[i] == b[f[i]] {
      if i < n {
        assert a[i] == Without(b, j)[g[i]];
      }
    }
    forall i, k | 0 <= i < k < |f| ensures f[i] != f[k] {
      assert i < n;
      if k < n {
        assert g[i] != g[k];
      }
    }
  }

  /** Positions of a list from which position `j` was removed, as positions of the whole list. */
  function SkipOver(g: seq<nat>, j: nat): (f: seq<nat>)
    ensures |f| == |g|
    ensures forall i :: 0 <= i < |g| ==> f[i] == if g[i] < j then g[i] else g[i] + 1
  {
    seq(|g|, i requires 0 <= i < |g| => if g[i] < j then g[i] else g[i] + 1)
  }

  /** Conversely, a pairing of equal elements makes the two lists permutations. */
  lemma {:induction false} PairedPermutation<K>(a: seq<K>, b: seq<K>, f: seq<nat>)
    requires IsPairing(f, |a|, |b|)
    requires forall i :: 0 <= i < |f| ==> a[i] == b[f[i]]
    ensures multiset(a) == multiset(b)
  {
    if a == [] {
      assert b == [];
    } else {
      var n := |a| - 1;
      var j := f[n];
      var g := Shrink(a, b, f);
      PairedPermutation(a[..n], Without(b, j), g);
      LastOut(a);
      OneOut(b, j);
    }
  }

  lemma OneOut<T>(s: seq<T>, j: nat)
    requires j < |s|
    ensures multiset(s) == multiset(Without(s, j)) + multiset{s[j]}
  {
    assert s[j] in multiset(s);
  }

  lemma LastOut<T>(a: seq<T>)
    requires a != []
    ensures multiset(a) == multiset(a[..|a| - 1]) + multiset{a[|a| - 1]}
  {
    assert a == a[..|a| - 1] + [a[|a| - 1]];
  }

  lemma Shrink<K>(a: seq<K>, b: seq<K>, f: seq<nat>) returns (g: seq<nat>)
    requires a != [] && IsPairing(f, |a|, |b|)
    requires forall i :: 0 <= i < |f| ==> a[i] == b[f[i]]
    ensures IsPairing(g, |a| - 1, |b| - 1)
    ensures forall i :: 0 <= i < |g| ==> a[i] == Without(b, f[|a| - 1])[g[i]]
  {
    var n := |a| - 1;
    var j := f[n];
    assert forall i :: 0 <= i < n ==> f[i] != j;
    g := seq(n, i requires 0 <= i < n => if f[i] < j then f[i] else (f[i] - 1) as nat);
    forall i, k | 0 <= i < k < n ensures g[i] != g[k] {
      assert f[i] != f[k];
    }
  }

  /** Pigeonhole: a pairing reaches every position. */
  lemma {:induction false} PairingOnto(f: seq<nat>, m: nat, k: nat) returns (i: nat)
    requires IsPairing(f, |f|, m) && k < m
    ensures i < |f| && f[i] == k
  {
    if k !in f {
      var hit := set v | v in f;
      DistinctSize(f);
      var all := Below(m);
      assert hit <= all - {k};
      SubsetSize(hit, all - {k});
      assert false;
    }
    i :| 0 <= i < |f| && f[i] == k;
  }

  lemma {:induction false} DistinctSize<T>(s: seq<T>)
    requires forall i, j :: 0 <= i < j < |s| ==> s[i] != s[j]
    ensures |set v | v in s| == |s|
  {
    if s == [] {
      assert (set v | v in s) == {};
    } else {
      var n := |s| - 1;
      DistinctSize(s[..n]);
      assert s == s[..n] + [s[n]];
      assert (set v | v in s) == (set v | v in s[..n]) + {s[n]};
    }
  }

  ghost function Below(m: nat): (r: set<nat>)
    ensures |r| == m && forall v: nat :: v in r <==> v < m
  {
    if m == 0 then {} else Below(m - 1) + {m - 1}
  }

  lemma {:induction false} SubsetSize<T>(a: set<T>, b: set<T>)
    requires a <= b
    ensures |a| <= |b|
    ensures |a| == |b| ==> a == b
  {
    assert b == a + (b - a);
    assert |b| == |a| + |b - a|;
  }
}
