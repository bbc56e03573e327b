/** Loading a list of documents, each of which reads to a keyed value or not at all, into a table. */
module Loading {
  import opened Basics
  import opened Ordering

  ghost predicate AllRead<D, V>(docs: seq<D>, read: D -> Option<(string, V)>) {
    forall i :: 0 <= i < |docs| ==> read(docs[i]).Some?
  }

  ghost predicate DistinctKeys<D, V>(docs: seq<D>, read: D -> Option<(string, V)>)
    requires AllRead(docs, read)
  {
    forall i, j :: 0 <= i < j < |docs| ==> read(docs[i]).value.0 != read(docs[j]).value.0
  }

  ghost predicate Loadable<D, V>(docs: seq<D>, read: D -> Option<(string, V)>) {
    docs != [] && AllRead(docs, read) && DistinctKeys(docs, read)
  }

  ghost predicate Holds<V>(m: map<string, V>, entry: (string, V)) {
    entry.0 in m && m[entry.0] == entry.1
  }

  /** Every document's value is in the table under its key, and nothing else is. */
  ghost predicate Loads<D, V>(docs: seq<D>, read: D -> Option<(string, V)>, m: map<string, V>) {
    && AllRead(docs, read)
    && (forall i :: 0 <= i < |docs| ==> Holds(m, read(docs[i]).value))
    && (forall key :: key in m ==> exists i :: 0 <= i < |docs| && read(docs[i]).value.0 == key)
  }

  lemma EntryFor<D, V>(docs: seq<D>, read: D -> Option<(string, V)>, key: string, m: map<string, V>) returns (j: nat)
    requires Loads(docs, read, m) && key in m
    ensures j < |docs| && read(docs[j]) == Some((key, m[key]))
  {
    j :| 0 <= j < |docs| && read(docs[j]).value.0 == key;
    assert Holds(m, read(docs[j]).value);
  }

  lemma DuplicateKey<D, V>(docs: seq<D>, i: nat, read: D -> Option<(string, V)>, m: map<string, V>)
    requires i < |docs| && Loads(docs[..i], read, m) && read(docs[i]).Some? && read(docs[i]).value.0 in m
    ensures !Loadable(docs, read)
  {
    var j := EntryFor(docs[..i], read, read(docs[i]).value.0, m);
    assert docs[..i][j] == docs[j];
  }

  lemma LoadOneMore<D, V>(docs: seq<D>, i: nat, read: D -> Option<(string, V)>, m: map<string, V>)
    requires i < |docs| && Loads(docs[..i], read, m) && DistinctKeys(docs[..i], read)
    requires read(docs[i]).Some? && read(docs[i]).value.0 !in m
    ensures Loads(docs[..i + 1], read, m[read(docs[i]).value.0 := read(docs[i]).value.1])
    ensures DistinctKeys(docs[..i + 1], read)
  {
    var before, after := docs[..i], docs[..i + 1];
    var (key, value) := read(docs[i]).value;
    var more := m[key := value];
    assert after == before + [docs[i]];
    forall j | 0 <= j < i ensures read(after[j]).value.0 != key && Holds(more, read(after[j]).value) {
      assert Holds(m, read(before[j]).value);
    }
    forall k | k in more ensures exists j :: 0 <= j < |after| && read(after[j]).value.0 == k {
      if k == key {
        assert read(after[i]).value.0 == k;
      } else {
        var j := EntryFor(before, read, k, m);
        assert read(after[j]).value.0 == k;
      }
    }
  }

  lemma SameMembers<T>(a: seq<T>, b: seq<T>)
    requires multiset(a) == multiset(b)
    ensures forall x :: x in a <==> x in b
  {
    assert forall x :: x in a <==> x in multiset(a);
    assert forall x :: x in b <==> x in multiset(b);
  }

  lemma LoadableMoves<D, V>(a: seq<D>, b: seq<D>, read: D -> Option<(string, V)>)
    requires multiset(a) == multiset(b) && Loadable(a, read)
    ensures Loadable(b, read)
  {
    SameMembers(a, b);
    assert a[0] in b;
    forall i | 0 <= i < |b| ensures read(b[i]).Some? {
      assert b[i] in a;
    }
    forall i, j | 0 <= i < j < |b| ensures read(b[i]).value.0 != read(b[j]).value.0 {
      assert b[i] in a && b[j] in a;
      if b[i] == b[j] {
        TwoCopies(b, i, j);
        DistinctMultiset(a);
      }
    }
  }

  lemma LoadsMoves<D, V>(a: seq<D>, b: seq<D>, read: D -> Option<(string, V)>, m: map<string, V>)
    requires multiset(a) == multiset(b) && Loads(a, read, m)
    ensures Loads(b, read, m)
  {
    SameMembers(a, b);
    forall i | 0 <= i < |b| ensures read(b[i]).Some? && Holds(m, read(b[i]).value) {
      assert b[i] in a;
    }
    forall key | key in m ensures exists i :: 0 <= i < |b| && read(b[i]).value.0 == key {
      var j := EntryFor(a, read, key, m);
      assert a[j] in b;
    }
  }

  lemma LoadsOnce<D, V>(docs: seq<D>, read: D -> Option<(string, V)>, m: map<string, V>, n: map<string, V>)
    requires Loads(docs, read, m) && Loads(docs, read, n)
    ensures m == n
  {
    forall key | key in m ensures Holds(n, (key, m[key])) {
      var j := EntryFor(docs, read, key, m);
    }
    forall key | key in n ensures key in m {
      var j := EntryFor(docs, read, key, n);
    }
  }

  lemma OrderIsIrrelevant<D, V>(a: seq<D>, b: seq<D>, read: D -> Option<(string, V)>,
                                m: map<string, V>, n: map<string, V>)
    requires multiset(a) == multiset(b)
    ensures Loadable(a, read) <==> Loadable(b, read)
    ensures Loads(a, read, m) && Loads(b, read, n) ==> m == n
  {
    if Loadable(a, read) { LoadableMoves(a, b, read); }
    if Loadable(b, read) { LoadableMoves(b, a, read); }
    if Loads(a, read, m) && Loads(b, read, n) {
      LoadsMoves(b, a, read, n);
      LoadsOnce(a, read, m, n);
    }
  }
}
