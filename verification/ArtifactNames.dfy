/** Names under which artifacts are stored. */
module ArtifactNames {

  function TrimSlashes(s: string): string {
    if s != "" && s[|s| - 1] == '/' then TrimSlashes(s[..|s| - 1]) else s
  }

  function AfterSlash(s: string): string {
    if s == "" || s[|s| - 1] == '/' then "" else AfterSlash(s[..|s| - 1]) + [s[|s| - 1]]
  }

  /** `filepath.Base` with slash as the separator. */
  function Base(s: string): string {
    if s == "" then "."
    else if TrimSlashes(s) == "" then "/"
    else AfterSlash(TrimSlashes(s))
  }

  function ReplaceDots(s: string): string {
    if s == "" then ""
    else if |s| >= 2 && s[0] == '.' && s[1] == '.' then "_" + ReplaceDots(s[2..])
    else [s[0]] + ReplaceDots(s[1..])
  }

  function SafeArtifactName(name: string): string {
    var safe := ReplaceDots(Base(name));
    if safe == "." || safe == "" then "artifact" else safe
  }

  ghost predicate HasDotDot(s: string) { exists i :: 0 <= i < |s| - 1 && s[i] == '.' && s[i + 1] == '.' }

  ghost predicate OnlySlashes(s: string) { s != "" && forall i :: 0 <= i < |s| ==> s[i] == '/' }

  lemma {:induction false} TrimmedEnd(s: string)
    ensures TrimSlashes(s) == "" <==> s == "" || OnlySlashes(s)
    ensures TrimSlashes(s) != "" ==> TrimSlashes(s)[|TrimSlashes(s)| - 1] != '/'
  {
    if s == "" || s[|s| - 1] != '/' {
    } else {
      var t := s[..|s| - 1];
      TrimmedEnd(t);
      assert s == t + ['/'];
      if OnlySlashes(s) && t != "" { assert OnlySlashes(t); }
    }
  }

  lemma {:induction false} AfterSlashClean(s: string)
    ensures '/' !in AfterSlash(s)
    ensures s != "" && s[|s| - 1] != '/' ==> AfterSlash(s) != ""
  {
    if s == "" || s[|s| - 1] == '/' {
    } else {
      AfterSlashClean(s[..|s| - 1]);
    }
  }

  lemma {:induction false} DotsReplaced(s: string)
    ensures !HasDotDot(ReplaceDots(s))
    ensures ReplaceDots(s) != "" && ReplaceDots(s)[0] == '.' ==> s[0] == '.'
    ensures s != "" ==> ReplaceDots(s) != ""
    ensures '/' in ReplaceDots(s) <==> '/' in s
  {
    if s == "" {
    } else {
      if |s| >= 2 && s[0] == '.' && s[1] == '.' {
        assert s == [s[0], s[1]] + s[2..];
        DotsReplaced(s[2..]);
        DotDotInTail('_', ReplaceDots(s[2..]));
      } else {
        assert s == [s[0]] + s[1..];
        DotsReplaced(s[1..]);
        DotDotInTail(s[0], ReplaceDots(s[1..]));
      }
    }
  }

  lemma DotDotInTail(c: char, t: string)
    requires !HasDotDot(t) && (c == '.' && t != "" ==> t[0] != '.')
    ensures !HasDotDot([c] + t)
  {
    var s := [c] + t;
    forall i | 0 <= i < |s| - 1 ensures !(s[i] == '.' && s[i + 1] == '.') {
      if i > 0 { assert s[i] == t[i - 1] && s[i + 1] == t[i]; }
    }
  }

  lemma ParentHasDotDot()
    ensures HasDotDot("..")
  {
    assert ".."[0] == '.' && ".."[1] == '.';
  }

  /**
   A stored name has no parent reference and, unless the given name is nothing but slashes, no separator: it
   stays in its directory.
   */
  lemma NameStaysInside(name: string)
    ensures !HasDotDot(SafeArtifactName(name)) && SafeArtifactName(name) != "" && SafeArtifactName(name) != "."
    ensures '/' in SafeArtifactName(name) <==> OnlySlashes(name)
    ensures !OnlySlashes(name) ==> ProperElement(SafeArtifactName(name))
  {
    TrimmedEnd(name);
    AfterSlashClean(TrimSlashes(name));
    DotsReplaced(Base(name));
    assert !HasDotDot("artifact") && '/' !in "artifact";
    ParentHasDotDot();
  }

  /** A stored name with a separator is a lone slash. */
  lemma SlashOnlyAlone(name: string)
    ensures '/' in SafeArtifactName(name) <==> SafeArtifactName(name) == "/"
  {
    NameStaysInside(name);
    TrimmedEnd(name);
    if OnlySlashes(name) {
      assert Base(name) == "/" && ReplaceDots("/") == "/" + ReplaceDots("");
    }
  }

  // ----- which name is stored

  lemma {:induction false} NoDotsNoChange(s: string)
    requires !HasDotDot(s)
    ensures ReplaceDots(s) == s
  {
    if s == "" {
    } else {
      forall i | 0 <= i < |s[1..]| - 1 ensures !(s[1..][i] == '.' && s[1..][i + 1] == '.') {
        assert !(s[i + 1] == '.' && s[i + 2] == '.');
      }
      assert !HasDotDot(s[1..]);
      NoDotsNoChange(s[1..]);
      assert |s| >= 2 ==> !(s[0] == '.' && s[0 + 1] == '.');
      assert s == [s[0]] + s[1..];
    }
  }

  /** The first parent reference in a name becomes an underscore, and what follows is treated likewise. */
  lemma {:induction false} FirstDotsReplaced(before: string, after: string)
    requires !HasDotDot(before + ".")
    ensures ReplaceDots(before + ".." + after) == before + "_" + ReplaceDots(after)
  {
    var s := before + ".." + after;
    if before == "" {
      assert s[2..] == after;
    } else {
      var rest := before[1..];
      assert s[1..] == rest + ".." + after;
      forall i | 0 <= i < |rest + "."| - 1 ensures !((rest + ".")[i] == '.' && (rest + ".")[i + 1] == '.') {
        assert (rest + ".")[i] == (before + ".")[i + 1] && (rest + ".")[i + 1] == (before + ".")[i + 2];
      }
      FirstDotsReplaced(rest, after);
      assert (before + ".")[0] == s[0] && (before + ".")[1] == s[1];
      assert before + "_" + ReplaceDots(after) == [s[0]] + (rest + "_" + ReplaceDots(after));
    }
  }

  lemma {:induction false} AfterLastSlash(directory: string, name: string)
    requires '/' !in name && (directory == "" || directory[|directory| - 1] == '/')
    ensures AfterSlash(directory + name) == name
  {
    var s := directory + name;
    if name == "" {
      assert s == directory;
    } else {
      var n, m := |name| - 1, |s| - 1;
      assert s[m] == name[n] && s[..m] == directory + name[..n];
      AfterLastSlash(directory, name[..n]);
      assert AfterSlash(s) == name[..n] + [name[n]];
    }
  }

  lemma {:induction false} SlashesTrimmed(s: string, slashes: string)
    requires s != "" && s[|s| - 1] != '/' && forall i :: 0 <= i < |slashes| ==> slashes[i] == '/'
    ensures TrimSlashes(s + slashes) == s
  {
    if slashes == "" {
      assert s + slashes == s;
    } else {
      var n := |slashes| - 1;
      assert (s + slashes)[..|s + slashes| - 1] == s + slashes[..n];
      SlashesTrimmed(s, slashes[..n]);
    }
  }

  lemma {:induction false} LastElement(directory: string, name: string, slashes: string)
    requires name != "" && '/' !in name && (directory == "" || directory[|directory| - 1] == '/')
    requires forall i :: 0 <= i < |slashes| ==> slashes[i] == '/'
    ensures Base(directory + name + slashes) == name
  {
    var s := directory + name;
    assert s[|s| - 1] == name[|name| - 1];
    SlashesTrimmed(s, slashes);
    AfterLastSlash(directory, name);
  }

  lemma {:induction false} PlainBase(name: string)
    requires name != "" && '/' !in name
    ensures Base(name) == name
  {
    LastElement("", name, "");
    assert "" + name + "" == name;
  }

  /** A name that is nothing, or a lone dot, is called an artifact. */
  lemma {:induction false} NamelessIsArtifact()
    ensures SafeArtifactName("") == SafeArtifactName(".") == "artifact"
  {
    PlainBase(".");
    NoDotsNoChange(".");
  }

  lemma SameElementSameName(a: string, b: string)
    requires Base(a) == Base(b)
    ensures SafeArtifactName(a) == SafeArtifactName(b)
  {}

  lemma {:induction false} PlainNameKept(name: string)
    requires name != "" && name != "." && '/' !in name && !HasDotDot(name)
    ensures SafeArtifactName(name) == name
  {
    PlainBase(name);
    NoDotsNoChange(name);
  }

  /**
   A name is stored as its last path element, whatever directories are before it and slashes behind it. An element
   without parent references is kept as it is, but for a lone dot.
   */
  lemma {:induction false} StoredAsLastElement(directory: string, name: string, slashes: string)
    requires name != "" && '/' !in name && (directory == "" || directory[|directory| - 1] == '/')
    requires forall i :: 0 <= i < |slashes| ==> slashes[i] == '/'
    ensures SafeArtifactName(directory + name + slashes) == SafeArtifactName(name)
    ensures name != "." && !HasDotDot(name) ==> SafeArtifactName(name) == name
  {
    LastElement(directory, name, slashes);
    PlainBase(name);
    SameElementSameName(directory + name + slashes, name);
    if name != "." && !HasDotDot(name) { PlainNameKept(name); }
  }

  // ----- joined paths

  /** The parts of a text between slashes. */
  function Parts(s: string): (r: seq<string>)
    ensures |r| >= 1
  {
    if s == "" then [""]
    else
      var rest := Parts(s[1..]);
      if s[0] == '/' then [""] + rest else [[s[0]] + rest[0]] + rest[1..]
  }

  function AllParts(elements: seq<string>): seq<string> {
    if elements == [] then [] else Parts(elements[0]) + AllParts(elements[1..])
  }

  /** The first element that is not empty starts at the root. */
  predicate Rooted(elements: seq<string>) {
    elements != [] && if elements[0] == "" then Rooted(elements[1..]) else elements[0][0] == '/'
  }

  /** `filepath.Clean`: empty parts and dots disappear, a parent reference takes the part before it along. */
  function Walk(rooted: bool, parts: seq<string>, kept: seq<string>): seq<string> {
    if parts == [] then kept
    else if parts[0] == "" || parts[0] == "." then Walk(rooted, parts[1..], kept)
    else if parts[0] != ".." then Walk(rooted, parts[1..], kept + [parts[0]])
    else if kept != [] && kept[|kept| - 1] != ".." then Walk(rooted, parts[1..], kept[..|kept| - 1])
    else Walk(rooted, parts[1..], if rooted then kept else kept + [parts[0]])
  }

  function Slashed(parts: seq<string>): string {
    if parts == [] then "" else if |parts| == 1 then parts[0] else parts[0] + ("/" + Slashed(parts[1..]))
  }

  /** `filepath.Join` with slash as the separator. */
  function JoinPath(elements: seq<string>): string {
    var parts := Walk(Rooted(elements), AllParts(elements), []);
    if Rooted(elements) then "/" + Slashed(parts)
    else if parts != [] then Slashed(parts)
    else if forall i :: 0 <= i < |elements| ==> elements[i] == "" then ""
    else "."
  }

  /** A name that stands for itself in a path. */
  predicate ProperElement(s: string) { s != "" && s != "." && s != ".." && '/' !in s }

  lemma {:induction false} OnePart(s: string)
    requires '/' !in s
    ensures Parts(s) == [s]
  {
    if s == "" {
    } else {
      OnePart(s[1..]);
      assert s == [s[0]] + s[1..];
    }
  }

  lemma {:induction false} PiecesOfParts(elements: seq<string>)
    requires forall i :: 0 <= i < |elements| ==> '/' !in elements[i]
    ensures AllParts(elements) == elements
  {
    if elements == [] {
    } else {
      OnePart(elements[0]);
      PiecesOfParts(elements[1..]);
      assert elements == [elements[0]] + elements[1..];
    }
  }

  lemma {:induction false} ProperWalk(parts: seq<string>, kept: seq<string>)
    requires forall i :: 0 <= i < |parts| ==> ProperElement(parts[i])
    ensures Walk(false, parts, kept) == kept + parts
    decreases |parts|
  {
    if parts == [] {
      assert kept + parts == kept;
    } else {
      ProperWalk(parts[1..], kept + [parts[0]]);
      assert kept + parts == kept + [parts[0]] + parts[1..];
    }
  }

  /** Proper names are joined as they are. */
  lemma ProperJoin(elements: seq<string>)
    requires elements != [] && forall i :: 0 <= i < |elements| ==> ProperElement(elements[i])
    ensures JoinPath(elements) == Slashed(elements)
  {
    PiecesOfParts(elements);
    ProperWalk(elements, []);
    assert [] + elements == elements;
    assert ProperElement(elements[0]);
  }

  lemma FirstSlash(a: string, x: string, b: string, y: string)
    requires '/' !in b && a + ("/" + x) == b + ("/" + y)
    ensures |b| <= |a|
  {
    assert (a + ("/" + x))[|a|] == '/';
    assert forall i :: 0 <= i < |b| ==> (b + ("/" + y))[i] == b[i];
  }

  lemma SplitAtSlash(a: string, x: string, b: string, y: string)
    requires '/' !in a && '/' !in b && a + ("/" + x) == b + ("/" + y)
    ensures a == b && x == y
  {
    FirstSlash(a, x, b, y);
    FirstSlash(b, y, a, x);
    var all := a + ("/" + x);
    assert all[..|a|] == a && all[..|b|] == b && all[|a| + 1..] == x && all[|b| + 1..] == y;
  }

  lemma MoreThanOne(parts: seq<string>)
    requires |parts| >= 1 && '/' !in parts[0]
    ensures '/' in Slashed(parts) <==> |parts| > 1
  {
    if |parts| > 1 { assert Slashed(parts)[|parts[0]|] == '/'; }
  }

  /** Joined names can be read off their path. */
  lemma {:induction false} SlashedFixed(a: seq<string>, b: seq<string>)
    requires a != [] && b != [] && Slashed(a) == Slashed(b)
    requires forall i :: 0 <= i < |a| ==> '/' !in a[i]
    requires forall i :: 0 <= i < |b| ==> '/' !in b[i]
    ensures a == b
    decreases |a|
  {
    MoreThanOne(a);
    MoreThanOne(b);
    if |a| == 1 {
    } else {
      SplitAtSlash(a[0], Slashed(a[1..]), b[0], Slashed(b[1..]));
      SlashedFixed(a[1..], b[1..]);
      assert a == [a[0]] + a[1..] && b == [b[0]] + b[1..];
    }
  }
}
