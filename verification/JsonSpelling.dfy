/**
 JSON as `encoding/json` writes it: how strings are quoted and escaped, and why a compact text
 is the text of one value only.
 */
module JsonSpelling {
  import opened Basics
  import opened JsonText
  import opened EnvelopeText

  // ----- a text has one value

  lemma PastOpening(first: Lexeme, body: seq<Lexeme>, close: Lexeme, x: seq<Lexeme>)
    ensures ([first] + body + [close] + x)[0] == first
    ensures ([first] + body + [close] + x)[1..] == body + [close] + x
  {}

  lemma PastOne(first: Lexeme, x: seq<Lexeme>)
    ensures ([first] + x)[0] == first && ([first] + x)[1..] == x
  {}

  /** Values whose texts begin alike are equal, and so is what follows them. */
  lemma {:induction false} FlattenPrefix(v: Value, w: Value, x: seq<Lexeme>, y: seq<Lexeme>)
    requires Flatten(v) + x == Flatten(w) + y
    ensures v == w && x == y
    decreases v, 0
  {
    SameKind(v, w, x, y);
    match v
    case Text(text) => PastOne(Str(text), x); PastOne(Str(w.text), y);
    case Atom(text) => PastOne(Scalar(text), x); PastOne(Scalar(w.text), y);
    case Array(items) =>
      PastOpening(LBracket, FlattenItems(items), RBracket, x);
      PastOpening(LBracket, FlattenItems(w.items), RBracket, y);
      ItemsPrefix(items, w.items, x, y);
    case Object(members) =>
      PastOpening(LBrace, FlattenMembers(members), RBrace, x);
      PastOpening(LBrace, FlattenMembers(w.members), RBrace, y);
      MembersPrefix(members, w.members, x, y);
  }

  lemma {:induction false} SameKind(v: Value, w: Value, x: seq<Lexeme>, y: seq<Lexeme>)
    requires Flatten(v) + x == Flatten(w) + y
    ensures v.Text? == w.Text? && v.Atom? == w.Atom? && v.Array? == w.Array? && v.Object? == w.Object?
  {
    assert (Flatten(v) + x)[0] == Flatten(v)[0] && (Flatten(w) + y)[0] == Flatten(w)[0];
  }

  /** What stands between the first entry of a list and the text after the list. */
  function Tail(last: bool, rest: seq<Lexeme>, close: Lexeme, x: seq<Lexeme>): seq<Lexeme> {
    if last then [close] + x else [Comma] + (rest + [close] + x)
  }

  lemma TailsAgree(
    last: bool, rest: seq<Lexeme>, x: seq<Lexeme>, otherLast: bool, other: seq<Lexeme>, y: seq<Lexeme>, close: Lexeme)
    requires close != Comma && Tail(last, rest, close, x) == Tail(otherLast, other, close, y)
    ensures last == otherLast
    ensures if last then x == y else rest + [close] + x == other + [close] + y
  {
    assert Tail(last, rest, close, x)[0] == Tail(otherLast, other, close, y)[0];
    assert Tail(last, rest, close, x)[1..] == if last then x else rest + [close] + x;
    assert Tail(otherLast, other, close, y)[1..] == if otherLast then y else other + [close] + y;
  }

  lemma ClosedAtOnce(close: Lexeme, x: seq<Lexeme>)
    ensures ([] + [close] + x)[0] == close && ([] + [close] + x)[1..] == x
  {}

  lemma SameHeadAndTail<T>(a: seq<T>, b: seq<T>)
    requires a != [] && b != [] && a[0] == b[0] && a[1..] == b[1..]
    ensures a == b
  {
    assert a == [a[0]] + a[1..] && b == [b[0]] + b[1..];
  }

  function ItemsTail(items: seq<Value>, x: seq<Lexeme>): seq<Lexeme>
    requires items != []
  {
    Tail(|items| == 1, FlattenItems(items[1..]), RBracket, x)
  }

  lemma {:induction false} ItemsSplit(items: seq<Value>, x: seq<Lexeme>)
    requires items != []
    ensures FlattenItems(items) + [RBracket] + x == Flatten(items[0]) + ItemsTail(items, x)
  {
    if |items| == 1 {
      assert FlattenItems(items) == Flatten(items[0]);
    } else {
      Regroup(Flatten(items[0]), [Comma], FlattenItems(items[1..]), [RBracket], x);
    }
  }

  lemma {:induction false} ItemsStart(items: seq<Value>, x: seq<Lexeme>)
    requires items != []
    ensures (FlattenItems(items) + [RBracket] + x)[0] != RBracket
  {
    FirstLexeme(items[0]);
  }

  lemma {:induction false} NoItems(a: seq<Value>, b: seq<Value>, x: seq<Lexeme>, y: seq<Lexeme>)
    requires FlattenItems(a) + [RBracket] + x == FlattenItems(b) + [RBracket] + y && a == []
    ensures b == [] && x == y
  {
    ClosedAtOnce(RBracket, x);
    ClosedAtOnce(RBracket, y);
    if b != [] {
      ItemsStart(b, y);
    }
  }

  lemma {:induction false} ItemsPrefix(a: seq<Value>, b: seq<Value>, x: seq<Lexeme>, y: seq<Lexeme>)
    requires FlattenItems(a) + [RBracket] + x == FlattenItems(b) + [RBracket] + y
    ensures a == b && x == y
    decreases a, 1
  {
    if a == [] {
      NoItems(a, b, x, y);
    } else if b == [] {
      NoItems(b, a, y, x);
    } else {
      ItemsSplit(a, x);
      ItemsSplit(b, y);
      FlattenPrefix(a[0], b[0], ItemsTail(a, x), ItemsTail(b, y));
      TailsAgree(|a| == 1, FlattenItems(a[1..]), x, |b| == 1, FlattenItems(b[1..]), y, RBracket);
      if |a| > 1 {
        ItemsPrefix(a[1..], b[1..], x, y);
      }
      SameHeadAndTail(a, b);
    }
  }

  function MembersTail(members: seq<Member>, x: seq<Lexeme>): seq<Lexeme>
    requires members != []
  {
    Tail(|members| == 1, FlattenMembers(members[1..]), RBrace, x)
  }

  lemma {:induction false} MembersSplit(members: seq<Member>, x: seq<Lexeme>)
    requires members != []
    ensures FlattenMembers(members) + [RBrace] + x
            == [Str(members[0].name), Colon] + (Flatten(members[0].value) + MembersTail(members, x))
  {
    var head, value := [Str(members[0].name), Colon], Flatten(members[0].value);
    if |members| == 1 {
      assert FlattenMembers(members) == head + value;
      assert head + value + [RBrace] + x == head + (value + ([RBrace] + x));
    } else {
      RegroupMember(head, value, [Comma], FlattenMembers(members[1..]), [RBrace], x);
    }
  }

  lemma SameHeads<T>(a: T, b: T, c: T, x: seq<T>, y: seq<T>)
    requires [a, c] + x == [b, c] + y
    ensures a == b && x == y
  {
    assert ([a, c] + x)[0] == a && ([b, c] + y)[0] == b;
    assert ([a, c] + x)[2..] == x && ([b, c] + y)[2..] == y;
  }

  lemma {:induction false} NoMembers(a: seq<Member>, b: seq<Member>, x: seq<Lexeme>, y: seq<Lexeme>)
    requires FlattenMembers(a) + [RBrace] + x == FlattenMembers(b) + [RBrace] + y && a == []
    ensures b == [] && x == y
  {
    ClosedAtOnce(RBrace, x);
    ClosedAtOnce(RBrace, y);
    if b != [] {
      MembersSplit(b, y);
    }
  }

  /** Members whose texts begin alike have the same first member, and what follows it is the same. */
  lemma {:induction false} FirstMember(a: seq<Member>, b: seq<Member>, x: seq<Lexeme>, y: seq<Lexeme>)
    requires a != [] && b != [] && FlattenMembers(a) + [RBrace] + x == FlattenMembers(b) + [RBrace] + y
    ensures a[0].name == b[0].name
    ensures Flatten(a[0].value) + MembersTail(a, x) == Flatten(b[0].value) + MembersTail(b, y)
  {
    MembersSplit(a, x);
    MembersSplit(b, y);
    SameHeads(Str(a[0].name), Str(b[0].name), Colon,
              Flatten(a[0].value) + MembersTail(a, x), Flatten(b[0].value) + MembersTail(b, y));
  }

  lemma {:induction false} MembersPrefix(a: seq<Member>, b: seq<Member>, x: seq<Lexeme>, y: seq<Lexeme>)
    requires FlattenMembers(a) + [RBrace] + x == FlattenMembers(b) + [RBrace] + y
    ensures a == b && x == y
    decreases a, 1
  {
    if a == [] {
      NoMembers(a, b, x, y);
    } else if b == [] {
      NoMembers(b, a, y, x);
    } else {
      FirstMember(a, b, x, y);
      FlattenPrefix(a[0].value, b[0].value, MembersTail(a, x), MembersTail(b, y));
      TailsAgree(|a| == 1, FlattenMembers(a[1..]), x, |b| == 1, FlattenMembers(b[1..]), y, RBrace);
      if |a| > 1 {
        MembersPrefix(a[1..], b[1..], x, y);
      }
      SameHeadAndTail(a, b);
    }
  }

  // ----- escaped characters

  const HEX := "0123456789abcdef"

  /** Control characters, the characters HTML gives a meaning, and two line separators are written as code points. */
  predicate ByCode(c: char) {
    c < ' ' || c in {'<', '>', '&', '\U{2028}', '\U{2029}'}
  }

  /** The last `width` hexadecimal digits of a number. */
  function Code(n: nat, width: nat): (r: string)
    ensures |r| == width
  {
    if width == 0 then "" else Code(n / 16, width - 1) + [HEX[n % 16]]
  }

  /** The character after the backslash of a short escape. */
  function Short(c: char): Option<char> {
    match c
    case '"' => Some('"')
    case '\\' => Some('\\')
    case '\n' => Some('n')
    case '\r' => Some('r')
    case '\t' => Some('t')
    case '\U{8}' => Some('b')
    case '\U{c}' => Some('f')
    case _ => None
  }

  function EscapeChar(c: char): (r: string)
    ensures r != ""
  {
    if Short(c).Some? then ['\\', Short(c).value]
    else if ByCode(c) then "\\u" + Code(c as int, 4)
    else [c]
  }

  function Escape(s: string): string { if s == "" then "" else EscapeChar(s[0]) + Escape(s[1..]) }

  function Quote(s: string): Bytes { "\"" + Escape(s) + "\"" }

  lemma HexFixed(i: nat, j: nat)
    requires i < 16 && j < 16 && HEX[i] == HEX[j]
    ensures i == j
  {
    assert HEX == ['0', '1', '2', '3', '4', '5', '6', '7', '8', '9', 'a', 'b', 'c', 'd', 'e', 'f'];
  }

  function Power16(width: nat): nat { if width == 0 then 1 else 16 * Power16(width - 1) }

  lemma {:induction false} CodeFixed(m: nat, n: nat, width: nat)
    requires m < Power16(width) && n < Power16(width) && Code(m, width) == Code(n, width)
    ensures m == n
    decreases width
  {
    if width == 0 {
    } else {
      var a, b := Code(m, width), Code(n, width);
      assert a[..width - 1] == Code(m / 16, width - 1) && b[..width - 1] == Code(n / 16, width - 1);
      assert a[width - 1] == HEX[m % 16] && b[width - 1] == HEX[n % 16];
      HexFixed(m % 16, n % 16);
      CodeFixed(m / 16, n / 16, width - 1);
    }
  }

  lemma PowerOfFour()
    ensures Power16(4) == 65536
  {
    assert Power16(2) == 256;
    assert Power16(3) == 4096;
  }

  /** How an escaped character begins: as itself, or with a backslash and a mark. */
  function Mark(c: char): Option<char> {
    if Short(c).Some? then Short(c) else if ByCode(c) then Some('u') else None
  }

  lemma Begins(c: char, x: string)
    ensures var all := EscapeChar(c) + x;
      if Mark(c).Some? then |all| >= 2 && all[0] == '\\' && all[1] == Mark(c).value
      else all[0] == c && c != '\\' && c != '"' && all[1..] == x
    ensures Mark(c).Some? && Mark(c).value != 'u' ==> (EscapeChar(c) + x)[2..] == x
    ensures Mark(c) == Some('u') ==>
      |EscapeChar(c) + x| >= 6 && (EscapeChar(c) + x)[2..6] == Code(c as int, 4) && (EscapeChar(c) + x)[6..] == x
  {}

  lemma ShortFixed(c: char, d: char)
    requires Short(c).Some? && Short(c) == Short(d)
    ensures c == d
  {}

  lemma CharFixed(c: char, x: string, d: char, y: string)
    requires EscapeChar(c) + x == EscapeChar(d) + y
    ensures c == d && x == y
  {
    Begins(c, x);
    Begins(d, y);
    if Mark(c) == Some('u') {
      PowerOfFour();
      CodeFixed(c as int, d as int, 4);
    } else if Mark(c).Some? {
      ShortFixed(c, d);
    }
  }

  lemma {:induction false} EscapeFixed(a: string, x: string, b: string, y: string)
    requires Escape(a) + ("\"" + x) == Escape(b) + ("\"" + y)
    ensures a == b && x == y
    decreases |a|
  {
    if a == "" || b == "" {
      NoneLeft(a, x);
      NoneLeft(b, y);
      assert ("\"" + x)[1..] == x && ("\"" + y)[1..] == y;
    } else {
      EscapeSplit(a, "\"" + x);
      EscapeSplit(b, "\"" + y);
      CharFixed(a[0], Escape(a[1..]) + ("\"" + x), b[0], Escape(b[1..]) + ("\"" + y));
      EscapeFixed(a[1..], x, b[1..], y);
      assert a == [a[0]] + a[1..] && b == [b[0]] + b[1..];
    }
  }

  lemma {:induction false} EscapeSplit(a: string, x: string)
    requires a != ""
    ensures Escape(a) + x == EscapeChar(a[0]) + (Escape(a[1..]) + x)
  {}

  /** The closing quote comes first exactly when no character is left. */
  lemma {:induction false} NoneLeft(a: string, x: string)
    ensures (Escape(a) + ("\"" + x))[0] == '"' <==> a == ""
    ensures a == "" ==> Escape(a) + ("\"" + x) == "\"" + x
  {
    if a != "" {
      EscapeSplit(a, "\"" + x);
      Begins(a[0], Escape(a[1..]) + ("\"" + x));
    }
  }

  lemma {:induction false} EscapeCloses(s: string)
    ensures Closes(false, Escape(s) + "\"")
  {
    if s == "" {
    } else {
      EscapeCloses(s[1..]);
      EscapeSplit(s, "\"");
      Begins(s[0], Escape(s[1..]) + "\"");
      CharCloses(s[0], Escape(s[1..]) + "\"");
    }
  }

  lemma CharCloses(c: char, x: string)
    requires Closes(false, x)
    ensures Closes(false, EscapeChar(c) + x)
  {
    Begins(c, x);
    var all := EscapeChar(c) + x;
    if Mark(c) == Some('u') {
      assert all[1..][1..] == Code(c as int, 4) + x;
      CodeCloses(c as int, 4, x);
      assert Closes(true, all[1..]);
    } else if Mark(c).Some? {
      assert all[1..][1..] == x;
      assert Closes(true, all[1..]);
    }
  }

  lemma {:induction false} CodeCloses(n: nat, width: nat, x: string)
    requires Closes(false, x)
    ensures Closes(false, Code(n, width) + x)
    decreases width
  {
    if width == 0 {
      assert Code(n, width) + x == x;
    } else {
      HexCloses(n % 16, x);
      CodeCloses(n / 16, width - 1, [HEX[n % 16]] + x);
      assert Code(n, width) + x == Code(n / 16, width - 1) + ([HEX[n % 16]] + x);
    }
  }

  lemma HexCloses(i: nat, x: string)
    requires i < 16 && Closes(false, x)
    ensures Closes(false, [HEX[i]] + x)
  {
    HexIsPlain(i);
    assert ([HEX[i]] + x)[1..] == x;
  }

  lemma HexIsPlain(i: nat)
    requires i < 16
    ensures HEX[i] != '"' && HEX[i] != '\\'
  {
    assert HEX == ['0', '1', '2', '3', '4', '5', '6', '7', '8', '9', 'a', 'b', 'c', 'd', 'e', 'f'];
  }

  // ----- spelled lexemes

  function Spell(t: Lexeme): Bytes {
    match t
    case LBrace => "{"
    case RBrace => "}"
    case LBracket => "["
    case RBracket => "]"
    case Comma => ","
    case Colon => ":"
    case Str(text) => Quote(text)
    case Scalar(text) => text
    case Bad => ""
  }

  function Spelled(ts: seq<Lexeme>): Bytes { if ts == [] then "" else Spell(ts[0]) + Spelled(ts[1..]) }

  function Pieces(ts: seq<Lexeme>): seq<Bytes> { seq(|ts|, i requires 0 <= i < |ts| => Spell(ts[i])) }

  lemma {:induction false} SpelledIsJoined(ts: seq<Lexeme>)
    ensures Spelled(ts) == Joined(Pieces(ts))
  {
    if ts == [] {
    } else {
      SpelledIsJoined(ts[1..]);
      assert Pieces(ts)[1..] == Pieces(ts[1..]);
    }
  }

  predicate Delimiter(c: char) { c in {'"', '{', '}', '[', ']', ',', ':'} }

  predicate Word(s: string) { s != "" && forall i :: 0 <= i < |s| ==> !Delimiter(s[i]) }

  /** Numbers and literals are words, and stand apart. */
  predicate Clear(t: Lexeme) { !t.Bad? && (t.Scalar? ==> Word(t.text)) }

  ghost predicate Spaced(ts: seq<Lexeme>) {
    && (forall i :: 0 <= i < |ts| ==> Clear(ts[i]))
    && (forall i :: 0 < i < |ts| ==> !(ts[i - 1].Scalar? && ts[i].Scalar?))
  }

  lemma SpellBegins(t: Lexeme)
    requires Clear(t)
    ensures Spell(t) != "" && (Delimiter(Spell(t)[0]) <==> !t.Scalar?)
    ensures t.Str? ==> Spell(t)[0] == '"'
  {}

  lemma {:induction false} WordEnds(a: string, x: string, b: string, y: string)
    requires Word(a) && Word(b) && a + x == b + y
    requires (x == "" || Delimiter(x[0])) && (y == "" || Delimiter(y[0]))
    ensures a == b && x == y
  {
    NoLonger(a, x, b, y);
    NoLonger(b, y, a, x);
    assert (a + x)[..|a|] == a && (b + y)[..|b|] == b && (a + x)[|a|..] == x && (b + y)[|b|..] == y;
  }

  lemma NoLonger(a: string, x: string, b: string, y: string)
    requires Word(b) && a + x == b + y && (x == "" || Delimiter(x[0]))
    ensures |b| <= |a|
  {
    var all := a + x;
    assert forall i :: 0 <= i < |b| ==> all[i] == b[i];
    assert x != "" ==> all[|a|] == x[0];
  }

  /** After a scalar a text ends or goes on with a delimiter. */
  lemma {:induction false} AfterScalar(ts: seq<Lexeme>)
    requires ts != [] && Spaced(ts) && ts[0].Scalar?
    ensures Spelled(ts[1..]) == "" || Delimiter(Spelled(ts[1..])[0])
  {
    if |ts| > 1 {
      assert !(ts[0].Scalar? && ts[1].Scalar?) && Clear(ts[1]);
      SpellBegins(ts[1]);
      assert ts[1..][0] == ts[1];
    }
  }

  lemma {:induction false} SpacedRest(ts: seq<Lexeme>)
    requires ts != [] && Spaced(ts)
    ensures Clear(ts[0]) && Spaced(ts[1..])
  {
    forall i | 0 < i < |ts[1..]| ensures !(ts[1..][i - 1].Scalar? && ts[1..][i].Scalar?) {
      assert !(ts[i].Scalar? && ts[i + 1].Scalar?);
    }
  }

  lemma PastQuote(e: string, x: string)
    ensures ("\"" + e + "\"" + x)[1..] == e + ("\"" + x)
  {}

  lemma QuoteFixed(a: string, x: string, b: string, y: string)
    requires Quote(a) + x == Quote(b) + y
    ensures a == b && x == y
  {
    PastQuote(Escape(a), x);
    PastQuote(Escape(b), y);
    EscapeFixed(a, x, b, y);
  }

  /** The first lexeme can be read off a text, and so can what follows it. */
  lemma {:induction false} FirstFixed(ts: seq<Lexeme>, us: seq<Lexeme>)
    requires ts != [] && us != [] && Spaced(ts) && Spaced(us) && Spelled(ts) == Spelled(us)
    ensures ts[0] == us[0] && Spelled(ts[1..]) == Spelled(us[1..])
  {
    var t, u, x, y := ts[0], us[0], Spelled(ts[1..]), Spelled(us[1..]);
    SpacedRest(ts);
    SpacedRest(us);
    SpellBegins(t);
    SpellBegins(u);
    assert (Spell(t) + x)[0] == Spell(t)[0] && (Spell(u) + y)[0] == Spell(u)[0];
    if t.Scalar? {
      AfterScalar(ts);
      AfterScalar(us);
      WordEnds(t.text, x, u.text, y);
    } else if t.Str? {
      QuoteFixed(t.text, x, u.text, y);
    } else {
      assert |Spell(t)| == 1 && (Spell(t) + x)[1..] == x && (Spell(u) + y)[1..] == y;
    }
  }

  /** A text is spelled by one sequence of lexemes only. */
  lemma {:induction false} SpelledFixed(ts: seq<Lexeme>, us: seq<Lexeme>)
    requires Spaced(ts) && Spaced(us) && Spelled(ts) == Spelled(us)
    ensures ts == us
    decreases |ts|
  {
    if ts == [] || us == [] {
      if ts != [] { SpacedRest(ts); SpellBegins(ts[0]); }
      if us != [] { SpacedRest(us); SpellBegins(us[0]); }
    } else {
      FirstFixed(ts, us);
      SpacedRest(ts);
      SpacedRest(us);
      SpelledFixed(ts[1..], us[1..]);
      SameHeadAndTail(ts, us);
    }
  }

  // ----- the lexemes of a value stand apart

  /** Numbers and literals in a value are words. */
  predicate Wordy(v: Value)
    decreases v
  {
    match v
    case Atom(text) => Word(text)
    case Array(items) => forall i :: 0 <= i < |items| ==> Wordy(items[i])
    case Object(members) => forall i :: 0 <= i < |members| ==> Wordy(members[i].value)
    case Text(_) => true
  }

  lemma SpacedAppend(a: seq<Lexeme>, b: seq<Lexeme>)
    requires Spaced(a) && Spaced(b) && (a != [] && b != [] ==> !a[|a| - 1].Scalar? || !b[0].Scalar?)
    ensures Spaced(a + b)
  {}

  lemma SpacedOne(t: Lexeme)
    requires Clear(t)
    ensures Spaced([t])
  {}

  lemma SpacedBetween(open: Lexeme, inner: seq<Lexeme>, close: Lexeme)
    requires Spaced(inner) && Clear(open) && Clear(close) && !open.Scalar? && !close.Scalar?
    ensures Spaced([open] + inner + [close])
  {
    SpacedOne(open);
    SpacedOne(close);
    SpacedAppend([open], inner);
    SpacedAppend([open] + inner, [close]);
  }

  lemma {:induction false} ValueSpaced(v: Value)
    requires Wordy(v)
    ensures Spaced(Flatten(v))
    decreases v, 0
  {
    match v
    case Text(text) => SpacedOne(Str(text));
    case Atom(text) => SpacedOne(Scalar(text));
    case Array(items) =>
      ItemsSpaced(items);
      SpacedBetween(LBracket, FlattenItems(items), RBracket);
    case Object(members) =>
      MembersSpaced(members);
      SpacedBetween(LBrace, FlattenMembers(members), RBrace);
  }

  lemma {:induction false} ItemsSpaced(items: seq<Value>)
    requires forall i :: 0 <= i < |items| ==> Wordy(items[i])
    ensures Spaced(FlattenItems(items))
    decreases items, 1
  {
    if items == [] {
    } else {
      ValueSpaced(items[0]);
      if |items| == 1 {
        assert FlattenItems(items) == Flatten(items[0]);
      } else {
        ItemsSpaced(items[1..]);
        SpacedOne(Comma);
        SpacedAppend([Comma], FlattenItems(items[1..]));
        SpacedAppend(Flatten(items[0]), [Comma] + FlattenItems(items[1..]));
      }
    }
  }

  lemma {:induction false} MembersSpaced(members: seq<Member>)
    requires forall i :: 0 <= i < |members| ==> Wordy(members[i].value)
    ensures Spaced(FlattenMembers(members))
    decreases members, 1
  {
    if members == [] {
    } else {
      var head, value := [Str(members[0].name), Colon], Flatten(members[0].value);
      ValueSpaced(members[0].value);
      assert Spaced(head);
      SpacedAppend(head, value);
      if |members| == 1 {
        assert FlattenMembers(members) == head + value;
      } else {
        MembersSpaced(members[1..]);
        SpacedOne(Comma);
        SpacedAppend([Comma], FlattenMembers(members[1..]));
        SpacedAppend(head + value, [Comma] + FlattenMembers(members[1..]));
      }
    }
  }

  // ----- the text of a value

  /** `json.Marshal`: the compact text of a value. */
  function JsonOf(v: Value): Bytes { Spelled(Flatten(v)) }

  /** A compact text is the text of one value only. */
  lemma JsonFixesValue(v: Value, w: Value)
    requires Wordy(v) && Wordy(w) && JsonOf(v) == JsonOf(w)
    ensures v == w
  {
    ValueSpaced(v);
    ValueSpaced(w);
    SpelledFixed(Flatten(v), Flatten(w));
    assert Flatten(v) + [] == Flatten(w) + [];
    FlattenPrefix(v, w, [], []);
  }

  lemma SpellSpells(t: Lexeme)
    requires Clear(t)
    ensures Spells(t, Spell(t))
  {
    match t
    case Str(text) =>
      EscapeCloses(text);
      assert Quote(text)[1..] == Escape(text) + "\"";
    case _ =>
  }

  /** The text of an object is one bracketed text. */
  lemma JsonIsObjectText(members: seq<Member>)
    requires Wordy(Object(members))
    ensures ObjectText(JsonOf(Object(members)))
  {
    var ts := Flatten(Object(members));
    ValueSpaced(Object(members));
    forall i | 0 <= i < |ts| ensures Spells(ts[i], Pieces(ts)[i]) {
      SpellSpells(ts[i]);
    }
    SpelledIsJoined(ts);
    ObjectSpelled(members, Pieces(ts));
  }
}
