/**
 The attestation envelope as bytes. The payload is carried unchanged, and because the text of
 a JSON object ends itself, an envelope can be read back: it fixes the payload it was built around.
 */
module EnvelopeText {
  import opened Basics
  import opened JsonText

  type Bytes = string

  // ----- where the text of a JSON object ends

  /** Nesting depth, whether inside a string, and whether the next character is escaped. */
  datatype Lex = Lex(depth: nat, quoted: bool, escaped: bool)

  const OUTSIDE := Lex(0, false, false)

  function After(l: Lex, c: char): Lex {
    if l.escaped then l.(escaped := false)
    else if l.quoted then
      if c == '\\' then l.(escaped := true) else if c == '"' then l.(quoted := false) else l
    else if c == '"' then l.(quoted := true)
    else if c == '{' || c == '[' then l.(depth := l.depth + 1)
    else if (c == '}' || c == ']') && l.depth > 0 then l.(depth := l.depth - 1)
    else l
  }

  function Read(l: Lex, s: Bytes): Lex
    decreases |s|
  {
    if s == "" then l else Read(After(l, s[0]), s[1..])
  }

  /** Reading `s` from `l` is never outside again, not even at the end. */
  predicate StaysInside(l: Lex, s: Bytes)
    decreases |s|
  {
    s == "" || (After(l, s[0]) != OUTSIDE && StaysInside(After(l, s[0]), s[1..]))
  }

  /** One bracketed text: it opens with its first character and closes with its last, not before. */
  predicate ObjectText(s: Bytes) {
    |s| >= 2 && s[0] == '{' && StaysInside(OUTSIDE, s[..|s| - 1]) && Read(OUTSIDE, s) == OUTSIDE
  }

  /** How many characters it takes to be outside again. */
  function Length(l: Lex, s: Bytes): (n: nat)
    ensures n <= |s|
    decreases |s|
  {
    if s == "" then 0
    else if After(l, s[0]) == OUTSIDE then 1
    else 1 + Length(After(l, s[0]), s[1..])
  }

  lemma {:induction false} ReadAppend(l: Lex, a: Bytes, b: Bytes)
    ensures Read(l, a + b) == Read(Read(l, a), b)
    decreases |a|
  {
    if a == "" {
      assert a + b == b;
    } else {
      assert (a + b)[1..] == a[1..] + b;
      ReadAppend(After(l, a[0]), a[1..], b);
    }
  }

  lemma {:induction false} StaysAppend(l: Lex, a: Bytes, b: Bytes)
    ensures StaysInside(l, a + b) <==> StaysInside(l, a) && StaysInside(Read(l, a), b)
    decreases |a|
  {
    if a == "" {
      assert a + b == b;
    } else {
      assert (a + b)[1..] == a[1..] + b;
      StaysAppend(After(l, a[0]), a[1..], b);
    }
  }

  lemma {:induction false} LengthOf(l: Lex, s: Bytes, rest: Bytes)
    requires s != "" && StaysInside(l, s[..|s| - 1]) && Read(l, s) == OUTSIDE
    ensures Length(l, s + rest) == |s|
    decreases |s|
  {
    var t := s + rest;
    assert t[0] == s[0] && t[1..] == s[1..] + rest;
    if |s| == 1 {
      assert s[1..] == "";
    } else {
      assert s[..|s| - 1][1..] == s[1..][..|s[1..]| - 1];
      LengthOf(After(l, s[0]), s[1..], rest);
    }
  }

  // ----- JSON objects are such texts

  /** A string is spelled up to its first quote that is not escaped. */
  predicate Closes(escaped: bool, s: Bytes)
    decreases |s|
  {
    s != "" &&
    if escaped then Closes(false, s[1..])
    else if s[0] == '"' then |s| == 1
    else Closes(s[0] == '\\', s[1..])
  }

  predicate Plain(s: Bytes) {
    forall i :: 0 <= i < |s| ==> s[i] !in {'"', '{', '}', '[', ']'}
  }

  /** The characters a lexeme may be written with. */
  predicate Spells(t: Lexeme, piece: Bytes) {
    match t
    case LBrace => piece == "{"
    case RBrace => piece == "}"
    case LBracket => piece == "["
    case RBracket => piece == "]"
    case Comma => piece == ","
    case Colon => piece == ":"
    case Str(_) => piece != "" && piece[0] == '"' && Closes(false, piece[1..])
    case Scalar(text) => piece == text && piece != "" && Plain(piece)
    case Bad => false
  }

  ghost predicate Spelling(ts: seq<Lexeme>, pieces: seq<Bytes>) {
    |ts| == |pieces| && forall i :: 0 <= i < |ts| ==> Spells(ts[i], pieces[i])
  }

  function Joined(pieces: seq<Bytes>): Bytes {
    if pieces == [] then "" else pieces[0] + Joined(pieces[1..])
  }

  /** Nesting after a lexeme. */
  function Nest(d: nat, t: Lexeme): int {
    match t
    case LBrace => d + 1
    case LBracket => d + 1
    case RBrace => d - 1
    case RBracket => d - 1
    case _ => d
  }

  /** Reading the lexemes from depth `d` never leaves the enclosing brackets. */
  predicate Nested(d: int, ts: seq<Lexeme>)
    decreases |ts|
  {
    d >= 1 && (ts == [] || Nested(Nest(d, ts[0]), ts[1..]))
  }

  function Depth(d: int, ts: seq<Lexeme>): (r: int)
    requires Nested(d, ts)
    ensures r >= 1
    decreases |ts|
  {
    if ts == [] then d else Depth(Nest(d, ts[0]), ts[1..])
  }

  lemma {:induction false} ClosesReads(d: nat, escaped: bool, s: Bytes)
    requires d >= 1 && Closes(escaped, s)
    ensures Read(Lex(d, true, escaped), s) == Lex(d, false, false) && StaysInside(Lex(d, true, escaped), s)
    decreases |s|
  {
    if escaped {
      ClosesReads(d, false, s[1..]);
    } else if s[0] == '"' {
      assert s[1..] == "";
    } else {
      ClosesReads(d, s[0] == '\\', s[1..]);
    }
  }

  lemma {:induction false} PlainReads(d: nat, s: Bytes)
    requires d >= 1 && Plain(s)
    ensures Read(Lex(d, false, false), s) == Lex(d, false, false) && StaysInside(Lex(d, false, false), s)
    decreases |s|
  {
    if s == "" {
    } else {
      PlainReads(d, s[1..]);
    }
  }

  lemma PieceReads(d: nat, t: Lexeme, piece: Bytes)
    requires d >= 1 && Nest(d, t) >= 1 && Spells(t, piece)
    ensures Read(Lex(d, false, false), piece) == Lex(Nest(d, t), false, false)
    ensures StaysInside(Lex(d, false, false), piece)
  {
    match t
    case Str(_) => ClosesReads(d, false, piece[1..]);
    case Scalar(_) => PlainReads(d, piece);
    case Bad =>
    case _ => assert |piece| == 1;
  }

  lemma {:induction false} PiecesRead(d: nat, ts: seq<Lexeme>, pieces: seq<Bytes>)
    requires Nested(d, ts) && Spelling(ts, pieces)
    ensures Read(Lex(d, false, false), Joined(pieces)) == Lex(Depth(d, ts), false, false)
    ensures StaysInside(Lex(d, false, false), Joined(pieces))
    decreases |ts|
  {
    if ts == [] {
    } else {
      var next := Nest(d, ts[0]);
      PieceReads(d, ts[0], pieces[0]);
      PiecesRead(next, ts[1..], pieces[1..]);
      ReadAppend(Lex(d, false, false), pieces[0], Joined(pieces[1..]));
      StaysAppend(Lex(d, false, false), pieces[0], Joined(pieces[1..]));
    }
  }

  lemma {:induction false} NestedAppend(d: int, a: seq<Lexeme>, b: seq<Lexeme>)
    requires Nested(d, a) && Nested(Depth(d, a), b)
    ensures Nested(d, a + b) && Depth(d, a + b) == Depth(Depth(d, a), b)
    decreases |a|
  {
    if a == [] {
      assert a + b == b;
    } else {
      assert (a + b)[1..] == a[1..] + b;
      NestedAppend(Nest(d, a[0]), a[1..], b);
    }
  }

  /** A text that nests properly and comes back to the depth it started from. */
  ghost predicate Level(ts: seq<Lexeme>) {
    forall d :: d >= 1 ==> Nested(d, ts) && Depth(d, ts) == d
  }

  lemma LevelAppend(a: seq<Lexeme>, b: seq<Lexeme>)
    requires Level(a) && Level(b)
    ensures Level(a + b)
  {
    forall d | d >= 1 ensures Nested(d, a + b) && Depth(d, a + b) == d {
      NestedAppend(d, a, b);
    }
  }

  lemma LevelOne(t: Lexeme)
    requires t.Str? || t.Scalar? || t.Comma? || t.Colon?
    ensures Level([t])
  {
    forall d | d >= 1 ensures Nested(d, [t]) && Depth(d, [t]) == d {
      assert [t][1..] == [];
    }
  }

  lemma LevelBracketed(open: Lexeme, inner: seq<Lexeme>, close: Lexeme)
    requires Level(inner) && (open.LBrace? || open.LBracket?) && (close.RBrace? || close.RBracket?)
    ensures Level([open] + inner + [close])
  {
    forall d | d >= 1
      ensures Nested(d, [open] + inner + [close]) && Depth(d, [open] + inner + [close]) == d
    {
      assert [open][1..] == [] && [close][1..] == [];
      NestedAppend(d, [open], inner);
      NestedAppend(d, [open] + inner, [close]);
    }
  }

  lemma {:induction false} ValueLevel(v: Value)
    ensures Level(Flatten(v))
    decreases v, 0
  {
    match v
    case Text(text) => LevelOne(Str(text));
    case Atom(text) => LevelOne(Scalar(text));
    case Array(items) =>
      ItemsLevel(items);
      LevelBracketed(LBracket, FlattenItems(items), RBracket);
    case Object(members) =>
      MembersLevel(members);
      LevelBracketed(LBrace, FlattenMembers(members), RBrace);
  }

  lemma {:induction false} ItemsLevel(items: seq<Value>)
    ensures Level(FlattenItems(items))
    decreases items, 1
  {
    if items == [] {
    } else {
      ValueLevel(items[0]);
      if |items| == 1 {
        assert FlattenItems(items) == Flatten(items[0]);
      } else {
        ItemsLevel(items[1..]);
        LevelOne(Comma);
        LevelAppend([Comma], FlattenItems(items[1..]));
        LevelAppend(Flatten(items[0]), [Comma] + FlattenItems(items[1..]));
      }
    }
  }

  lemma {:induction false} MembersLevel(members: seq<Member>)
    ensures Level(FlattenMembers(members))
    decreases members, 1
  {
    if members == [] {
    } else {
      var head, value := [Str(members[0].name), Colon], Flatten(members[0].value);
      ValueLevel(members[0].value);
      LevelOne(Str(members[0].name));
      LevelOne(Colon);
      LevelAppend([Str(members[0].name)], [Colon]);
      assert [Str(members[0].name)] + [Colon] == head;
      LevelAppend(head, value);
      if |members| == 1 {
        assert FlattenMembers(members) == head + value;
      } else {
        MembersLevel(members[1..]);
        LevelOne(Comma);
        LevelAppend([Comma], FlattenMembers(members[1..]));
        LevelAppend(head + value, [Comma] + FlattenMembers(members[1..]));
      }
    }
  }

  lemma {:induction false} JoinedEnds(pieces: seq<Bytes>)
    requires pieces != []
    ensures Joined(pieces) == Joined(pieces[..|pieces| - 1]) + pieces[|pieces| - 1]
  {
    var n := |pieces| - 1;
    if n == 0 {
      assert pieces[1..] == [] && pieces[..n] == [];
    } else {
      var rest, front := pieces[1..], pieces[..n];
      JoinedEnds(rest);
      assert rest[..n - 1] == front[1..];
      assert Joined(front) == pieces[0] + Joined(front[1..]);
    }
  }

  /** However its lexemes are spelled, the compact text of a JSON object ends exactly with its own last brace. */
  lemma {:induction false} ObjectSpelled(members: seq<Member>, pieces: seq<Bytes>)
    requires Spelling(Flatten(Object(members)), pieces)
    ensures ObjectText(Joined(pieces))
  {
    var ts, inner := Flatten(Object(members)), FlattenMembers(members);
    var n := |ts| - 1;
    assert ts[0] == LBrace && ts[n] == RBrace && ts[1..n] == inner;
    MembersLevel(members);
    PiecesRead(1, inner, pieces[1..n]);
    JoinedEnds(pieces);
    assert pieces[..n][1..] == pieces[1..n];
    var body := "{" + Joined(pieces[1..n]);
    assert Joined(pieces) == body + "}";
    BracesClose(Joined(pieces[1..n]));
    assert Joined(pieces)[..|Joined(pieces)| - 1] == body;
  }

  lemma BracesClose(inner: Bytes)
    requires Read(Lex(1, false, false), inner) == Lex(1, false, false) && StaysInside(Lex(1, false, false), inner)
    ensures StaysInside(OUTSIDE, "{" + inner) && Read(OUTSIDE, "{" + inner + "}") == OUTSIDE
  {
    assert ("{" + inner)[1..] == inner;
    ReadAppend(OUTSIDE, "{" + inner, "}");
    assert "}"[1..] == "";
  }

  // ----- writing and reading an envelope

  const HEAD: Bytes := "{\"statement\":"
  const MIDDLE: Bytes := ",\"payload\":"
  const TAIL: Bytes := ",\"signature\":"

  /** The three fields in order, the payload byte for byte. */
  function MarshalEnvelope(statement: Bytes, payload: Bytes, signature: Bytes): Bytes {
    HEAD + (statement + (MIDDLE + (payload + (TAIL + (signature + "}")))))
  }

  datatype Fields = Fields(statement: Bytes, payload: Bytes, signature: Bytes)

  predicate Blank(c: char) { c in {' ', '\t', '\n', '\r'} }

  predicate Blanks(s: Bytes) { forall i :: 0 <= i < |s| ==> Blank(s[i]) }

  function DropBlanks(s: Bytes): Bytes { if s != "" && Blank(s[0]) then DropBlanks(s[1..]) else s }

  function DropLastBlanks(s: Bytes): Bytes {
    if s != "" && Blank(s[|s| - 1]) then DropLastBlanks(s[..|s| - 1]) else s
  }

  /** A text without the blanks around it. */
  function Trim(s: Bytes): Bytes { DropLastBlanks(DropBlanks(s)) }

  /** What `json.Marshal` writes has no blanks around it. */
  type Unpadded = s: Bytes | Trim(s) == s witness ""

  /** The value after `mark` and what follows it, as a JSON decoder reads them: blanks around a value are skipped. */
  function TakeField(mark: Bytes, s: Bytes): Option<(Bytes, Bytes)> {
    if !(mark <= s) then None
    else
      var rest := DropBlanks(s[|mark|..]);
      var n := Length(OUTSIDE, rest);
      Some((rest[..n], DropBlanks(rest[n..])))
  }

  /** Reads an envelope back. */
  function ReadEnvelope(s: Bytes): Option<Fields> {
    match TakeField(HEAD, s)
    case None => None
    case Some((statement, rest)) =>
      match TakeField(MIDDLE, rest)
      case None => None
      case Some((payload, last)) =>
        if TAIL <= last && |last| > |TAIL| then Some(Fields(statement, payload, last[|TAIL|..|last| - 1])) else None
  }

  lemma {:induction false} BlanksDropped(b: Bytes, s: Bytes)
    requires Blanks(b) && (s == "" || !Blank(s[0]))
    ensures DropBlanks(b + s) == s
  {
    if b == "" {
      assert b + s == s;
    } else {
      assert (b + s)[1..] == b[1..] + s;
      BlanksDropped(b[1..], s);
    }
  }

  lemma {:induction false} LeadingBlanks(s: Bytes) returns (lead: Bytes)
    ensures s == lead + DropBlanks(s) && Blanks(lead)
  {
    if s != "" && Blank(s[0]) {
      var more := LeadingBlanks(s[1..]);
      lead := [s[0]] + more;
    } else {
      lead := "";
    }
  }

  lemma {:induction false} TrailingBlanks(s: Bytes) returns (trail: Bytes)
    ensures s == DropLastBlanks(s) + trail && Blanks(trail)
  {
    if s != "" && Blank(s[|s| - 1]) {
      var less := TrailingBlanks(s[..|s| - 1]);
      trail := less + [s[|s| - 1]];
    } else {
      trail := "";
    }
  }

  lemma FieldTaken(mark: Bytes, lead: Bytes, text: Bytes, trail: Bytes, rest: Bytes)
    requires Blanks(lead) && ObjectText(text) && Blanks(trail) && rest != "" && !Blank(rest[0])
    ensures TakeField(mark, mark + (lead + (text + (trail + rest)))) == Some((text, rest))
  {
    var s := mark + (lead + (text + (trail + rest)));
    assert s[|mark|..] == lead + (text + (trail + rest));
    BlanksDropped(lead, text + (trail + rest));
    LengthOf(OUTSIDE, text, trail + rest);
    assert (text + (trail + rest))[..|text|] == text && (text + (trail + rest))[|text|..] == trail + rest;
    BlanksDropped(trail, rest);
  }

  lemma PaddedFieldTaken(mark: Bytes, text: Bytes, rest: Bytes)
    requires ObjectText(Trim(text)) && rest != "" && !Blank(rest[0])
    ensures TakeField(mark, mark + (text + rest)) == Some((Trim(text), rest))
  {
    var lead := LeadingBlanks(text);
    var trail := TrailingBlanks(DropBlanks(text));
    assert text + rest == lead + (Trim(text) + (trail + rest));
    FieldTaken(mark, lead, Trim(text), trail, rest);
  }

  /**
   Whatever its signature, an envelope is read back field by field; of the payload only blanks around the object
   are lost.
   */
  lemma EnvelopeReadsBack(statement: Bytes, payload: Bytes, signature: Bytes)
    requires ObjectText(statement) && ObjectText(Trim(payload))
    ensures ReadEnvelope(MarshalEnvelope(statement, payload, signature))
            == Some(Fields(statement, Trim(payload), signature))
  {
    var last := TAIL + (signature + "}");
    assert MIDDLE[0] == ',' && TAIL[0] == ',';
    BareFieldTaken(HEAD, statement, MIDDLE + (payload + last));
    PaddedFieldTaken(MIDDLE, payload, last);
    LastField(signature);
  }

  lemma LastField(signature: Bytes)
    ensures var last := TAIL + (signature + "}");
      TAIL <= last && |last| > |TAIL| && last[|TAIL|..|last| - 1] == signature
  {}

  lemma BareFieldTaken(mark: Bytes, text: Bytes, rest: Bytes)
    requires ObjectText(text) && rest != "" && !Blank(rest[0])
    ensures TakeField(mark, mark + (text + rest)) == Some((text, rest))
  {
    FieldTaken(mark, "", text, "", rest);
    assert "" + (text + ("" + rest)) == text + rest;
  }

  lemma SamePart(a: Bytes, x: Bytes, b: Bytes, y: Bytes)
    requires a + x == b + y && |a| == |b|
    ensures a == b && x == y
  {
    assert (a + x)[..|a|] == a && (b + y)[..|b|] == b && (a + x)[|a|..] == x && (b + y)[|b|..] == y;
  }

  /** Equal envelopes have equal payloads, statements and signatures, blanks included. */
  lemma EnvelopeFixesFields(s: Bytes, p: Bytes, g: Bytes, s': Bytes, p': Bytes, g': Bytes)
    requires ObjectText(s) && ObjectText(Trim(p)) && ObjectText(s') && ObjectText(Trim(p'))
    requires MarshalEnvelope(s, p, g) == MarshalEnvelope(s', p', g')
    ensures s == s' && p == p' && g == g'
  {
    EnvelopeReadsBack(s, p, g);
    EnvelopeReadsBack(s', p', g');
    var x, y := TAIL + (g + "}"), TAIL + (g' + "}");
    SamePart(HEAD, s + (MIDDLE + (p + x)), HEAD, s' + (MIDDLE + (p' + y)));
    SamePart(s, MIDDLE + (p + x), s', MIDDLE + (p' + y));
    SamePart(MIDDLE, p + x, MIDDLE, p' + y);
    SamePart(p, x, p', y);
  }
}
