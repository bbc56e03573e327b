/**
 The duplicate-key scan as both services write it: a recursive walk over a token decoder
 that keeps its place, its state and its stack of enclosing containers.
 */
module JsonScan {
  import opened Basics
  import opened JsonText

  datatype TokenState = TopValue | ArrayStart | ArrayValue | ArrayComma | ObjectStart | ObjectKey | ObjectColon
      | ObjectValue | ObjectComma

  /** A string token carries its text; a number or literal is `Other`. */
  datatype Token = Delim(lexeme: Lexeme) | Word(text: string) | Other

  datatype Read = Ok(token: Token) | EndOfInput | Malformed

  datatype Scanned = Accepted | Rejected(message: string)

  /** Where a decoder stands: its state, the states it returns to, and the input left. */
  datatype Cursor = Cursor(state: TokenState, stack: seq<TokenState>, rest: seq<Lexeme>)

  predicate ValidCursor(c: Cursor) {
    (c.state.TopValue? <==> c.stack == []) && forall i :: 0 <= i < |c.stack| ==> (c.stack[i].TopValue? <==> i == 0)
  }

  predicate ValueAllowed(s: TokenState) { s.TopValue? || s.ArrayStart? || s.ArrayValue? || s.ObjectValue? }

  function AfterValue(s: TokenState): TokenState {
    match s
    case ArrayStart => ArrayComma
    case ArrayValue => ArrayComma
    case ObjectValue => ObjectComma
    case _ => s
  }

  function Pass(c: Cursor, s: TokenState): Cursor
    requires c.rest != []
  {
    Cursor(s, c.stack, c.rest[1..])
  }

  function Open(c: Cursor, inner: TokenState): Cursor
    requires c.rest != []
  {
    Cursor(inner, c.stack + [c.state], c.rest[1..])
  }

  function Shut(c: Cursor): Cursor
    requires c.stack != [] && c.rest != []
  {
    var n := |c.stack| - 1;
    Cursor(AfterValue(c.stack[n]), c.stack[..n], c.rest[1..])
  }

  /** What `Token` answers: separators are passed over where they belong, and anything out of place is refused. */
  function Next(c: Cursor): (Read, Cursor)
    requires ValidCursor(c)
    decreases |c.rest|
  {
    if c.rest == [] then (EndOfInput, c)
    else
      match c.rest[0]
      case LBracket => if ValueAllowed(c.state) then (Ok(Delim(LBracket)), Open(c, ArrayStart)) else (Malformed, c)
      case LBrace => if ValueAllowed(c.state) then (Ok(Delim(LBrace)), Open(c, ObjectStart)) else (Malformed, c)
      case RBracket => if c.state.ArrayStart? || c.state.ArrayComma? then (Ok(Delim(RBracket)), Shut(c))
          else (Malformed, c)
      case RBrace => if c.state.ObjectStart? || c.state.ObjectComma? then (Ok(Delim(RBrace)), Shut(c))
          else (Malformed, c)
      case Colon => if c.state.ObjectColon? then Next(Pass(c, ObjectValue)) else (Malformed, c)
      case Comma =>
        if c.state.ArrayComma? then Next(Pass(c, ArrayValue))
        else if c.state.ObjectComma? then Next(Pass(c, ObjectKey))
        else (Malformed, c)
      case Str(text) =>
        if c.state.ObjectStart? || c.state.ObjectKey? then (Ok(Word(text)), Pass(c, ObjectColon))
        else if ValueAllowed(c.state) then (Ok(Word(text)), Pass(c, AfterValue(c.state)))
        else (Malformed, c)
      case Scalar(_) =>
        if ValueAllowed(c.state) then (Ok(Other), Pass(c, AfterValue(c.state))) else (Malformed, c)
      case Bad => (Malformed, c)
  }

  /** `encoding/json.Decoder` as far as `Token`, `More` and a trailing `Decode` use it. */
  class Decoder {
    const input: seq<Lexeme>
    var pos: nat
    var state: TokenState
    var stack: seq<TokenState>

    constructor (input: seq<Lexeme>)
      ensures this.input == input && Valid() && Now() == Cursor(TopValue, [], input)
    {
      this.input, pos, state, stack := input, 0, TopValue, [];
    }

    ghost predicate Valid()
      reads this
    {
      pos <= |input| && ValidCursor(Now())
    }

    ghost function Now(): Cursor
      requires pos <= |input|
      reads this
    {
      Cursor(state, stack, input[pos..])
    }

    method Advance(next: TokenState)
      requires pos < |input|
      modifies this
      ensures pos == old(pos) + 1 && Now() == Pass(old(Now()), next)
    {
      pos, state := pos + 1, next;
    }

    method Push(inner: TokenState)
      requires pos < |input|
      modifies this
      ensures pos == old(pos) + 1 && Now() == Open(old(Now()), inner)
    {
      pos, stack, state := pos + 1, stack + [state], inner;
    }

    method Pop()
      requires pos < |input| && stack != []
      modifies this
      ensures pos == old(pos) + 1 && Now() == Shut(old(Now()))
    {
      pos, state, stack := pos + 1, AfterValue(stack[|stack| - 1]), stack[..|stack| - 1];
    }

    method Token() returns (r: Read)
      requires Valid()
      modifies this
      ensures Valid() && (r, Now()) == Next(old(Now()))
    {
      while true
        invariant Valid() && Next(Now()) == Next(old(Now()))
        decreases |input| - pos
      {
        if pos == |input| {
          return EndOfInput;
        }
        var t := input[pos];
        assert Now().rest[0] == t;
        match t {
          case LBracket =>
            if !ValueAllowed(state) { return Malformed; }
            Push(ArrayStart);
            return Ok(Delim(LBracket));
          case LBrace =>
            if !ValueAllowed(state) { return Malformed; }
            Push(ObjectStart);
            return Ok(Delim(LBrace));
          case RBracket =>
            if !state.ArrayStart? && !state.ArrayComma? { return Malformed; }
            Pop();
            return Ok(Delim(RBracket));
          case RBrace =>
            if !state.ObjectStart? && !state.ObjectComma? { return Malformed; }
            Pop();
            return Ok(Delim(RBrace));
          case Colon =>
            if !state.ObjectColon? { return Malformed; }
            Advance(ObjectValue);
          case Comma =>
            if state.ArrayComma? {
              Advance(ArrayValue);
            } else if state.ObjectComma? {
              Advance(ObjectKey);
            } else {
              return Malformed;
            }
          case Str(text) =>
            if state.ObjectStart? || state.ObjectKey? {
              Advance(ObjectColon);
              return Ok(Word(text));
            }
            if !ValueAllowed(state) { return Malformed; }
            Advance(AfterValue(state));
            return Ok(Word(text));
          case Scalar(_) =>
            if !ValueAllowed(state) { return Malformed; }
            Advance(AfterValue(state));
            return Ok(Other);
          case Bad =>
            return Malformed;
        }
      }
    }

    /** Whether anything but a closing delimiter comes next. */
    method More() returns (more: bool)
      requires Valid()
      ensures more <==> HasMore(Now())
    {
      return pos < |input| && input[pos] != RBracket && input[pos] != RBrace;
    }

    /** A `Decode` between values: end of input, or a value or a syntax error. */
    method DecodeTrailing() returns (atEnd: bool)
      requires Valid()
      ensures atEnd <==> Now().rest == []
    {
      return pos == |input|;
    }
  }

  // ----- what is left of the value under way

  /** Reading the next value, with the separator its place asks for. */
  ghost function Wanted(c: Cursor): Scan {
    match c.state
    case ArrayComma => if Starts(c.rest, Comma) then ScanValue(c.rest[1..]) else Fail
    case ObjectColon => if Starts(c.rest, Colon) then ScanValue(c.rest[1..]) else Fail
    case _ => ScanValue(c.rest)
  }

  predicate AwaitsValue(s: TokenState) { s.TopValue? || s.ArrayStart? || s.ArrayComma? || s.ObjectColon? }

  function AfterWanted(s: TokenState): TokenState {
    match s
    case ArrayStart => ArrayComma
    case ObjectColon => ObjectComma
    case _ => s
  }

  /** The rest of an array whose items so far are read. */
  ghost function ArrayRest(s: TokenState, rest: seq<Lexeme>): Scan {
    if s.ArrayStart? then (if Starts(rest, RBracket) then Left(rest[1..]) else ScanItems(rest)) else AfterItem(rest)
  }

  /** The rest of an object whose members so far have the names `seen`. */
  ghost function ObjectRest(s: TokenState, rest: seq<Lexeme>, seen: set<string>): Scan {
    if s.ObjectStart? then (if Starts(rest, RBrace) then Left(rest[1..]) else ScanMembers(rest, seen))
        else AfterMember(rest, seen)
  }

  /** The state an enclosing container is in while the value opened from `s` is read. */
  function Enclosing(s: TokenState): TokenState {
    match s
    case ArrayComma => ArrayValue
    case ObjectColon => ObjectValue
    case _ => s
  }

  /** The outcome a scan started at `c` must have. */
  ghost predicate ScansWanted(c: Cursor, r: Scanned, after: Cursor) {
    && (r.Accepted? <==> Wanted(c).Left?)
    && (r.Accepted? ==> after == Cursor(AfterWanted(c.state), c.stack, Wanted(c).rest))
  }

  predicate HasMore(c: Cursor) { c.rest != [] && c.rest[0] != RBracket && c.rest[0] != RBrace }

  ghost function Closed(stack: seq<TokenState>, rest: seq<Lexeme>): Cursor
    requires stack != []
  {
    Cursor(AfterValue(stack[|stack| - 1]), stack[..|stack| - 1], rest)
  }

  lemma {:induction false} NextConsumes(c: Cursor)
    requires ValidCursor(c)
    ensures ValidCursor(Next(c).1)
    ensures Next(c).0.Ok? ==> |Next(c).1.rest| < |c.rest|
    decreases |c.rest|
  {
    if Starts(c.rest, Colon) && c.state.ObjectColon? {
      NextConsumes(Pass(c, ObjectValue));
    } else if Starts(c.rest, Comma) && c.state.ArrayComma? {
      NextConsumes(Pass(c, ArrayValue));
    } else if Starts(c.rest, Comma) && c.state.ObjectComma? {
      NextConsumes(Pass(c, ObjectKey));
    }
  }

  /** The first lexeme of the value a scan is to read, once its separator is passed. */
  ghost function Upcoming(c: Cursor): seq<Lexeme> {
    match c.state
    case ArrayComma => if Starts(c.rest, Comma) then c.rest[1..] else []
    case ObjectColon => if Starts(c.rest, Colon) then c.rest[1..] else []
    case _ => c.rest
  }

  /** How a value begins: a plain token is the whole of it, an opening delimiter leaves its container to be read. */
  lemma {:induction false} ValueBegins(c: Cursor)
    requires ValidCursor(c) && AwaitsValue(c.state)
    ensures Wanted(c) == ScanValue(Upcoming(c))
    ensures var (r, after) := Next(c);
      && (!r.Ok? ==> Wanted(c).Fail?)
      && (r.Ok? && !r.token.Delim? ==>
            Wanted(c) == Left(after.rest) && after == Cursor(AfterWanted(c.state), c.stack, after.rest))
      && (r.Ok? && r.token.Delim? ==>
            && (r.token.lexeme == LBracket ==> after == Cursor(ArrayStart, c.stack + [Enclosing(c.state)], after.rest)
                                               && Wanted(c) == ArrayRest(ArrayStart, after.rest))
            && (r.token.lexeme == LBrace ==> after == Cursor(ObjectStart, c.stack + [Enclosing(c.state)], after.rest)
                                             && Wanted(c) == ObjectRest(ObjectStart, after.rest, {}))
            && (r.token.lexeme != LBracket && r.token.lexeme != LBrace ==> Wanted(c).Fail?))
  {
    var ts := Upcoming(c);
    if |ts| >= 2 { assert ts[1..][1..] == ts[2..]; }
    if c.state.ArrayComma? && Starts(c.rest, Comma) {
      assert Next(c) == Next(Pass(c, ArrayValue));
    } else if c.state.ObjectColon? && Starts(c.rest, Colon) {
      assert Next(c) == Next(Pass(c, ObjectValue));
    }
  }

  /** Reading one more item leaves the rest of the array. */
  lemma ItemStep(c: Cursor)
    requires (c.state.ArrayStart? || c.state.ArrayComma?) && HasMore(c)
    ensures Wanted(c).Left? ==> ArrayRest(c.state, c.rest) == ArrayRest(ArrayComma, Wanted(c).rest)
    ensures Wanted(c).Fail? ==> ArrayRest(c.state, c.rest).Fail?
  {
    var ts := if c.state.ArrayStart? then c.rest else c.rest[1..];
    assert ScanItems(ts) == match ScanValue(ts) case Fail => Fail case Left(rest) => AfterItem(rest);
  }

  lemma ItemsEnd(c: Cursor)
    requires ValidCursor(c) && (c.state.ArrayStart? || c.state.ArrayComma?) && !HasMore(c)
    ensures Next(c).0.Ok? <==> ArrayRest(c.state, c.rest).Left?
    ensures Next(c).0.Ok? ==> Next(c).1 == Closed(c.stack, ArrayRest(c.state, c.rest).rest)
  {
    assert ScanValue(c.rest).Fail?;
    assert ScanItems(c.rest).Fail?;
  }

  /** Reading one more member name and value leaves the rest of the object. */
  lemma {:induction false} MemberStep(c: Cursor, seen: set<string>)
    requires ValidCursor(c) && (c.state.ObjectStart? || c.state.ObjectComma?) && HasMore(c)
    ensures var (r, after) := Next(c);
      && (!r.Ok? ==> ObjectRest(c.state, c.rest, seen).Fail?)
      && (r.Ok? ==> r.token.Word? && after.state == ObjectColon && after.stack == c.stack)
      && (r.Ok? && r.token.text in seen ==> ObjectRest(c.state, c.rest, seen).Fail?)
      && (r.Ok? && r.token.text !in seen ==>
            ObjectRest(c.state, c.rest, seen) == WithName(after, seen + {r.token.text}))
  {
    if c.state.ObjectComma? && Starts(c.rest, Comma) {
      assert Next(c) == Next(Pass(c, ObjectKey));
      KeyStep(Pass(c, ObjectKey), seen);
    } else if c.state.ObjectStart? {
      KeyStep(c, seen);
    }
  }

  /** The rest of an object whose next member's name was just read. */
  ghost function WithName(c: Cursor, seen: set<string>): Scan {
    match Wanted(c)
    case Fail => Fail
    case Left(rest) => AfterMember(rest, seen)
  }

  lemma {:induction false} KeyStep(c: Cursor, seen: set<string>)
    requires ValidCursor(c) && (c.state.ObjectStart? || c.state.ObjectKey?)
    ensures var (r, after) := Next(c); var ts := c.rest;
      && (!r.Ok? ==> c.state.ObjectKey? || !Starts(ts, RBrace) ==> ScanMembers(ts, seen).Fail?)
      && (r.Ok? && !Starts(ts, RBrace) ==>
            && r.token.Word? && after == Cursor(ObjectColon, c.stack, ts[1..])
            && ScanMembers(ts, seen) == if r.token.text in seen then Fail else WithName(after, seen + {r.token.text}))
  {
    var ts := c.rest;
    if ts != [] && ts[0].Str? && |ts| >= 2 {
      assert ts[1..][1..] == ts[2..];
    }
  }

  lemma MembersEnd(c: Cursor, seen: set<string>)
    requires ValidCursor(c) && (c.state.ObjectStart? || c.state.ObjectComma?) && !HasMore(c)
    ensures Next(c).0.Ok? <==> ObjectRest(c.state, c.rest, seen).Left?
    ensures Next(c).0.Ok? ==> Next(c).1 == Closed(c.stack, ObjectRest(c.state, c.rest, seen).rest)
  {}

  /** Between values at the top level the decoder reports the end of input exactly when nothing is left. */
  lemma TopEnd(c: Cursor)
    requires ValidCursor(c) && c.state.TopValue?
    ensures Next(c).0 == EndOfInput <==> c.rest == []
  {}

  // ----- the report signer's scan

  method ScanJSONValue(d: Decoder, path: string) returns (r: Scanned)
    requires d.Valid() && AwaitsValue(d.state)
    modifies d
    ensures d.Valid() && ScansWanted(old(d.Now()), r, d.Now())
    decreases |d.input| - d.pos, 0
  {
    ValueBegins(d.Now());
    NextConsumes(d.Now());
    var token := d.Token();
    if !token.Ok? {
      return Rejected(path);
    }
    if !token.token.Delim? {
      return Accepted;
    }
    match token.token.lexeme {
      case LBrace => r := ScanMembersOf(d, path);
      case LBracket => r := ScanItemsOf(d, path);
      case _ => return Rejected(path + ": unexpected JSON delimiter");
    }
  }

  method ScanMembersOf(d: Decoder, path: string) returns (r: Scanned)
    requires d.Valid() && d.state == ObjectStart && d.stack != []
    modifies d
    ensures d.Valid()
    ensures var wanted := ObjectRest(ObjectStart, old(d.Now()).rest, {});
      && (r.Accepted? <==> wanted.Left?)
      && (r.Accepted? ==> d.Now() == Closed(old(d.stack), wanted.rest))
    decreases |d.input| - d.pos, 1
  {
    var seen: set<string> := {};
    var more := d.More();
    while more
      invariant d.Valid() && d.stack == old(d.stack) && (d.state == ObjectStart || d.state == ObjectComma)
      invariant d.pos >= old(d.pos)
      invariant ObjectRest(d.state, d.Now().rest, seen) == ObjectRest(ObjectStart, old(d.Now()).rest, {})
      invariant more <==> HasMore(d.Now())
      decreases |d.input| - d.pos
    {
      MemberStep(d.Now(), seen);
      NextConsumes(d.Now());
      var key := d.Token();
      if !key.Ok? {
        return Rejected(path);
      }
      if !key.token.Word? {
        return Rejected(path + ": object key is not a string");
      }
      if key.token.text in seen {
        return Rejected(path + ": duplicate JSON field " + key.token.text);
      }
      seen := seen + {key.token.text};
      r := ScanJSONValue(d, path + "." + key.token.text);
      if r.Rejected? {
        return r;
      }
      more := d.More();
    }
    MembersEnd(d.Now(), seen);
    var end := d.Token();
    return if end.Ok? then Accepted else Rejected(path);
  }

  method ScanItemsOf(d: Decoder, path: string) returns (r: Scanned)
    requires d.Valid() && d.state == ArrayStart && d.stack != []
    modifies d
    ensures d.Valid()
    ensures var wanted := ArrayRest(ArrayStart, old(d.Now()).rest);
      && (r.Accepted? <==> wanted.Left?)
      && (r.Accepted? ==> d.Now() == Closed(old(d.stack), wanted.rest))
    decreases |d.input| - d.pos, 1
  {
    var index := 0;
    var more := d.More();
    while more
      invariant d.Valid() && d.stack == old(d.stack) && (d.state == ArrayStart || d.state == ArrayComma)
      invariant d.pos >= old(d.pos)
      invariant ArrayRest(d.state, d.Now().rest) == ArrayRest(ArrayStart, old(d.Now()).rest)
      invariant more <==> HasMore(d.Now())
      decreases |d.input| - d.pos
    {
      ItemStep(d.Now());
      r := ScanJSONValue(d, path + "[" + Decimal(index) + "]");
      if r.Rejected? {
        return r;
      }
      index := index + 1;
      more := d.More();
    }
    ItemsEnd(d.Now());
    var end := d.Token();
    return if end.Ok? then Accepted else Rejected(path);
  }

  /** The signer refuses a payload unless it is one JSON value in which no object repeats a name. */
  method RejectDuplicateKeysInPayload(contents: seq<Lexeme>) returns (r: Scanned)
    ensures r.Accepted? <==> IsUniqueText(contents)
  {
    var d := new Decoder(contents);
    ScanIffUniqueText(contents);
    r := ScanJSONValue(d, "$");
    if r.Rejected? {
      return r;
    }
    TopEnd(d.Now());
    var trailing := d.Token();
    if trailing != EndOfInput {
      return Rejected("unexpected trailing JSON value");
    }
  }

  // ----- the drift agent's scan

  method ConsumeJSONValue(d: Decoder) returns (r: Scanned)
    requires d.Valid() && AwaitsValue(d.state)
    modifies d
    ensures d.Valid() && ScansWanted(old(d.Now()), r, d.Now())
    decreases |d.input| - d.pos, 0
  {
    ValueBegins(d.Now());
    NextConsumes(d.Now());
    var token := d.Token();
    if !token.Ok? {
      return Rejected("decode");
    }
    if !token.token.Delim? {
      return Accepted;
    }
    match token.token.lexeme {
      case LBrace => r := ConsumeMembers(d);
      case LBracket => r := ConsumeItems(d);
      case _ => return Rejected("unexpected JSON delimiter");
    }
  }

  method ConsumeMembers(d: Decoder) returns (r: Scanned)
    requires d.Valid() && d.state == ObjectStart && d.stack != []
    modifies d
    ensures d.Valid()
    ensures var wanted := ObjectRest(ObjectStart, old(d.Now()).rest, {});
      && (r.Accepted? <==> wanted.Left?)
      && (r.Accepted? ==> d.Now() == Closed(old(d.stack), wanted.rest))
    decreases |d.input| - d.pos, 1
  {
    var seen: set<string> := {};
    var more := d.More();
    while more
      invariant d.Valid() && d.stack == old(d.stack) && (d.state == ObjectStart || d.state == ObjectComma)
      invariant d.pos >= old(d.pos)
      invariant ObjectRest(d.state, d.Now().rest, seen) == ObjectRest(ObjectStart, old(d.Now()).rest, {})
      invariant more <==> HasMore(d.Now())
      decreases |d.input| - d.pos
    {
      MemberStep(d.Now(), seen);
      NextConsumes(d.Now());
      var key := d.Token();
      if !key.Ok? {
        return Rejected("decode");
      }
      if !key.token.Word? {
        return Rejected("JSON object key is not a string");
      }
      if key.token.text in seen {
        return Rejected("duplicate JSON object key " + key.token.text);
      }
      seen := seen + {key.token.text};
      r := ConsumeJSONValue(d);
      if r.Rejected? {
        return r;
      }
      more := d.More();
    }
    MembersEnd(d.Now(), seen);
    var end := d.Token();
    return if end.Ok? then Accepted else Rejected("decode");
  }

  method ConsumeItems(d: Decoder) returns (r: Scanned)
    requires d.Valid() && d.state == ArrayStart && d.stack != []
    modifies d
    ensures d.Valid()
    ensures var wanted := ArrayRest(ArrayStart, old(d.Now()).rest);
      && (r.Accepted? <==> wanted.Left?)
      && (r.Accepted? ==> d.Now() == Closed(old(d.stack), wanted.rest))
    decreases |d.input| - d.pos, 1
  {
    var more := d.More();
    while more
      invariant d.Valid() && d.stack == old(d.stack) && (d.state == ArrayStart || d.state == ArrayComma)
      invariant d.pos >= old(d.pos)
      invariant ArrayRest(d.state, d.Now().rest) == ArrayRest(ArrayStart, old(d.Now()).rest)
      invariant more <==> HasMore(d.Now())
      decreases |d.input| - d.pos
    {
      ItemStep(d.Now());
      r := ConsumeJSONValue(d);
      if r.Rejected? {
        return r;
      }
      more := d.More();
    }
    ItemsEnd(d.Now());
    var end := d.Token();
    return if end.Ok? then Accepted else Rejected("decode");
  }

  /** The agent refuses a file unless it is one JSON value in which no object repeats a key. */
  method RejectDuplicateKeysInFile(data: seq<Lexeme>) returns (r: Scanned)
    ensures r.Accepted? <==> IsUniqueText(data)
  {
    var d := new Decoder(data);
    ScanIffUniqueText(data);
    r := ConsumeJSONValue(d);
    if r.Rejected? {
      return r;
    }
    var atEnd := d.DecodeTrailing();
    if !atEnd {
      return Rejected("multiple JSON documents are not allowed");
    }
  }
}
