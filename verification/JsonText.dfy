/**
 JSON texts as lexemes, the grammar of section 4 of RFC 8259 with distinct member names, and
 a one-pass reading of it that is proved to accept exactly those texts.
 */
module JsonText {

  /** `Scalar` is a number or literal as written; `Bad` is input the decoder cannot read as any lexeme. */
  datatype Lexeme =
    | LBrace | RBrace | LBracket | RBracket | Comma | Colon
    | Str(text: string) | Scalar(text: string) | Bad

  datatype Value = Text(text: string) | Atom(text: string) | Array(items: seq<Value>) | Object(members: seq<Member>)
  datatype Member = Member(name: string, value: Value)

  // ----- the text of a value

  function Flatten(v: Value): seq<Lexeme>
    decreases v, 0
  {
    match v
    case Text(text) => [Str(text)]
    case Atom(text) => [Scalar(text)]
    case Array(items) => [LBracket] + FlattenItems(items) + [RBracket]
    case Object(members) => [LBrace] + FlattenMembers(members) + [RBrace]
  }

  function FlattenItems(items: seq<Value>): seq<Lexeme>
    decreases items, 1
  {
    if items == [] then []
    else Flatten(items[0]) + (if |items| == 1 then [] else [Comma] + FlattenItems(items[1..]))
  }

  function FlattenMembers(members: seq<Member>): seq<Lexeme>
    decreases members, 1
  {
    if members == [] then []
    else
      [Str(members[0].name), Colon] + Flatten(members[0].value)
      + (if |members| == 1 then [] else [Comma] + FlattenMembers(members[1..]))
  }

  /** No object at any depth repeats a member name. */
  predicate DuplicateFree(v: Value)
    decreases v, 0
  {
    match v
    case Array(items) => forall i :: 0 <= i < |items| ==> DuplicateFree(items[i])
    case Object(members) => DistinctNames(members) && forall i :: 0 <= i < |members| ==> DuplicateFree(members[i].value)
    case _ => true
  }

  predicate DistinctNames(members: seq<Member>) {
    forall i, j :: 0 <= i < j < |members| ==> members[i].name != members[j].name
  }

  /** Exactly one JSON value with distinct names, and nothing after it. */
  ghost predicate IsUniqueText(ts: seq<Lexeme>) {
    exists v :: DuplicateFree(v) && Flatten(v) == ts
  }

  // ----- one pass over a text

  datatype Scan = Fail | Left(rest: seq<Lexeme>)

  predicate Starts(ts: seq<Lexeme>, t: Lexeme) { ts != [] && ts[0] == t }

  /** What is left of `ts` after the value it starts with. */
  function ScanValue(ts: seq<Lexeme>): (r: Scan)
    ensures r.Left? ==> |r.rest| < |ts|
    decreases |ts|, 0
  {
    if ts == [] then Fail
    else
      match ts[0]
      case Str(_) => Left(ts[1..])
      case Scalar(_) => Left(ts[1..])
      case LBracket => if Starts(ts[1..], RBracket) then Left(ts[2..]) else ScanItems(ts[1..])
      case LBrace => if Starts(ts[1..], RBrace) then Left(ts[2..]) else ScanMembers(ts[1..], {})
      case _ => Fail
  }

  /** One or more items and the closing bracket. */
  function ScanItems(ts: seq<Lexeme>): (r: Scan)
    ensures r.Left? ==> |r.rest| < |ts|
    decreases |ts|, 1
  {
    match ScanValue(ts)
    case Fail => Fail
    case Left(rest) => AfterItem(rest)
  }

  function AfterItem(rest: seq<Lexeme>): (r: Scan)
    ensures r.Left? ==> |r.rest| < |rest|
    decreases |rest|, 2
  {
    if Starts(rest, Comma) then ScanItems(rest[1..])
    else if Starts(rest, RBracket) then Left(rest[1..])
    else Fail
  }

  /** One or more members with names outside `seen` and unlike one another, and the closing brace. */
  function ScanMembers(ts: seq<Lexeme>, seen: set<string>): (r: Scan)
    ensures r.Left? ==> |r.rest| < |ts|
    decreases |ts|, 1
  {
    if |ts| < 2 || !ts[0].Str? || ts[0].text in seen || ts[1] != Colon then Fail
    else
      match ScanValue(ts[2..])
      case Fail => Fail
      case Left(rest) => AfterMember(rest, seen + {ts[0].text})
  }

  function AfterMember(rest: seq<Lexeme>, seen: set<string>): (r: Scan)
    ensures r.Left? ==> |r.rest| < |rest|
    decreases |rest|, 2
  {
    if Starts(rest, Comma) then ScanMembers(rest[1..], seen)
    else if Starts(rest, RBrace) then Left(rest[1..])
    else Fail
  }

  // ----- what is scanned was a value

  /** A text that opens with a bracket, what it encloses and what follows. */
  lemma Bracketed<T>(ts: seq<T>, open: T, inner: seq<T>, close: T, rest: seq<T>)
    requires ts != [] && ts[0] == open && ts[1..] == inner + [close] + rest
    ensures ts == [open] + inner + [close] + rest
  {
    assert ts == [open] + ts[1..];
  }

  lemma EmptyBracketed<T>(ts: seq<T>, open: T, close: T)
    requires |ts| >= 2 && ts[0] == open && ts[1] == close
    ensures ts == [open] + [] + [close] + ts[2..]
  {
    assert ts == [open, close] + ts[2..];
  }

  lemma {:induction false} ScannedValue(ts: seq<Lexeme>) returns (v: Value)
    requires ScanValue(ts).Left?
    ensures DuplicateFree(v) && ts == Flatten(v) + ScanValue(ts).rest
    decreases |ts|, 0
  {
    match ts[0]
    case Str(text) => v := Text(text);
    case Scalar(text) => v := Atom(text);
    case LBracket => v := ScannedArray(ts);
    case LBrace => v := ScannedObject(ts);
  }

  lemma {:induction false} ScannedArray(ts: seq<Lexeme>) returns (v: Value)
    requires ScanValue(ts).Left? && ts[0] == LBracket
    ensures DuplicateFree(v) && ts == Flatten(v) + ScanValue(ts).rest
    decreases |ts|, 0, 0
  {
    if Starts(ts[1..], RBracket) {
      v := Array([]);
      EmptyBracketed(ts, LBracket, RBracket);
    } else {
      var items := ScannedItems(ts[1..]);
      v := Array(items);
      Bracketed(ts, LBracket, FlattenItems(items), RBracket, ScanItems(ts[1..]).rest);
    }
  }

  lemma {:induction false} ScannedObject(ts: seq<Lexeme>) returns (v: Value)
    requires ScanValue(ts).Left? && ts[0] == LBrace
    ensures DuplicateFree(v) && ts == Flatten(v) + ScanValue(ts).rest
    decreases |ts|, 0, 0
  {
    if Starts(ts[1..], RBrace) {
      v := Object([]);
      EmptyBracketed(ts, LBrace, RBrace);
    } else {
      var members := ScannedMembers(ts[1..], {});
      v := Object(members);
      Bracketed(ts, LBrace, FlattenMembers(members), RBrace, ScanMembers(ts[1..], {}).rest);
    }
  }

  lemma Regroup<T>(b: seq<T>, c: seq<T>, d: seq<T>, e: seq<T>, f: seq<T>)
    ensures b + (c + (d + e + f)) == b + (c + d) + e + f
  {}

  lemma RegroupMember<T>(a: seq<T>, b: seq<T>, c: seq<T>, d: seq<T>, e: seq<T>, f: seq<T>)
    ensures a + (b + (c + (d + e + f))) == a + b + (c + d) + e + f
  {}

  lemma {:induction false} ItemInFront(first: Value, more: seq<Value>)
    requires more != []
    ensures FlattenItems([first] + more) == Flatten(first) + ([Comma] + FlattenItems(more))
  {
    assert ([first] + more)[1..] == more;
  }

  lemma {:induction false} LastItem(first: Value, ts: seq<Lexeme>, rest: seq<Lexeme>)
    requires ts == Flatten(first) + rest && Starts(rest, RBracket)
    ensures ts == FlattenItems([first]) + [RBracket] + rest[1..]
  {
    assert rest == [RBracket] + rest[1..];
  }

  lemma {:induction false} ItemBefore(first: Value, more: seq<Value>, ts: seq<Lexeme>, rest: seq<Lexeme>,
                                      left: seq<Lexeme>)
    requires ts == Flatten(first) + rest && Starts(rest, Comma) && more != []
    requires rest[1..] == FlattenItems(more) + [RBracket] + left
    ensures ts == FlattenItems([first] + more) + [RBracket] + left
  {
    assert rest == [Comma] + rest[1..];
    ItemInFront(first, more);
    Regroup(Flatten(first), [Comma], FlattenItems(more), [RBracket], left);
  }

  lemma {:induction false} ScannedItems(ts: seq<Lexeme>) returns (items: seq<Value>)
    requires ScanItems(ts).Left?
    ensures items != [] && forall i :: 0 <= i < |items| ==> DuplicateFree(items[i])
    ensures ts == FlattenItems(items) + [RBracket] + ScanItems(ts).rest
    decreases |ts|, 1
  {
    var first := ScannedValue(ts);
    var rest := ScanValue(ts).rest;
    if Starts(rest, Comma) {
      var more := ScannedItems(rest[1..]);
      items := [first] + more;
      ItemBefore(first, more, ts, rest, ScanItems(ts).rest);
    } else {
      items := [first];
      LastItem(first, ts, rest);
    }
  }

  /** Putting a member in front of others with other names. */
  lemma {:induction false} MemberInFront(first: Member, more: seq<Member>, seen: set<string>)
    requires more != [] && DistinctNames(more) && first.name !in seen && DuplicateFree(first.value)
    requires forall i :: 0 <= i < |more| ==> DuplicateFree(more[i].value) && more[i].name !in seen + {first.name}
    ensures var members := [first] + more;
      && DistinctNames(members)
      && (forall i :: 0 <= i < |members| ==> DuplicateFree(members[i].value) && members[i].name !in seen)
      && FlattenMembers(members) == [Str(first.name), Colon] + Flatten(first.value) + ([Comma] + FlattenMembers(more))
  {
    var members := [first] + more;
    assert members[1..] == more;
    forall i | 0 < i < |members| ensures members[i] == more[i - 1] {}
  }

  lemma {:induction false} LastMember(first: Member, ts: seq<Lexeme>, rest: seq<Lexeme>)
    requires ts == [Str(first.name), Colon] + (Flatten(first.value) + rest) && Starts(rest, RBrace)
    ensures ts == FlattenMembers([first]) + [RBrace] + rest[1..]
  {
    assert rest == [RBrace] + rest[1..];
  }

  lemma {:induction false} MemberBefore(first: Member, more: seq<Member>, ts: seq<Lexeme>, rest: seq<Lexeme>,
                                        left: seq<Lexeme>, joined: seq<Lexeme>)
    requires ts == [Str(first.name), Colon] + (Flatten(first.value) + rest) && Starts(rest, Comma)
    requires rest[1..] == FlattenMembers(more) + [RBrace] + left
    requires joined == [Str(first.name), Colon] + Flatten(first.value) + ([Comma] + FlattenMembers(more))
    ensures ts == joined + [RBrace] + left
  {
    assert rest == [Comma] + rest[1..];
    RegroupMember([Str(first.name), Colon], Flatten(first.value), [Comma], FlattenMembers(more), [RBrace], left);
  }

  lemma {:induction false} ScannedMembers(ts: seq<Lexeme>, seen: set<string>) returns (members: seq<Member>)
    requires ScanMembers(ts, seen).Left?
    ensures members != [] && DistinctNames(members)
    ensures forall i :: 0 <= i < |members| ==> DuplicateFree(members[i].value) && members[i].name !in seen
    ensures ts == FlattenMembers(members) + [RBrace] + ScanMembers(ts, seen).rest
    decreases |ts|, 1
  {
    var name := ts[0].text;
    var value := ScannedValue(ts[2..]);
    var rest := ScanValue(ts[2..]).rest;
    var first := Member(name, value);
    assert ts == [Str(name), Colon] + ts[2..];
    if Starts(rest, Comma) {
      var more := ScannedMembers(rest[1..], seen + {name});
      members := [first] + more;
      MemberInFront(first, more, seen);
      MemberBefore(first, more, ts, rest, ScanMembers(ts, seen).rest, FlattenMembers(members));
    } else {
      members := [first];
      LastMember(first, ts, rest);
    }
  }

  // ----- every value is scanned

  lemma {:induction false} ValueScanned(v: Value, rest: seq<Lexeme>)
    requires DuplicateFree(v)
    ensures ScanValue(Flatten(v) + rest) == Left(rest)
    decreases v, 0
  {
    var ts := Flatten(v) + rest;
    match v
    case Text(_) => assert ts[1..] == rest;
    case Atom(_) => assert ts[1..] == rest;
    case Array(items) =>
      assert ts[1..] == FlattenItems(items) + [RBracket] + rest;
      if items == [] {
        assert ts[2..] == rest;
      } else {
        FirstLexeme(items[0]);
        ItemsScanned(items, rest);
      }
    case Object(members) =>
      assert ts[1..] == FlattenMembers(members) + [RBrace] + rest;
      if members == [] {
        assert ts[2..] == rest;
      } else {
        MembersScanned(members, rest, {});
      }
  }

  lemma {:induction false} FirstLexeme(v: Value)
    ensures Flatten(v) != [] && Flatten(v)[0] != RBracket
  {}

  /** What follows the first of some entries: the others, the closing bracket and the rest of the text. */
  lemma {:induction false} ItemsText(items: seq<Value>, rest: seq<Lexeme>, tail: seq<Lexeme>)
    requires items != []
    requires tail == (if items[1..] == [] then [] else [Comma] + FlattenItems(items[1..])) + [RBracket] + rest
    ensures FlattenItems(items) + [RBracket] + rest == Flatten(items[0]) + tail
  {
    var others := if items[1..] == [] then [] else [Comma] + FlattenItems(items[1..]);
    assert FlattenItems(items) == Flatten(items[0]) + others;
    Append(Flatten(items[0]), others, [RBracket], rest);
  }

  lemma Append<T>(a: seq<T>, b: seq<T>, c: seq<T>, d: seq<T>)
    ensures a + b + c + d == a + (b + c + d)
  {}

  lemma {:induction false} ItemsScanned(items: seq<Value>, rest: seq<Lexeme>)
    requires items != [] && forall i :: 0 <= i < |items| ==> DuplicateFree(items[i])
    ensures ScanItems(FlattenItems(items) + [RBracket] + rest) == Left(rest)
    decreases items, 1
  {
    var others := items[1..];
    var tail := (if others == [] then [] else [Comma] + FlattenItems(others)) + [RBracket] + rest;
    ItemsText(items, rest, tail);
    ValueScanned(items[0], tail);
    if others == [] {
      assert tail == [RBracket] + rest;
    } else {
      TailText(FlattenItems(others), RBracket, rest, tail);
      ItemsScanned(others, rest);
    }
  }

  lemma {:induction false} MembersScanned(members: seq<Member>, rest: seq<Lexeme>, seen: set<string>)
    requires members != [] && DistinctNames(members)
    requires forall i :: 0 <= i < |members| ==> DuplicateFree(members[i].value) && members[i].name !in seen
    ensures ScanMembers(FlattenMembers(members) + [RBrace] + rest, seen) == Left(rest)
    decreases members, 1
  {
    var first, others := members[0], members[1..];
    var tail := (if others == [] then [] else [Comma] + FlattenMembers(others)) + [RBrace] + rest;
    MembersText(members, rest, tail);
    ValueScanned(first.value, tail);
    if others == [] {
      assert tail == [RBrace] + rest;
    } else {
      TailText(FlattenMembers(others), RBrace, rest, tail);
      MembersScanned(others, rest, seen + {first.name});
    }
  }

  lemma TailText(others: seq<Lexeme>, close: Lexeme, rest: seq<Lexeme>, tail: seq<Lexeme>)
    requires tail == [Comma] + others + [close] + rest
    ensures Starts(tail, Comma) && tail[1..] == others + [close] + rest
  {}

  lemma {:induction false} MembersText(members: seq<Member>, rest: seq<Lexeme>, tail: seq<Lexeme>)
    requires members != []
    requires tail == (if members[1..] == [] then [] else [Comma] + FlattenMembers(members[1..])) + [RBrace] + rest
    ensures var ts := FlattenMembers(members) + [RBrace] + rest;
      |ts| >= 2 && ts[0] == Str(members[0].name) && ts[1] == Colon && ts[2..] == Flatten(members[0].value) + tail
  {
    var head, value := [Str(members[0].name), Colon], Flatten(members[0].value);
    var others := if members[1..] == [] then [] else [Comma] + FlattenMembers(members[1..]);
    assert FlattenMembers(members) == head + value + others;
    Cut(head, value, others, [RBrace], rest);
  }

  lemma Cut<T>(a: seq<T>, b: seq<T>, c: seq<T>, d: seq<T>, e: seq<T>)
    ensures var all := a + b + c + d + e; |all| >= |a| && all[..|a|] == a && all[|a|..] == b + (c + d + e)
  {}

  /** The one-pass reading consumes a whole text exactly when the text is one value with distinct names. */
  lemma {:induction false} ScanIffUniqueText(ts: seq<Lexeme>)
    ensures ScanValue(ts) == Left([]) <==> IsUniqueText(ts)
  {
    if ScanValue(ts) == Left([]) {
      var v := ScannedValue(ts);
      assert Flatten(v) == ts;
    }
    if IsUniqueText(ts) {
      var v :| DuplicateFree(v) && Flatten(v) == ts;
      ValueScanned(v, []);
      assert Flatten(v) + [] == ts;
    }
  }
}
