/** The grammar of JSON (section 2 of RFC 8259) over tokens, with a parser and a printer. */
module Json {
  import opened KubeApplier

  /** A JSON text: members in order of appearance, duplicates kept, numbers as they are spelled.
      Strings are the bytes of a Go string. */
  datatype Text =
    | Null
    | Bool(b: bool)
    | Num(text: seq<byte>)
    | Str(s: seq<byte>)
    | Arr(elems: seq<Text>)
    | Obj(members: seq<Member>)

  datatype Member = Member(name: seq<byte>, value: Text)

  /* ---- Grammar ---- */

  datatype Token =
    | TNull
    | TBool(b: bool)
    | TNum(text: seq<byte>)
    | TStr(s: seq<byte>)
    | LBrace
    | RBrace
    | LBracket
    | RBracket
    | Colon
    | Comma

  function Print(t: Text): (r: seq<Token>)
    ensures |r| > 0 && r[0] != RBracket && r[0] != RBrace
  {
    match t
    case Null => [TNull]
    case Bool(b) => [TBool(b)]
    case Num(text) => [TNum(text)]
    case Str(s) => [TStr(s)]
    case Arr(elems) => [LBracket] + PrintElems(elems) + [RBracket]
    case Obj(members) => [LBrace] + PrintMembers(members) + [RBrace]
  }

  function PrintElems(elems: seq<Text>): seq<Token> {
    if elems == [] then []
    else if |elems| == 1 then Print(elems[0])
    else Print(elems[0]) + [Comma] + PrintElems(elems[1..])
  }

  function PrintMember(m: Member): seq<Token> {
    [TStr(m.name), Colon] + Print(m.value)
  }

  function PrintMembers(members: seq<Member>): seq<Token> {
    if members == [] then []
    else if |members| == 1 then PrintMember(members[0])
    else PrintMember(members[0]) + [Comma] + PrintMembers(members[1..])
  }

  datatype Parsed<T> = Parsed(value: T, rest: seq<Token>)

  function ParseValue(ts: seq<Token>): (r: Option<Parsed<Text>>)
    ensures r.Some? ==> |r.value.rest| < |ts|
    decreases |ts|, 0
  {
    if ts == [] then None
    else
      var rest := ts[1..];
      match ts[0]
      case TNull => Some(Parsed(Null, rest))
      case TBool(b) => Some(Parsed(Bool(b), rest))
      case TNum(text) => Some(Parsed(Num(text), rest))
      case TStr(s) => Some(Parsed(Str(s), rest))
      case LBracket =>
        if rest != [] && rest[0] == RBracket then Some(Parsed(Arr([]), rest[1..]))
        else
          var r := ParseElems(rest);
          if r.None? then None else Some(Parsed(Arr(r.value.value), r.value.rest))
      case LBrace =>
        if rest != [] && rest[0] == RBrace then Some(Parsed(Obj([]), rest[1..]))
        else
          var r := ParseMembers(rest);
          if r.None? then None else Some(Parsed(Obj(r.value.value), r.value.rest))
      case _ => None
  }

  // At least one element, then the closing bracket.
  function ParseElems(ts: seq<Token>): (r: Option<Parsed<seq<Text>>>)
    ensures r.Some? ==> |r.value.rest| < |ts| && r.value.value != []
    decreases |ts|, 1
  {
    var e := ParseValue(ts);
    if e.None? || e.value.rest == [] then None
    else
      var rest := e.value.rest[1..];
      match e.value.rest[0]
      case RBracket => Some(Parsed([e.value.value], rest))
      case Comma =>
        var more := ParseElems(rest);
        if more.None? then None else Some(Parsed([e.value.value] + more.value.value, more.value.rest))
      case _ => None
  }

  function ParseMember(ts: seq<Token>): (r: Option<Parsed<Member>>)
    ensures r.Some? ==> |r.value.rest| < |ts|
    decreases |ts|, 1
  {
    if |ts| < 2 || !ts[0].TStr? || ts[1] != Colon then None
    else
      var e := ParseValue(ts[2..]);
      if e.None? then None else Some(Parsed(Member(ts[0].s, e.value.value), e.value.rest))
  }

  function ParseMembers(ts: seq<Token>): (r: Option<Parsed<seq<Member>>>)
    ensures r.Some? ==> |r.value.rest| < |ts| && r.value.value != []
    decreases |ts|, 2
  {
    var e := ParseMember(ts);
    if e.None? || e.value.rest == [] then None
    else
      var rest := e.value.rest[1..];
      match e.value.rest[0]
      case RBrace => Some(Parsed([e.value.value], rest))
      case Comma =>
        var more := ParseMembers(rest);
        if more.None? then None else Some(Parsed([e.value.value] + more.value.value, more.value.rest))
      case _ => None
  }

  /** A whole text and nothing after it. */
  function Parse(ts: seq<Token>): Option<Text> {
    var r := ParseValue(ts);
    if r.Some? && r.value.rest == [] then Some(r.value.value) else None
  }

  /** The parser accepts exactly the printed texts, each as the text it prints. */
  lemma ParseIsInverseOfPrint(ts: seq<Token>, t: Text)
    ensures Parse(ts) == Some(t) <==> ts == Print(t)
  {
    if Parse(ts) == Some(t) {
      ParsedValuePrints(ts);
      assert Print(t) + [] == Print(t);
    }
    PrintedValueParses(t, []);
    assert Print(t) + [] == Print(t);
  }

  lemma {:induction false} PrintedValueParses(t: Text, rest: seq<Token>)
    ensures ParseValue(Print(t) + rest) == Some(Parsed(t, rest))
  {
    var ts := Print(t) + rest;
    match t
    case Arr(elems) =>
      assert ts[1..] == PrintElems(elems) + ([RBracket] + rest);
      if elems == [] {
        assert ts[1..][1..] == rest;
      } else {
        PrintedElemsParse(elems, rest);
        ElemsStart(elems);
      }
    case Obj(members) =>
      assert ts[1..] == PrintMembers(members) + ([RBrace] + rest);
      if members == [] {
        assert ts[1..][1..] == rest;
      } else {
        PrintedMembersParse(members, rest);
        MembersStart(members);
      }
    case _ =>
      assert ts[1..] == rest;
  }

  lemma ElemsStart(elems: seq<Text>)
    requires elems != []
    ensures PrintElems(elems) != [] && PrintElems(elems)[0] != RBracket
  {
  }

  lemma MembersStart(members: seq<Member>)
    requires members != []
    ensures PrintMembers(members) != [] && PrintMembers(members)[0] != RBrace
  {
  }

  lemma {:induction false} PrintedElemsParse(elems: seq<Text>, rest: seq<Token>)
    requires elems != []
    ensures ParseElems(PrintElems(elems) + ([RBracket] + rest)) == Some(Parsed(elems, rest))
  {
    var close := [RBracket] + rest;
    if |elems| == 1 {
      PrintedValueParses(elems[0], close);
      LastElem(Print(elems[0]) + close, elems[0], rest);
      assert elems == [elems[0]];
    } else {
      var e, more := elems[0], elems[1..];
      var after := PrintElems(more) + close;
      PrintedElemsParse(more, rest);
      PrintedValueParses(e, [Comma] + after);
      MoreElems(Print(e) + ([Comma] + after), e, after, more, rest);
      Regroup(Print(e), Comma, PrintElems(more), close);
      assert elems == [e] + more;
    }
  }

  lemma Regroup(a: seq<Token>, sep: Token, b: seq<Token>, c: seq<Token>)
    ensures a + ([sep] + (b + c)) == a + [sep] + b + c
  {
  }

  lemma LastElem(ts: seq<Token>, e: Text, rest: seq<Token>)
    requires ParseValue(ts) == Some(Parsed(e, [RBracket] + rest))
    ensures ParseElems(ts) == Some(Parsed([e], rest))
  {
    assert ([RBracket] + rest)[1..] == rest;
  }

  lemma MoreElems(ts: seq<Token>, e: Text, after: seq<Token>, more: seq<Text>, rest: seq<Token>)
    requires ParseValue(ts) == Some(Parsed(e, [Comma] + after)) && ParseElems(after) == Some(Parsed(more, rest))
    ensures ParseElems(ts) == Some(Parsed([e] + more, rest))
  {
    assert ([Comma] + after)[1..] == after;
  }

  lemma {:induction false} PrintedMemberParses(m: Member, rest: seq<Token>)
    ensures ParseMember(PrintMember(m) + rest) == Some(Parsed(m, rest))
  {
    PrintedValueParses(m.value, rest);
    MemberSplits(m, rest);
    MemberParses(PrintMember(m) + rest);
  }

  lemma MemberSplits(m: Member, rest: seq<Token>)
    ensures var ts := PrintMember(m) + rest;
            |ts| >= 2 && ts[0] == TStr(m.name) && ts[1] == Colon && ts[2..] == Print(m.value) + rest
  {
  }

  lemma MemberParses(ts: seq<Token>)
    requires |ts| >= 2 && ts[0].TStr? && ts[1] == Colon && ParseValue(ts[2..]).Some?
    ensures var e := ParseValue(ts[2..]).value; ParseMember(ts) == Some(Parsed(Member(ts[0].s, e.value), e.rest))
  {
  }

  lemma {:induction false} PrintedMembersParse(members: seq<Member>, rest: seq<Token>)
    requires members != []
    ensures ParseMembers(PrintMembers(members) + ([RBrace] + rest)) == Some(Parsed(members, rest))
  {
    var close := [RBrace] + rest;
    if |members| == 1 {
      PrintedMemberParses(members[0], close);
      LastMember(PrintMember(members[0]) + close, members[0], rest);
      assert members == [members[0]];
    } else {
      var m, more := members[0], members[1..];
      var after := PrintMembers(more) + close;
      PrintedMembersParse(more, rest);
      PrintedMemberParses(m, [Comma] + after);
      MoreMembers(PrintMember(m) + ([Comma] + after), m, after, more, rest);
      Regroup(PrintMember(m), Comma, PrintMembers(more), close);
      assert members == [m] + more;
    }
  }

  lemma LastMember(ts: seq<Token>, m: Member, rest: seq<Token>)
    requires ParseMember(ts) == Some(Parsed(m, [RBrace] + rest))
    ensures ParseMembers(ts) == Some(Parsed([m], rest))
  {
    assert ([RBrace] + rest)[1..] == rest;
  }

  lemma MoreMembers(ts: seq<Token>, m: Member, after: seq<Token>, more: seq<Member>, rest: seq<Token>)
    requires ParseMember(ts) == Some(Parsed(m, [Comma] + after)) && ParseMembers(after) == Some(Parsed(more, rest))
    ensures ParseMembers(ts) == Some(Parsed([m] + more, rest))
  {
    assert ([Comma] + after)[1..] == after;
  }

  lemma {:induction false} ParsedValuePrints(ts: seq<Token>)
    requires ParseValue(ts).Some?
    ensures var r := ParseValue(ts).value; ts == Print(r.value) + r.rest
    decreases |ts|, 0
  {
    assert ts == [ts[0]] + ts[1..];
    if ts[0] == LBracket {
      ParsedArrayPrints(ts);
    } else if ts[0] == LBrace {
      ParsedObjectPrints(ts);
    }
  }

  lemma {:induction false} ParsedArrayPrints(ts: seq<Token>)
    requires ts != [] && ts[0] == LBracket && ParseValue(ts).Some?
    ensures var r := ParseValue(ts).value; ts == Print(r.value) + r.rest
    decreases |ts| - 1, 2
  {
    var rest := ts[1..];
    assert ts == [LBracket] + rest;
    if rest != [] && rest[0] == RBracket {
      assert rest == [RBracket] + rest[1..];
    } else {
      ParsedElemsPrint(rest);
    }
  }

  lemma {:induction false} ParsedObjectPrints(ts: seq<Token>)
    requires ts != [] && ts[0] == LBrace && ParseValue(ts).Some?
    ensures var r := ParseValue(ts).value; ts == Print(r.value) + r.rest
    decreases |ts| - 1, 3
  {
    var rest := ts[1..];
    assert ts == [LBrace] + rest;
    if rest != [] && rest[0] == RBrace {
      assert rest == [RBrace] + rest[1..];
    } else {
      ParsedMembersPrint(rest);
    }
  }

  lemma {:induction false} ParsedElemsPrint(ts: seq<Token>)
    requires ParseElems(ts).Some?
    ensures var r := ParseElems(ts).value; ts == PrintElems(r.value) + ([RBracket] + r.rest)
    decreases |ts|, 1
  {
    ParsedValuePrints(ts);
    var e := ParseValue(ts).value;
    var after := e.rest[1..];
    assert e.rest == [e.rest[0]] + after;
    if e.rest[0] == Comma {
      ParsedElemsPrint(after);
      var more := ParseElems(after).value;
      MoreElems(ts, e.value, after, more.value, more.rest);
      MoreElemsPrint(e.value, more.value);
      Regroup(Print(e.value), Comma, PrintElems(more.value), [RBracket] + more.rest);
    } else {
      LastElem(ts, e.value, after);
    }
  }

  lemma MoreElemsPrint(e: Text, more: seq<Text>)
    requires more != []
    ensures PrintElems([e] + more) == Print(e) + [Comma] + PrintElems(more)
  {
    assert ([e] + more)[1..] == more;
  }

  lemma {:induction false} ParsedMemberPrints(ts: seq<Token>)
    requires ParseMember(ts).Some?
    ensures var r := ParseMember(ts).value; ts == PrintMember(r.value) + r.rest
    decreases |ts|, 1
  {
    ParsedValuePrints(ts[2..]);
    assert ts == [ts[0], ts[1]] + ts[2..];
  }

  lemma {:induction false} ParsedMembersPrint(ts: seq<Token>)
    requires ParseMembers(ts).Some?
    ensures var r := ParseMembers(ts).value; ts == PrintMembers(r.value) + ([RBrace] + r.rest)
    decreases |ts|, 2
  {
    ParsedMemberPrints(ts);
    var e := ParseMember(ts).value;
    var after := e.rest[1..];
    assert e.rest == [e.rest[0]] + after;
    if e.rest[0] == Comma {
      ParsedMembersPrint(after);
      var more := ParseMembers(after).value;
      MoreMembers(ts, e.value, after, more.value, more.rest);
      MoreMembersPrint(e.value, more.value);
      Regroup(PrintMember(e.value), Comma, PrintMembers(more.value), [RBrace] + more.rest);
    } else {
      LastMember(ts, e.value, after);
    }
  }

  lemma MoreMembersPrint(m: Member, more: seq<Member>)
    requires more != []
    ensures PrintMembers([m] + more) == PrintMember(m) + [Comma] + PrintMembers(more)
  {
    assert ([m] + more)[1..] == more;
  }

  /* ---- Numbers in a text ---- */

  /** Every number of the text is spelled as p asks. */
  predicate AllNumbers(t: Text, p: seq<byte> -> bool) {
    match t
    case Num(text) => p(text)
    case Arr(elems) => forall i | 0 <= i < |elems| :: AllNumbers(elems[i], p)
    case Obj(members) => forall i | 0 <= i < |members| :: AllNumbers(members[i].value, p)
    case _ => true
  }

  predicate TokenNumbers(ts: seq<Token>, p: seq<byte> -> bool) {
    forall i | 0 <= i < |ts| && ts[i].TNum? :: p(ts[i].text)
  }

  lemma TokenNumbersConcat(a: seq<Token>, b: seq<Token>, p: seq<byte> -> bool)
    ensures TokenNumbers(a + b, p) <==> TokenNumbers(a, p) && TokenNumbers(b, p)
  {
    var c := a + b;
    if TokenNumbers(c, p) {
      forall i | 0 <= i < |a| && a[i].TNum? ensures p(a[i].text) { assert c[i] == a[i]; }
      forall i | 0 <= i < |b| && b[i].TNum? ensures p(b[i].text) { assert c[|a| + i] == b[i]; }
    }
  }

  /** The numbers of a text are those of its tokens. */
  lemma {:induction false} NumbersArePrinted(t: Text, p: seq<byte> -> bool)
    ensures TokenNumbers(Print(t), p) <==> AllNumbers(t, p)
  {
    match t
    case Arr(elems) =>
      ElemNumbersArePrinted(elems, p);
      TokenNumbersConcat([LBracket] + PrintElems(elems), [RBracket], p);
      TokenNumbersConcat([LBracket], PrintElems(elems), p);
    case Obj(members) =>
      MemberNumbersArePrinted(members, p);
      TokenNumbersConcat([LBrace] + PrintMembers(members), [RBrace], p);
      TokenNumbersConcat([LBrace], PrintMembers(members), p);
    case Num(text) =>
      assert Print(t)[0].text == text;
    case _ =>
  }

  lemma {:induction false} ElemNumbersArePrinted(elems: seq<Text>, p: seq<byte> -> bool)
    ensures TokenNumbers(PrintElems(elems), p) <==> forall i | 0 <= i < |elems| :: AllNumbers(elems[i], p)
  {
    if elems != [] {
      NumbersArePrinted(elems[0], p);
      ElemNumbersArePrinted(elems[1..], p);
      TokenNumbersConcat(Print(elems[0]) + [Comma], PrintElems(elems[1..]), p);
      TokenNumbersConcat(Print(elems[0]), [Comma], p);
      assert forall i | 0 <= i < |elems| :: elems[i] == if i == 0 then elems[0] else elems[1..][i - 1];
    }
  }

  lemma {:induction false} MemberNumbersArePrinted(members: seq<Member>, p: seq<byte> -> bool)
    ensures TokenNumbers(PrintMembers(members), p) <==> forall i | 0 <= i < |members| :: AllNumbers(members[i].value, p)
  {
    if members != [] {
      var head := [TStr(members[0].name), Colon];
      NumbersArePrinted(members[0].value, p);
      MemberNumbersArePrinted(members[1..], p);
      TokenNumbersConcat(head, Print(members[0].value), p);
      TokenNumbersConcat(PrintMember(members[0]) + [Comma], PrintMembers(members[1..]), p);
      TokenNumbersConcat(PrintMember(members[0]), [Comma], p);
      assert forall i | 0 <= i < |members| :: members[i] == if i == 0 then members[0] else members[1..][i - 1];
    }
  }

  /** No number stands right after another, so digits never run together. */
  predicate Separated(ts: seq<Token>) {
    forall i | 0 < i < |ts| :: !(ts[i - 1].TNum? && ts[i].TNum?)
  }

  lemma SeparatedGlue(a: seq<Token>, sep: Token, b: seq<Token>)
    requires Separated(a) && Separated(b) && !sep.TNum?
    ensures Separated(a + [sep] + b)
  {
  }

  lemma {:induction false} PrintIsSeparated(t: Text)
    ensures Separated(Print(t))
  {
    match t
    case Arr(elems) =>
      ElemsAreSeparated(elems);
      SeparatedGlue([], LBracket, PrintElems(elems));
      SeparatedGlue([LBracket] + PrintElems(elems), RBracket, []);
      assert [] + [LBracket] + PrintElems(elems) == [LBracket] + PrintElems(elems);
      assert Print(t) == [LBracket] + PrintElems(elems) + [RBracket] + [];
    case Obj(members) =>
      MembersAreSeparated(members);
      SeparatedGlue([], LBrace, PrintMembers(members));
      SeparatedGlue([LBrace] + PrintMembers(members), RBrace, []);
      assert [] + [LBrace] + PrintMembers(members) == [LBrace] + PrintMembers(members);
      assert Print(t) == [LBrace] + PrintMembers(members) + [RBrace] + [];
    case _ =>
  }

  lemma {:induction false} ElemsAreSeparated(elems: seq<Text>)
    ensures Separated(PrintElems(elems))
  {
    if elems != [] {
      PrintIsSeparated(elems[0]);
      ElemsAreSeparated(elems[1..]);
      SeparatedGlue(Print(elems[0]), Comma, PrintElems(elems[1..]));
    }
  }

  lemma {:induction false} MembersAreSeparated(members: seq<Member>)
    ensures Separated(PrintMembers(members))
  {
    if members != [] {
      var m := members[0];
      PrintIsSeparated(m.value);
      MembersAreSeparated(members[1..]);
      SeparatedGlue([TStr(m.name)], Colon, Print(m.value));
      assert PrintMember(m) == [TStr(m.name)] + [Colon] + Print(m.value);
      SeparatedGlue(PrintMember(m), Comma, PrintMembers(members[1..]));
    }
  }
}
