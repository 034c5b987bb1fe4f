/** What the bytes, the numbers and the values of JSON mean, against RFC 8259 itself: the reader and the
    writer could not be wrong together. */
module JsonLaws {
  import opened KubeApplier
  import opened Float64s
  import opened Json
  import opened JsonNumbers
  import opened JsonLexer
  import opened JsonValues

  /** The bytes of a text in ASCII. */
  function Ascii(s: string): (bs: seq<byte>)
    requires forall i | 0 <= i < |s| :: s[i] < 128 as char
    ensures |bs| == |s|
  {
    seq(|s|, i requires 0 <= i < |s| => s[i] as int as byte)
  }

  /* ---- Tokens (section 2 of RFC 8259) ---- */

  /** How each token is written. */
  lemma TokensInAscii()
    ensures SpellToken(TNull) == Ascii("null") && SpellToken(TBool(true)) == Ascii("true")
    ensures SpellToken(TBool(false)) == Ascii("false")
    ensures SpellToken(LBrace) == Ascii("{") && SpellToken(RBrace) == Ascii("}")
    ensures SpellToken(LBracket) == Ascii("[") && SpellToken(RBracket) == Ascii("]")
    ensures SpellToken(Colon) == Ascii(":") && SpellToken(Comma) == Ascii(",")
    ensures SpellToken(TStr([])) == Ascii("\"\"")
  {
    WordsInAscii();
  }

  lemma WordsInAscii()
    ensures NULL == Ascii("null") && TRUE == Ascii("true") && FALSE == Ascii("false")
  {
  }

  /** The four bytes of white space. */
  lemma WhiteSpace(b: byte)
    ensures IsSpace(b) <==> b == 0x20 || b == 0x09 || b == 0x0A || b == 0x0D
  {
  }

  /** A text that starts with a byte no token starts with is refused, and so is a word that is none of
      the three. */
  lemma NoToken(bs: seq<byte>)
    requires bs != [] && !IsSpace(bs[0]) && bs[0] !in {0x7B, 0x7D, 0x5B, 0x5D, 0x3A, 0x2C, 0x22, 0x2D}
    requires !(0x30 <= bs[0] <= 0x39) && !(NULL <= bs) && !(TRUE <= bs) && !(FALSE <= bs)
    ensures Unmarshal(bs) == None
  {
    assert LexOne(bs, IsNumber) == None;
  }

  /* ---- Arrays and objects (sections 4 and 5) ---- */

  /** Parts with a separator in between. */
  function Joined(parts: seq<seq<byte>>, sep: byte): seq<byte> {
    if parts == [] then []
    else if |parts| == 1 then parts[0]
    else parts[0] + [sep] + Joined(parts[1..], sep)
  }

  function SpellMember(m: Member): seq<byte> {
    [0x22] + Escape(m.name) + [0x22, 0x3A] + SpellText(m.value)
  }

  function SpellEach(elems: seq<Text>): seq<seq<byte>> {
    seq(|elems|, i requires 0 <= i < |elems| => SpellText(elems[i]))
  }

  function SpellMembers(members: seq<Member>): seq<seq<byte>> {
    seq(|members|, i requires 0 <= i < |members| => SpellMember(members[i]))
  }

  lemma SpellCons(t: Token, ts: seq<Token>)
    ensures Spell([t] + ts) == SpellToken(t) + Spell(ts)
  {
    assert ([t] + ts)[1..] == ts;
  }

  lemma Regrouped(a: seq<byte>, b: seq<byte>, c: seq<byte>)
    ensures a + (b + c) == a + b + c
  {
  }

  lemma SpellsOneMore(t: Token, ts: seq<Token>, both: seq<Token>, a: seq<Token>, c: seq<Token>, after: seq<byte>)
    requires a == [t] + ts && c == [t] + both
    requires Spell(both) == Spell(ts) + after
    ensures Spell(c) == Spell(a) + after
  {
    SpellCons(t, ts);
    SpellCons(t, both);
    Regrouped(SpellToken(t), Spell(ts), after);
  }

  lemma HeadAndRest(a: seq<Token>, b: seq<Token>) returns (t: Token, ts: seq<Token>)
    requires a != []
    ensures a == [t] + ts && a + b == [t] + (ts + b) && |ts| < |a|
  {
    t, ts := a[0], a[1..];
  }

  lemma {:induction false} SpellConcat(a: seq<Token>, b: seq<Token>)
    ensures Spell(a + b) == Spell(a) + Spell(b)
    decreases |a|
  {
    if a == [] {
      assert a + b == b;
    } else {
      var t, ts := HeadAndRest(a, b);
      SpellConcat(ts, b);
      SpellsOneMore(t, ts, ts + b, a, a + b, Spell(b));
    }
  }

  lemma SpellOne(t: Token)
    ensures Spell([t]) == SpellToken(t)
  {
    assert Spell([t][1..]) == [];
  }

  lemma SpellsNext(first: seq<Token>, more: seq<Token>)
    ensures Spell(first + [Comma] + more) == Spell(first) + [0x2C] + Spell(more)
  {
    SpellConcat(first + [Comma], more);
    SpellConcat(first, [Comma]);
    SpellOne(Comma);
  }

  // A separator follows the first of several parts.
  lemma JoinedNext(parts: seq<seq<byte>>, first: seq<byte>, more: seq<seq<byte>>, sep: byte)
    requires parts == [first] + more && more != []
    ensures Joined(parts, sep) == first + [sep] + Joined(more, sep)
  {
    assert parts[1..] == more;
  }

  // One more part in front.
  lemma SpellsPart(
    ts: seq<Token>, first: seq<Token>, more: seq<Token>, parts: seq<seq<byte>>, head: seq<byte>, rest: seq<seq<byte>>)
    requires ts == first + [Comma] + more && parts == [head] + rest && rest != []
    requires Spell(first) == head && Spell(more) == Joined(rest, 0x2C)
    ensures Spell(ts) == Joined(parts, 0x2C)
  {
    SpellsNext(first, more);
    JoinedNext(parts, head, rest, 0x2C);
  }

  lemma {:induction false} SpellsElems(elems: seq<Text>)
    ensures Spell(PrintElems(elems)) == Joined(SpellEach(elems), 0x2C)
  {
    if |elems| == 1 {
      assert SpellEach(elems) == [SpellText(elems[0])];
    } else if |elems| > 1 {
      var e, more := elems[0], elems[1..];
      SpellsElems(more);
      assert SpellEach(elems) == [SpellText(e)] + SpellEach(more);
      SpellsPart(PrintElems(elems), Print(e), PrintElems(more), SpellEach(elems), SpellText(e), SpellEach(more));
    }
  }

  lemma SpellsMember(m: Member)
    ensures Spell(PrintMember(m)) == SpellMember(m)
  {
    SpellConcat([TStr(m.name), Colon], Print(m.value));
    SpellConcat([TStr(m.name)], [Colon]);
    SpellOne(TStr(m.name));
    SpellOne(Colon);
    assert [TStr(m.name), Colon] == [TStr(m.name)] + [Colon];
    var quote: seq<byte>, colon: seq<byte> := [0x22], [0x3A];
    assert quote + colon == [0x22, 0x3A];
  }

  lemma MembersSplit(members: seq<Member>, m: Member, more: seq<Member>)
    requires members == [m] + more
    ensures SpellMembers(members) == [SpellMember(m)] + SpellMembers(more)
  {
  }

  lemma {:induction false} SpellsMembers(members: seq<Member>)
    ensures Spell(PrintMembers(members)) == Joined(SpellMembers(members), 0x2C)
  {
    if |members| == 1 {
      SpellsMember(members[0]);
      assert SpellMembers(members) == [SpellMember(members[0])];
    } else if |members| > 1 {
      var m, more := members[0], members[1..];
      SpellsMembers(more);
      SpellsMember(m);
      MembersSplit(members, m, more);
      SpellsPart(PrintMembers(members), PrintMember(m), PrintMembers(more),
        SpellMembers(members), SpellMember(m), SpellMembers(more));
    }
  }

  lemma SpellsBetween(open: Token, inner: seq<Token>, close: Token)
    ensures Spell([open] + inner + [close]) == SpellToken(open) + Spell(inner) + SpellToken(close)
  {
    SpellConcat([open] + inner, [close]);
    SpellConcat([open], inner);
    SpellOne(open);
    SpellOne(close);
  }

  /** How a text is written, in bytes: elements and members in order, with commas in between, members by
      their quoted name and a colon. */
  lemma TextInBytes(t: Text)
    ensures t.Null? ==> SpellText(t) == Ascii("null")
    ensures t.Bool? ==> SpellText(t) == Ascii(if t.b then "true" else "false")
    ensures t.Num? ==> SpellText(t) == t.text
    ensures t.Str? ==> SpellText(t) == [0x22] + Escape(t.s) + [0x22]
    ensures t.Arr? ==> SpellText(t) == [0x5B] + Joined(SpellEach(t.elems), 0x2C) + [0x5D]
    ensures t.Obj? ==> SpellText(t) == [0x7B] + Joined(SpellMembers(t.members), 0x2C) + [0x7D]
  {
    TokensInAscii();
    match t
    case Arr(elems) =>
      SpellsElems(elems);
      SpellsBetween(LBracket, PrintElems(elems), RBracket);
    case Obj(members) =>
      SpellsMembers(members);
      SpellsBetween(LBrace, PrintMembers(members), RBrace);
    case _ =>
      SpellOne(Print(t)[0]);
  }

  lemma SameHead(a: seq<byte>, b: seq<byte>, n: nat)
    requires 0 < n <= |a| && n <= |b| && a[..n] == b[..n]
    ensures a[0] == b[0]
  {
    assert a[..n][0] == a[0] && b[..n][0] == b[0];
  }

  /** The order of names: byte by byte, a beginning before the whole. */
  lemma {:induction false} OrderOfNames(a: seq<byte>, b: seq<byte>)
    ensures Before(a, b) <==>
            exists n: nat :: n <= |a| && n < |b| && a[..n] == b[..n] && (n == |a| || a[n] < b[n])
  {
    if a != [] && b != [] && a[0] == b[0] {
      OrderOfNames(a[1..], b[1..]);
      if Before(a, b) {
        var n: nat :| n <= |a[1..]| && n < |b[1..]| && a[1..][..n] == b[1..][..n]
          && (n == |a[1..]| || a[1..][n] < b[1..][n]);
        assert a[..n + 1] == [a[0]] + a[1..][..n] && b[..n + 1] == [b[0]] + b[1..][..n];
      }
      forall n: nat | n <= |a| && n < |b| && a[..n] == b[..n] && (n == |a| || a[n] < b[n]) ensures Before(a, b) {
        assert n > 0 && a[1..][..n - 1] == a[..n][1..] && b[1..][..n - 1] == b[..n][1..];
      }
    } else if Before(a, b) {
      assert a[..0] == b[..0];
    } else {
      forall n: nat | n <= |a| && n < |b| && a[..n] == b[..n] ensures n < |a| && !(a[n] < b[n]) {
        if n > 0 { SameHead(a, b, n); }
      }
    }
  }

  /* ---- Strings (section 7) ---- */

  /** What the two-character escapes stand for, whatever follows. */
  lemma ShortEscapes(rest: seq<byte>)
    ensures UnescapeOne([0x22] + rest) == Some(([0x22], 1)) && UnescapeOne([0x5C] + rest) == Some(([0x5C], 1))
    ensures UnescapeOne([0x2F] + rest) == Some(([0x2F], 1))
    ensures UnescapeOne([0x62] + rest) == Some(([0x08], 1)) && UnescapeOne([0x66] + rest) == Some(([0x0C], 1))
    ensures UnescapeOne([0x6E] + rest) == Some(([0x0A], 1)) && UnescapeOne([0x72] + rest) == Some(([0x0D], 1))
    ensures UnescapeOne([0x74] + rest) == Some(([0x09], 1))
  {
  }

  /** A backslash before anything else is an error. */
  lemma UnknownEscapes(b: byte, rest: seq<byte>)
    ensures UnescapeOne([b] + rest).Some? ==> b in {0x22, 0x5C, 0x2F, 0x62, 0x66, 0x6E, 0x72, 0x74, 0x75}
  {
  }

  /** Four hexadecimal digits. */
  function Hex4(c: nat): seq<byte>
    requires c < 0x1_0000
  {
    [HexDigit(c / 0x1000), HexDigit(c / 0x100 % 0x10), HexDigit(c / 0x10 % 0x10), HexDigit(c % 0x10)]
  }

  lemma HexSplits(c: nat)
    requires c < 0x1_0000
    ensures c / 0x1000 < 0x10
    ensures c == 0x1000 * (c / 0x1000) + 0x100 * (c / 0x100 % 0x10) + 0x10 * (c / 0x10 % 0x10) + c % 0x10
  {
  }

  lemma CodeUnitOf(bs: seq<byte>, a: nat, b: nat, c: nat, d: nat)
    requires a < 0x10 && b < 0x10 && c < 0x10 && d < 0x10 && |bs| >= 4
    requires bs[0] == HexDigit(a) && bs[1] == HexDigit(b) && bs[2] == HexDigit(c) && bs[3] == HexDigit(d)
    ensures CodeUnit(bs) == Some(0x1000 * a + 0x100 * b + 0x10 * c + d)
  {
  }

  lemma Hex4Reads(c: nat, rest: seq<byte>)
    requires c < 0x1_0000
    ensures CodeUnit(Hex4(c) + rest) == Some(c)
  {
    HexSplits(c);
    CodeUnitOf(Hex4(c) + rest, c / 0x1000, c / 0x100 % 0x10, c / 0x10 % 0x10, c % 0x10);
  }

  /** Hexadecimal digits of either case. */
  lemma HexDigits()
    ensures HexValue(0x30) == 0 && HexValue(0x39) == 9 && HexValue(0x61) == 10 && HexValue(0x66) == 15
    ensures HexValue(0x41) == 10 && HexValue(0x46) == 15
    ensures HexDigit(0) == 0x30 && HexDigit(9) == 0x39 && HexDigit(10) == 0x61 && HexDigit(15) == 0x66
  {
  }

  /** \uXXXX stands for its code point, unless that is a surrogate. */
  lemma UnicodeEscape(c: nat, rest: seq<byte>)
    requires c < 0x1_0000 && !(0xD800 <= c < 0xE000)
    ensures UnescapeOne([0x75] + Hex4(c) + rest) == Some((Utf8(c), 5))
  {
    Hex4Reads(c, rest);
    assert ([0x75] + Hex4(c) + rest)[1..] == Hex4(c) + rest;
  }

  // A high surrogate looks at the next escape.
  lemma PairReads(bs: seq<byte>, high: nat, low: nat)
    requires |bs| >= 7 && bs[0] == 0x75 && bs[5] == 0x5C && bs[6] == 0x75
    requires CodeUnit(bs[1..]) == Some(high) && CodeUnit(bs[7..]) == Some(low)
    requires 0xD800 <= high < 0xDC00 && 0xDC00 <= low < 0xE000
    ensures UnescapeOne(bs) == Some((Utf8(0x1_0000 + 0x400 * (high - 0xD800) + (low - 0xDC00)), 11))
  {
  }

  lemma PairSplits(high: seq<byte>, low: seq<byte>, rest: seq<byte>)
    requires |high| == 4
    ensures var bs := [0x75] + high + ([0x5C, 0x75] + low + rest);
            && bs[1..] == high + ([0x5C, 0x75] + low + rest)
            && bs[7..] == low + rest && bs[0] == 0x75 && bs[5] == 0x5C && bs[6] == 0x75
  {
  }

  /** Two escapes of a high and a low surrogate stand for the code point they encode. */
  lemma SurrogatePair(c: nat, high: nat, low: nat, rest: seq<byte>)
    requires 0xD800 <= high < 0xDC00 && 0xDC00 <= low < 0xE000
    requires c == 0x1_0000 + 0x400 * (high - 0xD800) + (low - 0xDC00)
    ensures UnescapeOne([0x75] + Hex4(high) + ([0x5C, 0x75] + Hex4(low) + rest)) == Some((Utf8(c), 11))
  {
    var first, second := Hex4(high), Hex4(low);
    PairSplits(first, second, rest);
    Hex4Reads(high, [0x5C, 0x75] + second + rest);
    Hex4Reads(low, rest);
    PairReads([0x75] + first + ([0x5C, 0x75] + second + rest), high, low);
  }

  /** A surrogate with no partner stands for U+FFFD. */
  lemma LoneSurrogate(c: nat, rest: seq<byte>)
    requires 0xD800 <= c < 0xE000 && (rest == [] || rest[0] != 0x5C)
    ensures UnescapeOne([0x75] + Hex4(c) + rest) == Some(([0xEF, 0xBF, 0xBD], 5))
  {
    var bs := [0x75] + Hex4(c) + rest;
    Hex4Reads(c, rest);
    assert bs[1..] == Hex4(c) + rest;
    assert |bs| > 5 ==> bs[5] == rest[0];
  }

  // The number in a byte above its leading bits.
  function Bits(b: byte, lead: int): int {
    b as int - lead
  }

  predicate Continues(b: byte) {
    0x80 <= b < 0xC0
  }

  /** UTF-8: how many bytes, how each starts, and the code point put together from their bits. */
  lemma Utf8Means(c: nat)
    requires c < 0x11_0000
    ensures var u := Utf8(c);
            && |u| == (if c < 0x80 then 1 else if c < 0x800 then 2 else if c < 0x1_0000 then 3 else 4)
            && (|u| == 1 ==> u[0] < 0x80 && c == Bits(u[0], 0))
            && (|u| == 2 ==> 0xC0 <= u[0] < 0xE0 && Continues(u[1]) && c == 0x40 * Bits(u[0], 0xC0) + Bits(u[1], 0x80))
            && (|u| == 3 ==>
                  && 0xE0 <= u[0] < 0xF0 && Continues(u[1]) && Continues(u[2])
                  && c == 0x1000 * Bits(u[0], 0xE0) + 0x40 * Bits(u[1], 0x80) + Bits(u[2], 0x80))
            && (|u| == 4 ==>
                  && 0xF0 <= u[0] < 0xF8 && Continues(u[1]) && Continues(u[2]) && Continues(u[3])
                  && c == 0x4_0000 * Bits(u[0], 0xF0) + 0x1000 * Bits(u[1], 0x80) + 0x40 * Bits(u[2], 0x80)
                          + Bits(u[3], 0x80))
  {
    if c < 0x1_0000 { Groups(c); } else { FourGroups(c); }
  }

  lemma Groups(c: int)
    requires 0 <= c < 0x1_0000
    ensures c < 0x800 ==> c / 0x40 < 0x20 && c == 0x40 * (c / 0x40) + c % 0x40
    ensures c / 0x1000 < 0x10 && c == 0x1000 * (c / 0x1000) + 0x40 * (c / 0x40 % 0x40) + c % 0x40
  {
  }

  lemma FourGroups(c: int)
    requires 0 <= c < 0x11_0000
    ensures c / 0x4_0000 < 5
    ensures c == 0x4_0000 * (c / 0x4_0000) + 0x1000 * (c / 0x1000 % 0x40) + 0x40 * (c / 0x40 % 0x40) + c % 0x40
  {
  }

  /** Which bytes json.Marshal escapes, and how: quotes, backslashes and controls, the shortest way there
      is for five of them, and three characters that matter to HTML. */
  lemma WhatIsEscaped(b: byte)
    ensures EscapeByte(b) == [b] <==> b >= 0x20 && b !in {0x22, 0x5C, 0x3C, 0x3E, 0x26}
    ensures |EscapeByte(b)| == 2 <==> b in {0x22, 0x5C, 0x08, 0x0C, 0x0A, 0x0D, 0x09}
  {
  }

  /** A string is escaped byte by byte, but for the two line separators, which become their escapes. */
  lemma EscapesInOrder(b: byte, rest: seq<byte>)
    ensures !IsLineSeparator([b] + rest) ==> Escape([b] + rest) == EscapeByte(b) + Escape(rest)
    ensures Escape([0xE2, 0x80, 0xA8] + rest) == Ascii("\\u2028") + Escape(rest)
    ensures Escape([0xE2, 0x80, 0xA9] + rest) == Ascii("\\u2029") + Escape(rest)
  {
    var s, t, u: seq<byte> := [b] + rest, [0xE2, 0x80, 0xA8] + rest, [0xE2, 0x80, 0xA9] + rest;
    assert s[1..] == rest && t[3..] == rest && u[3..] == rest;
    assert EscapeChunk(t) == Ascii("\\u2028") && EscapeChunk(u) == Ascii("\\u2029");
  }

  /** A control character in a string is an error. */
  lemma ControlsAreErrors(bs: seq<byte>)
    requires bs == [] || bs[0] < 0x20
    ensures Unescape(bs) == None
  {
  }

  /* ---- Numbers (section 6) ---- */

  predicate AllDigits(s: seq<byte>) {
    forall i | 0 <= i < |s| :: IsDigit(s[i])
  }

  lemma FractionScans(negative: bool, whole: seq<byte>, fs: seq<byte>, tail: seq<byte>)
    requires AllDigits(whole) && AllDigits(fs) && fs != [] && (tail != [] ==> !IsDigit(tail[0]))
    ensures AllDigits(whole + fs)
    ensures ScanFraction(negative, whole, [0x2E] + (fs + tail)) ==
            ScanExponent(negative, Natural(whole + fs), -(|fs| as int), tail)
  {
    var s := [0x2E] + (fs + tail);
    DigitsOf(fs, tail);
    assert s[1..] == fs + tail;
    assert (fs + tail)[..|fs|] == fs && (fs + tail)[|fs|..] == tail;
  }

  /** An exponent without a sign, in either case. */
  lemma PlainExponent(negative: bool, digits: nat, scale: int, mark: byte, ks: seq<byte>, power: int)
    requires ks != [] && AllDigits(ks) && power == Natural(ks) && (mark == 0x65 || mark == 0x45)
    ensures ScanExponent(negative, digits, scale, [mark] + ks) == Some(Literal(negative, digits, scale + power))
  {
    var s := [mark] + ks;
    DigitsOfAll(ks);
    assert s[1..] == ks && s[1] == ks[0];
  }

  /** And with either sign. */
  lemma SignedExponent(
    negative: bool, digits: nat, scale: int, mark: byte, sign: byte, ks: seq<byte>, power: int)
    requires ks != [] && AllDigits(ks) && power == Natural(ks)
    requires (mark == 0x65 || mark == 0x45) && (sign == 0x2B || sign == 0x2D)
    ensures ScanExponent(negative, digits, scale, [mark, sign] + ks) ==
            Some(Literal(negative, digits, if sign == 0x2D then scale - power else scale + power))
  {
    var s := [mark, sign] + ks;
    DigitsOfAll(ks);
    assert s[2..] == ks && s[0] == mark && s[1] == sign;
  }

  /** A number with a sign, a whole part and a fraction: all its digits, scaled down by the length of the
      fraction, and whatever the exponent then makes of it. */
  lemma ScansFraction(negative: bool, v: nat, fs: seq<byte>, tail: seq<byte>)
    requires AllDigits(fs) && fs != [] && (tail != [] ==> !IsDigit(tail[0]))
    ensures AllDigits(Decimal(v) + fs)
    ensures Scan(Sign(negative) + (Decimal(v) + ([0x2E] + (fs + tail)))) ==
            ScanExponent(negative, Natural(Decimal(v) + fs), -(|fs| as int), tail)
  {
    ScansWhole(negative, v, [0x2E] + (fs + tail));
    FractionScans(negative, Decimal(v), fs, tail);
  }

  /** And without a fraction. */
  lemma ScansNoFraction(negative: bool, v: nat, tail: seq<byte>)
    requires tail != [] ==> !IsDigit(tail[0]) && tail[0] != 0x2E
    ensures Scan(Sign(negative) + (Decimal(v) + tail)) == ScanExponent(negative, v, 0, tail)
  {
    ScansWhole(negative, v, tail);
  }

  /** What a text of digits is worth: its value grows by place. */
  lemma {:induction false} NaturalPlaces(a: seq<byte>, b: seq<byte>)
    requires AllDigits(a) && AllDigits(b)
    ensures AllDigits(a + b)
    ensures Natural(a + b) as real == Shift10(Natural(a) as real, |b|) + Natural(b) as real
  {
    if b == [] {
      assert a + b == a;
    } else {
      NaturalPlaces(a, b[..|b| - 1]);
      assert (a + b)[..|a + b| - 1] == a + b[..|b| - 1];
    }
  }

  /** What is no number: nothing, a bare sign, a plus sign, a leading zero, a missing whole part, fraction
      or exponent, and anything after it. */
  lemma NotNumbers()
    ensures !IsNumber([]) && !IsNumber([0x2D]) && !IsNumber([0x2B, 0x31])
    ensures !IsNumber([0x30, 0x31]) && !IsNumber([0x2E, 0x35]) && !IsNumber([0x31, 0x2E])
    ensures !IsNumber([0x31, 0x65]) && !IsNumber([0x31, 0x20])
  {
    OneDigit(0x30);
    OneDigit(0x31);
  }

  lemma OneDigit(d: byte)
    requires IsDigit(d)
    ensures Digits([d]) == 1 && IsNumber([d])
  {
  }

  /** A number is read as the double nearest to digits times a power of ten. */
  lemma ReadsNearest(l: Literal)
    ensures ReadLiteral(l).Some? ==>
              var f := ReadLiteral(l).value;
              var y := Shift(Shift10(l.digits as real, l.exponent), -f.e);
              f.negative == l.negative && f.m as real - 0.5 <= y <= f.m as real + 0.5
  {
    Shift10KeepsSign(l.digits as real, l.exponent);
    if ReadLiteral(l).Some? { RoundsToNearest(l.negative, Shift10(l.digits as real, l.exponent)); }
  }

  /* ---- Values ---- */

  // No later member has this one's name.
  predicate IsLast(members: seq<Member>, i: nat)
    requires i < |members|
  {
    forall j | i < j < |members| :: members[j].name != members[i].name
  }

  /** The value a text means: scalars as they are, numbers as their doubles, arrays in order, and objects
      by name, where the last member of a name counts. */
  ghost predicate Means(t: Text, v: Value)
    decreases t
  {
    match t
    case Null => v == VNull
    case Bool(b) => v == VBool(b)
    case Num(text) => v.VNum? && Read(text) == Some(v.n)
    case Str(s) => v == VStr(s)
    case Arr(elems) => v.VArr? && |v.elems| == |elems| && forall i | 0 <= i < |elems| :: Means(elems[i], v.elems[i])
    case Obj(members) =>
      && v.VObj?
      && (forall name | name in v.fields :: exists i :: 0 <= i < |members| && members[i].name == name)
      && (forall i | 0 <= i < |members| :: members[i].name in v.fields)
      && (forall i | 0 <= i < |members| && IsLast(members, i) :: Means(members[i].value, v.fields[members[i].name]))
  }

  // The last member of a name is the one LastNamed gives.
  lemma {:induction false} LastNamedIs(members: seq<Member>, i: nat)
    requires i < |members| && IsLast(members, i)
    ensures LastNamed(members, members[i].name) == Some(members[i].value)
  {
    if i < |members| - 1 {
      var init := members[..|members| - 1];
      assert IsLast(init, i);
      LastNamedIs(init, i);
    }
  }

  lemma {:induction false} NamedIsThere(members: seq<Member>, name: seq<byte>)
    ensures LastNamed(members, name).Some? <==> exists i :: 0 <= i < |members| && members[i].name == name
  {
    if members != [] {
      NamedIsThere(members[..|members| - 1], name);
      assert forall i | 0 <= i < |members| - 1 :: members[i] == members[..|members| - 1][i];
    }
  }

  /** Decoding a text gives what it means. */
  lemma {:induction false} DecodeMeans(t: Text)
    requires InRange(t)
    ensures Means(t, Decode(t))
  {
    match t
    case Arr(elems) =>
      forall i | 0 <= i < |elems| ensures Means(elems[i], Decode(elems[i])) { DecodeMeans(elems[i]); }
    case Obj(members) =>
      var fields := DecodeMembers(members);
      forall name ensures name in fields <==> exists i :: 0 <= i < |members| && members[i].name == name {
        DecodesLast(members, name);
        NamedIsThere(members, name);
      }
      forall i | 0 <= i < |members| && IsLast(members, i) ensures Means(members[i].value, fields[members[i].name]) {
        LastNamedIs(members, i);
        DecodesLast(members, members[i].name);
        DecodeMeans(members[i].value);
      }
    case _ =>
  }

  // Some member of a name is the last of it.
  lemma {:induction false} SomeIsLast(members: seq<Member>, i: nat) returns (j: nat)
    requires i < |members|
    ensures j < |members| && members[j].name == members[i].name && IsLast(members, j)
    decreases |members| - i
  {
    j := i;
    if !IsLast(members, i) {
      var k :| i < k < |members| && members[k].name == members[i].name;
      j := SomeIsLast(members, k);
    }
  }

  /** A text means one value. */
  lemma {:induction false} MeaningIsUnique(t: Text, v: Value, w: Value)
    requires Means(t, v) && Means(t, w)
    ensures v == w
    decreases t
  {
    match t
    case Arr(elems) =>
      forall i | 0 <= i < |elems|
          ensures v.elems[i] == w.elems[i] { MeaningIsUnique(elems[i], v.elems[i], w.elems[i]); }
      assert v.elems == w.elems;
    case Obj(members) =>
      forall name ensures (name in v.fields <==> name in w.fields)
        && (name in v.fields ==> v.fields[name] == w.fields[name])
      {
        if name in v.fields {
          var i :| 0 <= i < |members| && members[i].name == name;
          var j := SomeIsLast(members, i);
          MeaningIsUnique(members[j].value, v.fields[name], w.fields[name]);
        }
      }
      assert v.fields == w.fields;
    case _ =>
  }

  /** Encoding a value gives a text that means it. */
  lemma EncodeMeans(format: Formatter, v: Value)
    requires Faithful(format)
    ensures Means(Encode(format, v), v)
  {
    EncodedNumbers(format, v);
    DecodeMeans(Encode(format, v));
    DecodeOfEncode(format, v);
  }
}
