/** The bytes of JSON (RFC 8259): white space, literal names, strings with their escapes, and numbers, as
    encoding/json scans them and as json.Marshal writes them. */
module JsonLexer {
  import opened KubeApplier
  import opened Json
  import opened JsonNumbers

  const TAB: byte := 0x09
  const NEWLINE: byte := 0x0A
  const RETURN: byte := 0x0D
  const SPACE: byte := 0x20
  const QUOTE: byte := 0x22
  const BACKSLASH: byte := 0x5C
  const NULL: seq<byte> := [0x6E, 0x75, 0x6C, 0x6C]
  const TRUE: seq<byte> := [0x74, 0x72, 0x75, 0x65]
  const FALSE: seq<byte> := [0x66, 0x61, 0x6C, 0x73, 0x65]

  /* ---- Strings ---- */

  predicate IsHex(b: byte) {
    IsDigit(b) || 0x61 <= b <= 0x66 || 0x41 <= b <= 0x46
  }

  function HexValue(b: byte): nat
    requires IsHex(b)
    ensures HexValue(b) < 16
  {
    if IsDigit(b) then (b - ZERO) as nat else if b >= 0x61 then (b - 0x61) as nat + 10 else (b - 0x41) as nat + 10
  }

  function HexDigit(n: nat): (b: byte)
    requires n < 16
    ensures IsHex(b) && HexValue(b) == n
  {
    if n < 10 then ZERO + n as byte else 0x61 + (n - 10) as byte
  }

  /** The code unit of four hexadecimal digits. */
  function CodeUnit(bs: seq<byte>): (u: Option<nat>)
    ensures u.Some? ==> |bs| >= 4 && u.value < 0x1_0000
  {
    if |bs| < 4 || !IsHex(bs[0]) || !IsHex(bs[1]) || !IsHex(bs[2]) || !IsHex(bs[3]) then None
    else Some(0x1000 * HexValue(bs[0]) + 0x100 * HexValue(bs[1]) + 0x10 * HexValue(bs[2]) + HexValue(bs[3]))
  }

  function Utf8(c: nat): seq<byte>
    requires c < 0x11_0000
  {
    if c < 0x80 then [c as byte]
    else if c < 0x800 then [(0xC0 + c / 0x40) as byte, (0x80 + c % 0x40) as byte]
    else if c < 0x1_0000 then [(0xE0 + c / 0x1000) as byte, (0x80 + c / 0x40 % 0x40) as byte, (0x80 + c % 0x40) as byte]
    else
      [(0xF0 + c / 0x4_0000) as byte, (0x80 + c / 0x1000 % 0x40) as byte, (0x80 + c / 0x40 % 0x40) as byte,
       (0x80 + c % 0x40) as byte]
  }

  /** One escape after its backslash: the bytes it stands for, and how many bytes it takes. A surrogate
      without its partner stands for U+FFFD. */
  function UnescapeOne(bs: seq<byte>): (r: Option<(seq<byte>, nat)>)
    ensures r.Some? ==> 0 < r.value.1 <= |bs|
  {
    if bs == [] then None
    else
      match bs[0]
      case 0x22 => Some(([QUOTE], 1))
      case 0x5C => Some(([BACKSLASH], 1))
      case 0x2F => Some(([0x2F], 1))
      case 0x62 => Some(([0x08], 1))
      case 0x66 => Some(([0x0C], 1))
      case 0x6E => Some(([NEWLINE], 1))
      case 0x72 => Some(([RETURN], 1))
      case 0x74 => Some(([TAB], 1))
      case 0x75 =>
        var u := CodeUnit(bs[1..]);
        if u.None? then None
        else if u.value < 0xD800 || u.value >= 0xE000 then Some((Utf8(u.value), 5))
        else
          var low := if |bs| >= 7 && bs[5] == BACKSLASH && bs[6] == 0x75 then CodeUnit(bs[7..]) else None;
          if u.value < 0xDC00 && low.Some? && 0xDC00 <= low.value < 0xE000
          then Some((Utf8(0x1_0000 + 0x400 * (u.value - 0xD800) + (low.value - 0xDC00)), 11))
          else Some((Utf8(0xFFFD), 5))
      case _ => None
  }

  /** What follows an opening quote: the string, and what comes after its closing quote. */
  function Unescape(bs: seq<byte>): (r: Option<(seq<byte>, seq<byte>)>)
    ensures r.Some? ==> |r.value.1| < |bs|
  {
    if bs == [] || bs[0] < SPACE then None
    else if bs[0] == QUOTE then Some(([], bs[1..]))
    else if bs[0] == BACKSLASH then
      var e := UnescapeOne(bs[1..]);
      if e.None? then None else Prepend(e.value.0, Unescape(bs[1 + e.value.1..]))
    else Prepend([bs[0]], Unescape(bs[1..]))
  }

  function Prepend(head: seq<byte>, r: Option<(seq<byte>, seq<byte>)>): Option<(seq<byte>, seq<byte>)> {
    if r.None? then None else Some((head + r.value.0, r.value.1))
  }

  /** How json.Marshal writes one byte of a string: quotes, backslashes, control characters and the
      three characters that matter to HTML are escaped. */
  function EscapeByte(b: byte): seq<byte> {
    match b
    case 0x22 => [BACKSLASH, QUOTE]
    case 0x5C => [BACKSLASH, BACKSLASH]
    case 0x08 => [BACKSLASH, 0x62]
    case 0x0C => [BACKSLASH, 0x66]
    case 0x0A => [BACKSLASH, 0x6E]
    case 0x0D => [BACKSLASH, 0x72]
    case 0x09 => [BACKSLASH, 0x74]
    case _ =>
      if b < SPACE || b == 0x3C || b == 0x3E || b == 0x26
      then [BACKSLASH, 0x75, ZERO, ZERO, HexDigit((b / 16) as nat), HexDigit((b % 16) as nat)]
      else [b]
  }

  /** U+2028 and U+2029, which are escaped as well. */
  predicate IsLineSeparator(s: seq<byte>) {
    |s| >= 3 && s[0] == 0xE2 && s[1] == 0x80 && (s[2] == 0xA8 || s[2] == 0xA9)
  }

  /** How many bytes of a string are escaped together. */
  function Chunk(s: seq<byte>): (n: nat)
    requires s != []
    ensures 0 < n <= |s|
  {
    if IsLineSeparator(s) then 3 else 1
  }

  function EscapeChunk(s: seq<byte>): seq<byte>
    requires s != []
  {
    if IsLineSeparator(s) then [BACKSLASH, 0x75, 0x32, ZERO, 0x32, s[2] - 0x70] else EscapeByte(s[0])
  }

  function Escape(s: seq<byte>): seq<byte> {
    if s == [] then [] else EscapeChunk(s) + Escape(s[Chunk(s)..])
  }

  lemma BackslashUnescapes(tail: seq<byte>, content: seq<byte>, n: nat)
    requires UnescapeOne(tail) == Some((content, n))
    ensures n <= |tail| && Unescape([BACKSLASH] + tail) == Prepend(content, Unescape(tail[n..]))
  {
    var bs := [BACKSLASH] + tail;
    assert bs[1..] == tail && bs[1 + n..] == tail[n..];
  }

  lemma ShortUnescapes(b: byte, rest: seq<byte>)
    requires |EscapeByte(b)| == 2
    ensures EscapeByte(b)[0] == BACKSLASH && UnescapeOne([EscapeByte(b)[1]] + rest) == Some(([b], 1))
  {
  }

  lemma ControlUnescapes(b: byte, rest: seq<byte>)
    requires |EscapeByte(b)| == 6
    ensures EscapeByte(b)[0] == BACKSLASH && UnescapeOne(EscapeByte(b)[1..] + rest) == Some(([b], 5))
  {
    var tail := EscapeByte(b)[1..] + rest;
    assert tail[0] == 0x75 && tail[1..][..4] == [ZERO, ZERO, HexDigit((b / 16) as nat), HexDigit((b % 16) as nat)];
    assert CodeUnit(tail[1..]) == Some(b as nat);
  }

  lemma PlainUnescapes(b: byte, rest: seq<byte>)
    requires |EscapeByte(b)| == 1
    ensures EscapeByte(b) == [b] && Unescape([b] + rest) == Prepend([b], Unescape(rest))
  {
    assert ([b] + rest)[1..] == rest;
  }

  lemma EscapeLengths(b: byte)
    ensures |EscapeByte(b)| == 1 || |EscapeByte(b)| == 2 || |EscapeByte(b)| == 6
  {
  }

  lemma UnescapesByte(b: byte, rest: seq<byte>)
    ensures Unescape(EscapeByte(b) + rest) == Prepend([b], Unescape(rest))
  {
    var e := EscapeByte(b);
    EscapeLengths(b);
    if |e| == 1 {
      PlainUnescapes(b, rest);
    } else {
      if |e| == 2 { ShortUnescapes(b, rest); } else { ControlUnescapes(b, rest); }
      var tail, n := e[1..] + rest, |e| - 1;
      assert e[1..] == if |e| == 2 then [e[1]] else e[1..];
      BackslashUnescapes(tail, [b], n);
      assert tail[n..] == rest;
      assert e + rest == [BACKSLASH] + tail;
    }
  }

  lemma UnescapesSeparator(last: byte, rest: seq<byte>)
    requires last == 0xA8 || last == 0xA9
    ensures Unescape([BACKSLASH, 0x75, 0x32, ZERO, 0x32, last - 0x70] + rest)
        == Prepend([0xE2, 0x80, last], Unescape(rest))
  {
    var tail := [0x75, 0x32, ZERO, 0x32, last - 0x70] + rest;
    assert tail[0] == 0x75 && tail[1..][..4] == [0x32, ZERO, 0x32, last - 0x70];
    assert CodeUnit(tail[1..]) == Some(0x2028 + (last - 0xA8) as nat);
    BackslashUnescapes(tail, [0xE2, 0x80, last], 5);
    assert tail[5..] == rest;
    assert [BACKSLASH, 0x75, 0x32, ZERO, 0x32, last - 0x70] + rest == [BACKSLASH] + tail;
  }

  lemma UnescapesChunk(s: seq<byte>, rest: seq<byte>)
    requires s != []
    ensures Unescape(EscapeChunk(s) + rest) == Prepend(s[..Chunk(s)], Unescape(rest))
  {
    if IsLineSeparator(s) {
      UnescapesSeparator(s[2], rest);
      assert s[..3] == [0xE2, 0x80, s[2]];
    } else {
      UnescapesByte(s[0], rest);
      assert s[..1] == [s[0]];
    }
  }

  lemma EscapeSplits(s: seq<byte>, tail: seq<byte>)
    requires s != []
    ensures Escape(s) + tail == EscapeChunk(s) + (Escape(s[Chunk(s)..]) + tail)
    ensures s[..Chunk(s)] + s[Chunk(s)..] == s
  {
  }

  /** A string that was written is read back, and what follows it is left. */
  lemma {:induction false} UnescapesEscaped(s: seq<byte>, tail: seq<byte>, rest: seq<byte>)
    requires tail == [QUOTE] + rest
    ensures Unescape(Escape(s) + tail) == Some((s, rest))
  {
    if s == [] {
      assert Escape(s) + tail == tail && tail[1..] == rest;
    } else {
      var more := s[Chunk(s)..];
      UnescapesEscaped(more, tail, rest);
      UnescapesChunk(s, Escape(more) + tail);
      EscapeSplits(s, tail);
    }
  }

  /* ---- Tokens ---- */

  predicate IsNumberByte(b: byte) {
    IsDigit(b) || b == MINUS || b == PLUS || b == DOT || b == LOWER_E || b == UPPER_E
  }

  /** How many bytes that can belong to a number a text starts with. */
  function NumberBytes(bs: seq<byte>): (n: nat)
    ensures n <= |bs| && (forall i | 0 <= i < n :: IsNumberByte(bs[i])) && (n < |bs| ==> !IsNumberByte(bs[n]))
  {
    if bs == [] || !IsNumberByte(bs[0]) then 0 else 1 + NumberBytes(bs[1..])
  }

  predicate IsSpace(b: byte) {
    b == SPACE || b == TAB || b == NEWLINE || b == RETURN
  }

  function Punctuation(b: byte): Option<Token> {
    match b
    case 0x7B => Some(LBrace)
    case 0x7D => Some(RBrace)
    case 0x5B => Some(LBracket)
    case 0x5D => Some(RBracket)
    case 0x3A => Some(Colon)
    case 0x2C => Some(Comma)
    case _ => None
  }

  datatype Lexed = Lexed(token: Token, rest: seq<byte>)

  function LexString(bs: seq<byte>): (r: Option<Lexed>)
    ensures r.Some? ==> |r.value.rest| < |bs| && r.value.token.TStr?
  {
    var s := Unescape(bs);
    if s.None? then None else Some(Lexed(TStr(s.value.0), s.value.1))
  }

  function LexNumber(bs: seq<byte>, isNumber: seq<byte> -> bool): (r: Option<Lexed>)
    requires bs != [] && IsNumberByte(bs[0])
    ensures r.Some? ==> |r.value.rest| < |bs| && r.value.token.TNum? && isNumber(r.value.token.text)
  {
    var n := NumberBytes(bs);
    if isNumber(bs[..n]) then Some(Lexed(TNum(bs[..n]), bs[n..])) else None
  }

  function LexWord(bs: seq<byte>): (r: Option<Lexed>)
    ensures r.Some? ==> |r.value.rest| < |bs| && !r.value.token.TNum?
  {
    if NULL <= bs then Some(Lexed(TNull, bs[4..]))
    else if TRUE <= bs then Some(Lexed(TBool(true), bs[4..]))
    else if FALSE <= bs then Some(Lexed(TBool(false), bs[5..]))
    else None
  }

  /** The token a text starts with, and what follows it; isNumber is the grammar of numbers. */
  function LexOne(bs: seq<byte>, isNumber: seq<byte> -> bool): (r: Option<Lexed>)
    requires bs != []
    ensures r.Some? ==> |r.value.rest| < |bs| && (r.value.token.TNum? ==> isNumber(r.value.token.text))
  {
    if Punctuation(bs[0]).Some? then Some(Lexed(Punctuation(bs[0]).value, bs[1..]))
    else if bs[0] == QUOTE then LexString(bs[1..])
    else if IsDigit(bs[0]) || bs[0] == MINUS then LexNumber(bs, isNumber)
    else LexWord(bs)
  }

  function Lex(bs: seq<byte>, isNumber: seq<byte> -> bool): Option<seq<Token>>
    decreases |bs|
  {
    if bs == [] then Some([])
    else if IsSpace(bs[0]) then Lex(bs[1..], isNumber)
    else
      var one := LexOne(bs, isNumber);
      if one.None? then None
      else
        var more := Lex(one.value.rest, isNumber);
        if more.None? then None else Some([one.value.token] + more.value)
  }

  function SpellToken(t: Token): seq<byte> {
    match t
    case TNull => NULL
    case TBool(b) => if b then TRUE else FALSE
    case TNum(text) => text
    case TStr(s) => [QUOTE] + Escape(s) + [QUOTE]
    case LBrace => [0x7B]
    case RBrace => [0x7D]
    case LBracket => [0x5B]
    case RBracket => [0x5D]
    case Colon => [0x3A]
    case Comma => [0x2C]
  }

  function Spell(ts: seq<Token>): seq<byte> {
    if ts == [] then [] else SpellToken(ts[0]) + Spell(ts[1..])
  }

  /* ---- A number is lexed whole ---- */

  lemma {:induction false} NumberBytesOf(text: seq<byte>, rest: seq<byte>)
    requires (forall i | 0 <= i < |text| :: IsNumberByte(text[i])) && (rest != [] ==> !IsNumberByte(rest[0]))
    ensures NumberBytes(text + rest) == |text|
  {
    if text == [] {
      assert text + rest == rest;
    } else {
      NumberBytesOf(text[1..], rest);
      assert (text + rest)[1..] == text[1..] + rest;
    }
  }

  predicate AllNumberBytes(s: seq<byte>) {
    forall i | 0 <= i < |s| :: IsNumberByte(s[i])
  }

  lemma AllNumberBytesConcat(a: seq<byte>, b: seq<byte>)
    requires AllNumberBytes(a) && AllNumberBytes(b)
    ensures AllNumberBytes(a + b)
  {
  }

  lemma DigitsAreNumberBytes(s: seq<byte>)
    ensures AllNumberBytes(s[..Digits(s)])
  {
  }

  lemma ExponentBytes(negative: bool, digits: nat, scale: int, s: seq<byte>)
    requires ScanExponent(negative, digits, scale, s).Some?
    ensures AllNumberBytes(s)
  {
    if s != [] {
      var signed := |s| > 1 && (s[1] == PLUS || s[1] == MINUS);
      var n := if signed then 2 else 1;
      DigitsAreNumberBytes(s[n..]);
      assert s[n..][..Digits(s[n..])] == s[n..];
      AllNumberBytesConcat(s[..n], s[n..]);
      assert s[..n] + s[n..] == s;
    }
  }

  lemma FractionBytes(negative: bool, whole: seq<byte>, s: seq<byte>)
    requires (forall i | 0 <= i < |whole| :: IsDigit(whole[i])) && ScanFraction(negative, whole, s).Some?
    ensures AllNumberBytes(s)
  {
    if s != [] && s[0] == DOT {
      var n := Digits(s[1..]);
      DigitsAreNumberBytes(s[1..]);
      ExponentBytes(negative, Natural(whole + s[1..][..n]), -(n as int), s[1..][n..]);
      BothParts(s[1..], n);
      assert s == [DOT] + s[1..];
    } else {
      ExponentBytes(negative, Natural(whole), 0, s);
    }
  }

  lemma UnsignedBytes(negative: bool, s: seq<byte>)
    requires ScanUnsigned(negative, s).Some?
    ensures s != [] && IsDigit(s[0]) && AllNumberBytes(s)
  {
    var w := Digits(s);
    DigitsAreNumberBytes(s);
    FractionBytes(negative, s[..w], s[w..]);
    BothParts(s, w);
  }

  lemma BothParts(s: seq<byte>, w: nat)
    requires w <= |s| && AllNumberBytes(s[..w]) && AllNumberBytes(s[w..])
    ensures AllNumberBytes(s)
  {
    AllNumberBytesConcat(s[..w], s[w..]);
    assert s[..w] + s[w..] == s;
  }

  /** A number consists of number bytes and starts as one. */
  lemma NumberShape(text: seq<byte>)
    requires IsNumber(text)
    ensures text != [] && (IsDigit(text[0]) || text[0] == MINUS) && AllNumberBytes(text)
  {
    if text != [] && text[0] == MINUS {
      UnsignedBytes(true, text[1..]);
      assert text == [MINUS] + text[1..];
    } else {
      UnsignedBytes(false, text);
    }
  }

  /* ---- What is spelled is lexed back ---- */

  // What can follow a token: not more of a number after a number.
  predicate Ends(t: Token, rest: seq<byte>) {
    t.TNum? && rest != [] ==> !IsNumberByte(rest[0])
  }

  // A token is lexed off the front of a text.
  ghost predicate LexesAs(bs: seq<byte>, t: Token, rest: seq<byte>, isNumber: seq<byte> -> bool) {
    bs != [] && !IsSpace(bs[0]) && LexOne(bs, isNumber) == Some(Lexed(t, rest))
  }

  // What the lexer asks of the grammar of numbers.
  ghost predicate NumberLike(isNumber: seq<byte> -> bool) {
    forall text | isNumber(text) :: text != [] && (IsDigit(text[0]) || text[0] == MINUS) && AllNumberBytes(text)
  }

  lemma QuotesLex(bs: seq<byte>, s: seq<byte>, rest: seq<byte>, isNumber: seq<byte> -> bool)
    requires bs != [] && bs[0] == QUOTE && Unescape(bs[1..]) == Some((s, rest))
    ensures LexesAs(bs, TStr(s), rest, isNumber)
  {
  }

  lemma EnclosedSplits(inner: seq<byte>, rest: seq<byte>)
    ensures var bs := [QUOTE] + inner + [QUOTE] + rest; bs[0] == QUOTE && bs[1..] == inner + ([QUOTE] + rest)
  {
  }

  lemma LexesString(s: seq<byte>, rest: seq<byte>, isNumber: seq<byte> -> bool)
    ensures LexesAs(SpellToken(TStr(s)) + rest, TStr(s), rest, isNumber)
  {
    UnescapesEscaped(s, [QUOTE] + rest, rest);
    EnclosedSplits(Escape(s), rest);
    QuotesLex(SpellToken(TStr(s)) + rest, s, rest, isNumber);
  }

  lemma LexesNumber(text: seq<byte>, rest: seq<byte>, isNumber: seq<byte> -> bool)
    requires NumberLike(isNumber) && isNumber(text) && Ends(TNum(text), rest)
    ensures LexesAs(text + rest, TNum(text), rest, isNumber)
  {
    NumberBytesOf(text, rest);
    var bs := text + rest;
    assert bs[0] == text[0] && bs[..|text|] == text && bs[|text|..] == rest;
  }

  lemma LexesWord(t: Token, rest: seq<byte>, isNumber: seq<byte> -> bool)
    requires t.TNull? || t.TBool?
    ensures LexesAs(SpellToken(t) + rest, t, rest, isNumber)
  {
    var bs, n := SpellToken(t) + rest, |SpellToken(t)|;
    assert bs[..n] == SpellToken(t) && bs[n..] == rest;
    assert bs[0] == SpellToken(t)[0] && bs[1] == SpellToken(t)[1];
    assert LexWord(bs) == Some(Lexed(t, rest));
  }

  lemma LexesPunctuation(t: Token, rest: seq<byte>, isNumber: seq<byte> -> bool)
    requires !t.TStr? && !t.TNum? && !t.TNull? && !t.TBool?
    ensures LexesAs(SpellToken(t) + rest, t, rest, isNumber)
  {
    var bs := SpellToken(t) + rest;
    assert bs[0] == SpellToken(t)[0] && bs[1..] == rest;
    assert Punctuation(bs[0]) == Some(t);
  }

  lemma LexesOne(t: Token, rest: seq<byte>, isNumber: seq<byte> -> bool)
    requires NumberLike(isNumber) && (t.TNum? ==> isNumber(t.text)) && Ends(t, rest)
    ensures LexesAs(SpellToken(t) + rest, t, rest, isNumber)
  {
    match t
    case TStr(s) => LexesString(s, rest, isNumber);
    case TNum(text) => LexesNumber(text, rest, isNumber);
    case TNull => LexesWord(t, rest, isNumber);
    case TBool(_) => LexesWord(t, rest, isNumber);
    case _ => LexesPunctuation(t, rest, isNumber);
  }

  lemma StartsNoNumber(t: Token, rest: seq<byte>)
    requires !t.TNum?
    ensures SpellToken(t) + rest != [] && !IsNumberByte((SpellToken(t) + rest)[0])
  {
    assert (SpellToken(t) + rest)[0] == SpellToken(t)[0];
  }

  /** Lexing undoes spelling. */
  lemma {:induction false} LexUndoesSpell(ts: seq<Token>, isNumber: seq<byte> -> bool)
    requires Separated(ts) && TokenNumbers(ts, isNumber) && NumberLike(isNumber)
    ensures Lex(Spell(ts), isNumber) == Some(ts)
  {
    if ts != [] {
      var t, more := ts[0], ts[1..];
      forall i | 0 < i < |more| ensures !(more[i - 1].TNum? && more[i].TNum?) {
        assert more[i - 1] == ts[i] && more[i] == ts[i + 1];
      }
      forall i | 0 <= i < |more| && more[i].TNum? ensures isNumber(more[i].text) { assert more[i] == ts[i + 1]; }
      LexUndoesSpell(more, isNumber);
      if t.TNum? && more != [] {
        assert ts[1] == more[0];
        StartsNoNumber(more[0], Spell(more[1..]));
      }
      LexesOne(t, Spell(more), isNumber);
      assert [t] + more == ts;
    }
  }

  lemma NumbersAreNumberLike()
    ensures NumberLike(IsNumber)
  {
    forall text | IsNumber(text) ensures text != [] && (IsDigit(text[0]) || text[0] == MINUS) && AllNumberBytes(text) {
      NumberShape(text);
    }
  }

  /* ---- Texts ---- */

  /** The text some bytes spell, if they spell one. */
  function Unmarshal(raw: seq<byte>): Option<Text> {
    var ts := Lex(raw, IsNumber);
    if ts.None? then None else Parse(ts.value)
  }

  function SpellText(t: Text): seq<byte> {
    Spell(Print(t))
  }

  /** A text that was spelled is read back. */
  lemma UnmarshalUndoesSpell(t: Text)
    requires AllNumbers(t, IsNumber)
    ensures Unmarshal(SpellText(t)) == Some(t) && SpellText(t) != []
  {
    PrintIsSeparated(t);
    NumbersArePrinted(t, IsNumber);
    NumbersAreNumberLike();
    LexUndoesSpell(Print(t), IsNumber);
    ParseIsInverseOfPrint(Print(t), t);
  }

  /* ---- White space ---- */

  predicate AllSpace(s: seq<byte>) {
    forall i | 0 <= i < |s| :: IsSpace(s[i])
  }

  /** Tokens spelled with white space before, between and after them. */
  function SpellSpaced(ts: seq<Token>, gaps: seq<seq<byte>>): seq<byte>
    requires |gaps| == |ts| + 1
  {
    if ts == [] then gaps[0] else gaps[0] + (SpellToken(ts[0]) + SpellSpaced(ts[1..], gaps[1..]))
  }

  lemma {:induction false} SpaceIsSkipped(space: seq<byte>, bs: seq<byte>, isNumber: seq<byte> -> bool)
    requires AllSpace(space)
    ensures Lex(space + bs, isNumber) == Lex(bs, isNumber)
  {
    if space == [] {
      assert space + bs == bs;
    } else {
      SpaceIsSkipped(space[1..], bs, isNumber);
      assert (space + bs)[1..] == space[1..] + bs;
    }
  }

  // What follows a token is not more of a number after a number.
  lemma SpacedEnds(t: Token, more: seq<Token>, gaps: seq<seq<byte>>)
    requires |gaps| == |more| + 1 && AllSpace(gaps[0]) && (more != [] && t.TNum? ==> !more[0].TNum?)
    ensures Ends(t, SpellSpaced(more, gaps))
  {
    var rest := SpellSpaced(more, gaps);
    if gaps[0] != [] {
      assert rest[0] == gaps[0][0];
    } else if more != [] && t.TNum? {
      StartsNoNumber(more[0], SpellSpaced(more[1..], gaps[1..]));
      assert rest == SpellToken(more[0]) + SpellSpaced(more[1..], gaps[1..]);
    }
  }

  lemma {:induction false} LexUndoesSpacing(ts: seq<Token>, gaps: seq<seq<byte>>, isNumber: seq<byte> -> bool)
    requires |gaps| == |ts| + 1 && forall i | 0 <= i < |gaps| :: AllSpace(gaps[i])
    requires Separated(ts) && TokenNumbers(ts, isNumber) && NumberLike(isNumber)
    ensures Lex(SpellSpaced(ts, gaps), isNumber) == Some(ts)
  {
    if ts == [] {
      SpaceIsSkipped(gaps[0], [], isNumber);
      assert gaps[0] + [] == gaps[0];
    } else {
      var t, more := ts[0], ts[1..];
      forall i | 0 < i < |more| ensures !(more[i - 1].TNum? && more[i].TNum?) {
        assert more[i - 1] == ts[i] && more[i] == ts[i + 1];
      }
      forall i | 0 <= i < |more| && more[i].TNum? ensures isNumber(more[i].text) { assert more[i] == ts[i + 1]; }
      LexUndoesSpacing(more, gaps[1..], isNumber);
      if more != [] { assert ts[1] == more[0]; }
      SpacedEnds(t, more, gaps[1..]);
      var rest := SpellSpaced(more, gaps[1..]);
      LexesOne(t, rest, isNumber);
      SpaceIsSkipped(gaps[0], SpellToken(t) + rest, isNumber);
      assert [t] + more == ts;
    }
  }

  /** White space anywhere between the tokens of a text does not change what is read. */
  lemma UnmarshalSkipsSpace(t: Text, gaps: seq<seq<byte>>)
    requires |gaps| == |Print(t)| + 1 && forall i | 0 <= i < |gaps| :: AllSpace(gaps[i])
    requires AllNumbers(t, IsNumber)
    ensures Unmarshal(SpellSpaced(Print(t), gaps)) == Some(t)
  {
    PrintIsSeparated(t);
    NumbersArePrinted(t, IsNumber);
    NumbersAreNumberLike();
    LexUndoesSpacing(Print(t), gaps, IsNumber);
    ParseIsInverseOfPrint(Print(t), t);
  }
}
