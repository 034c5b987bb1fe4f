/** JSON numbers (section 6 of RFC 8259): the grammar of their bytes, the double they are read as, and
    what is asked of the spelling of a double. */
module JsonNumbers {
  import opened KubeApplier
  import opened Float64s

  const PLUS: byte := 0x2B
  const MINUS: byte := 0x2D
  const DOT: byte := 0x2E
  const ZERO: byte := 0x30
  const NINE: byte := 0x39
  const UPPER_E: byte := 0x45
  const LOWER_E: byte := 0x65

  /** (-1)^negative * digits * 10^exponent */
  datatype Literal = Literal(negative: bool, digits: nat, exponent: int)

  predicate IsDigit(b: byte) {
    ZERO <= b <= NINE
  }

  /** How many digits a text starts with. */
  function Digits(s: seq<byte>): (n: nat)
    ensures n <= |s| && (forall i | 0 <= i < n :: IsDigit(s[i])) && (n < |s| ==> !IsDigit(s[n]))
  {
    if s == [] || !IsDigit(s[0]) then 0 else 1 + Digits(s[1..])
  }

  function Natural(ds: seq<byte>): nat
    requires forall i | 0 <= i < |ds| :: IsDigit(ds[i])
  {
    if ds == [] then 0
    else
      var last := ds[|ds| - 1];
      assert IsDigit(last);
      10 * Natural(ds[..|ds| - 1]) + (last - ZERO) as nat
  }

  /** A number and nothing else. */
  function Scan(text: seq<byte>): Option<Literal> {
    var negative := text != [] && text[0] == MINUS;
    ScanUnsigned(negative, if negative then text[1..] else text)
  }

  function ScanUnsigned(negative: bool, s: seq<byte>): Option<Literal> {
    var w := Digits(s);
    if w == 0 || (w > 1 && s[0] == ZERO) then None
    else ScanFraction(negative, s[..w], s[w..])
  }

  function ScanFraction(negative: bool, whole: seq<byte>, s: seq<byte>): Option<Literal>
    requires forall i | 0 <= i < |whole| :: IsDigit(whole[i])
  {
    if s != [] && s[0] == DOT then
      var n: int := Digits(s[1..]);
      if n == 0 then None else ScanExponent(negative, Natural(whole + s[1..][..n]), -n, s[1..][n..])
    else ScanExponent(negative, Natural(whole), 0, s)
  }

  function ScanExponent(negative: bool, digits: nat, scale: int, s: seq<byte>): Option<Literal> {
    if s == [] then Some(Literal(negative, digits, scale))
    else if s[0] != LOWER_E && s[0] != UPPER_E then None
    else
      var signed := |s| > 1 && (s[1] == PLUS || s[1] == MINUS);
      var ds := if signed then s[2..] else s[1..];
      if ds == [] || Digits(ds) < |ds| then None
      else
        var power: int := Natural(ds);
        Some(Literal(negative, digits, if signed && s[1] == MINUS then scale - power else scale + power))
  }

  predicate IsNumber(text: seq<byte>) {
    Scan(text).Some?
  }

  /** x * 10^k */
  function Shift10(x: real, k: int): real
    decreases if k < 0 then -k else k
  {
    if k > 0 then 10.0 * Shift10(x, k - 1) else if k < 0 then Shift10(x, k + 1) / 10.0 else x
  }

  lemma {:induction false} Shift10KeepsSign(x: real, k: int)
    requires x >= 0.0
    ensures Shift10(x, k) >= 0.0
    decreases if k < 0 then -k else k
  {
    if k > 0 { Shift10KeepsSign(x, k - 1); }
    if k < 0 { Shift10KeepsSign(x, k + 1); }
  }

  /** The double a literal is rounded to: None if it is too large. */
  function ReadLiteral(l: Literal): Option<Float64> {
    Shift10KeepsSign(l.digits as real, l.exponent);
    Round(l.negative, Shift10(l.digits as real, l.exponent))
  }

  /** The double a number is read as: None if it is no number, or too large. */
  function Read(text: seq<byte>): Option<Float64> {
    match Scan(text)
    case None => None
    case Some(l) => ReadLiteral(l)
  }

  /* ---- Plain decimals ---- */

  function Decimal(n: nat): (ds: seq<byte>)
    ensures ds != [] && (forall i | 0 <= i < |ds| :: IsDigit(ds[i])) && Natural(ds) == n
    ensures |ds| > 1 ==> ds[0] != ZERO
    ensures n > 0 ==> ds[0] != ZERO
  {
    var last := [ZERO + (n % 10) as byte];
    if n < 10 then last
    else
      var ds := Decimal(n / 10) + last;
      assert ds[..|ds| - 1] == Decimal(n / 10);
      ds
  }

  function Sign(negative: bool): seq<byte> {
    if negative then [MINUS] else []
  }

  lemma {:induction false} DigitsOf(ds: seq<byte>, rest: seq<byte>)
    requires (forall i | 0 <= i < |ds| :: IsDigit(ds[i])) && (rest != [] ==> !IsDigit(rest[0]))
    ensures Digits(ds + rest) == |ds|
  {
    if ds == [] {
      assert ds + rest == rest;
    } else {
      DigitsOf(ds[1..], rest);
      assert (ds + rest)[1..] == ds[1..] + rest;
    }
  }

  lemma DigitsOfAll(ds: seq<byte>)
    requires forall i | 0 <= i < |ds| :: IsDigit(ds[i])
    ensures Digits(ds) == |ds|
  {
    DigitsOf(ds, []);
    assert ds + [] == ds;
  }

  // The sign and the whole part of a number are found again.
  lemma ScansUnsigned(negative: bool, v: nat, rest: seq<byte>)
    requires rest != [] ==> !IsDigit(rest[0])
    ensures ScanUnsigned(negative, Decimal(v) + rest) == ScanFraction(negative, Decimal(v), rest)
  {
    var ds := Decimal(v);
    DigitsOf(ds, rest);
    assert (ds + rest)[..|ds|] == ds && (ds + rest)[|ds|..] == rest;
  }

  lemma ScansWhole(negative: bool, v: nat, rest: seq<byte>)
    requires rest != [] ==> !IsDigit(rest[0])
    ensures Scan(Sign(negative) + (Decimal(v) + rest)) == ScanFraction(negative, Decimal(v), rest)
  {
    ScansUnsigned(negative, v, rest);
    StartsWithDigit(v, rest);
    SignScans(negative, Decimal(v) + rest);
  }

  lemma StartsWithDigit(v: nat, rest: seq<byte>)
    ensures Decimal(v) + rest != [] && (Decimal(v) + rest)[0] != MINUS
  {
    assert IsDigit(Decimal(v)[0]);
  }

  lemma SignScans(negative: bool, s: seq<byte>)
    requires s != [] && s[0] != MINUS
    ensures Scan(Sign(negative) + s) == ScanUnsigned(negative, s)
  {
    assert ([MINUS] + s)[1..] == s && [] + s == s;
  }

  /** A plain integer reads as the literal it spells. */
  lemma ScansInteger(negative: bool, v: nat)
    ensures Scan(Sign(negative) + Decimal(v)) == Some(Literal(negative, v, 0))
  {
    ScansWhole(negative, v, []);
    assert Decimal(v) + [] == Decimal(v);
  }

  lemma ScansPower(negative: bool, v: nat, k: int)
    requires k >= 0
    ensures ScanFraction(negative, Decimal(v), [LOWER_E, MINUS] + Decimal(k)) == Some(Literal(negative, v, -k))
  {
    var tail := [LOWER_E, MINUS] + Decimal(k);
    assert tail[2..] == Decimal(k) && tail[0] == LOWER_E && tail[1] == MINUS;
    DigitsOfAll(Decimal(k));
  }

  lemma ScansScaled(negative: bool, v: nat, k: int)
    requires k >= 0
    ensures Scan(Sign(negative) + (Decimal(v) + ([LOWER_E, MINUS] + Decimal(k)))) == Some(Literal(negative, v, -k))
  {
    ScansWhole(negative, v, [LOWER_E, MINUS] + Decimal(k));
    ScansPower(negative, v, k);
  }

  /* ---- Spelling ---- */

  /** How json.Marshal spells a double. */
  type Formatter = Float64 -> seq<byte>

  /** What is asked of it: a spelling reads back as the double it spells, and a whole number up to 2^53
      is spelled in plain digits. */
  ghost predicate Faithful(format: Formatter) {
    && (forall f: Float64 :: Read(format(f)) == Some(f))
    && (forall f: Float64, v: nat | v <= TWO53 && Magnitude(f) == v as real ::
          format(f) == Sign(f.negative) + Decimal(v))
  }

  /** The exact decimal of a double: digits, with a power of ten if it is not whole. */
  function Exact(f: Float64): seq<byte> {
    var x := Magnitude(f);
    if x >= 0.0 && x == x.Floor as real then Sign(f.negative) + Decimal(x.Floor)
    else if f.e < 0 then Sign(f.negative) + (Decimal(Fives(f.m, -f.e)) + ([LOWER_E, MINUS] + Decimal(-f.e)))
    else []
  }

  /** m * 5^k */
  function Fives(m: nat, k: nat): nat {
    if k == 0 then m else 5 * Fives(m, k - 1)
  }

  lemma {:induction false} Shift10Linear(x: real, k: int)
    requires k >= 0
    ensures Shift10(5.0 * x, -k) == 5.0 * Shift10(x, -k)
  {
    if k > 0 { Shift10Linear(x, k - 1); }
  }

  // m * 5^k / 10^k is m / 2^k.
  lemma {:induction false} FivesAreHalves(m: nat, k: int)
    requires k >= 0
    ensures Shift10(Fives(m, k) as real, -k) == Shift(m as real, -k)
  {
    if k > 0 {
      FivesAreHalves(m, k - 1);
      Shift10Linear(Fives(m, k - 1) as real, k);
      assert Fives(m, k) as real == 5.0 * (Fives(m, k - 1) as real);
      assert Shift10(Fives(m, k - 1) as real, -k) == Shift10(Fives(m, k - 1) as real, -(k - 1)) / 10.0;
      assert Shift(m as real, -k) == Shift(m as real, -(k - 1)) / 2.0;
    }
  }

  lemma {:induction false} ShiftUpIsWhole(m: nat, k: nat)
    ensures var x := Shift(m as real, k); x >= 0.0 && x == x.Floor as real
  {
    if k > 0 {
      ShiftUpIsWhole(m, k - 1);
      var x := Shift(m as real, k - 1);
      assert Shift(m as real, k) == (2 * x.Floor) as real;
    }
  }

  lemma ReadsWhole(f: Float64, v: nat)
    requires Magnitude(f) == v as real
    ensures Read(Sign(f.negative) + Decimal(v)) == Some(f)
  {
    RoundsToItself(f);
    ScansInteger(f.negative, v);
  }

  lemma ReadsScaled(f: Float64)
    requires f.e < 0
    ensures ReadLiteral(Literal(f.negative, Fives(f.m, -f.e), f.e)) == Some(f)
  {
    RoundsToItself(f);
    FivesAreHalves(f.m, -f.e);
  }

  lemma ExactReadsBack(f: Float64)
    ensures Read(Exact(f)) == Some(f)
  {
    RoundsToItself(f);
    var x := Magnitude(f);
    if x == x.Floor as real {
      ReadsWhole(f, x.Floor);
    } else {
      if f.e >= 0 { ShiftUpIsWhole(f.m, f.e); }
      ReadsScaled(f);
      ScansScaled(f.negative, Fives(f.m, -f.e), -f.e);
    }
  }

  /** Faithful can be met. */
  lemma FaithfulFormatterExists()
    ensures exists format: Formatter :: Faithful(format)
  {
    var format: Formatter := (f: Float64) => Exact(f);
    forall f: Float64 ensures Read(format(f)) == Some(f) { ExactReadsBack(f); }
    assert Faithful(format);
  }

  /** A number comes back from a trip through a double as it was. */
  predicate Survives(format: Formatter, text: seq<byte>) {
    Read(text).Some? && format(Read(text).value) == text
  }

  /** Plain integers up to 2^53 do. */
  lemma SmallIntegersSurvive(format: Formatter, negative: bool, v: nat)
    requires Faithful(format) && v <= TWO53
    ensures Survives(format, Sign(negative) + Decimal(v))
  {
    ScansInteger(negative, v);
    SmallIntegersRoundToThemselves(negative, v);
  }

  /** The next one, 9007199254740993, does not: it comes back as 9007199254740992. */
  lemma FirstIntegerDoesNotSurvive(format: Formatter, negative: bool)
    requires Faithful(format)
    ensures Read(Sign(negative) + Decimal(TWO53 + 1)).Some? && !Survives(format, Sign(negative) + Decimal(TWO53 + 1))
    ensures format(Read(Sign(negative) + Decimal(TWO53 + 1)).value) == Sign(negative) + Decimal(TWO53)
  {
    var text := Sign(negative) + Decimal(TWO53 + 1);
    ScansInteger(negative, TWO53 + 1);
    FirstIntegerLost(negative);
    var f: Float64 := Float(negative, TWO52, 1);
    assert Shift(TWO52 as real, 1) == 2.0 * Shift(TWO52 as real, 0);
    assert Magnitude(f) == TWO53 as real;
    ScansInteger(negative, TWO53);
  }
}
