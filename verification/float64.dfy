/** IEEE 754 double precision as json.Unmarshal and json.Marshal use it for numbers: the finite values,
    and round to nearest, ties to even. */
module Float64s {
  import opened KubeApplier

  /** (-1)^negative * m * 2^e */
  datatype Float = Float(negative: bool, m: nat, e: int)

  const TWO52 := 0x10_0000_0000_0000
  const TWO53 := 0x20_0000_0000_0000
  const MIN_EXP := -1074
  const MAX_EXP := 971

  predicate Canonical(f: Float) {
    f.m < TWO53 && MIN_EXP <= f.e <= MAX_EXP && (f.m >= TWO52 || f.e == MIN_EXP)
  }

  type Float64 = f: Float | Canonical(f) witness Float(false, 0, MIN_EXP)

  /** x * 2^k */
  function Shift(x: real, k: int): real
    decreases if k < 0 then -k else k
  {
    if k > 0 then 2.0 * Shift(x, k - 1) else if k < 0 then Shift(x, k + 1) / 2.0 else x
  }

  function Magnitude(f: Float): real {
    Shift(f.m as real, f.e)
  }

  function RoundHalfEven(x: real): nat
    requires x >= 0.0
  {
    var q := x.Floor;
    var r := x - q as real;
    if r < 0.5 || (r == 0.5 && q % 2 == 0) then q else q + 1
  }

  /** x counts units of 2^e: the significand and exponent that fit 53 bits. */
  function Fit(x: real, e: int): (r: (nat, int))
    requires x >= 0.0
    ensures r.0 <= TWO53 && r.1 >= e && (r.1 > e || x >= TWO52 as real ==> r.0 >= TWO52)
    decreases x.Floor
  {
    if x < TWO53 as real then (RoundHalfEven(x), e) else Fit(x / 2.0, e + 1)
  }

  /** The double nearest to a magnitude; None beyond the largest. */
  function Round(negative: bool, x: real): Option<Float64>
    requires x >= 0.0
  {
    ShiftKeepsSign(x, -MIN_EXP);
    var (m, e) := Fit(Shift(x, -MIN_EXP), MIN_EXP);
    var (m', e') := if m == TWO53 then (TWO52, e + 1) else (m, e);
    if e' > MAX_EXP then None else Some(Float(negative, m', e'))
  }

  lemma {:induction false} ShiftKeepsSign(x: real, k: int)
    requires x >= 0.0
    ensures Shift(x, k) >= 0.0 && (k >= 0 ==> Shift(x, k) >= x)
    decreases if k < 0 then -k else k
  {
    if k > 0 { ShiftKeepsSign(x, k - 1); }
    if k < 0 { ShiftKeepsSign(x, k + 1); }
  }

  lemma ShiftNext(x: real, k: int)
    ensures Shift(x, k + 1) == 2.0 * Shift(x, k)
  {
  }

  lemma {:induction false} ShiftAdds(x: real, a: int, b: int)
    ensures Shift(Shift(x, a), b) == Shift(x, a + b)
    decreases if b < 0 then -b else b
  {
    if b > 0 {
      ShiftAdds(x, a, b - 1);
      ShiftNext(x, a + b - 1);
    } else if b < 0 {
      ShiftAdds(x, a, b + 1);
      ShiftNext(x, a + b);
    }
  }

  // Scaling up by whole powers of two only moves the exponent.
  lemma {:induction false} FitSkips(x: real, j: nat, e: int)
    requires x >= TWO52 as real
    ensures Shift(x, j) >= x && Fit(Shift(x, j), e) == Fit(x, e + j)
    decreases j
  {
    ShiftKeepsSign(x, j);
    if j > 0 {
      FitSkips(x, j - 1, e + 1);
      assert Shift(x, j) == 2.0 * Shift(x, j - 1);
    }
  }

  /** A double rounds to itself. */
  lemma RoundsToItself(f: Float64)
    ensures Magnitude(f) >= 0.0 && Round(f.negative, Magnitude(f)) == Some(f)
  {
    var x, j := f.m as real, f.e - MIN_EXP;
    ShiftKeepsSign(x, f.e);
    ShiftAdds(x, f.e, -MIN_EXP);
    if f.m >= TWO52 {
      FitSkips(x, j, MIN_EXP);
    }
    assert Fit(x, f.e) == (f.m, f.e);
  }

  /** Every natural number up to 2^53 is rounded to itself. */
  lemma SmallIntegersRoundToThemselves(negative: bool, v: nat)
    requires v <= TWO53
    ensures var r := Round(negative, v as real);
            r.Some? && r.value.negative == negative && Magnitude(r.value) == v as real
  {
    var f := Float(negative, 0, MIN_EXP);
    if v == 0 {
      ShiftZero(MIN_EXP);
    } else if v == TWO53 {
      f := Float(negative, TWO52, 1);
      assert Shift(TWO52 as real, 1) == 2.0 * Shift(TWO52 as real, 0);
    } else {
      var g := Normalised(v, 0);
      f := Float(negative, g.m, g.e);
    }
    RoundsToItself(f);
  }

  lemma {:induction false} ShiftZero(k: int)
    ensures Shift(0.0, k) == 0.0
    decreases if k < 0 then -k else k
  {
    if k > 0 { ShiftZero(k - 1); }
    if k < 0 { ShiftZero(k + 1); }
  }

  /** The first natural number that is not a double: 2^53 + 1 is rounded down to 2^53. */
  lemma FirstIntegerLost(negative: bool)
    ensures Round(negative, (TWO53 + 1) as real) == Some(Float(negative, TWO52, 1))
  {
    var x := (TWO53 + 1) as real;
    ShiftKeepsSign(x, -MIN_EXP);
    FitSkips(x, -MIN_EXP, MIN_EXP);
    var half := x / 2.0;
    assert half == TWO52 as real + 0.5;
    assert half.Floor == TWO52;
    assert Fit(half, 1) == (TWO52, 1);
    assert Fit(x, 0) == Fit(half, 1);
  }

  // A natural number below 2^53, scaled to fill the significand.
  lemma {:induction false} Normalised(v: nat, e: int) returns (f: Float)
    requires 0 < v < TWO53
    ensures f.m < TWO53 && f.m >= TWO52 && e - 53 <= f.e <= e && !f.negative && Magnitude(f) == Shift(v as real, e)
  {
    f := Float(false, v, e);
    if v < TWO52 {
      f := Doubled(v, e, 52);
    }
  }

  lemma {:induction false} Doubled(v: nat, e: int, n: nat) returns (f: Float)
    requires 0 < v < TWO53 && n <= 52 && v >= Pow2(52 - n)
    ensures TWO52 <= f.m < TWO53 && e - n <= f.e <= e && !f.negative && Magnitude(f) == Shift(v as real, e)
    decreases n
  {
    if v >= TWO52 {
      f := Float(false, v, e);
    } else {
      assert n > 0 by { Pow52(); }
      f := Doubled(2 * v, e - 1, n - 1);
      assert (2 * v) as real == 2.0 * (v as real);
      ShiftLinear(v as real, e - 1);
      ShiftNext(v as real, e - 1);
    }
  }

  function Pow2(k: nat): nat {
    if k == 0 then 1 else 2 * Pow2(k - 1)
  }

  lemma Pow52()
    ensures Pow2(52) == TWO52
  {
    assert Pow2(13) == 0x2000;
    assert Pow2(26) == 0x400_0000;
    assert Pow2(39) == 0x80_0000_0000;
  }

  lemma {:induction false} ShiftLinear(x: real, k: int)
    ensures Shift(2.0 * x, k) == 2.0 * Shift(x, k)
    decreases if k < 0 then -k else k
  {
    if k > 0 { ShiftLinear(x, k - 1); }
    if k < 0 { ShiftLinear(x, k + 1); }
  }

  /* ---- Rounding is to nearest ---- */

  lemma HalfEvenIsNearest(x: real)
    requires x >= 0.0
    ensures var m := RoundHalfEven(x);
            && m as real - 0.5 <= x <= m as real + 0.5
            && (x == m as real - 0.5 || x == m as real + 0.5 ==> m % 2 == 0)
  {
  }

  // What Fit keeps is within half a unit, and even on a tie.
  lemma {:induction false} FitIsNearest(x: real, e: int)
    requires x >= 0.0
    ensures var (m, e') := Fit(x, e);
            var y := Shift(x, e - e');
            && m as real - 0.5 <= y <= m as real + 0.5
            && (y == m as real - 0.5 || y == m as real + 0.5 ==> m % 2 == 0)
    decreases x.Floor
  {
    if x < TWO53 as real {
      HalfEvenIsNearest(x);
    } else {
      FitIsNearest(x / 2.0, e + 1);
      var e' := Fit(x, e).1;
      assert Shift(x, -1) == Shift(x, 0) / 2.0;
      ShiftAdds(x, -1, e + 1 - e');
    }
  }

  /** Round to nearest, ties to even: in units of the last place of the result, the number is at most half
      a unit away, and if it is half a unit away the result is even. */
  lemma RoundsToNearest(negative: bool, x: real)
    requires x >= 0.0 && Round(negative, x).Some?
    ensures var f := Round(negative, x).value;
            var y := Shift(x, -f.e);
            && f.negative == negative && f.m as real - 0.5 <= y <= f.m as real + 0.5
            && (y == f.m as real - 0.5 || y == f.m as real + 0.5 ==> f.m % 2 == 0)
  {
    ShiftKeepsSign(x, -MIN_EXP);
    var (m, e) := Fit(Shift(x, -MIN_EXP), MIN_EXP);
    FitIsNearest(Shift(x, -MIN_EXP), MIN_EXP);
    ShiftAdds(x, -MIN_EXP, MIN_EXP - e);
    if m == TWO53 {
      ShiftNext(x, -e - 1);
    }
  }

  /** The largest and the smallest double, and the first number that is too large. */
  lemma Extremes(negative: bool)
    ensures var largest, smallest := Shift(0x1F_FFFF_FFFF_FFFF as real, 971), Shift(1.0, -1074);
            && largest >= 0.0 && smallest >= 0.0
            && Round(negative, largest) == Some(Float(negative, 0x1F_FFFF_FFFF_FFFF, 971))
            && Round(negative, smallest) == Some(Float(negative, 1, -1074))
    ensures Shift(0x20_0000_0000_0000 as real, 971) >= 0.0
    ensures Round(negative, Shift(0x20_0000_0000_0000 as real, 971)) == None
  {
    RoundsToItself(Float(negative, 0x1F_FFFF_FFFF_FFFF, 971));
    RoundsToItself(Float(negative, 1, -1074));
    var x := TWO53 as real;
    ShiftKeepsSign(x, 971);
    ShiftAdds(x, 971, -MIN_EXP);
    FitSkips(x, 971 - MIN_EXP, MIN_EXP);
    assert Fit(x, 971) == Fit(x / 2.0, 972);
    assert Fit(x / 2.0, 972) == (TWO52, 972);
  }
}
