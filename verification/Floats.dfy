/** Rounding to a C float: 24 significant bits, ties to even. Overflow is left out. */
module Floats {

  /** x rounded to an integer, ties to even. */
  function Nearest(x: real): int {
    var n := x.Floor;
    var rest := x - n as real;
    if rest < 0.5 || (rest == 0.5 && n % 2 == 0) then n else n + 1
  }

  function Abs(x: real): (a: real)
    ensures a >= 0.0
  {
    if x < 0.0 then -x else x
  }

  function Power(n: nat): (p: nat)
    ensures p > 0
  {
    if n == 0 then 1 else 2 * Power(n - 1)
  }

  /** Two to the power e. */
  function Unit(e: int): (u: real)
    ensures u > 0.0
    decreases if e < 0 then -e else e
  {
    if e == 0 then 1.0 else if e > 0 then 2.0 * Unit(e - 1) else Unit(e + 1) / 2.0
  }

  const LEAST := -149
  const FULL := 16777216.0
  const HALF := 8388608.0

  /** The exponent of the last bit of the float nearest to x, searched for from e upwards. */
  function Exponent(x: real, e: int): (r: int)
    requires x >= 0.0
    ensures r >= e && x < FULL * Unit(r) && (r > e ==> HALF * Unit(r) <= x)
    decreases (x / Unit(e)).Floor
  {
    if x < FULL * Unit(e) then e
    else
      UnitDoubles(e);
      QuotientShrinks(x, Unit(e));
      Exponent(x, e + 1)
  }

  lemma UnitDoubles(e: int)
    ensures Unit(e + 1) == 2.0 * Unit(e)
  {}

  lemma QuotientShrinks(x: real, u: real)
    requires u > 0.0 && x >= FULL * u
    ensures 0 <= (x / (2.0 * u)).Floor < (x / u).Floor
  {
    var q := x / u;
    assert x == q * u;
    assert q >= FULL;
    assert x / (2.0 * u) == q / 2.0;
  }

  function Times(n: int, u: real): real {
    n as real * u
  }

  /** x rounded to a multiple of u. */
  function Round(x: real, u: real): real
    requires u > 0.0
  {
    Times(Nearest(x / u), u)
  }

  function PositiveToFloat(x: real): real
    requires x >= 0.0
  {
    Round(x, Unit(Exponent(x, LEAST)))
  }

  function ToFloat(x: real): real {
    if x < 0.0 then -PositiveToFloat(-x) else PositiveToFloat(x)
  }

  /** k units of size 2 to the e, no more of them than fit 24 bits. */
  predicate FloatAs(f: real, k: int, e: int) {
    -16777216 <= k <= 16777216 && e >= LEAST && f == Times(k, Unit(e))
  }

  ghost predicate IsFloat(f: real) {
    exists k, e :: FloatAs(f, k, e)
  }

  // ---- rounding on a grid ----

  /** r is within half a unit of x, and no multiple of u is nearer. */
  ghost predicate RoundsTo(x: real, u: real, r: real) {
    Abs(x - r) <= u / 2.0 && forall n: int :: Abs(x - r) <= Abs(x - Times(n, u))
  }

  lemma NearestError(y: real)
    ensures -0.5 <= y - Nearest(y) as real <= 0.5
  {}

  lemma NearestIsNearest(y: real, n: int)
    ensures Abs(y - Nearest(y) as real) <= Abs(y - n as real)
  {
    var m := Nearest(y);
    NearestError(y);
    if n < m {
      assert n as real <= m as real - 1.0;
    } else if n > m {
      assert n as real >= m as real + 1.0;
    }
  }

  lemma Scales(x: real, y: real, u: real)
    requires u > 0.0
    ensures Abs(x * u - y * u) == Abs(x - y) * u
    ensures x <= y <==> x * u <= y * u
    ensures x < y <==> x * u < y * u
  {
    assert x * u - y * u == (x - y) * u;
    if x < y {
      Positive(y - x, u, (y - x) * u);
    } else if y < x {
      Positive(x - y, u, (x - y) * u);
    }
  }

  lemma Positive(a: real, b: real, product: real)
    requires a > 0.0 && b > 0.0 && product == a * b
    ensures product > 0.0
  {}

  lemma ScaledError(x: real, u: real, y: real, n: int)
    requires u > 0.0 && x == y * u && -0.5 <= y - n as real <= 0.5
    ensures Abs(x - Times(n, u)) <= u / 2.0
  {
    Scales(y, n as real, u);
    Scales(Abs(y - n as real), 0.5, u);
  }

  lemma ScaledDistance(x: real, u: real, y: real, m: int, n: int)
    requires u > 0.0 && x == y * u && Abs(y - m as real) <= Abs(y - n as real)
    ensures Abs(x - Times(m, u)) <= Abs(x - Times(n, u))
  {
    Scales(y, m as real, u);
    Scales(y, n as real, u);
    Scales(Abs(y - m as real), Abs(y - n as real), u);
  }

  lemma QuotientRounds(x: real, u: real, y: real)
    requires u > 0.0 && x == y * u
    ensures RoundsTo(x, u, Times(Nearest(y), u))
  {
    var m := Nearest(y);
    NearestError(y);
    ScaledError(x, u, y, m);
    forall n: int ensures Abs(x - Times(m, u)) <= Abs(x - Times(n, u)) {
      NearestIsNearest(y, n);
      ScaledDistance(x, u, y, m, n);
    }
  }

  lemma DivideThenTimes(x: real, u: real)
    requires u > 0.0
    ensures x / u * u == x
  {}

  lemma RoundRounds(x: real, u: real)
    requires u > 0.0
    ensures RoundsTo(x, u, Round(x, u))
  {
    DivideThenTimes(x, u);
    QuotientRounds(x, u, x / u);
  }

  lemma RoundStaysBelow(x: real, u: real, limit: int) returns (n: int)
    requires u > 0.0 && 0.0 <= x <= Times(limit, u)
    ensures Round(x, u) == Times(n, u) && 0 <= n <= limit
  {
    DivideThenTimes(x, u);
    n := QuotientStaysBelow(x, u, x / u, limit);
  }

  lemma QuotientStaysBelow(x: real, u: real, y: real, limit: int) returns (n: int)
    requires u > 0.0 && x == y * u && 0.0 <= x <= Times(limit, u)
    ensures n == Nearest(y) && 0 <= n <= limit
  {
    n := Nearest(y);
    var top := limit as real;
    Scales(y, top, u);
    Scales(0.0, y, u);
    assert 0.0 * u == 0.0 && y * u == x <= top * u;
    assert 0.0 <= y <= top;
    NearestError(y);
  }

  // ---- the nearest float ----

  lemma {:induction false} UnitsNest(e: int, d: nat)
    ensures Unit(e + d) == Power(d) as real * Unit(e)
  {
    if d == 0 {
      assert Power(0) as real == 1.0;
    } else {
      UnitsNest(e, d - 1);
      UnitDoubles(e + d - 1);
      Regroup(2.0, Power(d - 1) as real, Unit(e));
    }
  }

  lemma UnitsGrow(e: int, e': int)
    requires e <= e'
    ensures Unit(e) <= Unit(e')
  {
    UnitsNest(e, e' - e);
    Scales(1.0, Power(e' - e) as real, Unit(e));
  }

  /** A float of larger units is a multiple of smaller ones. */
  lemma OnFinerGrid(f: real, k: int, e: int, e': int) returns (n: int)
    requires FloatAs(f, k, e) && e' <= e
    ensures f == Times(n, Unit(e'))
  {
    UnitsNest(e', e - e');
    n := k * Power(e - e');
    TimesTimes(k, Power(e - e'), Unit(e'), Unit(e));
  }

  lemma TimesTimes(k: int, p: int, u: real, v: real)
    requires v == p as real * u
    ensures Times(k, v) == Times(k * p, u)
  {
    Regroup(k as real, p as real, u);
    assert (k * p) as real == k as real * p as real;
  }

  lemma Regroup(a: real, b: real, c: real)
    ensures a * (b * c) == (a * b) * c
  {}

  /** A float of smaller units than those of x lies below all numbers with the units of x. */
  lemma BelowBinade(f: real, k: int, e: int, e': int)
    requires FloatAs(f, k, e) && e < e'
    ensures f <= HALF * Unit(e')
  {
    UnitDoubles(e);
    UnitsGrow(e + 1, e');
    BelowTop(k, Unit(e), Unit(e + 1), Unit(e'));
  }

  lemma BelowTop(k: int, u: real, v: real, w: real)
    requires u > 0.0 && k <= 16777216 && v == 2.0 * u && v <= w
    ensures Times(k, u) <= HALF * w
  {
    Scales(k as real, FULL, u);
  }

  /** Rounding x on the grid of its exponent e finds the float nearest to x. */
  lemma GridIsNearest(x: real, r: real, e: int, f: real, k: int, e': int)
    requires RoundsTo(x, Unit(e), r) && (e > LEAST ==> HALF * Unit(e) <= x) && FloatAs(f, k, e')
    ensures Abs(x - r) <= Abs(x - f)
  {
    if e <= e' {
      var n := OnFinerGrid(f, k, e', e);
    } else {
      BelowBinade(f, k, e', e);
      BelowIsFarther(x, r, Unit(e), f);
    }
  }

  lemma BelowIsFarther(x: real, r: real, u: real, f: real)
    requires RoundsTo(x, u, r) && f <= HALF * u <= x
    ensures Abs(x - r) <= Abs(x - f)
  {
    assert Times(8388608, u) == HALF * u;
  }

  lemma PositiveIsNearest(x: real, f: real)
    requires x >= 0.0 && IsFloat(f)
    ensures Abs(x - PositiveToFloat(x)) <= Abs(x - f)
  {
    var e := Exponent(x, LEAST);
    var k, e' :| FloatAs(f, k, e');
    RoundRounds(x, Unit(e));
    GridIsNearest(x, PositiveToFloat(x), e, f, k, e');
  }

  lemma PositiveIsFloat(x: real)
    requires x >= 0.0
    ensures IsFloat(PositiveToFloat(x)) && PositiveToFloat(x) >= 0.0
  {
    var e := Exponent(x, LEAST);
    var n := RoundStaysBelow(x, Unit(e), 16777216);
    Scales(0.0, n as real, Unit(e));
    assert FloatAs(PositiveToFloat(x), n, e);
  }

  lemma NegatedIsFloat(f: real)
    requires IsFloat(f)
    ensures IsFloat(-f)
  {
    var k, e :| FloatAs(f, k, e);
    assert -f == Times(-k, Unit(e));
    assert FloatAs(-f, -k, e);
  }

  /** The conversion gives a float, and no float is nearer. */
  lemma ToFloatIsNearest(x: real, f: real)
    requires IsFloat(f)
    ensures IsFloat(ToFloat(x)) && Abs(x - ToFloat(x)) <= Abs(x - f)
  {
    NegatedIsFloat(f);
    if x < 0.0 {
      PositiveIsNearest(-x, -f);
      PositiveIsFloat(-x);
      NegatedIsFloat(PositiveToFloat(-x));
    } else {
      PositiveIsNearest(x, f);
      PositiveIsFloat(x);
    }
  }

  lemma ToFloatKeepsFloats(f: real)
    requires IsFloat(f)
    ensures ToFloat(f) == f
  {
    ToFloatIsNearest(f, f);
  }
}
