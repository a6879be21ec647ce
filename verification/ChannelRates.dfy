/** Which sampling rates survive being printed with six decimals and scanned into a C float. */
module ChannelRates {
  import opened Floats
  import opened ChannelText

  /** The rate is the float nearest to some whole number of millionths. */
  ghost predicate NearMillionth(rate: real) {
    exists m: int :: rate == FloatOf(m)
  }

  function FloatOf(m: int): real {
    ToFloat(m as real / MICRO)
  }

  lemma PrintedIsMillionth(rate: real) returns (m: int)
    ensures Printed(rate) == m as real / MICRO
    ensures Abs(Printed(rate) - rate) <= 0.5 / MICRO
  {
    var n: int := Micros(rate);
    m := if rate < 0.0 then -n else n;
    NearestError(Abs(rate) * MICRO);
  }

  lemma NearestIs(y: real, n: int)
    requires -0.5 < y - n as real < 0.5
    ensures Nearest(y) == n
  {
    NearestError(y);
  }

  lemma PrintedMillionth(f: real, m: int)
    requires -0.4999 <= f * MICRO - m as real <= 0.4999
    ensures Printed(f) == m as real / MICRO
  {
    var y := Abs(f) * MICRO;
    if f < 0.0 {
      NearestIs(y, -m);
    } else {
      NearestIs(y, m);
    }
  }

  lemma SmallUnits()
    ensures Unit(-20) == 1.0 / 1048576.0 && Unit(-19) == 1.0 / 524288.0
  {
    assert Unit(-4) == 1.0 / 16.0;
    assert Unit(-8) == 1.0 / 256.0;
    assert Unit(-12) == 1.0 / 4096.0;
    assert Unit(-16) == 1.0 / 65536.0;
    assert Unit(-19) == 1.0 / 524288.0;
  }

  /** Below 16 the floats are closer together than the millionths. */
  lemma SmallError(x: real)
    requires 0.0 <= x < 16.0
    ensures Abs(PositiveToFloat(x) - x) <= 0.48 / MICRO
  {
    SmallUnits();
    var e := Exponent(x, LEAST);
    RoundRounds(x, Unit(e));
    if e > -20 {
      UnitsGrow(-19, e);
    } else {
      UnitsGrow(e, -20);
    }
  }

  /** From 16 on they are farther apart. */
  lemma LargeGrid(f: real) returns (n: int)
    requires IsFloat(f) && Abs(f) >= 16.0
    ensures f == n as real / 524288.0
  {
    SmallUnits();
    var k, e :| FloatAs(f, k, e);
    if e >= -19 {
      n := OnFinerGrid(f, k, e, -19);
    } else {
      BelowBinade(f, k, e, -19);
      assert FloatAs(-f, -k, e);
      BelowBinade(-f, -k, e, -19);
      n := if f > 0.0 then 8388608 else -8388608;
    }
  }

  lemma SixteenIsFloat()
    ensures IsFloat(16.0) && IsFloat(-16.0)
  {
    assert Unit(0) == 1.0;
    assert FloatAs(16.0, 16, 0) && FloatAs(-16.0, -16, 0);
  }

  /** Two floats of at least 16 that are within a millionth of each other are equal. */
  lemma LargeApart(f: real, g: real)
    requires IsFloat(f) && IsFloat(g) && Abs(f) >= 16.0 && Abs(g) >= 16.0 && Abs(f - g) <= 1.0 / MICRO
    ensures f == g
  {
    var n := LargeGrid(f);
    var m := LargeGrid(g);
    assert f - g == (n - m) as real / 524288.0;
  }

  /** And only 16 itself has a number below 16 that near. */
  lemma JustAbove(f: real, g: real)
    requires IsFloat(f) && Abs(g) < 16.0 <= Abs(f) && Abs(f - g) <= 1.0 / MICRO
    ensures Printed(f) == f
  {
    var n := LargeGrid(f);
    assert n == 8388608 || n == -8388608;
    PrintedMillionth(f, if n > 0 then 16000000 else -16000000);
  }

  /** Every float of at least 16 survives. */
  lemma LargeRatesReturn(f: real)
    requires IsFloat(f) && Abs(f) >= 16.0
    ensures Stored(f) == f
  {
    var m := PrintedIsMillionth(f);
    var s, g := Printed(f), Stored(f);
    ToFloatIsNearest(s, f);
    if Abs(g) >= 16.0 {
      LargeApart(f, g);
    } else {
      JustAbove(f, g);
      ToFloatKeepsFloats(f);
    }
  }

  lemma MillionthReturns(m: int)
    ensures Stored(FloatOf(m)) == FloatOf(m)
  {
    var x := m as real / MICRO;
    if Abs(x) < 16.0 {
      SmallError(Abs(x));
      PrintedMillionth(FloatOf(m), m);
    } else {
      StaysLarge(x);
      LargeRatesReturn(FloatOf(m));
    }
  }

  lemma StaysLarge(x: real)
    requires Abs(x) >= 16.0
    ensures IsFloat(ToFloat(x)) && Abs(ToFloat(x)) >= 16.0
  {
    SixteenIsFloat();
    ToFloatIsNearest(x, if x > 0.0 then 16.0 else -16.0);
  }

  /** A rate comes back as it was if and only if it is the float nearest to some whole number of millionths. What
      comes back is one, so saving and loading again changes nothing more. */
  lemma StoredIffNearMillionth(rate: real)
    ensures Stored(rate) == rate <==> NearMillionth(rate)
    ensures NearMillionth(Stored(rate)) && Stored(Stored(rate)) == Stored(rate)
  {
    var m := PrintedIsMillionth(rate);
    assert Stored(rate) == FloatOf(m);
    MillionthReturns(m);
    if NearMillionth(rate) {
      var k :| rate == FloatOf(k);
      MillionthReturns(k);
    }
  }

  // ---- one that does not survive ----

  lemma {:induction false} PowersHaveNoFive(n: nat)
    ensures Power(n) % 5 != 0
  {
    if n > 0 {
      PowersHaveNoFive(n - 1);
    }
  }

  lemma TenthIsNoMultiple(n: int, e: int, d: nat)
    requires e + d == 0
    ensures Times(n, Unit(e)) != 0.1
  {
    UnitsNest(e, d);
    PowersHaveNoFive(d);
    if Times(n, Unit(e)) == 0.1 {
      TenIsNoDivisor(n, Unit(e), Power(d));
    }
  }

  lemma TenthIsNoFloat()
    ensures !IsFloat(0.1)
  {
    forall k, e ensures !FloatAs(0.1, k, e) {
      if FloatAs(0.1, k, e) {
        var n := OnFinerGrid(0.1, k, e, LEAST);
        TenthIsNoMultiple(n, LEAST, -LEAST);
      }
    }
  }

  lemma TenIsNoDivisor(n: int, u: real, p: nat)
    requires u > 0.0 && p as real * u == 1.0 && Times(n, u) == 0.1
    ensures p == 10 * n
  {
    Scales(p as real, 10.0 * n as real, u);
    Scales(10.0 * n as real, p as real, u);
    assert 10.0 * n as real * u == 1.0;
  }

  /** One sample in ten seconds: the file holds 0.100000, and the float that is read from it is not a tenth. */
  lemma TenthIsLost()
    ensures Printed(0.1) == 0.1 && Stored(0.1) != 0.1
  {
    PrintedMillionth(0.1, 100000);
    TenthIsNoFloat();
    SixteenIsFloat();
    ToFloatIsNearest(0.1, 16.0);
  }
}
