/** The two-pass mean and sum of squared deviations that aps and aps-gsras print. */
module Statistics {

  datatype Stats = NoData | Stats(nsamp: nat, mean: real, sumsq: real)

  /** The values of the entries that are selected. */
  function Picked<R>(rs: seq<R>, sel: R -> bool, val: R -> real): seq<real> {
    if rs == [] then []
    else Picked(rs[..|rs| - 1], sel, val) + if sel(rs[|rs| - 1]) then [val(rs[|rs| - 1])] else []
  }

  function SumOf(xs: seq<real>, f: real -> real): real {
    if xs == [] then 0.0 else SumOf(xs[..|xs| - 1], f) + f(xs[|xs| - 1])
  }

  function Itself(): real -> real {
    (x: real) => x
  }

  function From(c: real): real -> real {
    (x: real) => x - c
  }

  function Squared(x: real): real {
    x * x
  }

  function SquareFrom(c: real): real -> real {
    (x: real) => Squared(x - c)
  }

  function Sum(xs: seq<real>): real {
    SumOf(xs, Itself())
  }

  /** The sum of (x - c). */
  function Deviation(xs: seq<real>, c: real): real {
    SumOf(xs, From(c))
  }

  /** The sum of the squares of (x - c). */
  function Spread(xs: seq<real>, c: real): real {
    SumOf(xs, SquareFrom(c))
  }

  lemma SquareFromIs(c: real, x: real)
    ensures SquareFrom(c)(x) == Squared(x - c)
  {}

  lemma ProductPositive(a: real, b: real, product: real)
    requires a > 0.0 && b > 0.0 && product == a * b
    ensures product > 0.0
  {}

  lemma SquaredPositive(x: real)
    requires x != 0.0
    ensures Squared(x) > 0.0
  {
    if x > 0.0 {
      ProductPositive(x, x, Squared(x));
    } else {
      assert (-x) * (-x) == x * x;
      ProductPositive(-x, -x, Squared(x));
    }
  }

  lemma PickedSnoc<R>(rs: seq<R>, n: nat, sel: R -> bool, val: R -> real)
    requires n < |rs|
    ensures Picked(rs[..n + 1], sel, val) == Picked(rs[..n], sel, val) + if sel(rs[n]) then [val(rs[n])] else []
  {
    assert rs[..n + 1][..n] == rs[..n];
  }

  lemma SumSnoc(xs: seq<real>, x: real, f: real -> real)
    ensures SumOf(xs + [x], f) == SumOf(xs, f) + f(x)
  {
    assert (xs + [x])[..|xs|] == xs;
  }

  /** The first pass of ComputeMean. */
  method Totals<R>(rs: seq<R>, sel: R -> bool, val: R -> real) returns (nsamp: nat, sum: real)
    ensures nsamp == |Picked(rs, sel, val)| && sum == Sum(Picked(rs, sel, val))
  {
    nsamp, sum := 0, 0.0;
    var i := 0;
    while i < |rs|
      invariant 0 <= i <= |rs|
      invariant nsamp == |Picked(rs[..i], sel, val)| && sum == Sum(Picked(rs[..i], sel, val))
    {
      PickedSnoc(rs, i, sel, val);
      if sel(rs[i]) {
        SumSnoc(Picked(rs[..i], sel, val), val(rs[i]), Itself());
        sum := sum + val(rs[i]);
        nsamp := nsamp + 1;
      } else {
        assert Picked(rs[..i], sel, val) + [] == Picked(rs[..i], sel, val);
      }
      i := i + 1;
    }
    assert rs[..i] == rs;
  }

  /** The second pass. */
  method Squares<R>(rs: seq<R>, sel: R -> bool, val: R -> real, mean: real) returns (sumsq: real)
    ensures sumsq == Spread(Picked(rs, sel, val), mean)
  {
    sumsq := 0.0;
    var i := 0;
    while i < |rs|
      invariant 0 <= i <= |rs|
      invariant sumsq == Spread(Picked(rs[..i], sel, val), mean)
    {
      PickedSnoc(rs, i, sel, val);
      if sel(rs[i]) {
        SumSnoc(Picked(rs[..i], sel, val), val(rs[i]), SquareFrom(mean));
        var dev := val(rs[i]) - mean;
        SquareFromIs(mean, val(rs[i]));
        sumsq := sumsq + dev * dev;
      } else {
        assert Picked(rs[..i], sel, val) + [] == Picked(rs[..i], sel, val);
      }
      i := i + 1;
    }
    assert rs[..i] == rs;
  }

  function Mean(xs: seq<real>): real
    requires xs != []
  {
    Sum(xs) / |xs| as real
  }

  function Summary(xs: seq<real>): Stats {
    if xs == [] then NoData else Stats(|xs|, Mean(xs), Spread(xs, Mean(xs)))
  }

  /** ComputeMean, without the square root. */
  method ComputeMean<R>(rs: seq<R>, sel: R -> bool, val: R -> real) returns (s: Stats)
    ensures s == Summary(Picked(rs, sel, val))
  {
    var nsamp, sum := Totals(rs, sel, val);
    if nsamp == 0 {
      return NoData;
    }
    var mean := sum / nsamp as real;
    var sumsq := Squares(rs, sel, val, mean);
    s := Stats(nsamp, mean, sumsq);
  }

  /** f is g plus k times h plus q. */
  ghost predicate Related(f: real -> real, g: real -> real, h: real -> real, k: real, q: real) {
    forall x :: f(x) == g(x) + k * h(x) + q
  }


  lemma {:induction false} SumsCombine(xs: seq<real>, f: real -> real, g: real -> real, h: real -> real,
                                             k: real, q: real)
    requires Related(f, g, h, k, q)
    ensures SumOf(xs, f) == SumOf(xs, g) + k * SumOf(xs, h) + |xs| as real * q
  {
    if xs != [] {
      var before, x := xs[..|xs| - 1], xs[|xs| - 1];
      SumsCombine(before, f, g, h, k, q);
      Combine(SumOf(before, f), SumOf(before, g), SumOf(before, h), |before| as real, f(x), g(x), h(x), k, q);
    }
  }

  lemma Combine(sf: real, sg: real, sh: real, n: real, f: real, g: real, h: real, k: real, q: real)
    requires sf == sg + k * sh + n * q && f == g + k * h + q
    ensures sf + f == sg + g + k * (sh + h) + (n + 1.0) * q
  {}

  lemma DeviationIs(xs: seq<real>, c: real)
    ensures Deviation(xs, c) == Sum(xs) - |xs| as real * c
  {
    SumsCombine(xs, From(c), Itself(), Itself(), 0.0, -c);
  }

  lemma Expand(x: real, m: real, c: real)
    ensures SquareFrom(c)(x) == SquareFrom(m)(x) + 2.0 * (m - c) * From(m)(x) + Squared(m - c)
  {
    SquareFromIs(c, x);
    SquareFromIs(m, x);
    assert (x - c) * (x - c) == (x - m) * (x - m) + 2.0 * (m - c) * (x - m) + (m - c) * (m - c);
  }

  lemma SquaresApart(m: real, c: real, k: real)
    requires k == 2.0 * (m - c)
    ensures Related(SquareFrom(c), SquareFrom(m), From(m), k, Squared(m - c))
  {
    forall x ensures SquareFrom(c)(x) == SquareFrom(m)(x) + k * From(m)(x) + Squared(m - c) {
      Expand(x, m, c);
    }
  }

  /** The spread about one number from the spread about another, k / 2 away. */
  lemma SpreadShifts(xs: seq<real>, m: real, c: real, k: real)
    requires k == 2.0 * (m - c)
    ensures Spread(xs, c) == Spread(xs, m) + k * Deviation(xs, m) + |xs| as real * Squared(m - c)
  {
    var q := Squared(m - c);
    SquaresApart(m, c, k);
    SumsCombine(xs, SquareFrom(c), SquareFrom(m), From(m), k, q);
  }

  lemma DeviationsCancel(xs: seq<real>)
    requires xs != []
    ensures Deviation(xs, Mean(xs)) == 0.0
  {
    DeviationIs(xs, Mean(xs));
  }

  /** The deviations from the printed mean cancel; about any other number the squares add up to more, by n times the
      square of the distance; so the sum of squares is also that of the values less n times the square of the mean. */
  lemma MeanMinimises(xs: seq<real>, c: real)
    requires xs != []
    ensures Deviation(xs, Mean(xs)) == 0.0
    ensures Spread(xs, c) == Spread(xs, Mean(xs)) + |xs| as real * Squared(Mean(xs) - c)
    ensures c != Mean(xs) ==> Spread(xs, Mean(xs)) < Spread(xs, c)
    ensures Spread(xs, Mean(xs)) == Spread(xs, 0.0) - |xs| as real * Squared(Mean(xs))
  {
    var mean := Mean(xs);
    DeviationsCancel(xs);
    SpreadShifts(xs, mean, c, 2.0 * (mean - c));
    SpreadShifts(xs, mean, 0.0, 2.0 * mean);
    if c != mean {
      SquaredPositive(mean - c);
      ProductPositive(|xs| as real, Squared(mean - c), |xs| as real * Squared(mean - c));
    }
  }
}
