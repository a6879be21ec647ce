/** How much of a wanted time window a record covers. */
module WdchkCoverage {

  datatype Span = Span(beg: real, end: real)

  /** The wanted window; main refuses one that does not end after it begins. */
  type Window = w: Span | w.beg < w.end witness Span(0.0, 1.0)

  function Max(x: real, y: real): real {
    if x > y then x else y
  }

  function Min(x: real, y: real): real {
    if x < y then x else y
  }

  /** The number that check prints. */
  function Percent(r: Span, want: Window): real
  {
    if r.end < want.beg || r.beg > want.end then 0.0
    else if want.beg >= r.beg && want.end <= r.end then 100.0
    else
      var left := if want.beg > r.beg then want.beg else r.beg;
      var rite := if want.end < r.end then want.end else r.end;
      (rite - left) / (want.end - want.beg) * 100.0
  }

  /** Percent for one window. */
  function PercentOf(want: Window): Span -> real {
    r => Percent(r, want)
  }

  /** The length of the part of w that r covers. */
  function Overlap(r: Span, w: Span): real {
    Max(0.0, Min(r.end, w.end) - Max(r.beg, w.beg))
  }

  /** The record ends before it begins, and does both inside the window. */
  predicate Inverted(r: Span, want: Window) {
    want.beg <= r.end < r.beg <= want.end
  }

  lemma Ratio(x: real, d: real)
    requires d > 0.0
    ensures x / d * 100.0 == 100.0 * x / d
    ensures x > 0.0 <==> x / d * 100.0 > 0.0
    ensures x < 0.0 <==> x / d * 100.0 < 0.0
    ensures x <= d <==> x / d * 100.0 <= 100.0
    ensures x == d <==> x / d * 100.0 == 100.0
  {
    var q := x / d;
    assert x == q * d;
    assert 100.0 * x == (100.0 * q) * d;
    Scaled(q, d);
  }

  lemma Scaled(q: real, d: real)
    requires d > 0.0
    ensures q > 0.0 <==> q * d > 0.0
    ensures q < 0.0 <==> q * d < 0.0
    ensures q <= 1.0 <==> q * d <= d
    ensures q == 1.0 <==> q * d == d
  {
    assert (q - 1.0) * d == q * d - d;
  }

  /** In every branch the number is 100 times the overlap over the length of the window, except for a record that
      ends before it begins inside the window, for which it is negative. */
  lemma PercentIsOverlapIff(r: Span, want: Window)
    ensures Percent(r, want) == 100.0 * Overlap(r, want) / (want.end - want.beg) <==> !Inverted(r, want)
    ensures Percent(r, want) < 0.0 <==> Inverted(r, want)
    ensures Inverted(r, want) ==> Percent(r, want) == 100.0 * (r.end - r.beg) / (want.end - want.beg)
    ensures Percent(r, want) <= 100.0
  {
    var d := want.end - want.beg;
    Ratio(Min(r.end, want.end) - Max(r.beg, want.beg), d);
    Ratio(0.0, d);
    Ratio(d, d);
  }

  /** A record from 3 back to 1 in a window from 0 to 4 has -50 percent of it. */
  lemma InvertedIsNegative()
    ensures Percent(Span(3.0, 1.0), Span(0.0, 4.0)) == -50.0
  {
    assert (1.0 - 3.0) / (4.0 - 0.0) == -0.5;
  }

  /** A record is reported exactly when it shares more than an instant with the window, and with the full 100 percent
      exactly when it covers it. */
  lemma ReportedIffOverlapping(r: Span, want: Window)
    ensures Percent(r, want) > 0.0 <==> Overlap(r, want) > 0.0
    ensures Percent(r, want) == 100.0 <==> r.beg <= want.beg && want.end <= r.end
  {
    var d := want.end - want.beg;
    Ratio(Min(r.end, want.end) - Max(r.beg, want.beg), d);
  }

  predicate Disjoint(r: Span, s: Span) {
    r.end <= s.beg || s.end <= r.beg
  }

  predicate PairwiseDisjoint(rs: seq<Span>) {
    forall i, j :: 0 <= i < j < |rs| ==> Disjoint(rs[i], rs[j])
  }

  function TotalOverlap(rs: seq<Span>, w: Span): (t: real)
    ensures t >= 0.0
  {
    if rs == [] then 0.0 else Overlap(rs[0], w) + TotalOverlap(rs[1..], w)
  }

  /** The sum of the percentages of the reported records. */
  function TotalPercent(rs: seq<Span>, percent: Span -> real): real {
    if rs == [] then 0.0
    else (if percent(rs[0]) > 0.0 then percent(rs[0]) else 0.0) + TotalPercent(rs[1..], percent)
  }

  /** A record disjoint from r covers of the window only what lies before or after r. */
  lemma OverlapSplits(s: Span, r: Span, w: Span)
    requires Disjoint(r, s) && Overlap(r, w) > 0.0
    ensures Overlap(s, w) == Overlap(s, Span(w.beg, Max(r.beg, w.beg))) + Overlap(s, Span(Min(r.end, w.end), w.end))
  {}

  lemma {:induction false} TotalSplits(rs: seq<Span>, r: Span, w: Span)
    requires (forall s :: s in rs ==> Disjoint(r, s)) && Overlap(r, w) > 0.0
    ensures TotalOverlap(rs, w)
         == TotalOverlap(rs, Span(w.beg, Max(r.beg, w.beg))) + TotalOverlap(rs, Span(Min(r.end, w.end), w.end))
  {
    if rs != [] {
      OverlapSplits(rs[0], r, w);
      TotalSplits(rs[1..], r, w);
    }
  }

  /** Pairwise disjoint records cover no more of a window than there is. */
  lemma {:induction false} DisjointFit(rs: seq<Span>, w: Span)
    requires PairwiseDisjoint(rs) && w.beg <= w.end
    ensures TotalOverlap(rs, w) <= w.end - w.beg
    decreases |rs|
  {
    if rs != [] {
      var r, rest := rs[0], rs[1..];
      assert PairwiseDisjoint(rest) by {
        forall i, j | 0 <= i < j < |rest| ensures Disjoint(rest[i], rest[j]) {
          assert Disjoint(rs[i + 1], rs[j + 1]);
        }
      }
      if Overlap(r, w) > 0.0 {
        assert forall s :: s in rest ==> Disjoint(r, s);
        TotalSplits(rest, r, w);
        DisjointFit(rest, Span(w.beg, Max(r.beg, w.beg)));
        DisjointFit(rest, Span(Min(r.end, w.end), w.end));
      } else {
        DisjointFit(rest, w);
      }
    }
  }

  lemma {:induction false} TotalPercentIs(rs: seq<Span>, want: Window)
    ensures TotalPercent(rs, PercentOf(want)) == 100.0 * TotalOverlap(rs, want) / (want.end - want.beg)
  {
    var d := want.end - want.beg;
    if rs == [] {
      Ratio(0.0, d);
    } else {
      PercentIsOverlapIff(rs[0], want);
      ReportedIffOverlapping(rs[0], want);
      Ratio(Overlap(rs[0], want), d);
      TotalPercentIs(rs[1..], want);
      SumOverD(100.0 * Overlap(rs[0], want), 100.0 * TotalOverlap(rs[1..], want), d);
    }
  }

  lemma SumOverD(x: real, y: real, d: real)
    requires d > 0.0
    ensures x / d + y / d == (x + y) / d
  {}

  /** The percentages reported for pairwise disjoint records add up to at most 100. */
  lemma ReportedPercentsFit(rs: seq<Span>, want: Window)
    requires PairwiseDisjoint(rs)
    ensures TotalPercent(rs, PercentOf(want)) <= 100.0
  {
    TotalPercentIs(rs, want);
    DisjointFit(rs, want);
    Ratio(TotalOverlap(rs, want), want.end - want.beg);
  }
}
