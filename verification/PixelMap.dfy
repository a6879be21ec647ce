/** Screen geometry: the strips of the trace windows, hit-testing, and the sample-to-pixel maps. */
module PixelMap {
  import opened CLib
  import opened VerticalRange

  // ---- strips ----

  /** One window's strip (xw, yw) and the plot area inside it (x, y); y counts up from the bottom. */
  datatype Strip = Strip(xw1: int, xw2: int, yw1: int, yw2: int, x1: int, x2: int, y1: int, y2: int)

  datatype Screen = Screen(maxX: int, maxY: int, timeBar: int, infoX: int)

  function StripHeight(s: Screen, nWin: nat): int
    requires nWin > 0
  {
    CDiv(s.maxY - s.timeBar, nWin)
  }

  /** CalculateWindowsSize: the strip of window i. */
  function StripOf(s: Screen, nWin: nat, i: nat): Strip
    requires nWin > 0
  {
    var h := StripHeight(s, nWin);
    var xw1, xw2 := 2, s.maxX - 1;
    var yw1, yw2 := h * i + s.timeBar, h * (i + 1) + s.timeBar - 1;
    Strip(xw1, xw2, yw1, yw2, xw1 + s.infoX + 2, xw2 - 1, yw1 + 1, yw2 - 1)
  }

  lemma MulMono(c: int, a: int, b: int)
    requires a <= b && c >= 0
    ensures c * a <= c * b
  {
    assert c * b - c * a == c * (b - a);
  }

  lemma StripsAscend(s: Screen, nWin: nat, i: nat, j: nat)
    requires nWin > 0 && i < j && StripHeight(s, nWin) >= 0
    ensures StripOf(s, nWin, i).yw2 < StripOf(s, nWin, j).yw1
    ensures j == i + 1 ==> StripOf(s, nWin, i).yw2 + 1 == StripOf(s, nWin, j).yw1
  {
    MulMono(StripHeight(s, nWin), i + 1, j);
  }

  /** No window is drawn in an area that is lower than the time bar. */
  lemma NoStrip(s: Screen, nWin: nat, i: nat)
    requires nWin > 0 && s.maxY < s.timeBar
    ensures StripOf(s, nWin, i).yw2 < StripOf(s, nWin, i).yw1
  {
    var h := StripHeight(s, nWin);
    assert h * (i + 1) == h * i + h;
  }

  lemma LastRow(s: Screen, nWin: nat)
    requires nWin > 0
    ensures s.maxY - (StripOf(s, nWin, nWin - 1).yw2 + 1) == (s.maxY - s.timeBar) - StripHeight(s, nWin) * nWin
  {
    assert nWin - 1 + 1 == nWin;
  }

  lemma UnusedRows(h: int, height: int, nWin: nat)
    requires nWin > 0 && height >= 0 && h == CDiv(height, nWin)
    ensures 0 <= height - h * nWin < nWin
  {}

  /** The strips stack without gaps from the time bar up. In a drawing area at least as high as the time bar they are
      disjoint, stay inside and leave fewer than nWin rows unused; in a lower one none of them has a row. */
  lemma StripsTile(s: Screen, nWin: nat)
    requires nWin > 0
    ensures StripOf(s, nWin, 0).yw1 == s.timeBar
    ensures forall i: nat | i + 1 < nWin :: StripOf(s, nWin, i).yw2 + 1 == StripOf(s, nWin, i + 1).yw1
    ensures s.maxY >= s.timeBar ==>
              && (forall i: nat, j: nat | i < j < nWin :: StripOf(s, nWin, i).yw2 < StripOf(s, nWin, j).yw1)
              && 0 <= s.maxY - (StripOf(s, nWin, nWin - 1).yw2 + 1) < nWin
    ensures s.maxY < s.timeBar ==> forall i: nat | i < nWin :: StripOf(s, nWin, i).yw2 < StripOf(s, nWin, i).yw1
  {
    LastRow(s, nWin);
    if s.maxY >= s.timeBar {
      UnusedRows(StripHeight(s, nWin), s.maxY - s.timeBar, nWin);
      forall i: nat, j: nat | i < j < nWin ensures StripOf(s, nWin, i).yw2 < StripOf(s, nWin, j).yw1 {
        StripsAscend(s, nWin, i, j);
      }
    } else {
      forall i: nat | i < nWin ensures StripOf(s, nWin, i).yw2 < StripOf(s, nWin, i).yw1 {
        NoStrip(s, nWin, i);
      }
    }
  }

  predicate InPlot(st: Strip, x: int, y: int) {
    st.y1 <= y <= st.y2 && st.x1 <= x <= st.x2
  }

  /** The points of plot i in the numbers of the screen: a border of one pixel is left inside the strip, the right and
      left edges of the screen are left free, and so is the information area. */
  lemma InPlotIff(s: Screen, nWin: nat, i: nat, x: int, y: int)
    requires nWin > 0
    ensures InPlot(StripOf(s, nWin, i), x, y)
       <==> && s.timeBar + StripHeight(s, nWin) * i < y < s.timeBar + StripHeight(s, nWin) * (i + 1) - 1
            && s.infoX + 4 <= x <= s.maxX - 2
  {}

  /** There is something to draw on exactly if a strip has three rows and the screen six columns beside the information
      area. */
  lemma PlotIsThereIff(s: Screen, nWin: nat, i: nat)
    requires nWin > 0
    ensures var st := StripOf(s, nWin, i);
      && (st.y1 <= st.y2 <==> StripHeight(s, nWin) >= 3) && (st.x1 <= st.x2 <==> s.maxX >= s.infoX + 6)
      && st.y2 - st.y1 + 1 == StripHeight(s, nWin) - 2 && st.x2 - st.x1 + 1 == s.maxX - s.infoX - 5
      && st.xw1 < st.x1 - s.infoX && st.x2 < st.xw2 < s.maxX && st.yw1 < st.y1 && st.y2 < st.yw2
  {
    var h := StripHeight(s, nWin);
    assert h * (i + 1) == h * i + h;
  }

  /** A plot area lies strictly inside its own strip, so a point in it gives the strip's index by division. */
  lemma PlotRow(s: Screen, nWin: nat, i: nat, x: int, y: int)
    requires nWin > 0 && InPlot(StripOf(s, nWin, i), x, y)
    ensures StripHeight(s, nWin) > 0 && (y - s.timeBar) / StripHeight(s, nWin) == i
  {
    var h := StripHeight(s, nWin);
    assert h * (i + 1) == h * i + h;
    QuotientIs(y - s.timeBar, h, i);
  }

  // ---- samples to rows and back ----

  /** s out of d, on a scale of length h. */
  function Proportion(s: real, h: real, d: real): real
    requires d != 0.0
  {
    s * h / d
  }

  function Clamp(r: Range, a: int): int {
    if a > r.amax then r.amax else if a < r.amin then r.amin else a
  }

  /** DrawWindow: the row of a sample, before it is flipped for the screen. */
  function RowOf(r: Range, y1: int, y2: int, a: int): int
    requires r.Usable()
  {
    CDiv((Clamp(r, a) - r.amin) * (y2 - y1), r.Width()) + y1
  }

  /** mouseMoveEvent: the amplitude shown for a row. */
  function AmplitudeAt(r: Range, y1: int, y2: int, y: int): int
    requires y1 != y2
  {
    CToInt(Proportion((y - y1) as real, r.Width() as real, (y2 - y1) as real) + r.amin as real + 0.5)
  }

  lemma DivBounds(n: int, d: int)
    requires d > 0
    ensures n - d < d * (n / d) <= n
  {
  }

  lemma DivMono(a: int, b: int, d: int)
    requires a <= b && d > 0
    ensures a / d <= b / d
  {
    var p, q := a / d, b / d;
    DivBounds(a, d);
    DivBounds(b, d);
    assert d * (p - q) == d * p - d * q;
    MulGap(d, p - q);
  }

  lemma Quotient(h: int, w: int)
    requires w > 0
    ensures (w * h) / w == h
  {
    QuotientIs(w * h, w, h);
  }

  /** Rows above the bottom of the plot: c counts out of w on h pixels. */
  function Rows(c: int, w: int, h: int): int
    requires w > 0
  {
    h * c / w
  }

  lemma RowsAscend(c: int, d: int, w: int, h: int)
    requires 0 <= c <= d <= w && w > 0 && h >= 0
    ensures 0 <= Rows(c, w, h) <= Rows(d, w, h) <= h
  {
    MulMono(h, 0, c);
    MulMono(h, c, d);
    MulMono(h, d, w);
    DivMono(0, h * c, w);
    DivMono(h * c, h * d, w);
    DivMono(h * d, w * h, w);
    Quotient(h, w);
  }

  lemma RowOfIsRows(r: Range, y1: int, y2: int, a: int)
    requires r.Usable() && y1 <= y2
    ensures RowOf(r, y1, y2, a) == y1 + Rows(Clamp(r, a) - r.amin, r.Width(), y2 - y1)
  {
    var c, h := Clamp(r, a) - r.amin, y2 - y1;
    MulMono(h, 0, c);
    assert c * h == h * c;
  }

  /** Every sample is drawn inside the plot area, and larger samples never lower. */
  lemma RowsStayAndAscend(r: Range, y1: int, y2: int, a: int, b: int)
    requires r.Usable() && y1 <= y2 && a <= b
    ensures y1 <= RowOf(r, y1, y2, a) <= RowOf(r, y1, y2, b) <= y2
  {
    RowOfIsRows(r, y1, y2, a);
    RowOfIsRows(r, y1, y2, b);
    RowsAscend(Clamp(r, a) - r.amin, Clamp(r, b) - r.amin, r.Width(), y2 - y1);
  }

  /** The ends of the range are drawn on the edges of the plot, and what lies beyond them too. */
  lemma RowsAtEnds(r: Range, y1: int, y2: int, a: int)
    requires r.Usable() && y1 <= y2
    ensures a <= r.amin ==> RowOf(r, y1, y2, a) == y1
    ensures a >= r.amax ==> RowOf(r, y1, y2, a) == y2
  {
    RowOfIsRows(r, y1, y2, a);
    Quotient(y2 - y1, r.Width());
    assert r.Width() * (y2 - y1) == (y2 - y1) * r.Width();
  }

  /** Reading the row of a drawn sample back: never more than one count above the clamped sample, and less than
      one pixel's worth of counts plus a half below it. */
  lemma ReadBackError(r: Range, y1: int, y2: int, a: int)
    requires r.Usable() && y1 < y2
    ensures var shown, pixel := AmplitudeAt(r, y1, y2, RowOf(r, y1, y2, a)), r.Width() as real / (y2 - y1) as real;
            Clamp(r, a) as real - pixel - 0.5 < shown as real && shown <= Clamp(r, a) + 1
  {
    var k := RowBounds(r, y1, y2, a);
    AmplitudeNear(r, y1, y2, k, Clamp(r, a));
  }

  /** The row of a sample, measured in counts above amin: short of the sample by less than a pixel. */
  lemma RowBounds(r: Range, y1: int, y2: int, a: int) returns (k: int)
    requires r.Usable() && y1 < y2
    ensures RowOf(r, y1, y2, a) == y1 + k
    ensures CloseRow(k, r.Width(), y2 - y1, Clamp(r, a) - r.amin)
  {
    var h, w, c := y2 - y1, r.Width(), Clamp(r, a) - r.amin;
    RowOfIsRows(r, y1, y2, a);
    DivBounds(h * c, w);
    k := Rows(c, w, h);
    RatioBounds(k, w, h, c);
  }

  predicate CloseRow(k: int, w: int, h: int, c: int)
    requires h > 0
  {
    c as real - w as real / h as real < Proportion(k as real, w as real, h as real) <= c as real
  }

  /** The amplitude shown for a row that is close to amplitude a. */
  lemma AmplitudeNear(r: Range, y1: int, y2: int, k: int, a: int)
    requires r.Usable() && y1 < y2 && CloseRow(k, r.Width(), y2 - y1, a - r.amin)
    ensures var shown, pixel := AmplitudeAt(r, y1, y2, y1 + k), r.Width() as real / (y2 - y1) as real;
            a as real - pixel - 0.5 < shown as real && shown <= a + 1
  {
    TruncationError(Proportion(k as real, r.Width() as real, (y2 - y1) as real) + r.amin as real + 0.5);
  }

  lemma TruncationError(x: real)
    ensures x - 1.0 < CToInt(x) as real < x + 1.0
    ensures x >= 0.0 ==> CToInt(x) as real <= x
    ensures x <= 0.0 ==> x <= CToInt(x) as real
  {
  }

  lemma IntProduct(a: int, b: int)
    ensures a as real * b as real == (a * b) as real
  {
  }

  lemma DivReal(a: real, d: real)
    requires d > 0.0
    ensures (a / d) * d == a
    ensures a > 0.0 ==> a / d > 0.0
    ensures a >= 0.0 ==> a / d >= 0.0
  {
  }

  lemma RatioBounds(row: int, w: int, h: int, c: int)
    requires h > 0 && w > 0 && h * c - w < w * row <= h * c
    ensures var v := row as real * w as real / h as real;
            c as real - w as real / h as real < v <= c as real
    ensures w as real / h as real > 0.0
  {
    var rh := h as real;
    IntProduct(row, w);
    IntProduct(h, c);
    assert row * w == w * row;
    DivReal(w as real, rh);
    Scale((row * w) as real, rh, c as real);
    Scale((h * c - w) as real, rh, c as real);
    Ordered((h * c - w) as real, (row * w) as real, rh);
    Ordered((row * w) as real, (h * c) as real, rh);
    Split((h * c) as real, w as real, rh);
    Scale((h * c) as real, rh, c as real);
  }

  lemma Scale(a: real, d: real, c: real)
    requires d > 0.0
    ensures a == d * c ==> a / d == c
  {
  }

  lemma Ordered(a: real, b: real, d: real)
    requires d > 0.0
    ensures a < b ==> a / d < b / d
    ensures a <= b ==> a / d <= b / d
  {
    DivReal(b - a, d);
    Split(b, a, d);
  }

  lemma Split(a: real, b: real, d: real)
    requires d > 0.0
    ensures (a - b) / d == a / d - b / d
  {
  }

  /** What drawing rounds away of a sample, in parts of a row of which the range width makes a whole one. */
  function Remainder(r: Range, y1: int, y2: int, a: int): (rem: int)
    requires r.Usable()
    ensures 0 <= rem < r.Width()
  {
    (y2 - y1) * (Clamp(r, a) - r.amin) % r.Width()
  }

  /** The amplitude shown for the row of a sample, before and after truncation. */
  lemma ShownForRow(r: Range, y1: int, y2: int, a: int)
    requires r.Usable() && y1 < y2
    ensures AmplitudeAt(r, y1, y2, RowOf(r, y1, y2, a))
         == CToInt(Clamp(r, a) as real - Remainder(r, y1, y2, a) as real / (y2 - y1) as real + 0.5)
  {
    var h, w, c := y2 - y1, r.Width(), Clamp(r, a) - r.amin;
    RowOfIsRows(r, y1, y2, a);
    RowsRest(c, w, h);
  }

  lemma RowsRest(c: int, w: int, h: int)
    requires w > 0 && h > 0
    ensures Proportion(Rows(c, w, h) as real, w as real, h as real) == c as real - (h * c % w) as real / h as real
  {
    var k, rem := Rows(c, w, h), h * c % w;
    assert k * w == h * c - rem;
    IntProduct(k, w);
    IntProduct(h, c);
    Split((h * c) as real, rem as real, h as real);
    Scale((h * c) as real, h as real, c as real);
  }

  /** Rounding by adding a half and truncating toward zero, of an integer less a fraction rem / h. */
  lemma HalfUp(n: int, rem: int, h: int, e: real)
    requires h > 0 && rem >= 0 && e == rem as real / h as real
    ensures CToInt(n as real - e + 0.5) == n
       <==> if n > 0 then 2 * rem <= h else if n == 0 then 2 * rem < 3 * h else h <= 2 * rem < 3 * h
  {
    assert e * h as real == rem as real;
    Compare(e, h, rem, 1);
    Compare(e, h, rem, 3);
  }

  lemma Compare(e: real, h: int, rem: int, k: int)
    requires h > 0 && e * h as real == rem as real
    ensures 2.0 * e <= k as real <==> 2 * rem <= k * h
    ensures 2.0 * e < k as real <==> 2 * rem < k * h
  {
    IntProduct(k, h);
    var d := k as real - 2.0 * e;
    assert d * h as real == (k * h - 2 * rem) as real;
    Signs(d, h as real);
  }

  lemma Signs(d: real, h: real)
    requires h > 0.0
    ensures d >= 0.0 <==> d * h >= 0.0
    ensures d > 0.0 <==> d * h > 0.0
  {}

  /** When the amplitude read back from the row of a drawn sample is that of the sample, clamped to the range: for
      every range, height and sample, a matter of what drawing rounds away. A negative amplitude comes back right only
      if at least half a row was rounded away. */
  lemma ReadBackIsExactIff(r: Range, y1: int, y2: int, a: int)
    requires r.Usable() && y1 < y2
    ensures var n, h, rem := Clamp(r, a), y2 - y1, Remainder(r, y1, y2, a);
      AmplitudeAt(r, y1, y2, RowOf(r, y1, y2, a)) == n
      <==> if n > 0 then 2 * rem <= h else if n == 0 then 2 * rem < 3 * h else h <= 2 * rem < 3 * h
  {
    var rem := Remainder(r, y1, y2, a);
    ShownForRow(r, y1, y2, a);
    HalfUp(Clamp(r, a), rem, y2 - y1, rem as real / (y2 - y1) as real);
  }

  /** Where a count is a whole number of rows nothing is rounded away: amplitudes from 0 up come back right, and every
      negative one a count too high. */
  lemma WholeRowsReadBack(r: Range, y1: int, y2: int, a: int)
    requires r.Usable() && y1 < y2 && (y2 - y1) % r.Width() == 0
    ensures AmplitudeAt(r, y1, y2, RowOf(r, y1, y2, a)) == Clamp(r, a) + (if Clamp(r, a) < 0 then 1 else 0)
  {
    ShownForRow(r, y1, y2, a);
    NothingRoundedAway(y2 - y1, Clamp(r, a) - r.amin, r.Width());
  }

  lemma NothingRoundedAway(h: int, c: int, w: int)
    requires w > 0 && h % w == 0
    ensures h * c % w == 0
  {
    var k := h / w;
    assert h == w * k;
    assert h * c == w * (k * c);
    Quotient(k * c, w);
  }

  /** A sample shown right below zero and one shown wrong above: -1 of -2..2 on two rows, and 1 of 0..3 on two. */
  lemma CoarseRowsReadBack()
    ensures AmplitudeAt(Range(-2, 2), 0, 2, RowOf(Range(-2, 2), 0, 2, -1)) == -1
    ensures AmplitudeAt(Range(0, 3), 0, 2, RowOf(Range(0, 3), 0, 2, 1)) != 1
  {
    ReadBackIsExactIff(Range(-2, 2), 0, 2, -1);
    ReadBackIsExactIff(Range(0, 3), 0, 2, 1);
  }

  // ---- times to columns and back ----

  /** DrawWindow: the column of time t. */
  function ColumnOf(t1: real, t2: real, x1: int, x2: int, t: real): int
    requires t1 != t2
  {
    CToInt(Proportion(t - t1, (x2 - x1) as real, t2 - t1) + x1 as real)
  }

  /** mouseMoveEvent: the time shown for a column. */
  function TimeAt(t1: real, t2: real, x1: int, x2: int, x: int): real
    requires x1 != x2
  {
    Proportion((x - x1) as real, t2 - t1, (x2 - x1) as real) + t1
  }

  /** A time in view is drawn inside the plot area, and the time read back from its column is at most one
      pixel's worth of time earlier. */
  lemma ColumnReadBack(t1: real, t2: real, x1: int, x2: int, t: real)
    requires t1 < t2 && 0 <= x1 < x2 && t1 <= t <= t2
    ensures var x := ColumnOf(t1, t2, x1, x2, t);
            && x1 <= x <= x2
            && t - (t2 - t1) / (x2 - x1) as real < TimeAt(t1, t2, x1, x2, x) <= t
  {
    var n := ColumnCount(t1, t2, x1, x2, t);
  }

  /** The ends of the view are drawn on the edges of the plot. */
  lemma ColumnsAtEnds(t1: real, t2: real, x1: int, x2: int)
    requires t1 < t2 && 0 <= x1 <= x2
    ensures ColumnOf(t1, t2, x1, x2, t1) == x1 && ColumnOf(t1, t2, x1, x2, t2) == x2
    ensures x1 < x2 ==> TimeAt(t1, t2, x1, x2, x1) == t1 && TimeAt(t1, t2, x1, x2, x2) == t2
  {
    var w, t := (x2 - x1) as real, t2 - t1;
    Scale(t * w, t, w);
    assert Proportion(t, w, t) == w && w + x1 as real == x2 as real;
    assert Proportion(t1 - t1, w, t) == 0.0;
    if x1 < x2 {
      Scale((x2 - x1) as real * (t2 - t1), (x2 - x1) as real, t2 - t1);
    }
  }

  /** The column of a time, counted from the left edge, and the time that many pixels stand for. */
  lemma ColumnCount(t1: real, t2: real, x1: int, x2: int, t: real) returns (n: int)
    requires t1 < t2 && 0 <= x1 < x2 && t1 <= t <= t2
    ensures ColumnOf(t1, t2, x1, x2, t) == x1 + n && 0 <= n <= x2 - x1
    ensures t - t1 - (t2 - t1) / (x2 - x1) as real < Proportion(n as real, t2 - t1, (x2 - x1) as real) <= t - t1
  {
    var c := ColumnBounds(t - t1, (x2 - x1) as real, t2 - t1);
    n := c.Floor;
    assert ColumnOf(t1, t2, x1, x2, t) == CToInt(c + x1 as real);
    FloorShift(c, x1);
    BackToTime(t - t1, (x2 - x1) as real, t2 - t1, c, n as real);
  }

  lemma FloorShift(c: real, n: int)
    requires c >= 0.0 && n >= 0
    ensures CToInt(c + n as real) == c.Floor + n
  {
  }

  lemma ColumnBounds(s: real, h: real, span: real) returns (c: real)
    requires 0.0 <= s <= span && span > 0.0 && h > 0.0
    ensures c == Proportion(s, h, span) && 0.0 <= c <= h
  {
    c := s * h / span;
    ProductMono(0.0, s, h);
    ProductMono(s, span, h);
    Ordered(0.0, s * h, span);
    Ordered(s * h, span * h, span);
    Scale(span * h, span, h);
  }

  lemma ProductMono(a: real, b: real, c: real)
    requires a <= b && c > 0.0
    ensures a * c <= b * c
  {
  }

  /** n pixels, each worth span / h. */
  lemma PixelWorth(n: real, span: real, h: real)
    requires h > 0.0
    ensures Proportion(n, span, h) == n * (span / h)
  {
  }

  lemma ColumnWorth(s: real, h: real, span: real, c: real)
    requires h > 0.0 && span > 0.0 && c == Proportion(s, h, span)
    ensures c * (span / h) == s
  {
    var u := span / h;
    assert c * span == s * h;
    assert u * h == span;
    assert c * u * h == c * span;
    assert (c * u - s) * h == 0.0;
  }

  lemma Within(c: real, n: real, u: real, s: real, t: real)
    requires u > 0.0 && c - 1.0 < n <= c && s == c * u && t == n * u
    ensures s - u < t <= s
  {
    var d := c - n;
    var e := 1.0 - d;
    assert d * u >= 0.0 && d * u == s - t;
    assert e * u > 0.0 && e * u == u - (s - t);
  }

  lemma BackToTime(s: real, h: real, span: real, c: real, n: real)
    requires h > 0.0 && span > 0.0 && c == Proportion(s, h, span) && c - 1.0 < n <= c
    ensures s - span / h < Proportion(n, span, h) <= s
  {
    DivReal(span, h);
    PixelWorth(n, span, h);
    ColumnWorth(s, h, span, c);
    Within(c, n, span / h, s, Proportion(n, span, h));
  }
}
