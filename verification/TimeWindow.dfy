/** The buffered time window of the display and the view inside it. */
module TimeWindow {

  /** nDisplayedTime, nBufferedTime, nDelay. */
  datatype Config = Config(displayed: int, buffered: int, delay: int)

  /** The fields t1, t2 (view) and tB1, tB2 (buffer). */
  datatype Window = Window(t1: real, t2: real, tB1: real, tB2: real)

  /** SetTime, when the clock shows clock. */
  function SetTime(c: Config, w: Window, clock: int): Window {
    var now := clock as real - c.delay as real;
    var (t1, t2) :=
      if w.t2 >= w.tB2 then (now - c.displayed as real, now)
      else if w.tB1 >= w.t1 then (now - c.buffered as real, c.displayed as real + (now - c.buffered as real))
      else (w.t1, w.t2);
    Window(t1, t2, now - c.buffered as real, now)
  }

  /** The preview's mousePressEvent: centre the view on the time under the mouse, inside the buffer. */
  function Click(c: Config, w: Window, x: int, x1: int, x2: int): Window
    requires x1 != x2
  {
    Centre(c, w, TimeUnder(w.tB1, w.tB2, x, x1, x2))
  }

  /** The buffered time under column x of the preview, whose plot runs from x1 to x2. */
  function TimeUnder(tB1: real, tB2: real, x: int, x1: int, x2: int): real
    requires x1 != x2
  {
    (x - x1) as real * (tB2 - tB1) / (x2 - x1) as real + tB1
  }

  function Centre(c: Config, w: Window, ttt: real): Window {
    var d := c.displayed as real;
    var a := w.(t1 := (ttt - d / 2.0).Floor as real, t2 := (ttt - d / 2.0).Floor as real + d);
    var b := if a.t2 > w.tB2 then a.(t1 := w.tB2 - d, t2 := w.tB2) else a;
    if b.t1 < w.tB1 then b.(t1 := w.tB1, t2 := w.tB1 + d) else b
  }

  predicate Sensible(c: Config) {
    0 <= c.displayed <= c.buffered
  }

  // ---- kinds of view ----

  predicate Live(w: Window) {
    w.t2 >= w.tB2
  }

  /** At or behind the left end of the buffer. */
  predicate Pinned(w: Window) {
    !Live(w) && w.t1 <= w.tB1
  }

  predicate Frozen(w: Window) {
    !Live(w) && w.t1 > w.tB1
  }

  /** The view starts before the buffer does. */
  predicate Behind(w: Window) {
    w.t1 < w.tB1
  }

  /** View and buffer have their configured widths, and the view never runs ahead of the buffer. */
  predicate Shaped(c: Config, w: Window) {
    && w.t2 == w.t1 + c.displayed as real
    && w.tB2 == w.tB1 + c.buffered as real
    && w.t2 <= w.tB2
  }

  // ---- one step ----

  predicate ClockOk(c: Config, w: Window, clock: int) {
    clock as real - c.delay as real >= w.tB2
  }

  lemma TickFacts(c: Config, w: Window, clock: int)
    requires Sensible(c) && Shaped(c, w) && ClockOk(c, w, clock)
    ensures var v := SetTime(c, w, clock);
            && Shaped(c, v)
            && (Live(w) ==> Live(v) && !Behind(v))
            && (Pinned(w) ==> v.t1 == v.tB1)
            && (Behind(w) ==> v.t1 == v.tB1)
            && (Frozen(w) ==> v.t1 == w.t1 && v.t2 == w.t2 && !Live(v))
            && (Behind(v) ==> !Behind(w) && v.tB1 - v.t1 < v.tB1 - w.tB1)
  {
  }

  lemma ClickFacts(c: Config, w: Window, ttt: real)
    requires Sensible(c) && Shaped(c, w)
    ensures var v := Centre(c, w, ttt);
            Shaped(c, v) && !Behind(v) && v.tB1 == w.tB1 && v.tB2 == w.tB2
  {
  }

  /** Where the clamping lets it, the view is centred on the chosen time to within one second. */
  lemma ClickCentres(c: Config, w: Window, ttt: real)
    requires Sensible(c) && Shaped(c, w)
    requires w.tB1 + c.displayed as real / 2.0 + 1.0 <= ttt <= w.tB2 - c.displayed as real / 2.0
    ensures var v := Centre(c, w, ttt);
            ttt - 1.0 < v.t1 + c.displayed as real / 2.0 <= ttt
  {
  }

  // ---- the time under a column ----

  lemma Shares(a: real, b: real, w: real, t: real)
    requires w > 0.0 && t > 0.0 && a < b
    ensures a * t / w < b * t / w
  {
    Scales(a, b, t);
    assert a * t / w * w == a * t && b * t / w * w == b * t;
    if a * t / w >= b * t / w {
      Scales(b * t / w, a * t / w, w);
    }
  }

  lemma Scales(a: real, b: real, c: real)
    requires c > 0.0 && a <= b
    ensures a * c <= b * c && (a < b ==> a * c < b * c)
  {
    assert (b - a) * c >= 0.0 && (a < b ==> (b - a) * c > 0.0);
    assert (b - a) * c == b * c - a * c;
  }

  /** The left column of the plot is the start of the buffer and the right one its end; in between the time rises from
      column to column. */
  lemma ColumnsSpanBuffer(tB1: real, tB2: real, x1: int, x2: int)
    requires x1 < x2
    ensures TimeUnder(tB1, tB2, x1, x1, x2) == tB1 && TimeUnder(tB1, tB2, x2, x1, x2) == tB2
    ensures tB1 < tB2 ==> forall x, y | x < y :: TimeUnder(tB1, tB2, x, x1, x2) < TimeUnder(tB1, tB2, y, x1, x2)
  {
    var w, t := (x2 - x1) as real, tB2 - tB1;
    assert w * t / w == t;
    if tB1 < tB2 {
      forall x, y | x < y ensures TimeUnder(tB1, tB2, x, x1, x2) < TimeUnder(tB1, tB2, y, x1, x2) {
        Shares((x - x1) as real, (y - x1) as real, w, t);
      }
    }
  }

  function Between(t: real, lo: real, hi: real): real {
    if t > hi then (if hi < lo then lo else hi) else if t < lo then lo else t
  }

  lemma CentreIs(c: Config, w: Window, ttt: real)
    ensures var d := c.displayed as real;
            Centre(c, w, ttt).t1 == Between((ttt - d / 2.0).Floor as real, w.tB1, w.tB2 - d)
  {}

  /** A time further right never gives an earlier view. */
  lemma CentreAscends(c: Config, w: Window, t: real, u: real)
    requires t <= u
    ensures Centre(c, w, t).t1 <= Centre(c, w, u).t1
  {
    var half := c.displayed as real / 2.0;
    assert (t - half).Floor <= (u - half).Floor;
    CentreIs(c, w, t);
    CentreIs(c, w, u);
    BetweenAscends((t - half).Floor as real, (u - half).Floor as real, w.tB1, w.tB2 - c.displayed as real);
  }

  lemma BetweenAscends(t: real, u: real, lo: real, hi: real)
    requires t <= u
    ensures Between(t, lo, hi) <= Between(u, lo, hi)
  {}

  /** The times are whole seconds, as the clock's are, or the view is two seconds wide or more. */
  predicate Whole(c: Config, w: Window) {
    c.displayed >= 2 || w.tB2.Floor as real == w.tB2
  }

  lemma CentreWidth(c: Config, w: Window, ttt: real)
    ensures Centre(c, w, ttt).t2 == Centre(c, w, ttt).t1 + c.displayed as real
  {}

  lemma CentreAtStart(c: Config, w: Window)
    requires Sensible(c) && Shaped(c, w)
    ensures Centre(c, w, w.tB1).t1 == w.tB1
  {
    var half := c.displayed as real / 2.0;
    assert (w.tB1 - half).Floor as real <= w.tB1;
    CentreIs(c, w, w.tB1);
  }

  lemma CentreAtEnd(c: Config, w: Window)
    requires Sensible(c) && Shaped(c, w) && Whole(c, w)
    ensures Centre(c, w, w.tB2).t2 == w.tB2
  {
    FloorIsLate(w.tB2, c.displayed);
    CentreIs(c, w, w.tB2);
    CentreWidth(c, w, w.tB2);
  }

  lemma FloorIsLate(t: real, d: nat)
    requires d >= 2 || t.Floor as real == t
    ensures (t - d as real / 2.0).Floor as real >= t - d as real
  {
    if d < 2 {
      assert (t - 0.5).Floor == t.Floor - 1;
    }
  }

  /** A click on the left column shows the start of the buffer and one on the right column its end, and a column further
      right never gives an earlier view. */
  lemma ClicksFollowColumns(c: Config, w: Window, x1: int, x2: int)
    requires Sensible(c) && Shaped(c, w) && x1 < x2
    ensures Click(c, w, x1, x1, x2).t1 == w.tB1
    ensures Whole(c, w) ==> Click(c, w, x2, x1, x2).t2 == w.tB2
    ensures forall x, y | x <= y :: Click(c, w, x, x1, x2).t1 <= Click(c, w, y, x1, x2).t1
  {
    ColumnsSpanBuffer(w.tB1, w.tB2, x1, x2);
    CentreAtStart(c, w);
    if Whole(c, w) {
      CentreAtEnd(c, w);
    }
    forall x, y | x <= y ensures Click(c, w, x, x1, x2).t1 <= Click(c, w, y, x1, x2).t1 {
      ClickAscends(c, w, x, y, x1, x2);
    }
  }

  lemma ClickAscends(c: Config, w: Window, x: int, y: int, x1: int, x2: int)
    requires Sensible(c) && Shaped(c, w) && x1 < x2 && x <= y
    ensures Click(c, w, x, x1, x2).t1 <= Click(c, w, y, x1, x2).t1
  {
    ColumnsSpanBuffer(w.tB1, w.tB2, x1, x2);
    if w.tB1 == w.tB2 {
      assert w.tB2 - w.tB1 == 0.0;
    }
    CentreAscends(c, w, TimeUnder(w.tB1, w.tB2, x, x1, x2), TimeUnder(w.tB1, w.tB2, y, x1, x2));
  }

  // ---- runs ----

  datatype Event = Tick(clock: int) | Press(x: int, x1: int, x2: int)

  function Step(c: Config, w: Window, e: Event): Window {
    match e
    case Tick(clock) => SetTime(c, w, clock)
    case Press(x, x1, x2) => if x1 == x2 then w else Click(c, w, x, x1, x2)
  }

  function Run(c: Config, w: Window, es: seq<Event>): Window
    decreases |es|
  {
    if es == [] then w else Step(c, Run(c, w, es[..|es| - 1]), es[|es| - 1])
  }

  /** No tick of the run sets the clock back, and the preview has a width. */
  ghost predicate Monotone(c: Config, w: Window, es: seq<Event>)
    decreases |es|
  {
    es == []
    || (&& Monotone(c, w, es[..|es| - 1])
        && match es[|es| - 1]
           case Tick(clock) => ClockOk(c, Run(c, w, es[..|es| - 1]), clock)
           case Press(_, x1, x2) => x1 != x2)
  }

  lemma StepFacts(c: Config, w: Window, e: Event)
    requires Sensible(c) && Shaped(c, w)
    requires match e case Tick(clock) => ClockOk(c, w, clock) case Press(_, x1, x2) => x1 != x2
    ensures Shaped(c, Step(c, w, e))
    ensures e.Press? || Behind(w) ==> !Behind(Step(c, w, e))
  {
    match e
    case Tick(clock) => TickFacts(c, w, clock);
    case Press(x, x1, x2) => ClickFacts(c, w, TimeUnder(w.tB1, w.tB2, x, x1, x2));
  }

  /** Over every run from a live window the widths stay fixed, the view stays within the right end of the buffer,
      and it is behind the left end at most right after a tick that found it in place: never after two ticks in
      a row, and never after a click. */
  lemma {:induction false} RunsStayShaped(c: Config, w: Window, es: seq<Event>)
    requires Sensible(c) && Shaped(c, w) && Live(w) && Monotone(c, w, es)
    ensures Shaped(c, Run(c, w, es))
    ensures Behind(Run(c, w, es)) ==> es != [] && es[|es| - 1].Tick? && !Behind(Run(c, w, es[..|es| - 1]))
  {
    if es != [] {
      var n := |es| - 1;
      RunsStayShaped(c, w, es[..n]);
      StepFacts(c, Run(c, w, es[..n]), es[n]);
    }
  }

  // ---- what ticks alone do ----

  function Ticks(c: Config, w: Window, clocks: seq<int>): Window
    decreases |clocks|
  {
    if clocks == [] then w else SetTime(c, Ticks(c, w, clocks[..|clocks| - 1]), clocks[|clocks| - 1])
  }

  predicate Ascending(clocks: seq<int>) {
    forall i | 0 < i < |clocks| :: clocks[i - 1] <= clocks[i]
  }

  lemma TicksSetBuffer(c: Config, w: Window, clocks: seq<int>)
    requires clocks != []
    ensures Ticks(c, w, clocks).tB2 == clocks[|clocks| - 1] as real - c.delay as real
    ensures Ticks(c, w, clocks).tB1 == clocks[|clocks| - 1] as real - c.delay as real - c.buffered as real
  {
  }

  lemma {:induction false} TicksKeepShape(c: Config, w: Window, clocks: seq<int>)
    requires Sensible(c) && Shaped(c, w) && Ascending(clocks)
    requires clocks != [] ==> ClockOk(c, w, clocks[0])
    ensures Shaped(c, Ticks(c, w, clocks))
    ensures clocks != [] ==> ClockOk(c, Ticks(c, w, clocks[..|clocks| - 1]), clocks[|clocks| - 1])
  {
    if clocks != [] {
      var n := |clocks| - 1;
      TicksKeepShape(c, w, clocks[..n]);
      if n > 0 {
        TicksSetBuffer(c, w, clocks[..n]);
        assert clocks[n - 1] <= clocks[n];
      }
      TickFacts(c, Ticks(c, w, clocks[..n]), clocks[n]);
    }
  }

  /** A live view follows the clock for ever. */
  lemma {:induction false} LiveStaysLive(c: Config, w: Window, clocks: seq<int>)
    requires Sensible(c) && Shaped(c, w) && Live(w) && Ascending(clocks)
    requires clocks != [] ==> ClockOk(c, w, clocks[0])
    ensures Live(Ticks(c, w, clocks))
    ensures clocks != [] ==> Ticks(c, w, clocks).t2 == clocks[|clocks| - 1] as real - c.delay as real
  {
    if clocks != [] {
      var n := |clocks| - 1;
      LiveStaysLive(c, w, clocks[..n]);
      TicksKeepShape(c, w, clocks[..n]);
      TicksKeepShape(c, w, clocks);
      TickFacts(c, Ticks(c, w, clocks[..n]), clocks[n]);
    }
  }

  /** A view pinned to the left end moves with it for ever; it stays pinned as long as it is narrower than
      the buffer. */
  lemma {:induction false} PinnedStaysPinned(c: Config, w: Window, clocks: seq<int>)
    requires Sensible(c) && Shaped(c, w) && Pinned(w) && Ascending(clocks) && clocks != []
    requires ClockOk(c, w, clocks[0])
    ensures Ticks(c, w, clocks).t1 == Ticks(c, w, clocks).tB1
    ensures c.displayed < c.buffered ==> Pinned(Ticks(c, w, clocks))
  {
    var n := |clocks| - 1;
    TicksKeepShape(c, w, clocks);
    if n > 0 {
      PinnedStaysPinned(c, w, clocks[..n]);
      TicksKeepShape(c, w, clocks[..n]);
    }
    TickFacts(c, Ticks(c, w, clocks[..n]), clocks[n]);
  }

  /** A frozen view in closed form: it stands still until the left end of the buffer has reached it at some
      tick, and from the tick after that on it is pinned there. */
  lemma {:induction false} FrozenInClosedForm(c: Config, w: Window, clocks: seq<int>)
    requires Sensible(c) && Shaped(c, w) && Frozen(w) && Ascending(clocks) && clocks != []
    requires ClockOk(c, w, clocks[0]) && c.displayed < c.buffered
    ensures var n, v := |clocks| - 1, Ticks(c, w, clocks);
            && !Live(v)
            && if n > 0 && clocks[n - 1] as real - c.delay as real - c.buffered as real >= w.t1
               then v.t1 == v.tB1
               else v.t1 == w.t1
  {
    var n := |clocks| - 1;
    TicksKeepShape(c, w, clocks);
    if n > 0 {
      FrozenInClosedForm(c, w, clocks[..n]);
      TicksKeepShape(c, w, clocks[..n]);
      TicksSetBuffer(c, w, clocks[..n]);
      assert n > 1 ==> clocks[n - 2] <= clocks[n - 1];
      var u := Ticks(c, w, clocks[..n]);
      assert u.t1 <= u.tB1 <==> clocks[n - 1] as real - c.delay as real - c.buffered as real >= w.t1;
    }
    TickFacts(c, Ticks(c, w, clocks[..n]), clocks[n]);
  }

  /** So with a clock that advances every tick, a frozen view is pinned within as many ticks as it is seconds
      ahead of the buffer, rounded up, and one more. */
  lemma FrozenGetsPinned(c: Config, w: Window, clocks: seq<int>)
    requires Sensible(c) && Shaped(c, w) && Frozen(w) && c.displayed < c.buffered
    requires forall i | 0 < i < |clocks| :: clocks[i - 1] < clocks[i]
    requires clocks != [] && ClockOk(c, w, clocks[0]) && clocks[0] as real - c.delay as real > w.tB2
    requires |clocks| as real >= w.t1 - w.tB1 + 2.0
    ensures Pinned(Ticks(c, w, clocks)) && !Behind(Ticks(c, w, clocks))
  {
    var n := |clocks| - 1;
    Advance(clocks, n - 1);
    FrozenInClosedForm(c, w, clocks);
  }

  lemma {:induction false} Advance(clocks: seq<int>, i: nat)
    requires i < |clocks| && forall i | 0 < i < |clocks| :: clocks[i - 1] < clocks[i]
    ensures clocks[i] >= clocks[0] + i
  {
    if i > 0 {
      Advance(clocks, i - 1);
    }
  }
}
