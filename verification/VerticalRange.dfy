/** The amplitude range of one trace window, and the operations that move it. */
module VerticalRange {
  import opened CLib

  datatype Range = Range(amin: int, amax: int) {
    function Width(): int {
      amax - amin
    }

    predicate Usable() {
      Width() >= 2
    }

    function Mid(): int {
      CDiv(amax + amin, 2)
    }
  }

  /** The range of a new window. */
  const INITIAL := Range(-3000, 3000)

  function Around(mid: int, delta: int): Range {
    Range(mid - delta, mid + delta)
  }

  function Expand(r: Range): Range {
    var s := Around(r.Mid(), CDiv(CDiv(r.Width(), 2), 2));
    if s.amax == s.amin then Range(s.amin - 1, s.amax + 1) else s
  }

  function Contract(r: Range): Range {
    var delta := CDiv(r.Width(), 2) * 2;
    Around(r.Mid(), if delta == 0 then 1 else delta)
  }

  function Shift(r: Range, up: bool): Range {
    var delta := CDiv(r.Width(), 2);
    var step := if CDiv(delta, 5) == 0 then 1 else CDiv(delta, 5);
    Around(if up then r.Mid() + step else r.Mid() - step, delta)
  }

  // ---- autoscale ----

  /** One block of samples: beg is the time of the first, sint the sample interval. */
  datatype Block = Block(beg: real, end: real, sint: real, data: seq<int>)

  /** The window an autoscale looks at: the view for type 0, everything for type 1. */
  datatype Scope = View(t1: real, t2: real) | All

  function TimeOf(b: Block, k: nat): real {
    b.beg + b.sint * k as real
  }

  /** The samples from k on that the scan of a block uses: it skips those before t1, stops at one after t2. */
  function Scan(b: Block, k: nat, scope: Scope): seq<int>
    requires k <= |b.data|
    decreases |b.data| - k
  {
    if k == |b.data| then []
    else if scope.View? && TimeOf(b, k) < scope.t1 then Scan(b, k + 1, scope)
    else if scope.View? && TimeOf(b, k) > scope.t2 then []
    else [b.data[k]] + Scan(b, k + 1, scope)
  }

  function ScanAll(blocks: seq<Block>, scope: Scope): seq<int> {
    if blocks == [] then [] else ScanAll(blocks[..|blocks| - 1], scope) + Scan(blocks[|blocks| - 1], 0, scope)
  }

  lemma ScanAllSnoc(blocks: seq<Block>, n: nat, scope: Scope)
    requires n < |blocks|
    ensures ScanAll(blocks[..n + 1], scope) == ScanAll(blocks[..n], scope) + Scan(blocks[n], 0, scope)
  {
    assert blocks[..n + 1][..n] == blocks[..n];
  }

  predicate InScope(scope: Scope, t: real) {
    scope.All? || scope.t1 <= t <= scope.t2
  }

  /** The samples of a block, from k on, whose time is in scope. */
  function Visible(b: Block, k: nat, scope: Scope): seq<int>
    requires k <= |b.data|
    decreases |b.data| - k
  {
    if k == |b.data| then []
    else (if InScope(scope, TimeOf(b, k)) then [b.data[k]] else []) + Visible(b, k + 1, scope)
  }

  lemma {:induction false} NothingAfter(b: Block, k: nat, scope: Scope)
    requires k <= |b.data| && b.sint >= 0.0 && scope.View?
    requires k < |b.data| ==> TimeOf(b, k) > scope.t2
    ensures Visible(b, k, scope) == []
    decreases |b.data| - k
  {
    if k < |b.data| {
      assert b.sint * (k + 1) as real >= b.sint * k as real by {
        assert b.sint * (k + 1) as real == b.sint * k as real + b.sint;
      }
      NothingAfter(b, k + 1, scope);
    }
  }

  /** The first sample is at the start of the block, and each later one a sample interval behind the one before it. */
  lemma SamplesAreSpaced(b: Block, k: nat)
    ensures TimeOf(b, 0) == b.beg && TimeOf(b, k + 1) == TimeOf(b, k) + b.sint
  {
    assert b.sint * (k + 1) as real == b.sint * k as real + b.sint;
  }

  /** Stopping early loses nothing: with a sample interval that is not negative the scan sees exactly the
      samples in scope. */
  lemma {:induction false} ScanIsVisible(b: Block, k: nat, scope: Scope)
    requires k <= |b.data| && b.sint >= 0.0 && (scope.View? ==> scope.t1 <= scope.t2)
    ensures Scan(b, k, scope) == Visible(b, k, scope)
    decreases |b.data| - k
  {
    if k < |b.data| {
      ScanIsVisible(b, k + 1, scope);
      if scope.View? && TimeOf(b, k) > scope.t2 {
        NothingAfter(b, k, scope);
      }
    }
  }

  /** The locals bfirstcount, amin, amax of an autoscale. */
  datatype Acc = Acc(first: bool, lo: int, hi: int)

  /** One sample: the first one sets the range, the others widen it. */
  function Feed(c: Acc, a: int): Acc {
    if c.first then Acc(false, a - 1, a + 1)
    else Acc(false, if a < c.lo then a else c.lo, if a > c.hi then a else c.hi)
  }

  function FeedAll(c: Acc, s: seq<int>): Acc
    decreases |s|
  {
    if s == [] then c else FeedAll(Feed(c, s[0]), s[1..])
  }

  lemma {:induction false} FeedConcat(c: Acc, s: seq<int>, t: seq<int>)
    ensures FeedAll(c, s + t) == FeedAll(FeedAll(c, s), t)
    decreases |s|
  {
    if s == [] {
      assert s + t == t;
    } else {
      FeedConcat(Feed(c, s[0]), s[1..], t);
      assert (s + t)[0] == s[0] && (s + t)[1..] == s[1..] + t;
    }
  }

  /** The range an autoscale of r has reached after the samples s. */
  function Running(r: Range, s: seq<int>): Range {
    var c := FeedAll(Acc(true, r.amin, r.amax), s);
    Range(c.lo, c.hi)
  }

  function Autoscale(r: Range, blocks: seq<Block>, scope: Scope): Range {
    var s := Running(r, ScanAll(blocks, scope));
    if s.amax == s.amin then Range(s.amin - 1, s.amax + 1) else s
  }

  /** The range fits the samples: it holds them all, and each end is an extreme or one off the first sample. */
  ghost predicate Fits(r: Range, s: seq<int>)
    requires s != []
  {
    && (forall i | 0 <= i < |s| :: r.amin <= s[i] <= r.amax)
    && r.amin < s[0] < r.amax
    && (r.amax == s[0] + 1 || r.amax in s)
    && (r.amin == s[0] - 1 || r.amin in s)
  }

  lemma {:induction false} RunningFits(r: Range, s: seq<int>)
    requires s != []
    ensures !FeedAll(Acc(true, r.amin, r.amax), s).first && Fits(Running(r, s), s)
  {
    var n := |s| - 1;
    assert s == s[..n] + [s[n]];
    FeedConcat(Acc(true, r.amin, r.amax), s[..n], [s[n]]);
    if n > 0 {
      RunningFits(r, s[..n]);
    } else {
      assert s[..n] == [];
    }
    assert [s[n]][1..] == [];
  }

  /** Autoscale fits the scanned samples whenever there are any; otherwise a usable range stays. */
  lemma AutoscaleFits(r: Range, blocks: seq<Block>, scope: Scope)
    ensures ScanAll(blocks, scope) != [] ==> Fits(Autoscale(r, blocks, scope), ScanAll(blocks, scope))
    ensures ScanAll(blocks, scope) == [] && r.Usable() ==> Autoscale(r, blocks, scope) == r
    ensures ScanAll(blocks, scope) == [] && r.Width() == 0 ==>
              Autoscale(r, blocks, scope) == Range(r.amin - 1, r.amax + 1)
    ensures r.Usable() ==> Autoscale(r, blocks, scope).Usable()
  {
    if ScanAll(blocks, scope) != [] {
      RunningFits(r, ScanAll(blocks, scope));
    }
  }

  // ---- every reachable range ----

  datatype Op = DoAutoscale(blocks: seq<Block>, scope: Scope) | DoExpand | DoContract | DoShift(up: bool)

  function Apply(r: Range, op: Op): Range {
    match op
    case DoAutoscale(blocks, scope) => Autoscale(r, blocks, scope)
    case DoExpand => Expand(r)
    case DoContract => Contract(r)
    case DoShift(up) => Shift(r, up)
  }

  function ApplyAll(r: Range, ops: seq<Op>): Range
    decreases |ops|
  {
    if ops == [] then r else Apply(ApplyAll(r, ops[..|ops| - 1]), ops[|ops| - 1])
  }

  /** One operation after any others. */
  lemma NextOperation(r: Range, ops: seq<Op>, blocks: seq<Block>, scope: Scope, up: bool)
    ensures ApplyAll(r, ops + [DoAutoscale(blocks, scope)]) == Autoscale(ApplyAll(r, ops), blocks, scope)
    ensures ApplyAll(r, ops + [DoExpand]) == Expand(ApplyAll(r, ops))
    ensures ApplyAll(r, ops + [DoContract]) == Contract(ApplyAll(r, ops))
    ensures ApplyAll(r, ops + [DoShift(up)]) == Shift(ApplyAll(r, ops), up)
  {
    LastApplies(r, ops, DoAutoscale(blocks, scope));
    LastApplies(r, ops, DoExpand);
    LastApplies(r, ops, DoContract);
    LastApplies(r, ops, DoShift(up));
  }

  lemma LastApplies(r: Range, ops: seq<Op>, op: Op)
    ensures ApplyAll(r, ops + [op]) == Apply(ApplyAll(r, ops), op)
  {
    assert (ops + [op])[..|ops|] == ops;
  }

  lemma AroundIsEven(mid: int, half: int)
    ensures Around(mid, half).Width() == 2 * half
  {}

  lemma HalvesAre(w: int)
    requires w >= 2
    ensures CDiv(w, 2) >= 1 && CDiv(CDiv(w, 2), 2) >= 0
  {}

  lemma ExpandKeepsUsable(r: Range)
    requires r.Usable()
    ensures Expand(r).Usable() && Expand(r).Width() % 2 == 0
  {
    var half := CDiv(CDiv(r.Width(), 2), 2);
    HalvesAre(r.Width());
    AroundIsEven(r.Mid(), half);
  }

  lemma ContractKeepsUsable(r: Range)
    requires r.Usable()
    ensures Contract(r).Usable() && Contract(r).Width() % 2 == 0
  {
    var delta := CDiv(r.Width(), 2) * 2;
    HalvesAre(r.Width());
    AroundIsEven(r.Mid(), delta);
  }

  lemma ShiftKeepsUsable(r: Range, up: bool)
    requires r.Usable()
    ensures Shift(r, up).Usable() && Shift(r, up).Width() % 2 == 0
  {
    var delta := CDiv(r.Width(), 2);
    var step := if CDiv(delta, 5) == 0 then 1 else CDiv(delta, 5);
    AroundIsEven(if up then r.Mid() + step else r.Mid() - step, delta);
  }

  lemma ApplyKeepsUsable(r: Range, op: Op)
    requires r.Usable()
    ensures Apply(r, op).Usable()
    ensures !op.DoAutoscale? ==> Apply(r, op).Width() % 2 == 0
  {
    match op
    case DoAutoscale(blocks, scope) => AutoscaleFits(r, blocks, scope);
    case DoExpand => ExpandKeepsUsable(r);
    case DoContract => ContractKeepsUsable(r);
    case DoShift(up) => ShiftKeepsUsable(r, up);
  }

  /** No run of operations from the initial range ever leaves a width below 2, so the divisions by the width
      in the drawing code are by a positive number; and once a window was zoomed or shifted, its width stays
      even until the next autoscale. */
  lemma {:induction false} ReachableRangesAreUsable(ops: seq<Op>)
    ensures ApplyAll(INITIAL, ops).Usable()
    ensures (forall i | 0 <= i < |ops| :: !ops[i].DoAutoscale?) ==> ApplyAll(INITIAL, ops).Width() % 2 == 0
  {
    if ops != [] {
      ReachableRangesAreUsable(ops[..|ops| - 1]);
      ApplyKeepsUsable(ApplyAll(INITIAL, ops[..|ops| - 1]), ops[|ops| - 1]);
    }
  }

  lemma HalfEven(x: int)
    requires x % 2 == 0
    ensures CDiv(x, 2) * 2 == x
  {
  }

  /** Expanding undoes contracting exactly on even widths. */
  lemma ExpandAfterContract(r: Range)
    requires r.Usable()
    ensures Expand(Contract(r)) == r <==> r.Width() % 2 == 0
  {
    if r.Width() % 2 == 0 {
      assert r.amax + r.amin == r.Width() + 2 * r.amin;
      HalfEven(r.amax + r.amin);
    }
  }

  lemma HalvesOfDouble(x: int)
    ensures CDiv(2 * x, 2) == x
  {}

  lemma FourthsReturn(a: int, k: nat)
    requires k > 0
    ensures Contract(Expand(Range(a, a + 4 * k))) == Range(a, a + 4 * k)
  {
    HalvesOfDouble(a + 2 * k);
    HalvesOfDouble(2 * k);
    HalvesOfDouble(k);
    assert a + 4 * k + a == 2 * (a + 2 * k) && a + 3 * k + (a + k) == 2 * (a + 2 * k);
    assert Expand(Range(a, a + 4 * k)) == Range(a + k, a + 3 * k);
  }

  /** Contracting undoes expanding exactly on widths divisible by four. */
  lemma ContractAfterExpand(r: Range)
    requires r.Usable()
    ensures Contract(Expand(r)) == r <==> r.Width() % 4 == 0
  {
    if r.Width() % 4 == 0 {
      var k := r.Width() / 4;
      assert r == Range(r.amin, r.amin + 4 * k);
      FourthsReturn(r.amin, k);
    } else {
      ZoomWidths(r);
      ZoomWidths(Expand(r));
    }
  }

  /** Shifting up and down cancel exactly on even widths. */
  lemma ShiftsCancel(r: Range, up: bool)
    requires r.Usable()
    ensures Shift(Shift(r, up), !up) == r <==> r.Width() % 2 == 0
  {
    if r.Width() % 2 == 0 {
      assert r.amax + r.amin == r.Width() + 2 * r.amin;
      HalfEven(r.amax + r.amin);
    }
  }

  /** What zooming does to the width: expanding halves it, rounding down to a multiple of two but not below two;
      contracting doubles it, after rounding down to a multiple of two. */
  lemma ZoomWidths(r: Range)
    requires r.Usable()
    ensures Expand(r).Width() == if r.Width() < 4 then 2 else 2 * (r.Width() / 4)
    ensures Contract(r).Width() == 4 * (r.Width() / 2)
  {}

  /** Zooming keeps the centre; of a range of odd width it moves half a count toward zero. */
  lemma ZoomsKeepCentre(r: Range)
    requires r.Usable()
    ensures var sum := r.amin + r.amax;
            var centred := if r.Width() % 2 == 0 then sum else if sum > 0 then sum - 1 else sum + 1;
            && Expand(r).amin + Expand(r).amax == centred
            && Contract(r).amin + Contract(r).amax == centred
  {
    var sum := r.amin + r.amax;
    assert r.Width() % 2 == sum % 2 by {
      assert sum == r.Width() + 2 * r.amin;
    }
    TwiceHalf(sum);
  }

  lemma TwiceHalf(x: int)
    ensures 2 * CDiv(x, 2) == if x % 2 == 0 then x else if x > 0 then x - 1 else x + 1
  {}

  /** A shift leaves the width but makes it even, and moves the centre, rounded as in zooming, by a fifth of half the
      width, at least one count. */
  lemma ShiftOfAny(r: Range, up: bool)
    requires r.Usable()
    ensures Shift(r, up).Width() == r.Width() / 2 * 2
    ensures var step := if r.Width() < 10 then 1 else r.Width() / 10;
      Shift(r, up).amin + Shift(r, up).amax == Expand(r).amin + Expand(r).amax + (if up then 2 * step else -2 * step)
  {
    var delta := CDiv(r.Width(), 2);
    assert CDiv(delta, 5) == r.Width() / 10;
    AroundSum(r.Mid(), CDiv(CDiv(r.Width(), 2), 2));
  }

  lemma AroundSum(mid: int, delta: int)
    ensures Around(mid, delta).amin + Around(mid, delta).amax == 2 * mid
  {}

  /** A shift moves both ends of an even range by a tenth of its width, at least one count, the way it is asked. */
  lemma ShiftMovesBothEnds(r: Range, up: bool)
    requires r.Usable() && r.Width() % 2 == 0
    ensures var step := if r.Width() < 10 then 1 else r.Width() / 10;
      Shift(r, up) == if up then Range(r.amin + step, r.amax + step) else Range(r.amin - step, r.amax - step)
  {
    assert r.amax + r.amin == r.Width() + 2 * r.amin;
    HalfEven(r.amax + r.amin);
  }

  function Contracts(r: Range, n: nat): Range {
    if n == 0 then r else Contract(Contracts(r, n - 1))
  }

  function Expands(r: Range, n: nat): Range
    decreases n
  {
    if n == 0 then r else Expands(Expand(r), n - 1)
  }

  lemma ContractDoubles(r: Range)
    requires r.Usable() && r.Width() % 2 == 0
    ensures Contract(r).Usable() && Contract(r).Width() == 2 * r.Width()
  {
  }

  /** Any number of contractions is undone by as many expansions. */
  lemma {:induction false} ZoomOutAndBack(r: Range, n: nat)
    requires r.Usable() && r.Width() % 2 == 0
    ensures Expands(Contracts(r, n), n) == r
    ensures Contracts(r, n).Usable() && Contracts(r, n).Width() % 2 == 0
  {
    if n > 0 {
      ZoomOutAndBack(r, n - 1);
      ContractDoubles(Contracts(r, n - 1));
      ExpandAfterContract(Contracts(r, n - 1));
    }
  }
}
