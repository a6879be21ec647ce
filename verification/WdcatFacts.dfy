/** What wdcat's merge preserves: samples, extents, timing, and its own result. */
module WdcatFacts {
  import opened CLib
  import opened Cssio
  import opened Sorting
  import opened Grouping
  import opened WdcatOrder
  import opened Wdcat

  function Offset(fs: FileSystem, gs: seq<seq<Wfdisc>>, k: nat): nat
    requires k <= |gs|
  {
    |Bytes(fs, Flatten(gs[..k]))|
  }

  /** The runs' byte extents tile the new file in order, and each holds exactly its run's bytes. */
  lemma ExtentsTile(fs: FileSystem, gs: seq<seq<Wfdisc>>, k: nat)
    requires k < |gs|
    ensures Offset(fs, gs, 0) == 0 && Offset(fs, gs, |gs|) == |Bytes(fs, Flatten(gs))|
    ensures Offset(fs, gs, k) <= Offset(fs, gs, k + 1) <= |Bytes(fs, Flatten(gs))|
    ensures Bytes(fs, Flatten(gs))[Offset(fs, gs, k)..Offset(fs, gs, k + 1)] == Bytes(fs, gs[k])
  {
    ExtentAt(fs, gs, k);
    assert gs[..|gs|] == gs && gs[..0] == [];
  }

  lemma ExtentAt(fs: FileSystem, gs: seq<seq<Wfdisc>>, k: nat)
    requires k < |gs|
    ensures Offset(fs, gs, k) <= Offset(fs, gs, k + 1) <= |Bytes(fs, Flatten(gs))|
    ensures Bytes(fs, Flatten(gs))[Offset(fs, gs, k)..Offset(fs, gs, k + 1)] == Bytes(fs, gs[k])
  {
    FlatMapTiles(Copier(fs), gs, k);
  }

  // ---- the new index reads back the old samples ----

  /** Bytes of a run's samples, each record with its own word size. */
  function Size(g: seq<Wfdisc>): int {
    Sum(SampleBytes, g)
  }

  function SampleBytes(r: Wfdisc): int {
    r.nsamp * WrdSize(r.datatyp)
  }

  lemma {:induction false} SizeOfRun(fs: FileSystem, g: seq<Wfdisc>)
    requires Typed(g) && Counted(g) && AllFit(fs, g)
    ensures |Bytes(fs, g)| == Size(g) && TotalSamp(g) >= 0
  {
    if g != [] {
      SizeOfRun(fs, Init(g));
      CopiedIsSamples(fs, Last(g));
    }
  }

  /** The size the merged record claims is the size of its samples. */
  predicate WidthsAgree(g: seq<Wfdisc>)
    requires g != []
  {
    TotalSamp(g) * WrdSize(g[0].datatyp) == Size(g)
  }

  /** Every record that has samples has the word size of the first. */
  ghost predicate OneWidth(g: seq<Wfdisc>) {
    forall i | 0 <= i < |g| && g[i].nsamp > 0 :: WrdSize(g[i].datatyp) == WrdSize(g[0].datatyp)
  }

  /** Runs of one word size agree. */
  lemma {:induction false} OneWidthAgrees(g: seq<Wfdisc>)
    requires g != [] && Counted(g) && OneWidth(g)
    ensures WidthsAgree(g)
  {
    if |g| == 1 {
      assert g == [g[0]];
      SumOne(Nsamp, g[0]);
      SumOne(SampleBytes, g[0]);
    } else {
      OneWidthAgrees(Init(g));
      var w := WrdSize(g[0].datatyp);
      assert Last(g).nsamp == 0 || WrdSize(Last(g).datatyp) == w;
      assert (TotalSamp(Init(g)) + Last(g).nsamp) * w == TotalSamp(Init(g)) * w + Last(g).nsamp * w;
    }
  }

  /** The files after wdcat has written its new one. */
  function NewFiles(fs: FileSystem, rs: seq<Wfdisc>, dir: string, dfile: string): FileSystem {
    fs[PathOf(dir, dfile) := Bytes(fs, rs)]
  }

  /** The bytes that the k-th new record claims are exactly the bytes of the records merged into it if and only if
      their sizes add up. */
  lemma NewRecordHoldsItsBytes(fs: FileSystem, rs: seq<Wfdisc>, dir: string, dfile: string, k: nat)
    requires Typed(rs) && Counted(rs) && AllFit(fs, rs) && k < |Runs(Follows, rs)|
    ensures var gs := Runs(Follows, rs);
            HasSamples(NewFiles(fs, rs, dir, dfile), Outs(fs, gs, dir, dfile)[k], Bytes(fs, gs[k]))
            <==> WidthsAgree(gs[k])
  {
    var gs := Runs(Follows, rs);
    assert Flatten(gs) == rs by {
      RunsAreMaximal(Follows, rs);
    }
    RunInherits(fs, rs, k);
    SizeOfRun(fs, gs[k]);
    RunHoldsItsBytes(fs, gs, dir, dfile, k, NewFiles(fs, rs, dir, dfile), Outs(fs, gs, dir, dfile)[k]);
  }

  lemma RunHoldsItsBytes(fs: FileSystem, gs: seq<seq<Wfdisc>>, dir: string, dfile: string, k: nat, fs2: FileSystem,
                         o: Wfdisc)
    requires NonEmpty(gs) && k < |gs| && o == Outs(fs, gs, dir, dfile)[k]
    requires PathOf(dir, dfile) in fs2 && fs2[PathOf(dir, dfile)] == Bytes(fs, Flatten(gs))
    requires TotalSamp(gs[k]) >= 0 && WrdSize(gs[k][0].datatyp) > 0
    requires |Bytes(fs, gs[k])| == Sum(SampleBytes, gs[k])
    ensures HasSamples(fs2, o, Bytes(fs, gs[k])) <==> WidthsAgree(gs[k])
  {
    NewRecordExtent(fs, gs, dir, dfile, k);
    ReadsIff(fs2, o, Bytes(fs, Flatten(gs)), Bytes(fs, gs[k]));
  }

  /** Where the k-th new record points, and how many words it claims. */
  lemma NewRecordExtent(fs: FileSystem, gs: seq<seq<Wfdisc>>, dir: string, dfile: string, k: nat)
    requires NonEmpty(gs) && k < |gs|
    ensures var o, part, all := Outs(fs, gs, dir, dfile)[k], Bytes(fs, gs[k]), Bytes(fs, Flatten(gs));
            && Path(o) == PathOf(dir, dfile)
            && o.nsamp == TotalSamp(gs[k]) && o.datatyp == gs[k][0].datatyp
            && o.foff == Offset(fs, gs, k)
            && o.foff + |part| <= |all| && all[o.foff..o.foff + |part|] == part
  {
    OutsAt(fs, gs, dir, dfile, k);
    ExtentsTile(fs, gs, k);
  }

  lemma ReadsIff(fs: FileSystem, o: Wfdisc, all: seq<byte>, part: seq<byte>)
    requires Path(o) in fs && fs[Path(o)] == all
    requires 0 <= o.foff && o.foff + |part| <= |all| && all[o.foff..o.foff + |part|] == part
    requires o.nsamp >= 0 && WrdSize(o.datatyp) > 0
    ensures HasSamples(fs, o, part) <==> o.nsamp * WrdSize(o.datatyp) == |part|
  {
  }

  lemma StretchInherits(fs: FileSystem, rs: seq<Wfdisc>, g: seq<Wfdisc>, p: nat)
    requires Typed(rs) && p + |g| <= |rs| && rs[p..p + |g|] == g
    ensures Typed(g) && (Counted(rs) ==> Counted(g)) && (Rated(rs) ==> Rated(g)) && (AllFit(fs, rs) ==> AllFit(fs, g))
  {
    assert forall i | 0 <= i < |g| :: g[i] == rs[p + i];
    AllFitMeans(fs, rs);
    AllFitMeans(fs, g);
  }

  /** Every run is a stretch of the sorted records, so it inherits what holds of all of them. */
  lemma RunInherits(fs: FileSystem, rs: seq<Wfdisc>, k: nat)
    requires Typed(rs) && k < |Runs(Follows, rs)|
    ensures var g := Runs(Follows, rs)[k];
            && g != [] && Chain(Follows, g) && Typed(g)
            && (Counted(rs) ==> Counted(g)) && (Rated(rs) ==> Rated(g)) && (AllFit(fs, rs) ==> AllFit(fs, g))
  {
    var gs := Runs(Follows, rs);
    RunsAreMaximal(Follows, rs);
    FlattenAt(gs, k);
    StretchInherits(fs, rs, gs[k], |Flatten(gs[..k])|);
  }

  // ---- conservation ----

  lemma {:induction false} OutsConserve(fs: FileSystem, gs: seq<seq<Wfdisc>>, dir: string, dfile: string)
    requires NonEmpty(gs)
    ensures TotalSamp(Outs(fs, gs, dir, dfile)) == TotalSamp(Flatten(gs))
  {
    if gs != [] {
      OutsConserve(fs, Init(gs), dir, dfile);
      SumConcat(Nsamp, Flatten(Init(gs)), Last(gs));
      SumSnoc(Nsamp, Outs(fs, Init(gs), dir, dfile), Last(Outs(fs, gs, dir, dfile)));
    }
  }

  /** One record out for each maximal run in, in order, and no sample gained or lost. */
  lemma RecordsMatchRuns(fs: FileSystem, rs: seq<Wfdisc>, dir: string, dfile: string)
    ensures var gs := Runs(Follows, rs);
            var outs := Outs(fs, gs, dir, dfile);
            && |outs| == |gs|
            && MaximalChains(Follows, gs) && Flatten(gs) == rs
            && (forall hs | MaximalChains(Follows, hs) && Flatten(hs) == rs :: hs == gs)
            && TotalSamp(outs) == TotalSamp(rs)
  {
    var gs := Runs(Follows, rs);
    RunsAreMaximal(Follows, rs);
    OutsConserve(fs, gs, dir, dfile);
    forall hs | MaximalChains(Follows, hs) && Flatten(hs) == rs ensures hs == gs {
      MaximalChainsAreRuns(Follows, hs);
    }
  }

  // ---- timing ----

  /** How far the end that the merged record implies lies from the end its last input implies. */
  function Drift(g: seq<Wfdisc>): real
    requires g != [] && Rated(g)
  {
    ImpliedEnd(OutRec(g, 0, "", "")) - ImpliedEnd(Last(g))
  }

  /** The same in samples, free of division. */
  function DriftInSamples(g: seq<Wfdisc>): real
    requires g != []
  {
    (g[0].time - Last(g).time) * g[0].smprate + (TotalSamp(g) - Last(g).nsamp) as real
  }

  lemma EndInSamples(t: real, n: int, rate: real)
    requires rate != 0.0
    ensures (t + n as real / rate) * rate == t * rate + n as real
  {
  }

  lemma DriftScales(g: seq<Wfdisc>)
    requires g != [] && Rated(g) && Last(g).smprate == g[0].smprate
    ensures Drift(g) * g[0].smprate == DriftInSamples(g)
  {
    var rate := g[0].smprate;
    EndInSamples(g[0].time, TotalSamp(g), rate);
    EndInSamples(Last(g).time, Last(g).nsamp, rate);
  }

  /** The gap at one junction, in samples: the start of x against the end implied by prev. */
  function Gap(prev: Wfdisc, x: Wfdisc): real {
    (prev.time - x.time) * prev.smprate + prev.nsamp as real
  }

  lemma ErrorIsGap(t: real, n: int, rate: real, x: real)
    requires rate != 0.0
    ensures Abs(rate * Abs(x - (t + n as real / rate))) == Abs((t - x) * rate + n as real)
    ensures x == t + n as real / rate ==> (t - x) * rate + n as real == 0.0
  {
    var d := t + n as real / rate - x;
    EndInSamples(t, n, rate);
    assert d * rate == (t - x) * rate + n as real;
    AbsOfProduct(rate, d);
    assert x - (t + n as real / rate) == -d;
  }

  lemma SameSize(e: real, g: real)
    requires Abs(e) == Abs(g)
    ensures CToInt(e) == 0 <==> -1.0 < g < 1.0
  {
    TruncatesToZero(e);
    BelowOne(g);
  }

  /** The test of continuous(), free of division. */
  lemma FollowsIff(prev: Wfdisc, x: Wfdisc)
    requires prev.smprate != 0.0
    ensures Follows(prev, x) <==> SameChannel(prev, x) && prev.smprate == x.smprate && -1.0 < Gap(prev, x) < 1.0
    ensures x.time == ImpliedEnd(prev) ==> Gap(prev, x) == 0.0
  {
    var t, n, rate := prev.time, prev.nsamp, prev.smprate;
    ErrorIsGap(t, n, rate, x.time);
    assert ErrorInSamples(prev, x) == rate * Abs(x.time - (t + n as real / rate));
    SameSize(ErrorInSamples(prev, x), Gap(prev, x));
  }

  lemma BelowOne(x: real)
    ensures Abs(x) < 1.0 <==> -1.0 < x < 1.0
  {}

  lemma AbsOfProduct(r: real, d: real)
    ensures Abs(-d) == Abs(d) && Abs(r * Abs(d)) == Abs(d * r)
  {
    assert Abs(d) == d || Abs(d) == -d;
    assert r * -d == -(d * r);
  }

  lemma TruncatesToZero(x: real)
    ensures CToInt(x) == 0 <==> Abs(x) < 1.0
  {}

  lemma {:induction false} OneRate(g: seq<Wfdisc>, i: nat)
    requires Chain(Follows, g) && i < |g|
    ensures g[i].smprate == g[0].smprate && SameChannel(g[i], g[0])
  {
    if i > 0 {
      OneRate(g, i - 1);
      assert Follows(g[i - 1], g[i]);
    }
  }

  lemma DriftStep(g: seq<Wfdisc>)
    requires |g| > 1 && Last(Init(g)).smprate == g[0].smprate
    ensures DriftInSamples(g) == DriftInSamples(Init(g)) + Gap(Last(Init(g)), Last(g))
  {
    var rate, p, x := g[0].smprate, Last(Init(g)), Last(g);
    assert (g[0].time - x.time) * rate == (g[0].time - p.time) * rate + (p.time - x.time) * rate;
    assert TotalSamp(g) == TotalSamp(Init(g)) + x.nsamp;
  }

  lemma DriftOfOne(g: seq<Wfdisc>)
    requires |g| == 1
    ensures DriftInSamples(g) == 0.0
  {
    assert g == [g[0]];
    SumOne(Nsamp, g[0]);
    assert g[0].time - Last(g).time == 0.0 && TotalSamp(g) == Last(g).nsamp;
  }

  lemma {:induction false} DriftInSamplesBound(g: seq<Wfdisc>)
    requires g != [] && Rated(g) && Chain(Follows, g)
    ensures |g| == 1 ==> DriftInSamples(g) == 0.0
    ensures |g| > 1 ==> Abs(DriftInSamples(g)) < (|g| - 1) as real
  {
    if |g| == 1 {
      DriftOfOne(g);
    } else {
      DriftInSamplesBound(Init(g));
      OneRate(g, |g| - 2);
      DriftStep(g);
      assert Follows(g[|g| - 2], g[|g| - 1]);
      FollowsIff(g[|g| - 2], g[|g| - 1]);
    }
  }

  /** A record merged from m inputs mis-states its end by less than m - 1 sample intervals. */
  lemma DriftBound(g: seq<Wfdisc>)
    requires g != [] && Rated(g) && Chain(Follows, g)
    ensures |g| == 1 ==> Drift(g) == 0.0
    ensures |g| > 1 ==> Abs(Drift(g)) * Abs(g[0].smprate) < (|g| - 1) as real
  {
    OneRate(g, |g| - 1);
    DriftScales(g);
    DriftInSamplesBound(g);
    ScaleKeepsSign(Drift(g), g[0].smprate);
  }

  lemma ScaleKeepsSign(d: real, rate: real)
    requires rate != 0.0
    ensures Abs(d) * Abs(rate) == Abs(d * rate)
    ensures d * rate == 0.0 ==> d == 0.0
  {
  }

  /** Every record of g starts exactly where the one before it ends. */
  ghost predicate Exact(g: seq<Wfdisc>)
    requires Rated(g)
  {
    forall i | 0 < i < |g| :: g[i].time == ImpliedEnd(g[i - 1])
  }

  /** Exact junctions leave no drift at all. */
  lemma {:induction false} ExactHasNoDrift(g: seq<Wfdisc>)
    requires g != [] && Rated(g) && Chain(Follows, g) && Exact(g)
    ensures DriftInSamples(g) == 0.0 && Drift(g) == 0.0
  {
    if |g| == 1 {
      assert g == [g[0]];
      SumOne(Nsamp, g[0]);
    } else {
      ExactHasNoDrift(Init(g));
      OneRate(g, |g| - 2);
      DriftStep(g);
      assert Follows(g[|g| - 2], g[|g| - 1]);
      FollowsIff(g[|g| - 2], g[|g| - 1]);
    }
    OneRate(g, |g| - 1);
    DriftScales(g);
    ScaleKeepsSign(Drift(g), g[0].smprate);
  }
}
