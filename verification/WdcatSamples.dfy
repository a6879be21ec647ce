/** The samples that wdcat's new index reads back, word by word. */
module WdcatSamples {
  import opened CLib
  import opened Cssio
  import opened Sorting
  import opened Grouping
  import opened WdcatOrder
  import opened Wdcat
  import opened WdcatFacts

  /** The whole words of w bytes in s. */
  function Chopped(s: seq<byte>, w: nat): (ws: seq<seq<byte>>)
    requires w > 0
    ensures forall x | x in ws :: |x| == w
    decreases |s|
  {
    if |s| < w then [] else [s[..w]] + Chopped(s[w..], w)
  }

  /** The samples of a record: nsamp words of its datatype's size from foff in the file it names. */
  predicate Samples(fs: FileSystem, r: Wfdisc, words: seq<seq<byte>>) {
    && Path(r) in fs && r.nsamp >= 0 && r.foff >= 0
    && var w := WrdSize(r.datatyp);
       && w > 0
       && var n := r.nsamp * w;
          && 0 <= n && r.foff + n <= |fs[Path(r)]|
          && words == Chopped(fs[Path(r)][r.foff..r.foff + n], w)
  }

  /** The words that copy() moves for a record. */
  function Words(fs: FileSystem): Wfdisc -> seq<seq<byte>> {
    (r: Wfdisc) => if WrdSize(r.datatyp) > 0 then Chopped(Copied(fs, r), WrdSize(r.datatyp)) else []
  }

  /** The samples of the records of a run, one after the other. */
  function RunWords(fs: FileSystem, g: seq<Wfdisc>): seq<seq<byte>> {
    FlatMap(Words(fs), g)
  }

  lemma {:induction false} ChoppedConcat(a: seq<byte>, b: seq<byte>, w: nat, n: nat)
    requires w > 0 && |a| == n * w
    ensures Chopped(a + b, w) == Chopped(a, w) + Chopped(b, w)
    decreases n
  {
    if n == 0 {
      assert a + b == b;
    } else {
      MulStep(n, w);
      assert (a + b)[..w] == a[..w] && (a + b)[w..] == a[w..] + b;
      ChoppedConcat(a[w..], b, w, n - 1);
    }
  }

  lemma {:induction false} ChoppedCount(s: seq<byte>, w: nat, n: nat)
    requires w > 0 && |s| == n * w
    ensures |Chopped(s, w)| == n
    decreases n
  {
    if n > 0 {
      MulStep(n, w);
      ChoppedCount(s[w..], w, n - 1);
    }
  }

  /** copy() moves the samples of a record, when it succeeds. */
  lemma CopyMovesSamples(fs: FileSystem, r: Wfdisc)
    requires WrdSize(r.datatyp) > 0 && r.nsamp >= 0 && CopyStatus(fs, r).Ok?
    ensures |Words(fs)(r)| == r.nsamp
    ensures r.nsamp > 0 || r.foff <= |fs[Path(r)]| ==> Samples(fs, r, Words(fs)(r))
  {
    CopiedIsSamples(fs, r);
    ChoppedCount(Copied(fs, r), WrdSize(r.datatyp), r.nsamp);
  }

  /** s is made up of whole words of w bytes, and ws is what they are. */
  ghost predicate ChopsTo(s: seq<byte>, ws: seq<seq<byte>>, w: nat)
    requires w > 0
  {
    ws == Chopped(s, w) && |s| == |ws| * w
  }

  lemma ChopsToConcat(a: seq<byte>, wa: seq<seq<byte>>, b: seq<byte>, wb: seq<seq<byte>>, w: nat)
    requires w > 0 && ChopsTo(a, wa, w) && ChopsTo(b, wb, w)
    ensures ChopsTo(a + b, wa + wb, w)
  {
    ChoppedConcat(a, b, w, |wa|);
    SumTimes(|wa|, |wb|, w);
  }

  lemma SumTimes(n: nat, m: nat, w: nat)
    ensures (n + m) * w == n * w + m * w
  {}

  lemma NothingChops(w: nat)
    requires w > 0
    ensures ChopsTo([], [], w)
  {
    assert 0 * w == 0;
  }

  /** Chopping a concatenation of pieces, each of whole words, is chopping the pieces. */
  lemma {:induction false} PiecesChop<A>(f: A -> seq<byte>, h: A -> seq<seq<byte>>, g: seq<A>, w: nat)
    requires w > 0 && forall i | 0 <= i < |g| :: ChopsTo(f(g[i]), h(g[i]), w)
    ensures ChopsTo(FlatMap(f, g), FlatMap(h, g), w)
  {
    if g == [] {
      NothingChops(w);
    } else {
      assert ChopsTo(f(g[|g| - 1]), h(g[|g| - 1]), w);
      PiecesChop(f, h, Init(g), w);
      ChopsToConcat(FlatMap(f, Init(g)), FlatMap(h, Init(g)), f(Last(g)), h(Last(g)), w);
    }
  }

  lemma WordsOfWidth(fs: FileSystem, r: Wfdisc, w: nat)
    requires WrdSize(r.datatyp) > 0 && w > 0 && r.nsamp >= 0 && CopyStatus(fs, r).Ok?
    requires r.nsamp > 0 ==> WrdSize(r.datatyp) == w
    ensures ChopsTo(Copied(fs, r), Words(fs)(r), w)
  {
    CopyMovesSamples(fs, r);
    CopiedIsSamples(fs, r);
  }

  /** In a run of one word size, chopping the run is chopping its records. */
  lemma RunChops(fs: FileSystem, g: seq<Wfdisc>, w: nat)
    requires w > 0 && Typed(g) && Counted(g) && AllFit(fs, g)
    requires forall i | 0 <= i < |g| && g[i].nsamp > 0 :: WrdSize(g[i].datatyp) == w
    ensures Chopped(Bytes(fs, g), w) == RunWords(fs, g)
  {
    AllFitMeans(fs, g);
    forall i | 0 <= i < |g| ensures ChopsTo(Copier(fs)(g[i]), Words(fs)(g[i]), w) {
      WordsOfWidth(fs, g[i], w);
    }
    PiecesChop(Copier(fs), Words(fs), g, w);
  }

  lemma {:induction false} InFlatMap<A, B>(f: A -> seq<B>, s: seq<A>, i: nat, x: B)
    requires i < |s| && x in f(s[i])
    ensures x in FlatMap(f, s)
  {
    if i < |s| - 1 {
      InFlatMap(f, Init(s), i, x);
    }
  }

  /** A run whose words all have one size has records of that size, but for those without samples. */
  lemma WordsTellWidth(fs: FileSystem, g: seq<Wfdisc>, w: nat, i: nat)
    requires Typed(g) && Counted(g) && AllFit(fs, g) && i < |g| && g[i].nsamp > 0
    requires forall x | x in RunWords(fs, g) :: |x| == w
    ensures WrdSize(g[i].datatyp) == w
  {
    AllFitMeans(fs, g);
    CopyMovesSamples(fs, g[i]);
    var x := Words(fs)(g[i])[0];
    assert x in Words(fs)(g[i]);
    InFlatMap(Words(fs), g, i, x);
  }

  /** The k-th new record reads back, word by word, the samples of the records merged into it, in order, if and only if
      every one of them that has samples has the word size of the first. */
  lemma NewRecordReadsItsRun(fs: FileSystem, rs: seq<Wfdisc>, dir: string, dfile: string, k: nat)
    requires Typed(rs) && Counted(rs) && AllFit(fs, rs) && k < |Runs(Follows, rs)|
    ensures var gs := Runs(Follows, rs);
            Samples(NewFiles(fs, rs, dir, dfile), Outs(fs, gs, dir, dfile)[k], RunWords(fs, gs[k]))
            <==> OneWidth(gs[k])
  {
    var gs := Runs(Follows, rs);
    var o := Outs(fs, gs, dir, dfile)[k];
    var g := gs[k];
    RunInherits(fs, rs, k);
    OutsAt(fs, gs, dir, dfile, k);
    if OneWidth(g) {
      OneWidthReads(fs, rs, dir, dfile, k);
    }
    if Samples(NewFiles(fs, rs, dir, dfile), o, RunWords(fs, g)) {
      forall i | 0 <= i < |g| && g[i].nsamp > 0 ensures WrdSize(g[i].datatyp) == WrdSize(g[0].datatyp) {
        WordsTellWidth(fs, g, WrdSize(o.datatyp), i);
      }
    }
  }

  lemma OneWidthReads(fs: FileSystem, rs: seq<Wfdisc>, dir: string, dfile: string, k: nat)
    requires Typed(rs) && Counted(rs) && AllFit(fs, rs) && k < |Runs(Follows, rs)| && OneWidth(Runs(Follows, rs)[k])
    ensures var gs := Runs(Follows, rs);
            Samples(NewFiles(fs, rs, dir, dfile), Outs(fs, gs, dir, dfile)[k], RunWords(fs, gs[k]))
  {
    var gs := Runs(Follows, rs);
    RunInherits(fs, rs, k);
    OneWidthAgrees(gs[k]);
    NewRecordHoldsItsBytes(fs, rs, dir, dfile, k);
    OutsAt(fs, gs, dir, dfile, k);
    RunReads(fs, NewFiles(fs, rs, dir, dfile), gs[k], Outs(fs, gs, dir, dfile)[k]);
  }

  lemma RunReads(fs: FileSystem, fs2: FileSystem, g: seq<Wfdisc>, o: Wfdisc)
    requires g != [] && Typed(g) && Counted(g) && AllFit(fs, g) && OneWidth(g)
    requires o.datatyp == g[0].datatyp && HasSamples(fs2, o, Bytes(fs, g))
    ensures Samples(fs2, o, RunWords(fs, g))
  {
    RunChops(fs, g, WrdSize(g[0].datatyp));
  }

  /** A two-byte record continued by a four-byte one is merged, and the result claims too few bytes. */
  lemma MixedWidthsMisread(r: Wfdisc)
    ensures var a := r.(time := 0.0, smprate := 1.0, nsamp := 1, datatyp := "s2");
            var b := a.(time := 1.0, datatyp := "s4");
            Follows(a, b) && !OneWidth([a, b]) && !WidthsAgree([a, b])
  {
    var a := r.(time := 0.0, smprate := 1.0, nsamp := 1, datatyp := "s2");
    var b := a.(time := 1.0, datatyp := "s4");
    assert ImpliedEnd(a) == 1.0;
    assert Init([a, b]) == [a] && Init([a]) == [];
    assert Sum(Nsamp, [a]) == 1 && Sum(SampleBytes, [a]) == 2;
    assert [a, b][1] == b;
  }

  /** One four-byte sample, two of two bytes and one of eight: the run claims as many bytes as it has, sixteen, and is
      misread all the same. */
  lemma EqualSizesMisread(r: Wfdisc)
    ensures var a := r.(time := 0.0, smprate := 1.0, nsamp := 1, datatyp := "s4");
            var b := a.(time := 1.0, nsamp := 2, datatyp := "s2");
            var c := a.(time := 3.0, datatyp := "f8");
            Follows(a, b) && Follows(b, c) && WidthsAgree([a, b, c]) && !OneWidth([a, b, c])
  {
    var a := r.(time := 0.0, smprate := 1.0, nsamp := 1, datatyp := "s4");
    var b := a.(time := 1.0, nsamp := 2, datatyp := "s2");
    var c := a.(time := 3.0, datatyp := "f8");
    assert ImpliedEnd(a) == 1.0 && ImpliedEnd(b) == 3.0;
    SumOne(Nsamp, a);
    SumOne(SampleBytes, a);
    assert [a, b] == [a] + [b] && [a, b, c] == [a, b] + [c];
    SumSnoc(Nsamp, [a], b);
    SumSnoc(SampleBytes, [a], b);
    SumSnoc(Nsamp, [a, b], c);
    SumSnoc(SampleBytes, [a, b], c);
    assert [a, b, c][1] == b;
  }

  // ---- from the index as read to the index as written ----

  /** Every run has one word size. */
  ghost predicate OneWidthEach(gs: seq<seq<Wfdisc>>) {
    forall k | 0 <= k < |gs| :: OneWidth(gs[k])
  }

  /** part stands in one piece in all, from position o on. */
  ghost predicate Carries<T>(all: seq<T>, part: seq<T>, o: nat) {
    o + |part| <= |all| && all[o..o + |part|] == part
  }

  lemma PieceIsCarried<A, B>(f: A -> seq<B>, g: seq<A>, i: nat)
    requires i < |g|
    ensures Carries(FlatMap(f, g), f(g[i]), |FlatMap(f, g[..i])|)
  {
    FlatMapAt(f, g, i);
  }

  /** Whatever order the records are merged in, every one of them is of the channel of some new record, and its samples
      stand together in what that record reads back. */
  lemma EveryRecordIsReadBack(fs: FileSystem, rs: seq<Wfdisc>, dir: string, dfile: string, r: Wfdisc)
    returns (k: nat, o: nat)
    requires Typed(rs) && Counted(rs) && Rated(rs) && AllFit(fs, rs) && OneWidthEach(Runs(Follows, rs)) && r in rs
    ensures var gs := Runs(Follows, rs);
            var outs := Outs(fs, gs, dir, dfile);
            && k < |outs| && SameChannel(outs[k], r) && outs[k].smprate == r.smprate
            && Samples(NewFiles(fs, rs, dir, dfile), outs[k], RunWords(fs, gs[k]))
            && Carries(RunWords(fs, gs[k]), Words(fs)(r), o)
  {
    var gs := Runs(Follows, rs);
    RunsAreMaximal(Follows, rs);
    var i;
    k, i := FindInFlatten(gs, r);
    RunInherits(fs, rs, k);
    OneRate(gs[k], i);
    OutsAt(fs, gs, dir, dfile, k);
    NewRecordReadsItsRun(fs, rs, dir, dfile, k);
    PieceIsCarried(Words(fs), gs[k], i);
    o := |RunWords(fs, gs[k][..i])|;
  }

  /** The samples of r stand in one piece in what some new record of its channel reads back. */
  ghost predicate IsReadBack(fs: FileSystem, gs: seq<seq<Wfdisc>>, outs: seq<Wfdisc>, r: Wfdisc)
    requires |outs| == |gs|
  {
    exists k, o: nat | 0 <= k < |gs| ::
      SameChannel(outs[k], r) && outs[k].smprate == r.smprate && Carries(RunWords(fs, gs[k]), Words(fs)(r), o)
  }

  /** wdcat as a whole, when its checks pass and every record can be copied: for any result of qsort, the new records
      claim as many samples as the records read, each reads back its run exactly if the run has one word size, and then
      the samples of every record read stand together in one new record of its channel and rate. */
  lemma EndToEnd(fs: FileSystem, input: seq<Wfdisc>, sorted: seq<Wfdisc>, dir: string, dfile: string)
    requires IsSortOf(AtMost, sorted, input) && CheckStatus(fs, input).Ok?
    requires Typed(sorted) && Counted(sorted) && Rated(sorted) && AllFit(fs, sorted)
    ensures var gs, fs2 := Runs(Follows, sorted), NewFiles(fs, sorted, dir, dfile);
            var outs := Outs(fs, gs, dir, dfile);
            && TotalSamp(outs) == TotalSamp(input)
            && (forall k | 0 <= k < |outs| :: Samples(fs2, outs[k], RunWords(fs, gs[k])) <==> OneWidth(gs[k]))
            && (OneWidthEach(gs) ==> forall r | r in input :: IsReadBack(fs, gs, outs, r))
  {
    var gs, fs2 := Runs(Follows, sorted), NewFiles(fs, sorted, dir, dfile);
    var outs := Outs(fs, gs, dir, dfile);
    RecordsMatchRuns(fs, sorted, dir, dfile);
    SumOfPermutation(Nsamp, sorted, input);
    forall k | 0 <= k < |gs| ensures Samples(fs2, outs[k], RunWords(fs, gs[k])) <==> OneWidth(gs[k]) {
      NewRecordReadsItsRun(fs, sorted, dir, dfile, k);
    }
    if OneWidthEach(gs) {
      forall r | r in input ensures IsReadBack(fs, gs, outs, r) {
        assert r in multiset(sorted);
        var k, o := EveryRecordIsReadBack(fs, sorted, dir, dfile, r);
      }
    }
  }
}
