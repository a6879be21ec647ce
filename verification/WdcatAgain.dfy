/** Merging wdcat's own output again: sorting the new index, in any way its comparison allows, and merging it. */
module WdcatAgain {
  import opened CLib
  import opened Cssio
  import opened Sorting
  import opened Grouping
  import opened WdcatOrder
  import opened Wdcat
  import opened WdcatFacts

  /** A sorted index that the first pass can merge. */
  ghost predicate Sound(fs: FileSystem, rs: seq<Wfdisc>) {
    Typed(rs) && Counted(rs) && Rated(rs) && AllFit(fs, rs) && SortedBy(AtMost, rs) && PreorderOn(AtMost, multiset(rs))
  }

  /** The first pass: its runs, the files after it, and the new index. */
  ghost predicate FirstPass(fs: FileSystem, rs: seq<Wfdisc>, dir: string, dfile: string, gs: seq<seq<Wfdisc>>,
                            fs2: FileSystem, outs: seq<Wfdisc>)
  {
    gs == Runs(Follows, rs) && fs2 == NewFiles(fs, rs, dir, dfile) && NonEmpty(gs) && outs == Outs(fs, gs, dir, dfile)
  }

  function Renamed(o: Wfdisc, dir: string, dfile: string): Wfdisc {
    o.(dir := dir, dfile := dfile)
  }

  /** Merging p, a sort of the new index, succeeds and gives back the data and, but for the file name, the index. */
  ghost predicate Returns(fs2: FileSystem, data: seq<byte>, outs: seq<Wfdisc>, p: seq<Wfdisc>,
                          dir2: string, dfile2: string) {
    && Typed(p) && AllFit(fs2, p) && Bytes(fs2, p) == data
    && var again := Outs(fs2, Runs(Follows, p), dir2, dfile2);
       |again| == |outs| && forall k | 0 <= k < |outs| :: again[k] == Renamed(outs[k], dir2, dfile2)
  }

  /** It does so whatever order qsort chooses among records that tie. */
  ghost predicate ReturnsFromEverySort(fs2: FileSystem, data: seq<byte>, outs: seq<Wfdisc>,
                                       dir2: string, dfile2: string) {
    forall p | IsSortOf(AtMost, p, outs) :: Returns(fs2, data, outs, p, dir2, dfile2)
  }

  // ---- when it does ----

  /** The records merged from two runs would be joined again: the runs are of one channel and rate, and the drift of
      the first and the gap between them come to less than one sample. */
  predicate JoinAgain(a: seq<Wfdisc>, b: seq<Wfdisc>)
    requires a != [] && b != []
  {
    && SameChannel(Last(a), b[0]) && Last(a).smprate == b[0].smprate
    && -1.0 < DriftInSamples(a) + Gap(Last(a), b[0]) < 1.0
  }

  /** Two runs give records that differ in nothing but where they point, and have the same bytes. */
  predicate SameContent(fs: FileSystem, a: seq<Wfdisc>, b: seq<Wfdisc>)
    requires a != [] && b != []
  {
    OutRec(a, 0, "", "") == OutRec(b, 0, "", "") && Bytes(fs, a) == Bytes(fs, b)
  }

  ghost predicate Agreeing(gs: seq<seq<Wfdisc>>)
    requires NonEmpty(gs)
  {
    forall k | 0 <= k < |gs| :: WidthsAgree(gs[k])
  }

  ghost predicate NoneJoins(gs: seq<seq<Wfdisc>>)
    requires NonEmpty(gs)
  {
    forall k | 0 < k < |gs| :: !JoinAgain(gs[k - 1], gs[k])
  }

  /** Runs whose first records tie in the comparison have the same content. */
  ghost predicate TiesAgree(fs: FileSystem, gs: seq<seq<Wfdisc>>)
    requires NonEmpty(gs)
  {
    forall i, j | 0 <= i < j < |gs| && Ties(AtMost, gs[i][0], gs[j][0]) :: SameContent(fs, gs[i], gs[j])
  }

  // ---- neighbours ----

  lemma GapsAdd(a: seq<Wfdisc>, b: seq<Wfdisc>, offA: nat, offB: nat, dir: string, dfile: string)
    requires a != [] && b != [] && Last(a).smprate == a[0].smprate
    ensures Gap(OutRec(a, offA, dir, dfile), OutRec(b, offB, dir, dfile)) == DriftInSamples(a) + Gap(Last(a), b[0])
  {
    var rate, p, q, t := a[0].smprate, a[0].time, Last(a).time, b[0].time;
    assert (p - t) * rate == (p - q) * rate + (q - t) * rate;
  }

  /** A new record follows another exactly if their runs join again. */
  lemma NewRecordFollowsIff(a: seq<Wfdisc>, b: seq<Wfdisc>, offA: nat, offB: nat, dir: string, dfile: string)
    requires a != [] && b != [] && Rated(a) && Chain(Follows, a)
    ensures Follows(OutRec(a, offA, dir, dfile), OutRec(b, offB, dir, dfile)) <==> JoinAgain(a, b)
  {
    OneRate(a, |a| - 1);
    GapsAdd(a, b, offA, offB, dir, dfile);
    FollowsIff(OutRec(a, offA, dir, dfile), OutRec(b, offB, dir, dfile));
  }

  lemma NeighbourFollowsIff(fs: FileSystem, rs: seq<Wfdisc>, gs: seq<seq<Wfdisc>>, dir: string, dfile: string, k: nat)
    requires Typed(rs) && Rated(rs) && gs == Runs(Follows, rs) && NonEmpty(gs) && 0 < k < |gs|
    ensures Follows(Outs(fs, gs, dir, dfile)[k - 1], Outs(fs, gs, dir, dfile)[k]) <==> JoinAgain(gs[k - 1], gs[k])
  {
    RunInherits(fs, rs, k - 1);
    OutsAt(fs, gs, dir, dfile, k - 1);
    OutsAt(fs, gs, dir, dfile, k);
    NewRecordFollowsIff(gs[k - 1], gs[k], Offset(fs, gs, k - 1), Offset(fs, gs, k), dir, dfile);
  }

  // ---- the order of the new index ----

  /** The comparison sees of a new record only what it has from the first record of its run. */
  lemma OrderOfOuts(fs: FileSystem, gs: seq<seq<Wfdisc>>, dir: string, dfile: string, i: nat, j: nat)
    requires NonEmpty(gs) && i < |gs| && j < |gs|
    ensures AtMost(Outs(fs, gs, dir, dfile)[i], Outs(fs, gs, dir, dfile)[j]) <==> AtMost(gs[i][0], gs[j][0])
  {
    OutsAt(fs, gs, dir, dfile, i);
    OutsAt(fs, gs, dir, dfile, j);
  }

  lemma HeadIsMember(gs: seq<seq<Wfdisc>>, i: nat)
    requires NonEmpty(gs) && i < |gs|
    ensures gs[i][0] in Flatten(gs)
  {
    FlattenAt(gs, i);
    assert Flatten(gs)[|Flatten(gs[..i])|] == gs[i][0];
  }

  lemma HeadsArePreorder(gs: seq<seq<Wfdisc>>, rs: seq<Wfdisc>, i: nat, j: nat, k: nat)
    requires PreorderOn(AtMost, multiset(rs)) && Flatten(gs) == rs && NonEmpty(gs) && i < |gs| && j < |gs| && k < |gs|
    ensures AtMost(gs[i][0], gs[j][0]) || AtMost(gs[j][0], gs[i][0])
    ensures AtMost(gs[i][0], gs[j][0]) && AtMost(gs[j][0], gs[k][0]) ==> AtMost(gs[i][0], gs[k][0])
  {
    HeadIsMember(gs, i);
    HeadIsMember(gs, j);
    HeadIsMember(gs, k);
    assert gs[i][0] in multiset(rs) && gs[j][0] in multiset(rs) && gs[k][0] in multiset(rs);
  }

  lemma OutsChain(fs: FileSystem, rs: seq<Wfdisc>, gs: seq<seq<Wfdisc>>, outs: seq<Wfdisc>, dir: string, dfile: string,
                  i: nat, j: nat, k: nat)
    requires PreorderOn(AtMost, multiset(rs)) && Flatten(gs) == rs && NonEmpty(gs) && outs == Outs(fs, gs, dir, dfile)
    requires i < |outs| && j < |outs| && k < |outs| && AtMost(outs[i], outs[j]) && AtMost(outs[j], outs[k])
    ensures AtMost(outs[i], outs[k])
  {
    OrderOfOuts(fs, gs, dir, dfile, i, j);
    OrderOfOuts(fs, gs, dir, dfile, j, k);
    OrderOfOuts(fs, gs, dir, dfile, i, k);
    HeadsArePreorder(gs, rs, i, j, k);
  }

  lemma OutsFollowOn(fs: FileSystem, rs: seq<Wfdisc>, gs: seq<seq<Wfdisc>>, outs: seq<Wfdisc>, dir: string,
                     dfile: string, a: Wfdisc, b: Wfdisc, c: Wfdisc)
    requires PreorderOn(AtMost, multiset(rs)) && Flatten(gs) == rs && NonEmpty(gs) && outs == Outs(fs, gs, dir, dfile)
    requires a in outs && b in outs && c in outs && AtMost(a, b) && AtMost(b, c)
    ensures AtMost(a, c)
  {
    var i :| 0 <= i < |outs| && outs[i] == a;
    var j :| 0 <= j < |outs| && outs[j] == b;
    var k :| 0 <= k < |outs| && outs[k] == c;
    OutsChain(fs, rs, gs, outs, dir, dfile, i, j, k);
  }

  lemma OutsArePreorder(fs: FileSystem, rs: seq<Wfdisc>, gs: seq<seq<Wfdisc>>, outs: seq<Wfdisc>,
                        dir: string, dfile: string)
    requires PreorderOn(AtMost, multiset(rs)) && Flatten(gs) == rs && NonEmpty(gs) && outs == Outs(fs, gs, dir, dfile)
    ensures PreorderOn(AtMost, multiset(outs))
  {
    forall a, b | a in outs && b in outs ensures AtMost(a, b) || AtMost(b, a) {
      AtMostIsTotal(a, b);
    }
    forall a, b, c | a in outs && b in outs && c in outs && AtMost(a, b) && AtMost(b, c) ensures AtMost(a, c) {
      OutsFollowOn(fs, rs, gs, outs, dir, dfile, a, b, c);
    }
  }

  /** The new index comes out sorted. */
  lemma NewRecordsSorted(fs: FileSystem, rs: seq<Wfdisc>, dir: string, dfile: string)
    requires SortedBy(AtMost, rs)
    ensures SortedBy(AtMost, Outs(fs, Runs(Follows, rs), dir, dfile))
  {
    var gs := Runs(Follows, rs);
    RunsAreMaximal(Follows, rs);
    var outs := Outs(fs, gs, dir, dfile);
    forall i, j | 0 <= i < j < |outs| ensures AtMost(outs[i], outs[j]) {
      FirstsSorted(rs, gs, i, j);
      OrderOfOuts(fs, gs, dir, dfile, i, j);
    }
  }

  lemma FirstsSorted(rs: seq<Wfdisc>, gs: seq<seq<Wfdisc>>, i: nat, j: nat)
    requires SortedBy(AtMost, rs) && Flatten(gs) == rs && NonEmpty(gs) && i < j < |gs|
    ensures AtMost(gs[i][0], gs[j][0])
  {
    FlattenAt(gs, i);
    FlattenAt(gs, j);
    FlattenGrows(gs, i, j);
    assert rs[|Flatten(gs[..i])|] == gs[i][0] && rs[|Flatten(gs[..j])|] == gs[j][0];
  }

  lemma FlattenGrows<T>(gs: seq<seq<T>>, i: nat, j: nat)
    requires i < j <= |gs| && gs[i] != []
    ensures |Flatten(gs[..i])| < |Flatten(gs[..j])|
  {
    assert gs[..j] == gs[..i] + [gs[i]] + gs[i + 1..j];
    FlattenConcat(gs[..i] + [gs[i]], gs[i + 1..j]);
    FlattenSnoc(gs[..i], gs[i]);
  }

  // ---- if the condition holds, every sort gives the index back ----

  lemma NewRecordCopies(fs: FileSystem, rs: seq<Wfdisc>, dir: string, dfile: string, k: nat)
    requires Typed(rs) && Counted(rs) && AllFit(fs, rs) && k < |Runs(Follows, rs)| && WidthsAgree(Runs(Follows, rs)[k])
    ensures var fs2, o := NewFiles(fs, rs, dir, dfile), Outs(fs, Runs(Follows, rs), dir, dfile)[k];
            && WrdSize(o.datatyp) > 0
            && CopyStatus(fs2, o).Ok? && Copied(fs2, o) == Bytes(fs, Runs(Follows, rs)[k])
  {
    NewRecordHoldsItsBytes(fs, rs, dir, dfile, k);
    CopiedIsSamples(NewFiles(fs, rs, dir, dfile), Outs(fs, Runs(Follows, rs), dir, dfile)[k]);
  }

  /** q is o but for where it points, and copying it yields part. */
  predicate Like(fs2: FileSystem, o: Wfdisc, q: Wfdisc, part: seq<byte>) {
    q.(foff := o.foff) == o && WrdSize(q.datatyp) > 0 && CopyStatus(fs2, q).Ok? && Copied(fs2, q) == part
  }

  lemma SameContentIsLike(fs: FileSystem, gs: seq<seq<Wfdisc>>, outs: seq<Wfdisc>, dir: string, dfile: string,
                          k: nat, j: nat)
    requires NonEmpty(gs) && outs == Outs(fs, gs, dir, dfile) && k < |gs| && j < |gs|
    requires SameContent(fs, gs[k], gs[j]) || SameContent(fs, gs[j], gs[k])
    ensures outs[j].(foff := outs[k].foff) == outs[k] && Bytes(fs, gs[j]) == Bytes(fs, gs[k])
  {
    OutsAt(fs, gs, dir, dfile, j);
    OutsAt(fs, gs, dir, dfile, k);
  }

  /** What stands at position k in a sort of the new index. */
  lemma SortHas(fs: FileSystem, rs: seq<Wfdisc>, dir: string, dfile: string, gs: seq<seq<Wfdisc>>, outs: seq<Wfdisc>,
                p: seq<Wfdisc>, k: nat)
    returns (j: nat)
    requires SortedBy(AtMost, rs) && PreorderOn(AtMost, multiset(rs)) && gs == Runs(Follows, rs) && NonEmpty(gs)
    requires outs == Outs(fs, gs, dir, dfile) && IsSortOf(AtMost, p, outs) && k < |outs|
    ensures |p| == |outs| && j < |outs| && p[k] == outs[j] && Ties(AtMost, gs[k][0], gs[j][0])
  {
    RunsAreMaximal(Follows, rs);
    NewRecordsSorted(fs, rs, dir, dfile);
    OutsArePreorder(fs, rs, gs, outs, dir, dfile);
    SortIsUnique(AtMost, outs, p, k);
    assert p[k] in multiset(outs);
    j :| 0 <= j < |outs| && outs[j] == p[k];
    OrderOfOuts(fs, gs, dir, dfile, k, j);
    OrderOfOuts(fs, gs, dir, dfile, j, k);
  }

  lemma SortIsLike(fs: FileSystem, rs: seq<Wfdisc>, dir: string, dfile: string, gs: seq<seq<Wfdisc>>, fs2: FileSystem,
                   outs: seq<Wfdisc>, p: seq<Wfdisc>, k: nat)
    requires Sound(fs, rs) && FirstPass(fs, rs, dir, dfile, gs, fs2, outs) && Agreeing(gs) && TiesAgree(fs, gs)
    requires IsSortOf(AtMost, p, outs) && k < |outs|
    ensures |p| == |outs| && Like(fs2, outs[k], p[k], Bytes(fs, gs[k]))
  {
    var j := SortHas(fs, rs, dir, dfile, gs, outs, p, k);
    NewRecordCopies(fs, rs, dir, dfile, j);
    if k != j {
      assert SameContent(fs, gs[k], gs[j]) || SameContent(fs, gs[j], gs[k]);
      SameContentIsLike(fs, gs, outs, dir, dfile, k, j);
    }
  }

  /** A sort that is like the new index record by record. */
  ghost predicate AllLike(fs: FileSystem, gs: seq<seq<Wfdisc>>, fs2: FileSystem, outs: seq<Wfdisc>, p: seq<Wfdisc>) {
    |p| == |outs| == |gs| && forall k | 0 <= k < |gs| :: Like(fs2, outs[k], p[k], Bytes(fs, gs[k]))
  }

  lemma LikeBytes(fs: FileSystem, gs: seq<seq<Wfdisc>>, fs2: FileSystem, outs: seq<Wfdisc>, p: seq<Wfdisc>, j: nat)
    requires AllLike(fs, gs, fs2, outs, p) && j <= |gs|
    ensures Bytes(fs2, p[..j]) == Bytes(fs, Flatten(gs[..j]))
  {
    forall k | 0 <= k < |gs| ensures Copier(fs2)(p[k]) == FlatMap(Copier(fs), gs[k]) {
      assert Like(fs2, outs[k], p[k], Bytes(fs, gs[k]));
    }
    FlatMapRegroup(Copier(fs), gs, Copier(fs2), p, j);
  }

  lemma LikeFits(fs: FileSystem, gs: seq<seq<Wfdisc>>, fs2: FileSystem, outs: seq<Wfdisc>, p: seq<Wfdisc>)
    requires AllLike(fs, gs, fs2, outs, p)
    ensures Typed(p) && AllFit(fs2, p)
  {
    forall k | 0 <= k < |p| ensures WrdSize(p[k].datatyp) > 0 && CopyStatus(fs2, p[k]).Ok? {
      assert Like(fs2, outs[k], p[k], Bytes(fs, gs[k]));
    }
    AllFitMeans(fs2, p);
  }

  lemma LikeFollows(a: Wfdisc, b: Wfdisc, c: Wfdisc, d: Wfdisc)
    requires a.(foff := c.foff) == c && b.(foff := d.foff) == d
    ensures Follows(a, b) <==> Follows(c, d)
  {
    assert a.time == c.time && a.nsamp == c.nsamp && a.smprate == c.smprate && a.sta == c.sta && a.chan == c.chan;
    assert b.time == d.time && b.smprate == d.smprate && b.sta == d.sta && b.chan == d.chan;
    if a.smprate != 0.0 {
      assert ImpliedEnd(a) == ImpliedEnd(c);
      assert ErrorInSamples(a, b) == ErrorInSamples(c, d);
    }
  }

  lemma LikeStaysSingle(fs: FileSystem, rs: seq<Wfdisc>, dir: string, dfile: string, gs: seq<seq<Wfdisc>>,
                        fs2: FileSystem, outs: seq<Wfdisc>, p: seq<Wfdisc>)
    requires Sound(fs, rs) && FirstPass(fs, rs, dir, dfile, gs, fs2, outs)
    requires AllLike(fs, gs, fs2, outs, p) && NoneJoins(gs)
    ensures Runs(Follows, p) == Singles(p)
  {
    forall k | 0 < k < |p| ensures !Follows(p[k - 1], p[k]) {
      assert Like(fs2, outs[k - 1], p[k - 1], Bytes(fs, gs[k - 1])) && Like(fs2, outs[k], p[k], Bytes(fs, gs[k]));
      LikeFollows(p[k - 1], p[k], outs[k - 1], outs[k]);
      NeighbourFollowsIff(fs, rs, gs, dir, dfile, k);
    }
    UnjoinedAreSingle(Follows, p);
  }

  /** The k-th record of a second pass over an index whose records all stay single. */
  lemma SingleRecord(fs2: FileSystem, p: seq<Wfdisc>, dir: string, dfile: string, k: nat)
    requires k < |p|
    ensures Outs(fs2, Singles(p), dir, dfile)[k] == p[k].(dir := dir, dfile := dfile, foff := |Bytes(fs2, p[..k])|)
  {
    OutsAt(fs2, Singles(p), dir, dfile, k);
    assert Singles(p)[..k] == Singles(p[..k]);
    FlattenSingles(p[..k]);
    SumOne(Nsamp, p[k]);
  }

  lemma LikeRecord(fs: FileSystem, gs: seq<seq<Wfdisc>>, fs2: FileSystem, outs: seq<Wfdisc>, p: seq<Wfdisc>,
                   dir: string, dfile: string, dir2: string, dfile2: string, k: nat)
    requires NonEmpty(gs) && outs == Outs(fs, gs, dir, dfile) && AllLike(fs, gs, fs2, outs, p) && k < |gs|
    ensures Outs(fs2, Singles(p), dir2, dfile2)[k] == Renamed(outs[k], dir2, dfile2)
  {
    assert Like(fs2, outs[k], p[k], Bytes(fs, gs[k]));
    SingleRecord(fs2, p, dir2, dfile2, k);
    LikeBytes(fs, gs, fs2, outs, p, k);
    OutsAt(fs, gs, dir, dfile, k);
  }

  lemma ConditionReturns(fs: FileSystem, rs: seq<Wfdisc>, dir: string, dfile: string, dir2: string, dfile2: string,
                         gs: seq<seq<Wfdisc>>, fs2: FileSystem, outs: seq<Wfdisc>, p: seq<Wfdisc>)
    requires Sound(fs, rs) && FirstPass(fs, rs, dir, dfile, gs, fs2, outs) && Agreeing(gs) && TiesAgree(fs, gs)
    requires NoneJoins(gs) && IsSortOf(AtMost, p, outs)
    ensures Returns(fs2, Bytes(fs, rs), outs, p, dir2, dfile2)
  {
    assert |p| == |multiset(p)| == |multiset(outs)| == |outs|;
    forall k | 0 <= k < |gs| ensures Like(fs2, outs[k], p[k], Bytes(fs, gs[k])) {
      SortIsLike(fs, rs, dir, dfile, gs, fs2, outs, p, k);
    }
    LikeReturns(fs, rs, dir, dfile, dir2, dfile2, gs, fs2, outs, p);
  }

  lemma SinglesReturn(fs2: FileSystem, data: seq<byte>, outs: seq<Wfdisc>, p: seq<Wfdisc>, dir2: string, dfile2: string)
    requires Typed(p) && AllFit(fs2, p) && Bytes(fs2, p) == data && |p| == |outs| && Runs(Follows, p) == Singles(p)
    requires forall k | 0 <= k < |outs| :: Outs(fs2, Singles(p), dir2, dfile2)[k] == Renamed(outs[k], dir2, dfile2)
    ensures Returns(fs2, data, outs, p, dir2, dfile2)
  {}

  lemma RunsFlatten(rs: seq<Wfdisc>, gs: seq<seq<Wfdisc>>)
    requires gs == Runs(Follows, rs)
    ensures rs == Flatten(gs)
  {
    RunsAreMaximal(Follows, rs);
  }

  lemma AllBytes(fs: FileSystem, rs: seq<Wfdisc>, gs: seq<seq<Wfdisc>>, fs2: FileSystem, outs: seq<Wfdisc>,
                 p: seq<Wfdisc>)
    requires rs == Flatten(gs) && AllLike(fs, gs, fs2, outs, p)
    ensures Bytes(fs2, p) == Bytes(fs, rs)
  {
    LikeBytes(fs, gs, fs2, outs, p, |gs|);
    assert p[..|gs|] == p && gs[..|gs|] == gs;
  }

  lemma LikeReturns(fs: FileSystem, rs: seq<Wfdisc>, dir: string, dfile: string, dir2: string, dfile2: string,
                    gs: seq<seq<Wfdisc>>, fs2: FileSystem, outs: seq<Wfdisc>, p: seq<Wfdisc>)
    requires Sound(fs, rs) && FirstPass(fs, rs, dir, dfile, gs, fs2, outs)
    requires AllLike(fs, gs, fs2, outs, p) && NoneJoins(gs)
    ensures Returns(fs2, Bytes(fs, rs), outs, p, dir2, dfile2)
  {
    LikeFits(fs, gs, fs2, outs, p);
    LikeStaysSingle(fs, rs, dir, dfile, gs, fs2, outs, p);
    RunsFlatten(rs, gs);
    AllBytes(fs, rs, gs, fs2, outs, p);
    forall k | 0 <= k < |outs| ensures Outs(fs2, Singles(p), dir2, dfile2)[k] == Renamed(outs[k], dir2, dfile2) {
      LikeRecord(fs, gs, fs2, outs, p, dir, dfile, dir2, dfile2, k);
    }
    SinglesReturn(fs2, Bytes(fs, rs), outs, p, dir2, dfile2);
  }

  // ---- if every sort gives the index back, the condition holds ----

  lemma ReturnsMeansSingle(fs2: FileSystem, data: seq<byte>, outs: seq<Wfdisc>, p: seq<Wfdisc>,
                           dir2: string, dfile2: string)
    requires Returns(fs2, data, outs, p, dir2, dfile2) && |p| == |outs|
    ensures Runs(Follows, p) == Singles(p)
    ensures forall k | 0 < k < |p| :: !Follows(p[k - 1], p[k])
  {
    AllSingleMeansUnjoined(Follows, p);
    UnjoinedAreSingle(Follows, p);
  }

  lemma ReturnsRecord(fs2: FileSystem, data: seq<byte>, outs: seq<Wfdisc>, p: seq<Wfdisc>,
                      dir2: string, dfile2: string, k: nat)
    requires Returns(fs2, data, outs, p, dir2, dfile2) && |p| == |outs| && k < |outs|
    ensures p[k].(dir := dir2, dfile := dfile2, foff := |Bytes(fs2, p[..k])|) == Renamed(outs[k], dir2, dfile2)
  {
    ReturnsMeansSingle(fs2, data, outs, p, dir2, dfile2);
    SingleRecord(fs2, p, dir2, dfile2, k);
    assert Outs(fs2, Runs(Follows, p), dir2, dfile2)[k] == Renamed(outs[k], dir2, dfile2);
  }

  /** A second pass that gives the index back has as many bytes before each record as the first had. */
  lemma ReturnsOffset(fs: FileSystem, rs: seq<Wfdisc>, dir: string, dfile: string, dir2: string, dfile2: string,
                      gs: seq<seq<Wfdisc>>, fs2: FileSystem, outs: seq<Wfdisc>, k: nat)
    requires FirstPass(fs, rs, dir, dfile, gs, fs2, outs) && Returns(fs2, Bytes(fs, rs), outs, outs, dir2, dfile2)
    requires k <= |gs|
    ensures |Bytes(fs2, outs[..k])| == Offset(fs, gs, k)
  {
    if k < |gs| {
      ReturnsRecord(fs2, Bytes(fs, rs), outs, outs, dir2, dfile2, k);
      OutsAt(fs, gs, dir, dfile, k);
    } else {
      RunsAreMaximal(Follows, rs);
      assert outs[..k] == outs && gs[..k] == gs;
    }
  }

  lemma ReturnsSize(fs: FileSystem, rs: seq<Wfdisc>, dir: string, dfile: string, dir2: string, dfile2: string,
                    gs: seq<seq<Wfdisc>>, fs2: FileSystem, outs: seq<Wfdisc>, k: nat)
    requires FirstPass(fs, rs, dir, dfile, gs, fs2, outs) && Returns(fs2, Bytes(fs, rs), outs, outs, dir2, dfile2)
    requires k < |gs|
    ensures |Copied(fs2, outs[k])| == |Bytes(fs, gs[k])|
  {
    ReturnsOffset(fs, rs, dir, dfile, dir2, dfile2, gs, fs2, outs, k);
    ReturnsOffset(fs, rs, dir, dfile, dir2, dfile2, gs, fs2, outs, k + 1);
    FlatMapAt(Copier(fs2), outs, k);
    FlatMapTiles(Copier(fs), gs, k);
  }

  lemma ReturnsWidths(fs: FileSystem, rs: seq<Wfdisc>, dir: string, dfile: string, dir2: string, dfile2: string,
                      gs: seq<seq<Wfdisc>>, fs2: FileSystem, outs: seq<Wfdisc>, k: nat)
    requires Sound(fs, rs) && FirstPass(fs, rs, dir, dfile, gs, fs2, outs)
    requires Returns(fs2, Bytes(fs, rs), outs, outs, dir2, dfile2) && k < |gs|
    ensures WidthsAgree(gs[k])
  {
    ReturnsSize(fs, rs, dir, dfile, dir2, dfile2, gs, fs2, outs, k);
    RunInherits(fs, rs, k);
    SizeOfRun(fs, gs[k]);
    OutsAt(fs, gs, dir, dfile, k);
    AllFitMeans(fs2, outs);
    CopiedIsSamples(fs2, outs[k]);
  }

  lemma ReturnsUnjoined(fs: FileSystem, rs: seq<Wfdisc>, dir: string, dfile: string, dir2: string, dfile2: string,
                        gs: seq<seq<Wfdisc>>, fs2: FileSystem, outs: seq<Wfdisc>)
    requires Sound(fs, rs) && FirstPass(fs, rs, dir, dfile, gs, fs2, outs)
    requires Returns(fs2, Bytes(fs, rs), outs, outs, dir2, dfile2)
    ensures NoneJoins(gs)
  {
    ReturnsMeansSingle(fs2, Bytes(fs, rs), outs, outs, dir2, dfile2);
    forall k | 0 < k < |gs| ensures !JoinAgain(gs[k - 1], gs[k]) {
      NeighbourFollowsIff(fs, rs, gs, dir, dfile, k);
    }
  }

  /** Two concatenations that agree, of sequences that agree up to i, agree in what i contributes if the sizes do. */
  lemma SamePiece<A, B>(f: A -> seq<B>, s: seq<A>, p: seq<A>, i: nat)
    requires FlatMap(f, s) == FlatMap(f, p) && i < |s| == |p| && s[..i] == p[..i] && |f(s[i])| == |f(p[i])|
    ensures f(s[i]) == f(p[i])
  {
    FlatMapAt(f, s, i);
    FlatMapAt(f, p, i);
  }

  lemma SameRecordSameSize(fs2: FileSystem, a: Wfdisc, b: Wfdisc)
    requires a.nsamp == b.nsamp >= 0 && a.datatyp == b.datatyp && WrdSize(a.datatyp) > 0
    requires CopyStatus(fs2, a).Ok? && CopyStatus(fs2, b).Ok?
    ensures |Copied(fs2, a)| == |Copied(fs2, b)|
  {
    CopiedIsSamples(fs2, a);
    CopiedIsSamples(fs2, b);
  }

  /** If exchanging two records gives the index back, they are alike. */
  lemma SwapShowsContent(fs: FileSystem, rs: seq<Wfdisc>, dir: string, dfile: string, dir2: string, dfile2: string,
                         gs: seq<seq<Wfdisc>>, fs2: FileSystem, outs: seq<Wfdisc>, i: nat, j: nat)
    requires Sound(fs, rs) && FirstPass(fs, rs, dir, dfile, gs, fs2, outs) && Agreeing(gs) && i < j < |gs|
    requires Returns(fs2, Bytes(fs, rs), outs, outs, dir2, dfile2)
    requires Returns(fs2, Bytes(fs, rs), outs, Swapped(outs, i, j), dir2, dfile2)
    ensures SameContent(fs, gs[i], gs[j])
  {
    var p := Swapped(outs, i, j);
    ReturnsRecord(fs2, Bytes(fs, rs), outs, p, dir2, dfile2, i);
    assert p[i] == outs[j] && p[..i] == outs[..i];
    OutsAt(fs, gs, dir, dfile, i);
    OutsAt(fs, gs, dir, dfile, j);
    RunInherits(fs, rs, i);
    SizeOfRun(fs, gs[i]);
    NewRecordCopies(fs, rs, dir, dfile, i);
    NewRecordCopies(fs, rs, dir, dfile, j);
    SameRecordSameSize(fs2, outs[i], outs[j]);
    SamePiece(Copier(fs2), outs, p, i);
  }

  lemma ReturnsTies(fs: FileSystem, rs: seq<Wfdisc>, dir: string, dfile: string, dir2: string, dfile2: string,
                    gs: seq<seq<Wfdisc>>, fs2: FileSystem, outs: seq<Wfdisc>, i: nat, j: nat)
    requires Sound(fs, rs) && FirstPass(fs, rs, dir, dfile, gs, fs2, outs) && Agreeing(gs) && i < j < |gs|
    requires Ties(AtMost, gs[i][0], gs[j][0])
    requires ReturnsFromEverySort(fs2, Bytes(fs, rs), outs, dir2, dfile2)
    ensures SameContent(fs, gs[i], gs[j])
  {
    RunsAreMaximal(Follows, rs);
    NewRecordsSorted(fs, rs, dir, dfile);
    OutsArePreorder(fs, rs, gs, outs, dir, dfile);
    OrderOfOuts(fs, gs, dir, dfile, i, j);
    OrderOfOuts(fs, gs, dir, dfile, j, i);
    SwappedTiesAreSorted(AtMost, outs, i, j);
    assert IsSortOf(AtMost, outs, outs);
    SwapShowsContent(fs, rs, dir, dfile, dir2, dfile2, gs, fs2, outs, i, j);
  }

  lemma ReturnsCondition(fs: FileSystem, rs: seq<Wfdisc>, dir: string, dfile: string, dir2: string, dfile2: string,
                         gs: seq<seq<Wfdisc>>, fs2: FileSystem, outs: seq<Wfdisc>)
    requires Sound(fs, rs) && FirstPass(fs, rs, dir, dfile, gs, fs2, outs)
    requires ReturnsFromEverySort(fs2, Bytes(fs, rs), outs, dir2, dfile2)
    ensures Agreeing(gs) && NoneJoins(gs) && TiesAgree(fs, gs)
  {
    NewRecordsSorted(fs, rs, dir, dfile);
    assert IsSortOf(AtMost, outs, outs);
    ReturnsUnjoined(fs, rs, dir, dfile, dir2, dfile2, gs, fs2, outs);
    forall k | 0 <= k < |gs| ensures WidthsAgree(gs[k]) {
      ReturnsWidths(fs, rs, dir, dfile, dir2, dfile2, gs, fs2, outs, k);
    }
    forall i, j | 0 <= i < j < |gs| && Ties(AtMost, gs[i][0], gs[j][0]) ensures SameContent(fs, gs[i], gs[j]) {
      ReturnsTies(fs, rs, dir, dfile, dir2, dfile2, gs, fs2, outs, i, j);
    }
  }

  lemma ConditionReturnsAll(fs: FileSystem, rs: seq<Wfdisc>, dir: string, dfile: string, dir2: string, dfile2: string,
                            gs: seq<seq<Wfdisc>>, fs2: FileSystem, outs: seq<Wfdisc>)
    requires Sound(fs, rs) && FirstPass(fs, rs, dir, dfile, gs, fs2, outs)
    requires Agreeing(gs) && NoneJoins(gs) && TiesAgree(fs, gs)
    ensures ReturnsFromEverySort(fs2, Bytes(fs, rs), outs, dir2, dfile2)
  {
    forall p | IsSortOf(AtMost, p, outs) ensures Returns(fs2, Bytes(fs, rs), outs, p, dir2, dfile2) {
      ConditionReturns(fs, rs, dir, dfile, dir2, dfile2, gs, fs2, outs, p);
    }
  }

  /** Running wdcat again on its own output gives back its data and its index, whatever order qsort chooses among
      records that tie, if and only if the sizes in each run add up, no two neighbouring runs join again, and runs that
      start level have the same content. */
  lemma RemergeIsIdentityIff(fs: FileSystem, rs: seq<Wfdisc>, dir: string, dfile: string, dir2: string, dfile2: string)
    requires Sound(fs, rs)
    ensures var gs, fs2 := Runs(Follows, rs), NewFiles(fs, rs, dir, dfile);
            var outs := Outs(fs, gs, dir, dfile);
            ReturnsFromEverySort(fs2, Bytes(fs, rs), outs, dir2, dfile2)
            <==> Agreeing(gs) && NoneJoins(gs) && TiesAgree(fs, gs)
  {
    var gs, fs2 := Runs(Follows, rs), NewFiles(fs, rs, dir, dfile);
    var outs := Outs(fs, gs, dir, dfile);
    if ReturnsFromEverySort(fs2, Bytes(fs, rs), outs, dir2, dfile2) {
      ReturnsCondition(fs, rs, dir, dfile, dir2, dfile2, gs, fs2, outs);
    }
    if Agreeing(gs) && NoneJoins(gs) && TiesAgree(fs, gs) {
      ConditionReturnsAll(fs, rs, dir, dfile, dir2, dfile2, gs, fs2, outs);
    }
  }

  // ---- the three parts of the condition ----

  /** Runs with exact junctions never join again. */
  lemma ExactRunsStayApart(rs: seq<Wfdisc>)
    requires Typed(rs) && Rated(rs)
    requires forall k | 0 <= k < |Runs(Follows, rs)| :: Rated(Runs(Follows, rs)[k]) && Exact(Runs(Follows, rs)[k])
    ensures NoneJoins(Runs(Follows, rs))
  {
    var gs := Runs(Follows, rs);
    RunsAreMaximal(Follows, rs);
    forall k | 0 < k < |gs| ensures !JoinAgain(gs[k - 1], gs[k]) {
      assert Chain(Follows, gs[k - 1]) && !Follows(Last(gs[k - 1]), gs[k][0]);
      ExactHasNoDrift(gs[k - 1]);
      FollowsIff(Last(gs[k - 1]), gs[k][0]);
    }
  }

  /** An inexact junction: a 10 s sample at 0 s, one at 1 s, one at 25 s. The third does not continue the second, but it
      does continue the record merged from the first two. */
  lemma InexactRemergeMayMerge(r: Wfdisc)
    ensures var a := r.(time := 0.0, smprate := 0.1, nsamp := 1);
            var b, c := a.(time := 1.0), a.(time := 25.0);
            Follows(a, b) && !Follows(b, c) && JoinAgain([a, b], [c])
  {
    var a := r.(time := 0.0, smprate := 0.1, nsamp := 1);
    var b, c := a.(time := 1.0), a.(time := 25.0);
    assert [a, b] == [a] + [b];
    SumOne(Nsamp, a);
    SumSnoc(Nsamp, [a], b);
    assert ImpliedEnd(a) == 10.0 && ImpliedEnd(b) == 11.0;
  }

  /** A tie: two records of one channel and time, but of different rates. */
  lemma TiedRatesDiffer(fs: FileSystem, r: Wfdisc)
    ensures var a, b := r.(smprate := 1.0), r.(smprate := 2.0);
            Ties(AtMost, a, b) && !Follows(a, b) && !SameContent(fs, [a], [b])
  {
    var a, b := r.(smprate := 1.0), r.(smprate := 2.0);
    AtMostIs(a, b);
    AtMostIs(b, a);
    assert OutRec([a], 0, "", "").smprate != OutRec([b], 0, "", "").smprate;
  }

  // ---- two indexes that do not come back ----

  lemma RunsOfTwo(a: Wfdisc, b: Wfdisc)
    ensures Runs(Follows, [a, b]) == if Follows(a, b) then [[a, b]] else [[a], [b]]
  {
    RunsStep([], a);
    RunsStep([a], b);
    assert [] + [a] == [a] && [a] + [b] == [a, b];
    assert Runs(Follows, [a]) == [[a]];
  }

  lemma RunsOfThree(a: Wfdisc, b: Wfdisc, c: Wfdisc)
    requires Follows(a, b) && !Follows(b, c)
    ensures Runs(Follows, [a, b, c]) == [[a, b], [c]]
  {
    RunsOfTwo(a, b);
    RunsStep([a, b], c);
    assert [a, b] + [c] == [a, b, c];
  }

  lemma SoundIf(fs: FileSystem, rs: seq<Wfdisc>, r: Wfdisc)
    requires WrdSize(r.datatyp) > 0 && r.nsamp >= 0 && CopyStatus(fs, r).Ok?
    requires forall i | 0 <= i < |rs| :: rs[i].smprate != 0.0
    requires forall i | 0 <= i < |rs| :: rs[i] == r.(time := rs[i].time, smprate := rs[i].smprate)
    requires Spaced(rs) && SortedBy(AtMost, rs)
    ensures Sound(fs, rs)
  {
    CompareIsPreorder(rs);
    AllFitMeans(fs, rs);
  }

  /** The new index of two records that tie but differ in rate does not come back from every sort. */
  lemma TiedIndexIsReordered(fs: FileSystem, r: Wfdisc, dir: string, dfile: string, dir2: string, dfile2: string)
    requires WrdSize(r.datatyp) > 0 && r.nsamp >= 0 && CopyStatus(fs, r).Ok?
    ensures var rs := [r.(smprate := 1.0), r.(smprate := 2.0)];
            var outs := Outs(fs, Runs(Follows, rs), dir, dfile);
            && Sound(fs, rs)
            && !ReturnsFromEverySort(NewFiles(fs, rs, dir, dfile), Bytes(fs, rs), outs, dir2, dfile2)
  {
    var a, b := r.(smprate := 1.0), r.(smprate := 2.0);
    var rs := [a, b];
    TiedRatesDiffer(fs, r);
    RunsOfTwo(a, b);
    SoundIf(fs, rs, r);
    assert Runs(Follows, rs)[0][0] == a && Runs(Follows, rs)[1][0] == b;
    RemergeIsIdentityIff(fs, rs, dir, dfile, dir2, dfile2);
  }

  /** The new index of the three records of InexactRemergeMayMerge does not come back. */
  lemma InexactIndexIsMergedFurther(fs: FileSystem, r: Wfdisc, dir: string, dfile: string, dir2: string, dfile2: string)
    requires WrdSize(r.datatyp) > 0 && r.nsamp == 1 && CopyStatus(fs, r).Ok?
    ensures var a := r.(time := 0.0, smprate := 0.1);
            var rs := [a, a.(time := 1.0), a.(time := 25.0)];
            var outs := Outs(fs, Runs(Follows, rs), dir, dfile);
            && Sound(fs, rs)
            && !ReturnsFromEverySort(NewFiles(fs, rs, dir, dfile), Bytes(fs, rs), outs, dir2, dfile2)
  {
    var a := r.(time := 0.0, smprate := 0.1);
    var b, c := a.(time := 1.0), a.(time := 25.0);
    var rs := [a, b, c];
    InexactRemergeMayMerge(r);
    RunsOfThree(a, b, c);
    SoundIf(fs, rs, r);
    assert Runs(Follows, rs)[0] == [a, b] && Runs(Follows, rs)[1] == [c];
    RemergeIsIdentityIff(fs, rs, dir, dfile, dir2, dfile2);
  }
}
