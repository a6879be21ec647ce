/** wdcat: merge the waveforms of a sorted wfdisc into one new file, with new index records. */
module Wdcat {
  import opened CLib
  import opened Cssio
  import opened WdcatOrder
  import opened Grouping

  datatype Status = Ok | Exit(code: int)

  /** The time just after the last sample, according to start time, count and rate. */
  function ImpliedEnd(r: Wfdisc): real
    requires r.smprate != 0.0
  {
    r.time + r.nsamp as real / r.smprate
  }

  /** The gap or overlap between two records, in samples. */
  function ErrorInSamples(prev: Wfdisc, crnt: Wfdisc): real
    requires prev.smprate != 0.0
  {
    prev.smprate * Abs(crnt.time - ImpliedEnd(prev))
  }

  /** continuous(): same stream, and the gap or overlap is less than one sample. */
  predicate Continuous(prev: Wfdisc, crnt: Wfdisc)
    requires prev.smprate != 0.0
  {
    && SameChannel(prev, crnt)
    && prev.smprate == crnt.smprate
    && CToInt(ErrorInSamples(prev, crnt)) == 0
  }

  /** No rate is zero, by which the code would divide. */
  ghost predicate Rated(rs: seq<Wfdisc>) {
    forall i | 0 <= i < |rs| :: rs[i].smprate != 0.0
  }

  ghost predicate Counted(rs: seq<Wfdisc>) {
    forall i | 0 <= i < |rs| :: rs[i].nsamp >= 0
  }

  ghost predicate Typed(rs: seq<Wfdisc>) {
    forall i | 0 <= i < |rs| :: WrdSize(rs[i].datatyp) > 0
  }

  /** No record has the null channel, so the first one never continues the null record. */
  ghost predicate Channelled(rs: seq<Wfdisc>) {
    forall i | 0 <= i < |rs| :: rs[i].chan != NULL_WFDISC.chan
  }

  // ---- copying the samples of one record ----

  /** At most n words of size w of a file, from position pos up to the end of the file. */
  function CopyWords(file: seq<byte>, pos: nat, w: nat, n: int): seq<byte>
    requires w > 0
    decreases n
  {
    if n <= 0 || pos + w > |file| then []
    else file[pos..pos + w] + CopyWords(file, pos + w, w, n - 1)
  }

  predicate WordsFit(file: seq<byte>, pos: nat, w: nat, n: int)
    requires w > 0
    decreases n
  {
    n <= 0 || (pos + w <= |file| && WordsFit(file, pos + w, w, n - 1))
  }

  lemma {:induction false} CopyWordsIsSlice(file: seq<byte>, pos: nat, w: nat, n: int)
    requires w > 0
    ensures n > 0 ==> (WordsFit(file, pos, w, n) <==> pos + n * w <= |file|)
    ensures n >= 0 && WordsFit(file, pos, w, n) && pos <= |file| ==>
              0 <= n * w && pos + n * w <= |file| && CopyWords(file, pos, w, n) == file[pos..pos + n * w]
    decreases n
  {
    if n > 0 {
      assert (n - 1) * w + w == n * w && (n - 1) * w >= 0 by {
        MulStep(n, w);
      }
      CopyWordsIsSlice(file, pos + w, w, n - 1);
    }
  }

  lemma MulStep(n: int, w: nat)
    requires n > 0
    ensures (n - 1) * w + w == n * w && (n - 1) * w >= 0
  {
  }

  /** How copy() ends: 4 when the file cannot be opened or positioned, 5 when it is too short. */
  function CopyStatus(fs: FileSystem, r: Wfdisc): Status
    requires WrdSize(r.datatyp) > 0
  {
    if Path(r) !in fs || r.foff < 0 then Exit(4)
    else if !WordsFit(fs[Path(r)], r.foff, WrdSize(r.datatyp), r.nsamp) then Exit(5)
    else Ok
  }

  /** What copy() appends to the new file. */
  function Copied(fs: FileSystem, r: Wfdisc): seq<byte> {
    if WrdSize(r.datatyp) <= 0 || Path(r) !in fs || r.foff < 0 then []
    else CopyWords(fs[Path(r)], r.foff, WrdSize(r.datatyp), r.nsamp)
  }

  /** The bytes of a record's samples: nsamp words from foff in the file it names. */
  predicate HasSamples(fs: FileSystem, r: Wfdisc, bytes: seq<byte>) {
    && Path(r) in fs
    && r.nsamp >= 0
    && WrdSize(r.datatyp) > 0
    && var n := r.nsamp * WrdSize(r.datatyp);
       && 0 <= r.foff && 0 <= n && r.foff + n <= |fs[Path(r)]|
       && bytes == fs[Path(r)][r.foff..r.foff + n]
  }

  /** When copy() succeeds it has appended exactly the samples the record indexes. */
  lemma CopiedIsSamples(fs: FileSystem, r: Wfdisc)
    requires WrdSize(r.datatyp) > 0 && r.nsamp >= 0
    ensures CopyStatus(fs, r).Ok? ==> |Copied(fs, r)| == r.nsamp * WrdSize(r.datatyp)
    ensures CopyStatus(fs, r).Ok? && (r.nsamp > 0 || r.foff <= |fs[Path(r)]|) ==> HasSamples(fs, r, Copied(fs, r))
    ensures forall bytes | HasSamples(fs, r, bytes) :: CopyStatus(fs, r).Ok? && Copied(fs, r) == bytes
  {
    if Path(r) in fs && r.foff >= 0 {
      CopyWordsIsSlice(fs[Path(r)], r.foff, WrdSize(r.datatyp), r.nsamp);
    }
  }

  /** When and how copy() fails. */
  lemma CopyFailsIff(fs: FileSystem, r: Wfdisc)
    requires WrdSize(r.datatyp) > 0
    ensures CopyStatus(fs, r) == Exit(4) <==> Path(r) !in fs || r.foff < 0
    ensures CopyStatus(fs, r) == Exit(5)
       <==> Path(r) in fs && r.foff >= 0 && r.nsamp > 0 && |fs[Path(r)]| < r.foff + r.nsamp * WrdSize(r.datatyp)
  {
    if Path(r) in fs && r.foff >= 0 {
      CopyWordsIsSlice(fs[Path(r)], r.foff, WrdSize(r.datatyp), r.nsamp);
    }
  }

  /** The new .w file, open for writing; ftell is its length. */
  class WaveFile {
    var bytes: seq<byte>

    constructor ()
      ensures bytes == []
    {
      bytes := [];
    }

    method Write(word: seq<byte>)
      modifies this
      ensures bytes == old(bytes) + word
    {
      bytes := bytes + word;
    }
  }

  method Copy(fs: FileSystem, wfp: WaveFile, out: Wfdisc, inn: Wfdisc) returns (out': Wfdisc, status: Status)
    requires WrdSize(inn.datatyp) > 0
    modifies wfp
    ensures status == CopyStatus(fs, inn)
    ensures wfp.bytes == old(wfp.bytes) + Copied(fs, inn)
    ensures out' == if status.Ok? then out.(nsamp := out.nsamp + inn.nsamp, endtime := inn.endtime) else out
  {
    out' := out;
    var w := WrdSize(inn.datatyp);
    if Path(inn) !in fs || inn.foff < 0 {
      return out, Exit(4);
    }
    var file := fs[Path(inn)];
    var pos, i := inn.foff, 0;
    while i < inn.nsamp
      invariant 0 <= i && (i <= inn.nsamp || i == 0) && 0 <= pos
      invariant WordsFit(file, inn.foff, w, inn.nsamp) == WordsFit(file, pos, w, inn.nsamp - i)
      invariant wfp.bytes + CopyWords(file, pos, w, inn.nsamp - i)
             == old(wfp.bytes) + CopyWords(file, inn.foff, w, inn.nsamp)
    {
      if pos + w > |file| {
        return out, Exit(5);
      }
      wfp.Write(file[pos..pos + w]);
      pos, i := pos + w, i + 1;
    }
    out' := out.(nsamp := out.nsamp + inn.nsamp, endtime := inn.endtime);
    status := Ok;
  }

  // ---- the merge loop ----

  /** crnt is merged into the record that ends with prev. */
  predicate Follows(prev: Wfdisc, crnt: Wfdisc) {
    prev.smprate != 0.0 && Continuous(prev, crnt)
  }

  function Nsamp(r: Wfdisc): int {
    r.nsamp
  }

  function TotalSamp(g: seq<Wfdisc>): int {
    Sum(Nsamp, g)
  }

  function Copier(fs: FileSystem): Wfdisc -> seq<byte> {
    r => Copied(fs, r)
  }

  /** The samples of the records one after the other. */
  function Bytes(fs: FileSystem, rs: seq<Wfdisc>): seq<byte> {
    FlatMap(Copier(fs), rs)
  }

  /** The record that stands for a run whose samples start at offset off of the new file. */
  function OutRec(g: seq<Wfdisc>, off: nat, dir: string, dfile: string): Wfdisc
    requires g != []
  {
    g[0].(dir := dir, dfile := dfile, foff := off, nsamp := TotalSamp(g), endtime := Last(g).endtime)
  }

  ghost predicate NonEmpty(gs: seq<seq<Wfdisc>>) {
    forall k | 0 <= k < |gs| :: gs[k] != []
  }

  /** The new index: one record for each run, its offset the size of all runs before it. */
  function Outs(fs: FileSystem, gs: seq<seq<Wfdisc>>, dir: string, dfile: string): (outs: seq<Wfdisc>)
    requires NonEmpty(gs)
    ensures |outs| == |gs|
  {
    if gs == [] then []
    else Outs(fs, Init(gs), dir, dfile) + [OutRec(Last(gs), |Bytes(fs, Flatten(Init(gs)))|, dir, dfile)]
  }

  lemma {:induction false} OutsAt(fs: FileSystem, gs: seq<seq<Wfdisc>>, dir: string, dfile: string, k: nat)
    requires NonEmpty(gs) && k < |gs|
    ensures Outs(fs, gs, dir, dfile)[k] == OutRec(gs[k], |Bytes(fs, Flatten(gs[..k]))|, dir, dfile)
  {
    if k < |gs| - 1 {
      OutsAt(fs, Init(gs), dir, dfile, k);
      assert Init(gs)[..k] == gs[..k];
    }
  }

  /** What a new record says of the run g merged into it: whose samples they are, from when and at what rate, as the
      first record has it, and when they end, as the last one has it. */
  predicate Describes(o: Wfdisc, g: seq<Wfdisc>)
    requires g != []
  {
    && o.sta == g[0].sta && o.chan == g[0].chan && o.time == g[0].time && o.jdate == g[0].jdate
    && o.smprate == g[0].smprate && o.datatyp == g[0].datatyp && o.rest == g[0].rest
    && o.endtime == g[|g| - 1].endtime
  }

  /** Every new record describes its run, however long that is, and names the new file. */
  lemma OutsDescribe(fs: FileSystem, gs: seq<seq<Wfdisc>>, dir: string, dfile: string)
    requires NonEmpty(gs)
    ensures var outs := Outs(fs, gs, dir, dfile);
            forall k | 0 <= k < |gs| :: Describes(outs[k], gs[k]) && outs[k].dir == dir && outs[k].dfile == dfile
  {
    forall k | 0 <= k < |gs|
      ensures var o := Outs(fs, gs, dir, dfile)[k]; Describes(o, gs[k]) && o.dir == dir && o.dfile == dfile
    {
      OutsAt(fs, gs, dir, dfile, k);
    }
  }

  /** copy() can finish every one of the records. */
  predicate AllFit(fs: FileSystem, rs: seq<Wfdisc>)
    requires Typed(rs)
  {
    rs == [] || (AllFit(fs, Init(rs)) && CopyStatus(fs, Last(rs)).Ok?)
  }

  lemma {:induction false} AllFitMeans(fs: FileSystem, rs: seq<Wfdisc>)
    requires Typed(rs)
    ensures AllFit(fs, rs) <==> forall i | 0 <= i < |rs| :: CopyStatus(fs, rs[i]).Ok?
  {
    if rs != [] {
      AllFitMeans(fs, Init(rs));
      assert forall i | 0 <= i < |rs| - 1 :: Init(rs)[i] == rs[i];
    }
  }

  /** The loop state after the runs gs: what is written, and the record still open. */
  ghost predicate Merged(fs: FileSystem, gs: seq<seq<Wfdisc>>, dir: string, dfile: string,
                         recs: seq<Wfdisc>, out: Wfdisc)
    requires gs != [] && NonEmpty(gs)
  {
    && recs == Outs(fs, Init(gs), dir, dfile)
    && out == OutRec(Last(gs), |Bytes(fs, Flatten(Init(gs)))|, dir, dfile)
  }

  /** out with the samples of x counted in. */
  function Counting(out: Wfdisc, x: Wfdisc): Wfdisc {
    out.(nsamp := out.nsamp + x.nsamp, endtime := x.endtime)
  }

  lemma RunsStep(rs: seq<Wfdisc>, x: Wfdisc)
    ensures var gs := Runs(Follows, rs);
            Runs(Follows, rs + [x])
            == if rs != [] && Follows(Last(rs), x) then Init(gs) + [Last(gs) + [x]] else gs + [[x]]
  {
    assert Init(rs + [x]) == rs;
  }

  lemma JoinOpens(fs: FileSystem, gs: seq<seq<Wfdisc>>, x: Wfdisc, dir: string, dfile: string,
                  recs: seq<Wfdisc>, out: Wfdisc)
    requires gs != [] && NonEmpty(gs) && Merged(fs, gs, dir, dfile, recs, out)
    ensures Merged(fs, Init(gs) + [Last(gs) + [x]], dir, dfile, recs, Counting(out, x))
  {
    assert Init(Init(gs) + [Last(gs) + [x]]) == Init(gs);
    SumSnoc(Nsamp, Last(gs), x);
  }

  lemma StartOpens(fs: FileSystem, gs: seq<seq<Wfdisc>>, x: Wfdisc, dir: string, dfile: string)
    requires NonEmpty(gs)
    ensures Merged(fs, gs + [[x]], dir, dfile, Outs(fs, gs, dir, dfile),
                   Counting(x.(dir := dir, dfile := dfile, foff := |Bytes(fs, Flatten(gs))|, nsamp := 0), x))
  {
    assert Init(gs + [[x]]) == gs && Last(gs + [[x]]) == [x];
    SumOne(Nsamp, x);
  }

  /** A turn of the loop that continues the open record. */
  lemma TurnJoins(fs: FileSystem, rs: seq<Wfdisc>, x: Wfdisc, dir: string, dfile: string,
                  recs: seq<Wfdisc>, out: Wfdisc)
    requires rs != [] && Merged(fs, Runs(Follows, rs), dir, dfile, recs, out) && Follows(Last(rs), x)
    ensures Merged(fs, Runs(Follows, rs + [x]), dir, dfile, recs, Counting(out, x))
  {
    RunsStep(rs, x);
    JoinOpens(fs, Runs(Follows, rs), x, dir, dfile, recs, out);
  }

  /** A turn of the loop that writes the open record, if there is one, and opens another. */
  lemma TurnStarts(fs: FileSystem, rs: seq<Wfdisc>, x: Wfdisc, dir: string, dfile: string)
    requires rs != [] ==> !Follows(Last(rs), x)
    ensures Merged(fs, Runs(Follows, rs + [x]), dir, dfile, Outs(fs, Runs(Follows, rs), dir, dfile),
                   Counting(x.(dir := dir, dfile := dfile, foff := |Bytes(fs, rs)|, nsamp := 0), x))
  {
    RunsStep(rs, x);
    assert Flatten(Runs(Follows, rs)) == rs by {
      RunsAreMaximal(Follows, rs);
    }
    StartOpens(fs, Runs(Follows, rs), x, dir, dfile);
  }

  /** The records written so far and the record still open. */
  datatype Cursor = Cursor(recs: seq<Wfdisc>, out: Wfdisc)

  /** The loop body up to the copying, when rs has been merged and x is next. */
  function Open(fs: FileSystem, c: Cursor, rs: seq<Wfdisc>, x: Wfdisc, dir: string, dfile: string): Cursor {
    if rs != [] && Follows(Last(rs), x) then c
    else Cursor(if rs == [] then c.recs else c.recs + [c.out],
                x.(dir := dir, dfile := dfile, foff := |Bytes(fs, rs)|, nsamp := 0))
  }

  function After(fs: FileSystem, rs: seq<Wfdisc>, dir: string, dfile: string): Cursor {
    if rs == [] then Cursor([], NULL_WFDISC)
    else
      var c := Open(fs, After(fs, Init(rs), dir, dfile), Init(rs), Last(rs), dir, dfile);
      Cursor(c.recs, Counting(c.out, Last(rs)))
  }

  lemma {:induction false} AfterIsMerged(fs: FileSystem, rs: seq<Wfdisc>, dir: string, dfile: string)
    requires rs != []
    ensures var c := After(fs, rs, dir, dfile);
            && Merged(fs, Runs(Follows, rs), dir, dfile, c.recs, c.out)
            && c.recs + [c.out] == Outs(fs, Runs(Follows, rs), dir, dfile)
  {
    var init, x := Init(rs), Last(rs);
    assert rs == init + [x];
    if init != [] {
      AfterIsMerged(fs, init, dir, dfile);
    }
    if init != [] && Follows(Last(init), x) {
      var c := After(fs, init, dir, dfile);
      TurnJoins(fs, init, x, dir, dfile, c.recs, c.out);
    } else {
      TurnStarts(fs, init, x, dir, dfile);
    }
  }

  lemma AfterSnoc(fs: FileSystem, rs: seq<Wfdisc>, x: Wfdisc, dir: string, dfile: string)
    ensures var c := Open(fs, After(fs, rs, dir, dfile), rs, x, dir, dfile);
            After(fs, rs + [x], dir, dfile) == Cursor(c.recs, Counting(c.out, x))
  {
    SnocParts(rs, x);
  }

  /** The loop body of main: rs has been merged, prev is its last record, x comes next. */
  method MergeOne(fs: FileSystem, wfp: WaveFile, c: Cursor, prev: Wfdisc, x: Wfdisc, dir: string, dfile: string,
                  first: bool, ghost rs: seq<Wfdisc>)
    returns (c': Cursor, status: Status)
    requires WrdSize(x.datatyp) > 0 && x.chan != NULL_WFDISC.chan
    requires first == (rs == [])
    requires if first then prev == NULL_WFDISC else prev == Last(rs) && prev.smprate != 0.0
    requires c == After(fs, rs, dir, dfile) && wfp.bytes == Bytes(fs, rs)
    modifies wfp
    ensures status == CopyStatus(fs, x)
    ensures wfp.bytes == Bytes(fs, rs) + Copied(fs, x)
    ensures c'.recs == After(fs, rs + [x], dir, dfile).recs
    ensures status.Ok? ==> c' == After(fs, rs + [x], dir, dfile)
  {
    AfterSnoc(fs, rs, x, dir, dfile);
    c' := c;
    if !Continuous(prev, x) {
      c' := Cursor(if first then c.recs else c.recs + [c.out],
                   x.(dir := dir, dfile := dfile, foff := |wfp.bytes|, nsamp := 0));
    }
    var out;
    out, status := Copy(fs, wfp, c'.out, x);
    c' := Cursor(c'.recs, out);
  }

  /** What is in hand before record i. */
  predicate InHand(fs: FileSystem, sorted: seq<Wfdisc>, dir: string, dfile: string, i: nat, c: Cursor, prev: Wfdisc,
                   written: seq<byte>)
    requires i <= |sorted|
  {
    && written == Bytes(fs, sorted[..i]) && c == After(fs, sorted[..i], dir, dfile)
    && prev == if i == 0 then NULL_WFDISC else sorted[i - 1]
  }

  /** One turn of the loop, for record i. */
  method MergeTurn(fs: FileSystem, sorted: seq<Wfdisc>, dir: string, dfile: string, wfp: WaveFile, c: Cursor,
                   prev: Wfdisc, i: nat)
    returns (c': Cursor, status: Status)
    requires Rated(sorted) && Typed(sorted) && Channelled(sorted) && i < |sorted|
    requires InHand(fs, sorted, dir, dfile, i, c, prev, wfp.bytes)
    modifies wfp
    ensures status == CopyStatus(fs, sorted[i])
    ensures wfp.bytes == Bytes(fs, sorted[..i]) + Copied(fs, sorted[i])
    ensures c'.recs == After(fs, sorted[..i + 1], dir, dfile).recs
    ensures status.Ok? ==> InHand(fs, sorted, dir, dfile, i + 1, c', sorted[i], wfp.bytes)
  {
    assert sorted[..i + 1] == sorted[..i] + [sorted[i]];
    assert i > 0 ==> Last(sorted[..i]) == sorted[i - 1];
    FlatMapSnoc(Copier(fs), sorted[..i], sorted[i]);
    c', status := MergeOne(fs, wfp, c, prev, sorted[i], dir, dfile, i == 0, sorted[..i]);
  }

  /** The merge loop of main, over the sorted records. */
  method MergeLoop(fs: FileSystem, sorted: seq<Wfdisc>, dir: string, dfile: string, wfp: WaveFile)
    returns (recs: seq<Wfdisc>, status: Status, ghost n: nat)
    requires sorted != [] && Rated(sorted) && Typed(sorted) && Channelled(sorted) && wfp.bytes == []
    modifies wfp
    ensures n <= |sorted| && AllFit(fs, sorted[..n]) && (n < |sorted| ==> !CopyStatus(fs, sorted[n]).Ok?)
    ensures n == |sorted| ==>
              && status == Ok
              && wfp.bytes == Bytes(fs, sorted)
              && recs == Outs(fs, Runs(Follows, sorted), dir, dfile)
    ensures n < |sorted| ==>
              && status == CopyStatus(fs, sorted[n])
              && wfp.bytes == Bytes(fs, sorted[..n]) + Copied(fs, sorted[n])
              && recs == Outs(fs, Init(Runs(Follows, sorted[..n + 1])), dir, dfile)
  {
    var c, prev := Cursor([], NULL_WFDISC), NULL_WFDISC;
    var i := 0;
    while i < |sorted|
      invariant 0 <= i <= |sorted| && AllFit(fs, sorted[..i])
      invariant InHand(fs, sorted, dir, dfile, i, c, prev, wfp.bytes)
    {
      c, status := MergeTurn(fs, sorted, dir, dfile, wfp, c, prev, i);
      if !status.Ok? {
        AfterIsMerged(fs, sorted[..i + 1], dir, dfile);
        return c.recs, status, i;
      }
      FitsOneMore(fs, sorted, i);
      prev, i := sorted[i], i + 1;
    }
    assert sorted[..i] == sorted;
    AfterIsMerged(fs, sorted, dir, dfile);
    return c.recs + [c.out], Ok, |sorted|;
  }

  lemma FitsOneMore(fs: FileSystem, rs: seq<Wfdisc>, i: nat)
    requires Typed(rs) && i < |rs| && AllFit(fs, rs[..i]) && CopyStatus(fs, rs[i]).Ok?
    ensures AllFit(fs, rs[..i + 1])
  {
    assert Init(rs[..i + 1]) == rs[..i] && Last(rs[..i + 1]) == rs[i];
  }

  /** The checks main makes before it sorts: 2 for an empty index, 3 for an unusable record. */
  function CheckStatus(fs: FileSystem, input: seq<Wfdisc>): Status {
    if input == [] then Exit(2)
    else if exists r :: r in input && (r.chan == NULL_WFDISC.chan || WrdSize(r.datatyp) < 0 || Path(r) !in fs)
      then Exit(3)
    else Ok
  }

  /** main goes on if and only if there are records, and all have a channel, a known datatype and a file. */
  lemma ChecksPassIff(fs: FileSystem, input: seq<Wfdisc>)
    ensures CheckStatus(fs, input) == Ok
       <==> input != [] && forall r | r in input :: r.chan != "-" && WrdSize(r.datatyp) > 0 && Path(r) in fs
    ensures CheckStatus(fs, input) == Exit(2) <==> input == []
    ensures CheckStatus(fs, input) in {Ok, Exit(2), Exit(3)}
  {
    forall r | r in input ensures WrdSize(r.datatyp) < 0 <==> !(WrdSize(r.datatyp) > 0) {}
  }

  method Check(fs: FileSystem, input: seq<Wfdisc>) returns (status: Status)
    ensures status == CheckStatus(fs, input)
  {
    if input == [] {
      return Exit(2);
    }
    var i := 0;
    while i < |input|
      invariant 0 <= i <= |input|
      invariant forall k | 0 <= k < i ::
                  input[k].chan != NULL_WFDISC.chan && WrdSize(input[k].datatyp) >= 0 && Path(input[k]) in fs
    {
      if input[i].chan == NULL_WFDISC.chan || WrdSize(input[i].datatyp) < 0 || Path(input[i]) !in fs {
        assert input[i] in input;
        return Exit(3);
      }
      i := i + 1;
    }
    return Ok;
  }

  lemma CheckedRecords(fs: FileSystem, input: seq<Wfdisc>, sorted: seq<Wfdisc>)
    requires multiset(sorted) == multiset(input) && CheckStatus(fs, input).Ok?
    ensures sorted != [] && Typed(sorted) && Channelled(sorted)
  {
    assert input[0] in multiset(sorted);
    forall k | 0 <= k < |sorted| ensures WrdSize(sorted[k].datatyp) > 0 && sorted[k].chan != NULL_WFDISC.chan {
      assert sorted[k] in multiset(input);
    }
  }

  /** main: input is the index as read, sorted what qsort makes of it. The new file is not one of the inputs. */
  method Run(fs: FileSystem, input: seq<Wfdisc>, sorted: seq<Wfdisc>, dir: string, dfile: string)
    returns (recs: seq<Wfdisc>, wave: seq<byte>, status: Status)
    requires multiset(sorted) == multiset(input) && Rated(sorted)
    requires forall r | r in input :: Path(r) != PathOf(dir, dfile)
    ensures !CheckStatus(fs, input).Ok? ==> status == CheckStatus(fs, input) && recs == [] && wave == []
    ensures CheckStatus(fs, input).Ok? ==> Typed(sorted) && (status == Ok <==> AllFit(fs, sorted))
    ensures status == Ok ==> recs == Outs(fs, Runs(Follows, sorted), dir, dfile) && wave == Bytes(fs, sorted)
    ensures status == Ok ==>
              var gs := Runs(Follows, sorted);
              |recs| == |gs| && forall k | 0 <= k < |gs| :: Describes(recs[k], gs[k])
  {
    status := Check(fs, input);
    if !status.Ok? {
      return [], [], status;
    }
    CheckedRecords(fs, input, sorted);
    var wfp := new WaveFile();
    ghost var n;
    recs, status, n := MergeLoop(fs, sorted, dir, dfile, wfp);
    wave := wfp.bytes;
    AllFitMeans(fs, sorted);
    OutsDescribe(fs, Runs(Follows, sorted), dir, dfile);
    assert sorted[..|sorted|] == sorted;
  }
}
