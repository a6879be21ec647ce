/** aps: pairs of $PLTIT and $GPGGA lines, and the mean azimuth of the readings they give. */
module Aps {
  import opened Statistics

  const MAX_TOKEN := 32

  /** What utilParse makes of a line: how many tokens it has, and the contents of the whole token array. The entries
      after the line's own keep pointing into the line buffer where earlier lines left them. */
  datatype Tokens = Tokens(ntoken: nat, token: seq<string>)

  /** A line with at least one token. */
  type Line = l: Tokens | 1 <= l.ntoken <= MAX_TOKEN == |l.token| witness Tokens(1, seq(MAX_TOKEN, _ => ""))

  const PLTIT := "$PLTIT"
  const GPGGA := "$GPGGA"
  const NFIX := 3
  const NSV := 13

  /** The numbers of a reading; its text fields are only printed. */
  datatype Reading = Reading(fix: int, nsv: int, azimuth: real)

  /** The C library's conversions. */
  datatype Lib = Lib(atoi: string -> int, atof: string -> real)

  predicate IsTag(l: Line, tag: string) {
    l.token[0] == tag
  }

  /** The entry behind a line's own tokens is a null pointer, which must not be where aps looks for the counts. */
  predicate Readable(lines: seq<Line>) {
    forall l :: l in lines && IsTag(l, GPGGA) ==> l.ntoken !in {6, 7}
  }

  /** strcasecmp with "M". */
  predicate IsMetres(s: string) {
    s == "M" || s == "m"
  }

  predicate Accepts(lib: Lib, l: Line) {
    && (l.ntoken == 15 || l.ntoken <= 10 || IsMetres(l.token[10]))
    && lib.atoi(l.token[6]) < NFIX && lib.atoi(l.token[7]) < NSV
  }

  // ---- what the lines mean, without the automaton ----

  /** The last line before n with one of the two tags is a $PLTIT. */
  predicate AfterPltit(lines: seq<Line>, n: nat)
    requires n <= |lines|
  {
    n > 0 && (IsTag(lines[n - 1], PLTIT) || (!IsTag(lines[n - 1], GPGGA) && AfterPltit(lines, n - 1)))
  }

  /** Line i is the $PLTIT that opens a pair. */
  predicate Opens(lines: seq<Line>, i: nat)
    requires i < |lines|
  {
    IsTag(lines[i], PLTIT) && !AfterPltit(lines, i)
  }

  /** Line i is the $GPGGA that closes a pair. */
  predicate Closes(lines: seq<Line>, i: nat)
    requires i < |lines|
  {
    IsTag(lines[i], GPGGA) && AfterPltit(lines, i)
  }

  /** The azimuth of the last opening line before n that has all seven tokens, 0 if there is none. */
  function AzimuthAt(lib: Lib, lines: seq<Line>, n: nat): real
    requires n <= |lines|
  {
    if n == 0 then 0.0
    else if Opens(lines, n - 1) && lines[n - 1].ntoken == 7 then lib.atof(lines[n - 1].token[2])
    else AzimuthAt(lib, lines, n - 1)
  }

  function ReadingOf(lib: Lib, l: Line, azimuth: real): Reading {
    Reading(lib.atoi(l.token[6]), lib.atoi(l.token[7]), azimuth)
  }

  /** The readings of the accepted closing lines among the first n. */
  function Readings(lib: Lib, lines: seq<Line>, n: nat): seq<Reading>
    requires n <= |lines|
  {
    if n == 0 then [] else Readings(lib, lines, n - 1) + ReadingAt(lib, lines, n - 1)
  }

  function ReadingAt(lib: Lib, lines: seq<Line>, i: nat): seq<Reading>
    requires i < |lines|
  {
    if Closes(lines, i) && Accepts(lib, lines[i]) then [ReadingOf(lib, lines[i], AzimuthAt(lib, lines, i))] else []
  }

  /** Line p is a $PLTIT, and no $GPGGA follows it before line n. */
  predicate OpenSince(lines: seq<Line>, p: nat, n: nat)
    requires p < n <= |lines|
  {
    lines[p].token[0] == "$PLTIT" && forall j :: p < j < n ==> lines[j].token[0] != "$GPGGA"
  }

  /** A pair is open before line n exactly if some $PLTIT line before it has no $GPGGA line after it. */
  lemma {:induction false} OpenIff(lines: seq<Line>, n: nat)
    requires n <= |lines|
    ensures AfterPltit(lines, n) <==> exists p :: 0 <= p < n && OpenSince(lines, p, n)
  {
    if n > 0 {
      OpenIff(lines, n - 1);
      if IsTag(lines[n - 1], PLTIT) {
        assert OpenSince(lines, n - 1, n);
      } else if !IsTag(lines[n - 1], GPGGA) && AfterPltit(lines, n - 1) {
        var p :| 0 <= p < n - 1 && OpenSince(lines, p, n - 1);
        assert OpenSince(lines, p, n);
      } else if exists p :: 0 <= p < n && OpenSince(lines, p, n) {
        var p :| 0 <= p < n && OpenSince(lines, p, n);
        assert OpenSince(lines, p, n - 1);
      }
    }
  }

  /** A $PLTIT line opens a pair if none is open, and a $GPGGA line closes one that is. */
  lemma PairsAre(lines: seq<Line>, i: nat)
    requires i < |lines|
    ensures Opens(lines, i) <==> lines[i].token[0] == "$PLTIT" && !AfterPltit(lines, i)
    ensures Closes(lines, i) <==> lines[i].token[0] == "$GPGGA" && AfterPltit(lines, i)
  {}

  /** When a line saves a reading: when it closes a pair, names its unit as metres or has fifteen tokens or at most
      ten, and has a fix below 3 and fewer than 13 satellites; and which. */
  lemma LineSavesIff(lib: Lib, lines: seq<Line>, i: nat)
    requires i < |lines|
    ensures var l, before, after := lines[i], Readings(lib, lines, i), Readings(lib, lines, i + 1);
      if && Closes(lines, i) && (l.ntoken <= 10 || l.ntoken == 15 || l.token[10] == "M" || l.token[10] == "m")
         && lib.atoi(l.token[6]) < 3 && lib.atoi(l.token[7]) < 13
      then && |after| == |before| + 1 && after[..|before|] == before
           && after[|before|] == Reading(lib.atoi(l.token[6]), lib.atoi(l.token[7]), AzimuthAt(lib, lines, i))
      else after == before
  {}

  // ---- the program ----

  class Program {
    const lib: Lib
    var fix: int
    var nsv: int
    var azimuth: real
    var awaited: string
    var list: seq<Reading>

    constructor (lib: Lib)
      ensures this.lib == lib && azimuth == 0.0 && awaited == PLTIT && list == []
    {
      this.lib := lib;
      fix, nsv, azimuth, awaited, list := 0, 0, 0.0, PLTIT, [];
    }

    method ProcessPLTIT(l: Line)
      modifies `azimuth
      ensures azimuth == if l.ntoken == 7 then lib.atof(l.token[2]) else old(azimuth)
    {
      if l.ntoken != 7 {
        return;
      }
      azimuth := lib.atof(l.token[2]);
    }

    method ProcessGPGGA(l: Line) returns (ok: bool)
      requires l.ntoken !in {6, 7}
      modifies `fix, `nsv
      ensures ok <==> Accepts(lib, l)
      ensures ok ==> fix == lib.atoi(l.token[6]) && nsv == lib.atoi(l.token[7])
    {
      if l.ntoken != 15 && l.ntoken > 10 && !IsMetres(l.token[10]) {
        return false;
      }
      fix := lib.atoi(l.token[6]);
      nsv := lib.atoi(l.token[7]);
      if fix >= NFIX {
        return false;
      }
      if nsv >= NSV {
        return false;
      }
      return true;
    }

    method SaveReading()
      modifies `list
      ensures list == old(list) + [Reading(fix, nsv, azimuth)]
    {
      list := list + [Reading(fix, nsv, azimuth)];
    }

    /** The body of the read loop, for line n. */
    method ProcessLine(lines: seq<Line>, n: nat)
      requires n < |lines| && Readable(lines)
      requires awaited == if AfterPltit(lines, n) then GPGGA else PLTIT
      requires azimuth == AzimuthAt(lib, lines, n) && list == Readings(lib, lines, n)
      modifies this
      ensures awaited == if AfterPltit(lines, n + 1) then GPGGA else PLTIT
      ensures azimuth == AzimuthAt(lib, lines, n + 1) && list == Readings(lib, lines, n + 1)
    {
      var l := lines[n];
      if l.token[0] == PLTIT {
        if awaited == PLTIT {
          ProcessPLTIT(l);
          awaited := GPGGA;
        }
      } else if l.token[0] == GPGGA {
        if awaited == GPGGA {
          var ok := ProcessGPGGA(l);
          if ok {
            SaveReading();
          }
          awaited := PLTIT;
        }
      }
    }

    /** The read loop: the automaton saves exactly the readings of the accepted closing lines. */
    method ReadAll(lines: seq<Line>)
      requires Readable(lines) && azimuth == 0.0 && awaited == PLTIT && list == []
      modifies this
      ensures awaited == if AfterPltit(lines, |lines|) then GPGGA else PLTIT
      ensures list == Readings(lib, lines, |lines|)
    {
      var n := 0;
      while n < |lines|
        invariant 0 <= n <= |lines|
        invariant awaited == if AfterPltit(lines, n) then GPGGA else PLTIT
        invariant azimuth == AzimuthAt(lib, lines, n) && list == Readings(lib, lines, n)
      {
        ProcessLine(lines, n);
        n := n + 1;
      }
    }

    /** The loops at the end of main: one summary for each fix and satellite count, and one for all readings. */
    method Summaries() returns (buckets: seq<Stats>, all: Stats)
      ensures |buckets| == NFIX * NSV
      ensures forall k :: 0 <= k < NFIX * NSV ==> buckets[k] == SummaryOf(list, k / NSV, k % NSV)
      ensures all == SummaryOf(list, -1, -1)
    {
      buckets := [];
      for f := 0 to NFIX
        invariant |buckets| == f * NSV
        invariant forall k :: 0 <= k < |buckets| ==> buckets[k] == SummaryOf(list, k / NSV, k % NSV)
      {
        for n := 0 to NSV
          invariant |buckets| == f * NSV + n
          invariant forall k :: 0 <= k < |buckets| ==> buckets[k] == SummaryOf(list, k / NSV, k % NSV)
        {
          var s := ComputeMean(list, InBucket(f, n), Azimuth());
          buckets := buckets + [s];
        }
      }
      all := ComputeMean(list, InBucket(-1, -1), Azimuth());
    }
  }

  // ---- the azimuth of a reading ----

  /** The line that opened the pair which is open before line n. */
  function Opener(lines: seq<Line>, n: nat): (p: nat)
    requires n <= |lines| && AfterPltit(lines, n)
    ensures p < n && Opens(lines, p)
  {
    if Opens(lines, n - 1) then n - 1 else Opener(lines, n - 1)
  }

  /** A reading carries the azimuth of the line that opened its own pair exactly when that line had its seven tokens;
      otherwise the azimuth that was current before the pair, however old. */
  lemma {:induction false} AzimuthIsOpeners(lib: Lib, lines: seq<Line>, n: nat)
    requires n <= |lines| && AfterPltit(lines, n)
    ensures var p := Opener(lines, n);
      AzimuthAt(lib, lines, n)
      == if lines[p].ntoken == 7 then lib.atof(lines[p].token[2]) else AzimuthAt(lib, lines, p)
  {
    if !Opens(lines, n - 1) {
      AzimuthIsOpeners(lib, lines, n - 1);
    }
  }

  /** As long as no pair has been opened by a line of seven tokens the azimuth is 0. */
  lemma {:induction false} NoAzimuthYet(lib: Lib, lines: seq<Line>, n: nat)
    requires n <= |lines| && forall p :: 0 <= p < n && Opens(lines, p) ==> lines[p].ntoken != 7
    ensures AzimuthAt(lib, lines, n) == 0.0
  {
    if n > 0 {
      NoAzimuthYet(lib, lines, n - 1);
    }
  }

  /** A pair whose $PLTIT line is short, after one whose line is complete: the second reading has the azimuth of the
      first. */
  lemma ShortPltitKeepsAzimuth(lib: Lib, a: Line, g: Line, b: Line)
    requires IsTag(a, PLTIT) && a.ntoken == 7 && IsTag(b, PLTIT) && b.ntoken == 3
    requires IsTag(g, GPGGA) && Accepts(lib, g)
    ensures var r := ReadingOf(lib, g, lib.atof(a.token[2])); Readings(lib, [a, g, b, g], 4) == [r, r]
  {
    var lines := [a, g, b, g];
    assert Opens(lines, 0) && AzimuthAt(lib, lines, 1) == lib.atof(a.token[2]);
    assert Closes(lines, 1) && AzimuthAt(lib, lines, 2) == lib.atof(a.token[2]);
    assert Opens(lines, 2) && AzimuthAt(lib, lines, 3) == lib.atof(a.token[2]);
    assert Closes(lines, 3);
    assert Readings(lib, lines, 1) == [];
    assert Readings(lib, lines, 2) == [ReadingOf(lib, g, lib.atof(a.token[2]))];
    assert Readings(lib, lines, 3) == Readings(lib, lines, 2);
  }

  // ---- the counts of a reading ----

  /** The lines have the same tokens of their own. */
  predicate SameTokens(a: Line, b: Line) {
    a.ntoken == b.ntoken && a.token[..a.ntoken] == b.token[..b.ntoken]
  }

  /** What a reading counts depends on its own $GPGGA line alone, whatever lines came before, if and only if the line
      has eight tokens or more. */
  lemma CountsAreOwnIff(lib: Lib, n: nat, x: string, y: string)
    requires 1 <= n <= MAX_TOKEN && lib.atoi(x) != lib.atoi(y)
    ensures (forall a: Line, b: Line | a.ntoken == n && SameTokens(a, b) ::
               ReadingOf(lib, a, 0.0) == ReadingOf(lib, b, 0.0))
       <==> n >= 8
  {
    if n < 8 {
      var stale := seq(MAX_TOKEN, i => x);
      var a: Line, b: Line := Tokens(n, stale), Tokens(n, stale[7 := y]);
      assert a.token[..n] == b.token[..n];
      assert SameTokens(a, b) && ReadingOf(lib, a, 0.0) != ReadingOf(lib, b, 0.0);
    } else {
      forall a: Line, b: Line | a.ntoken == n && SameTokens(a, b)
        ensures ReadingOf(lib, a, 0.0) == ReadingOf(lib, b, 0.0)
      {
        assert a.token[..n][6] == b.token[..n][6] && a.token[..n][7] == b.token[..n][7];
      }
    }
  }

  function CountOpens(lines: seq<Line>, n: nat): nat
    requires n <= |lines|
  {
    if n == 0 then 0 else CountOpens(lines, n - 1) + if Opens(lines, n - 1) then 1 else 0
  }

  function CountCloses(lines: seq<Line>, n: nat): nat
    requires n <= |lines|
  {
    if n == 0 then 0 else CountCloses(lines, n - 1) + if Closes(lines, n - 1) then 1 else 0
  }

  /** Opening and closing lines alternate, and a reading is saved for no more than each closing line. */
  lemma {:induction false} PairsAlternate(lib: Lib, lines: seq<Line>, n: nat)
    requires n <= |lines|
    ensures CountOpens(lines, n) == CountCloses(lines, n) + if AfterPltit(lines, n) then 1 else 0
    ensures |Readings(lib, lines, n)| <= CountCloses(lines, n)
  {
    if n > 0 {
      PairsAlternate(lib, lines, n - 1);
    }
  }

  // ---- the summaries ----

  /** Match: -1 stands for any value. */
  predicate Match(want: int, have: int) {
    have == -1 || have == want
  }

  function InBucket(fix: int, nsv: int): Reading -> bool {
    (r: Reading) => Match(r.fix, fix) && Match(r.nsv, nsv)
  }

  function Azimuth(): Reading -> real {
    (r: Reading) => r.azimuth
  }

  function SummaryOf(rs: seq<Reading>, fix: int, nsv: int): Stats {
    Summary(Picked(rs, InBucket(fix, nsv), Azimuth()))
  }

  function Count(s: Stats): nat {
    if s.NoData? then 0 else s.nsamp
  }

  /** The number of readings in the first k buckets. */
  function BucketTotal(rs: seq<Reading>, k: nat): nat {
    if k == 0 then 0 else BucketTotal(rs, k - 1) + Count(SummaryOf(rs, (k - 1) / NSV, (k - 1) % NSV))
  }

  lemma CountSnoc(rs: seq<Reading>, r: Reading, fix: int, nsv: int)
    ensures Count(SummaryOf(rs + [r], fix, nsv))
         == Count(SummaryOf(rs, fix, nsv)) + if InBucket(fix, nsv)(r) then 1 else 0
  {
    assert (rs + [r])[..|rs|] == rs;
  }

  /** The number of the bucket a reading belongs to, if its counts are not negative. */
  predicate InFirst(r: Reading, k: nat) {
    r.fix >= 0 && 0 <= r.nsv < NSV && r.fix * NSV + r.nsv < k
  }

  lemma {:induction false} BucketTotalSnoc(rs: seq<Reading>, r: Reading, k: nat)
    ensures BucketTotal(rs + [r], k) == BucketTotal(rs, k) + if InFirst(r, k) then 1 else 0
  {
    if k > 0 {
      BucketTotalSnoc(rs, r, k - 1);
      CountSnoc(rs, r, (k - 1) / NSV, (k - 1) % NSV);
      assert InBucket((k - 1) / NSV, (k - 1) % NSV)(r)
        <==> r.fix == (k - 1) / NSV && r.nsv == (k - 1) % NSV;
    }
  }

  lemma {:induction false} BucketTotalOfNone(k: nat)
    ensures BucketTotal([], k) == 0
  {
    if k > 0 {
      BucketTotalOfNone(k - 1);
    }
  }

  predicate Bounded(rs: seq<Reading>) {
    forall r :: r in rs ==> r.fix < NFIX && r.nsv < NSV
  }

  lemma {:induction false} ReadingsAreBounded(lib: Lib, lines: seq<Line>, n: nat)
    requires n <= |lines|
    ensures Bounded(Readings(lib, lines, n))
  {
    if n > 0 {
      ReadingsAreBounded(lib, lines, n - 1);
    }
  }

  /** The summaries by fix and satellite count account for every reading if and only if no count is negative. */
  lemma {:induction false} BucketsAccountForAllIff(rs: seq<Reading>)
    requires Bounded(rs)
    ensures Count(SummaryOf(rs, -1, -1)) == |rs|
    ensures BucketTotal(rs, NFIX * NSV) <= |rs|
    ensures BucketTotal(rs, NFIX * NSV) == |rs| <==> forall r :: r in rs ==> r.fix >= 0 && r.nsv >= 0
  {
    if rs == [] {
      BucketTotalOfNone(NFIX * NSV);
    } else {
      var before, r := rs[..|rs| - 1], rs[|rs| - 1];
      assert rs == before + [r];
      BucketsAccountForAllIff(before);
      CountSnoc(before, r, -1, -1);
      BucketTotalSnoc(before, r, NFIX * NSV);
      assert forall x :: x in rs <==> x in before || x == r;
    }
  }

  /** A reading whose fix is -1 is in the overall summary and in no bucket. */
  lemma NegativeFixIsInNoBucket(nsv: int, azimuth: real)
    requires nsv < NSV
    ensures var rs := [Reading(-1, nsv, azimuth)];
            Count(SummaryOf(rs, -1, -1)) == 1 && BucketTotal(rs, NFIX * NSV) == 0
  {
    var rs := [Reading(-1, nsv, azimuth)];
    assert rs[0] in rs;
    BucketsAccountForAllIff(rs);
  }
}
