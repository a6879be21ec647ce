/** aps-gsras: azimuths from $T lines, averaged over all readings of at least a given quality. */
module ApsGsras {
  import opened Statistics

  type Line = seq<string>

  datatype Reading = Reading(azimuth: real, qual: int)

  datatype Lib = Lib(atoi: string -> int, atof: string -> real)

  const TSTRING := "$T"

  /** The thresholds that main reports. */
  const THRESHOLDS := [0, 10, 20, 30, 40, 50, 60, 70, 80, 90, 100]

  predicate IsReading(l: Line) {
    |l| == 22 && l[0] == TSTRING
  }

  function Readings(lib: Lib, lines: seq<Line>, n: nat): seq<Reading>
    requires n <= |lines|
  {
    if n == 0 then []
    else if IsReading(lines[n - 1])
      then Readings(lib, lines, n - 1) + [Reading(lib.atof(lines[n - 1][2]), lib.atoi(lines[n - 1][9]))]
    else Readings(lib, lines, n - 1)
  }

  /** A line of 22 tokens, the first of which is $T, saves a reading with its third token as azimuth and its tenth as
      quality; another line saves none. */
  lemma LineSavesIff(lib: Lib, lines: seq<Line>, i: nat)
    requires i < |lines|
    ensures var l, before, after := lines[i], Readings(lib, lines, i), Readings(lib, lines, i + 1);
            after == if |l| == 22 && l[0] == "$T" then before + [Reading(lib.atof(l[2]), lib.atoi(l[9]))] else before
  {}

  /** The thresholds are the multiples of ten from 0 to 100. */
  lemma ThresholdsAre()
    ensures |THRESHOLDS| == 11 && forall k :: 0 <= k < 11 ==> THRESHOLDS[k] == 10 * k
  {}

  /** Match: quality -1 passes every threshold. */
  predicate Match(have: int, want: int) {
    have == -1 || have >= want
  }

  function AtLeast(qual: int): Reading -> bool {
    (r: Reading) => Match(r.qual, qual)
  }

  function Azimuth(): Reading -> real {
    (r: Reading) => r.azimuth
  }

  class Program {
    const lib: Lib
    var azimuth: real
    var qual: int
    var list: seq<Reading>

    constructor (lib: Lib)
      ensures this.lib == lib && list == []
    {
      this.lib := lib;
      azimuth, qual, list := 0.0, 0, [];
    }

    method ProcessTstring(token: Line) returns (ok: bool)
      modifies `azimuth, `qual
      ensures ok <==> |token| == 22
      ensures ok ==> azimuth == lib.atof(token[2]) && qual == lib.atoi(token[9])
    {
      if |token| != 22 {
        return false;
      }
      azimuth, qual := lib.atof(token[2]), lib.atoi(token[9]);
      return true;
    }

    /** The read loop; every line has at least one token. */
    method ReadAll(lines: seq<Line>)
      requires list == [] && forall l :: l in lines ==> l != []
      modifies this
      ensures list == Readings(lib, lines, |lines|)
    {
      var n := 0;
      while n < |lines|
        invariant 0 <= n <= |lines| && list == Readings(lib, lines, n)
      {
        assert lines[n] in lines;
        if lines[n][0] == TSTRING {
          var ok := ProcessTstring(lines[n]);
          if ok {
            list := list + [Reading(azimuth, qual)];
          }
        }
        n := n + 1;
      }
    }

    /** The eleven calls at the end of main. */
    method Summaries() returns (rows: seq<Stats>)
      ensures |rows| == |THRESHOLDS|
      ensures forall k :: 0 <= k < |rows| ==> rows[k] == Summary(Picked(list, AtLeast(THRESHOLDS[k]), Azimuth()))
    {
      rows := [];
      for k := 0 to |THRESHOLDS|
        invariant |rows| == k
        invariant forall i :: 0 <= i < k ==> rows[i] == Summary(Picked(list, AtLeast(THRESHOLDS[i]), Azimuth()))
      {
        var s := ComputeMean(list, AtLeast(THRESHOLDS[k]), Azimuth());
        rows := rows + [s];
      }
    }
  }

  // ---- thresholds ----

  /** The readings selected at a threshold. */
  function Selected(rs: seq<Reading>, qual: int): seq<Reading> {
    if rs == [] then []
    else Selected(rs[..|rs| - 1], qual) + if AtLeast(qual)(rs[|rs| - 1]) then [rs[|rs| - 1]] else []
  }

  /** The summary of a threshold is taken over the readings selected at it. */
  lemma {:induction false} SummaryIsOfSelected(rs: seq<Reading>, qual: int)
    ensures |Picked(rs, AtLeast(qual), Azimuth())| == |Selected(rs, qual)|
    ensures forall i :: 0 <= i < |Selected(rs, qual)| ==>
              Picked(rs, AtLeast(qual), Azimuth())[i] == Selected(rs, qual)[i].azimuth
  {
    if rs != [] {
      SummaryIsOfSelected(rs[..|rs| - 1], qual);
    }
  }

  /** Raising the threshold only takes readings away: selecting at the higher threshold from the readings of the lower
      one gives those of the higher, in order. Quality -1 does not disturb this. */
  lemma {:induction false} SelectionShrinks(rs: seq<Reading>, low: int, high: int)
    requires low <= high
    ensures Selected(Selected(rs, low), high) == Selected(rs, high)
    ensures multiset(Selected(rs, high)) <= multiset(Selected(rs, low))
  {
    if rs != [] {
      var before, r := rs[..|rs| - 1], rs[|rs| - 1];
      SelectionShrinks(before, low, high);
      if AtLeast(low)(r) {
        assert (Selected(before, low) + [r])[..|Selected(before, low)|] == Selected(before, low);
      } else {
        assert Selected(before, low) + [] == Selected(before, low);
      }
    }
  }

  lemma {:induction false} SelectedAre(rs: seq<Reading>, qual: int)
    ensures forall r :: r in Selected(rs, qual) <==> r in rs && Match(r.qual, qual)
  {
    if rs != [] {
      var before, last := rs[..|rs| - 1], rs[|rs| - 1];
      SelectedAre(before, qual);
      assert rs == before + [last];
    }
  }

  /** At a threshold above -1, the readings selected are those of at least that quality if and only if none has
      quality -1. */
  lemma ThresholdIsExactIff(rs: seq<Reading>, qual: int)
    requires qual > -1
    ensures (forall r :: r in Selected(rs, qual) <==> r in rs && r.qual >= qual)
       <==> (forall r :: r in rs ==> r.qual != -1)
  {
    SelectedAre(rs, qual);
    if r :| r in rs && r.qual == -1 {
      assert r in Selected(rs, qual) && !(r.qual >= qual);
    }
  }

  /** A reading of quality -1 is selected at the highest threshold. */
  lemma QualityMinusOnePasses(azimuth: real)
    ensures var r := Reading(azimuth, -1); Selected([r], 100) == [r]
  {
    var r := Reading(azimuth, -1);
    assert Selected([r][..0], 100) == [];
  }
}
