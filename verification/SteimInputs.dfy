/** Inputs that Steim 1 does not bring back, or for which the header or the statics are off. */
module SteimInputs {
  import opened Grouping
  import opened SteimGroups
  import opened SteimWords
  import opened Steim
  import opened SteimDecode
  import opened SteimImage
  import opened SteimFacts
  import opened SteimEnds

  // ---- two samples ----

  lemma FarBlock(src: seq<int>)
    requires src == [0, 40000]
    ensures Int32s(src) && Wrap(src[1] - src[0]) == 40000 && Count(src, 1) == 2 && src[..2] == src
  {
    assert Diffs(src) == [0, 40000];
    assert GroupsFrom([0], [40000]) == [[0], [40000]] + GroupsFrom([], []);
    assert Groups([0, 40000]) == [[0], [40000]];
    FlattenPair([0], [40000]);
  }

  /** A second sample 40000 above the first is lost, on either kind of host. */
  lemma FarSecondSampleIsLost(src: seq<int>, little: bool, destlen: int)
    requires src == [0, 40000] && destlen > 2
    ensures Count(src, 1) == 2 && !DecodesTo(Image(src, 1, little), destlen, Result(0, src))
  {
    FarBlock(src);
    RoundTripIff(src, 1, little, destlen);
  }

  /** Nor is it missed when the array has just two elements. */
  lemma FarSecondSampleIsNotMissed(src: seq<int>, little: bool) returns (r: Result)
    requires src == [0, 40000]
    ensures DecodesTo(Image(src, 1, little), 2, r) && r.status == 0 && r.dest != src
  {
    FarBlock(src);
    r := ExactArrayIff(src, 1, little);
  }

  lemma OneApart(src: seq<int>)
    requires src == [0, 1]
    ensures Int32s(src) && Wrap(src[1] - src[0]) == 1 && src[..2] == src
  {}

  lemma OneWordBlock(src: seq<int>)
    requires src == [0, 1]
    ensures Count(src, 1) == 2 && |WordsFor(src, 1)| == 1
  {
    TwoInAWord();
    FlattenOne([0, 1]);
    KeptOne(src, Diffs(src));
  }

  lemma KeptOne(src: seq<int>, ds: seq<int>)
    requires src == [0, 1] && ds == Diffs(src)
    ensures ds == [0, 1]
  {}

  /** Two samples one apart fill an array of two, and the call fails. */
  lemma TwoSamplesFail(src: seq<int>, little: bool)
    requires src == [0, 1]
    ensures DecodesTo(Image(src, 1, little), 2, Result(-2, src))
  {
    OneApart(src);
    OneWordBlock(src);
    SlotsTakenIff(src, 1);
    var r := ExactArrayIff(src, 1, little);
  }

  lemma TwoInAWord()
    ensures Groups([0, 1]) == [[0, 1]]
  {
    assert [0, 1][1..] == [1] && [1][1..] == [] && [0] + [1] == [0, 1];
    assert GroupsFrom([0], [1]) == GroupsFrom([0, 1], []);
    assert GroupsFrom([], [0, 1]) == [] + GroupsFrom([0], [1]);
  }

  // ---- equal samples ----

  function Flat(n: nat): (xs: seq<int>)
    ensures |xs| == n && forall i | 0 <= i < n :: xs[i] == 0
  {
    seq(n, _ => 0)
  }

  lemma FourFlat(rest: seq<int>, room: int, fed: nat)
    requires room > 1
    ensures EndFrom([], [0, 0, 0, 0] + rest, room, fed) == EndFrom([], rest, room - 1, fed + 4)
    ensures GroupsFrom([], [0, 0, 0, 0] + rest) == [[0, 0, 0, 0]] + GroupsFrom([], rest)
  {
    var d3, d2, d1 := [0, 0, 0] + rest, [0, 0] + rest, [0] + rest;
    FeedFlat();
    NothingBefore(GroupsFrom([0], d3));
    assert ([0, 0, 0, 0] + rest)[1..] == d3 && d3[1..] == d2 && d2[1..] == d1 && d1[1..] == rest;
    FlatSteps(d1, d2, d3, rest, room, fed);
  }

  lemma FeedFlat()
    ensures Feed([], 0) == Fed([], [0]) && Feed([0], 0) == Fed([], [0, 0]) && Feed([0, 0], 0) == Fed([], [0, 0, 0])
    ensures Feed([0, 0, 0], 0) == Fed([[0, 0, 0, 0]], [])
  {
    assert [0] + [0] == [0, 0] && [0, 0] + [0] == [0, 0, 0] && [0, 0, 0] + [0] == [0, 0, 0, 0];
  }

  lemma FlatSteps(d1: seq<int>, d2: seq<int>, d3: seq<int>, rest: seq<int>, room: int, fed: nat)
    requires room > 1 && d1 != [] && d2 != [] && d3 != [] && d1[0] == d2[0] == d3[0] == 0
    requires d3[1..] == d2 && d2[1..] == d1 && d1[1..] == rest
    ensures EndFrom([0], d3, room, fed + 1) == EndFrom([], rest, room - 1, fed + 4)
    ensures GroupsFrom([0], d3) == [[0, 0, 0, 0]] + GroupsFrom([], rest)
  {
    FeedFlat();
    NothingBefore(GroupsFrom([0, 0, 0], d1));
    NothingBefore(GroupsFrom([0, 0], d2));
    assert EndFrom([0, 0, 0], d1, room, fed + 3) == EndFrom([], rest, room - 1, fed + 4);
    assert EndFrom([0, 0], d2, room, fed + 2) == EndFrom([0, 0, 0], d1, room, fed + 3);
    assert GroupsFrom([0, 0, 0], d1) == [[0, 0, 0, 0]] + GroupsFrom([], rest);
    assert GroupsFrom([0, 0], d2) == GroupsFrom([0, 0, 0], d1);
  }

  /** Equal samples fill words of four. */
  lemma {:induction false} FlatWords(k: nat, tail: seq<int>, room: int, fed: nat)
    requires room > k
    ensures EndFrom([], Flat(4 * k) + tail, room, fed) == EndFrom([], tail, room - k, fed + 4 * k)
    ensures GroupsFrom([], Flat(4 * k) + tail) == seq(k, _ => [0, 0, 0, 0]) + GroupsFrom([], tail)
  {
    if k == 0 {
      assert Flat(0) + tail == tail;
    } else {
      var rest := Flat(4 * (k - 1)) + tail;
      assert Flat(4 * k) + tail == [0, 0, 0, 0] + rest;
      FourFlat(rest, room, fed);
      FlatWords(k - 1, tail, room - 1, fed + 4);
      assert seq(k, _ => [0, 0, 0, 0]) == [[0, 0, 0, 0]] + seq(k - 1, _ => [0, 0, 0, 0]);
    }
  }

  /** Forty-nine equal samples in one frame: the flush completes it. */
  lemma FlatBlock(src: seq<int>)
    requires src == Flat(49)
    ensures FilledByFlush(src, 1) && Count(src, 1) == 49
  {
    assert Diffs(src) == Flat(48) + [0];
    FlatWords(12, [0], Capacity(1), 0);
    FeedFlat();
    assert [0][1..] == [] && EndFrom([0], [], 1, 49) == End(49, true, [0], 1);
    assert EndFrom([], [0], 1, 48) == EndFrom([0], [], 1, 49);
    HeaderIsLastIff(src, 1);
  }

  /** A block that the flush completes comes back from a big-endian host and not from another. */
  lemma FilledFallsShort(src: seq<int>, frames: nat, little: bool, destlen: int)
    requires |src| > 1 && Int32s(src) && src[1] == src[0] && frames > 0 && destlen > |src|
    requires FilledByFlush(src, frames) && Count(src, frames) == |src|
    ensures DecodesTo(Image(src, frames, little), destlen, Result(0, src)) <==> !little
  {
    assert src[..|src|] == src;
    assert Wrap(src[1] - src[0]) == 0;
    RoundTripIff(src, frames, little, destlen);
  }

  /** On a host that is not big-endian the bytes of its key word are reversed, and the samples do not come back. */
  lemma FlatBlockFallsShort(src: seq<int>, destlen: int)
    requires src == Flat(49) && destlen > 49
    ensures Count(src, 1) == 49 && src[1] == src[0] && Image(src, 1, true) != Image(src, 1, false)
    ensures DecodesTo(Image(src, 1, false), destlen, Result(0, src))
    ensures !DecodesTo(Image(src, 1, true), destlen, Result(0, src))
  {
    FlatBlock(src);
    KeySwappedIff(src, 1);
    FilledFallsShort(src, 1, false, destlen);
    FilledFallsShort(src, 1, true, destlen);
  }

  // ---- the header ----

  /** Fifty equal samples and 1, and a jump of 200, in one frame: the block ends with the fiftieth sample, and the
      header has the one behind it. */
  lemma HeaderIsAhead()
    ensures var src := Flat(50) + [1, 201];
      && Count(src, 1) == 50 && src[49] == 0 && EndOf(src, 1).fed == 51 && Taken(src, 51) == 1
  {
    var src := Flat(50) + [1, 201];
    var tail := [0, 0, 1, 200];
    assert Diffs(src) == Flat(48) + tail;
    FlatWords(12, tail, Capacity(1), 0);
    assert tail[1..] == [0, 1, 200] && [0, 1, 200][1..] == [1, 200] && [1, 200][1..] == [200];
    FeedJump();
    assert EndFrom([0, 0, 1], [200], 1, 51) == End(51, false, [0, 0, 1], 1);
    assert EndFrom([0, 0], [1, 200], 1, 50) == End(51, false, [0, 0, 1], 1);
    assert EndFrom([0], [0, 1, 200], 1, 49) == End(51, false, [0, 0, 1], 1);
    HeaderIsLastIff(src, 1);
  }

  lemma FeedJump()
    ensures Feed([0, 0], 1) == Fed([], [0, 0, 1]) && |Feed([0, 0, 1], 200).words| == 2
  {}

  /** Fifty-one equal samples and 1: the block ends with the 1, and the header has the sample before it. */
  lemma HeaderLags()
    ensures var src := Flat(51) + [1];
      && Count(src, 1) == 52 && src[51] == 1 && EndOf(src, 1).fed == 51 && Taken(src, 51) == 0
  {
    var src := Flat(51) + [1];
    var tail := [0, 0, 0, 1];
    assert Diffs(src) == Flat(48) + tail;
    FlatWords(12, tail, Capacity(1), 0);
    assert tail[1..] == [0, 0, 1] && [0, 0, 1][1..] == [0, 1] && [0, 1][1..] == [1];
    FeedFlat();
    assert EndFrom([0, 0, 0], [1], 1, 51) == End(51, false, [0, 0, 0], 1);
    assert EndFrom([0, 0], [0, 1], 1, 50) == End(51, false, [0, 0, 0], 1);
    assert EndFrom([0], [0, 0, 1], 1, 49) == End(51, false, [0, 0, 0], 1);
    HeaderIsLastIff(src, 1);
  }

  // ---- what a call leaves behind ----

  /** Fifty-one equal samples and a jump of 200, in one frame: the call stops with a difference left over. */
  lemma JumpLeavesOneBehind()
    ensures var src := Flat(51) + [200];
      EndOf(src, 1) == End(51, false, [0, 0, 0], 1) && !LeavesNothing(Diffs(src), EndOf(src, 1))
  {
    var src := Flat(51) + [200];
    assert Diffs(src) == Flat(48) + [0, 0, 0, 200];
    FlatWords(12, [0, 0, 0, 200], Capacity(1), 0);
    var tail := [0, 0, 0, 200];
    assert tail[1..] == [0, 0, 200] && [0, 0, 200][1..] == [0, 200] && [0, 200][1..] == [200];
    assert EndFrom([0, 0, 0], [200], 1, 51) == End(51, false, [0, 0, 0], 1);
    assert EndFrom([0, 0], [0, 200], 1, 50) == End(51, false, [0, 0, 0], 1);
    assert EndFrom([0], [0, 0, 200], 1, 49) == End(51, false, [0, 0, 0], 1);
  }

  /** What that last difference does to the statics, when the words e have been written. */
  lemma JumpLeavesStatics(e: seq<seq<int>>)
    ensures Usable([0, 0, 0], SizeArg(200, false), ActionTable(STATE_3D1, SizeArg(200, false)))
    ensures FrmOf(Statics(STATE_3D1, Progress([0, 0, 0], e)), 200, false, |e| + 1)
         == Statics(STATE_NUL, Progress([0], e + [[0, 0]]))
  {
    assert [0, 0, 0][..2] == [0, 0] && [0, 0, 0][2..] == [0];
  }

  lemma SecondIsFirst(c: int, first: int)
    requires IsInt32(first)
    ensures Sampled([first], [[c, 0]]) == [first, first]
  {
    assert [c, 0][1..] == [0] && [0][1..] == [];
    assert Added([first], [0]) == [first] + [first];
  }

  /** A call that starts with a difference left over: of two samples, the second of which needs two bytes, it writes
      the left-over difference and that of the first, says that two samples are compressed and leaves the other
      difference for the next call. The decompressor sees the first sample twice. */
  lemma LeftoverSpoilsNext(c: int, x: int, first: int, capacity: nat)
    requires -128 <= c <= 127 && (-32768 < x < -128 || 127 < x <= 32767) && IsInt32(first) && capacity > 1
    ensures var start := Statics(STATE_NUL, Progress([c], []));
      && Usable([c], SizeArg(0, false), ActionTable(STATE_NUL, SizeArg(0, false)))
      && var s1 := FrmOf(start, 0, false, capacity);
      && Usable(s1.p.d, SizeArg(x, false), ActionTable(s1.state, SizeArg(x, false)))
      && var s2 := FrmOf(s1, x, false, capacity);
      && Usable(s2.p.d, SizeArg(0, true), ActionTable(s2.state, SizeArg(0, true)))
      && FrmOf(s2, 0, true, capacity) == Statics(STATE_NUL, Progress([x], [[c, 0]]))
    ensures Sampled([first], [[c, 0]]) == [first, first]
  {
    assert [c] + [0] == [c, 0] && [c, 0] + [x] == [c, 0, x];
    assert [c, 0, x][..2] == [c, 0] && [c, 0, x][2..] == [x];
    SecondIsFirst(c, first);
  }
}
