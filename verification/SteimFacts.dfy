/** Compressing samples with Steim 1 and decompressing them again. */
module SteimFacts {
  import opened Grouping
  import opened SteimBuffer
  import opened SteimGroups
  import opened SteimWords
  import opened Steim
  import opened SteimDecode
  import opened SteimImage
  import opened SteimSwapped

  ghost predicate Int32s(xs: seq<int>) {
    forall i | 0 <= i < |xs| :: IsInt32(xs[i])
  }

  // ---- decoding words ----

  /** All words of differences, without a limit on the array. */
  function Sampled(dest: seq<int>, gs: seq<seq<int>>): (r: seq<int>)
    requires dest != []
    ensures r != []
    decreases |gs|
  {
    if gs == [] then dest else Sampled(Take(dest, gs[0]), gs[1..])
  }

  lemma {:induction false} SampledCount(dest: seq<int>, gs: seq<seq<int>>)
    requires dest != []
    ensures |dest| <= |Sampled(dest, gs)| <= |dest| + |FlatFrom(gs)|
    decreases |gs|
  {
    if gs != [] {
      SampledCount(Take(dest, gs[0]), gs[1..]);
    }
  }

  /** The words one after the other, from the front. */
  function FlatFrom(gs: seq<seq<int>>): seq<int> {
    if gs == [] then [] else gs[0] + FlatFrom(gs[1..])
  }

  lemma {:induction false} FlatIsFlatten(gs: seq<seq<int>>)
    ensures FlatFrom(gs) == Flatten(gs)
  {
    if gs != [] {
      FlatIsFlatten(gs[1..]);
      FlattenConcat([gs[0]], gs[1..]);
      FlattenOne(gs[0]);
      assert gs == [gs[0]] + gs[1..];
    }
  }

  /** Adding the differences of samples a to b to the first a samples gives the first b. */
  lemma {:induction false} AddedSamples(src: seq<int>, a: nat, b: nat)
    requires Int32s(src) && 0 < a <= b <= |src|
    ensures Added(src[..a], Diffs(src)[a..b]) == src[..b]
    decreases b - a
  {
    if a < b {
      var ds := Diffs(src)[a..b];
      assert ds[0] == Wrap(src[a] - src[a - 1]) && ds[1..] == Diffs(src)[a + 1..b];
      WrapCancels(src[a], src[a - 1]);
      assert src[..a] + [src[a]] == src[..a + 1];
      AddedSamples(src, a + 1, b);
    }
  }

  /** From the second sample on, words bring back the samples. */
  lemma {:induction false} WordsBringBack(src: seq<int>, a: nat, gs: seq<seq<int>>, b: nat)
    requires Int32s(src) && 2 <= a <= b <= |src| && FlatFrom(gs) == Diffs(src)[a..b]
    ensures Sampled(src[..a], gs) == src[..b]
    decreases |gs|
  {
    if gs != [] {
      var m := a + |gs[0]|;
      assert |FlatFrom(gs)| == |gs[0]| + |FlatFrom(gs[1..])|;
      assert gs[0] == FlatFrom(gs)[..|gs[0]|] && FlatFrom(gs[1..]) == FlatFrom(gs)[|gs[0]|..];
      assert gs[0] == Diffs(src)[a..m] && FlatFrom(gs[1..]) == Diffs(src)[m..b];
      AddedSamples(src, a, m);
      WordsBringBack(src, m, gs[1..], b);
    }
  }

  lemma LongStart(src: seq<int>, gs: seq<seq<int>>, n: nat)
    requires Int32s(src) && n <= |src| && gs != [] && |gs[0]| >= 2 && FlatFrom(gs) == Diffs(src)[..n]
    ensures Sampled([src[0]], gs) == src[..n]
  {
    var m := |gs[0]|;
    assert |FlatFrom(gs)| == m + |FlatFrom(gs[1..])|;
    assert gs[0] == FlatFrom(gs)[..m] && FlatFrom(gs[1..]) == FlatFrom(gs)[m..];
    assert gs[0][1..] == Diffs(src)[1..m] && FlatFrom(gs[1..]) == Diffs(src)[m..n];
    assert src[..1] == [src[0]];
    AddedSamples(src, 1, m);
    WordsBringBack(src, m, gs[1..], n);
  }

  /** A lone first difference makes the decompressor lose a sample, if there is more than one. */
  lemma ShortStart(first: int, gs: seq<seq<int>>)
    requires gs != [] && |gs[0]| == 1 && forall k | 0 <= k < |gs| :: gs[k] != []
    ensures |gs| == 1 ==> Sampled([first], gs) == [first]
    ensures |gs| > 1 ==> |Sampled([first], gs)| < |FlatFrom(gs)|
  {
    assert Take([first], gs[0]) == [first];
    if |gs| > 1 {
      var dest := Take([first], gs[1]);
      assert gs[1..][1..] == gs[2..] && gs[1..][0] == gs[1];
      assert |FlatFrom(gs)| == 1 + (|gs[1]| + |FlatFrom(gs[2..])|);
      SampledCount(dest, gs[2..]);
    }
  }

  // ---- decoding the output ----

  lemma {:induction false} EmptiesDecode(dest: seq<int>, n: nat, destlen: int)
    requires dest != [] && |dest| < destlen
    ensures Decode(dest, Empties(n), destlen) == Result(0, dest)
  {
    if n > 0 {
      TakeLong(dest, 0);
      assert Empties(n)[0] == EMPTY && Empties(n)[1..] == Empties(n - 1);
      EmptiesDecode(dest, n - 1, destlen);
    }
  }

  ghost predicate Readable(gs: seq<seq<int>>) {
    forall k | 0 <= k < |gs| :: DiffsOf(Encoded(gs[k])) == gs[k]
  }

  lemma {:induction false} WordsDecode(dest: seq<int>, gs: seq<seq<int>>, n: nat, destlen: int)
    requires dest != [] && Readable(gs) && |Sampled(dest, gs)| < destlen
    ensures Decode(dest, EncodedAll(gs) + Empties(n), destlen) == Result(0, Sampled(dest, gs))
    decreases |gs|
  {
    if gs == [] {
      assert EncodedAll(gs) + Empties(n) == Empties(n);
      EmptiesDecode(dest, n, destlen);
    } else {
      var cells := EncodedAll(gs) + Empties(n);
      assert cells[0] == Encoded(gs[0]) && cells[1..] == EncodedAll(gs[1..]) + Empties(n);
      SampledCount(dest, gs);
      WordsDecode(Take(dest, gs[0]), gs[1..], n, destlen);
    }
  }

  lemma HeaderDecodes(first: int, last: int, rest: seq<Cell>, destlen: int)
    requires AreCells(rest) && destlen > 1
    ensures AreCells(Header(first, last) + rest)
    ensures Decode([first], Header(first, last) + rest, destlen) == Decode([first], rest, destlen)
  {
    TakeLong([first], 0);
    var cells := Header(first, last) + rest;
    assert cells[1..][1..] == rest && cells[1..][0] == cells[1];
  }

  // ---- the words of the output ----

  lemma GroupInFlatten(gs: seq<seq<int>>, k: nat, i: nat)
    requires k < |gs| && i < |gs[k]|
    ensures gs[k][i] in Flatten(gs)
  {
    FlattenAt(gs, k);
    var p := |Flatten(gs[..k])|;
    assert Flatten(gs)[p + i] == gs[k][i];
  }

  lemma WordsAreReadable(gs: seq<seq<int>>)
    requires AllWords(gs) && forall x | x in Flatten(gs) :: IsInt32(x)
    ensures Readable(gs)
  {
    forall k | 0 <= k < |gs| ensures DiffsOf(Encoded(gs[k])) == gs[k] {
      forall i | 0 <= i < |gs[k]| ensures IsInt32(gs[k][i]) {
        GroupInFlatten(gs, k, i);
      }
      EncodedReads(gs[k]);
    }
  }

  lemma KeptIsPrefix(all: seq<seq<int>>, capacity: nat)
    ensures var gs := Kept(all, capacity);
            |Flatten(gs)| <= |Flatten(all)| && Flatten(gs) == Flatten(all)[..|Flatten(gs)|]
    ensures AllWords(all) ==> AllWords(Kept(all, capacity))
  {
    var gs := Kept(all, capacity);
    assert all == gs + all[|gs|..];
    FlattenConcat(gs, all[|gs|..]);
  }

  lemma NothingBefore<T>(s: seq<T>)
    ensures [] + s == s
  {}

  lemma GroupsHold(ds: seq<int>)
    ensures Flatten(Groups(ds)) == ds && AllWords(Groups(ds))
  {
    NothingBefore(ds);
    GroupsKeep([], ds);
  }

  /** The words that fit hold the first differences, and can be read back. */
  lemma KeptWords(ds: seq<int>, capacity: nat) returns (gs: seq<seq<int>>, n: nat)
    requires ds != [] && Size(ds[0]) == 1 && capacity > 0 && forall x | x in ds :: IsInt32(x)
    ensures gs == Kept(Groups(ds), capacity) && gs != [] && Groups(ds) != [] && gs[0] == Groups(ds)[0]
    ensures n == |Flatten(gs)| <= |ds| && FlatFrom(gs) == ds[..n]
    ensures Readable(gs) && AllWords(gs)
  {
    gs := Kept(Groups(ds), capacity);
    n := |Flatten(gs)|;
    GroupsHold(ds);
    KeptIsPrefix(Groups(ds), capacity);
    FirstWordIff(ds);
    FlatIsFlatten(gs);
    WordsAreReadable(gs);
  }

  lemma DiffsAreInt32(src: seq<int>)
    requires src != []
    ensures Diffs(src)[0] == 0 && forall x | x in Diffs(src) :: IsInt32(x)
  {
    forall x | x in Diffs(src) ensures IsInt32(x) {
      var i :| 0 <= i < |src| && x == Diffs(src)[i];
    }
  }

  /** What the decompressor makes of the words: the samples, or too few. */
  lemma SampledIff(src: seq<int>, gs: seq<seq<int>>, n: nat)
    requires src != [] && Int32s(src) && gs != [] && AllWords(gs) && n == |FlatFrom(gs)| <= |src|
    requires FlatFrom(gs) == Diffs(src)[..n] && Groups(Diffs(src)) != [] && gs[0] == Groups(Diffs(src))[0]
    ensures n > 0 && |Sampled([src[0]], gs)| <= n
    ensures Sampled([src[0]], gs) == src[..n] <==> n == 1 || Size(Diffs(src)[1]) < 4
  {
    DiffsAreInt32(src);
    FirstWordIff(Diffs(src));
    assert IsWord(gs[0]);
    FirstCounts(gs);
    if |gs[0]| >= 2 {
      LongStart(src, gs, n);
    } else {
      assert forall k | 0 <= k < |gs| :: IsWord(gs[k]);
      ShortStart(src[0], gs);
    }
  }

  lemma FirstCounts(gs: seq<seq<int>>)
    requires gs != [] && AllWords(gs)
    ensures |FlatFrom(gs)| >= |gs[0]| && (|gs| > 1 ==> |FlatFrom(gs)| > |gs[0]|)
  {
    assert |FlatFrom(gs)| == |gs[0]| + |FlatFrom(gs[1..])|;
    if |gs| > 1 {
      assert IsWord(gs[1]);
    }
  }

  // ---- the block ----

  lemma CountFits(src: seq<int>, frames: nat)
    requires src != [] && frames > 0
    ensures |Flatten(WordsFor(src, frames))| <= |src|
  {
    GroupsHold(Diffs(src));
    KeptIsPrefix(Groups(Diffs(src)), Capacity(frames));
  }

  /** The number of samples that util_csteim1 says it has compressed. */
  function Count(src: seq<int>, frames: nat): (n: nat)
    requires src != [] && frames > 0
    ensures n <= |src|
  {
    CountFits(src, frames);
    |Flatten(WordsFor(src, frames))|
  }

  /** What util_dsteim1 makes of a block: it starts with the first sample and goes through all slots. */
  ghost predicate DecodesTo(fs: seq<Frame>, destlen: int, r: Result) {
    && fs != [] && AreFrames(fs) && |fs[0].words| == SLOTS && |fs[0].words[0]| == 4
    && r == Decode([Read4(fs[0].words[0])], AllCells(fs), destlen)
  }

  lemma FramesDecode(cells: seq<Cell>, frames: nat, first: int, destlen: int)
    requires |cells| == SLOTS * frames && frames > 0 && AreCells(cells)
    requires IsInt32(first) && cells[0].word == Bytes4(first)
    ensures DecodesTo(Frames(cells), destlen, Decode([first], cells, destlen))
  {
    FramesRead(cells, frames);
    FirstWord(cells, first);
    Bytes4Read(first);
  }

  lemma PaddedIs(head: seq<Cell>, cs: seq<Cell>, frames: nat)
    requires |head| == 2 && 2 + |cs| <= SLOTS * frames
    ensures Padded(head + cs, frames) == head + (cs + Empties(Capacity(frames) - |cs|))
  {}

  lemma ImageDecodes(src: seq<int>, frames: nat, destlen: int, gs: seq<seq<int>>, last: int)
    requires src != [] && Int32s(src) && frames > 0 && gs != [] && |gs| <= Capacity(frames) && Readable(gs)
    requires destlen > |Sampled([src[0]], gs)|
    ensures DecodesTo(Frames(Padded(Header(src[0], last) + EncodedAll(gs), frames)), destlen,
                      Result(0, Sampled([src[0]], gs)))
  {
    var n := Capacity(frames) - |gs|;
    PaddedIs(Header(src[0], last), EncodedAll(gs), frames);
    SampledCount([src[0]], gs);
    HeaderDecodes(src[0], last, EncodedAll(gs) + Empties(n), destlen);
    WordsDecode([src[0]], gs, n, destlen);
    FramesDecode(Padded(Header(src[0], last) + EncodedAll(gs), frames), frames, src[0], destlen);
  }

  lemma FirstWord(cells: seq<Cell>, first: int)
    requires |cells| >= SLOTS && cells[0].word == Bytes4(first)
    ensures Frames(cells) != [] && |Frames(cells)[0].words| == SLOTS && Frames(cells)[0].words[0] == Bytes4(first)
  {
    assert Frames(cells)[0] == FrameOf(cells[..SLOTS]);
  }

  lemma DecodesOnce(fs: seq<Frame>, destlen: int, r: Result, r': Result)
    requires DecodesTo(fs, destlen, r)
    ensures DecodesTo(fs, destlen, r') <==> r' == r
  {}

  lemma RoundTripOf(src: seq<int>, frames: nat, destlen: int, ds: seq<int>, gs: seq<seq<int>>, n: nat, fs: seq<Frame>)
    requires src != [] && Int32s(src) && frames > 0 && ds == Diffs(src) && n == |FlatFrom(gs)| <= |src| && n < destlen
    requires gs != [] && AllWords(gs) && Readable(gs) && |gs| <= Capacity(frames)
    requires FlatFrom(gs) == ds[..n] && Groups(ds) != [] && gs[0] == Groups(ds)[0]
    requires exists last :: fs == Frames(Padded(Header(src[0], last) + EncodedAll(gs), frames))
    ensures n >= 1 && (DecodesTo(fs, destlen, Result(0, src[..n])) <==> n == 1 || Size(ds[1]) < 4)
  {
    var last :| fs == Frames(Padded(Header(src[0], last) + EncodedAll(gs), frames));
    SampledIff(src, gs, n);
    ImageDecodes(src, frames, destlen, gs, last);
    DecodesOnce(fs, destlen, Result(0, Sampled([src[0]], gs)), Result(0, src[..n]));
  }

  // ---- a key word whose bytes are in reverse order ----

  /** The codes of words tell how many differences there are. */
  lemma {:induction false} WordsCarry(gs: seq<seq<int>>)
    requires AllWords(gs)
    ensures Carried(CodesOf(EncodedAll(gs))) == |FlatFrom(gs)|
  {
    if gs != [] {
      assert IsWord(gs[0]);
      WordsCarry(gs[1..]);
      assert EncodedAll(gs)[1..] == EncodedAll(gs[1..]);
      assert CodesOf(EncodedAll(gs))[1..] == CodesOf(EncodedAll(gs[1..]));
    }
  }

  lemma BlockCarries(first: int, last: int, gs: seq<seq<int>>)
    requires AllWords(gs)
    ensures Carried(CodesOf(Header(first, last) + EncodedAll(gs))) == |FlatFrom(gs)|
  {
    WordsCarry(gs);
    CodesConcat(Header(first, last), EncodedAll(gs));
    assert CodesOf(Header(first, last)) == [0, 0] && [0, 0][1..] == [0] && [0][1..] == [];
  }

  /** When words fill all slots, reversing the last key word loses the differences of its twelfth slot. */
  lemma SwappedBlock(first: int, last: int, gs: seq<seq<int>>, frames: nat, fs: seq<Frame>, swapped: seq<Frame>)
    requires frames > 0 && AllWords(gs) && |gs| == Capacity(frames)
    requires fs == Frames(Padded(Header(first, last) + EncodedAll(gs), frames)) && |fs| == frames
    requires |Last(fs).key| == 4 && swapped == WithKey(fs, frames - 1, Backwards(Last(fs).key))
    ensures AreFrames(swapped) && Carried(CodesOf(AllCells(swapped))) < |FlatFrom(gs)| && swapped != fs
  {
    var cells := Header(first, last) + EncodedAll(gs);
    assert Padded(cells, frames) == cells;
    assert cells[SLOTS * frames - 4] == Encoded(gs[|gs| - 4]) && IsWord(gs[|gs| - 4]);
    BlockCarries(first, last, gs);
    SwappedCarries(cells, frames, fs, swapped);
    FramesRead(cells, frames);
  }

  lemma TwoOrMore(gs: seq<seq<int>>)
    requires AllWords(gs) && |gs| > 1
    ensures |FlatFrom(gs)| > 1
  {
    assert IsWord(gs[0]);
    FirstCounts(gs);
  }

  lemma FallsShort(first: int, last: int, gs: seq<seq<int>>, frames: nat, fs: seq<Frame>, swapped: seq<Frame>,
                   destlen: int) returns (r: Result)
    requires frames > 0 && AllWords(gs) && |gs| == Capacity(frames)
    requires fs == Frames(Padded(Header(first, last) + EncodedAll(gs), frames)) && |fs| == frames
    requires |Last(fs).key| == 4 && swapped == WithKey(fs, frames - 1, Backwards(Last(fs).key))
    ensures DecodesTo(swapped, destlen, r) && |r.dest| < |FlatFrom(gs)|
    ensures destlen >= |FlatFrom(gs)| ==> r.status == 0
  {
    SwappedBlock(first, last, gs, frames, fs, swapped);
    FirstWord(Padded(Header(first, last) + EncodedAll(gs), frames), first);
    TwoOrMore(gs);
    r := Decode([Read4(swapped[0].words[0])], AllCells(swapped), destlen);
    DecodeCount([Read4(swapped[0].words[0])], AllCells(swapped), destlen);
  }

  lemma WordsOfBlock(src: seq<int>, frames: nat)
    requires src != [] && frames > 0
    ensures AllWords(WordsFor(src, frames)) && |FlatFrom(WordsFor(src, frames))| == Count(src, frames)
  {
    GroupsHold(Diffs(src));
    KeptIsPrefix(Groups(Diffs(src)), Capacity(frames));
    FlatIsFlatten(WordsFor(src, frames));
  }

  /** A block whose last frame is completed by the flush, on a host that is not big-endian: samples are missing, and
      success is reported in an array of the right size. */
  lemma SwappedFallsShort(src: seq<int>, frames: nat, destlen: int) returns (r: Result)
    requires src != [] && frames > 0 && FilledByFlush(src, frames)
    ensures DecodesTo(Image(src, frames, true), destlen, r) && |r.dest| < Count(src, frames)
    ensures destlen >= Count(src, frames) ==> r.status == 0
    ensures |WordsFor(src, frames)| == Capacity(frames) && Count(src, frames) > 1
    ensures Image(src, frames, true) != Image(src, frames, false)
  {
    var fs, last := Plain(src, frames), Taken(src, EndOf(src, frames).fed);
    ImageIs(src, frames, true);
    ImageIs(src, frames, false);
    SlotsTakenIff(src, frames);
    WordsOfBlock(src, frames);
    TwoOrMore(WordsFor(src, frames));
    SwappedBlock(src[0], last, WordsFor(src, frames), frames, fs, Image(src, frames, true));
    r := FallsShort(src[0], last, WordsFor(src, frames), frames, fs, Image(src, frames, true), destlen);
  }

  /** The host does not matter, if and only if it is not the flush that completes the last frame. */
  lemma KeySwappedIff(src: seq<int>, frames: nat)
    requires src != [] && frames > 0
    ensures Image(src, frames, true) == Image(src, frames, false) <==> !FilledByFlush(src, frames)
  {
    if FilledByFlush(src, frames) {
      var _ := SwappedFallsShort(src, frames, 0);
    } else {
      ImageIs(src, frames, true);
      ImageIs(src, frames, false);
    }
  }

  // ---- round trip ----

  /** Decompressing what was compressed, in an array with room to spare, gives back the samples that were compressed,
      all of them and in order, if and only if there is just one or the second differs from the first by what fits two
      bytes, and the host is big-endian or it is not the flush that completes the last frame. */
  lemma RoundTripIff(src: seq<int>, frames: nat, little: bool, destlen: int)
    requires src != [] && Int32s(src) && frames > 0 && destlen > Count(src, frames)
    ensures Count(src, frames) >= 1
    ensures DecodesTo(Image(src, frames, little), destlen, Result(0, src[..Count(src, frames)]))
       <==> && (Count(src, frames) == 1 || -32768 < Wrap(src[1] - src[0]) <= 32767)
            && !(little && FilledByFlush(src, frames))
  {
    SecondFitsIff(src);
    if little && FilledByFlush(src, frames) {
      var r := SwappedFallsShort(src, frames, destlen);
      DecodesOnce(Image(src, frames, true), destlen, r, Result(0, src[..Count(src, frames)]));
    } else {
      PlainRoundTrip(src, frames, destlen);
      ImageIs(src, frames, little);
    }
  }

  lemma SecondFitsIff(src: seq<int>)
    ensures |src| > 1 ==> (Size(Diffs(src)[1]) < 4 <==> -32768 < Wrap(src[1] - src[0]) <= 32767)
    ensures |src| > 1 ==> (Size(Diffs(src)[1]) == 4 <==> !(-32768 < Wrap(src[1] - src[0]) <= 32767))
  {}

  lemma PlainRoundTrip(src: seq<int>, frames: nat, destlen: int)
    requires src != [] && Int32s(src) && frames > 0 && destlen > Count(src, frames)
    ensures Count(src, frames) >= 1
    ensures DecodesTo(Plain(src, frames), destlen, Result(0, src[..Count(src, frames)]))
       <==> Count(src, frames) == 1 || Size(Diffs(src)[1]) < 4
  {
    DiffsAreInt32(src);
    var gs, n := KeptWords(Diffs(src), Capacity(frames));
    RoundTripOf(src, frames, destlen, Diffs(src), gs, n, Plain(src, frames));
  }

  // ---- arrays without room to spare ----

  /** From the second sample on, an array that the words fill exactly is too small as soon as another slot follows. */
  lemma {:induction false} WordsDecodeTight(dest: seq<int>, gs: seq<seq<int>>, n: nat, destlen: int)
    requires |dest| >= 2 && Readable(gs) && AllWords(gs) && |Sampled(dest, gs)| == destlen
    ensures Decode(dest, EncodedAll(gs) + Empties(n), destlen)
         == Result(if n == 0 then 0 else -2, Sampled(dest, gs))
    decreases |gs|
  {
    var cells := EncodedAll(gs) + Empties(n);
    if gs == [] {
      assert cells == Empties(n);
    } else {
      assert cells[0] == Encoded(gs[0]) && cells[1..] == EncodedAll(gs[1..]) + Empties(n) && IsWord(gs[0]);
      SampledCount(Take(dest, gs[0]), gs[1..]);
      WordsDecodeTight(Take(dest, gs[0]), gs[1..], n, destlen);
    }
  }

  lemma TightImage(first: int, last: int, gs: seq<seq<int>>, n: nat, destlen: int)
    requires gs != [] && |gs[0]| >= 2 && Readable(gs) && AllWords(gs) && |Sampled([first], gs)| == destlen
    ensures AreCells(Header(first, last) + (EncodedAll(gs) + Empties(n)))
    ensures Decode([first], Header(first, last) + (EncodedAll(gs) + Empties(n)), destlen)
         == Result(if n == 0 then 0 else -2, Sampled([first], gs))
  {
    var cells := EncodedAll(gs) + Empties(n);
    assert cells[0] == Encoded(gs[0]) && cells[1..] == EncodedAll(gs[1..]) + Empties(n);
    SampledCount(Take([first], gs[0]), gs[1..]);
    HeaderDecodes(first, last, cells, destlen);
    WordsDecodeTight(Take([first], gs[0]), gs[1..], n, destlen);
  }

  lemma CellsDecode(cells: seq<Cell>, frames: nat, first: int, destlen: int, r: Result)
    requires |cells| == SLOTS * frames && frames > 0 && AreCells(cells) && IsInt32(first)
    requires cells[0].word == Bytes4(first) && r == Decode([first], cells, destlen)
    ensures DecodesTo(Frames(cells), destlen, r)
  {
    FramesDecode(cells, frames, first, destlen);
  }

  lemma TightDecodes(first: int, last: int, frames: nat, gs: seq<seq<int>>, destlen: int)
    requires IsInt32(first) && frames > 0 && gs != [] && |gs| <= Capacity(frames) && |gs[0]| >= 2
    requires Readable(gs) && AllWords(gs) && |Sampled([first], gs)| == destlen
    ensures DecodesTo(Frames(Padded(Header(first, last) + EncodedAll(gs), frames)), destlen,
                      Result(if |gs| == Capacity(frames) then 0 else -2, Sampled([first], gs)))
  {
    var n := Capacity(frames) - |gs|;
    var cells := Header(first, last) + (EncodedAll(gs) + Empties(n));
    TightImage(first, last, gs, n, destlen);
    CellsDecode(cells, frames, first, destlen, Result(if n == 0 then 0 else -2, Sampled([first], gs)));
    PaddedIs(Header(first, last), EncodedAll(gs), frames);
  }

  lemma PlainExact(src: seq<int>, frames: nat) returns (r: Result)
    requires src != [] && Int32s(src) && frames > 0
    ensures Count(src, frames) >= 1 && DecodesTo(Plain(src, frames), Count(src, frames), r)
    ensures r.status == if Count(src, frames) > 1
                           && (|WordsFor(src, frames)| == Capacity(frames) || Size(Diffs(src)[1]) == 4) then 0 else -2
    ensures r.dest == src[..Count(src, frames)] <==> Count(src, frames) == 1 || Size(Diffs(src)[1]) < 4
  {
    DiffsAreInt32(src);
    var last := Taken(src, EndOf(src, frames).fed);
    var gs, n := KeptWords(Diffs(src), Capacity(frames));
    SampledIff(src, gs, n);
    if n == 1 {
      r := Result(-2, [src[0]]);
      TooSmall(src[0], last, frames, gs);
      assert src[..1] == [src[0]];
    } else if Size(Diffs(src)[1]) < 4 {
      FirstIsLong(Diffs(src), gs[0]);
      TightDecodes(src[0], last, frames, gs, n);
      r := Result(if |gs| == Capacity(frames) then 0 else -2, src[..n]);
    } else {
      LoneFirst(src, gs, n);
      ImageDecodes(src, frames, n, gs, last);
      r := Result(0, Sampled([src[0]], gs));
    }
  }

  lemma LoneFirst(src: seq<int>, gs: seq<seq<int>>, n: nat)
    requires |src| > 1 && Size(Diffs(src)[1]) == 4 && AllWords(gs) && n == |FlatFrom(gs)| > 1 && gs != []
    requires Groups(Diffs(src)) != [] && gs[0] == Groups(Diffs(src))[0]
    ensures |Sampled([src[0]], gs)| < n
  {
    DiffsAreInt32(src);
    FirstWordIff(Diffs(src));
    assert forall k | 0 <= k < |gs| :: IsWord(gs[k]);
    ShortStart(src[0], gs);
  }

  /** An array of one is never enough: after the first sample there are slots to look at. */
  lemma TooSmall(first: int, last: int, frames: nat, gs: seq<seq<int>>)
    requires IsInt32(first) && frames > 0 && |gs| <= Capacity(frames)
    ensures DecodesTo(Frames(Padded(Header(first, last) + EncodedAll(gs), frames)), 1, Result(-2, [first]))
  {
    CellsDecode(Padded(Header(first, last) + EncodedAll(gs), frames), frames, first, 1, Result(-2, [first]));
  }

  /** An array of exactly as many elements as there are samples: the call reports success if and only if there are two
      samples or more, and either the last slot of the last frame holds samples or the second difference needs four
      bytes; otherwise it returns -2. Either way the array holds the samples if and only if they survive at all. */
  lemma ExactArrayIff(src: seq<int>, frames: nat, little: bool) returns (r: Result)
    requires src != [] && Int32s(src) && frames > 0
    ensures Count(src, frames) >= 1 && DecodesTo(Image(src, frames, little), Count(src, frames), r)
    ensures r.status == if && Count(src, frames) > 1
                           && (|| |WordsFor(src, frames)| == Capacity(frames)
                               || !(-32768 < Wrap(src[1] - src[0]) <= 32767))
                        then 0 else -2
    ensures r.dest == src[..Count(src, frames)]
       <==> && (Count(src, frames) == 1 || -32768 < Wrap(src[1] - src[0]) <= 32767)
            && !(little && FilledByFlush(src, frames))
  {
    SecondFitsIff(src);
    if little && FilledByFlush(src, frames) {
      r := SwappedFallsShort(src, frames, Count(src, frames));
    } else {
      r := PlainExact(src, frames);
      ImageIs(src, frames, little);
    }
  }

  lemma FirstIsLong(ds: seq<int>, g: seq<int>)
    requires |ds| > 1 && Size(ds[0]) == 1 && Size(ds[1]) < 4 && Groups(ds) != [] && g == Groups(ds)[0]
    ensures |g| >= 2
  {
    FirstWordIff(ds);
    GroupsHold(ds);
    assert IsWord(Groups(ds)[0]);
  }

  // ---- what a call leaves behind ----

  lemma {:induction false} EndWithRoom(p: seq<int>, ds: seq<int>, room: int, fed: nat)
    requires |GroupsFrom(p, ds)| < room
    ensures var e := EndFrom(p, ds, room, fed); e.flushed && |Flushed(e.saved)| < e.room
    decreases |ds|
  {
    if ds != [] {
      var f := Feed(p, ds[0]);
      EndWithRoom(f.saved, ds[1..], room - |f.words|, fed + 1);
    }
  }

  /** When the words leave a slot free, everything is compressed: the header has the last sample, the byte order of the
      host does not matter, and the next call finds nothing left over. */
  lemma RoomToSpare(src: seq<int>, frames: nat)
    requires src != [] && frames > 0 && |Groups(Diffs(src))| < Capacity(frames)
    ensures Count(src, frames) == |src| && Taken(src, EndOf(src, frames).fed) == src[|src| - 1]
    ensures Image(src, frames, true) == Image(src, frames, false) && LeavesNothing(Diffs(src), EndOf(src, frames))
  {
    EndWithRoom([], Diffs(src), Capacity(frames), 0);
    GroupsKeep([], Diffs(src));
    assert [] + Diffs(src) == Diffs(src);
    KeySwappedIff(src, frames);
  }
}
