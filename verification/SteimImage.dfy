/** The output of the Steim 1 compressor on hosts of either byte order. */
module SteimImage {
  import opened Grouping
  import opened SteimBuffer
  import opened SteimGroups
  import opened SteimWords
  import opened Steim

  // ---- whether all slots are taken ----

  /** Nothing but the flush may end the compression with room to spare, and it takes a word or two of it. */
  lemma {:induction false} EndFills(p: seq<int>, ds: seq<int>, room: int, fed: nat)
    requires room > 0
    ensures var e, n := EndFrom(p, ds, room, fed), |GroupsFrom(p, ds)|;
            e.room > 0 && if e.flushed then n - |Flushed(e.saved)| == room - e.room else n >= room
    decreases |ds|
  {
    if ds != [] {
      var f := Feed(p, ds[0]);
      if |f.words| < room {
        EndFills(f.saved, ds[1..], room - |f.words|, fed + 1);
      }
    }
  }

  /** The flush completes the last frame exactly if it is reached and all slots are taken. */
  lemma SlotsTakenIff(src: seq<int>, frames: nat)
    requires src != [] && frames > 0
    ensures |WordsFor(src, frames)| <= Capacity(frames)
    ensures FilledByFlush(src, frames)
       <==> EndOf(src, frames).flushed && |WordsFor(src, frames)| == Capacity(frames)
    ensures !EndOf(src, frames).flushed ==> |WordsFor(src, frames)| == Capacity(frames)
  {
    EndFills([], Diffs(src), Capacity(frames), 0);
  }

  // ---- the header ----

  lemma FrameSet(a: seq<Cell>, b: seq<Cell>, first: int, last: int)
    requires |a| == |b| == SLOTS && a[0] == a[1] == EMPTY
    requires b == a[0 := Cell(0, Bytes4(first))][1 := Cell(0, Bytes4(last))]
    ensures FrameOf(b) == FrameOf(a).(words := FrameOf(a).words[0 := Bytes4(first)][1 := Bytes4(last)])
  {
    assert CodesOf(a) == CodesOf(b);
    assert WordsOf(b) == WordsOf(a)[0 := Bytes4(first)][1 := Bytes4(last)];
  }

  /** The first and the last sample can be written afterwards. */
  lemma HeaderSet(first: int, last: int, cs: seq<Cell>, frames: nat, little: bool)
    requires 2 + |cs| <= SLOTS * frames && frames > 0
    ensures var fs := Frames(Padded(Empties(2) + cs, frames));
            && fs != [] && |fs[0].words| == SLOTS
            && WithHeader(fs, first, last, little) == Frames(Padded(Header(first, last) + cs, frames))
  {
    var a, b := Padded(Empties(2) + cs, frames), Padded(Header(first, last) + cs, frames);
    assert a[SLOTS..] == b[SLOTS..];
    SwappedInHost(first, little);
    SwappedInHost(last, little);
    FrameSet(a[..SLOTS], b[..SLOTS], first, last);
  }

  lemma KeyAndHeader(fs: seq<Frame>, i: nat, key: seq<Byte>, first: int, last: int, little: bool)
    requires i < |fs| && |fs[0].words| == SLOTS
    ensures |WithKey(fs, i, key)[0].words| == SLOTS && |WithHeader(fs, first, last, little)| == |fs|
    ensures WithHeader(WithKey(fs, i, key), first, last, little)
         == WithKey(WithHeader(fs, first, last, little), i, key)
  {}

  // ---- the key words ----

  /** What the swaps make of the last key word: the one when its frame is complete, and the one after the flush. */
  lemma KeySwaps(key: nat, complete: bool, flushed: bool, little: bool)
    requires complete || flushed
    ensures var k := KeyWord(key, complete, little);
            (if flushed then HostSwap(k, little) else k)
            == if little && complete && flushed then Backwards(Bytes4(key)) else Bytes4(key)
  {
    SwappedInHost(key, little);
  }

  lemma KeyTwice(a: seq<Frame>, i: nat, k1: seq<Byte>, k2: seq<Byte>)
    requires i < |a|
    ensures WithKey(WithKey(a, i, k1), i, k2) == WithKey(a, i, k2)
    ensures k2 == a[i].key ==> WithKey(a, i, k2) == a
  {}

  lemma OtherKey(b: Buffer, frames: nat, key: seq<Byte>)
    requires |b.words| <= SLOTS && |b.full| < frames
    ensures AllFrames(b.(key := key), frames) == WithKey(AllFrames(b, frames), |b.full|, key)
  {}

  /** The output without the header: only the last key word depends on the host, and on what ended the compression. */
  lemma FramesAre(b: Buffer, cells: seq<Cell>, flushed: bool, little: bool, frames: nat, fs: seq<Frame>, i: nat)
    requires frames > 0 && |cells| <= SLOTS * frames && AreCells(cells) && fs == Frames(Padded(cells, frames))
    requires b == BufferOf(cells, little, frames) && (flushed || |b.words| == SLOTS) && i == |b.full|
    ensures |fs| == frames && i < frames && |fs[i].key| == 4 && |b.key| == 4
    ensures AllFrames(b.(key := if flushed then HostSwap(b.key, little) else b.key), frames)
         == if little && |b.words| == SLOTS && flushed then WithKey(fs, i, Backwards(fs[i].key)) else fs
  {
    var key := if flushed then HostSwap(b.key, little) else b.key;
    BufferIsLaid(cells, little, frames);
    LaidShows(b, cells, little, frames);
    KeySwaps(KeyOf(cells[SLOTS * i..]), |b.words| == SLOTS, flushed, little);
    OtherKey(b, frames, key);
    KeyTwice(fs, i, b.key, key);
  }

  /** The header and the words that fit, in frames. */
  function Plain(src: seq<int>, frames: nat): seq<Frame>
    requires src != [] && frames > 0
  {
    Frames(Padded(Header(src[0], Taken(src, EndOf(src, frames).fed)) + EncodedAll(WordsFor(src, frames)), frames))
  }

  lemma {:induction false} KeysHaveFour(cs: seq<Cell>, n: nat)
    requires |cs| == SLOTS * n
    ensures |Frames(cs)| == n && forall i | 0 <= i < n :: |Frames(cs)[i].key| == 4
  {
    if n > 0 {
      KeysHaveFour(cs[SLOTS..], n - 1);
    }
  }

  lemma HeaderOf(fs: seq<Frame>, out: seq<Frame>, swapped: bool, first: int, last: int, little: bool, plain: seq<Frame>)
    requires fs != [] && |fs[0].words| == SLOTS && |Last(fs).key| == 4 && plain == WithHeader(fs, first, last, little)
    requires out == if swapped then WithKey(fs, |fs| - 1, Backwards(Last(fs).key)) else fs
    ensures |out| == |plain| == |fs| && |out[0].words| == SLOTS && Last(plain).key == Last(fs).key
    ensures WithHeader(out, first, last, little)
         == if swapped then WithKey(plain, |fs| - 1, Backwards(Last(plain).key)) else plain
  {
    KeyAndHeader(fs, |fs| - 1, Backwards(Last(fs).key), first, last, little);
  }

  lemma CellsFit(words: seq<seq<int>>, frames: nat)
    requires |words| <= Capacity(frames)
    ensures AreCells(Empties(2) + EncodedAll(words)) && |Empties(2) + EncodedAll(words)| <= SLOTS * frames
  {}

  /** What ImageOf makes of the words gs. */
  lemma ImageOfWords(gs: seq<seq<int>>, first: int, last: int, flushed: bool, little: bool, frames: nat,
                     plain: seq<Frame>)
    requires frames > 0 && |gs| <= Capacity(frames) && (flushed || |gs| == Capacity(frames))
    requires plain == Frames(Padded(Header(first, last) + EncodedAll(gs), frames))
    ensures |plain| == frames && |Last(plain).key| == 4
    ensures ImageOf(Empties(2) + EncodedAll(gs), first, last, flushed, little, frames)
         == if little && flushed && |gs| == Capacity(frames) then WithKey(plain, frames - 1, Backwards(Last(plain).key))
            else plain
  {
    var cells := Empties(2) + EncodedAll(gs);
    CellsFit(gs, frames);
    var b, fs := BufferOf(cells, little, frames), Frames(Padded(cells, frames));
    SlotsIn(|b.full|, frames, |b.words|, |cells|);
    FramesAre(b, cells, flushed, little, frames, fs, |b.full|);
    KeysHaveFour(Padded(cells, frames), frames);
    HeaderSet(first, last, EncodedAll(gs), frames, little);
    HeaderOf(fs, AllFrames(b.(key := if flushed then HostSwap(b.key, little) else b.key), frames),
             little && flushed && |gs| == Capacity(frames), first, last, little, plain);
  }

  /** The host does not matter, but for a block whose last frame is completed by the flush: there the key word is
      swapped twice, and the bytes of the last one are in reverse order on a host that is not big-endian. */
  lemma ImageIs(src: seq<int>, frames: nat, little: bool)
    requires src != [] && frames > 0
    ensures var fs := Plain(src, frames);
      && |fs| == frames && |Last(fs).key| == 4
      && Image(src, frames, little)
      == if little && FilledByFlush(src, frames) then WithKey(fs, frames - 1, Backwards(Last(fs).key)) else fs
  {
    var e := EndOf(src, frames);
    SlotsTakenIff(src, frames);
    ImageOfWords(WordsFor(src, frames), src[0], Taken(src, e.fed), e.flushed, little, frames, Plain(src, frames));
  }
}
