/** Where a call of the Steim 1 compressor ends: how many samples are in the block, and which one the header has. */
module SteimEnds {
  import opened Grouping
  import opened SteimGroups
  import opened SteimWords
  import opened SteimBuffer
  import opened Steim
  import opened SteimImage
  import opened SteimFacts

  lemma KeptParts(words: seq<seq<int>>, later: seq<seq<int>>, room: nat)
    ensures |words| >= room ==> Kept(words + later, room) == Kept(words, room)
    ensures |words| < room ==>
              |Flatten(Kept(words + later, room))| == |Flatten(words)| + |Flatten(Kept(later, room - |words|))|
  {
    if |words| >= room {
      assert (words + later)[..room] == words[..room];
      assert |words| == room ==> words[..room] == words;
      assert later == [] ==> words + later == words;
    } else {
      assert Kept(words + later, room) == words + Kept(later, room - |words|);
      FlattenConcat(words, Kept(later, room - |words|));
    }
  }

  lemma FeedCount(p: seq<int>, diff: int)
    requires Saved(p)
    ensures |Flatten(Feed(p, diff).words)| + |Feed(p, diff).saved| == |p| + 1 && Saved(Feed(p, diff).saved)
  {
    FeedKeeps(p, diff);
    FeedFits(p, diff);
  }

  /** The words that the last step closes: those of the flush, or of the next difference. */
  function LastWords(p: seq<int>, ds: seq<int>, room: int, fed: nat): seq<seq<int>> {
    var e := EndFrom(p, ds, room, fed);
    if e.flushed then Flushed(e.saved) else Feed(e.saved, ds[e.fed - fed]).words
  }

  lemma EndLater(p: seq<int>, ds: seq<int>, room: int, fed: nat, f: Fed)
    requires ds != [] && f == Feed(p, ds[0]) && |f.words| < room
    ensures EndFrom(f.saved, ds[1..], room - |f.words|, fed + 1) == EndFrom(p, ds, room, fed)
    ensures LastWords(f.saved, ds[1..], room - |f.words|, fed + 1) == LastWords(p, ds, room, fed)
    ensures GroupsFrom(p, ds) == f.words + GroupsFrom(f.saved, ds[1..])
  {}

  lemma EndNow(p: seq<int>, ds: seq<int>, room: nat, fed: nat, e: End)
    requires e == EndFrom(p, ds, room, fed) && (ds == [] || |Feed(p, ds[0]).words| >= room)
    ensures e.fed == fed && e.saved == p && e.room == room
    ensures Kept(GroupsFrom(p, ds), room) == Kept(LastWords(p, ds, room, fed), room)
  {
    if ds != [] {
      KeptParts(Feed(p, ds[0]).words, GroupsFrom(Feed(p, ds[0]).saved, ds[1..]), room);
    }
  }

  lemma CountLater(all: seq<seq<int>>, f: Fed, later: seq<seq<int>>, room: nat, count: int, saved: int)
    requires |f.words| < room && all == f.words + later && |Flatten(Kept(later, room - |f.words|))| == |f.saved| + count
    requires |Flatten(f.words)| + |f.saved| == saved + 1
    ensures |Flatten(Kept(all, room))| == saved + 1 + count
  {
    KeptParts(f.words, later, room);
  }

  /** The block has what was taken, less what is still saved, and the part of the last words that fits. */
  lemma {:induction false} EndCount(p: seq<int>, ds: seq<int>, room: nat, fed: nat, e: End, n: nat)
    requires Saved(p) && room > 0 && e == EndFrom(p, ds, room, fed) && e.room >= 0
    requires n == |Flatten(Kept(LastWords(p, ds, room, fed), e.room))|
    ensures |Flatten(Kept(GroupsFrom(p, ds), room))| == |p| + (e.fed - fed) - |e.saved| + n
    decreases |ds|
  {
    if ds == [] || |Feed(p, ds[0]).words| >= room {
      EndNow(p, ds, room, fed, e);
    } else {
      var f := Feed(p, ds[0]);
      FeedCount(p, ds[0]);
      EndLater(p, ds, room, fed, f);
      EndCount(f.saved, ds[1..], room - |f.words|, fed + 1, e, n);
      CountLater(GroupsFrom(p, ds), f, GroupsFrom(f.saved, ds[1..]), room, e.fed - (fed + 1) - |e.saved| + n, |p|);
    }
  }

  lemma {:induction false} EndSaves(p: seq<int>, ds: seq<int>, room: int, fed: nat)
    requires Saved(p)
    ensures Saved(EndFrom(p, ds, room, fed).saved)
    decreases |ds|
  {
    if ds != [] {
      FeedFits(p, ds[0]);
      EndSaves(Feed(p, ds[0]).saved, ds[1..], room - |Feed(p, ds[0]).words|, fed + 1);
    }
  }

  /** The part of the flush that fits. */
  lemma FlushPart(p: seq<int>, room: nat)
    requires Saved(p) && room > 0
    ensures var n := |Flatten(Kept(Flushed(p), room))|;
            |p| - 1 <= n <= |p| && (n == |p| <==> !(|p| == 3 && room == 1))
  {
    FlushedKeeps(p);
    if |p| == 3 && room == 1 {
      assert Flushed(p)[..1] == [p[..2]];
      FlattenOne(p[..2]);
    } else {
      assert Kept(Flushed(p), room) == Flushed(p);
    }
  }

  /** Of one word everything fits. */
  lemma OneWordPart(p: seq<int>, d: int, f: Fed)
    requires Saved(p) && f == Feed(p, d) && |f.words| == 1
    ensures |Flatten(Kept(f.words, 1))| == |p| + 1 - |f.saved|
  {
    FeedCount(p, d);
  }

  lemma LongPart(p: seq<int>, d: int, room: nat)
    requires Saved(p) && Size(d) == 4 && 0 < room <= |Feed(p, d).words|
    ensures var n := |Flatten(Kept(Feed(p, d).words, room))|;
      && |p| - 1 <= n <= |p| + 1 && (n == |p| <==> |p| > 0 && room == |Flushed(p)|)
      && (n == |p| + 1 <==> room == |Feed(p, d).words|)
  {
    var words := Feed(p, d).words;
    FeedCount(p, d);
    FlushPart(p, room);
    if room == |words| {
      assert Kept(words, room) == words;
    } else {
      assert Kept(words, room) == Kept(Flushed(p), room);
    }
  }

  lemma ThreeAndShort(p: seq<int>, d: int, room: nat)
    requires Saved(p) && |p| == 3 && Size(d) == 2 && 0 < room <= 2
    ensures |Flatten(Kept(Feed(p, d).words, room))| == if room == 1 then 2 else 4
  {
    FeedCount(p, d);
    if room == 1 {
      assert Feed(p, d).words[..1] == [p[..2]];
      FlattenOne(p[..2]);
    } else {
      assert Kept(Feed(p, d).words, 2) == Feed(p, d).words;
    }
  }

  /** The part that fits of the words that the difference d closes. */
  lemma FeedPart(p: seq<int>, d: int, room: nat)
    requires Saved(p) && 0 < room <= |Feed(p, d).words|
    ensures var f := Feed(p, d); var n := |Flatten(Kept(f.words, room))|;
      && |p| - 1 <= n <= |p| + 1
      && (n == |p| <==> (|p| == 2 && Size(d) == 2) || (Size(d) == 4 && |p| > 0 && room == |Flushed(p)|))
      && (n == |p| + 1 <==> room == |f.words| && f.saved == [])
  {
    if Size(d) == 4 {
      LongPart(p, d, room);
    } else if |p| == 3 && Size(d) == 2 {
      ThreeAndShort(p, d, room);
    } else {
      OneWordPart(p, d, Feed(p, d));
    }
  }

  /** Where the compression ends there is room for a word, and what is saved is what may be saved. */
  lemma EndIs(src: seq<int>, frames: nat, e: End)
    requires src != [] && frames > 0 && e == EndOf(src, frames)
    ensures Saved(e.saved) && e.room > 0
    ensures !e.flushed ==> e.room <= |Feed(e.saved, Diffs(src)[e.fed]).words|
    ensures var words := if e.flushed then Flushed(e.saved) else Feed(e.saved, Diffs(src)[e.fed]).words;
            Count(src, frames) == e.fed - |e.saved| + |Flatten(Kept(words, e.room))|
  {
    var ds := Diffs(src);
    EndSaves([], ds, Capacity(frames), 0);
    EndFills([], ds, Capacity(frames), 0);
    EndStops([], ds, Capacity(frames), 0);
    EndCount([], ds, Capacity(frames), 0, e, |Flatten(Kept(LastWords([], ds, Capacity(frames), 0), e.room))|);
  }

  lemma {:induction false} EndStops(p: seq<int>, ds: seq<int>, room: int, fed: nat)
    ensures var e := EndFrom(p, ds, room, fed);
            !e.flushed ==> e.room <= |LastWords(p, ds, room, fed)|
    decreases |ds|
  {
    if ds != [] {
      var f := Feed(p, ds[0]);
      if |f.words| < room {
        EndLater(p, ds, room, fed, f);
        EndStops(f.saved, ds[1..], room - |f.words|, fed + 1);
      }
    }
  }

  /** When the flush was reached: unless three differences were saved and there was room for one word. When it was not:
      if the difference that found no room needs two bytes and two were saved, or it needs four bytes and the saved
      ones just fit. */
  predicate EndsWithTaken(ds: seq<int>, e: End)
    requires e.fed <= |ds| && (e.flushed <==> e.fed == |ds|)
  {
    if e.flushed then !(|e.saved| == 3 && e.room == 1)
    else if Size(ds[e.fed]) == 4 then |e.saved| > 0 && e.room == |Flushed(e.saved)|
    else |e.saved| == 2 && Size(ds[e.fed]) == 2
  }

  /** The header has the sample taken last. The block ends one before it, with it or one behind it: with it if and only
      if EndsWithTaken, and behind it if and only if the words that the next difference closes all fit and leave
      nothing saved. */
  lemma HeaderIsLastIff(src: seq<int>, frames: nat)
    requires src != [] && frames > 0
    ensures var e, n := EndOf(src, frames), Count(src, frames);
      && e.fed - 1 <= n <= e.fed + 1
      && (n == e.fed <==> EndsWithTaken(Diffs(src), e))
      && (n == e.fed + 1 <==>
           && !e.flushed
           && Feed(e.saved, Diffs(src)[e.fed]).saved == [] && e.room == |Feed(e.saved, Diffs(src)[e.fed]).words|)
  {
    var e := EndOf(src, frames);
    EndIs(src, frames, e);
    if e.flushed {
      FlushPart(e.saved, e.room);
    } else {
      FeedPart(e.saved, Diffs(src)[e.fed], e.room);
    }
  }

  lemma HeaderWords(first: int, last: int, cs: seq<Cell>, frames: nat, fs: seq<Frame>)
    requires 2 + |cs| <= SLOTS * frames && frames > 0 && fs == Frames(Padded(Header(first, last) + cs, frames))
    ensures fs != [] && |fs[0].words| == SLOTS && fs[0].words[0] == Bytes4(first) && fs[0].words[1] == Bytes4(last)
  {
    var cells := Padded(Header(first, last) + cs, frames);
    assert fs[0] == FrameOf(cells[..SLOTS]);
    assert cells[..SLOTS][0] == Header(first, last)[0] && cells[..SLOTS][1] == Header(first, last)[1];
  }

  /** On either kind of host the first word behind the first key word reads as the first sample, and the second one as
      the sample taken last. */
  lemma HeaderReads(src: seq<int>, frames: nat, little: bool)
    requires src != [] && Int32s(src) && frames > 0
    ensures EndOf(src, frames).fed > 0
    ensures var fs := Image(src, frames, little);
      && fs != [] && |fs[0].words| == SLOTS && |fs[0].words[0]| == |fs[0].words[1]| == 4
      && Read4(fs[0].words[0]) == src[0] && Read4(fs[0].words[1]) == src[EndOf(src, frames).fed - 1]
  {
    FirstIsTaken(src, frames);
    var last := src[EndOf(src, frames).fed - 1];
    ImageIs(src, frames, little);
    SlotsTakenIff(src, frames);
    HeaderWords(src[0], last, EncodedAll(WordsFor(src, frames)), frames, Plain(src, frames));
    Bytes4Read(src[0]);
    Bytes4Read(last);
  }

  /** Some sample is always taken. */
  lemma FirstIsTaken(src: seq<int>, frames: nat)
    requires src != [] && frames > 0
    ensures EndOf(src, frames).fed > 0
  {
    var ds := Diffs(src);
    assert ds[0] == 0 && Feed([], 0) == Fed([], [0]);
  }
}
