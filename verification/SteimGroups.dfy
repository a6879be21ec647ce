/** Steim 1: how first differences are gathered into words of four one-byte, two two-byte or one four-byte ones. */
module SteimGroups {
  import opened Grouping

  // ---- 32-bit integers ----

  predicate IsInt32(x: int) {
    -0x8000_0000 <= x < 0x8000_0000
  }

  /** Arithmetic on INT32 wraps around. */
  function Wrap(x: int): (r: int)
    ensures IsInt32(r)
  {
    (x + 0x8000_0000) % 0x1_0000_0000 - 0x8000_0000
  }

  lemma WrapCancels(x: int, y: int)
    requires IsInt32(x)
    ensures Wrap(y + Wrap(x - y)) == x
  {}

  // ---- grouping ----

  /** The bytes a difference is given; -32768 is given four. */
  function Size(diff: int): nat {
    if -128 <= diff <= 127 then 1 else if -32768 < diff <= 32767 then 2 else 4
  }

  ghost predicate AllOfSize(ds: seq<int>, n: nat) {
    forall i | 0 <= i < |ds| :: Size(ds[i]) <= n
  }

  /** What csteim1_frm may have saved between calls: up to three one-byte differences or one two-byte difference. */
  ghost predicate Saved(p: seq<int>) {
    (|p| <= 3 && AllOfSize(p, 1)) || (|p| == 1 && Size(p[0]) == 2)
  }

  /** A word holds one, two or four differences that fit. */
  ghost predicate IsWord(g: seq<int>) {
    |g| == 1 || (|g| == 2 && AllOfSize(g, 2)) || (|g| == 4 && AllOfSize(g, 1))
  }

  /** Words that are complete, and what is still saved. */
  datatype Fed = Fed(words: seq<seq<int>>, saved: seq<int>)

  /** The saved differences as words: three go as two and one. */
  function Flushed(p: seq<int>): seq<seq<int>> {
    if p == [] then [] else if |p| <= 2 then [p] else [p[..2], p[2..]]
  }

  /** One more difference: a word is closed as soon as no more can be added to it. */
  function Feed(p: seq<int>, diff: int): Fed {
    if Size(diff) == 4 then Fed(Flushed(p) + [[diff]], [])
    else if p == [] then Fed([], [diff])
    else if Size(diff) == 1 then
      if |p| == 3 || Size(p[0]) == 2 then Fed([p + [diff]], []) else Fed([], p + [diff])
    else if |p| == 1 then Fed([p + [diff]], [])
    else if |p| == 2 then Fed([p], [diff])
    else Fed([p[..2], p[2..] + [diff]], [])
  }

  /** The words for the differences ds when p is saved already. */
  function GroupsFrom(p: seq<int>, ds: seq<int>): seq<seq<int>>
    decreases |ds|
  {
    if ds == [] then Flushed(p) else Feed(p, ds[0]).words + GroupsFrom(Feed(p, ds[0]).saved, ds[1..])
  }

  function Groups(ds: seq<int>): seq<seq<int>> {
    GroupsFrom([], ds)
  }

  ghost predicate AllWords(gs: seq<seq<int>>) {
    forall k | 0 <= k < |gs| :: IsWord(gs[k])
  }

  lemma AllWordsConcat(gs: seq<seq<int>>, hs: seq<seq<int>>)
    requires AllWords(gs) && AllWords(hs)
    ensures AllWords(gs + hs)
  {}

  lemma FlushedFits(p: seq<int>)
    requires Saved(p)
    ensures AllWords(Flushed(p))
  {}

  lemma FlushedKeeps(p: seq<int>)
    requires |p| <= 3
    ensures Flatten(Flushed(p)) == p
  {
    if |p| == 3 {
      FlattenPair(p[..2], p[2..]);
    } else if p != [] {
      FlattenOne(p);
    }
  }

  lemma FlattenPair(a: seq<int>, b: seq<int>)
    ensures Flatten([a, b]) == a + b
  {
    FlattenSnoc([], a);
    FlattenSnoc([a], b);
    assert [] + [a] == [a] && [a] + [b] == [a, b];
  }

  lemma FlattenOne(a: seq<int>)
    ensures Flatten([a]) == a
  {
    FlattenSnoc([], a);
    assert [] + [a] == [a];
  }

  lemma FeedFits(p: seq<int>, diff: int)
    requires Saved(p)
    ensures Saved(Feed(p, diff).saved) && AllWords(Feed(p, diff).words)
  {
    if Size(diff) == 4 {
      FlushedFits(p);
      AllWordsConcat(Flushed(p), [[diff]]);
    }
  }

  /** Feeding loses nothing and changes no order. */
  lemma FeedKeeps(p: seq<int>, diff: int)
    requires Saved(p)
    ensures Flatten(Feed(p, diff).words) + Feed(p, diff).saved == p + [diff]
  {
    if Size(diff) == 4 {
      FlushedKeeps(p);
      FlattenSnoc(Flushed(p), [diff]);
    } else if p != [] {
      if |p| == 2 && Size(diff) == 2 {
        FlattenOne(p);
      } else if |p| == 3 && Size(diff) == 2 {
        FlattenPair(p[..2], p[2..] + [diff]);
      } else {
        FlattenOne(p + [diff]);
      }
    }
  }

  lemma ConcatAssociates<T>(a: seq<T>, b: seq<T>, c: seq<T>)
    ensures (a + b) + c == a + (b + c)
  {}

  /** Words, and then words that hold what those left saved and the differences ds. */
  lemma JoinWords(p: seq<int>, diff: int, ds: seq<int>, words: seq<seq<int>>, saved: seq<int>, later: seq<seq<int>>)
    requires Flatten(words) + saved == p + [diff] && Flatten(later) == saved + ds
    ensures Flatten(words + later) == p + ([diff] + ds)
  {
    FlattenConcat(words, later);
    ConcatAssociates(Flatten(words), saved, ds);
    ConcatAssociates(p, [diff], ds);
  }

  /** The words hold all differences, in order, and each holds what fits it. */
  lemma {:induction false} GroupsKeep(p: seq<int>, ds: seq<int>)
    requires Saved(p)
    ensures Flatten(GroupsFrom(p, ds)) == p + ds && AllWords(GroupsFrom(p, ds))
    decreases |ds|
  {
    if ds == [] {
      FlushedKeeps(p);
      FlushedFits(p);
      assert p + [] == p;
    } else {
      FeedKeeps(p, ds[0]);
      FeedFits(p, ds[0]);
      var f := Feed(p, ds[0]);
      var later := GroupsFrom(f.saved, ds[1..]);
      GroupsKeep(f.saved, ds[1..]);
      JoinWords(p, ds[0], ds[1..], f.words, f.saved, later);
      AllWordsConcat(f.words, later);
      assert ds == [ds[0]] + ds[1..];
    }
  }

  /** Once two differences are saved, the next word has at least two. */
  lemma {:induction false} NextIsLong(p: seq<int>, ds: seq<int>)
    requires Saved(p) && |p| >= 2
    ensures GroupsFrom(p, ds) != [] && |GroupsFrom(p, ds)[0]| >= 2
    decreases |ds|
  {
    if ds != [] {
      var f := Feed(p, ds[0]);
      FeedFits(p, ds[0]);
      if f.words == [] {
        NextIsLong(f.saved, ds[1..]);
      }
    }
  }

  /** The first word holds a lone first difference exactly if the second one needs four bytes, or there is none. */
  lemma FirstWordIff(ds: seq<int>)
    requires ds != [] && Size(ds[0]) == 1
    ensures Groups(ds) != []
    ensures |Groups(ds)[0]| == 1 <==> |ds| == 1 || Size(ds[1]) == 4
  {
    var rest := ds[1..];
    assert Groups(ds) == GroupsFrom([ds[0]], rest);
    if rest != [] {
      var f := Feed([ds[0]], rest[0]);
      FeedFits([ds[0]], rest[0]);
      if Size(rest[0]) == 1 {
        NextIsLong(f.saved, rest[1..]);
      }
    }
  }

  // ---- the grouping with all differences in hand ----

  ghost predicate Ones(ds: seq<int>, n: nat) {
    n <= |ds| && forall i | 0 <= i < n :: Size(ds[i]) == 1
  }

  /** How many of the differences the next word takes when all are in hand: four if they fit one byte each, or else two
      if they fit two bytes each, or else one. */
  ghost function Most(ds: seq<int>): (n: nat)
    requires ds != []
    ensures 1 <= n <= |ds|
  {
    if Ones(ds, 4) then 4 else if |ds| >= 2 && Size(ds[0]) < 4 && Size(ds[1]) < 4 then 2 else 1
  }

  ghost function Greedy(ds: seq<int>): seq<seq<int>> {
    if ds == [] then [] else [ds[..Most(ds)]] + Greedy(ds[Most(ds)..])
  }

  lemma GreedyStep(ds: seq<int>, g: seq<int>, rest: seq<int>)
    requires g != [] && ds == g + rest && Most(ds) == |g|
    ensures Greedy(ds) == [g] + Greedy(rest)
  {
    assert ds[..|g|] == g && ds[|g|..] == rest;
  }

  lemma FourOnes(g: seq<int>, rest: seq<int>)
    requires |g| == 4 && AllOfSize(g, 1)
    ensures Greedy(g + rest) == [g] + Greedy(rest)
  {
    var ds := g + rest;
    assert ds[0] == g[0] && ds[1] == g[1] && ds[2] == g[2] && ds[3] == g[3];
    GreedyStep(ds, g, rest);
  }

  lemma OneLong(x: int, rest: seq<int>)
    requires Size(x) == 4
    ensures Greedy([x] + rest) == [[x]] + Greedy(rest)
  {
    assert ([x] + rest)[0] == x;
    GreedyStep([x] + rest, [x], rest);
  }

  /** Two go together if they fit and do not begin four of one byte. */
  lemma TwoShort(g: seq<int>, rest: seq<int>)
    requires |g| == 2 && AllOfSize(g, 2)
    requires Size(g[0]) > 1 || Size(g[1]) > 1 || |rest| < 2 || Size(rest[0]) > 1 || Size(rest[1]) > 1
    ensures Greedy(g + rest) == [g] + Greedy(rest)
  {
    var ds := g + rest;
    assert ds[0] == g[0] && ds[1] == g[1];
    assert |rest| >= 2 ==> ds[2] == rest[0] && ds[3] == rest[1];
    GreedyStep(ds, g, rest);
  }

  lemma LoneOne(x: int, rest: seq<int>)
    requires rest == [] || Size(rest[0]) == 4
    ensures Greedy([x] + rest) == [[x]] + Greedy(rest)
  {
    if rest != [] {
      assert ([x] + rest)[1] == rest[0];
    }
    GreedyStep([x] + rest, [x], rest);
  }

  /** The words of a flush come before what needs four bytes, or before nothing. */
  lemma FlushedIsGreedy(p: seq<int>, rest: seq<int>)
    requires Saved(p) && (rest == [] || Size(rest[0]) == 4)
    ensures Greedy(p + rest) == Flushed(p) + Greedy(rest)
  {
    if p == [] {
      assert p + rest == rest && [] + Greedy(rest) == Greedy(rest);
    } else if |p| == 1 {
      assert p == [p[0]];
      LoneOne(p[0], rest);
    } else if |p| == 2 {
      TwoShort(p, rest);
    } else {
      assert p[2..] == [p[2]] && p[..2] + ([p[2]] + rest) == p + rest;
      TwoShort(p[..2], [p[2]] + rest);
      LoneOne(p[2], rest);
      assert [p[..2]] + ([[p[2]]] + Greedy(rest)) == Flushed(p) + Greedy(rest);
    }
  }

  lemma LongIsGreedy(p: seq<int>, diff: int, rest: seq<int>)
    requires Saved(p) && Size(diff) == 4
    ensures Greedy(p + ([diff] + rest)) == (Flushed(p) + [[diff]]) + Greedy(rest)
  {
    FlushedIsGreedy(p, [diff] + rest);
    OneLong(diff, rest);
    assert Flushed(p) + ([[diff]] + Greedy(rest)) == (Flushed(p) + [[diff]]) + Greedy(rest);
  }

  lemma ThreeAndShortIsGreedy(p: seq<int>, diff: int, rest: seq<int>)
    requires Saved(p) && |p| == 3 && Size(diff) == 2
    ensures Greedy(p + ([diff] + rest)) == [p[..2], p[2..] + [diff]] + Greedy(rest)
  {
    var tail := p[2..] + [diff];
    assert p[..2] + (tail + rest) == p + ([diff] + rest);
    assert (tail + rest)[1] == diff;
    TwoShort(p[..2], tail + rest);
    TwoShort(tail, rest);
    assert [p[..2]] + ([tail] + Greedy(rest)) == [p[..2], tail] + Greedy(rest);
  }

  lemma JoinedIsGreedy(p: seq<int>, diff: int, rest: seq<int>)
    requires Saved(p) && Size(diff) < 4
    requires if |p| == 3 then Size(diff) == 1 else |p| == 1 && (Size(p[0]) == 2 || Size(diff) == 2)
    ensures Greedy(p + ([diff] + rest)) == [p + [diff]] + Greedy(rest)
  {
    assert (p + [diff]) + rest == p + ([diff] + rest);
    if |p| == 3 {
      FourOnes(p + [diff], rest);
    } else {
      TwoShort(p + [diff], rest);
    }
  }

  /** One more difference. */
  lemma FeedIsGreedy(p: seq<int>, diff: int, rest: seq<int>, f: Fed)
    requires Saved(p) && f == Feed(p, diff)
    ensures Greedy(p + ([diff] + rest)) == f.words + Greedy(f.saved + rest)
  {
    if f.words == [] {
      assert p + ([diff] + rest) == f.saved + rest && [] + Greedy(f.saved + rest) == Greedy(f.saved + rest);
    } else if |p| == 2 && Size(diff) == 2 {
      TwoShort(p, [diff] + rest);
    } else {
      assert f.saved + rest == rest;
      if Size(diff) == 4 {
        LongIsGreedy(p, diff, rest);
      } else if |p| == 3 && Size(diff) == 2 {
        ThreeAndShortIsGreedy(p, diff, rest);
      } else {
        JoinedIsGreedy(p, diff, rest);
      }
    }
  }

  /** Fed one by one, the differences are gathered just as if all were in hand. */
  lemma {:induction false} GroupsAreGreedy(p: seq<int>, ds: seq<int>)
    requires Saved(p)
    ensures GroupsFrom(p, ds) == Greedy(p + ds)
    decreases |ds|
  {
    if ds == [] {
      FlushedIsGreedy(p, []);
      assert Flushed(p) + Greedy([]) == Flushed(p);
    } else {
      FeedFits(p, ds[0]);
      GroupsAreGreedy(Feed(p, ds[0]).saved, ds[1..]);
      FeedIsGreedy(p, ds[0], ds[1..], Feed(p, ds[0]));
      assert ds == [ds[0]] + ds[1..];
    }
  }
}
