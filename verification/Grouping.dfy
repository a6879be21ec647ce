/** Cutting a sequence wherever an element does not continue the one before it. */
module Grouping {
  import opened Sorting

  function Last<T>(s: seq<T>): T
    requires s != []
  {
    s[|s| - 1]
  }

  function Init<T>(s: seq<T>): seq<T>
    requires s != []
  {
    s[..|s| - 1]
  }

  function Flatten<T>(gs: seq<seq<T>>): seq<T> {
    if gs == [] then [] else Flatten(Init(gs)) + Last(gs)
  }

  /** The groups of s: a new one starts at every element that does not continue its predecessor. */
  function Runs<T>(joins: (T, T) -> bool, s: seq<T>): (gs: seq<seq<T>>)
    ensures gs == [] <==> s == []
    ensures forall k | 0 <= k < |gs| :: gs[k] != []
  {
    if s == [] then []
    else Extend(joins, Runs(joins, Init(s)), Init(s), Last(s))
  }

  /** The groups of s + [x], given the groups of s. */
  function Extend<T>(joins: (T, T) -> bool, gs: seq<seq<T>>, s: seq<T>, x: T): (r: seq<seq<T>>)
    requires gs == [] <==> s == []
    requires forall k | 0 <= k < |gs| :: gs[k] != []
    ensures r != []
    ensures forall k | 0 <= k < |r| :: r[k] != []
  {
    if s != [] && joins(Last(s), x) then Init(gs) + [Last(gs) + [x]] else gs + [[x]]
  }

  /** Every element continues the one before it. */
  ghost predicate Chain<T>(joins: (T, T) -> bool, g: seq<T>) {
    forall i | 0 < i < |g| :: joins(g[i - 1], g[i])
  }

  /** Non-empty chains, none of which can be joined to its neighbour. */
  ghost predicate MaximalChains<T>(joins: (T, T) -> bool, gs: seq<seq<T>>) {
    && (forall k | 0 <= k < |gs| :: gs[k] != [] && Chain(joins, gs[k]))
    && (forall k | 0 < k < |gs| :: !joins(Last(gs[k - 1]), gs[k][0]))
  }

  lemma FlattenSnoc<T>(gs: seq<seq<T>>, g: seq<T>)
    ensures Flatten(gs + [g]) == Flatten(gs) + g
  {
    assert Init(gs + [g]) == gs && Last(gs + [g]) == g;
  }

  lemma {:induction false} FlattenConcat<T>(a: seq<seq<T>>, b: seq<seq<T>>)
    ensures Flatten(a + b) == Flatten(a) + Flatten(b)
    decreases |b|
  {
    if b == [] {
      assert a + b == a;
    } else {
      FlattenConcat(a, Init(b));
      assert Init(a + b) == a + Init(b) && Last(a + b) == Last(b);
    }
  }

  lemma ChainSnoc<T>(joins: (T, T) -> bool, g: seq<T>, x: T)
    requires g != [] && Chain(joins, g) && joins(Last(g), x)
    ensures Chain(joins, g + [x])
  {
    forall i | 0 < i < |g + [x]| ensures joins((g + [x])[i - 1], (g + [x])[i]) {
      assert (g + [x])[i - 1] == g[i - 1];
    }
  }

  lemma JoinFacts<T>(joins: (T, T) -> bool, gs: seq<seq<T>>, x: T)
    requires MaximalChains(joins, gs) && gs != [] && joins(Last(Last(gs)), x)
    ensures var r := Init(gs) + [Last(gs) + [x]];
            MaximalChains(joins, r) && Flatten(r) == Flatten(gs) + [x]
  {
    var g := Last(gs);
    var r := Init(gs) + [g + [x]];
    assert Chain(joins, g) && g != [];
    ChainSnoc(joins, g, x);
    FlattenSnoc(Init(gs), g + [x]);
    assert Flatten(Init(gs)) + (g + [x]) == Flatten(Init(gs)) + g + [x];
    forall k | 0 < k < |r| ensures !joins(Last(r[k - 1]), r[k][0]) {
      assert r[k - 1] == gs[k - 1] && r[k][0] == gs[k][0];
    }
  }

  lemma {:induction false} StartFacts<T>(joins: (T, T) -> bool, gs: seq<seq<T>>, x: T)
    requires MaximalChains(joins, gs) && (gs != [] ==> !joins(Last(Last(gs)), x))
    ensures MaximalChains(joins, gs + [[x]]) && Flatten(gs + [[x]]) == Flatten(gs) + [x]
  {
    FlattenSnoc(gs, [x]);
    var r := gs + [[x]];
    forall k | 0 <= k < |r| ensures r[k] != [] && Chain(joins, r[k]) {
      assert k < |gs| ==> r[k] == gs[k];
    }
    forall k | 0 < k < |r| ensures !joins(Last(r[k - 1]), r[k][0]) {
      assert r[k - 1] == gs[k - 1];
    }
  }

  /** Extending keeps the groups maximal and their concatenation right. */
  lemma ExtendFacts<T>(joins: (T, T) -> bool, gs: seq<seq<T>>, s: seq<T>, x: T)
    requires MaximalChains(joins, gs) && Flatten(gs) == s && (gs == [] <==> s == [])
    requires s != [] ==> Last(Last(gs)) == Last(s)
    ensures var r := Extend(joins, gs, s, x);
            MaximalChains(joins, r) && Flatten(r) == s + [x] && Last(Last(r)) == x
  {
    if s != [] && joins(Last(s), x) {
      JoinFacts(joins, gs, x);
    } else {
      StartFacts(joins, gs, x);
    }
  }

  /** The runs are maximal chains whose concatenation is s. */
  lemma {:induction false} RunsAreMaximal<T>(joins: (T, T) -> bool, s: seq<T>)
    ensures MaximalChains(joins, Runs(joins, s)) && Flatten(Runs(joins, s)) == s
    ensures s != [] ==> Last(Last(Runs(joins, s))) == Last(s)
  {
    if s != [] {
      var t, x := Init(s), Last(s);
      assert s == t + [x];
      RunsAreMaximal(joins, t);
      assert Runs(joins, t) == [] <==> t == [];
      ExtendFacts(joins, Runs(joins, t), t, x);
    }
  }

  lemma FlattenLast<T>(gs: seq<seq<T>>)
    requires gs != [] && Last(gs) != []
    ensures Flatten(gs) != [] && Last(Flatten(gs)) == Last(Last(gs))
  {
  }

  /** gs without its last element. */
  function Shortened<T>(gs: seq<seq<T>>): seq<seq<T>>
    requires gs != [] && Last(gs) != []
  {
    if |Last(gs)| == 1 then Init(gs) else Init(gs) + [Init(Last(gs))]
  }

  lemma ExtendStarts<T>(joins: (T, T) -> bool, init: seq<seq<T>>, x: T)
    requires forall k | 0 <= k < |init| :: init[k] != []
    requires init != [] ==> !joins(Last(Last(init)), x)
    ensures Flatten(init + [[x]]) == Flatten(init) + [x]
    ensures init == [] <==> Flatten(init) == []
    ensures Extend(joins, init, Flatten(init), x) == init + [[x]]
  {
    FlattenSnoc(init, [x]);
    if init != [] {
      FlattenLast(init);
    }
  }

  lemma SnocParts<T>(s: seq<T>, x: T)
    ensures Init(s + [x]) == s && Last(s + [x]) == x
  {
  }

  lemma FlattenJoins<T>(init: seq<seq<T>>, h: seq<T>, x: T)
    requires h != []
    ensures Flatten(init + [h + [x]]) == Flatten(init + [h]) + [x]
    ensures Flatten(init + [h]) != [] && Last(Flatten(init + [h])) == Last(h)
  {
    FlattenSnoc(init, h + [x]);
    FlattenSnoc(init, h);
  }

  lemma ExtendJoins<T>(joins: (T, T) -> bool, init: seq<seq<T>>, h: seq<T>, x: T)
    requires forall k | 0 <= k < |init| :: init[k] != []
    requires h != [] && joins(Last(h), x)
    ensures Flatten(init + [h + [x]]) == Flatten(init + [h]) + [x]
    ensures Flatten(init + [h]) != []
    ensures Extend(joins, init + [h], Flatten(init + [h]), x) == init + [h + [x]]
  {
    FlattenJoins(init, h, x);
    SnocParts(init, h);
  }

  /** Maximal chains arise from their shortened form by one Extend. */
  lemma ExtendUndoesShortened<T>(joins: (T, T) -> bool, gs: seq<seq<T>>)
    requires MaximalChains(joins, gs) && gs != []
    ensures var s, x := Flatten(Shortened(gs)), Last(Last(gs));
            && Flatten(gs) == s + [x]
            && (Shortened(gs) == [] <==> s == [])
            && (forall k | 0 <= k < |Shortened(gs)| :: Shortened(gs)[k] != [])
            && gs == Extend(joins, Shortened(gs), s, x)
  {
    var g := Last(gs);
    assert gs == Init(gs) + [g] && g == Init(g) + [Last(g)];
    if |g| == 1 {
      assert gs != [g] ==> !joins(Last(gs[|gs| - 2]), gs[|gs| - 1][0]);
      ExtendStarts(joins, Init(gs), g[0]);
    } else {
      assert Chain(joins, gs[|gs| - 1]) && joins(g[|g| - 2], g[|g| - 1]);
      ExtendJoins(joins, Init(gs), Init(g), Last(g));
    }
  }

  /** And no other division into maximal chains exists. */
  lemma {:induction false} MaximalChainsAreRuns<T>(joins: (T, T) -> bool, gs: seq<seq<T>>)
    requires MaximalChains(joins, gs)
    ensures gs == Runs(joins, Flatten(gs))
    decreases |gs|, if gs == [] then 0 else |Last(gs)|
  {
    if gs != [] {
      ExtendUndoesShortened(joins, gs);
      ShortenedIsMaximal(joins, gs);
      var s, x := Flatten(Shortened(gs)), Last(Last(gs));
      MaximalChainsAreRuns(joins, Shortened(gs));
      assert Init(s + [x]) == s && Last(s + [x]) == x;
    }
  }

  lemma ShortenedIsMaximal<T>(joins: (T, T) -> bool, gs: seq<seq<T>>)
    requires MaximalChains(joins, gs) && gs != []
    ensures MaximalChains(joins, Shortened(gs))
  {
    var r := Shortened(gs);
    forall k | 0 <= k < |r| ensures r[k] != [] && Chain(joins, r[k]) {
      assert Chain(joins, gs[k]);
    }
    forall k | 0 < k < |r| ensures !joins(Last(r[k - 1]), r[k][0]) {
      assert r[k - 1] == gs[k - 1] && r[k][0] == gs[k][0];
    }
  }

  function Singles<T>(s: seq<T>): (gs: seq<seq<T>>)
    ensures |gs| == |s| && forall k | 0 <= k < |s| :: gs[k] == [s[k]]
  {
    seq(|s|, k requires 0 <= k < |s| => [s[k]])
  }

  lemma SinglesInit<T>(s: seq<T>)
    requires s != []
    ensures Init(Singles(s)) == Singles(Init(s)) && Last(Singles(s)) == [Last(s)]
  {}

  lemma {:induction false} FlattenSingles<T>(s: seq<T>)
    ensures Flatten(Singles(s)) == s
  {
    if s != [] {
      SinglesInit(s);
      FlattenSingles(Init(s));
    }
  }

  /** Where no element continues its predecessor every run is a single. */
  lemma {:induction false} UnjoinedAreSingle<T>(joins: (T, T) -> bool, s: seq<T>)
    requires forall k | 0 < k < |s| :: !joins(s[k - 1], s[k])
    ensures Runs(joins, s) == Singles(s)
  {
    if s != [] {
      SinglesInit(s);
      UnjoinedAreSingle(joins, Init(s));
      assert Singles(s) == Singles(Init(s)) + [[Last(s)]];
    }
  }

  // ---- concatenations and sums over a sequence ----

  function FlatMap<A, B>(f: A -> seq<B>, s: seq<A>): seq<B> {
    if s == [] then [] else FlatMap(f, Init(s)) + f(Last(s))
  }

  lemma FlatMapSnoc<A, B>(f: A -> seq<B>, s: seq<A>, x: A)
    ensures FlatMap(f, s + [x]) == FlatMap(f, s) + f(x)
  {
    SnocParts(s, x);
  }

  lemma {:induction false} FlatMapConcat<A, B>(f: A -> seq<B>, a: seq<A>, b: seq<A>)
    ensures FlatMap(f, a + b) == FlatMap(f, a) + FlatMap(f, b)
    decreases |b|
  {
    if b == [] {
      assert a + b == a;
    } else {
      FlatMapConcat(f, a, Init(b));
      assert Init(a + b) == a + Init(b) && Last(a + b) == Last(b);
    }
  }

  /** The concatenations over the groups of gs lie one after the other in the concatenation over all. */
  lemma FlatMapTiles<A, B>(f: A -> seq<B>, gs: seq<seq<A>>, k: nat)
    requires k < |gs|
    ensures var all := FlatMap(f, Flatten(gs));
            var lo, hi := |FlatMap(f, Flatten(gs[..k]))|, |FlatMap(f, Flatten(gs[..k + 1]))|;
            lo + |FlatMap(f, gs[k])| == hi <= |all| && all[lo..hi] == FlatMap(f, gs[k])
  {
    var before, after := gs[..k + 1], gs[k + 1..];
    assert gs == before + after && before == gs[..k] + [gs[k]];
    FlattenSnoc(gs[..k], gs[k]);
    FlattenConcat(before, after);
    FlatMapConcat(f, Flatten(gs[..k]), gs[k]);
    FlatMapConcat(f, Flatten(before), Flatten(after));
  }

  /** If g does to each outs[k] what f does to the whole group gs[k], it does so to every prefix. */
  lemma {:induction false} FlatMapRegroup<A, B>(f: A -> seq<B>, gs: seq<seq<A>>, g: A -> seq<B>, outs: seq<A>, j: nat)
    requires j <= |gs| == |outs|
    requires forall k | 0 <= k < |gs| :: g(outs[k]) == FlatMap(f, gs[k])
    ensures FlatMap(g, outs[..j]) == FlatMap(f, Flatten(gs[..j]))
  {
    if j > 0 {
      FlatMapRegroup(f, gs, g, outs, j - 1);
      assert outs[..j] == outs[..j - 1] + [outs[j - 1]] && gs[..j] == gs[..j - 1] + [gs[j - 1]];
      FlatMapSnoc(g, outs[..j - 1], outs[j - 1]);
      FlattenSnoc(gs[..j - 1], gs[j - 1]);
      FlatMapConcat(f, Flatten(gs[..j - 1]), gs[j - 1]);
    }
  }

  function Sum<A>(f: A -> int, s: seq<A>): int {
    if s == [] then 0 else Sum(f, Init(s)) + f(Last(s))
  }

  lemma SumSnoc<A>(f: A -> int, s: seq<A>, x: A)
    ensures Sum(f, s + [x]) == Sum(f, s) + f(x)
  {
    SnocParts(s, x);
  }

  lemma SumOne<A>(f: A -> int, x: A)
    ensures Sum(f, [x]) == f(x)
  {
    SumSnoc(f, [], x);
    assert [] + [x] == [x];
  }

  lemma {:induction false} SumConcat<A>(f: A -> int, a: seq<A>, b: seq<A>)
    ensures Sum(f, a + b) == Sum(f, a) + Sum(f, b)
    decreases |b|
  {
    if b == [] {
      assert a + b == a;
    } else {
      SumConcat(f, a, Init(b));
      assert Init(a + b) == a + Init(b) && Last(a + b) == Last(b);
    }
  }

  /** Where group k of gs lies in their concatenation. */
  lemma FlattenAt<T>(gs: seq<seq<T>>, k: nat)
    requires k < |gs|
    ensures var p := |Flatten(gs[..k])|;
            p + |gs[k]| <= |Flatten(gs)| && Flatten(gs)[p..p + |gs[k]|] == gs[k]
  {
    assert gs == gs[..k + 1] + gs[k + 1..] && gs[..k + 1] == gs[..k] + [gs[k]];
    FlattenSnoc(gs[..k], gs[k]);
    FlattenConcat(gs[..k + 1], gs[k + 1..]);
  }

  lemma {:induction false} RunsAreFew<T>(joins: (T, T) -> bool, s: seq<T>)
    ensures |Runs(joins, s)| <= |s|
  {
    if s != [] {
      RunsAreFew(joins, Init(s));
    }
  }

  /** There are as many runs as elements only if no element continues its predecessor. */
  lemma {:induction false} AllSingleMeansUnjoined<T>(joins: (T, T) -> bool, s: seq<T>)
    requires |Runs(joins, s)| == |s|
    ensures forall k | 0 < k < |s| :: !joins(s[k - 1], s[k])
  {
    if |s| > 1 {
      RunsAreFew(joins, Init(s));
      AllSingleMeansUnjoined(joins, Init(s));
      assert !joins(Last(Init(s)), Last(s));
    }
  }

  /** What one element contributes to a concatenation, and where. */
  lemma FlatMapAt<A, B>(f: A -> seq<B>, s: seq<A>, i: nat)
    requires i < |s|
    ensures var lo, all := |FlatMap(f, s[..i])|, FlatMap(f, s);
            lo + |f(s[i])| <= |all| && all[lo..lo + |f(s[i])|] == f(s[i])
    ensures |FlatMap(f, s[..i + 1])| == |FlatMap(f, s[..i])| + |f(s[i])|
  {
    assert s[..i + 1] == s[..i] + [s[i]] && s == s[..i + 1] + s[i + 1..];
    FlatMapSnoc(f, s[..i], s[i]);
    FlatMapConcat(f, s[..i + 1], s[i + 1..]);
  }

  /** Where an element of a concatenation comes from. */
  lemma {:induction false} FindInFlatten<T>(gs: seq<seq<T>>, x: T) returns (k: nat, i: nat)
    requires x in Flatten(gs)
    ensures k < |gs| && i < |gs[k]| && gs[k][i] == x
  {
    if x in Last(gs) {
      k := |gs| - 1;
      i :| 0 <= i < |gs[k]| && gs[k][i] == x;
    } else {
      k, i := FindInFlatten(Init(gs), x);
    }
  }

  lemma SumAround<T>(f: T -> int, s: seq<T>, a: seq<T>, x: T, b: seq<T>)
    requires s == a + [x] + b
    ensures Sum(f, s) == Sum(f, a + b) + f(x)
  {
    SumConcat(f, a + [x], b);
    SumSnoc(f, a, x);
    SumConcat(f, a, b);
  }

  lemma SplitAt<T>(s: seq<T>, j: nat)
    requires j < |s|
    ensures s == s[..j] + [s[j]] + s[j + 1..] && Without(s, j) == s[..j] + s[j + 1..]
  {}

  lemma SumTakenOut<T>(f: T -> int, s: seq<T>, j: nat)
    requires j < |s|
    ensures Sum(f, s) == Sum(f, Without(s, j)) + f(s[j])
  {
    SplitAt(s, j);
    SumAround(f, s, s[..j], s[j], s[j + 1..]);
  }

  /** A sum does not depend on the order. */
  lemma {:induction false} SumOfPermutation<T>(f: T -> int, p: seq<T>, q: seq<T>)
    requires multiset(p) == multiset(q)
    ensures Sum(f, p) == Sum(f, q)
    decreases |p|
  {
    if p == [] {
      assert |multiset(q)| == 0;
    } else {
      var j := FindHead(p, q);
      WithoutLosesOne(p, 0);
      WithoutLosesOne(q, j);
      SumOfPermutation(f, Without(p, 0), Without(q, j));
      SumTakenOut(f, p, 0);
      SumTakenOut(f, q, j);
    }
  }
}
