/** Reversing the bytes of every word of a stream. */
module SwapWords {
  import opened CLib

  function Reversed<T>(s: seq<T>): (r: seq<T>)
    ensures |r| == |s|
  {
    if s == [] then [] else Reversed(s[1..]) + [s[0]]
  }

  /** Every whole word of w elements is reversed; a ragged tail stays as it is. */
  function Swapped<T>(s: seq<T>, w: nat): (r: seq<T>)
    requires w > 0
    ensures |r| == |s|
    decreases |s|
  {
    if |s| < w then s else Reversed(s[..w]) + Swapped(s[w..], w)
  }

  /** Every whole pair of halves of h elements is exchanged. */
  function Exchanged<T>(s: seq<T>, h: nat): (r: seq<T>)
    requires h > 0
    ensures |r| == |s|
    decreases |s|
  {
    if |s| < 2 * h then s else s[h..2 * h] + s[..h] + Exchanged(s[2 * h..], h)
  }

  predicate Whole(n: nat, w: nat)
    requires w > 0
  {
    n % w == 0
  }

  lemma RemainderIs(n: nat, w: nat, q: nat, r: nat)
    requires n == w * q + r && r < w
    ensures n / w == q && n % w == r
  {
    QuotientIs(n, w, q);
  }

  lemma DropOne(m: nat, w: nat)
    requires w > 0
    ensures (m + w) % w == m % w && (m + w) / w == m / w + 1
  {
    var q, r := m / w, m % w;
    assert m + w == w * (q + 1) + r;
    RemainderIs(m + w, w, q + 1, r);
  }

  lemma SmallRest(n: nat, w: nat)
    requires w > 0
    ensures n < w ==> n % w == n
  {
    if n < w {
      RemainderIs(n, w, 0, n);
    }
  }

  lemma WholeStep(n: nat, w: nat)
    requires w > 0 && Whole(n, w) && n > 0
    ensures n >= w && Whole(n - w, w)
  {
    SmallRest(n, w);
    DropOne(n - w, w);
  }

  // ---- reversing ----

  lemma {:induction false} ReversedConcat<T>(a: seq<T>, b: seq<T>)
    ensures Reversed(a + b) == Reversed(b) + Reversed(a)
  {
    if a == [] {
      assert a + b == b;
    } else {
      assert (a + b)[0] == a[0] && (a + b)[1..] == a[1..] + b;
      ReversedConcat(a[1..], b);
    }
  }

  lemma {:induction false} ReversedTwice<T>(s: seq<T>)
    ensures Reversed(Reversed(s)) == s
  {
    if s != [] {
      ReversedTwice(s[1..]);
      ReversedConcat(Reversed(s[1..]), [s[0]]);
      assert Reversed([s[0]]) == [s[0]];
    }
  }

  // ---- swapping ----

  /** Swapping twice gives the stream back, ragged tail and all. */
  lemma {:induction false} SwappedTwice<T>(s: seq<T>, w: nat)
    requires w > 0
    ensures Swapped(Swapped(s, w), w) == s
    decreases |s|
  {
    if |s| >= w {
      var first, rest := Reversed(s[..w]), Swapped(s[w..], w);
      assert (first + rest)[..w] == first && (first + rest)[w..] == rest;
      ReversedTwice(s[..w]);
      SwappedTwice(s[w..], w);
    }
  }

  /** A stream cut at a whole number of words is swapped piece by piece. */
  lemma {:induction false} SwappedConcat<T>(a: seq<T>, b: seq<T>, w: nat)
    requires w > 0 && Whole(|a|, w)
    ensures Swapped(a + b, w) == Swapped(a, w) + Swapped(b, w)
    decreases |a|
  {
    if a == [] {
      assert a + b == b;
    } else {
      WholeStep(|a|, w);
      assert (a + b)[..w] == a[..w] && (a + b)[w..] == a[w..] + b;
      SwappedConcat(a[w..], b, w);
    }
  }

  lemma SwappedPair<T>(a: seq<T>, b: seq<T>, rest: seq<T>, h: nat)
    requires h > 0 && |a| == |b| == h
    ensures Swapped(a + (b + rest), h) == Reversed(a) + (Reversed(b) + Swapped(rest, h))
  {
    assert (a + (b + rest))[..h] == a && (a + (b + rest))[h..] == b + rest;
    assert (b + rest)[..h] == b && (b + rest)[h..] == rest;
  }

  lemma ExchangedPair<T>(a: seq<T>, b: seq<T>, rest: seq<T>, h: nat)
    requires h > 0 && |a| == |b| == h
    ensures Exchanged(a + (b + rest), h) == b + a + Exchanged(rest, h)
  {
    var s := a + (b + rest);
    assert s[..h] == a && s[h..2 * h] == b && s[2 * h..] == rest;
  }

  lemma ReversedPair<T>(a: seq<T>, b: seq<T>, rest: seq<T>, h: nat)
    requires h > 0 && |a| == |b| == h
    ensures Swapped(a + (b + rest), 2 * h) == Reversed(b) + Reversed(a) + Swapped(rest, 2 * h)
  {
    var s := a + (b + rest);
    assert s[..2 * h] == a + b && s[2 * h..] == rest;
    ReversedConcat(a, b);
  }

  /** Swapping words of 2h is swapping words of h and then exchanging neighbours. */
  lemma {:induction false} ExchangeSwapped<T>(s: seq<T>, h: nat)
    requires h > 0 && Whole(|s|, 2 * h)
    ensures Exchanged(Swapped(s, h), h) == Swapped(s, 2 * h)
    decreases |s|
  {
    if s != [] {
      WholeStep(|s|, 2 * h);
      var a, b, rest := s[..h], s[h..2 * h], s[2 * h..];
      assert s == a + (b + rest);
      ExchangeSwapped(rest, h);
      SwappedPair(a, b, rest, h);
      ExchangedPair(Reversed(a), Reversed(b), Swapped(rest, h), h);
      ReversedPair(a, b, rest, h);
    }
  }

  lemma {:induction false} SwappedOnes<T>(s: seq<T>)
    ensures Swapped(s, 1) == s
    decreases |s|
  {
    if s != [] {
      assert s[..1] == [s[0]] && Reversed([s[0]]) == [s[0]];
      SwappedOnes(s[1..]);
    }
  }

  // ---- chunks ----

  /** Each chunk of k elements swapped by itself, as it is read. */
  function Chunked<T>(s: seq<T>, k: nat, w: nat): seq<T>
    requires k > 0 && w > 0
    decreases |s|
  {
    if |s| <= k then Swapped(s, w) else Swapped(s[..k], w) + Chunked(s[k..], k, w)
  }

  lemma {:induction false} ChunkedIsSwapped<T>(s: seq<T>, k: nat, w: nat)
    requires k > 0 && w > 0 && Whole(k, w)
    ensures Chunked(s, k, w) == Swapped(s, w)
    decreases |s|
  {
    if |s| > k {
      ChunkedIsSwapped(s[k..], k, w);
      SwappedConcat(s[..k], s[k..], w);
      assert s[..k] + s[k..] == s;
    }
  }

  // ---- when chunks do no harm ----

  lemma {:induction false} ReversedAt<T>(s: seq<T>, q: nat)
    requires q < |s|
    ensures Reversed(s)[q] == s[|s| - 1 - q]
  {
    if q < |s| - 1 {
      ReversedAt(s[1..], q);
    }
  }

  /** Element by element: the word at p has its elements in reverse order, and a ragged tail stays. */
  lemma {:induction false} SwappedAt<T>(s: seq<T>, w: nat, p: nat, q: nat)
    requires w > 0 && Whole(p, w) && q < w
    ensures p + w <= |s| ==> Swapped(s, w)[p + q] == s[p + w - 1 - q]
    ensures p + q < |s| < p + w ==> Swapped(s, w)[p + q] == s[p + q]
    decreases p
  {
    if p > 0 && p <= |s| {
      WholeStep(p, w);
      SwappedAt(s[w..], w, p - w, q);
    } else if p == 0 && w <= |s| {
      ReversedAt(s[..w], q);
    }
  }

  /** A stream of two symbols whose straddling word shows the cut. */
  function Telltale<T>(p: nat, n: nat, zero: T, one: T): (s: seq<T>)
    ensures |s| == n
  {
    seq(n, i requires 0 <= i < n => if i == p then one else zero)
  }

  /** The start of the word that a chunk of k elements cuts. */
  function Cut(k: nat, w: nat): (p: nat)
    requires w > 0
    ensures Whole(p, w) && p + k % w == k
  {
    CutIsWhole(k / w, w);
    k / w * w
  }

  lemma CutIsWhole(q: nat, w: nat)
    requires w > 0
    ensures q * w % w == 0
  {
    RemainderIs(q * w, w, q, 0);
  }

  lemma CutShows<T>(k: nat, w: nat, zero: T, one: T)
    requires k > 0 && w > 0 && !Whole(k, w) && zero != one
    ensures var s := Telltale(Cut(k, w), Cut(k, w) + w, zero, one); Chunked(s, k, w) != Swapped(s, w)
  {
    var p := Cut(k, w);
    var s := Telltale(p, p + w, zero, one);
    SwappedAt(s, w, p, 0);
    SwappedAt(s[..k], w, p, 0);
    assert s[..k][p] == one && s[p + w - 1] == zero;
    assert Chunked(s, k, w)[p] == Swapped(s[..k], w)[p];
  }

  /** Swapping chunk by chunk is swapping the whole stream, for every stream, if and only if a chunk holds a whole
      number of words. zero and one are any two different elements. */
  lemma ChunksAreHarmlessIff<T(!new)>(k: nat, w: nat, zero: T, one: T)
    requires k > 0 && w > 0 && zero != one
    ensures (forall s: seq<T> :: Chunked(s, k, w) == Swapped(s, w)) <==> Whole(k, w)
  {
    if Whole(k, w) {
      forall s: seq<T> ensures Chunked(s, k, w) == Swapped(s, w) {
        ChunkedIsSwapped(s, k, w);
      }
    } else {
      CutShows(k, w, zero, one);
    }
  }
}
