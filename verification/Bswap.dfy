/** bswap: a stream read into a fixed buffer, swapped there word by word, and written out again. */
module Bswap {
  import opened Cssio
  import opened SwapWords
  import opened Wrappers

  const BUFFER_LEN := 32768

  /** A sequence with the two halves at p exchanged. */
  function PairExchanged<T>(s: seq<T>, p: nat, h: nat): (r: seq<T>)
    requires p + 2 * h <= |s|
  {
    seq(|s|, i requires 0 <= i < |s| =>
      if p <= i < p + h then s[i + h] else if p + h <= i < p + 2 * h then s[i - h] else s[i])
  }

  lemma PairInside<T>(done: seq<T>, x: seq<T>, y: seq<T>, rest: seq<T>, h: nat)
    requires |x| == |y| == h
    ensures PairExchanged(done + (x + (y + rest)), |done|, h) == done + (y + (x + rest))
  {
    var s, r := done + (x + (y + rest)), done + (y + (x + rest));
    forall i | 0 <= i < |s| ensures PairExchanged(s, |done|, h)[i] == r[i] {
    }
  }

  /** memcpy of one word into two halves, and back with the halves exchanged. */
  method ExchangePair(a: array<byte>, p: nat, h: nat)
    requires p + 2 * h <= a.Length
    modifies a
    ensures a[..] == PairExchanged(old(a[..]), p, h)
  {
    ghost var was := a[..];
    ghost var r := PairExchanged(was, p, h);
    var j := 0;
    while j < h
      invariant 0 <= j <= h
      invariant forall i :: 0 <= i < a.Length ==>
                  a[i] == if p <= i < p + j || p + h <= i < p + h + j then r[i] else was[i]
    {
      a[p + j], a[p + h + j] := a[p + h + j], a[p + j];
      j := j + 1;
    }
  }

  /** The loop of utilSwapUINT16, utilSwapUINT32 and utilSwapUINT64, over the first n bytes. */
  method ExchangeHalves(a: array<byte>, h: nat, n: nat)
    requires h > 0 && n <= a.Length && Whole(n, 2 * h)
    modifies a
    ensures a[..n] == Exchanged(old(a[..n]), h) && a[n..] == old(a[n..])
  {
    ghost var s, tail := a[..n], a[n..];
    ghost var done, todo := [], s;
    var p := 0;
    assert a[..] == done + (todo + tail);
    while p < n
      invariant 0 <= p <= n && |done| == p && |todo| == n - p && Whole(n - p, 2 * h)
      invariant a[..] == done + (todo + tail)
      invariant done + Exchanged(todo, h) == Exchanged(s, h)
    {
      WholeStep(n - p, 2 * h);
      ghost var x, y, rest := todo[..h], todo[h..2 * h], todo[2 * h..];
      PairStep(done, todo, tail, h);
      ExchangePair(a, p, h);
      done, todo := done + (y + x), rest;
      p := p + 2 * h;
    }
    assert todo == [] && done == Exchanged(s, h);
    assert a[..] == done + tail;
  }

  lemma Assoc<T>(a: seq<T>, b: seq<T>, c: seq<T>)
    ensures a + (b + c) == a + b + c
  {}

  lemma Regroup<T>(done: seq<T>, x: seq<T>, y: seq<T>, rest: seq<T>, tail: seq<T>)
    ensures done + ((x + (y + rest)) + tail) == done + (x + (y + (rest + tail)))
    ensures done + (y + (x + (rest + tail))) == (done + (y + x)) + (rest + tail)
  {
    Assoc(y, rest, tail);
    Assoc(x, y + rest, tail);
    Assoc(y, x, rest + tail);
    Assoc(done, y + x, rest + tail);
  }

  lemma PairStep<T>(done: seq<T>, todo: seq<T>, tail: seq<T>, h: nat)
    requires h > 0 && |todo| >= 2 * h
    ensures var x, y, rest := todo[..h], todo[h..2 * h], todo[2 * h..];
      && PairExchanged(done + (todo + tail), |done|, h) == (done + (y + x)) + (rest + tail)
      && done + Exchanged(todo, h) == (done + (y + x)) + Exchanged(rest, h)
  {
    var x, y, rest := todo[..h], todo[h..2 * h], todo[2 * h..];
    assert todo == x + (y + rest);
    Regroup(done, x, y, rest, tail);
    PairInside(done, x, y, rest + tail, h);
    ExchangedPair(x, y, rest, h);
    Assoc(done, y + x, Exchanged(rest, h));
  }

  method SwapUINT16(a: array<byte>, count: nat)
    requires 2 * count <= a.Length
    modifies a
    ensures a[..2 * count] == Swapped(old(a[..2 * count]), 2) && a[2 * count..] == old(a[2 * count..])
  {
    SwappedOnes(a[..2 * count]);
    ExchangeSwapped(a[..2 * count], 1);
    ExchangeHalves(a, 1, 2 * count);
  }

  method SwapUINT32(a: array<byte>, count: nat)
    requires 4 * count <= a.Length
    modifies a
    ensures a[..4 * count] == Swapped(old(a[..4 * count]), 4) && a[4 * count..] == old(a[4 * count..])
  {
    ExchangeSwapped(a[..4 * count], 2);
    SwapUINT16(a, count * 2);
    ExchangeHalves(a, 2, 4 * count);
  }

  method SwapUINT64(a: array<byte>, count: nat)
    requires 8 * count <= a.Length
    modifies a
    ensures a[..8 * count] == Swapped(old(a[..8 * count]), 8) && a[8 * count..] == old(a[8 * count..])
  {
    ExchangeSwapped(a[..8 * count], 4);
    SwapUINT32(a, count * 2);
    ExchangeHalves(a, 4, 8 * count);
  }

  predicate WordSize(w: int) {
    w == 2 || w == 4 || w == 8
  }

  lemma RaggedTail<T>(s: seq<T>, w: nat, m: nat)
    requires w > 0 && m <= |s| < m + w && Whole(m, w)
    ensures Swapped(s, w) == Swapped(s[..m], w) + s[m..]
  {
    assert s == s[..m] + s[m..];
    SwappedConcat(s[..m], s[m..], w);
  }

  method SwapSamples(a: array<byte>, wordlen: nat, nsamp: nat, ghost m: nat)
    requires WordSize(wordlen) && m == wordlen * nsamp <= a.Length
    modifies a
    ensures a[..m] == Swapped(old(a[..m]), wordlen) && a[m..] == old(a[m..])
  {
    if wordlen == 2 {
      SwapUINT16(a, nsamp);
    } else if wordlen == 4 {
      SwapUINT32(a, nsamp);
    } else {
      SwapUINT64(a, nsamp);
    }
  }

  /** The words of the n bytes that were read. */
  method SwapBuffer(buffer: array<byte>, wordlen: nat, n: nat)
    requires WordSize(wordlen) && n <= buffer.Length
    modifies buffer
    ensures buffer[..n] == Swapped(old(buffer[..n]), wordlen)
  {
    ghost var m := WholePart(n, wordlen);
    ghost var s := buffer[..n];
    RaggedTail(s, wordlen, m);
    assert s[..m] == buffer[..m] && s[m..] == buffer[m..][..n - m];
    SwapSamples(buffer, wordlen, n / wordlen, m);
    assert buffer[..n] == buffer[..m] + buffer[m..][..n - m];
  }

  ghost function WholePart(n: nat, w: nat): (m: nat)
    requires WordSize(w)
    ensures m == w * (n / w) && m <= n < m + w && Whole(m, w)
  {
    CutIsWhole(n / w, w);
    w * (n / w)
  }

  /** gzread: as much of the input as is left and fits. */
  method Read(buffer: array<byte>, rest: seq<byte>) returns (nbyte: nat)
    modifies buffer
    ensures nbyte == if |rest| < buffer.Length then |rest| else buffer.Length
    ensures buffer[..nbyte] == rest[..nbyte]
  {
    nbyte := 0;
    while nbyte < |rest| && nbyte < buffer.Length
      invariant nbyte <= |rest| && nbyte <= buffer.Length
      invariant buffer[..nbyte] == rest[..nbyte]
    {
      buffer[nbyte] := rest[nbyte];
      nbyte := nbyte + 1;
    }
  }

  /** Swap2Bytes, Swap4Bytes and Swap8Bytes: the output is the whole input with every word reversed and a ragged tail
      untouched, although it was swapped buffer by buffer. */
  method SwapBytes(buffer: array<byte>, wordlen: nat, input: seq<byte>) returns (output: seq<byte>)
    requires WordSize(wordlen) && buffer.Length == BUFFER_LEN
    modifies buffer
    ensures output == Swapped(input, wordlen)
  {
    output := [];
    var rest := input;
    ghost var goal := Swapped(input, wordlen);
    ChunkedIsSwapped(input, BUFFER_LEN, wordlen);
    while rest != []
      invariant output + Chunked(rest, BUFFER_LEN, wordlen) == goal
    {
      var nbyte := Read(buffer, rest);
      SwapBuffer(buffer, wordlen, nbyte);
      ChunkStep(output, rest, nbyte, wordlen);
      output := output + buffer[..nbyte];
      rest := rest[nbyte..];
    }
  }

  lemma ChunkStep(output: seq<byte>, rest: seq<byte>, n: nat, w: nat)
    requires w > 0 && n == if |rest| < BUFFER_LEN then |rest| else BUFFER_LEN
    ensures output + Chunked(rest, BUFFER_LEN, w) == output + Swapped(rest[..n], w) + Chunked(rest[n..], BUFFER_LEN, w)
  {
    if |rest| <= BUFFER_LEN {
      assert rest[..n] == rest && rest[n..] == [];
    }
    Assoc(output, Swapped(rest[..n], w), Chunked(rest[n..], BUFFER_LEN, w));
  }

  /** main: no argument means words of four bytes, and any size but 2, 4 and 8 is refused. */
  method Run(buffer: array<byte>, wordsize: Option<int>, input: seq<byte>) returns (output: Option<seq<byte>>)
    requires buffer.Length == BUFFER_LEN
    modifies buffer
    ensures var w := if wordsize.None? then 4 else wordsize.value;
      output == if w in {2, 4, 8} then Some(Swapped(input, w)) else None
  {
    var w := if wordsize.None? then 4 else wordsize.value;
    if !WordSize(w) {
      return None;
    }
    var swapped := SwapBytes(buffer, w, input);
    output := Some(swapped);
  }
}
