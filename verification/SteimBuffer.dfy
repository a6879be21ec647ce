/** The output buffer of the Steim 1 compressor on a host of either byte order. The output is to be big-endian, so a
    host that is not swaps what it has written. */
module SteimBuffer {
  import opened Grouping
  import opened SteimGroups
  import opened SteimWords

  // ---- host order ----

  function Backwards(w: seq<Byte>): (r: seq<Byte>)
    requires |w| == 4
    ensures |r| == 4
  {
    [w[3], w[2], w[1], w[0]]
  }

  /** util_lswap, which the compressor calls if the host is little-endian. */
  function HostSwap(w: seq<Byte>, little: bool): (r: seq<Byte>)
    requires |w| == 4
    ensures |r| == 4
  {
    if little then Backwards(w) else w
  }

  /** An INT32 in the memory of the host. */
  function InHost(x: int, little: bool): (w: seq<Byte>)
    ensures |w| == 4
  {
    if little then [x % 0x100, x / 0x100 % 0x100, x / 0x100 / 0x100 % 0x100, x / 0x100 / 0x100 / 0x100 % 0x100]
    else Bytes4(x)
  }

  /** What the host reads there, without sign. */
  function FromHost(w: seq<Byte>, little: bool): nat
    requires |w| == 4
  {
    if little then ((w[3] as int * 0x100 + w[2]) * 0x100 + w[1]) * 0x100 + w[0] else Unsigned4(w)
  }

  lemma SwappedInHost(x: int, little: bool)
    ensures HostSwap(InHost(x, little), little) == Bytes4(x) && InHost(x, little) == HostSwap(Bytes4(x), little)
  {}

  lemma HostReads(x: int, little: bool)
    requires 0 <= x < 0x1_0000_0000
    ensures FromHost(InHost(x, little), little) == x
  {
    Bytes4Unsigned(x);
  }

  function InHost2(x: int, little: bool): (w: seq<Byte>)
    ensures |w| == 2
  {
    if little then [x % 0x100, x / 0x100 % 0x100] else Bytes2(x)
  }

  function HostSwap2(w: seq<Byte>, little: bool): seq<Byte>
    requires |w| == 2
  {
    if little then [w[1], w[0]] else w
  }

  /** What csteim1_addword writes: bytes as they are, shorts and longs in host order and then swapped if need be. */
  function Stored(g: seq<int>, little: bool): Cell {
    Cell(Code(|g|),
         if |g| == 4 then [g[0] % 0x100, g[1] % 0x100, g[2] % 0x100, g[3] % 0x100]
         else if |g| == 2 then HostSwap2(InHost2(g[0], little), little) + HostSwap2(InHost2(g[1], little), little)
         else if |g| == 1 then HostSwap(InHost(g[0], little), little)
         else EMPTY.word)
  }

  /** Differences come out big-endian. */
  lemma StoredIsEncoded(g: seq<int>, little: bool)
    ensures Stored(g, little) == Encoded(g)
  {
    if |g| == 1 {
      SwappedInHost(g[0], little);
    }
  }

  // ---- the buffer ----

  /** The frames completed before the current one, and the key word, in memory, and the words of that one. The last
      frame stays the current one when it is complete. */
  datatype Buffer = Buffer(full: seq<Frame>, key: seq<Byte>, words: seq<seq<Byte>>)

  /** A code is put into the key word, which is read and written in host order. */
  function WithCode(key: seq<Byte>, code: nat, place: nat, little: bool): (r: seq<Byte>)
    requires |key| == 4
    ensures |r| == 4
  {
    InHost(FromHost(key, little) + code * Power4(place), little)
  }

  /** The next slot takes c. When it is the last of its frame the key word is swapped, and another frame is begun, if
      there is one. */
  function Put(b: Buffer, c: Cell, little: bool, maxfrm: nat): (r: Buffer)
    requires |b.key| == 4 && |b.words| < SLOTS
    ensures |r.key| == 4
  {
    var key, words := WithCode(b.key, c.code, SLOTS - |b.words| - 1, little), b.words + [c.word];
    if |words| < SLOTS then Buffer(b.full, key, words)
    else if |b.full| + 1 == maxfrm then Buffer(b.full, HostSwap(key, little), words)
    else Buffer(b.full + [Frame(HostSwap(key, little), words)], InHost(0, little), [])
  }

  function BufferOf(cs: seq<Cell>, little: bool, maxfrm: nat): (b: Buffer)
    requires |cs| <= SLOTS * maxfrm
    ensures |b.key| == 4 && |cs| == SLOTS * |b.full| + |b.words| && |b.words| <= SLOTS
    ensures maxfrm > 0 ==> |b.full| < maxfrm && (|b.words| == SLOTS ==> |b.full| + 1 == maxfrm)
  {
    if cs == [] then Buffer([], InHost(0, little), [])
    else Put(BufferOf(Init(cs), little, maxfrm), Last(cs), little, maxfrm)
  }

  lemma PutNext(cs: seq<Cell>, c: Cell, little: bool, maxfrm: nat)
    requires |cs| < SLOTS * maxfrm
    ensures |BufferOf(cs, little, maxfrm).words| < SLOTS
    ensures BufferOf(cs + [c], little, maxfrm) == Put(BufferOf(cs, little, maxfrm), c, little, maxfrm)
  {
    SnocParts(cs, c);
  }

  predicate Same<T(==)>(a: seq<T>, b: seq<T>) {
    a == b
  }

  /** b holds the cells cs. The quantifier keeps the definition of BufferOf out of proofs that do not mention it. */
  ghost predicate Holds(b: Buffer, cs: seq<Cell>, little: bool, maxfrm: nat) {
    |cs| <= SLOTS * maxfrm && forall x | Same(x, cs) :: b == BufferOf(x, little, maxfrm)
  }

  lemma HoldsNext(b: Buffer, cs: seq<Cell>, c: Cell, little: bool, maxfrm: nat)
    requires Holds(b, cs, little, maxfrm) && |cs| < SLOTS * maxfrm
    ensures |b.key| == 4 && |b.words| < SLOTS && Holds(Put(b, c, little, maxfrm), cs + [c], little, maxfrm)
  {
    assert Same(cs, cs);
    assert b == BufferOf(cs, little, maxfrm);
    PutNext(cs, c, little, maxfrm);
  }

  lemma SlotsIn(full: nat, maxfrm: nat, words: nat, n: nat)
    requires SLOTS * full + words == n <= SLOTS * maxfrm && words <= SLOTS && full < maxfrm
    ensures words == SLOTS && full + 1 == maxfrm <==> n == SLOTS * maxfrm
  {}

  /** The last slot of the current frame is taken exactly if all slots are. */
  lemma SlotsFilled(b: Buffer, cs: seq<Cell>, little: bool, maxfrm: nat)
    requires Holds(b, cs, little, maxfrm) && maxfrm > 0
    ensures |b.words| == SLOTS <==> |cs| == SLOTS * maxfrm
  {
    assert Same(cs, cs);
    assert b == BufferOf(cs, little, maxfrm);
    SlotsIn(|b.full|, maxfrm, |b.words|, |cs|);
  }

  // ---- what is in it ----

  /** The completed frames hold the first cells of cs, and the current one the others; its key word has been swapped
      if it is complete. */
  ghost predicate Laid(b: Buffer, cs: seq<Cell>, little: bool, maxfrm: nat) {
    var m := SLOTS * |b.full|;
    && AreCells(cs) && m <= |cs| <= m + SLOTS && |b.full| < maxfrm
    && (|cs| == m + SLOTS ==> |b.full| + 1 == maxfrm)
    && b.full == Frames(cs[..m]) && b.words == WordsOf(cs[m..])
    && b.key == KeyWord(KeyOf(cs[m..]), |cs| == m + SLOTS, little)
  }

  function KeyWord(key: nat, complete: bool, little: bool): seq<Byte> {
    if complete then Bytes4(key) else InHost(key, little)
  }

  lemma NoKey()
    ensures KeyOf([]) == 0 && WordsOf([]) == []
  {
    PackZeros([0], SLOTS);
    assert [0] + CodesOf([]) + Zeros(SLOTS) == [0] + Zeros(SLOTS);
  }

  lemma ManyCodes(cs: seq<Cell>)
    requires |cs| <= SLOTS && AreCells(cs)
    ensures AreCodes([0] + CodesOf(cs) + Zeros(SLOTS - |cs|))
  {
    forall i | 0 <= i < |cs| ensures CodesOf(cs)[i] < 4 {
      assert IsCell(cs[i]);
    }
  }

  lemma KeyFits(cs: seq<Cell>)
    requires |cs| <= SLOTS && AreCells(cs)
    ensures KeyOf(cs) < 0x1_0000_0000
  {
    ManyCodes(cs);
    PackIsBelow([0] + CodesOf(cs) + Zeros(SLOTS - |cs|));
    Power4Of16();
  }

  lemma CodeAdds(key: nat, code: nat, place: nat, next: nat, little: bool)
    requires key < 0x1_0000_0000 && next == key + code * Power4(place)
    ensures WithCode(InHost(key, little), code, place, little) == InHost(next, little)
  {
    HostReads(key, little);
  }

  lemma FrameDone(done: seq<Cell>, now: seq<Cell>, n: nat)
    requires |done| == SLOTS * n && |now| == SLOTS
    ensures Frames(done + now) == Frames(done) + [Frame(Bytes4(KeyOf(now)), WordsOf(now))]
  {
    FramesConcat(done, now, n);
    assert now[..SLOTS] == now && now[SLOTS..] == [];
  }

  lemma WordsNext(cs: seq<Cell>, c: Cell)
    ensures WordsOf(cs + [c]) == WordsOf(cs) + [c.word]
  {}

  lemma PutIs(b: Buffer, c: Cell, little: bool, maxfrm: nat, key: nat, words: seq<seq<Byte>>)
    requires |b.key| == 4 && |b.words| < SLOTS && words == b.words + [c.word]
    requires WithCode(b.key, c.code, SLOTS - |b.words| - 1, little) == InHost(key, little)
    ensures Put(b, c, little, maxfrm)
         == if |words| < SLOTS then Buffer(b.full, InHost(key, little), words)
            else if |b.full| + 1 == maxfrm then Buffer(b.full, Bytes4(key), words)
            else Buffer(b.full + [Frame(Bytes4(key), words)], InHost(0, little), [])
  {
    SwappedInHost(key, little);
  }

  /** The effect of Put on the cells of the current frame. */
  lemma PutLays(b: Buffer, done: seq<Cell>, now: seq<Cell>, c: Cell, little: bool, maxfrm: nat)
    requires |done| == SLOTS * |b.full| && |now| < SLOTS && b.full == Frames(done) && AreCells(now) && IsCell(c)
    requires b.words == WordsOf(now) && b.key == InHost(KeyOf(now), little)
    ensures var next := now + [c];
            Put(b, c, little, maxfrm)
            == if |next| < SLOTS then Buffer(b.full, InHost(KeyOf(next), little), WordsOf(next))
               else if |b.full| + 1 == maxfrm then Buffer(b.full, Bytes4(KeyOf(next)), WordsOf(next))
               else Buffer(Frames(done + next), InHost(0, little), [])
  {
    var next := now + [c];
    KeyFits(now);
    KeyNext(now, c);
    WordsNext(now, c);
    CodeAdds(KeyOf(now), c.code, SLOTS - |now| - 1, KeyOf(next), little);
    PutIs(b, c, little, maxfrm, KeyOf(next), WordsOf(next));
    if |next| == SLOTS {
      FrameDone(done, next, |b.full|);
    }
  }

  lemma CutSnoc(cs: seq<Cell>, c: Cell, m: nat)
    requires m <= |cs|
    ensures (cs + [c])[..m] == cs[..m] && (cs + [c])[m..] == cs[m..] + [c]
    ensures cs[..m] + (cs[m..] + [c]) == cs + [c]
  {}

  lemma LaidIn(b: Buffer, cs: seq<Cell>, done: seq<Cell>, now: seq<Cell>, little: bool, maxfrm: nat)
    requires AreCells(cs) && cs == done + now && |now| <= SLOTS && |done| == SLOTS * |b.full| && |b.full| < maxfrm
    requires |now| == SLOTS ==> |b.full| + 1 == maxfrm
    requires b.full == Frames(done) && b.words == WordsOf(now)
    requires b.key == KeyWord(KeyOf(now), |now| == SLOTS, little)
    ensures Laid(b, cs, little, maxfrm)
  {
    assert cs[..|done|] == done && cs[|done|..] == now;
  }

  lemma LaidNext(b: Buffer, cs: seq<Cell>, c: Cell, little: bool, maxfrm: nat)
    requires Laid(b, cs, little, maxfrm) && |cs| < SLOTS * maxfrm && IsCell(c)
    ensures |b.words| < SLOTS && Laid(Put(b, c, little, maxfrm), cs + [c], little, maxfrm)
  {
    var m := SLOTS * |b.full|;
    var now, more := cs[m..], cs + [c];
    CutSnoc(cs, c, m);
    PutLays(b, cs[..m], now, c, little, maxfrm);
    if |now| + 1 == SLOTS && |b.full| + 1 != maxfrm {
      NoKey();
      FrameDone(cs[..m], now + [c], |b.full|);
      LaidIn(Put(b, c, little, maxfrm), more, more, [], little, maxfrm);
    } else {
      LaidIn(Put(b, c, little, maxfrm), more, cs[..m], now + [c], little, maxfrm);
    }
  }

  lemma {:induction false} BufferIsLaid(cs: seq<Cell>, little: bool, maxfrm: nat)
    requires AreCells(cs) && |cs| <= SLOTS * maxfrm && maxfrm > 0
    ensures Laid(BufferOf(cs, little, maxfrm), cs, little, maxfrm)
  {
    if cs == [] {
      NoKey();
    } else {
      BufferIsLaid(Init(cs), little, maxfrm);
      assert IsCell(Last(cs)) && Init(cs) + [Last(cs)] == cs;
      LaidNext(BufferOf(Init(cs), little, maxfrm), Init(cs), Last(cs), little, maxfrm);
    }
  }

  lemma EmptyKey(n: nat)
    requires n <= SLOTS
    ensures KeyOf(Empties(n)) == 0
  {
    PackZeros([0], SLOTS);
    assert [0] + CodesOf(Empties(n)) + Zeros(SLOTS - n) == [0] + Zeros(SLOTS);
  }

  /** Slots that are left free at the start. */
  lemma StartHolds(b: Buffer, cs: seq<Cell>, little: bool, maxfrm: nat)
    requires maxfrm > 0 && |cs| < SLOTS && cs == Empties(|cs|) && b == Buffer([], InHost(0, little), WordsOf(cs))
    ensures Holds(b, cs, little, maxfrm)
  {
    EmptyKey(|cs|);
    BufferIsLaid(cs, little, maxfrm);
    StartIs(BufferOf(cs, little, maxfrm), cs, little, maxfrm);
  }

  lemma StartIs(b: Buffer, cs: seq<Cell>, little: bool, maxfrm: nat)
    requires Laid(b, cs, little, maxfrm) && |cs| < SLOTS
    ensures b == Buffer([], InHost(KeyOf(cs), little), WordsOf(cs))
  {
    assert cs[..0] == [] && cs[0..] == cs;
  }

  // ---- what is delivered ----

  /** cs, and nothing in the other slots. */
  function Padded(cs: seq<Cell>, frames: nat): (r: seq<Cell>)
    requires |cs| <= SLOTS * frames
    ensures |r| == SLOTS * frames
  {
    cs + Empties(SLOTS * frames - |cs|)
  }

  function ZeroFrames(n: nat): (fs: seq<Frame>)
    ensures |fs| == n
  {
    seq(n, _ => FrameOf(Empties(SLOTS)))
  }

  /** The completed frames, the current one with zero behind it, and zero frames. */
  function AllFrames(b: Buffer, frames: nat): (fs: seq<Frame>)
    requires |b.words| <= SLOTS && |b.full| < frames
    ensures |fs| == frames
  {
    b.full + [Frame(b.key, b.words + WordsOf(Empties(SLOTS - |b.words|)))] + ZeroFrames(frames - |b.full| - 1)
  }

  ghost predicate FullFrames(fs: seq<Frame>) {
    forall i | 0 <= i < |fs| :: |fs[i].words| == SLOTS
  }

  lemma {:induction false} CompletedAreFull(cs: seq<Cell>, little: bool, maxfrm: nat)
    requires |cs| <= SLOTS * maxfrm
    ensures FullFrames(BufferOf(cs, little, maxfrm).full)
  {
    if cs != [] {
      CompletedAreFull(Init(cs), little, maxfrm);
    }
  }

  lemma FirstIsFull(b: Buffer, frames: nat)
    requires |b.words| <= SLOTS && |b.full| < frames && FullFrames(b.full)
    ensures |AllFrames(b, frames)[0].words| == SLOTS
  {}

  /** out[1] and out[2], the first sample and the last one taken, are written in host order and swapped at the end. */
  function WithHeader(fs: seq<Frame>, first: int, last: int, little: bool): (r: seq<Frame>)
    requires fs != [] && |fs[0].words| == SLOTS
    ensures |r| == |fs|
  {
    var words := fs[0].words;
    fs[0 := fs[0].(words := words[0 := HostSwap(InHost(first, little), little)]
                                 [1 := HostSwap(InHost(last, little), little)])]
  }

  function WithKey(fs: seq<Frame>, i: nat, key: seq<Byte>): (r: seq<Frame>)
    requires i < |fs|
    ensures |r| == |fs|
  {
    fs[i := fs[i].(key := key)]
  }

  lemma {:induction false} EmptyFrames(n: nat)
    ensures Frames(Empties(SLOTS * n)) == ZeroFrames(n)
  {
    if n > 0 {
      EmptyFrames(n - 1);
      var es := Empties(SLOTS * n);
      assert es[..SLOTS] == Empties(SLOTS) && es[SLOTS..] == Empties(SLOTS * (n - 1));
    }
  }

  lemma PaddedFrame(now: seq<Cell>)
    requires |now| <= SLOTS
    ensures FrameOf(now + Empties(SLOTS - |now|))
         == Frame(Bytes4(KeyOf(now)), WordsOf(now) + WordsOf(Empties(SLOTS - |now|)))
  {
    KeyPadded(now);
    assert WordsOf(now + Empties(SLOTS - |now|)) == WordsOf(now) + WordsOf(Empties(SLOTS - |now|));
  }

  lemma OneFrame(cs: seq<Cell>)
    requires |cs| == SLOTS
    ensures Frames(cs) == [FrameOf(cs)]
  {
    assert cs[..SLOTS] == cs && cs[SLOTS..] == [];
  }

  lemma ThreeParts(done: seq<Cell>, current: seq<Cell>, rest: seq<Cell>, n: nat, k: nat)
    requires |done| == SLOTS * n && |current| == SLOTS && rest == Empties(SLOTS * k)
    ensures Frames(done + (current + rest)) == Frames(done) + ([FrameOf(current)] + ZeroFrames(k))
    ensures |Frames(done)| == n
  {
    FramesConcat(done, current + rest, n);
    FramesConcat(current, rest, 1);
    OneFrame(current);
    EmptyFrames(k);
  }

  lemma PaddedParts(cs: seq<Cell>, m: nat, frames: nat, n: nat)
    requires m == SLOTS * n && m <= |cs| <= m + SLOTS && n < frames
    ensures |cs| <= SLOTS * frames
    ensures Padded(cs, frames)
         == cs[..m] + ((cs[m..] + Empties(SLOTS - |cs[m..]|)) + Empties(SLOTS * (frames - n - 1)))
  {}

  lemma KeyReplaced(a: seq<Frame>, f: Frame, c: seq<Frame>, key: seq<Byte>)
    ensures (a + ([f] + c))[|a|] == f
    ensures a + [f.(key := key)] + c == WithKey(a + ([f] + c), |a|, key)
  {}

  /** Delivered are the frames of the cells, but for what is in the key word of the current frame. */
  lemma LaidShows(b: Buffer, cs: seq<Cell>, little: bool, frames: nat)
    requires Laid(b, cs, little, frames)
    ensures |cs| <= SLOTS * frames && |Frames(Padded(cs, frames))| == frames
    ensures Frames(Padded(cs, frames))[|b.full|].key == Bytes4(KeyOf(cs[SLOTS * |b.full|..]))
    ensures AllFrames(b, frames) == WithKey(Frames(Padded(cs, frames)), |b.full|, b.key)
  {
    var n, m := |b.full|, SLOTS * |b.full|;
    var now := cs[m..];
    PaddedParts(cs, m, frames, n);
    ThreeParts(cs[..m], now + Empties(SLOTS - |now|), Empties(SLOTS * (frames - n - 1)), n, frames - n - 1);
    PaddedFrame(now);
    KeyReplaced(b.full, FrameOf(now + Empties(SLOTS - |now|)), ZeroFrames(frames - n - 1), b.key);
  }
}
