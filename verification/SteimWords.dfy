/** Steim 1 on the byte level: 32-bit words, their two-bit codes, and frames of sixteen words. */
module SteimWords {
  import opened SteimGroups

  type Byte = x: int | 0 <= x < 256

  // ---- integers as bytes, most significant first ----

  function Bytes2(x: int): seq<Byte> {
    [x / 0x100 % 0x100, x % 0x100]
  }

  function Bytes4(x: int): seq<Byte> {
    [x / 0x100 / 0x100 / 0x100 % 0x100, x / 0x100 / 0x100 % 0x100, x / 0x100 % 0x100, x % 0x100]
  }

  /** Two's complement: u stands for u, or for u less than twice half. */
  function Signed(u: int, half: int): int {
    if u >= half then u - 2 * half else u
  }

  function Read2(hi: Byte, lo: Byte): int {
    Signed(hi as int * 0x100 + lo, 0x8000)
  }

  function Unsigned4(b: seq<Byte>): nat
    requires |b| == 4
  {
    ((b[0] as int * 0x100 + b[1]) * 0x100 + b[2]) * 0x100 + b[3]
  }

  function Read4(b: seq<Byte>): int
    requires |b| == 4
  {
    Signed(Unsigned4(b), 0x8000_0000)
  }

  lemma ByteReads(x: int)
    requires Size(x) == 1
    ensures Signed(x % 0x100, 0x80) == x
  {}

  lemma Bytes2Read(x: int)
    requires Size(x) <= 2
    ensures Read2(x / 0x100 % 0x100, x % 0x100) == x
  {}

  /** One byte is given to exactly the differences that a signed byte holds, and two to those that two bytes hold
      and one does not, but for -32768. */
  lemma SizesAreLeast(diff: int)
    ensures Size(diff) in {1, 2, 4}
    ensures Size(diff) == 1 <==> Signed(diff % 0x100, 0x80) == diff
    ensures Size(diff) <= 2 <==> Read2(diff / 0x100 % 0x100, diff % 0x100) == diff && diff != -32768
  {
    if -32768 <= diff < 32768 {
      TwoBytesHold(diff);
    }
  }

  lemma TwoBytesHold(diff: int)
    requires -32768 <= diff < 32768
    ensures Read2(diff / 0x100 % 0x100, diff % 0x100) == diff
  {
    SplitByte(diff);
  }

  lemma SplitByte(x: int)
    ensures x == x / 0x100 * 0x100 + x % 0x100
  {}

  lemma ShiftByte(x: int, m: int)
    ensures (x + 0x100 * m) / 0x100 == x / 0x100 + m && (x + 0x100 * m) % 0x100 == x % 0x100
  {}

  lemma Bytes4Unsigned(x: int)
    requires 0 <= x < 0x1_0000_0000
    ensures Unsigned4(Bytes4(x)) == x
  {
    SplitByte(x);
    SplitByte(x / 0x100);
    SplitByte(x / 0x100 / 0x100);
  }

  lemma Bytes4OfNegative(x: int)
    ensures Bytes4(x + 0x1_0000_0000) == Bytes4(x)
  {
    ShiftByte(x, 0x100_0000);
    ShiftByte(x / 0x100, 0x1_0000);
    ShiftByte(x / 0x100 / 0x100, 0x100);
    ShiftByte(x / 0x100 / 0x100 / 0x100, 1);
  }

  lemma Bytes4Read(x: int)
    requires IsInt32(x)
    ensures Read4(Bytes4(x)) == x
  {
    if x < 0 {
      Bytes4OfNegative(x);
      Bytes4Unsigned(x + 0x1_0000_0000);
    } else {
      Bytes4Unsigned(x);
    }
  }

  // ---- words ----

  /** One slot of a frame: what the key word says of it, and its four bytes. */
  datatype Cell = Cell(code: nat, word: seq<Byte>)

  const EMPTY := Cell(0, [0, 0, 0, 0])

  ghost predicate IsCell(c: Cell) {
    c.code < 4 && |c.word| == 4
  }

  /** The codes of words with one, two and four differences. */
  function Code(n: nat): nat {
    if n == 4 then 1 else if n == 2 then 2 else if n == 1 then 3 else 0
  }

  /** csteim1_addword: a word with its code. */
  function Encoded(g: seq<int>): (c: Cell)
    ensures IsCell(c)
  {
    Cell(Code(|g|),
         if |g| == 4 then [g[0] % 0x100, g[1] % 0x100, g[2] % 0x100, g[3] % 0x100]
         else if |g| == 2 then Bytes2(g[0]) + Bytes2(g[1])
         else if |g| == 1 then Bytes4(g[0])
         else EMPTY.word)
  }

  function EncodedAll(gs: seq<seq<int>>): (cs: seq<Cell>)
    ensures |cs| == |gs| && forall i | 0 <= i < |gs| :: cs[i] == Encoded(gs[i])
  {
    seq(|gs|, i requires 0 <= i < |gs| => Encoded(gs[i]))
  }

  /** The differences that the decompressor sees in a slot. */
  function DiffsOf(c: Cell): seq<int>
    requires |c.word| == 4
  {
    var w := c.word;
    if c.code == 1 then [Signed(w[0], 0x80), Signed(w[1], 0x80), Signed(w[2], 0x80), Signed(w[3], 0x80)]
    else if c.code == 2 then [Read2(w[0], w[1]), Read2(w[2], w[3])]
    else if c.code == 3 then [Read4(w)]
    else []
  }

  /** A word is read back as it was written. */
  lemma EncodedReads(g: seq<int>)
    requires IsWord(g) && forall i | 0 <= i < |g| :: IsInt32(g[i])
    ensures DiffsOf(Encoded(g)) == g
  {
    if |g| == 4 {
      ByteReads(g[0]);
      ByteReads(g[1]);
      ByteReads(g[2]);
      ByteReads(g[3]);
    } else if |g| == 2 {
      Bytes2Read(g[0]);
      Bytes2Read(g[1]);
    } else {
      Bytes4Read(g[0]);
    }
  }

  // ---- the key word ----

  function Power4(n: nat): (p: nat)
    ensures p > 0
  {
    if n == 0 then 1 else 4 * Power4(n - 1)
  }

  /** Two bits for each code, the first one in the highest bits. */
  function Pack(codes: seq<nat>): nat {
    if codes == [] then 0 else 4 * Pack(codes[..|codes| - 1]) + codes[|codes| - 1]
  }

  /** The lowest n codes of a key word; shifting keeps the sign. */
  function Unpack(key: int, n: nat): (codes: seq<nat>)
    ensures |codes| == n && forall i | 0 <= i < n :: codes[i] < 4
    decreases n
  {
    if n == 0 then [] else Unpack(key / 4, n - 1) + [key % 4]
  }

  ghost predicate AreCodes(codes: seq<nat>) {
    forall i | 0 <= i < |codes| :: codes[i] < 4
  }

  lemma ShiftOut(q: nat, c: nat)
    requires c < 4
    ensures (4 * q + c) / 4 == q && (4 * q + c) % 4 == c
  {}

  lemma {:induction false} UnpackPack(codes: seq<nat>)
    requires AreCodes(codes)
    ensures Unpack(Pack(codes), |codes|) == codes
  {
    if codes != [] {
      var n := |codes| - 1;
      UnpackPack(codes[..n]);
      ShiftOut(Pack(codes[..n]), codes[n]);
    }
  }

  lemma {:induction false} PackIsBelow(codes: seq<nat>)
    requires AreCodes(codes)
    ensures Pack(codes) < Power4(|codes|)
  {
    if codes != [] {
      PackIsBelow(codes[..|codes| - 1]);
    }
  }

  /** Higher bits do not matter. */
  lemma {:induction false} UnpackLow(key: int, n: nat, p: nat)
    requires p == Power4(n)
    ensures Unpack(key - p, n) == Unpack(key, n)
    decreases n
  {
    if n > 0 {
      UnpackLow(key / 4, n - 1, Power4(n - 1));
    }
  }

  function Zeros(n: nat): (z: seq<nat>)
    ensures |z| == n
  {
    seq(n, _ => 0)
  }

  lemma {:induction false} PackZeros(codes: seq<nat>, n: nat)
    ensures Pack(codes + Zeros(n)) == Pack(codes) * Power4(n)
  {
    if n == 0 {
      assert codes + Zeros(0) == codes;
    } else {
      var longer := codes + Zeros(n);
      assert longer[..|longer| - 1] == codes + Zeros(n - 1);
      PackZeros(codes, n - 1);
      Quadruple(Pack(codes), Power4(n - 1));
    }
  }

  lemma Quadruple(a: nat, b: nat)
    ensures 4 * (a * b) == a * (4 * b)
  {}

  /** Adding a code in the next free place. */
  lemma PackNext(codes: seq<nat>, code: nat, n: nat)
    ensures Pack((codes + [code]) + Zeros(n)) == Pack(codes + Zeros(n + 1)) + code * Power4(n)
  {
    PackZeros(codes + [code], n);
    PackZeros(codes, n + 1);
    assert (codes + [code])[..|codes|] == codes;
    AddNext(Pack(codes), code, Power4(n));
  }

  lemma AddNext(a: nat, code: nat, p: nat)
    ensures (4 * a + code) * p == a * (4 * p) + code * p
  {}

  // ---- frames ----

  /** Sixteen words of four bytes: the codes of all sixteen, and the other fifteen. */
  datatype Frame = Frame(key: seq<Byte>, words: seq<seq<Byte>>)

  const SLOTS := 15

  ghost predicate AreCells(cs: seq<Cell>) {
    forall i | 0 <= i < |cs| :: IsCell(cs[i])
  }

  function CodesOf(cs: seq<Cell>): (r: seq<nat>)
    ensures |r| == |cs| && forall i | 0 <= i < |cs| :: r[i] == cs[i].code
  {
    seq(|cs|, i requires 0 <= i < |cs| => cs[i].code)
  }

  function WordsOf(cs: seq<Cell>): (r: seq<seq<Byte>>)
    ensures |r| == |cs| && forall i | 0 <= i < |cs| :: r[i] == cs[i].word
  {
    seq(|cs|, i requires 0 <= i < |cs| => cs[i].word)
  }

  /** The key word as a number when the first slots hold cs. */
  function KeyOf(cs: seq<Cell>): nat
    requires |cs| <= SLOTS
  {
    Pack([0] + CodesOf(cs) + Zeros(SLOTS - |cs|))
  }

  function FrameOf(cs: seq<Cell>): Frame
    requires |cs| == SLOTS
  {
    Frame(Bytes4(KeyOf(cs)), WordsOf(cs))
  }

  ghost predicate IsFrame(f: Frame) {
    |f.key| == 4 && |f.words| == SLOTS && forall i | 0 <= i < SLOTS :: |f.words[i]| == 4
  }

  /** What the decompressor sees in the fifteen slots. */
  function CellsOf(f: Frame): (cs: seq<Cell>)
    requires IsFrame(f)
    ensures |cs| == SLOTS && AreCells(cs)
  {
    var codes := Unpack(Read4(f.key), SLOTS + 1);
    seq(SLOTS, i requires 0 <= i < SLOTS => Cell(codes[i + 1], f.words[i]))
  }

  lemma Power4Of16()
    ensures Power4(16) == 0x1_0000_0000
  {
    assert Power4(4) == 0x100;
    assert Power4(8) == 0x1_0000;
    assert Power4(12) == 0x100_0000;
  }

  lemma KeyWordReads(key: nat)
    requires key < 0x1_0000_0000 == Power4(16)
    ensures Unpack(Read4(Bytes4(key)), 16) == Unpack(key, 16)
  {
    Bytes4Unsigned(key);
    UnpackLow(key, 16, Power4(16));
  }

  lemma KeyReads(codes: seq<nat>)
    requires |codes| == 16 && AreCodes(codes)
    ensures Unpack(Read4(Bytes4(Pack(codes))), 16) == codes
  {
    UnpackPack(codes);
    PackIsBelow(codes);
    Power4Of16();
    KeyWordReads(Pack(codes));
  }

  lemma CodesAre(cs: seq<Cell>)
    requires |cs| == SLOTS && AreCells(cs)
    ensures AreCodes([0] + CodesOf(cs)) && [0] + CodesOf(cs) + Zeros(0) == [0] + CodesOf(cs)
  {
    forall i | 0 <= i < SLOTS ensures CodesOf(cs)[i] < 4 {
      assert IsCell(cs[i]);
    }
  }

  lemma FrameReads(cs: seq<Cell>)
    requires |cs| == SLOTS && AreCells(cs)
    ensures IsFrame(FrameOf(cs)) && CellsOf(FrameOf(cs)) == cs
  {
    var codes := [0] + CodesOf(cs);
    CodesAre(cs);
    KeyReads(codes);
    assert IsFrame(FrameOf(cs)) by {
      assert forall i | 0 <= i < SLOTS :: IsCell(cs[i]);
    }
    forall i | 0 <= i < SLOTS ensures CellsOf(FrameOf(cs))[i] == cs[i] {
      assert codes[i + 1] == cs[i].code;
    }
  }

  lemma CodesSnoc(cs: seq<Cell>, c: Cell)
    ensures [0] + CodesOf(cs + [c]) == ([0] + CodesOf(cs)) + [c.code]
  {}

  lemma KeyNext(cs: seq<Cell>, c: Cell)
    requires |cs| < SLOTS
    ensures KeyOf(cs + [c]) == KeyOf(cs) + c.code * Power4(SLOTS - |cs| - 1)
  {
    CodesSnoc(cs, c);
    PackNext([0] + CodesOf(cs), c.code, SLOTS - |cs| - 1);
  }

  function Empties(n: nat): (cs: seq<Cell>)
    ensures |cs| == n && AreCells(cs) && forall i | 0 <= i < n :: cs[i] == EMPTY
  {
    seq(n, _ => EMPTY)
  }

  /** The rest of a frame is zero from the start. */
  lemma KeyPadded(cs: seq<Cell>)
    requires |cs| <= SLOTS
    ensures KeyOf(cs + Empties(SLOTS - |cs|)) == KeyOf(cs)
  {
    var n := SLOTS - |cs|;
    assert [0] + CodesOf(cs + Empties(n)) + Zeros(0) == [0] + CodesOf(cs) + Zeros(n);
  }

  /** Frames of fifteen cells each. */
  function Frames(cs: seq<Cell>): seq<Frame> {
    if |cs| < SLOTS then [] else [FrameOf(cs[..SLOTS])] + Frames(cs[SLOTS..])
  }

  lemma {:induction false} FramesConcat(a: seq<Cell>, b: seq<Cell>, n: nat)
    requires |a| == SLOTS * n
    ensures Frames(a + b) == Frames(a) + Frames(b) && |Frames(a)| == n
    decreases n
  {
    if n == 0 {
      assert a + b == b;
    } else {
      assert (a + b)[..SLOTS] == a[..SLOTS] && (a + b)[SLOTS..] == a[SLOTS..] + b;
      FramesConcat(a[SLOTS..], b, n - 1);
    }
  }

  ghost predicate AreFrames(fs: seq<Frame>) {
    forall f | f in fs :: IsFrame(f)
  }

  function AllCells(fs: seq<Frame>): (cs: seq<Cell>)
    requires AreFrames(fs)
    ensures AreCells(cs)
  {
    if fs == [] then []
    else
      assert fs[0] in fs && forall f | f in fs[1..] :: f in fs;
      CellsOf(fs[0]) + AllCells(fs[1..])
  }

  lemma {:induction false} FramesRead(cs: seq<Cell>, n: nat)
    requires |cs| == SLOTS * n && AreCells(cs)
    ensures AreFrames(Frames(cs)) && AllCells(Frames(cs)) == cs
    decreases n
  {
    if n > 0 {
      FrameReads(cs[..SLOTS]);
      FramesRead(cs[SLOTS..], n - 1);
      assert cs == cs[..SLOTS] + cs[SLOTS..];
    }
  }
}
