/** What the Steim 1 decompressor makes of a key word whose bytes are in reverse order. */
module SteimSwapped {
  import opened Grouping
  import opened SteimBuffer
  import opened SteimGroups
  import opened SteimWords
  import opened SteimDecode

  // ---- how many differences codes stand for ----

  function Carries(code: nat): nat {
    if code == 1 then 4 else if code == 2 then 2 else if code == 3 then 1 else 0
  }

  function Carried(codes: seq<nat>): nat {
    if codes == [] then 0 else Carries(codes[0]) + Carried(codes[1..])
  }

  lemma {:induction false} CarriedConcat(a: seq<nat>, b: seq<nat>)
    ensures Carried(a + b) == Carried(a) + Carried(b)
  {
    if a == [] {
      assert a + b == b;
    } else {
      CarriedConcat(a[1..], b);
      assert (a + b)[1..] == a[1..] + b;
    }
  }

  /** The most samples there can be: the first difference is passed over while there is only the first sample. */
  function Bound(samples: nat, diffs: nat): nat {
    if samples != 1 then samples + diffs else if diffs == 0 then 1 else diffs
  }

  /** Decompressing yields no more samples than there are differences, and an array with room for them is enough. */
  lemma {:induction false} DecodeCount(dest: seq<int>, cells: seq<Cell>, destlen: int)
    requires dest != [] && AreCells(cells)
    ensures var r, bound := Decode(dest, cells, destlen), Bound(|dest|, Carried(CodesOf(cells)));
            |r.dest| <= bound && (bound < destlen ==> r.status == 0)
    decreases |cells|
  {
    if cells != [] && |dest| < destlen {
      assert IsCell(cells[0]) && CodesOf(cells)[1..] == CodesOf(cells[1..]);
      DecodeCount(Take(dest, DiffsOf(cells[0])), cells[1..], destlen);
    }
  }

  // ---- the bytes of the key word ----

  lemma PackFour(s: seq<nat>, a: nat, b: nat, c: nat, d: nat)
    ensures Pack(s + [a, b, c, d]) == 0x100 * Pack(s) + 0x40 * a + 0x10 * b + 4 * c + d
  {
    var s3, s2, s1 := s + [a, b, c], s + [a, b], s + [a];
    assert (s + [a, b, c, d])[..|s| + 3] == s3 && s3[..|s| + 2] == s2 && s2[..|s| + 1] == s1 && s1[..|s|] == s;
    assert Pack(s3) == 4 * Pack(s2) + c && Pack(s2) == 4 * Pack(s1) + b && Pack(s1) == 4 * Pack(s) + a;
  }

  /** Four codes make a byte. */
  lemma PackByte(s: seq<nat>, q: seq<nat>)
    requires |q| == 4 && AreCodes(q)
    ensures Pack(q) < 0x100 && Pack(s + q) == 0x100 * Pack(s) + Pack(q)
  {
    PackFour(s, q[0], q[1], q[2], q[3]);
    PackFour([], q[0], q[1], q[2], q[3]);
    assert q == [q[0], q[1], q[2], q[3]] && [] + q == q;
  }

  lemma JoinedBytes(a: Byte, b: Byte, c: Byte, d: Byte, ab: nat, abc: nat, all: nat)
    requires ab == 0x100 * a as int + b && abc == 0x100 * ab + c && all == 0x100 * abc + d
    ensures Bytes4(all) == [a, b, c, d]
  {
    ShiftByte(d, abc);
    ShiftByte(c, ab);
    ShiftByte(b, a);
    assert all / 0x100 == abc && abc / 0x100 == ab && ab / 0x100 == a;
  }

  lemma PackQuads(a: seq<nat>, b: seq<nat>, c: seq<nat>, d: seq<nat>)
    requires |a| == |b| == |c| == |d| == 4 && AreCodes(a) && AreCodes(b) && AreCodes(c) && AreCodes(d)
    ensures Pack(a) < 0x100 && Pack(b) < 0x100 && Pack(c) < 0x100 && Pack(d) < 0x100
    ensures Bytes4(Pack(((a + b) + c) + d)) == [Pack(a), Pack(b), Pack(c), Pack(d)]
  {
    PackByte([], a);
    PackByte(a, b);
    PackByte(a + b, c);
    PackByte((a + b) + c, d);
    JoinedBytes(Pack(a), Pack(b), Pack(c), Pack(d), Pack(a + b), Pack((a + b) + c), Pack(((a + b) + c) + d));
  }

  /** Reversing the bytes reverses the order of the groups of four codes. */
  lemma BackwardsReads(a: seq<nat>, b: seq<nat>, c: seq<nat>, d: seq<nat>)
    requires |a| == |b| == |c| == |d| == 4 && AreCodes(a) && AreCodes(b) && AreCodes(c) && AreCodes(d)
    ensures Unpack(Read4(Backwards(Bytes4(Pack(((a + b) + c) + d)))), 16) == ((d + c) + b) + a
  {
    PackQuads(a, b, c, d);
    PackQuads(d, c, b, a);
    KeyReads(((d + c) + b) + a);
  }

  /** The code that comes to stand at the top is not looked at. */
  lemma QuadsCarry(a: seq<nat>, b: seq<nat>, c: seq<nat>, d: seq<nat>)
    requires d != []
    ensures Carried((((d + c) + b) + a)[1..]) + Carries(d[0]) == Carried(((a + b) + c) + d)
  {
    CarriedConcat(a, b);
    CarriedConcat(a + b, c);
    CarriedConcat((a + b) + c, d);
    CarriedConcat(d, c);
    CarriedConcat(d + c, b);
    CarriedConcat((d + c) + b, a);
  }

  // ---- the frame ----

  function Reversed(f: Frame): Frame
    requires |f.key| == 4
  {
    f.(key := Backwards(f.key))
  }

  lemma CodesSeen(f: Frame)
    requires IsFrame(f)
    ensures CodesOf(CellsOf(f)) == Unpack(Read4(f.key), 16)[1..]
  {}

  /** With its key word reversed a frame seems to hold as many differences fewer as its twelfth slot holds. */
  lemma ReversedCarries(cs: seq<Cell>)
    requires |cs| == SLOTS && AreCells(cs)
    ensures IsFrame(FrameOf(cs)) && IsFrame(Reversed(FrameOf(cs)))
    ensures Carried(CodesOf(CellsOf(Reversed(FrameOf(cs))))) + Carries(cs[11].code) == Carried(CodesOf(cs))
  {
    var codes := [0] + CodesOf(cs);
    FrameReads(cs);
    CodesAre(cs);
    var a, b, c, d := codes[..4], codes[4..8], codes[8..12], codes[12..];
    assert ((a + b) + c) + d == codes && d[0] == cs[11].code;
    BackwardsReads(a, b, c, d);
    QuadsCarry(a, b, c, d);
    CodesSeen(Reversed(FrameOf(cs)));
    assert codes[1..] == CodesOf(cs);
  }

  lemma FramesSnoc(fs: seq<Frame>, f: Frame)
    requires AreFrames(fs) && IsFrame(f)
    ensures AreFrames(fs + [f]) && (fs != [] ==> IsFrame(fs[0]) && AreFrames(fs[1..]))
  {
    if fs != [] {
      assert fs[0] in fs && forall g | g in fs[1..] :: g in fs;
    }
  }

  lemma {:induction false} AllCellsSnoc(fs: seq<Frame>, f: Frame)
    requires AreFrames(fs) && IsFrame(f)
    ensures AreFrames(fs + [f]) && AllCells(fs + [f]) == AllCells(fs) + CellsOf(f)
  {
    FramesSnoc(fs, f);
    if fs == [] {
      assert [] + [f] == [f] && [f][1..] == [];
    } else {
      assert (fs + [f])[0] == fs[0] && (fs + [f])[1..] == fs[1..] + [f];
      AllCellsSnoc(fs[1..], f);
      assert CellsOf(fs[0]) + (AllCells(fs[1..]) + CellsOf(f)) == (CellsOf(fs[0]) + AllCells(fs[1..])) + CellsOf(f);
    }
  }

  /** The frames of cells, with the last key word reversed. */
  lemma SwappedCarries(cells: seq<Cell>, n: nat, fs: seq<Frame>, swapped: seq<Frame>)
    requires n > 0 && |cells| == SLOTS * n && AreCells(cells) && fs == Frames(cells)
    requires |fs| == n && |Last(fs).key| == 4 && swapped == WithKey(fs, n - 1, Backwards(Last(fs).key))
    ensures AreFrames(swapped)
    ensures Carried(CodesOf(AllCells(swapped))) + Carries(cells[SLOTS * n - 4].code) == Carried(CodesOf(cells))
  {
    var m := SLOTS * (n - 1);
    var before, last := cells[..m], cells[m..];
    assert before + last == cells && last[..SLOTS] == last && last[SLOTS..] == [];
    FramesConcat(before, last, n - 1);
    assert fs == Frames(before) + [FrameOf(last)];
    assert swapped == Frames(before) + [Reversed(FrameOf(last))];
    FramesRead(before, n - 1);
    ReversedCarries(last);
    AllCellsSnoc(Frames(before), Reversed(FrameOf(last)));
    CodesConcat(before, CellsOf(Reversed(FrameOf(last))));
    CodesConcat(before, last);
  }

  lemma CodesConcat(a: seq<Cell>, b: seq<Cell>)
    ensures Carried(CodesOf(a + b)) == Carried(CodesOf(a)) + Carried(CodesOf(b))
  {
    assert CodesOf(a + b) == CodesOf(a) + CodesOf(b);
    CarriedConcat(CodesOf(a), CodesOf(b));
  }
}
