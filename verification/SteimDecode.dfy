/** The Steim 1 decompressor. */
module SteimDecode {
  import opened SteimGroups
  import opened SteimWords
  import opened Steim

  /** The samples dest and those that the differences ds lead to. */
  function Added(dest: seq<int>, ds: seq<int>): (r: seq<int>)
    requires dest != []
    ensures |r| == |dest| + |ds|
    decreases |ds|
  {
    if ds == [] then dest else Added(dest + [Wrap(dest[|dest| - 1] + ds[0])], ds[1..])
  }

  /** One word: as long as there is only the first sample, the first difference of the word is passed over. */
  function Take(dest: seq<int>, ds: seq<int>): (r: seq<int>)
    requires dest != []
    ensures r != []
  {
    Added(dest, if |dest| == 1 && ds != [] then ds[1..] else ds)
  }

  datatype Result = Result(status: int, dest: seq<int>)

  /** All slots, as long as the array is not full. */
  function Decode(dest: seq<int>, cells: seq<Cell>, destlen: int): Result
    requires dest != [] && AreCells(cells)
    decreases |cells|
  {
    if cells == [] then Result(0, dest)
    else if |dest| >= destlen then Result(-2, dest)
    else Decode(Take(dest, DiffsOf(cells[0])), cells[1..], destlen)
  }

  // ---- util_dsteim1 ----

  method UnpackKey(word: seq<Byte>) returns (code: array<nat>)
    requires |word| == 4
    ensures fresh(code) && code.Length == 16 && code[..] == Unpack(Read4(word), 16)
  {
    var key := Read4(word);
    ghost var all := Unpack(key, 16);
    code := new nat[16];
    var j := 15;
    while j >= 0
      invariant -1 <= j < 16
      invariant all == Unpack(key, j + 1) + code[j + 1..]
    {
      code[j] := key % 4;
      key := key / 4;
      j := j - 1;
    }
    assert code[0..] == code[..];
  }

  method TakeBytes(dest: seq<int>, c: Cell) returns (dest': seq<int>)
    requires dest != [] && IsCell(c) && c.code == 1
    ensures dest' == Take(dest, DiffsOf(c))
  {
    dest' := dest;
    var val := dest[|dest| - 1];
    ghost var ds := DiffsOf(c);
    var k := if |dest| == 1 then 1 else 0;
    while k < 4
      invariant 0 <= k <= 4 && dest' != [] && val == dest'[|dest'| - 1] && Added(dest', ds[k..]) == Take(dest, ds)
    {
      val := Wrap(val + Signed(c.word[k], 0x80));
      dest' := dest' + [val];
      k := k + 1;
    }
  }

  method TakeShorts(dest: seq<int>, c: Cell) returns (dest': seq<int>)
    requires dest != [] && IsCell(c) && c.code == 2
    ensures dest' == Take(dest, DiffsOf(c))
  {
    dest' := dest;
    var val := dest[|dest| - 1];
    ghost var ds := DiffsOf(c);
    var k := if |dest| == 1 then 1 else 0;
    while k < 2
      invariant 0 <= k <= 2 && dest' != [] && val == dest'[|dest'| - 1] && Added(dest', ds[k..]) == Take(dest, ds)
    {
      val := Wrap(val + Read2(c.word[2 * k], c.word[2 * k + 1]));
      dest' := dest' + [val];
      k := k + 1;
    }
  }

  lemma TakeLong(dest: seq<int>, x: int)
    requires dest != []
    ensures Take(dest, []) == dest
    ensures Take(dest, [x]) == if |dest| == 1 then dest else dest + [Wrap(dest[|dest| - 1] + x)]
  {
    var more := dest + [Wrap(dest[|dest| - 1] + x)];
    assert [x][1..] == [] && Added(more, []) == more;
    assert Added(dest, [x]) == Added(more, [x][1..]);
  }

  /** The differences in a word are added up, by its code. */
  method TakeWord(dest: seq<int>, c: Cell) returns (dest': seq<int>)
    requires dest != [] && IsCell(c)
    ensures dest' == Take(dest, DiffsOf(c))
  {
    dest' := dest;
    TakeLong(dest, Read4(c.word));
    if c.code == 1 {
      dest' := TakeBytes(dest, c);
    } else if c.code == 2 {
      dest' := TakeShorts(dest, c);
    } else if c.code == 3 {
      if |dest| > 1 {
        dest' := dest + [Wrap(dest[|dest| - 1] + Read4(c.word))];
      }
    }
  }

  /** The loop over the slots of a frame; rest is what follows it. */
  method TakeFrame(dest: seq<int>, f: Frame, destlen: int, ghost rest: seq<Cell>) returns (dest': seq<int>, stop: bool)
    requires dest != [] && IsFrame(f) && AreCells(rest)
    ensures dest' != []
    ensures Decode(dest, CellsOf(f) + rest, destlen)
         == if stop then Result(-2, dest') else Decode(dest', rest, destlen)
  {
    var code := UnpackKey(f.key);
    ghost var cells := CellsOf(f);
    dest', stop := dest, false;
    var j := 1;
    while j < 16
      invariant 1 <= j <= 16 && dest' != [] && code[..] == Unpack(Read4(f.key), 16)
      invariant Decode(dest', cells[j - 1..] + rest, destlen) == Decode(dest, cells + rest, destlen)
    {
      NextSlot(dest', cells, rest, destlen, j - 1);
      if |dest'| >= destlen {
        return dest', true;
      }
      assert cells[j - 1] == Cell(code[j], f.words[j - 1]);
      dest' := TakeWord(dest', Cell(code[j], f.words[j - 1]));
      j := j + 1;
    }
    assert cells[15..] + rest == rest;
  }

  lemma NextSlot(dest: seq<int>, cells: seq<Cell>, rest: seq<Cell>, destlen: int, j: nat)
    requires dest != [] && AreCells(cells) && AreCells(rest) && j < |cells|
    ensures Decode(dest, cells[j..] + rest, destlen)
         == if |dest| >= destlen then Result(-2, dest)
            else Decode(Take(dest, DiffsOf(cells[j])), cells[j + 1..] + rest, destlen)
  {
    var left := cells[j..] + rest;
    assert left[0] == cells[j] && left[1..] == cells[j + 1..] + rest;
  }

  method Dsteim1(src: seq<Frame>, destlen: int) returns (status: int, dest: seq<int>)
    requires src != [] && AreFrames(src)
    ensures IsFrame(src[0])
    ensures Result(status, dest) == Decode([Read4(src[0].words[0])], AllCells(src), destlen)
  {
    assert src[0] in src;
    ghost var all := Decode([Read4(src[0].words[0])], AllCells(src), destlen);
    dest := [Read4(src[0].words[0])];
    status := 0;
    var i := 0;
    while i < |src|
      invariant 0 <= i <= |src| && dest != [] && AreFrames(src[i..]) && status == 0
      invariant Decode(dest, AllCells(src[i..]), destlen) == all
    {
      assert src[i..][0] == src[i] && src[i..][1..] == src[i + 1..] && src[i] in src[i..];
      var stop;
      dest, stop := TakeFrame(dest, src[i], destlen, AllCells(src[i + 1..]));
      if stop {
        return -2, dest;
      }
      i := i + 1;
    }
  }
}
