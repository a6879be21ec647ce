/** The Steim 1 compressor and decompressor. */
module Steim {
  import opened Grouping
  import opened SteimBuffer
  import opened SteimGroups
  import opened SteimWords

  // ---- the automaton that forms words ----

  datatype Activity = Activity(flush1: nat, flush2: nat, flush3: nat)

  const STATE_NUL := 0
  const STATE_1D1 := 1
  const STATE_2D1 := 2
  const STATE_3D1 := 3
  const STATE_1D2 := 4

  function ActionTable(state: int, size: int): Activity {
    match state
    case 0 => if size == 4 then Activity(0, 0, 1) else Activity(0, 0, 0)
    case 1 =>
      if size == 0 then Activity(1, 0, 0) else if size == 2 then Activity(0, 0, 2)
      else if size == 4 then Activity(1, 0, 1) else Activity(0, 0, 0)
    case 2 =>
      if size == 0 || size == 2 then Activity(2, 0, 0)
      else if size == 4 then Activity(2, 0, 1) else Activity(0, 0, 0)
    case 3 =>
      if size == 0 then Activity(2, 1, 0) else if size == 1 then Activity(0, 0, 4)
      else if size == 2 then Activity(2, 0, 2) else Activity(2, 1, 1)
    case _ =>
      if size == 0 then Activity(1, 0, 0) else if size == 4 then Activity(1, 0, 1) else Activity(0, 0, 2)
  }

  function StateTable(state: int, size: int): int {
    match state
    case 0 => if size == 1 then STATE_1D1 else if size == 2 then STATE_1D2 else STATE_NUL
    case 1 => if size == 1 then STATE_2D1 else STATE_NUL
    case 2 => if size == 1 then STATE_3D1 else if size == 2 then STATE_1D2 else STATE_NUL
    case _ => STATE_NUL
  }

  /** The state that goes with the saved differences. */
  function StateOf(p: seq<int>): int {
    if p == [] then STATE_NUL else if Size(p[0]) == 2 then STATE_1D2 else |p|
  }

  /** A call of csteim1_frm with room enough. */
  function Fill(p: seq<int>, diff: int, flush: bool): Fed {
    if flush then Fed(Flushed(p), []) else Feed(p, diff)
  }

  function SizeArg(diff: int, flush: bool): nat {
    if flush then 0 else Size(diff)
  }

  /** A word with the differences g, if there are any. */
  function Part(g: seq<int>): seq<seq<int>> {
    if g == [] then [] else [g]
  }

  /** There is as much to flush as the action asks for. */
  predicate Usable(p: seq<int>, size: nat, a: Activity) {
    && a.flush1 in {0, 1, 2} && a.flush2 in {0, 1} && a.flush3 in {0, 1, 2, 4}
    && a.flush1 + a.flush2 + a.flush3 <= |p| + (if size > 0 then 1 else 0) && a.flush1 + a.flush2 <= |p|
  }

  /** What the tables make of the saved differences p and one more, if size is not 0. */
  function Tabled(p: seq<int>, diff: int, size: nat, a: Activity): Fed
    requires Usable(p, size, a)
  {
    var rest := p[a.flush1..];
    var left := if size > 0 then rest[a.flush2..] + [diff] else rest[a.flush2..];
    Fed(Part(p[..a.flush1]) + Part(rest[..a.flush2]) + Part(left[..a.flush3]), left[a.flush3..])
  }

  lemma Pieces(p: seq<int>, diff: int)
    requires |p| <= 3
    ensures p[0..] == p && p[|p|..] == [] && p[..|p|] == p && p[..0] == []
    ensures (p + [diff])[|p| + 1..] == [] && (p + [diff])[..|p| + 1] == p + [diff]
    ensures [diff][..1] == [diff] && [diff][1..] == [] && [] + [diff] == [diff]
  {}

  /** The tables are well formed for what can be saved. */
  lemma TablesFit(p: seq<int>, diff: int, flush: bool)
    requires Saved(p)
    ensures var size := SizeArg(diff, flush);
            var a := ActionTable(StateOf(p), size);
            && Usable(p, size, a)
            && StateTable(StateOf(p), size) == StateOf(Fill(p, diff, flush).saved)
  {}

  lemma TablesUsable(p: seq<int>, state: int, diff: int, flush: bool)
    requires Saved(p) && state == StateOf(p)
    ensures Usable(p, SizeArg(diff, flush), ActionTable(state, SizeArg(diff, flush)))
  {
    TablesFit(p, diff, flush);
  }

  function Act(p: seq<int>, diff: int, flush: bool): Activity {
    ActionTable(StateOf(p), SizeArg(diff, flush))
  }

  /** The saved differences and the words emitted. */
  datatype Progress = Progress(d: seq<int>, emitted: seq<seq<int>>) {
    function Flush(nf: nat): Progress
      requires nf <= |d|
    {
      Progress(d[nf..], emitted + Part(d[..nf]))
    }

    /** The three flushes of an action; the current difference is saved before the third, and the output may be full
        after any of them. */
    function Perform(a: Activity, diff: int, size: nat, capacity: int): Progress
      requires Usable(d, size, a)
    {
      var p1 := Flush(a.flush1);
      if |p1.emitted| >= capacity then p1
      else
        var p2 := p1.Flush(a.flush2);
        if |p2.emitted| >= capacity then p2
        else Progress(if size > 0 then p2.d + [diff] else p2.d, p2.emitted).Flush(a.flush3)
    }
  }

  /** The statics of csteim1_frm. */
  datatype Statics = Statics(state: int, p: Progress)

  /** A call of csteim1_frm: the tables are followed, whatever is saved. */
  function FrmOf(s: Statics, diff: int, flush: bool, capacity: int): Statics
    requires Usable(s.p.d, SizeArg(diff, flush), ActionTable(s.state, SizeArg(diff, flush)))
  {
    var size := SizeArg(diff, flush);
    Statics(StateTable(s.state, size), s.p.Perform(ActionTable(s.state, size), diff, size, capacity))
  }

  /** Nothing is left behind when the room runs out: not if three differences are saved and only the word with the
      first two fits, nor if two are saved and the next one needs two bytes. */
  predicate Tidy(p: seq<int>, diff: int, flush: bool, room: int) {
    && !(|p| == 3 && room == 1 && (flush || Size(diff) != 1))
    && !(|p| == 2 && !flush && Size(diff) == 2)
  }

  lemma NoneFills(diff: int, flush: bool)
    ensures Act([], diff, flush) == Activity(0, 0, if flush || Size(diff) < 4 then 0 else 1)
    ensures Tabled([], diff, SizeArg(diff, flush), Act([], diff, flush)) == Fill([], diff, flush)
  {
    Pieces([], diff);
  }

  lemma OneFills(p: seq<int>, diff: int, flush: bool)
    requires Saved(p) && |p| == 1
    ensures var a := Act(p, diff, flush);
            && Usable(p, SizeArg(diff, flush), a)
            && Tabled(p, diff, SizeArg(diff, flush), a) == Fill(p, diff, flush)
  {
    Pieces(p, diff);
    Pieces([], diff);
  }

  lemma TwoFill(p: seq<int>, diff: int, flush: bool)
    requires Saved(p) && |p| == 2
    ensures var a := Act(p, diff, flush);
            && Usable(p, SizeArg(diff, flush), a)
            && Tabled(p, diff, SizeArg(diff, flush), a) == Fill(p, diff, flush)
  {
    Pieces(p, diff);
    Pieces([], diff);
  }

  lemma ThreeFill(p: seq<int>, diff: int, flush: bool)
    requires Saved(p) && |p| == 3
    ensures var a := Act(p, diff, flush);
            && Usable(p, SizeArg(diff, flush), a)
            && Tabled(p, diff, SizeArg(diff, flush), a) == Fill(p, diff, flush)
  {
    Pieces(p, diff);
    Pieces(p[2..], diff);
    Pieces([], diff);
  }

  /** The tables do what Feed and Flushed say, and keep the state in step with what is saved. */
  lemma TablesFill(p: seq<int>, diff: int, flush: bool)
    requires Saved(p)
    ensures var a := Act(p, diff, flush);
            && Usable(p, SizeArg(diff, flush), a)
            && StateTable(StateOf(p), SizeArg(diff, flush)) == StateOf(Fill(p, diff, flush).saved)
            && Tabled(p, diff, SizeArg(diff, flush), a) == Fill(p, diff, flush)
  {
    TablesFit(p, diff, flush);
    if p == [] {
      NoneFills(diff, flush);
    } else if |p| == 1 {
      OneFills(p, diff, flush);
    } else if |p| == 2 {
      TwoFill(p, diff, flush);
    } else {
      ThreeFill(p, diff, flush);
    }
  }

  /** Three times at most one word, as long as there is room. */
  lemma WordsInRoom(e: seq<seq<int>>, w1: seq<seq<int>>, w2: seq<seq<int>>, w3: seq<seq<int>>, room: int)
    requires room > 0 && |w1| <= 1 && |w2| <= 1 && |w3| <= 1
    ensures var words := w1 + w2 + w3;
            var r := if |w1| >= room then e + w1 else if |w1 + w2| >= room then (e + w1) + w2 else ((e + w1) + w2) + w3;
            r == e + (if |words| >= room then words[..room] else words)
  {}

  lemma PerformIsTabled(p: Progress, a: Activity, diff: int, size: nat, capacity: int)
    requires Usable(p.d, size, a) && |p.emitted| < capacity
    ensures var f, r, room := Tabled(p.d, diff, size, a), p.Perform(a, diff, size, capacity), capacity - |p.emitted|;
      && r.emitted == p.emitted + (if |f.words| >= room then f.words[..room] else f.words)
      && (|f.words| < room ==> r.d == f.saved)
  {
    var rest := p.d[a.flush1..];
    var left := if size > 0 then rest[a.flush2..] + [diff] else rest[a.flush2..];
    WordsInRoom(p.emitted, Part(p.d[..a.flush1]), Part(rest[..a.flush2]), Part(left[..a.flush3]),
                capacity - |p.emitted|);
  }

  /** What a call of csteim1_frm makes of p and of the state, with room for room more words: the words that fit are
      emitted, and when there is room to spare the rest is saved. */
  ghost predicate Filled(p: Progress, diff: int, flush: bool, room: nat, r: Progress, state: int, stop: bool) {
    var f := Fill(p.d, diff, flush);
    && (stop <==> |f.words| >= room)
    && r.emitted == p.emitted + (if stop then f.words[..room] else f.words)
    && (!stop ==> r.d == f.saved && Saved(r.d) && state == StateOf(r.d))
    && (stop ==> (r.d == [] && state == STATE_NUL <==> Tidy(p.d, diff, flush, room)))
  }

  function One(n: nat): nat {
    if n > 0 then 1 else 0
  }

  /** How many differences stay saved. */
  function LeftCount(n: nat, size: nat, a: Activity, room: int): int {
    if One(a.flush1) >= room then n - a.flush1
    else if One(a.flush1) + One(a.flush2) >= room then n - a.flush1 - a.flush2
    else n - a.flush1 - a.flush2 + One(size) - a.flush3
  }

  lemma PerformLeaves(p: Progress, diff: int, size: nat, a: Activity, room: nat)
    requires room > 0 && Usable(p.d, size, a)
    ensures |p.Perform(a, diff, size, |p.emitted| + room).d| == LeftCount(|p.d|, size, a, room)
  {
    FlushCount(p, a.flush1);
    FlushCount(p.Flush(a.flush1), a.flush2);
  }

  lemma FlushCount(p: Progress, nf: nat)
    requires nf <= |p.d|
    ensures |p.Flush(nf).emitted| == |p.emitted| + One(nf) && |p.Flush(nf).d| == |p.d| - nf
  {}

  lemma TabledCount(p: seq<int>, diff: int, size: nat, a: Activity)
    requires Usable(p, size, a)
    ensures |Tabled(p, diff, size, a).words| == One(a.flush1) + One(a.flush2) + One(a.flush3)
  {}

  lemma TablesTidy(p: seq<int>, diff: int, flush: bool, room: nat)
    requires Saved(p) && room > 0
    requires var a := Act(p, diff, flush); One(a.flush1) + One(a.flush2) + One(a.flush3) >= room
    ensures LeftCount(|p|, SizeArg(diff, flush), Act(p, diff, flush), room) == 0
            && StateTable(StateOf(p), SizeArg(diff, flush)) == STATE_NUL
       <==> Tidy(p, diff, flush, room)
  {
    if p == [] {
    } else if |p| == 1 {
    } else if |p| == 2 {
      assert StateOf(p) == STATE_2D1;
    } else {
      assert StateOf(p) == STATE_3D1;
    }
  }

  lemma PerformTidy(p: Progress, diff: int, flush: bool, room: nat, a: Activity, r: Progress)
    requires Saved(p.d) && room > 0 && a == Act(p.d, diff, flush) && Usable(p.d, SizeArg(diff, flush), a)
    requires r == p.Perform(a, diff, SizeArg(diff, flush), |p.emitted| + room)
    requires |Tabled(p.d, diff, SizeArg(diff, flush), a).words| >= room
    ensures r.d == [] && StateTable(StateOf(p.d), SizeArg(diff, flush)) == STATE_NUL <==> Tidy(p.d, diff, flush, room)
  {
    TabledCount(p.d, diff, SizeArg(diff, flush), a);
    PerformLeaves(p, diff, SizeArg(diff, flush), a, room);
    TablesTidy(p.d, diff, flush, room);
  }

  lemma PerformGives(p: Progress, diff: int, size: nat, a: Activity, room: nat, r: Progress, stop: bool, f: Fed)
    requires room > 0 && Usable(p.d, size, a) && f == Tabled(p.d, diff, size, a)
    requires r == p.Perform(a, diff, size, |p.emitted| + room) && (stop <==> |r.emitted| == |p.emitted| + room)
    ensures stop <==> |f.words| >= room
    ensures r.emitted == p.emitted + (if stop then f.words[..room] else f.words)
    ensures !stop ==> r.d == f.saved
  {
    PerformIsTabled(p, a, diff, size, |p.emitted| + room);
  }

  lemma PerformFills(p: Progress, diff: int, flush: bool, room: nat, a: Activity, r: Progress, stop: bool)
    requires Saved(p.d) && room > 0 && a == Act(p.d, diff, flush) && Usable(p.d, SizeArg(diff, flush), a)
    requires r == p.Perform(a, diff, SizeArg(diff, flush), |p.emitted| + room)
    requires stop <==> |r.emitted| == |p.emitted| + room
    ensures Filled(p, diff, flush, room, r, StateTable(StateOf(p.d), SizeArg(diff, flush)), stop)
  {
    var size, f := SizeArg(diff, flush), Tabled(p.d, diff, SizeArg(diff, flush), a);
    TablesFill(p.d, diff, flush);
    PerformGives(p, diff, size, a, room, r, stop, f);
    FillSaves(p.d, diff, flush);
    if stop {
      PerformTidy(p, diff, flush, room, a, r);
    }
  }

  lemma FillSaves(p: seq<int>, diff: int, flush: bool)
    requires Saved(p)
    ensures Saved(Fill(p, diff, flush).saved)
  {
    FeedFits(p, diff);
  }

  // ---- the compressor ----

  /** The first two slots hold the first and the last sample. */
  function Header(first: int, last: int): (cs: seq<Cell>)
    ensures |cs| == 2 && AreCells(cs)
  {
    [Cell(0, Bytes4(first)), Cell(0, Bytes4(last))]
  }

  /** How many words fit a number of frames. */
  function Capacity(maxfrm: nat): int {
    SLOTS * maxfrm - 2
  }

  // ---- one call of util_csteim1 ----

  /** The first differences; that of the first sample is taken to itself. */
  function Diffs(src: seq<int>): (ds: seq<int>)
    ensures |ds| == |src|
  {
    seq(|src|, i requires 0 <= i < |src| => Wrap(src[i] - Taken(src, i)))
  }

  /** out[2] when n samples have been taken. */
  function Taken(src: seq<int>, n: nat): int
    requires src != [] && n <= |src|
  {
    if n == 0 then src[0] else src[n - 1]
  }

  /** The words that fit. */
  function Kept(gs: seq<seq<int>>, capacity: nat): seq<seq<int>> {
    if |gs| <= capacity then gs else gs[..capacity]
  }

  /** Where the compression ends: after so many differences, with what is saved and room for so many words; the last
      step is the flush, or the next difference. */
  datatype End = End(fed: nat, flushed: bool, saved: seq<int>, room: int)

  function EndFrom(p: seq<int>, ds: seq<int>, room: int, fed: nat): (e: End)
    ensures fed <= e.fed <= fed + |ds| && (e.flushed <==> e.fed == fed + |ds|)
    decreases |ds|
  {
    if ds == [] then End(fed, true, p, room)
    else
      var f := SteimGroups.Feed(p, ds[0]);
      if |f.words| >= room then End(fed, false, p, room) else EndFrom(f.saved, ds[1..], room - |f.words|, fed + 1)
  }

  /** No differences are left saved for the next call to find. */
  predicate LeavesNothing(ds: seq<int>, e: End)
    requires e.fed <= |ds| && (e.flushed <==> e.fed == |ds|)
  {
    if e.flushed then |Flushed(e.saved)| < e.room || Tidy(e.saved, 0, true, e.room)
    else Tidy(e.saved, ds[e.fed], false, e.room)
  }

  /** The file's globals and statics. */
  class Compressor {
    var state: int
    var d: seq<int>
    var little: bool
    var maxfrm: nat
    var full: seq<Frame>
    var key: seq<Byte>
    var words: seq<seq<Byte>>
    var nc: nat
    ghost var emitted: seq<seq<int>>

    constructor ()
      ensures Clean()
    {
      state, d, little, maxfrm, full, key, words, nc := STATE_NUL, [], false, 0, [], EMPTY.word, [], 0;
    }

    /** Nothing is left over from an earlier call. */
    predicate Clean()
      reads `state, `d
    {
      state == STATE_NUL && d == []
    }

    ghost predicate Matches()
      reads `state, `d
    {
      Saved(d) && state == StateOf(d)
    }

    function Output(): Buffer
      reads `full, `key, `words
    {
      Buffer(full, key, words)
    }

    /** The output holds two slots for the header and the words emitted so far. */
    ghost predicate Built()
      reads `little, `full, `key, `words, `maxfrm, `emitted, `nc
    {
      && Holds(Output(), Empties(2) + EncodedAll(emitted), little, maxfrm)
      && |emitted| <= Capacity(maxfrm) && nc == |Flatten(emitted)|
    }

    ghost function Room(): int
      reads `maxfrm, `emitted
    {
      Capacity(maxfrm) - |emitted|
    }

    /** The second half of csteim1_addword: the key word, and the frame when its last slot is taken. */
    method Place(c: Cell) returns (finished: bool)
      requires |key| == 4 && |words| < SLOTS
      modifies `full, `key, `words
      ensures Output() == Put(old(Output()), c, little, maxfrm) && (finished <==> |words| == SLOTS)
    {
      key := WithCode(key, c.code, SLOTS - |words| - 1, little);
      words := words + [c.word];
      if |words| < SLOTS {
        return false;
      }
      key := HostSwap(key, little);
      if |full| + 1 == maxfrm {
        return true;
      }
      full := full + [Frame(key, words)];
      key, words := InHost(0, little), [];
      finished := false;
    }

    /** csteim1_addword. */
    method AddWord(ndiff: nat) returns (finished: bool)
      requires Built() && Room() > 0 && ndiff <= |d|
      modifies `full, `key, `words, `nc, `emitted
      ensures Built() && emitted == old(emitted) + [d[..ndiff]] && (finished <==> Room() == 0)
    {
      var c := Stored(d[..ndiff], little);
      StoredIsEncoded(d[..ndiff], little);
      EmittedNext(emitted, d[..ndiff]);
      HoldsNext(Output(), Empties(2) + EncodedAll(emitted), c, little, maxfrm);
      finished := Place(c);
      nc, emitted := nc + ndiff, emitted + [d[..ndiff]];
      SlotsFilled(Output(), Empties(2) + EncodedAll(emitted), little, maxfrm);
    }

    ghost function Sofar(): Progress
      reads `d, `emitted
    {
      Progress(d, emitted)
    }

    /** Writes the first nf of the saved differences, if nf is not 0, and moves the others up. */
    method Flush(nf: nat) returns (finished: bool)
      requires Built() && Room() > 0 && nf <= |d|
      modifies `d, `full, `key, `words, `nc, `emitted
      ensures Built() && Sofar() == old(Sofar()).Flush(nf) && (finished <==> Room() == 0)
    {
      finished := false;
      if nf != 0 {
        finished := AddWord(nf);
        d := d[nf..];
      }
    }

    /** The end of csteim1_frm: the current difference is saved, and nf of them are written. */
    method SaveAndFlush(diff: int, size: nat, nf: nat) returns (stop: bool)
      requires Built() && Room() > 0 && nf <= |d| + One(size)
      modifies `d, `full, `key, `words, `nc, `emitted
      ensures Built() && (stop <==> Room() == 0)
      ensures Sofar() == Progress(if size > 0 then old(d) + [diff] else old(d), old(emitted)).Flush(nf)
    {
      if size != 0 {
        d := d + [diff];
      }
      stop := Flush(nf);
    }

    /** What csteim1_frm does with the action it has looked up. */
    method Perform(a: Activity, diff: int, size: nat) returns (stop: bool)
      requires Built() && Room() > 0 && Usable(d, size, a)
      modifies `d, `full, `key, `words, `nc, `emitted
      ensures Built() && Sofar() == old(Sofar()).Perform(a, diff, size, Capacity(maxfrm)) && (stop <==> Room() == 0)
    {
      stop := Flush(a.flush1);
      if !stop {
        stop := Flush(a.flush2);
        if !stop {
          stop := SaveAndFlush(diff, size, a.flush3);
        }
      }
    }

    /** csteim1_frm, on whatever the statics hold. */
    method Frm(diff: int, flush: bool) returns (stop: bool)
      requires Built() && Room() > 0
      requires Usable(d, SizeArg(diff, flush), ActionTable(state, SizeArg(diff, flush)))
      modifies `state, `d, `full, `key, `words, `nc, `emitted
      ensures Built() && (stop <==> Room() == 0)
      ensures Statics(state, Sofar()) == FrmOf(Statics(old(state), old(Sofar())), diff, flush, Capacity(maxfrm))
    {
      var size := if flush then 0 else Size(diff);
      var action := ActionTable(state, size);
      state := StateTable(state, size);
      stop := Perform(action, diff, size);
    }

    /** csteim1_frm when the state goes with what is saved. */
    method FrmInStep(diff: int, flush: bool) returns (stop: bool)
      requires Built() && Matches() && Room() > 0
      modifies `state, `d, `full, `key, `words, `nc, `emitted
      ensures Built() && Filled(old(Sofar()), diff, flush, old(Room()), Sofar(), state, stop)
    {
      ghost var before, room := Sofar(), Room();
      TablesUsable(d, state, diff, flush);
      stop := Frm(diff, flush);
      PerformFills(before, diff, flush, room, Act(before.d, diff, flush), Sofar(), stop);
    }

    /** The start of util_csteim1. */
    method Begin(frames: nat, little: bool)
      requires frames > 0 && Clean()
      modifies `little, `maxfrm, `full, `key, `words, `nc, `emitted
      ensures maxfrm == frames && this.little == little && emitted == []
      ensures Built() && Matches()
    {
      this.little, maxfrm, full, key, words, nc := little, frames, [], InHost(0, little), [EMPTY.word, EMPTY.word], 0;
      emitted := [];
      assert WordsOf(Empties(2)) == [EMPTY.word, EMPTY.word];
      StartHolds(Output(), Empties(2), little, frames);
      assert Empties(2) + EncodedAll([]) == Empties(2);
    }

    /** One turn of the loop of util_csteim1. */
    method TakeOne(diff: int, ghost ds: seq<int>, ghost s: nat) returns (stop: bool)
      requires Built() && Matches() && s < |ds| && diff == ds[s]
      requires OnTheWay(ds, s, Sofar(), Capacity(maxfrm))
      modifies `state, `d, `full, `key, `words, `nc, `emitted
      ensures Built()
      ensures stop ==> EndsWith(ds, s, emitted, Clean(), Capacity(maxfrm))
      ensures !stop ==> Matches() && OnTheWay(ds, s + 1, Sofar(), Capacity(maxfrm))
    {
      ghost var before, room := Sofar(), Room();
      stop := FrmInStep(diff, false);
      OneTaken(ds, s, diff, before, room, Sofar(), state, stop, Capacity(maxfrm));
    }

    /** The flush behind the loop. */
    method TakeRest(ghost ds: seq<int>)
      requires Built() && Matches() && OnTheWay(ds, |ds|, Sofar(), Capacity(maxfrm))
      modifies `state, `d, `full, `key, `words, `nc, `emitted
      ensures Built() && EndsWith(ds, |ds|, emitted, Clean(), Capacity(maxfrm))
    {
      ghost var before, room := Sofar(), Room();
      var stop := FrmInStep(0, true);
      AllTaken(ds, before, room, Sofar(), state, stop, Capacity(maxfrm));
    }

    /** The loop of util_csteim1; prev is out[2]. */
    method TakeSamples(src: seq<int>, ghost ds: seq<int>) returns (prev: int, stop: bool, ghost fed: nat)
      requires src != [] && |src| == |ds| && ds == Diffs(src)
      requires Built() && Matches() && OnTheWay(ds, 0, Sofar(), Capacity(maxfrm))
      modifies `state, `d, `full, `key, `words, `nc, `emitted
      ensures Built() && fed <= |src| && prev == Taken(src, fed) && (stop <==> fed < |src|)
      ensures stop ==> EndsWith(ds, fed, emitted, Clean(), Capacity(maxfrm))
      ensures !stop ==> Matches() && OnTheWay(ds, |ds|, Sofar(), Capacity(maxfrm))
    {
      prev, stop := src[0], false;
      var s := 0;
      while s < |src| && !stop
        invariant 0 <= s <= |src| && Built() && prev == Taken(src, s) && (stop ==> s < |src|)
        invariant stop ==> EndsWith(ds, s, emitted, Clean(), Capacity(maxfrm))
        invariant !stop ==> Matches() && OnTheWay(ds, s, Sofar(), Capacity(maxfrm))
        decreases |src| - s, !stop
      {
        stop := TakeOne(Wrap(src[s] - prev), ds, s);
        if !stop {
          prev := src[s];
          s := s + 1;
        }
      }
      fed := s;
    }

    /** The loop, and the flush behind it if the loop comes to its end. */
    method TakeAll(src: seq<int>, ghost ds: seq<int>) returns (prev: int, flushed: bool, ghost fed: nat)
      requires src != [] && |src| == |ds| && ds == Diffs(src)
      requires Built() && Matches() && OnTheWay(ds, 0, Sofar(), Capacity(maxfrm))
      modifies `state, `d, `full, `key, `words, `nc, `emitted
      ensures Built() && fed <= |src| && EndsWith(ds, fed, emitted, Clean(), Capacity(maxfrm))
      ensures prev == Taken(src, fed) && (flushed <==> fed == |src|)
    {
      var stop;
      prev, stop, fed := TakeSamples(src, ds);
      flushed := !stop;
      if flushed {
        TakeRest(ds);
      }
    }

    /** The end of util_csteim1. The key word of the current frame is swapped if the flush was reached, whether or not
        the frame is complete. */
    method Deliver(first: int, prev: int, flushed: bool) returns (out: seq<Frame>)
      requires Built()
      modifies `key
      ensures out == ImageOf(Empties(2) + EncodedAll(emitted), first, prev, flushed, little, maxfrm)
    {
      ghost var cells := Empties(2) + EncodedAll(emitted);
      assert Same(cells, cells);
      assert Output() == BufferOf(cells, little, maxfrm);
      if flushed {
        key := HostSwap(key, little);
      }
      CompletedAreFull(cells, little, maxfrm);
      FirstIsFull(Output(), maxfrm);
      out := WithHeader(AllFrames(Output(), maxfrm), first, prev, little);
    }

    /** util_csteim1 on a host of either byte order: the frames, and how many samples are in them. */
    method Csteim1(src: seq<int>, frames: nat, little: bool) returns (out: seq<Frame>, n: nat)
      requires src != [] && frames > 0 && Clean()
      modifies this
      ensures n == |Flatten(WordsFor(src, frames))| && out == Image(src, frames, little)
      ensures Clean() <==> LeavesNothing(Diffs(src), EndOf(src, frames))
    {
      ghost var ds := Diffs(src);
      Begin(frames, little);
      StartsOut(ds, Capacity(frames));
      var prev, flushed;
      ghost var fed;
      prev, flushed, fed := TakeAll(src, ds);
      out := Deliver(src[0], prev, flushed);
      n := nc;
      ImageFrom(src, frames, little, emitted, fed, prev, flushed, Clean(), out);
    }
  }

  function WordsFor(src: seq<int>, frames: nat): seq<seq<int>>
    requires src != [] && frames > 0
  {
    Kept(Groups(Diffs(src)), Capacity(frames))
  }

  function EndOf(src: seq<int>, frames: nat): (e: End)
    requires src != []
    ensures e.fed <= |src| && (e.flushed <==> e.fed == |src|)
  {
    EndFrom([], Diffs(src), Capacity(frames), 0)
  }

  /** Whether it is the flush that completes the last frame. */
  predicate FilledByFlush(src: seq<int>, frames: nat)
    requires src != []
  {
    EndOf(src, frames).flushed && |Flushed(EndOf(src, frames).saved)| >= EndOf(src, frames).room
  }

  /** What is returned when the output holds cells; first and last are out[1] and out[2]. */
  function ImageOf(cells: seq<Cell>, first: int, last: int, flushed: bool, little: bool, frames: nat): seq<Frame>
    requires |cells| <= SLOTS * frames && frames > 0
  {
    var b := BufferOf(cells, little, frames);
    var key := if flushed then HostSwap(b.key, little) else b.key;
    CompletedAreFull(cells, little, frames);
    FirstIsFull(b.(key := key), frames);
    WithHeader(AllFrames(b.(key := key), frames), first, last, little)
  }

  /** The output of util_csteim1. */
  function Image(src: seq<int>, frames: nat, little: bool): seq<Frame>
    requires src != [] && frames > 0
  {
    var e := EndOf(src, frames);
    ImageOf(Empties(2) + EncodedAll(WordsFor(src, frames)), src[0], Taken(src, e.fed), e.flushed, little, frames)
  }

  lemma ImageFrom(src: seq<int>, frames: nat, little: bool, emitted: seq<seq<int>>, fed: nat, prev: int, flushed: bool,
                  clean: bool, out: seq<Frame>)
    requires src != [] && frames > 0 && EndsWith(Diffs(src), fed, emitted, clean, Capacity(frames))
    requires fed <= |src| && prev == Taken(src, fed) && (flushed <==> fed == |src|) && |emitted| <= Capacity(frames)
    requires out == ImageOf(Empties(2) + EncodedAll(emitted), src[0], prev, flushed, little, frames)
    ensures emitted == WordsFor(src, frames) && out == Image(src, frames, little)
    ensures clean <==> LeavesNothing(Diffs(src), EndOf(src, frames))
  {}

  /** The words that fit are out, fed differences have been taken, and what is left over is known. */
  ghost predicate EndsWith(ds: seq<int>, fed: nat, emitted: seq<seq<int>>, clean: bool, capacity: nat) {
    var e := EndFrom([], ds, capacity, 0);
    emitted == Kept(Groups(ds), capacity) && fed == e.fed && (clean <==> LeavesNothing(ds, e))
  }

  lemma StartsOut(ds: seq<int>, capacity: nat)
    requires capacity > 0
    ensures OnTheWay(ds, 0, Progress([], []), capacity)
  {
    assert ds[0..] == ds && [] + Groups(ds) == Groups(ds);
  }

  /** After s differences: what is still to come leads to the same words and the same end as the whole. */
  ghost predicate OnTheWay(ds: seq<int>, s: nat, p: Progress, capacity: nat)
    requires s <= |ds|
  {
    && |p.emitted| < capacity
    && EndFrom(p.d, ds[s..], capacity - |p.emitted|, s) == EndFrom([], ds, capacity, 0)
    && p.emitted + GroupsFrom(p.d, ds[s..]) == Groups(ds)
  }

  lemma PrefixFits<T>(e: seq<T>, words: seq<T>, later: seq<T>, room: nat, all: seq<T>)
    requires e + (words + later) == all && room <= |words|
    ensures e + words[..room] == all[..|e| + room] && |e| + room <= |all|
  {}

  lemma OneTaken(ds: seq<int>, s: nat, diff: int, p: Progress, room: nat, r: Progress, state: int, stop: bool,
                 capacity: nat)
    requires s < |ds| && diff == ds[s] && OnTheWay(ds, s, p, capacity) && room == capacity - |p.emitted|
    requires Filled(p, diff, false, room, r, state, stop)
    ensures if stop then EndsWith(ds, s, r.emitted, r.d == [] && state == STATE_NUL, capacity)
            else OnTheWay(ds, s + 1, r, capacity)
  {
    var f := Feed(p.d, ds[s]);
    var later := GroupsFrom(f.saved, ds[s + 1..]);
    assert ds[s..][0] == ds[s] && ds[s..][1..] == ds[s + 1..];
    assert GroupsFrom(p.d, ds[s..]) == f.words + later;
    if stop {
      PrefixFits(p.emitted, f.words, later, room, Groups(ds));
    } else {
      ConcatAssociates(p.emitted, f.words, later);
    }
  }

  lemma AllTaken(ds: seq<int>, p: Progress, room: nat, r: Progress, state: int, stop: bool, capacity: nat)
    requires OnTheWay(ds, |ds|, p, capacity) && room == capacity - |p.emitted|
    requires Filled(p, 0, true, room, r, state, stop)
    ensures EndsWith(ds, |ds|, r.emitted, r.d == [] && state == STATE_NUL, capacity)
  {
    var words := Flushed(p.d);
    assert GroupsFrom(p.d, ds[|ds|..]) == words;
    assert words + [] == words;
    if stop {
      PrefixFits(p.emitted, words, [], room, Groups(ds));
    } else {
      assert StateOf([]) == STATE_NUL;
    }
  }

  lemma EmittedNext(emitted: seq<seq<int>>, g: seq<int>)
    ensures Empties(2) + EncodedAll(emitted + [g]) == Empties(2) + EncodedAll(emitted) + [Encoded(g)]
    ensures |Flatten(emitted + [g])| == |Flatten(emitted)| + |g|
  {
    FlattenSnoc(emitted, g);
    assert EncodedAll(emitted + [g]) == EncodedAll(emitted) + [Encoded(g)];
    ConcatAssociates(Empties(2), EncodedAll(emitted), [Encoded(g)]);
  }
}
