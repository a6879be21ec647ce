/** The display objects: trace windows and the display that owns them. */
module Display {
  import opened CLib
  import opened VerticalRange
  import opened PixelMap
  import CT = ChannelTable
  import CL = ChannelLists
  import TW = TimeWindow

  /** One trace window. */
  class CMWindow {
    const sta: string
    const chan: string
    const lcode: string
    const dSpS: real
    var range: Range
    var strip: Strip
    var xferData: seq<Block>
    var nBlocksRec: nat

    constructor (sta: string, chan: string, lcode: string, dSpS: real)
      ensures this.sta == sta && this.chan == chan && this.lcode == lcode && this.dSpS == dSpS
      ensures range == INITIAL && xferData == [] && nBlocksRec == 0
    {
      this.sta, this.chan, this.lcode, this.dSpS := sta, chan, lcode, dSpS;
      range, xferData, nBlocksRec := INITIAL, [], 0;
      strip := Strip(0, 0, 0, 0, 0, 0, 0, 0);
    }

    function View(): Trace
      reads `range, `xferData
    {
      Trace(sta, chan, lcode, dSpS, range, xferData)
    }

    method Add(block: Block)
      modifies `xferData, `nBlocksRec
      ensures xferData == old(xferData) + [block] && nBlocksRec == old(nBlocksRec) + 1
    {
      xferData := xferData + [block];
      nBlocksRec := nBlocksRec + 1;
    }
  }

  /** A trace window as a value. */
  datatype Trace =
    Trace(sta: string, chan: string, lcode: string, dSpS: real, range: Range, xferData: seq<Block>)

  ghost function TracesOf(list: seq<CMWindow>): (r: seq<Trace>)
    reads list`range, list`xferData
    ensures |r| == |list| && forall i | 0 <= i < |list| :: r[i] == list[i].View()
  {
    if list == [] then [] else [list[0].View()] + TracesOf(list[1..])
  }

  lemma TracesSnoc(list: seq<CMWindow>, w: CMWindow)
    ensures TracesOf(list + [w]) == TracesOf(list) + [w.View()]
  {}

  /** The window that Run opens for a channel: the initial range and no data. */
  function Opened(e: CT.Entry): Trace {
    Trace(e.sta, e.c.chan, e.c.lcode, e.c.rate, INITIAL, [])
  }

  function OpenedAll(es: seq<CT.Entry>): seq<Trace> {
    if es == [] then [] else [Opened(es[0])] + OpenedAll(es[1..])
  }

  lemma {:induction false} OpenedConcat(a: seq<CT.Entry>, b: seq<CT.Entry>)
    ensures OpenedAll(a + b) == OpenedAll(a) + OpenedAll(b)
  {
    if a == [] {
      assert a + b == b;
    } else {
      assert (a + b)[0] == a[0] && (a + b)[1..] == a[1..] + b;
      OpenedConcat(a[1..], b);
    }
  }

  /** The windows for the selected channels of a station, and of a table. */
  function OpenedFor(sta: string, cs: seq<CT.Channel>): seq<Trace> {
    OpenedAll(CT.Chosen(CT.StaEntries(sta, cs)))
  }

  function OpenedOf(t: CT.Table): seq<Trace> {
    OpenedAll(CT.Chosen(CT.Entries(t)))
  }

  lemma {:induction false} OpenedAllAre(es: seq<CT.Entry>)
    ensures |OpenedAll(es)| == |es| && forall k | 0 <= k < |es| :: OpenedAll(es)[k] == Opened(es[k])
  {
    if es != [] {
      OpenedAllAre(es[1..]);
    }
  }

  /** Window k shows the k-th selected channel, and there are no others. */
  lemma WindowsMatchSelected(t: CT.Table)
    ensures var es := CT.Chosen(CT.Entries(t));
            |OpenedOf(t)| == |es| && forall k | 0 <= k < |es| :: OpenedOf(t)[k] == Opened(es[k])
  {
    OpenedAllAre(CT.Chosen(CT.Entries(t)));
  }

  lemma OpenedHead(shown: seq<Trace>, sta: string, cs: seq<CT.Channel>)
    requires cs != []
    ensures shown + OpenedFor(sta, cs)
         == (if cs[0].selected != 0 then shown + [Opened(CT.Entry(sta, cs[0]))] else shown) + OpenedFor(sta, cs[1..])
  {
    CT.ChosenHead(sta, cs);
    var e := CT.Entry(sta, cs[0]);
    assert OpenedAll([e]) == [Opened(e)];
    OpenedConcat(if cs[0].selected != 0 then [e] else [], CT.Chosen(CT.StaEntries(sta, cs[1..])));
  }

  lemma OpenedStep(shown: seq<Trace>, v: CT.Table, i: nat)
    requires i < |v|
    ensures shown + OpenedOf(v[i..]) == shown + OpenedFor(v[i].sta, v[i].chans) + OpenedOf(v[i + 1..])
  {
    CL.ChosenStep(v, i);
    OpenedConcat(CT.Chosen(CT.StaEntries(v[i].sta, v[i].chans)), CT.Chosen(CT.Entries(v[i + 1..])));
  }

  class CRTDisplay {
    const timeBar: int
    const infoX: int
    var config: TW.Config
    var t1: real
    var t2: real
    var tB1: real
    var tB2: real
    var waveformInfo: seq<CMWindow>
    ghost var Repr: set<CMWindow>
    var nActiveScreen: int
    var maxX: int
    var maxY: int
    var bContinue: bool

    constructor (timeBar: int, infoX: int, config: TW.Config)
      ensures Valid() && waveformInfo == [] && nActiveScreen == -1 && !bContinue
    {
      this.timeBar, this.infoX, this.config := timeBar, infoX, config;
      waveformInfo, Repr, nActiveScreen, bContinue := [], {}, -1, false;
    }

    ghost predicate Valid()
      reads `waveformInfo, `Repr
    {
      && (forall w | w in waveformInfo :: w in Repr)
      && (forall i, j | 0 <= i < j < |waveformInfo| :: waveformInfo[i] != waveformInfo[j])
    }

    function At(n: nat): CMWindow
      requires n < |waveformInfo|
      reads `waveformInfo
    {
      waveformInfo[n]
    }

    ghost function Window(): TW.Window
      reads this
    {
      TW.Window(t1, t2, tB1, tB2)
    }

    // ---- the list of windows ----

    method ClearWaveformInfo()
      modifies `waveformInfo, `Repr
      ensures Valid() && waveformInfo == [] && Repr == {}
    {
      while waveformInfo != [] {
        waveformInfo := waveformInfo[1..];
      }
      Repr := {};
    }

    ghost function Shown(): seq<Trace>
      requires Valid()
      reads `waveformInfo, `Repr, Repr`range, Repr`xferData
    {
      TracesOf(waveformInfo)
    }

    method AddWindow(sta: string, c: CT.Channel)
      requires Valid()
      modifies `waveformInfo, `Repr
      ensures Valid() && fresh(Repr - old(Repr)) && Shown() == old(Shown()) + [Opened(CT.Entry(sta, c))]
    {
      ghost var list := waveformInfo;
      var wfi := new CMWindow(sta, c.chan, c.lcode, c.rate);
      waveformInfo, Repr := waveformInfo + [wfi], Repr + {wfi};
      TracesSnoc(list, wfi);
    }

    /** The inner loop of Run: the selected channels of one station. */
    method AddSelected(si: CL.CNRTSSTAINFO)
      requires Valid()
      modifies `waveformInfo, `Repr
      ensures Valid() && fresh(Repr - old(Repr))
      ensures Shown() == old(Shown()) + OpenedFor(si.Sta, si.ChanInfo)
    {
      ghost var goal := Shown() + OpenedFor(si.Sta, si.ChanInfo);
      var j := 0;
      while j < |si.ChanInfo|
        invariant 0 <= j <= |si.ChanInfo|
        invariant Valid() && fresh(Repr - old(Repr))
        invariant Shown() + OpenedFor(si.Sta, si.ChanInfo[j..]) == goal
      {
        OpenedHead(Shown(), si.Sta, si.ChanInfo[j..]);
        var ci := si.ChanInfo[j];
        if ci.selected != 0 {
          AddWindow(si.Sta, ci);
        }
        j := j + 1;
      }
    }

    method AddAllSelected(info: CL.CNRTSINFO)
      requires info.Valid() && Valid() && waveformInfo == []
      modifies `waveformInfo, `Repr
      ensures Valid() && fresh(Repr - old(Repr)) && Shown() == OpenedOf(info.View())
    {
      var list := info.StaInfo;
      ghost var v := info.View();
      var i := 0;
      while i < |list|
        invariant 0 <= i <= |list| && CL.ViewOf(list) == v
        invariant Valid() && fresh(Repr - old(Repr))
        invariant Shown() + OpenedOf(v[i..]) == OpenedOf(v)
      {
        OpenedStep(Shown(), v, i);
        AddSelected(list[i]);
        i := i + 1;
      }
    }

    method RebuildWindows(info: CL.CNRTSINFO)
      requires info.Valid()
      modifies `waveformInfo, `Repr
      ensures Valid() && fresh(Repr) && Shown() == OpenedOf(old(info.View()))
    {
      ClearWaveformInfo();
      AddAllSelected(info);
    }

    /** Run rebuilds the list: one new window, laid out, for each selected channel of the table. */
    method Run(info: CL.CNRTSINFO, width: int, height: int)
      requires info.Valid()
      modifies this
      ensures Valid() && fresh(Repr) && Shown() == OpenedOf(old(info.View())) && LaidOut()
      ensures nActiveScreen == 0 && bContinue
    {
      RebuildWindows(info);
      nActiveScreen := 0;
      CalculateWindowsSize(width, height);
      bContinue := true;
    }

    // ---- the time window ----

    method SetTime(clock: int)
      modifies `t1, `t2, `tB1, `tB2
      ensures Window() == TW.SetTime(old(config), old(Window()), clock)
    {
      var dnewtime := clock as real - config.delay as real;
      if t2 >= tB2 {
        t2 := dnewtime;
        t1 := t2 - config.displayed as real;
      } else {
        if tB1 >= t1 {
          t1 := dnewtime - config.buffered as real;
          t2 := config.displayed as real + t1;
        }
      }
      tB2 := dnewtime;
      tB1 := tB2 - config.buffered as real;
    }

    /** CPreview::mousePressEvent, for a left click at column x while the acquisition runs. */
    method PreviewPress(x: int, x1: int, x2: int)
      requires x1 != x2
      modifies `t1, `t2
      ensures Window() == if bContinue && nActiveScreen != -1
                          then TW.Click(config, old(Window()), x, x1, x2) else old(Window())
    {
      if !bContinue || nActiveScreen == -1 {
        return;
      }
      ghost var w := Window();
      var half := config.displayed as real / 2.0;
      var ttt := TW.TimeUnder(tB1, tB2, x, x1, x2);
      t1 := (ttt - half).Floor as real;
      t2 := t1 + config.displayed as real;
      if t2 > tB2 {
        t2 := tB2;
        t1 := tB2 - config.displayed as real;
      }
      if t1 < tB1 {
        t1 := tB1;
        t2 := tB1 + config.displayed as real;
      }
      assert Window() == TW.Centre(config, w, ttt);
    }

    method ApplyAutoscale(nWindow: nat, nType: int)
      requires Valid() && nWindow < |waveformInfo|
      modifies At(nWindow)`range
      ensures var wfi := waveformInfo[nWindow];
              wfi.range == Autoscale(old(wfi.range), wfi.xferData, if nType == 0 then View(t1, t2) else All)
    {
      var wfi := waveformInfo[nWindow];
      ghost var scope := if nType == 0 then View(t1, t2) else All;
      var c := Acc(true, wfi.range.amin, wfi.range.amax);
      ghost var c0 := c;
      var n := 0;
      while n < |wfi.xferData|
        invariant 0 <= n <= |wfi.xferData| && wfi.range == old(wfi.range)
        invariant c == FeedAll(c0, ScanAll(wfi.xferData[..n], scope))
      {
        ScanAllSnoc(wfi.xferData, n, scope);
        FeedConcat(c0, ScanAll(wfi.xferData[..n], scope), Scan(wfi.xferData[n], 0, scope));
        c := ScanBlock(wfi.xferData[n], nType, t1, t2, c);
        n := n + 1;
      }
      assert wfi.xferData[..n] == wfi.xferData;
      var amax, amin := c.hi, c.lo;
      if amax == amin {
        amax, amin := amax + 1, amin - 1;
      }
      wfi.range := Range(amin, amax);
    }

    method ApplyExpand(nWindow: nat)
      requires Valid() && nWindow < |waveformInfo|
      modifies At(nWindow)`range
      ensures waveformInfo[nWindow].range == Expand(old(waveformInfo[nWindow].range))
    {
      var wfi := waveformInfo[nWindow];
      var amax, amin := wfi.range.amax, wfi.range.amin;
      var amid, adelta := CDiv(amax + amin, 2), CDiv(amax - amin, 2);
      adelta := CDiv(adelta, 2);
      amax, amin := amid + adelta, amid - adelta;
      if amax == amin {
        amax, amin := amax + 1, amin - 1;
      }
      wfi.range := Range(amin, amax);
    }

    method ApplyContract(nWindow: nat)
      requires Valid() && nWindow < |waveformInfo|
      modifies At(nWindow)`range
      ensures waveformInfo[nWindow].range == Contract(old(waveformInfo[nWindow].range))
    {
      var wfi := waveformInfo[nWindow];
      var amid, adelta := CDiv(wfi.range.amax + wfi.range.amin, 2), CDiv(wfi.range.amax - wfi.range.amin, 2);
      adelta := adelta * 2;
      if adelta == 0 {
        adelta := 1;
      }
      wfi.range := Range(amid - adelta, amid + adelta);
    }

    method OnShiftUpDown(nDirection: int)
      requires Valid() && 0 <= nActiveScreen < |waveformInfo|
      modifies At(nActiveScreen)`range
      ensures waveformInfo[nActiveScreen].range == Shift(old(waveformInfo[nActiveScreen].range), nDirection > 0)
    {
      var wfi := waveformInfo[nActiveScreen];
      var amid, adelta := CDiv(wfi.range.amax + wfi.range.amin, 2), CDiv(wfi.range.amax - wfi.range.amin, 2);
      var adelta1 := CDiv(adelta, 5);
      if adelta1 == 0 {
        adelta1 := 1;
      }
      amid := if nDirection > 0 then amid + adelta1 else amid - adelta1;
      wfi.range := Range(amid - adelta, amid + adelta);
    }

    ghost function Geometry(): Screen
      reads `maxX, `maxY
    {
      Screen(maxX, maxY, timeBar, infoX)
    }

    /** The windows' strips are those of the current screen. */
    ghost predicate LaidOut()
      reads `maxX, `maxY, `waveformInfo, waveformInfo`strip
    {
      forall i | 0 <= i < |waveformInfo| :: waveformInfo[i].strip == StripOf(Geometry(), |waveformInfo|, i)
    }

    method CalculateWindowsSize(width: int, height: int)
      requires Valid()
      modifies `maxX, `maxY, Repr`strip
      ensures LaidOut()
      ensures waveformInfo != [] ==> maxX == width && maxY == height
      ensures waveformInfo == [] ==> maxX == old(maxX) && maxY == old(maxY)
    {
      var nWin := |waveformInfo|;
      if nWin == 0 {
        return;
      }
      maxX, maxY := width, height;
      var yHeight := CDiv(maxY - timeBar, nWin);
      var i := 0;
      while i < nWin
        invariant 0 <= i <= nWin && maxX == width && maxY == height
        invariant forall k | 0 <= k < i :: waveformInfo[k].strip == StripOf(Geometry(), nWin, k)
      {
        var xw1, xw2 := 2, maxX - 1;
        var yw1, yw2 := yHeight * i + timeBar, (yHeight * (i + 1) + timeBar) - 1;
        var st := Strip(xw1, xw2, yw1, yw2, xw1 + infoX + 2, xw2 - 1, yw1 + 1, yw2 - 1);
        assert st == StripOf(Geometry(), nWin, i);
        waveformInfo[i].strip := st;
        i := i + 1;
      }
    }

    /** The plot area that holds a point, -1 if none does. On a laid-out display the linear search returns the
        quotient of the height above the time bar by the strip height. */
    method WindowFromPoint(x: int, y: int) returns (nWindow: int)
      requires LaidOut()
      ensures nWindow == -1 || 0 <= nWindow < |waveformInfo|
      ensures nWindow == -1 ==> forall i | 0 <= i < |waveformInfo| :: !InPlot(waveformInfo[i].strip, x, y)
      ensures nWindow >= 0 ==> InPlot(waveformInfo[nWindow].strip, x, y)
      ensures forall i | 0 <= i < |waveformInfo| && InPlot(waveformInfo[i].strip, x, y) ::
                && nWindow == i
                && StripHeight(Geometry(), |waveformInfo|) > 0
                && i == (y - timeBar) / StripHeight(Geometry(), |waveformInfo|)
    {
      forall i | 0 <= i < |waveformInfo| && InPlot(waveformInfo[i].strip, x, y)
        ensures StripHeight(Geometry(), |waveformInfo|) > 0
        ensures i == (y - timeBar) / StripHeight(Geometry(), |waveformInfo|)
      {
        PlotRow(Geometry(), |waveformInfo|, i, x, y);
      }
      nWindow := 0;
      while nWindow < |waveformInfo|
        invariant 0 <= nWindow <= |waveformInfo|
        invariant forall i | 0 <= i < nWindow :: !InPlot(waveformInfo[i].strip, x, y)
      {
        var st := waveformInfo[nWindow].strip;
        if y <= st.y2 && y >= st.y1 && x >= st.x1 && x <= st.x2 {
          return;
        }
        nWindow := nWindow + 1;
      }
      nWindow := -1;
    }
  }

  /** The inner loop of ApplyAutoscale, over the samples of one block. */
  method ScanBlock(xfd: Block, nType: int, t1: real, t2: real, start: Acc) returns (c: Acc)
    ensures c == FeedAll(start, Scan(xfd, 0, if nType == 0 then View(t1, t2) else All))
  {
    ghost var scope := if nType == 0 then View(t1, t2) else All;
    c := start;
    var k := 0;
    while k < |xfd.data|
      invariant 0 <= k <= |xfd.data|
      invariant FeedAll(c, Scan(xfd, k, scope)) == FeedAll(start, Scan(xfd, 0, scope))
    {
      var a := xfd.data[k];
      var tt := xfd.beg + xfd.sint * k as real;
      if nType == 0 && tt < t1 {
        k := k + 1;
        continue;
      }
      if nType == 0 && tt > t2 {
        break;
      }
      FeedConcat(c, [a], Scan(xfd, k + 1, scope));
      if !c.first {
        if a > c.hi {
          c := c.(hi := a);
        }
        if a < c.lo {
          c := c.(lo := a);
        }
      } else {
        c := Acc(false, a - 1, a + 1);
      }
      k := k + 1;
    }
  }
}
