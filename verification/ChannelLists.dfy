/** The lists of station and channel objects behind a channel table, and the operations that change them. */
module ChannelLists {
  import opened Wrappers
  import opened ChannelTable
  import opened ChannelText
  import opened ChannelFile

  class CNRTSSTAINFO {
    const Sta: string
    var ChanInfo: seq<Channel>

    constructor (staName: string)
      ensures Sta == staName && ChanInfo == []
    {
      Sta, ChanInfo := staName, [];
    }

    function View(): Station
      reads this
    {
      Station(Sta, ChanInfo)
    }

    method AddChan(c: Channel)
      modifies this
      ensures ChanInfo == old(ChanInfo) + [c]
    {
      ChanInfo := ChanInfo + [c];
    }

    method Clear()
      modifies this
      ensures ChanInfo == []
    {
      while ChanInfo != [] {
        ChanInfo := ChanInfo[1..];
      }
    }

    /** The inner loop of AddStaChan. */
    method Knows(c: Channel) returns (known: bool)
      ensures known <==> HasChan(ChanInfo, c)
    {
      var j := 0;
      while j < |ChanInfo|
        invariant 0 <= j <= |ChanInfo|
        invariant forall d :: d in ChanInfo[..j] ==> !SameKey(c, d)
      {
        if c.chan == ChanInfo[j].chan && c.lcode == ChanInfo[j].lcode {
          assert ChanInfo[j] in ChanInfo;
          return true;
        }
        j := j + 1;
      }
      assert ChanInfo[..j] == ChanInfo;
      return false;
    }
  }

  ghost function ViewOf(list: seq<CNRTSSTAINFO>): (t: Table)
    reads list
    ensures |t| == |list| && forall i :: 0 <= i < |list| ==> t[i] == list[i].View()
  {
    if list == [] then [] else [list[0].View()] + ViewOf(list[1..])
  }

  method NewStation(e: Entry) returns (si: CNRTSSTAINFO)
    ensures fresh(si) && si.View() == Station(e.sta, [e.c])
  {
    si := new CNRTSSTAINFO(e.sta);
    si.AddChan(e.c);
  }

  lemma ViewOfSnoc(list: seq<CNRTSSTAINFO>, s: CNRTSSTAINFO)
    ensures ViewOf(list + [s]) == ViewOf(list) + [s.View()]
  {}

  class CNRTSINFO {
    var StaInfo: seq<CNRTSSTAINFO>
    ghost var Repr: set<CNRTSSTAINFO>

    constructor ()
      ensures Valid() && View() == [] && Repr == {}
    {
      StaInfo, Repr := [], {};
    }

    /** The table owns its station objects, and lists none of them twice. */
    ghost predicate Valid()
      reads this
    {
      && (forall s :: s in StaInfo ==> s in Repr)
      && (forall i, j :: 0 <= i < j < |StaInfo| ==> StaInfo[i] != StaInfo[j])
    }

    ghost function View(): Table
      requires Valid()
      reads this, Repr
    {
      ViewOf(StaInfo)
    }

    method Clear()
      modifies this
      ensures Valid() && View() == [] && Repr == {}
    {
      while StaInfo != [] {
        StaInfo := StaInfo[1..];
      }
      Repr := {};
    }

    /** The outer loop of AddStaChan: the first station of the name, or the end of the list. */
    method Find(sta: string) returns (i: nat)
      ensures i <= |StaInfo| && (i < |StaInfo| ==> StaInfo[i].Sta == sta)
      ensures forall k :: 0 <= k < i ==> StaInfo[k].Sta != sta
    {
      i := 0;
      while i < |StaInfo| && StaInfo[i].Sta != sta
        invariant 0 <= i <= |StaInfo|
        invariant forall k :: 0 <= k < i ==> StaInfo[k].Sta != sta
      {
        i := i + 1;
      }
    }

    method AppendStation(e: Entry)
      requires Valid()
      modifies this
      ensures Valid() && fresh(Repr - old(Repr)) && View() == old(View()) + [Station(e.sta, [e.c])]
    {
      ghost var list := StaInfo;
      var si := NewStation(e);
      StaInfo, Repr := StaInfo + [si], Repr + {si};
      ViewOfSnoc(list, si);
    }

    method AppendChannel(i: nat, c: Channel)
      requires Valid() && i < |StaInfo|
      modifies Repr
      ensures View() == old(View())[i := Station(old(View())[i].sta, old(View())[i].chans + [c])]
    {
      StaInfo[i].AddChan(c);
    }

    method AddStaChan(e: Entry)
      requires Valid()
      modifies this, Repr
      ensures Valid() && fresh(Repr - old(Repr)) && View() == Insert(old(View()), e)
    {
      var i := Find(e.sta);
      InsertAt(View(), i, e);
      if i < |StaInfo| {
        var known := StaInfo[i].Knows(e.c);
        if !known {
          AppendChannel(i, e.c);
        }
      } else {
        AppendStation(e);
      }
    }

    /** The inner loop of CopyFrom. */
    method AddChannelsOf(si: CNRTSSTAINFO)
      requires Valid() && si !in Repr
      modifies this, Repr
      ensures Valid() && fresh(Repr - old(Repr))
      ensures View() == InsertAll(old(View()), StaEntries(si.Sta, si.ChanInfo))
    {
      ghost var goal := InsertAll(View(), StaEntries(si.Sta, si.ChanInfo));
      var j := 0;
      while j < |si.ChanInfo|
        invariant 0 <= j <= |si.ChanInfo| && si.ChanInfo == old(si.ChanInfo)
        invariant Valid() && fresh(Repr - old(Repr))
        invariant InsertAll(View(), StaEntries(si.Sta, si.ChanInfo[j..])) == goal
      {
        StaEntriesStep(View(), si.Sta, si.ChanInfo[j..]);
        AddStaChan(Entry(si.Sta, si.ChanInfo[j]));
        j := j + 1;
      }
    }

    /** Nothing is shared with the source: every station object of the copy is new. */
    method CopyFrom(info: CNRTSINFO)
      requires info != this && info.Valid()
      modifies this
      ensures Valid() && fresh(Repr)
      ensures View() == InsertAll([], Entries(old(info.View())))
    {
      Clear();
      ghost var src := info.View();
      var list := info.StaInfo;
      var i := 0;
      while i < |list|
        invariant 0 <= i <= |list| && ViewOf(list) == src
        invariant Valid() && fresh(Repr)
        invariant InsertAll(View(), Entries(src[i..])) == InsertAll([], Entries(src))
      {
        EntriesStep(View(), src, i);
        AddChannelsOf(list[i]);
        i := i + 1;
      }
    }

    /** operator =. */
    method Assign(info: CNRTSINFO)
      requires info != this && info.Valid()
      modifies this
      ensures Valid() && fresh(Repr)
      ensures View() == old(info.View()) <==> UniqueKeys(old(info.View())) && NoEmptyStation(old(info.View()))
    {
      CopyIsExactIff(info.View());
      CopyFrom(info);
    }

    /** was stands for the scanned locals, which the program leaves uninitialised; a file that cannot be opened loads
        as an empty table. */
    method LoadConfigFromFile(file: Option<string>, was: Fields)
      modifies this
      ensures Valid() && fresh(Repr)
      ensures View() == if file.None? then [] else LoadFrom([], file.value, was)
    {
      Clear();
      if file.None? {
        return;
      }
      var text, f := file.value, was;
      while text != []
        invariant Valid() && fresh(Repr)
        invariant LoadFrom(View(), text, f) == LoadFrom([], file.value, was)
      {
        var cbuff := text[..GetsLen(text)];
        text := text[GetsLen(text)..];
        f := ScanLine(cbuff, f);
        AddStaChan(ToEntry(f));
      }
    }

    /** The inner loop of SaveConfigToFile, for any form of a line. */
    static method WriteStation(si: CNRTSSTAINFO, line: Entry -> string, was: string) returns (text: string)
      ensures text == was + Written(StaEntries(si.Sta, si.ChanInfo), line)
    {
      text := was;
      var j := 0;
      while j < |si.ChanInfo|
        invariant 0 <= j <= |si.ChanInfo|
        invariant text + Written(StaEntries(si.Sta, si.ChanInfo[j..]), line)
               == was + Written(StaEntries(si.Sta, si.ChanInfo), line)
      {
        StaEntriesHead(si.Sta, si.ChanInfo[j..]);
        text := text + line(Entry(si.Sta, si.ChanInfo[j]));
        j := j + 1;
      }
    }

    method WriteStations(line: Entry -> string) returns (text: string)
      requires Valid()
      ensures text == Written(Entries(View()), line)
    {
      ghost var v := View();
      text := "";
      var i := 0;
      while i < |StaInfo|
        invariant 0 <= i <= |StaInfo|
        invariant text + Written(Entries(v[i..]), line) == Written(Entries(v), line)
      {
        WrittenStep(text, v, i, line);
        text := WriteStation(StaInfo[i], line, text);
        i := i + 1;
      }
    }

    method SaveConfigToFile() returns (text: string)
      requires Valid()
      ensures text == Save(View())
    {
      text := WriteStations(Line);
    }

    method GetSelectedChanNumber() returns (nSelected: nat)
      requires Valid()
      ensures nSelected == |Chosen(Entries(View()))|
    {
      ghost var v := View();
      nSelected := 0;
      var i := 0;
      while i < |StaInfo|
        invariant 0 <= i <= |StaInfo|
        invariant nSelected + |Chosen(Entries(v[i..]))| == |Chosen(Entries(v))|
      {
        var si := StaInfo[i];
        var j := 0;
        ghost var before := nSelected;
        while j < |si.ChanInfo|
          invariant 0 <= j <= |si.ChanInfo|
          invariant nSelected + |Chosen(StaEntries(si.Sta, si.ChanInfo[j..]))|
                 == before + |Chosen(StaEntries(si.Sta, si.ChanInfo))|
        {
          StaEntriesHead(si.Sta, si.ChanInfo[j..]);
          if si.ChanInfo[j].selected != 0 {
            nSelected := nSelected + 1;
          }
          j := j + 1;
        }
        ChosenStep(v, i);
        i := i + 1;
      }
    }
  }

  lemma WrittenStep(text: string, v: Table, i: nat, line: Entry -> string)
    requires i < |v|
    ensures text + Written(Entries(v[i..]), line)
         == text + Written(StaEntries(v[i].sta, v[i].chans), line) + Written(Entries(v[i + 1..]), line)
  {
    assert v[i..][0] == v[i] && v[i..][1..] == v[i + 1..];
    var here, after := StaEntries(v[i].sta, v[i].chans), Entries(v[i + 1..]);
    WrittenConcat(here, after, line);
    assert text + (Written(here, line) + Written(after, line)) == text + Written(here, line) + Written(after, line);
  }

  lemma ChosenStep(v: Table, i: nat)
    requires i < |v|
    ensures Chosen(Entries(v[i..])) == Chosen(StaEntries(v[i].sta, v[i].chans)) + Chosen(Entries(v[i + 1..]))
  {
    assert v[i..][0] == v[i] && v[i..][1..] == v[i + 1..];
    ChosenConcat(StaEntries(v[i].sta, v[i].chans), Entries(v[i + 1..]));
  }

  lemma EntriesStep(t: Table, src: Table, i: nat)
    requires i < |src|
    ensures InsertAll(t, Entries(src[i..]))
         == InsertAll(InsertAll(t, StaEntries(src[i].sta, src[i].chans)), Entries(src[i + 1..]))
  {
    assert src[i..][0] == src[i] && src[i..][1..] == src[i + 1..];
    InsertAllConcat(t, StaEntries(src[i].sta, src[i].chans), Entries(src[i + 1..]));
  }

  lemma StaEntriesStep(t: Table, sta: string, cs: seq<Channel>)
    requires cs != []
    ensures InsertAll(t, StaEntries(sta, cs)) == InsertAll(Insert(t, Entry(sta, cs[0])), StaEntries(sta, cs[1..]))
  {
    StaEntriesHead(sta, cs);
  }

  /** Insert, when the first station of the name is at i or there is none. */
  lemma {:induction false} InsertAt(t: Table, i: nat, e: Entry)
    requires i <= |t| && (forall k :: 0 <= k < i ==> t[k].sta != e.sta) && (i < |t| ==> t[i].sta == e.sta)
    ensures Insert(t, e) == if i == |t| then t + [Station(e.sta, [e.c])]
                            else if HasChan(t[i].chans, e.c) then t
                            else t[i := Station(t[i].sta, t[i].chans + [e.c])]
  {
    if i > 0 {
      InsertAt(t[1..], i - 1, e);
    }
  }
}
