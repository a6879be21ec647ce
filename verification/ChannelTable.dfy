/** The table of stations and channels as a value: what inserting, copying and rebuilding do to it. */
module ChannelTable {
  import opened Wrappers

  /** CNRTSCHANINFO. selected is the C flag: any number but 0 means selected. */
  datatype Channel = Channel(chan: string, lcode: string, rate: real, selected: int)

  /** CNRTSSTAINFO. */
  datatype Station = Station(sta: string, chans: seq<Channel>)

  type Table = seq<Station>

  /** The arguments of AddStaChan. */
  datatype Entry = Entry(sta: string, c: Channel)

  predicate SameKey(c: Channel, d: Channel) {
    c.chan == d.chan && c.lcode == d.lcode
  }

  predicate HasChan(cs: seq<Channel>, c: Channel) {
    exists d :: d in cs && SameKey(c, d)
  }

  predicate HasSta(t: Table, sta: string) {
    exists s :: s in t && s.sta == sta
  }

  /** AddStaChan: the first station of that name gets the channel unless it has one of that name and location code;
      without such a station a new one is appended. */
  function Insert(t: Table, e: Entry): Table {
    if t == [] then [Station(e.sta, [e.c])]
    else if t[0].sta != e.sta then [t[0]] + Insert(t[1..], e)
    else if HasChan(t[0].chans, e.c) then t
    else [Station(t[0].sta, t[0].chans + [e.c])] + t[1..]
  }

  function InsertAll(t: Table, es: seq<Entry>): Table
    decreases |es|
  {
    if es == [] then t else InsertAll(Insert(t, es[0]), es[1..])
  }

  function StaEntries(sta: string, cs: seq<Channel>): (r: seq<Entry>)
    ensures |r| == |cs|
  {
    if cs == [] then [] else [Entry(sta, cs[0])] + StaEntries(sta, cs[1..])
  }

  /** The channels in the order in which the nested loops over the lists meet them. */
  function Entries(t: Table): seq<Entry> {
    if t == [] then [] else StaEntries(t[0].sta, t[0].chans) + Entries(t[1..])
  }

  /** The channels that Run shows. */
  function Chosen(es: seq<Entry>): seq<Entry> {
    if es == [] then []
    else (if es[0].c.selected != 0 then [es[0]] else []) + Chosen(es[1..])
  }

  lemma {:induction false} ChosenConcat(a: seq<Entry>, b: seq<Entry>)
    ensures Chosen(a + b) == Chosen(a) + Chosen(b)
  {
    if a == [] {
      assert a + b == b;
    } else {
      assert (a + b)[0] == a[0] && (a + b)[1..] == a[1..] + b;
      ChosenConcat(a[1..], b);
    }
  }

  lemma StaEntriesHead(sta: string, cs: seq<Channel>)
    requires cs != []
    ensures StaEntries(sta, cs)[0] == Entry(sta, cs[0]) && StaEntries(sta, cs)[1..] == StaEntries(sta, cs[1..])
  {}

  lemma ChosenHead(sta: string, cs: seq<Channel>)
    requires cs != []
    ensures Chosen(StaEntries(sta, cs))
         == (if cs[0].selected != 0 then [Entry(sta, cs[0])] else []) + Chosen(StaEntries(sta, cs[1..]))
  {
    StaEntriesHead(sta, cs);
  }

  // ---- what every table built by AddStaChan satisfies ----

  predicate UniqueChans(cs: seq<Channel>) {
    forall i, j :: 0 <= i < j < |cs| ==> !SameKey(cs[i], cs[j])
  }

  predicate UniqueKeys(t: Table) {
    && (forall i, j :: 0 <= i < j < |t| ==> t[i].sta != t[j].sta)
    && (forall s :: s in t ==> UniqueChans(s.chans))
  }

  predicate NoEmptyStation(t: Table) {
    forall s :: s in t ==> s.chans != []
  }

  lemma {:induction false} InsertAddsStation(t: Table, e: Entry, sta: string)
    ensures HasSta(Insert(t, e), sta) <==> HasSta(t, sta) || sta == e.sta
  {
    var r := Insert(t, e);
    if t == [] {
      assert r[0] in r;
    } else if t[0].sta != e.sta {
      InsertAddsStation(t[1..], e, sta);
      HasStaCons(t[0], t[1..], sta);
      HasStaCons(t[0], Insert(t[1..], e), sta);
      assert t == [t[0]] + t[1..];
    } else {
      HasStaCons(t[0], t[1..], sta);
      HasStaCons(r[0], t[1..], sta);
      assert t == [t[0]] + t[1..];
      assert r == [r[0]] + t[1..];
    }
  }

  lemma HasStaCons(s: Station, t: Table, sta: string)
    ensures HasSta([s] + t, sta) <==> s.sta == sta || HasSta(t, sta)
  {
    if s.sta == sta {
      assert ([s] + t)[0] == s;
    }
    if HasSta(t, sta) {
      var u :| u in t && u.sta == sta;
      assert u in [s] + t;
    }
  }

  lemma UniqueCons(s: Station, t: Table)
    ensures UniqueKeys([s] + t) <==> UniqueChans(s.chans) && !HasSta(t, s.sta) && UniqueKeys(t)
  {
    var r := [s] + t;
    if UniqueKeys(r) {
      assert r[0] in r;
      forall i, j | 0 <= i < j < |t| ensures t[i].sta != t[j].sta {
        assert r[i + 1].sta != r[j + 1].sta;
      }
      forall u | u in t ensures u.sta != s.sta {
        var i :| 0 <= i < |t| && t[i] == u;
        assert r[i + 1] == u && r[0] == s;
      }
      forall u | u in t ensures UniqueChans(u.chans) {
        assert u in r;
      }
    }
    if UniqueChans(s.chans) && !HasSta(t, s.sta) && UniqueKeys(t) {
      forall i, j | 0 <= i < j < |r| ensures r[i].sta != r[j].sta {
        assert r[j] == t[j - 1] && t[j - 1] in t;
      }
    }
  }

  /** Inserting keeps keys unique and stations non-empty. */
  lemma {:induction false} InsertKeepsUnique(t: Table, e: Entry)
    requires UniqueKeys(t) && NoEmptyStation(t)
    ensures UniqueKeys(Insert(t, e)) && NoEmptyStation(Insert(t, e))
  {
    var r := Insert(t, e);
    if t == [] {
    } else {
      assert t == [t[0]] + t[1..];
      UniqueCons(t[0], t[1..]);
      if t[0].sta != e.sta {
        InsertKeepsUnique(t[1..], e);
        InsertAddsStation(t[1..], e, t[0].sta);
        UniqueCons(t[0], Insert(t[1..], e));
      } else if !HasChan(t[0].chans, e.c) {
        AppendKeepsUnique(t[0].chans, e.c);
        UniqueCons(r[0], t[1..]);
      }
    }
  }

  lemma AppendKeepsUnique(cs: seq<Channel>, c: Channel)
    requires UniqueChans(cs) && !HasChan(cs, c)
    ensures UniqueChans(cs + [c])
  {
    forall i, j | 0 <= i < j < |cs + [c]| ensures !SameKey((cs + [c])[i], (cs + [c])[j]) {
      assert (cs + [c])[i] == cs[i] && cs[i] in cs;
    }
  }

  /** However a table was built by insertions, its keys are unique and no station is empty. */
  lemma {:induction false} BuiltTablesAreUnique(t: Table, es: seq<Entry>)
    requires UniqueKeys(t) && NoEmptyStation(t)
    ensures UniqueKeys(InsertAll(t, es)) && NoEmptyStation(InsertAll(t, es))
    decreases |es|
  {
    if es != [] {
      InsertKeepsUnique(t, es[0]);
      BuiltTablesAreUnique(Insert(t, es[0]), es[1..]);
    }
  }

  // ---- the first of several channels with one key wins ----

  function FindChan(cs: seq<Channel>, chan: string, lcode: string): Option<Channel> {
    if cs == [] then None
    else if cs[0].chan == chan && cs[0].lcode == lcode then Some(cs[0])
    else FindChan(cs[1..], chan, lcode)
  }

  function Lookup(t: Table, sta: string, chan: string, lcode: string): Option<Channel> {
    if t == [] then None
    else if t[0].sta == sta then FindChan(t[0].chans, chan, lcode)
    else Lookup(t[1..], sta, chan, lcode)
  }

  function FirstOf(es: seq<Entry>, sta: string, chan: string, lcode: string): Option<Channel> {
    if es == [] then None
    else if es[0].sta == sta && es[0].c.chan == chan && es[0].c.lcode == lcode then Some(es[0].c)
    else FirstOf(es[1..], sta, chan, lcode)
  }

  function OrElse<T>(a: Option<T>, b: Option<T>): Option<T> {
    if a.Some? then a else b
  }

  lemma {:induction false} FindIffHas(cs: seq<Channel>, c: Channel)
    ensures FindChan(cs, c.chan, c.lcode).Some? <==> HasChan(cs, c)
  {
    if cs != [] {
      FindIffHas(cs[1..], c);
      HasChanCons(cs[0], cs[1..], c);
      assert cs == [cs[0]] + cs[1..];
    }
  }

  lemma HasChanCons(d: Channel, cs: seq<Channel>, c: Channel)
    ensures HasChan([d] + cs, c) <==> SameKey(c, d) || HasChan(cs, c)
  {
    if SameKey(c, d) {
      assert ([d] + cs)[0] == d;
    }
    if HasChan(cs, c) {
      var x :| x in cs && SameKey(c, x);
      assert x in [d] + cs;
    }
  }

  lemma {:induction false} FindInSnoc(cs: seq<Channel>, c: Channel, chan: string, lcode: string)
    ensures FindChan(cs + [c], chan, lcode) == OrElse(FindChan(cs, chan, lcode), FindChan([c], chan, lcode))
  {
    if cs == [] {
      assert [] + [c] == [c];
    } else {
      assert (cs + [c])[0] == cs[0] && (cs + [c])[1..] == cs[1..] + [c];
      FindInSnoc(cs[1..], c, chan, lcode);
    }
  }

  lemma FirstOfOne(e: Entry, sta: string, chan: string, lcode: string)
    ensures FirstOf([e], sta, chan, lcode) == if e.sta == sta then FindChan([e.c], chan, lcode) else None
    ensures FirstOf([e], sta, chan, lcode) == Lookup([Station(e.sta, [e.c])], sta, chan, lcode)
  {
    assert [e][1..] == [] && [e.c][1..] == [] && [Station(e.sta, [e.c])][1..] == [];
    assert FindChan([], chan, lcode) == None && Lookup([], sta, chan, lcode) == None;
  }

  lemma {:induction false} InsertKeepsFirst(t: Table, e: Entry, sta: string, chan: string, lcode: string)
    ensures Lookup(Insert(t, e), sta, chan, lcode)
         == OrElse(Lookup(t, sta, chan, lcode), FirstOf([e], sta, chan, lcode))
  {
    if t == [] {
      FirstOfOne(e, sta, chan, lcode);
    } else if t[0].sta != e.sta {
      InsertKeepsFirst(t[1..], e, sta, chan, lcode);
    } else if HasChan(t[0].chans, e.c) {
      FindIffHas(t[0].chans, e.c);
    } else {
      FindInSnoc(t[0].chans, e.c, chan, lcode);
      FirstOfOne(e, sta, chan, lcode);
      var r := Insert(t, e);
      assert r[0] == Station(t[0].sta, t[0].chans + [e.c]) && r[1..] == t[1..];
    }
  }

  /** Looking a channel up after any insertions finds what was there before, else the first one inserted. */
  lemma {:induction false} FirstInsertedWins(t: Table, es: seq<Entry>, sta: string, chan: string, lcode: string)
    ensures Lookup(InsertAll(t, es), sta, chan, lcode)
         == OrElse(Lookup(t, sta, chan, lcode), FirstOf(es, sta, chan, lcode))
    decreases |es|
  {
    if es != [] {
      InsertKeepsFirst(t, es[0], sta, chan, lcode);
      FirstInsertedWins(Insert(t, es[0]), es[1..], sta, chan, lcode);
    }
  }

  // ---- rebuilding a table from its own entries ----

  lemma {:induction false} InsertAllConcat(t: Table, a: seq<Entry>, b: seq<Entry>)
    ensures InsertAll(t, a + b) == InsertAll(InsertAll(t, a), b)
    decreases |a|
  {
    if a == [] {
      assert a + b == b;
    } else {
      assert (a + b)[0] == a[0] && (a + b)[1..] == a[1..] + b;
      InsertAllConcat(Insert(t, a[0]), a[1..], b);
    }
  }

  lemma {:induction false} InsertAfter(t: Table, u: Table, e: Entry)
    requires !HasSta(t, e.sta)
    ensures Insert(t + u, e) == t + Insert(u, e)
  {
    if t == [] {
      assert t + u == u;
    } else {
      assert t == [t[0]] + t[1..];
      HasStaCons(t[0], t[1..], e.sta);
      assert (t + u)[0] == t[0] && (t + u)[1..] == t[1..] + u;
      InsertAfter(t[1..], u, e);
    }
  }

  lemma {:induction false} InsertRestOfStation(t: Table, sta: string, done: seq<Channel>, rest: seq<Channel>)
    requires !HasSta(t, sta) && UniqueChans(done + rest)
    ensures InsertAll(t + [Station(sta, done)], StaEntries(sta, rest)) == t + [Station(sta, done + rest)]
    decreases |rest|
  {
    if rest == [] {
      assert done + rest == done;
    } else {
      var e := Entry(sta, rest[0]);
      assert !HasChan(done, rest[0]) by {
        forall d | d in done ensures !SameKey(rest[0], d) {
          var i :| 0 <= i < |done| && done[i] == d;
          assert (done + rest)[i] == d && (done + rest)[|done|] == rest[0];
        }
      }
      InsertAfter(t, [Station(sta, done)], e);
      assert Insert([Station(sta, done)], e) == [Station(sta, done + [rest[0]])];
      assert done + [rest[0]] + rest[1..] == done + rest;
      InsertRestOfStation(t, sta, done + [rest[0]], rest[1..]);
    }
  }

  lemma InsertStation(t: Table, sta: string, cs: seq<Channel>)
    requires !HasSta(t, sta) && UniqueChans(cs) && cs != []
    ensures InsertAll(t, StaEntries(sta, cs)) == t + [Station(sta, cs)]
  {
    var e := Entry(sta, cs[0]);
    assert t + [] == t;
    InsertAfter(t, [], e);
    assert [cs[0]] + cs[1..] == cs;
    InsertRestOfStation(t, sta, [cs[0]], cs[1..]);
  }

  lemma {:induction false} RebuildAfter(t: Table, u: Table)
    requires UniqueKeys(t + u) && NoEmptyStation(u)
    ensures InsertAll(t, Entries(u)) == t + u
    decreases |u|
  {
    if u == [] {
      assert t + u == t;
    } else {
      assert u[0] in t + u && u[0] in u;
      assert !HasSta(t, u[0].sta) by {
        forall s | s in t ensures s.sta != u[0].sta {
          var i :| 0 <= i < |t| && t[i] == s;
          assert (t + u)[i] == s && (t + u)[|t|] == u[0];
        }
      }
      InsertStation(t, u[0].sta, u[0].chans);
      InsertAllConcat(t, StaEntries(u[0].sta, u[0].chans), Entries(u[1..]));
      assert t + [u[0]] + u[1..] == t + u;
      RebuildAfter(t + [u[0]], u[1..]);
    }
  }

  /** Copying a table channel by channel gives it back if and only if its keys are unique and no station is empty. */
  lemma CopyIsExactIff(t: Table)
    ensures InsertAll([], Entries(t)) == t <==> UniqueKeys(t) && NoEmptyStation(t)
  {
    BuiltTablesAreUnique([], Entries(t));
    if UniqueKeys(t) && NoEmptyStation(t) {
      assert [] + t == t;
      RebuildAfter([], t);
    }
  }

  // ---- every channel of a built table was inserted ----

  ghost predicate AllOf(t: Table, p: Channel -> bool) {
    forall s, c :: s in t && c in s.chans ==> p(c)
  }

  lemma {:induction false} InsertKeepsAll(t: Table, e: Entry, p: Channel -> bool)
    requires AllOf(t, p) && p(e.c)
    ensures AllOf(Insert(t, e), p)
  {
    if t == [] {
    } else if t[0].sta != e.sta {
      assert AllOf(t[1..], p) by {
        assert forall s :: s in t[1..] ==> s in t;
      }
      InsertKeepsAll(t[1..], e, p);
      assert t[0] in t;
    } else if !HasChan(t[0].chans, e.c) {
      var r := Insert(t, e);
      assert t[0] in t;
      forall s, c | s in r && c in s.chans ensures p(c) {
        assert s == r[0] || s in t;
      }
    }
  }

  lemma {:induction false} BuiltFromAll(t: Table, es: seq<Entry>, p: Channel -> bool)
    requires AllOf(t, p) && forall e :: e in es ==> p(e.c)
    ensures AllOf(InsertAll(t, es), p)
    decreases |es|
  {
    if es != [] {
      assert es[0] in es;
      InsertKeepsAll(t, es[0], p);
      BuiltFromAll(Insert(t, es[0]), es[1..], p);
    }
  }
}
