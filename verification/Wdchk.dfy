/** wdchk: linked lists of wanted dates, stations and channels, and the scan of a wfdisc file for a time window. */
module Wdchk {
  import opened Cssio
  import opened WdchkCoverage

  // ---- upper case ----

  function Upper(c: char): char {
    if 'a' <= c <= 'z' then c - 'a' + 'A' else c
  }

  /** util_ucase in the C locale. */
  function Ucase(s: string): string {
    seq(|s|, i requires 0 <= i < |s| => Upper(s[i]))
  }

  ghost predicate Settles(up: string -> string) {
    forall s :: up(up(s)) == up(s)
  }

  lemma UcaseSettles()
    ensures Settles(Ucase)
  {
    forall s ensures Ucase(Ucase(s)) == Ucase(s) {
      assert forall i :: 0 <= i < |s| ==> Upper(Upper(s[i])) == Upper(s[i]);
    }
  }

  /** The same character, up to the case of a letter. */
  predicate SameLetter(a: char, b: char) {
    a == b || ('a' <= a <= 'z' && a as int == b as int + 32) || ('a' <= b <= 'z' && b as int == a as int + 32)
  }

  ghost predicate SameName(a: string, b: string) {
    |a| == |b| && forall i :: 0 <= i < |a| ==> SameLetter(a[i], b[i])
  }

  lemma UpperIffSame(a: char, b: char)
    ensures Upper(a) == Upper(b) <==> SameLetter(a, b)
  {}

  /** Two names are equal in upper case if and only if they agree in length and, up to case, in every character. */
  lemma UcaseIffSame(a: string, b: string)
    ensures Ucase(a) == Ucase(b) <==> SameName(a, b)
  {
    if Ucase(a) == Ucase(b) {
      assert |a| == |Ucase(a)| == |b|;
      forall i | 0 <= i < |a| ensures SameLetter(a[i], b[i]) {
        assert Ucase(a)[i] == Ucase(b)[i];
        UpperIffSame(a[i], b[i]);
      }
    }
    if SameName(a, b) {
      forall i | 0 <= i < |a| ensures Ucase(a)[i] == Ucase(b)[i] {
        UpperIffSame(a[i], b[i]);
      }
    }
  }

  // ---- the lists ----

  class Node<K> {
    var key: K
    var next: Node?<K>

    constructor (key: K)
      ensures this.key == key && next == null
    {
      this.key, next := key, null;
    }
  }

  ghost function KeysOf<K>(nodes: seq<Node<K>>): (r: seq<K>)
    reads nodes`key
    ensures |r| == |nodes|
  {
    if nodes == [] then [] else [nodes[0].key] + KeysOf(nodes[1..])
  }

  lemma {:induction false} KeysAre<K>(nodes: seq<Node<K>>)
    ensures forall i :: 0 <= i < |nodes| ==> KeysOf(nodes)[i] == nodes[i].key
  {
    if nodes != [] {
      KeysAre(nodes[1..]);
    }
  }

  twostate lemma {:induction false} KeysKept<K>(nodes: seq<Node<K>>)
    requires forall i :: 0 <= i < |nodes| ==> nodes[i].key == old(nodes[i].key)
    ensures KeysOf(nodes) == old(KeysOf(nodes))
  {
    if nodes != [] {
      KeysKept(nodes[1..]);
    }
  }

  lemma {:induction false} KeysSnoc<K>(nodes: seq<Node<K>>, n: Node<K>)
    ensures KeysOf(nodes + [n]) == KeysOf(nodes) + [n.key]
  {
    if nodes == [] {
      assert [] + [n] == [n];
    } else {
      assert (nodes + [n])[0] == nodes[0] && (nodes + [n])[1..] == nodes[1..] + [n];
      KeysSnoc(nodes[1..], n);
    }
  }

  ghost function NodeAt<K>(nodes: seq<Node<K>>, i: nat): Node?<K> {
    if i < |nodes| then nodes[i] else null
  }

  /** The head of a list: flag tells whether everything is wanted. nodes is the chain. */
  class Head<K> {
    var all: bool
    var next: Node?<K>
    ghost var nodes: seq<Node<K>>

    constructor ()
      ensures Valid() && nodes == [] && all
    {
      all, next, nodes := true, null, [];
    }

    ghost predicate Valid()
      reads `next, `nodes, nodes`next
    {
      && next == NodeAt(nodes, 0)
      && (forall i, j :: 0 <= i < j < |nodes| ==> nodes[i] != nodes[j] && (j == i + 1 ==> nodes[i].next == nodes[j]))
      && (nodes != [] ==> nodes[|nodes| - 1].next == null)
    }

    ghost function Keys(): seq<K>
      reads `nodes, nodes`key
    {
      KeysOf(nodes)
    }

    /** The walk of add_char and add_INT32 to the last node. */
    method LastNode() returns (crnt: Node<K>)
      requires Valid() && nodes != []
      ensures crnt == nodes[|nodes| - 1]
    {
      crnt := next;
      ghost var i := 0;
      while crnt.next != null
        invariant 0 <= i < |nodes| && crnt == nodes[i]
        decreases |nodes| - i
      {
        assert nodes[i].next == NodeAt(nodes, i + 1);
        crnt := crnt.next;
        i := i + 1;
      }
      assert nodes[i].next == NodeAt(nodes, i + 1);
    }

    /** add_char, add_INT32: the new key goes to the end, so the list keeps the order of the command line. */
    method Add(token: K)
      requires Valid()
      modifies `next, `nodes, nodes`next
      ensures Valid() && Keys() == old(Keys()) + [token]
      ensures |nodes| == |old(nodes)| + 1 && nodes[..|old(nodes)|] == old(nodes) && fresh(nodes[|old(nodes)|])
    {
      var node := new Node(token);
      KeysSnoc(nodes, node);
      if next == null {
        next := node;
      } else {
        var crnt := LastNode();
        crnt.next := node;
      }
      nodes := nodes + [node];
    }
  }

  /** lmatch. */
  method LMatch(test: int, list: Head<int>) returns (found: bool)
    requires list.Valid()
    ensures found <==> test in list.Keys()
  {
    ghost var keys := list.Keys();
    KeysAre(list.nodes);
    var crnt := list.next;
    ghost var i := 0;
    while crnt != null
      invariant 0 <= i <= |keys| && crnt == NodeAt(list.nodes, i)
      invariant test !in keys[..i]
      decreases |keys| - i
    {
      if test == crnt.key {
        assert keys[i] == test;
        return true;
      }
      assert list.nodes[i].next == NodeAt(list.nodes, i + 1);
      crnt := crnt.next;
      i := i + 1;
    }
    assert keys[..i] == keys;
    return false;
  }

  // ---- cmatch, for any kind of key that has an upper-case form ----

  function All<K, L>(up: K -> L, keys: seq<K>): (r: seq<L>)
    ensures |r| == |keys|
  {
    if keys == [] then [] else [up(keys[0])] + All(up, keys[1..])
  }

  lemma {:induction false} AllAre<K, L>(up: K -> L, keys: seq<K>)
    ensures forall i :: 0 <= i < |keys| ==> All(up, keys)[i] == up(keys[i])
  {
    if keys != [] {
      AllAre(up, keys[1..]);
    }
  }

  /** The keys after cmatch: each up to the first that matches has been put in upper case. */
  function Touched<K(==)>(up: K -> K, keys: seq<K>, t: K): (r: seq<K>)
    ensures |r| == |keys|
  {
    if keys == [] then []
    else [up(keys[0])] + if up(keys[0]) == t then keys[1..] else Touched(up, keys[1..], t)
  }

  lemma {:induction false} TouchedAt<K>(up: K -> K, keys: seq<K>, t: K, i: nat)
    requires i <= |keys| && forall k :: 0 <= k < i ==> up(keys[k]) != t
    requires i < |keys| ==> up(keys[i]) == t
    ensures forall k :: 0 <= k < |keys| ==> Touched(up, keys, t)[k] == if k <= i then up(keys[k]) else keys[k]
  {
    if i > 0 {
      TouchedAt(up, keys[1..], t, i - 1);
    }
  }

  /** Touching keys does not change what they match. */
  lemma {:induction false} TouchedMatchesTheSame(up: string -> string, keys: seq<string>, t: string)
    requires Settles(up)
    ensures All(up, Touched(up, keys, t)) == All(up, keys)
  {
    if keys != [] {
      TouchedMatchesTheSame(up, keys[1..], t);
    }
  }

  /** Searching in upper case finds a name exactly if a key of its length agrees with it up to the case of letters. */
  lemma MetIff(keys: seq<string>, name: string)
    ensures Ucase(name) in All(Ucase, keys) <==> exists i :: 0 <= i < |keys| && SameName(keys[i], name)
  {
    AllAre(Ucase, keys);
    forall i | 0 <= i < |keys| ensures All(Ucase, keys)[i] == Ucase(name) <==> SameName(keys[i], name) {
      UcaseIffSame(keys[i], name);
    }
  }

  lemma Walked<K>(up: K -> K, upper: K, nodes: seq<Node<K>>, keys: seq<K>, i: nat)
    requires i <= |keys| == |nodes| && forall k :: 0 <= k < i ==> up(keys[k]) != upper
    requires i < |keys| ==> up(keys[i]) == upper
    requires forall k :: 0 <= k < |keys| ==> nodes[k].key == if k <= i then up(keys[k]) else keys[k]
    ensures KeysOf(nodes) == Touched(up, keys, upper)
    ensures upper in All(up, keys) <==> i < |keys|
  {
    KeysAre(nodes);
    TouchedAt(up, keys, upper, i);
    AllAre(up, keys);
    assert i < |keys| ==> All(up, keys)[i] == upper;
  }

  /** Puts the keys in upper case one by one until one of them is upper. */
  method Search<K(==)>(up: K -> K, upper: K, list: Head<K>) returns (found: bool)
    requires list.Valid()
    modifies list.nodes`key
    ensures found <==> upper in All(up, old(list.Keys()))
    ensures list.Keys() == Touched(up, old(list.Keys()), upper)
  {
    ghost var keys := list.Keys();
    KeysAre(list.nodes);
    var crnt := list.next;
    ghost var i := 0;
    while crnt != null
      invariant 0 <= i <= |keys| && crnt == NodeAt(list.nodes, i)
      invariant forall k :: 0 <= k < |keys| ==> list.nodes[k].key == if k < i then up(keys[k]) else keys[k]
      invariant forall k :: 0 <= k < i ==> up(keys[k]) != upper
      decreases |keys| - i
    {
      crnt.key := up(crnt.key);
      if upper == crnt.key {
        Walked(up, upper, list.nodes, keys, i);
        return true;
      }
      assert list.nodes[i].next == NodeAt(list.nodes, i + 1);
      crnt := crnt.next;
      i := i + 1;
    }
    Walked(up, upper, list.nodes, keys, i);
    return false;
  }

  // ---- check ----

  datatype Choice<K> = Everything | Only(keys: seq<K>)

  /** The selection as values: how names are put in upper case; what is wanted, names in upper case; and how much of
      the wanted window a span covers. */
  datatype Want = Want(upper: string -> string, date: Choice<int>, sta: Choice<string>, chan: Choice<string>,
                       percent: Span -> real)

  predicate Meets<K(==)>(c: Choice<K>, k: K) {
    c.Everything? || k in c.keys
  }

  predicate Wants(w: Want, r: Wfdisc) {
    && Meets(w.date, r.jdate) && Meets(w.sta, w.upper(r.sta)) && Meets(w.chan, w.upper(r.chan))
    && r.nsamp > 0
  }

  function SpanOf(r: Wfdisc): Span {
    Span(r.time, r.endtime)
  }

  /** One line of output: the number of the record, the record (its path and times are printed), and the percentage. */
  datatype Report = Report(trace: nat, record: Wfdisc, percent: real)

  predicate IsReported(w: Want, r: Wfdisc)
  {
    Wants(w, r) && w.percent(SpanOf(r)) > 0.0
  }

  function ReportFor(w: Want, r: Wfdisc, trace: nat): seq<Report>
  {
    if IsReported(w, r) then [Report(trace, r, w.percent(SpanOf(r)))] else []
  }

  /** What f makes of the first n elements and their numbers, which count from 1. */
  function Collected<R, S>(f: (R, nat) -> seq<S>, rs: seq<R>, n: nat): seq<S>
    requires n <= |rs|
  {
    if n == 0 then [] else Collected(f, rs, n - 1) + f(rs[n - 1], n)
  }

  function Lines(w: Want): (Wfdisc, nat) -> seq<Report> {
    (r: Wfdisc, k: nat) => ReportFor(w, r, k)
  }

  /** The output for the first n records. */
  function Reports(w: Want, recs: seq<Wfdisc>, n: nat): seq<Report>
    requires n <= |recs|
  {
    Collected(Lines(w), recs, n)
  }

  ghost function Dates(list: Head<int>): Choice<int>
    reads list`all, list`nodes, list.nodes`key
  {
    if list.all then Everything else Only(list.Keys())
  }

  ghost function Names(up: string -> string, list: Head<string>): Choice<string>
    reads list`all, list`nodes, list.nodes`key
  {
    if list.all then Everything else Only(All(up, list.Keys()))
  }

  /** cmatch, unless everything is wanted. A list with other nodes is left alone. */
  method MeetsName(up: string -> string, name: string, list: Head<string>, ghost other: Head<string>)
    returns (met: bool)
    requires list.Valid() && Settles(up)
    requires forall i :: 0 <= i < |other.nodes| ==> other.nodes[i] !in list.nodes
    modifies list.nodes`key
    ensures met <==> Meets(old(Names(up, list)), up(name))
    ensures list.Valid() && Names(up, list) == old(Names(up, list))
    ensures Names(up, other) == old(Names(up, other))
  {
    if list.all {
      return true;
    }
    TouchedMatchesTheSame(up, list.Keys(), up(name));
    met := Search(up, up(name), list);
    KeysKept(other.nodes);
  }

  class Checker {
    /** util_ucase. */
    const upper: string -> string
    const date: Head<int>
    const sta: Head<string>
    const chan: Head<string>
    /** How much of the wanted window a span covers. */
    const percent: Span -> real
    var Match: bool

    constructor (date: Head<int>, sta: Head<string>, chan: Head<string>, span: Window)
      requires date.Valid() && sta.Valid() && chan.Valid()
      requires forall x :: x in sta.nodes ==> x !in chan.nodes
      ensures this.date == date && this.sta == sta && this.chan == chan && !Match
      ensures upper == Ucase && percent == PercentOf(span) && Valid()
    {
      UcaseSettles();
      upper := Ucase;
      this.date, this.sta, this.chan, percent, Match := date, sta, chan, PercentOf(span), false;
    }

    ghost predicate Valid()
      reads date`next, date`nodes, date.nodes`next, sta`next, sta`nodes, sta.nodes`next
      reads chan`next, chan`nodes, chan.nodes`next
    {
      && date.Valid() && sta.Valid() && chan.Valid()
      && (forall x :: x in sta.nodes ==> x !in chan.nodes)
      && Settles(upper)
    }

    ghost function Wanted(): Want
      reads date`all, date`nodes, date.nodes`key, sta`all, sta`nodes, sta.nodes`key
      reads chan`all, chan`nodes, chan.nodes`key
    {
      Want(upper, Dates(date), Names(upper, sta), Names(upper, chan), percent)
    }

    /** Whether the record has a wanted date, station and channel, names compared without case, and samples. */
    ghost predicate Chosen(r: Wfdisc)
      reads date`all, date`nodes, date.nodes`key, sta`all, sta`nodes, sta.nodes`key
      reads chan`all, chan`nodes, chan.nodes`key
    {
      && (date.all || r.jdate in date.Keys())
      && (sta.all || exists i :: 0 <= i < |sta.Keys()| && SameName(sta.Keys()[i], r.sta))
      && (chan.all || exists i :: 0 <= i < |chan.Keys()| && SameName(chan.Keys()[i], r.chan))
      && r.nsamp > 0
    }

    lemma WantsIffChosen(r: Wfdisc)
      requires upper == Ucase
      ensures Wants(Wanted(), r) <==> Chosen(r)
    {
      MetIff(sta.Keys(), r.sta);
      MetIff(chan.Keys(), r.chan);
    }

    method MeetsSta(name: string) returns (met: bool)
      requires Valid()
      modifies sta.nodes`key
      ensures Valid() && Wanted() == old(Wanted())
      ensures met <==> old(Meets(Names(upper, sta), upper(name)))
    {
      assert forall i :: 0 <= i < |chan.nodes| ==> chan.nodes[i] in chan.nodes;
      met := MeetsName(upper, name, sta, chan);
      assert Dates(date) == old(Dates(date));
    }

    method MeetsChan(name: string) returns (met: bool)
      requires Valid()
      modifies chan.nodes`key
      ensures Valid() && Wanted() == old(Wanted())
      ensures met <==> old(Meets(Names(upper, chan), upper(name)))
    {
      assert forall i :: 0 <= i < |sta.nodes| ==> sta.nodes[i] in sta.nodes;
      met := MeetsName(upper, name, chan, sta);
      assert Dates(date) == old(Dates(date));
    }

    method MeetsDate(jdate: int) returns (met: bool)
      requires Valid()
      ensures met <==> Meets(Dates(date), jdate)
    {
      met := true;
      if !date.all {
        met := LMatch(jdate, date);
      }
    }

    /** Whether check looks at the record; the matching stops at the first list that does not hold it. */
    method Selects(r: Wfdisc) returns (selected: bool)
      requires Valid()
      modifies sta.nodes`key, chan.nodes`key
      ensures Valid() && Wanted() == old(Wanted())
      ensures selected <==> Wants(old(Wanted()), r)
      ensures upper == Ucase ==> (selected <==> old(Chosen(r)))
    {
      ghost var w := Wanted();
      if upper == Ucase {
        WantsIffChosen(r);
      }
      selected := MeetsDate(r.jdate);
      if selected {
        selected := MeetsSta(r.sta);
      }
      if selected {
        assert Names(upper, chan) == w.chan;
        selected := MeetsChan(r.chan);
      }
      selected := selected && r.nsamp > 0;
    }

    /** The loop of check over the records of one file. */
    method Check(recs: seq<Wfdisc>) returns (report: seq<Report>)
      requires Valid()
      modifies `Match, sta.nodes`key, chan.nodes`key
      ensures Valid() && Wanted() == old(Wanted())
      ensures report == Reports(old(Wanted()), recs, |recs|)
      ensures Match <==> old(Match) || |report| > 0
    {
      ghost var w := Wanted();
      var trace := 0;
      report := [];
      while trace < |recs|
        invariant 0 <= trace <= |recs| && Valid() && Wanted() == w
        invariant report == Collected(Lines(w), recs, trace)
        invariant Match <==> old(Match) || |report| > 0
      {
        var r := recs[trace];
        trace := trace + 1;
        var line := CheckRecord(r, trace);
        report := report + line;
      }
    }

    /** The body of the loop. */
    method CheckRecord(r: Wfdisc, trace: nat) returns (line: seq<Report>)
      requires Valid()
      modifies `Match, sta.nodes`key, chan.nodes`key
      ensures Valid() && Wanted() == old(Wanted())
      ensures line == Lines(old(Wanted()))(r, trace)
      ensures Match <==> old(Match) || |line| > 0
    {
      line := [];
      var selected := Selects(r);
      if selected {
        var p := percent(SpanOf(r));
        if p > 0.0 {
          line := [Report(trace, r, p)];
          Match := true;
        }
      }
    }
  }

  // ---- what the output says ----

  function Wanting(w: Want, recs: seq<Wfdisc>, n: nat): seq<Span>
    requires n <= |recs|
  {
    if n == 0 then [] else Wanting(w, recs, n - 1) + if Wants(w, recs[n - 1]) then [SpanOf(recs[n - 1])] else []
  }

  function PercentSum(rs: seq<Report>): real {
    if rs == [] then 0.0 else PercentSum(rs[..|rs| - 1]) + rs[|rs| - 1].percent
  }

  lemma {:induction false} TotalPercentSnoc(rs: seq<Span>, r: Span, percent: Span -> real)
    ensures TotalPercent(rs + [r], percent) == TotalPercent(rs, percent) + if percent(r) > 0.0 then percent(r) else 0.0
  {
    if rs == [] {
      assert [] + [r] == [r] && [r][1..] == [];
      assert TotalPercent([], percent) == 0.0;
    } else {
      assert (rs + [r])[0] == rs[0] && (rs + [r])[1..] == rs[1..] + [r];
      TotalPercentSnoc(rs[1..], r, percent);
    }
  }

  lemma PercentSumAdds(rs: seq<Report>, w: Want, r: Wfdisc, n: nat)
    ensures PercentSum(rs + ReportFor(w, r, n))
         == PercentSum(rs) + if IsReported(w, r) then w.percent(SpanOf(r)) else 0.0
  {
    if IsReported(w, r) {
      assert (rs + ReportFor(w, r, n))[..|rs|] == rs;
    } else {
      assert rs + [] == rs;
    }
  }

  lemma {:induction false} ReportsSum(w: Want, recs: seq<Wfdisc>, n: nat)
    requires n <= |recs|
    ensures PercentSum(Reports(w, recs, n)) == TotalPercent(Wanting(w, recs, n), w.percent)
  {
    if n > 0 {
      ReportsSum(w, recs, n - 1);
      PercentSumAdds(Reports(w, recs, n - 1), w, recs[n - 1], n);
      if Wants(w, recs[n - 1]) {
        TotalPercentSnoc(Wanting(w, recs, n - 1), SpanOf(recs[n - 1]), w.percent);
      } else {
        assert Wanting(w, recs, n - 1) + [] == Wanting(w, recs, n - 1);
      }
    }
  }

  /** The percentages printed for a file whose wanted records do not overlap in time add up to at most 100. */
  lemma PrintedPercentsFit(w: Want, want: Window, recs: seq<Wfdisc>)
    requires w.percent == PercentOf(want) && PairwiseDisjoint(Wanting(w, recs, |recs|))
    ensures PercentSum(Reports(w, recs, |recs|)) <= 100.0
  {
    ReportsSum(w, recs, |recs|);
    ReportedPercentsFit(Wanting(w, recs, |recs|), want);
  }

  lemma {:induction false} NoReportIffNothingReported(w: Want, recs: seq<Wfdisc>, n: nat)
    requires n <= |recs|
    ensures Reports(w, recs, n) == [] <==> forall i :: 0 <= i < n ==> !IsReported(w, recs[i])
  {
    if n > 0 {
      NoReportIffNothingReported(w, recs, n - 1);
    }
  }

  /** "No data" is printed exactly when no wanted record shares more than an instant with the window. */
  lemma NoReportIffNoData(w: Want, want: Window, recs: seq<Wfdisc>)
    requires w.percent == PercentOf(want)
    ensures Reports(w, recs, |recs|) == []
       <==> forall i :: 0 <= i < |recs| ==>
                          !(Wants(w, recs[i]) && Overlap(Span(recs[i].time, recs[i].endtime), want) > 0.0)
  {
    NoReportIffNothingReported(w, recs, |recs|);
    forall i | 0 <= i < |recs|
      ensures IsReported(w, recs[i])
         <==> Wants(w, recs[i]) && Overlap(Span(recs[i].time, recs[i].endtime), want) > 0.0
    {
      ReportedIffOverlapping(SpanOf(recs[i]), want);
    }
  }
}
