/** Saving a channel table as a file and loading it back. */
module ChannelFile {
  import opened ChannelTable
  import opened ChannelText
  import opened ChannelRates

  /** SaveConfigToFile: one line for each channel, in list order. */
  function Save(t: Table): string {
    Lines(Entries(t))
  }

  lemma {:induction false} WrittenConcat(a: seq<Entry>, b: seq<Entry>, line: Entry -> string)
    ensures Written(a + b, line) == Written(a, line) + Written(b, line)
  {
    if a == [] {
      assert a + b == b;
    } else {
      assert (a + b)[0] == a[0] && (a + b)[1..] == a[1..] + b;
      WrittenConcat(a[1..], b, line);
    }
  }

  /** fgets is asked for at most 126 characters, one of which is the terminator. */
  const LONGEST := 125

  predicate OnLine(c: char) {
    c != '\n'
  }

  /** How much of the text the next fgets takes: up to and with the newline, but no more than fits. */
  function GetsLen(text: string): (n: nat)
    requires text != []
    ensures 0 < n <= |text|
  {
    var k := PrefixLen(text, OnLine);
    var m := if k < |text| then k + 1 else k;
    if m <= LONGEST then m else LONGEST
  }

  /** Of any text fgets takes at most 125 characters, of which none but the last is a newline, and stops short of that
      only behind a newline or at the end of the text. */
  lemma GetsTakes(text: string)
    requires text != []
    ensures var n := GetsLen(text);
      && n <= 125 && (forall i :: 0 <= i < n - 1 ==> text[i] != '\n')
      && (n == 125 || n == |text| || text[n - 1] == '\n')
  {}

  /** The entry that LoadConfigFromFile adds for the scanned fields. */
  function ToEntry(f: Fields): Entry {
    Entry(f.sta, Channel(f.chan, if f.lcode == "__" then "  " else f.lcode, f.rate, f.selected))
  }

  /** The loop of LoadConfigFromFile; f holds the locals that survive from line to line. */
  function LoadFrom(t: Table, text: string, f: Fields): Table
    decreases |text|
  {
    if text == [] then t
    else
      var n := GetsLen(text);
      var g := ScanLine(text[..n], f);
      LoadFrom(Insert(t, ToEntry(g)), text[n..], g)
  }

  // ---- each saved line is read as a whole ----

  predicate IsLine(s: string) {
    s != [] && s[|s| - 1] == '\n' && forall i :: 0 <= i < |s| - 1 ==> OnLine(s[i])
  }

  lemma IsLinePrefix(a: string, s: string)
    requires (forall i :: 0 <= i < |a| ==> OnLine(a[i])) && IsLine(s)
    ensures IsLine(a + s)
  {
    assert (a + s)[|a + s| - 1] == s[|s| - 1];
  }

  lemma RateIsOnLine(rate: real)
    ensures forall i :: 0 <= i < |FormatRate(rate)| ==> OnLine(FormatRate(rate)[i])
  {}

  lemma LineIsLine(e: Entry)
    requires Named(e)
    ensures IsLine(Line(e))
  {
    var c := e.c;
    IsLinePrefix(FormatInt(c.selected), "\n");
    IsLinePrefix(" ", FormatInt(c.selected) + "\n");
    RateIsOnLine(c.rate);
    IsLinePrefix(FormatRate(c.rate), SelectedText(c));
    IsLinePrefix(" ", FormatRate(c.rate) + SelectedText(c));
    IsLinePrefix(Code(c.lcode), RateText(c));
    IsLinePrefix(" ", Code(c.lcode) + RateText(c));
    IsLinePrefix(c.chan, CodeText(c));
    IsLinePrefix(" ", c.chan + CodeText(c));
    IsLinePrefix(e.sta, ChanText(c));
  }

  lemma GetsTakesLine(s: string, rest: string)
    requires IsLine(s) && |s| <= LONGEST
    ensures GetsLen(s + rest) == |s| && (s + rest)[..|s|] == s && (s + rest)[|s|..] == rest
  {
    var k: nat := |s| - 1;
    assert forall i :: 0 <= i < k ==> (s + rest)[i] == s[i];
    assert (s + rest)[k] == s[k];
    PrefixLenIs(s + rest, k, OnLine);
  }

  /** What becomes of an entry that is saved and loaded. */
  function Returned(e: Entry): Entry {
    ToEntry(Read(e))
  }

  function ReturnedAll(es: seq<Entry>): seq<Entry> {
    if es == [] then [] else [Returned(es[0])] + ReturnedAll(es[1..])
  }

  /** The names can be read back, and the line fits the buffer. */
  predicate Fits(e: Entry) {
    Named(e) && |Line(e)| <= LONGEST
  }

  lemma LoadReadsOneLine(t: Table, e: Entry, rest: string, f: Fields)
    requires Fits(e)
    ensures LoadFrom(t, Line(e) + rest, f) == LoadFrom(Insert(t, Returned(e)), rest, Read(e))
  {
    LineIsLine(e);
    GetsTakesLine(Line(e), rest);
    LineReads(e, f);
  }

  /** Loading saved lines adds each entry, as far as it survives, in the order saved. */
  lemma {:induction false} LoadReadsEveryLine(t: Table, es: seq<Entry>, f: Fields)
    requires forall e :: e in es ==> Fits(e)
    ensures LoadFrom(t, Lines(es), f) == InsertAll(t, ReturnedAll(es))
    decreases |es|
  {
    if es != [] {
      var e := es[0];
      assert Fits(e) && forall d :: d in es[1..] ==> d in es;
      LoadReadsOneLine(t, e, Lines(es[1..]), f);
      LoadReadsEveryLine(Insert(t, Returned(e)), es[1..], Read(e));
      assert ReturnedAll(es)[0] == Returned(e) && ReturnedAll(es)[1..] == ReturnedAll(es[1..]);
    }
  }

  // ---- which channels survive ----

  /** The location code does not collide with the one that stands for two blanks, and the rate survives. */
  ghost predicate Storable(c: Channel) {
    c.lcode != "__" && NearMillionth(c.rate)
  }

  lemma ReturnedIsStorable(e: Entry)
    ensures Storable(Returned(e).c)
    ensures Storable(e.c) ==> Returned(e) == e
  {
    StoredIffNearMillionth(e.c.rate);
  }

  lemma {:induction false} StorablesReturn(es: seq<Entry>)
    ensures forall e :: e in ReturnedAll(es) ==> Storable(e.c)
    ensures (forall e :: e in es ==> Storable(e.c)) ==> ReturnedAll(es) == es
  {
    if es != [] {
      ReturnedIsStorable(es[0]);
      StorablesReturn(es[1..]);
      assert forall e :: e in es[1..] ==> e in es;
      assert es == [es[0]] + es[1..];
    }
  }

  lemma {:induction false} StaEntriesAreChannels(sta: string, cs: seq<Channel>)
    ensures forall e :: e in StaEntries(sta, cs) ==> e.sta == sta && e.c in cs
  {
    if cs != [] {
      StaEntriesAreChannels(sta, cs[1..]);
    }
  }

  lemma {:induction false} EntriesSatisfy(t: Table, p: Channel -> bool)
    requires AllOf(t, p)
    ensures forall e :: e in Entries(t) ==> p(e.c)
  {
    if t != [] {
      assert forall s :: s in t[1..] ==> s in t;
      EntriesSatisfy(t[1..], p);
      StaEntriesAreChannels(t[0].sta, t[0].chans);
      assert t[0] in t;
    }
  }

  /** A table whose lines can be read at all is restored exactly - station order, channel order, codes, rates and
      selection - if and only if its keys are unique, no station is empty, no location code is "__" and every rate is
      the float nearest to a whole number of millionths. Nothing depends on what the locals of the loader held
      before. */
  lemma RestoredExactlyIff(t: Table, f: Fields)
    requires forall e :: e in Entries(t) ==> Fits(e)
    ensures LoadFrom([], Save(t), f) == t
       <==> UniqueKeys(t) && NoEmptyStation(t) && AllOf(t, Storable)
  {
    var es := Entries(t);
    LoadReadsEveryLine([], es, f);
    StorablesReturn(es);
    BuiltTablesAreUnique([], ReturnedAll(es));
    BuiltFromAll([], ReturnedAll(es), Storable);
    CopyIsExactIff(t);
    if AllOf(t, Storable) {
      EntriesSatisfy(t, Storable);
    }
  }

  /** The location code "__" comes back as two blanks. */
  lemma UnderscoresAreLost(sta: string, c: Channel, f: Fields)
    requires Fits(Entry(sta, c)) && c.lcode == "__"
    ensures LoadFrom([], Save([Station(sta, [c])]), f)
         == [Station(sta, [c.(lcode := "  ", rate := Stored(c.rate))])]
  {
    var e := Entry(sta, c);
    assert StaEntries(sta, [c]) == [e] && Entries([Station(sta, [c])]) == [e];
    LoadReadsEveryLine([], [e], f);
    assert ReturnedAll([e]) == [Returned(e)];
    assert InsertAll([], [Returned(e)]) == Insert([], Returned(e));
  }
}
