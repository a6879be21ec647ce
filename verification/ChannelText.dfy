/** The text form of a channel table: what fprintf's "%s %s %s %f %d" writes and sscanf reads back. */
module ChannelText {
  import opened ChannelTable
  import opened Floats

  // ---- characters and numbers ----

  predicate IsSpace(c: char) {
    c in {' ', '\t', '\n', '\U{000B}', '\U{000C}', '\r'}
  }

  predicate IsDigit(c: char) {
    '0' <= c <= '9'
  }

  predicate IsInk(c: char) {
    !IsSpace(c)
  }

  /** How many characters at the start of s satisfy p. */
  function PrefixLen(s: string, p: char -> bool): (n: nat)
    ensures n <= |s|
    ensures forall i :: 0 <= i < n ==> p(s[i])
    ensures n < |s| ==> !p(s[n])
  {
    if s == [] || !p(s[0]) then 0 else 1 + PrefixLen(s[1..], p)
  }

  lemma {:induction false} PrefixLenIs(s: string, n: nat, p: char -> bool)
    requires n <= |s| && (forall i :: 0 <= i < n ==> p(s[i])) && (n < |s| ==> !p(s[n]))
    ensures PrefixLen(s, p) == n
  {
    if n > 0 {
      PrefixLenIs(s[1..], n - 1, p);
    }
  }

  function DigitOf(d: nat): char
    requires d < 10
  {
    '0' + d as char
  }

  function Digit(c: char): nat {
    if IsDigit(c) then (c - '0') as nat else 0
  }

  function Value(s: string): nat {
    if s == [] then 0 else 10 * Value(s[..|s| - 1]) + Digit(s[|s| - 1])
  }

  /** n in decimal, without leading zeros. */
  function Decimal(n: nat): (s: string)
    ensures s != [] && forall i :: 0 <= i < |s| ==> IsDigit(s[i])
  {
    if n < 10 then [DigitOf(n)] else Decimal(n / 10) + [DigitOf(n % 10)]
  }

  /** The last k decimal digits of n. */
  function Digits(n: nat, k: nat): (s: string)
    ensures |s| == k && forall i :: 0 <= i < |s| ==> IsDigit(s[i])
    decreases k
  {
    if k == 0 then "" else Digits(n / 10, k - 1) + [DigitOf(n % 10)]
  }

  function Pow10(k: nat): (p: nat)
    ensures p > 0
  {
    if k == 0 then 1 else 10 * Pow10(k - 1)
  }

  /** The digits, and what each stands for. */
  lemma DigitsAre(c: char)
    ensures IsDigit(c) <==> c in "0123456789"
    ensures forall d: nat | d < 10 :: DigitOf(d) == "0123456789"[d] && Digit("0123456789"[d]) == d
    ensures !IsDigit(c) ==> Digit(c) == 0
  {
    if IsDigit(c) {
      assert "0123456789"[c as int - '0' as int] == c;
    }
  }

  lemma ValueSnoc(s: string, d: nat)
    requires d < 10
    ensures Value(s + [DigitOf(d)]) == 10 * Value(s) + d
  {
    assert (s + [DigitOf(d)])[..|s|] == s;
  }

  lemma {:induction false} DecimalReads(n: nat)
    ensures Value(Decimal(n)) == n
  {
    if n < 10 {
      ValueSnoc([], n);
      assert [] + [DigitOf(n)] == [DigitOf(n)];
    } else {
      DecimalReads(n / 10);
      ValueSnoc(Decimal(n / 10), n % 10);
    }
  }

  lemma {:induction false} DigitsRead(n: nat, k: nat)
    requires n < Pow10(k)
    ensures Value(Digits(n, k)) == n
    decreases k
  {
    if k > 0 {
      DigitsRead(n / 10, k - 1);
      ValueSnoc(Digits(n / 10, k - 1), n % 10);
    }
  }

  // ---- printing ----

  const MICRO := 1000000.0

  /** A rate in millionths, as %f rounds it. */
  function Micros(rate: real): (m: nat)
  {
    Nearest((if rate < 0.0 then -rate else rate) * MICRO)
  }

  /** A number of millionths as %f prints it without the sign. */
  function Fixed(m: nat): string {
    Decimal(m / 1000000) + ("." + Digits(m % 1000000, 6))
  }

  function FormatRate(rate: real): string {
    (if rate < 0.0 then "-" else "") + Fixed(Micros(rate))
  }

  function FormatInt(n: int): string {
    if n < 0 then "-" + Decimal(-n) else Decimal(n)
  }

  /** The location code of two blanks is written as two underscores. */
  function Code(lcode: string): string {
    if lcode == "  " then "__" else lcode
  }

  function SelectedText(c: Channel): string {
    " " + (FormatInt(c.selected) + "\n")
  }

  function RateText(c: Channel): string {
    " " + (FormatRate(c.rate) + SelectedText(c))
  }

  function CodeText(c: Channel): string {
    " " + (Code(c.lcode) + RateText(c))
  }

  function ChanText(c: Channel): string {
    " " + (c.chan + CodeText(c))
  }

  function Line(e: Entry): string {
    e.sta + ChanText(e.c)
  }

  function Written(es: seq<Entry>, line: Entry -> string): string {
    if es == [] then "" else line(es[0]) + Written(es[1..], line)
  }

  function Lines(es: seq<Entry>): string {
    Written(es, Line)
  }

  // ---- scanning ----

  /** The locals that sscanf fills; a conversion that fails leaves its own and the later ones as they were. */
  datatype Fields = Fields(sta: string, chan: string, lcode: string, rate: real, selected: int)

  function SkipSpace(s: string): string {
    s[PrefixLen(s, IsSpace)..]
  }

  function ScanLine(s: string, f: Fields): Fields {
    var a := SkipSpace(s);
    var n := PrefixLen(a, IsInk);
    if n == 0 then f else ScanChan(a[n..], f.(sta := a[..n]))
  }

  function ScanChan(s: string, f: Fields): Fields {
    var a := SkipSpace(s);
    var n := PrefixLen(a, IsInk);
    if n == 0 then f else ScanCode(a[n..], f.(chan := a[..n]))
  }

  function ScanCode(s: string, f: Fields): Fields {
    var a := SkipSpace(s);
    var n := PrefixLen(a, IsInk);
    if n == 0 then f else ScanRate(a[n..], f.(lcode := a[..n]))
  }

  predicate Signed(s: string) {
    s != [] && (s[0] == '-' || s[0] == '+')
  }

  function Unsign(s: string): string {
    if Signed(s) then s[1..] else s
  }

  function Negated(s: string): bool {
    Signed(s) && s[0] == '-'
  }

  datatype Scanned = Scanned(ok: bool, value: real, rest: string)

  /** Digits, and a point with more digits; at least one digit in all. */
  function ScanFixed(b: string): Scanned {
    var n := PrefixLen(b, IsDigit);
    if n == |b| || b[n] != '.' then Scanned(n > 0, Value(b[..n]) as real, b[n..])
    else
      var d := b[n + 1..];
      var k := PrefixLen(d, IsDigit);
      Scanned(n + k > 0, Value(b[..n]) as real + Value(d[..k]) as real / Pow10(k) as real, d[k..])
  }

  /** %f, which converts to a C float. */
  function ScanRate(s: string, f: Fields): Fields {
    var a := SkipSpace(s);
    var r := ScanFixed(Unsign(a));
    if !r.ok then f else ScanSelected(r.rest, f.(rate := ToFloat(if Negated(a) then -r.value else r.value)))
  }

  /** %d. */
  function ScanSelected(s: string, f: Fields): Fields {
    var a := SkipSpace(s);
    var b := Unsign(a);
    var n := PrefixLen(b, IsDigit);
    if n == 0 then f
    else
      var x: int := Value(b[..n]);
      f.(selected := if Negated(a) then -x else x)
  }

  // ---- scanning what was printed ----

  predicate Token(s: string) {
    s != [] && forall i :: 0 <= i < |s| ==> IsInk(s[i])
  }

  predicate StartsBlank(s: string) {
    s != [] && IsSpace(s[0])
  }

  lemma SkipOne(s: string)
    requires s != [] && IsInk(s[0])
    ensures SkipSpace(s) == s && SkipSpace(" " + s) == s
  {
    PrefixLenIs(s, 0, IsSpace);
    assert (" " + s)[1] == s[0];
    PrefixLenIs(" " + s, 1, IsSpace);
    assert (" " + s)[1..] == s;
  }

  lemma PrefixThen(s: string, rest: string, p: char -> bool)
    requires (forall i :: 0 <= i < |s| ==> p(s[i])) && (rest != [] ==> !p(rest[0]))
    ensures PrefixLen(s + rest, p) == |s| && (s + rest)[..|s|] == s && (s + rest)[|s|..] == rest
  {
    assert rest != [] ==> (s + rest)[|s|] == rest[0];
    PrefixLenIs(s + rest, |s|, p);
  }

  lemma WordReads(w: string, rest: string)
    requires Token(w) && StartsBlank(rest)
    ensures SkipSpace(" " + (w + rest)) == w + rest && SkipSpace(w + rest) == w + rest
    ensures PrefixLen(w + rest, IsInk) == |w| && (w + rest)[..|w|] == w && (w + rest)[|w|..] == rest
  {
    assert (w + rest)[0] == w[0];
    SkipOne(w + rest);
    PrefixThen(w, rest, IsInk);
  }

  lemma MinusReads(b: string)
    requires b != [] && IsDigit(b[0])
    ensures var t := "-" + b; SkipSpace(" " + t) == t && Unsign(t) == b && Negated(t)
  {
    SkipOne("-" + b);
  }

  lemma PlainReads(b: string)
    requires b != [] && IsDigit(b[0])
    ensures "" + b == b && SkipSpace(" " + b) == b && Unsign(b) == b && !Negated(b)
  {
    assert b[0] != '-' && b[0] != '+';
    SkipOne(b);
  }

  /** A plus sign is passed over too. */
  lemma PlusReads(b: string)
    requires b != [] && IsDigit(b[0])
    ensures var t := "+" + b; SkipSpace(" " + t) == t && Unsign(t) == b && !Negated(t)
  {
    SkipOne("+" + b);
  }

  /** A number begins with a digit, or with a point and a digit. */
  lemma NumberHasDigit(b: string)
    ensures ScanFixed(b).ok
       <==> b != [] && (IsDigit(b[0]) || (b[0] == '.' && |b| > 1 && IsDigit(b[1])))
  {
    if b != [] && b[0] == '.' {
      assert b[0 + 1..] == b[1..] && !IsDigit(b[0]);
    }
  }

  /** A line that ends early leaves the later locals as they were. */
  lemma ShortLineKeeps(f: Fields, sta: string)
    requires Token(sta)
    ensures ScanLine("\n", f) == f && ScanLine(sta + "\n", f) == f.(sta := sta)
  {
    NothingLeft();
    WordReads(sta, "\n");
  }

  lemma NothingLeft()
    ensures SkipSpace("\n") == "" && PrefixLen("", IsInk) == 0
  {
    PrefixLenIs("\n", 1, IsSpace);
  }

  lemma SignReads(neg: bool, b: string)
    requires b != [] && IsDigit(b[0])
    ensures var t := (if neg then "-" else "") + b;
      SkipSpace(" " + t) == t && Unsign(t) == b && (Negated(t) <==> neg)
  {
    MinusReads(b);
    PlainReads(b);
  }

  lemma IntReads(c: Channel, f: Fields)
    ensures ScanSelected(SelectedText(c), f) == f.(selected := c.selected)
  {
    var n := c.selected;
    var m: nat := if n < 0 then -n else n;
    var b := Decimal(m) + "\n";
    assert FormatInt(n) + "\n" == (if n < 0 then "-" else "") + b;
    assert b[0] == Decimal(m)[0];
    SignReads(n < 0, b);
    PrefixThen(Decimal(m), "\n", IsDigit);
    DecimalReads(m);
  }

  /** The rate that is in the file: the nearest millionth. */
  function Printed(rate: real): real {
    if rate < 0.0 then -(Micros(rate) as real / MICRO) else Micros(rate) as real / MICRO
  }

  /** The rate that comes back: the nearest float to that. */
  function Stored(rate: real): real {
    ToFloat(Printed(rate))
  }

  lemma MillionIsPow()
    ensures Pow10(6) == 1000000
  {
    assert Pow10(3) == 1000;
  }

  lemma MillionthsAdd(m: nat)
    ensures (m / 1000000) as real + (m % 1000000) as real / Pow10(6) as real == m as real / MICRO
  {
    MillionIsPow();
    var q, r := m / 1000000, m % 1000000;
    assert m == 1000000 * q + r;
    assert m as real == 1000000.0 * q as real + r as real;
  }

  lemma PointReads(q: string, d: string, rest: string)
    requires q != [] && (forall i :: 0 <= i < |q| ==> IsDigit(q[i])) && (forall i :: 0 <= i < |d| ==> IsDigit(d[i]))
    requires StartsBlank(rest)
    ensures ScanFixed(q + ("." + (d + rest)))
         == Scanned(true, Value(q) as real + Value(d) as real / Pow10(|d|) as real, rest)
  {
    var tail := "." + (d + rest);
    PrefixThen(q, tail, IsDigit);
    assert (q + tail)[|q|] == '.' && (q + tail)[|q| + 1..] == d + rest;
    PrefixThen(d, rest, IsDigit);
  }

  lemma FixedReads(m: nat, rest: string)
    requires StartsBlank(rest)
    ensures ScanFixed(Fixed(m) + rest) == Scanned(true, m as real / MICRO, rest)
  {
    var q, d := Decimal(m / 1000000), Digits(m % 1000000, 6);
    assert Fixed(m) + rest == q + ("." + (d + rest));
    PointReads(q, d, rest);
    DecimalReads(m / 1000000);
    MillionIsPow();
    DigitsRead(m % 1000000, 6);
    MillionthsAdd(m);
  }

  lemma RateScans(s: string, v: real, rest: string, f: Fields)
    requires var a := SkipSpace(s); var r := ScanFixed(Unsign(a));
             r.ok && r.rest == rest && v == if Negated(a) then -r.value else r.value
    ensures ScanRate(s, f) == ScanSelected(rest, f.(rate := ToFloat(v)))
  {}

  lemma RateReads(c: Channel, f: Fields)
    ensures ScanRate(RateText(c), f) == ScanSelected(SelectedText(c), f.(rate := Stored(c.rate)))
  {
    var v := RateTextReads(c, RateText(c), SelectedText(c));
    RateScans(RateText(c), v, SelectedText(c), f);
  }

  lemma RateParts(rate: real, m: nat, rest: string, b: string)
    requires m == Micros(rate) && b == Fixed(m) + rest
    ensures b != [] && IsDigit(b[0]) && FormatRate(rate) + rest == (if rate < 0.0 then "-" else "") + b
  {
    assert b[0] == Decimal(m / 1000000)[0];
  }

  lemma RateTextReads(c: Channel, s: string, rest: string) returns (v: real)
    requires s == RateText(c) && rest == SelectedText(c)
    ensures v == Printed(c.rate)
    ensures var a := SkipSpace(s); var r := ScanFixed(Unsign(a));
            r.ok && r.rest == rest && v == if Negated(a) then -r.value else r.value
  {
    var m := Micros(c.rate);
    var b := Fixed(m) + rest;
    RateParts(c.rate, m, rest, b);
    SignReads(c.rate < 0.0, b);
    FixedReads(m, rest);
    v := Printed(c.rate);
  }

  /** A name that sscanf reads back: no blanks, and short enough for a buffer of ten. */
  predicate Name(s: string) {
    Token(s) && |s| <= 9
  }

  predicate Named(e: Entry) {
    Name(e.sta) && Name(e.c.chan) && (Name(e.c.lcode) || e.c.lcode == "  ")
  }

  /** The fields after the line of e has been scanned. */
  function Read(e: Entry): Fields {
    Fields(e.sta, e.c.chan, Code(e.c.lcode), Stored(e.c.rate), e.c.selected)
  }

  lemma StaReads(e: Entry, f: Fields)
    requires Named(e)
    ensures ScanLine(Line(e), f) == ScanChan(ChanText(e.c), f.(sta := e.sta))
  {
    WordReads(e.sta, ChanText(e.c));
  }

  lemma ChanReads(e: Entry, f: Fields)
    requires Named(e)
    ensures ScanChan(ChanText(e.c), f) == ScanCode(CodeText(e.c), f.(chan := e.c.chan))
  {
    WordReads(e.c.chan, CodeText(e.c));
  }

  lemma CodeReads(e: Entry, f: Fields)
    requires Named(e)
    ensures ScanCode(CodeText(e.c), f) == ScanRate(RateText(e.c), f.(lcode := Code(e.c.lcode)))
  {
    WordReads(Code(e.c.lcode), RateText(e.c));
  }

  /** Scanning a printed line recovers every field, whatever the locals held before. */
  lemma LineReads(e: Entry, f: Fields)
    requires Named(e)
    ensures ScanLine(Line(e), f) == Read(e)
  {
    var f1 := f.(sta := e.sta);
    var f2 := f1.(chan := e.c.chan);
    var f3 := f2.(lcode := Code(e.c.lcode));
    StaReads(e, f);
    ChanReads(e, f1);
    CodeReads(e, f2);
    RateReads(e.c, f3);
    IntReads(e.c, f3.(rate := Stored(e.c.rate)));
  }
}
