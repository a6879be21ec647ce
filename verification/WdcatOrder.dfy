/** The record order of wdcat: wdcompare against the (sta, chan, time) order it stands for. */
module WdcatOrder {
  import opened CLib
  import opened Cssio
  import opened Sorting

  /** wdcompare: the double difference of the times is returned as an int. */
  function WdCompare(a: Wfdisc, b: Wfdisc): int {
    if StrCmp(a.sta, b.sta) != 0 then StrCmp(a.sta, b.sta)
    else if StrCmp(a.chan, b.chan) != 0 then StrCmp(a.chan, b.chan)
    else CToInt(a.time - b.time)
  }

  function Sign(x: int): int {
    if x < 0 then -1 else if x > 0 then 1 else 0
  }

  /** The intended order: lexicographic on (sta, chan, time). */
  function LexSign(a: Wfdisc, b: Wfdisc): int {
    if a.sta != b.sta then StrCmp(a.sta, b.sta)
    else if a.chan != b.chan then StrCmp(a.chan, b.chan)
    else if a.time < b.time then -1
    else if a.time > b.time then 1
    else 0
  }

  predicate SameChannel(a: Wfdisc, b: Wfdisc) {
    a.sta == b.sta && a.chan == b.chan
  }

  predicate Apart(a: Wfdisc, b: Wfdisc) {
    SameChannel(a, b) ==> a.time == b.time || Abs(a.time - b.time) >= 1.0
  }

  /** Times on one channel are equal or at least one second apart. */
  ghost predicate Spaced(rs: seq<Wfdisc>) {
    forall i, j | 0 <= i < |rs| && 0 <= j < |rs| :: Apart(rs[i], rs[j])
  }

  ghost predicate AgreesWithLex(rs: seq<Wfdisc>) {
    forall i, j | 0 <= i < |rs| && 0 <= j < |rs| :: Sign(WdCompare(rs[i], rs[j])) == LexSign(rs[i], rs[j])
  }

  /** The comparison as qsort uses it. */
  predicate AtMost(a: Wfdisc, b: Wfdisc) {
    WdCompare(a, b) <= 0
  }

  lemma CompareMeetsLex(a: Wfdisc, b: Wfdisc)
    ensures Sign(WdCompare(a, b)) == LexSign(a, b) <==> Apart(a, b)
  {
  }

  /** The comparison is the lexicographic one on exactly the record sets that are spaced. */
  lemma CompareIsLexIffSpaced(rs: seq<Wfdisc>)
    ensures AgreesWithLex(rs) <==> Spaced(rs)
  {
    forall i, j | 0 <= i < |rs| && 0 <= j < |rs|
      ensures Sign(WdCompare(rs[i], rs[j])) == LexSign(rs[i], rs[j]) <==> Apart(rs[i], rs[j])
    {
      CompareMeetsLex(rs[i], rs[j]);
    }
  }

  lemma LexIsPreorder(a: Wfdisc, b: Wfdisc, c: Wfdisc)
    ensures LexSign(a, b) == -LexSign(b, a)
    ensures LexSign(a, b) <= 0 && LexSign(b, c) <= 0 ==> LexSign(a, c) <= 0
  {
    StrCmpAntisymmetric(a.sta, b.sta);
    StrCmpAntisymmetric(a.chan, b.chan);
    if LexSign(a, b) <= 0 && LexSign(b, c) <= 0 {
      StrCmpTransitive(a.sta, b.sta, c.sta);
      if a.sta == b.sta == c.sta {
        StrCmpTransitive(a.chan, b.chan, c.chan);
      }
    }
  }

  /** b is not a second or more before a, on one channel. */
  predicate Near(a: Wfdisc, b: Wfdisc) {
    SameChannel(a, b) && a.time - b.time < 1.0
  }

  /** On each channel, starting less than a second after another record carries over from record to record. */
  ghost predicate NearnessChains(rs: seq<Wfdisc>) {
    forall a, b, c | a in rs && b in rs && c in rs && Near(a, b) && Near(b, c) :: Near(a, c)
  }

  /** The comparison looks at station and channel first, and at the times only to within a second. */
  lemma AtMostIs(a: Wfdisc, b: Wfdisc)
    ensures AtMost(a, b) <==> if a.sta != b.sta then StrCmp(a.sta, b.sta) < 0
                              else if a.chan != b.chan then StrCmp(a.chan, b.chan) < 0
                              else Near(a, b)
  {}

  lemma AtMostIsTotal(a: Wfdisc, b: Wfdisc)
    ensures AtMost(a, b) || AtMost(b, a)
  {
    AtMostIs(a, b);
    AtMostIs(b, a);
    StrCmpAntisymmetric(a.sta, b.sta);
    StrCmpAntisymmetric(a.chan, b.chan);
  }

  /** Only on one channel can the comparison fail to be transitive. */
  lemma AtMostChains(a: Wfdisc, b: Wfdisc, c: Wfdisc)
    requires AtMost(a, b) && AtMost(b, c) && (Near(a, b) && Near(b, c) ==> Near(a, c))
    ensures AtMost(a, c)
  {
    AtMostIs(a, b);
    AtMostIs(b, c);
    AtMostIs(a, c);
    StrCmpTransitive(a.sta, b.sta, c.sta);
    if a.sta == b.sta == c.sta {
      StrCmpTransitive(a.chan, b.chan, c.chan);
    }
  }

  lemma PreorderMeansChains(rs: seq<Wfdisc>)
    requires PreorderOn(AtMost, multiset(rs))
    ensures NearnessChains(rs)
  {
    forall a, b, c | a in rs && b in rs && c in rs && Near(a, b) && Near(b, c) ensures Near(a, c) {
      assert a in multiset(rs) && b in multiset(rs) && c in multiset(rs);
      AtMostIs(a, b);
      AtMostIs(b, c);
      AtMostIs(a, c);
    }
  }

  lemma ChainsMeanPreorder(rs: seq<Wfdisc>)
    requires NearnessChains(rs)
    ensures PreorderOn(AtMost, multiset(rs))
  {
    forall a, b | a in rs && b in rs ensures AtMost(a, b) || AtMost(b, a) {
      AtMostIsTotal(a, b);
    }
    forall a, b, c | a in rs && b in rs && c in rs && AtMost(a, b) && AtMost(b, c) ensures AtMost(a, c) {
      AtMostChains(a, b, c);
    }
  }

  /** The comparison is a total preorder on an index, so that the result of qsort is defined, if and only if on each
      channel being less than a second late chains. */
  lemma CompareIsPreorderIff(rs: seq<Wfdisc>)
    ensures PreorderOn(AtMost, multiset(rs)) <==> NearnessChains(rs)
  {
    if PreorderOn(AtMost, multiset(rs)) {
      PreorderMeansChains(rs);
    }
    if NearnessChains(rs) {
      ChainsMeanPreorder(rs);
    }
  }

  /** A spaced index is one of these. */
  lemma CompareIsPreorder(rs: seq<Wfdisc>)
    requires Spaced(rs)
    ensures PreorderOn(AtMost, multiset(rs))
  {
    forall a, b, c | a in rs && b in rs && c in rs && Near(a, b) && Near(b, c) ensures Near(a, c) {
      SpacedMembers(rs, a, b);
      SpacedMembers(rs, b, c);
    }
    ChainsMeanPreorder(rs);
  }

  /** One that is not spaced: two records half a second apart. */
  lemma HalfSecondIsPreorder(r: Wfdisc)
    ensures var rs := [r.(time := 0.0), r.(time := 0.5)];
            PreorderOn(AtMost, multiset(rs)) && !Spaced(rs)
  {
    var rs := [r.(time := 0.0), r.(time := 0.5)];
    assert forall a | a in rs :: a.time == 0.0 || a.time == 0.5;
    ChainsMeanPreorder(rs);
    assert !Apart(rs[0], rs[1]);
  }

  lemma SpacedMembers(rs: seq<Wfdisc>, a: Wfdisc, b: Wfdisc)
    requires Spaced(rs) && a in multiset(rs) && b in multiset(rs)
    ensures Apart(a, b)
    ensures Sign(WdCompare(a, b)) == LexSign(a, b) && Sign(WdCompare(b, a)) == LexSign(b, a)
  {
    var i :| 0 <= i < |rs| && rs[i] == a;
    var j :| 0 <= j < |rs| && rs[j] == b;
    assert Apart(rs[i], rs[j]) && Apart(rs[j], rs[i]);
    CompareMeetsLex(a, b);
    CompareMeetsLex(b, a);
  }

  /** Without the spacing it is not even transitive: three records 0.6 s apart compare equal in
      neighbouring pairs, but the last sorts after the first. */
  lemma CompareIsNotTransitive(r: Wfdisc)
    ensures var a, b, c := r.(time := 0.0), r.(time := 0.6), r.(time := 1.2);
            WdCompare(c, b) == 0 && WdCompare(b, a) == 0 && WdCompare(c, a) > 0
  {
    assert CToInt(1.2) == 1;
  }

  /** Sorting keeps each channel in one piece, in time order. */
  lemma SortGroupsChannels(rs: seq<Wfdisc>, input: seq<Wfdisc>, i: nat, j: nat, k: nat)
    requires Spaced(input) && IsSortOf(AtMost, rs, input)
    requires i < j < k < |rs| && SameChannel(rs[i], rs[k])
    ensures SameChannel(rs[i], rs[j]) && rs[i].time <= rs[j].time <= rs[k].time
  {
    assert rs[i] in multiset(input) && rs[j] in multiset(input) && rs[k] in multiset(input);
    assert AtMost(rs[i], rs[j]) && AtMost(rs[j], rs[k]);
    SpacedMembers(input, rs[i], rs[j]);
    SpacedMembers(input, rs[j], rs[k]);
    LexIsPreorder(rs[j], rs[k], rs[i]);
    StrCmpAntisymmetric(rs[j].chan, rs[k].chan);
    StrCmpAntisymmetric(rs[j].sta, rs[k].sta);
  }

  predicate AgreeUpToTies(p: seq<Wfdisc>, q: seq<Wfdisc>) {
    |p| == |q| && forall k | 0 <= k < |p| :: SameChannel(p[k], q[k]) && p[k].time == q[k].time
  }

  lemma TieIsSameKey(input: seq<Wfdisc>, a: Wfdisc, b: Wfdisc)
    requires Spaced(input) && a in multiset(input) && b in multiset(input) && Ties(AtMost, a, b)
    ensures SameChannel(a, b) && a.time == b.time
  {
    SpacedMembers(input, a, b);
    LexIsPreorder(a, b, b);
  }

  /** Any two sorts of a spaced input agree record by record, up to records of one channel at one time. */
  lemma SortsAgree(input: seq<Wfdisc>, p: seq<Wfdisc>, q: seq<Wfdisc>)
    requires Spaced(input) && IsSortOf(AtMost, p, input) && IsSortOf(AtMost, q, input)
    ensures AgreeUpToTies(p, q)
  {
    assert |p| == |multiset(p)| == |multiset(q)| == |q|;
    forall k | 0 <= k < |p| ensures SameChannel(p[k], q[k]) && p[k].time == q[k].time {
      assert Ties(AtMost, p[k], q[k]) by {
        CompareIsPreorder(input);
        SortIsUnique(AtMost, p, q, k);
      }
      assert p[k] in multiset(p) && q[k] in multiset(q);
      TieIsSameKey(input, p[k], q[k]);
    }
  }

  /** Every input on which the comparison is a preorder has a sort. */
  lemma SortIsDefined(input: seq<Wfdisc>)
    requires NearnessChains(input)
    ensures exists s: seq<Wfdisc> :: IsSortOf(AtMost, s, input)
  {
    ChainsMeanPreorder(input);
    var s := SortExists(AtMost, input);
  }
}
