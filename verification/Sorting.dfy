/** What a call of qsort delivers, for any comparison that is a total preorder on the records. */
module Sorting {

  ghost predicate SortedBy<T(!new)>(le: (T, T) -> bool, s: seq<T>) {
    forall i, j | 0 <= i < j < |s| :: le(s[i], s[j])
  }

  ghost predicate PreorderOn<T(!new)>(le: (T, T) -> bool, m: multiset<T>) {
    && (forall a, b | a in m && b in m :: le(a, b) || le(b, a))
    && (forall a, b, c | a in m && b in m && c in m && le(a, b) && le(b, c) :: le(a, c))
  }

  ghost predicate IsSortOf<T(!new)>(le: (T, T) -> bool, s: seq<T>, input: seq<T>) {
    multiset(s) == multiset(input) && SortedBy(le, s)
  }

  ghost predicate Ties<T(!new)>(le: (T, T) -> bool, a: T, b: T) {
    le(a, b) && le(b, a)
  }

  /** s with x put in at position p. */
  function With<T>(s: seq<T>, p: nat, x: T): seq<T>
    requires p <= |s|
  {
    s[..p] + [x] + s[p..]
  }

  lemma WithIsSorted<T(!new)>(le: (T, T) -> bool, s: seq<T>, p: nat, x: T)
    requires p <= |s| && SortedBy(le, s)
    requires (forall i | 0 <= i < p :: le(s[i], x)) && (forall i | p <= i < |s| :: le(x, s[i]))
    ensures SortedBy(le, With(s, p, x))
  {
    var r := With(s, p, x);
    forall i, j | 0 <= i < j < |r| ensures le(r[i], r[j]) {
      if i != p && j != p {
        assert le(s[if i < p then i else i - 1], s[if j < p then j else j - 1]);
      }
    }
  }

  /** Where x belongs: everything before it is at most x, everything from there on at least x. */
  lemma FindPlace<T(!new)>(le: (T, T) -> bool, s: seq<T>, x: T) returns (p: nat)
    requires forall i | 0 <= i < |s| :: le(s[i], x) || le(x, s[i])
    requires forall i, j | 0 <= i < j < |s| :: le(x, s[i]) ==> le(x, s[j])
    ensures p <= |s|
    ensures (forall i | 0 <= i < p :: le(s[i], x)) && (forall i | p <= i < |s| :: le(x, s[i]))
  {
    p := 0;
    while p < |s| && le(s[p], x)
      invariant 0 <= p <= |s|
      invariant forall i | 0 <= i < p :: le(s[i], x)
    {
      p := p + 1;
    }
  }

  lemma PlaceHead<T(!new)>(le: (T, T) -> bool, input: seq<T>, rest: seq<T>) returns (s: seq<T>)
    requires input != [] && PreorderOn(le, multiset(input)) && IsSortOf(le, rest, input[1..])
    ensures IsSortOf(le, s, input)
  {
    var x := input[0];
    assert input == [x] + input[1..];
    assert multiset(input) == multiset(rest) + multiset{x};
    assert forall i | 0 <= i < |rest| :: rest[i] in multiset(rest);
    var p := FindPlace(le, rest, x);
    WithIsSorted(le, rest, p, x);
    s := With(rest, p, x);
    assert rest == rest[..p] + rest[p..];
  }

  lemma {:induction false} SortExists<T(!new)>(le: (T, T) -> bool, input: seq<T>) returns (s: seq<T>)
    requires PreorderOn(le, multiset(input))
    ensures IsSortOf(le, s, input)
  {
    if input == [] {
      s := [];
    } else {
      assert input == [input[0]] + input[1..];
      var rest := SortExists(le, input[1..]);
      s := PlaceHead(le, input, rest);
    }
  }

  /** q with position j taken out. */
  function Without<T>(q: seq<T>, j: nat): seq<T>
    requires j < |q|
  {
    q[..j] + q[j + 1..]
  }

  lemma WithoutLosesOne<T>(q: seq<T>, j: nat)
    requires j < |q|
    ensures multiset(Without(q, j)) == multiset(q) - multiset{q[j]}
  {
    assert q == q[..j] + [q[j]] + q[j + 1..];
  }

  lemma WithoutFacts<T(!new)>(le: (T, T) -> bool, q: seq<T>, j: nat)
    requires j < |q| && SortedBy(le, q)
    ensures SortedBy(le, Without(q, j))
    ensures multiset(Without(q, j)) == multiset(q) - multiset{q[j]}
  {
    WithoutLosesOne(q, j);
  }

  /** Two sorts of one input. */
  ghost predicate SortPair<T(!new)>(le: (T, T) -> bool, p: seq<T>, q: seq<T>) {
    PreorderOn(le, multiset(p)) && SortedBy(le, p) && SortedBy(le, q) && multiset(p) == multiset(q)
  }

  /** Everything a sort puts before an occurrence of the least element ties with it. */
  lemma HeadTies<T(!new)>(le: (T, T) -> bool, p: seq<T>, q: seq<T>, j: nat, i: nat)
    requires SortPair(le, p, q) && i <= j < |q| && p != [] && q[j] == p[0]
    ensures Ties(le, p[0], q[i])
  {
    assert q[i] in multiset(p);
    var i' :| 0 <= i' < |p| && p[i'] == q[i];
    assert le(p[0], p[0]) || i' > 0;
  }

  /** Two sorts of one input agree position by position, up to ties. */
  lemma {:induction false} SortIsUnique<T(!new)>(le: (T, T) -> bool, p: seq<T>, q: seq<T>, k: nat)
    requires SortPair(le, p, q) && k < |p|
    ensures |p| == |q| && Ties(le, p[k], q[k])
    decreases |p|
  {
    var j, p', q' := Shrink(le, p, q);
    if k == 0 {
      HeadTies(le, p, q, j, 0);
    } else {
      SortIsUnique(le, p', q', k - 1);
      StepAgrees(le, p, q, j, k, p', q');
    }
  }

  lemma FindHead<T>(p: seq<T>, q: seq<T>) returns (j: nat)
    requires multiset(p) == multiset(q) && p != []
    ensures |p| == |q| && j < |q| && q[j] == p[0]
  {
    assert |p| == |multiset(p)| == |multiset(q)| == |q|;
    assert p[0] in multiset(q);
    j :| 0 <= j < |q| && q[j] == p[0];
  }

  lemma StepAgrees<T(!new)>(le: (T, T) -> bool, p: seq<T>, q: seq<T>, j: nat, k: nat, p': seq<T>, q': seq<T>)
    requires SortPair(le, p, q) && |p| == |q| && j < |q| && q[j] == p[0] && 0 < k < |p|
    requires p' == Without(p, 0) && q' == Without(q, j) && Ties(le, p'[k - 1], q'[k - 1])
    ensures Ties(le, p[k], q[k])
  {
    if k <= j {
      HeadTies(le, p, q, j, k - 1);
      HeadTies(le, p, q, j, k);
      assert p[k] in multiset(p) && q[k] in multiset(q) && q[k - 1] in multiset(q);
      TiesOfTies(le, multiset(p), p[k], q[k - 1], p[0], q[k]);
    }
  }

  /** Without the least element they are two sorts again. */
  lemma Shrink<T(!new)>(le: (T, T) -> bool, p: seq<T>, q: seq<T>) returns (j: nat, p': seq<T>, q': seq<T>)
    requires SortPair(le, p, q) && p != []
    ensures |p| == |q| && j < |q| && q[j] == p[0] && p' == Without(p, 0) && q' == Without(q, j)
    ensures SortPair(le, p', q') && |p'| == |p| - 1
  {
    j := FindHead(p, q);
    p', q' := Without(p, 0), Without(q, j);
    WithoutFacts(le, p, 0);
    WithoutFacts(le, q, j);
  }

  lemma TiesOfTies<T(!new)>(le: (T, T) -> bool, m: multiset<T>, a: T, b: T, head: T, c: T)
    requires PreorderOn(le, m) && a in m && b in m && head in m && c in m
    requires Ties(le, a, b) && Ties(le, head, b) && Ties(le, head, c)
    ensures Ties(le, a, c)
  {
    assert Ties(le, a, head);
  }

  /** s with positions i and j exchanged. */
  function Swapped<T>(s: seq<T>, i: nat, j: nat): (r: seq<T>)
    requires i < j < |s|
    ensures |r| == |s|
  {
    s[i := s[j]][j := s[i]]
  }

  lemma SwappedIsPermutation<T>(s: seq<T>, i: nat, j: nat)
    requires i < j < |s|
    ensures multiset(Swapped(s, i, j)) == multiset(s)
  {
    var r := Swapped(s, i, j);
    var a, b, c := s[..i], s[i + 1..j], s[j + 1..];
    assert s == a + [s[i]] + b + [s[j]] + c;
    assert r == a + [s[j]] + b + [s[i]] + c;
  }

  /** Exchanging two elements that tie leaves a sorted sequence sorted. */
  lemma SwappedTiesAreSorted<T(!new)>(le: (T, T) -> bool, s: seq<T>, i: nat, j: nat)
    requires PreorderOn(le, multiset(s)) && SortedBy(le, s) && i < j < |s| && Ties(le, s[i], s[j])
    ensures IsSortOf(le, Swapped(s, i, j), s)
  {
    SwappedIsPermutation(s, i, j);
    var r := Swapped(s, i, j);
    forall p, q | 0 <= p < q < |r| ensures le(r[p], r[q]) {
      SwappedPair(le, s, i, j, p, q);
    }
  }

  lemma SwappedPair<T(!new)>(le: (T, T) -> bool, s: seq<T>, i: nat, j: nat, p: nat, q: nat)
    requires PreorderOn(le, multiset(s)) && SortedBy(le, s) && i < j < |s| && Ties(le, s[i], s[j]) && p < q < |s|
    ensures le(Swapped(s, i, j)[p], Swapped(s, i, j)[q])
  {
    assert s[i] in multiset(s) && s[j] in multiset(s) && s[p] in multiset(s) && s[q] in multiset(s);
    assert le(s[p], s[q]);
    var x, y := Swapped(s, i, j)[p], Swapped(s, i, j)[q];
    assert le(x, s[p]) && le(s[q], y);
    assert le(x, s[q]);
  }
}
