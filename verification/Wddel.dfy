/** wddel: delete every file that the records of an index name. */
module Wddel {
  import opened CLib
  import opened Cssio
  import opened Sorting
  import opened Grouping

  /** wfdisc_cmp: directory first, then file name. */
  function WfdiscCmp(a: Wfdisc, b: Wfdisc): int {
    if StrCmp(a.dir, b.dir) == 0 then StrCmp(a.dfile, b.dfile) else StrCmp(a.dir, b.dir)
  }

  predicate AtMost(a: Wfdisc, b: Wfdisc) {
    WfdiscCmp(a, b) <= 0
  }

  predicate SamePath(a: Wfdisc, b: Wfdisc) {
    Path(a) == Path(b)
  }

  /** The comparison is a total preorder on any records, so the sort is always defined. */
  lemma CompareIsPreorder(input: seq<Wfdisc>)
    ensures PreorderOn(AtMost, multiset(input))
  {
    forall a: Wfdisc, b: Wfdisc ensures AtMost(a, b) || AtMost(b, a) {
      StrCmpAntisymmetric(a.dir, b.dir);
      StrCmpAntisymmetric(a.dfile, b.dfile);
    }
    forall a, b, c | AtMost(a, b) && AtMost(b, c) ensures AtMost(a, c) {
      StrCmpTransitive(a.dir, b.dir, c.dir);
      if a.dir == b.dir == c.dir {
        StrCmpTransitive(a.dfile, b.dfile, c.dfile);
      }
    }
  }

  /** Records are ordered by directory, and those of one directory by file name. */
  lemma DirectoryFirst(a: Wfdisc, b: Wfdisc)
    ensures a.dir != b.dir ==> (AtMost(a, b) <==> StrCmp(a.dir, b.dir) < 0)
    ensures a.dir == b.dir ==> (AtMost(a, b) <==> StrCmp(a.dfile, b.dfile) <= 0)
  {}

  // ---- gather ----

  /** The first j records, the last group of which starts at i. */
  ghost predicate Scanned(w: seq<Wfdisc>, i: nat, j: nat, before: seq<seq<Wfdisc>>)
  {
    && i < j <= |w|
    && Runs(SamePath, w[..j]) == before + [w[i..j]]
    && Path(w[j - 1]) == Path(w[i])
  }

  lemma ScanExtends(w: seq<Wfdisc>, i: nat, j: nat, before: seq<seq<Wfdisc>>)
    requires Scanned(w, i, j, before) && j < |w|
    ensures Path(w[j]) == Path(w[i]) ==> Scanned(w, i, j + 1, before)
    ensures Path(w[j]) != Path(w[i]) ==> Scanned(w, j, j + 1, before + [w[i..j]])
  {
    assert w[..j + 1] == w[..j] + [w[j]];
    SnocParts(w[..j], w[j]);
    SnocParts(before, w[i..j]);
    assert w[i..j] + [w[j]] == w[i..j + 1] && [w[j]] == w[j..j + 1];
  }

  lemma ScanStarts(w: seq<Wfdisc>)
    requires w != []
    ensures Scanned(w, 0, 1, [])
  {
    assert w[..1] == [] + [w[0]] && w[0..1] == [w[0]];
    SnocParts([], w[0]);
  }

  lemma {:induction false} RunsGrow(w: seq<Wfdisc>, j: nat)
    requires j <= |w|
    ensures |Runs(SamePath, w[..j])| <= |Runs(SamePath, w)|
    decreases |w|
  {
    if j < |w| {
      RunsGrow(Init(w), j);
      assert Init(w)[..j] == w[..j];
    } else {
      assert w[..j] == w;
    }
  }

  /** gather's first pass: count the groups. The buffer name2 starts with whatever is on the stack. */
  method CountGroups(w: seq<Wfdisc>, garbage: string) returns (count: nat)
    requires w != []
    ensures count == |Runs(SamePath, w)|
  {
    count := 0;
    var i, j, name1, name2 := 0, 1, Path(w[0]), garbage;
    ghost var before := [];
    ScanStarts(w);
    while j <= |w|
      invariant 1 <= j <= |w| + 1
      invariant j <= |w| ==> Scanned(w, i, j, before) && name1 == Path(w[i]) && count == |before|
      invariant j > |w| ==> count == |Runs(SamePath, w)|
    {
      var doit := true;
      if j < |w| {
        ScanExtends(w, i, j, before);
        name2 := Path(w[j]);
        doit := name1 != name2;
      } else {
        assert w[..j] == w;
      }
      if doit {
        count := count + 1;
        before := before + [w[i..j]];
        name1 := name2;
        i := j;
      }
      j := j + 1;
    }
  }

  /** gather: the second pass makes the same decisions and fills exactly the groups allocated after the first. */
  method Gather(w: seq<Wfdisc>, garbage: string) returns (out: array<seq<Wfdisc>>)
    requires w != []
    ensures out[..] == Runs(SamePath, w)
  {
    var n := CountGroups(w, garbage);
    out := new seq<Wfdisc>[n](_ => []);
    var count, i, j, name1, name2 := 0, 0, 1, Path(w[0]), garbage;
    ScanStarts(w);
    while j <= |w|
      invariant 1 <= j <= |w| + 1 && count <= n
      invariant j <= |w| ==> Scanned(w, i, j, out[..count]) && name1 == Path(w[i])
      invariant j > |w| ==> out[..] == Runs(SamePath, w)
    {
      var doit := true;
      if j < |w| {
        ScanExtends(w, i, j, out[..count]);
        name2 := Path(w[j]);
        doit := name1 != name2;
      } else {
        assert w[..j] == w;
      }
      if doit {
        RunsGrow(w, j);
        ghost var before := out[..count];
        out[count] := w[i..j];
        assert out[..count + 1] == before + [w[i..j]];
        count := count + 1;
        name1 := name2;
        i := j;
        assert j == |w| ==> out[..] == out[..count];
      }
      j := j + 1;
    }
  }

  // ---- unlinking ----

  ghost predicate Distinct<T>(s: seq<T>) {
    forall a, b | 0 <= a < b < |s| :: s[a] != s[b]
  }

  /** The path main builds for each group: that of its first record. */
  function GroupPaths(gs: seq<seq<Wfdisc>>): (ps: seq<string>)
    requires forall k | 0 <= k < |gs| :: gs[k] != []
    ensures |ps| == |gs| && forall k | 0 <= k < |gs| :: ps[k] == Path(gs[k][0])
  {
    if gs == [] then [] else GroupPaths(Init(gs)) + [Path(Last(gs)[0])]
  }

  function Paths(rs: seq<Wfdisc>): set<string> {
    set r | r in rs :: Path(r)
  }

  function Members(ps: seq<string>): set<string> {
    set p | p in ps
  }

  /** The unlink calls that fail: the file is not there, or an earlier call has removed it. */
  function Failures(fs: FileSystem, ps: seq<string>): seq<string> {
    if ps == [] then []
    else Failures(fs, Init(ps)) + if Last(ps) in fs && Last(ps) !in Init(ps) then [] else [Last(ps)]
  }

  lemma UnlinkStep(fs: FileSystem, ps: seq<string>, p: string)
    ensures fs - Members(ps + [p]) == (fs - Members(ps)) - {p}
    ensures p in fs - Members(ps) <==> p in fs && p !in ps
    ensures Failures(fs, ps + [p]) == Failures(fs, ps) + if p in fs - Members(ps) then [] else [p]
  {
    assert Init(ps + [p]) == ps && Last(ps + [p]) == p;
    assert Members(ps + [p]) == Members(ps) + {p};
  }

  /** One turn of main's loop. */
  method Unlink(fs: FileSystem, path: string) returns (fs': FileSystem, ok: bool)
    ensures ok <==> path in fs
    ensures fs' == fs - {path}
  {
    ok := path in fs;
    fs' := fs - {path};
  }

  /** main, from the sorted records on: unlinked lists the unlink calls in order, failed those that failed. */
  method Run(fs: FileSystem, sorted: seq<Wfdisc>, garbage: string)
    returns (fs': FileSystem, unlinked: seq<string>, failed: seq<string>, code: int)
    ensures sorted == [] ==> code == 2 && fs' == fs && unlinked == []
    ensures sorted != [] ==> code == 0 && unlinked == GroupPaths(Runs(SamePath, sorted))
    ensures fs' == fs - Members(unlinked) && failed == Failures(fs, unlinked)
  {
    fs', unlinked, failed := fs, [], [];
    if sorted == [] {
      return fs, [], [], 2;
    }
    var grp := Gather(sorted, garbage);
    fs', unlinked, failed := UnlinkGroups(fs, grp[..]);
    code := 0;
  }

  method UnlinkGroups(fs: FileSystem, grp: seq<seq<Wfdisc>>)
    returns (fs': FileSystem, unlinked: seq<string>, failed: seq<string>)
    requires forall k | 0 <= k < |grp| :: grp[k] != []
    ensures unlinked == GroupPaths(grp) && fs' == fs - Members(unlinked) && failed == Failures(fs, unlinked)
  {
    fs', unlinked, failed := fs, [], [];
    ghost var ps := GroupPaths(grp);
    var i := 0;
    while i < |grp|
      invariant 0 <= i <= |grp| && unlinked == ps[..i]
      invariant fs' == fs - Members(unlinked) && failed == Failures(fs, unlinked)
    {
      var path := Path(grp[i][0]);
      UnlinkStep(fs, unlinked, path);
      assert ps[..i + 1] == ps[..i] + [path];
      var ok: bool;
      fs', ok := Unlink(fs', path);
      if !ok {
        failed := failed + [path];
      }
      unlinked := unlinked + [path];
      i := i + 1;
    }
  }

  /** Where no path is repeated, an unlink fails only for a file that was not there to begin with. */
  lemma {:induction false} OnlyMissingFilesFail(fs: FileSystem, ps: seq<string>)
    requires Distinct(ps)
    ensures forall p :: p in Failures(fs, ps) <==> p in ps && p !in fs
  {
    if ps != [] {
      var before, p := Init(ps), Last(ps);
      assert ps == before + [p];
      OnlyMissingFilesFail(fs, before);
      assert p !in before;
    }
  }

  /** Records of one path stand together. */
  ghost predicate Contiguous(rs: seq<Wfdisc>) {
    forall i, j, k | 0 <= i < j < k < |rs| && Path(rs[i]) == Path(rs[k]) :: Path(rs[j]) == Path(rs[i])
  }

  function Start(gs: seq<seq<Wfdisc>>, k: nat): nat
    requires k <= |gs|
  {
    |Flatten(gs[..k])|
  }

  lemma StartNext(gs: seq<seq<Wfdisc>>, k: nat)
    requires k < |gs|
    ensures Start(gs, k + 1) == Start(gs, k) + |gs[k]|
  {
    assert gs[..k + 1] == gs[..k] + [gs[k]];
    FlattenSnoc(gs[..k], gs[k]);
  }

  lemma {:induction false} StartsAscend(gs: seq<seq<Wfdisc>>, a: nat, b: nat)
    requires a <= b <= |gs|
    ensures Start(gs, a) <= Start(gs, b)
    decreases b
  {
    if a < b {
      StartNext(gs, b - 1);
      StartsAscend(gs, a, b - 1);
    }
  }

  /** The group that holds the record at position p. */
  lemma {:induction false} GroupOf(gs: seq<seq<Wfdisc>>, p: nat) returns (k: nat)
    requires p < |Flatten(gs)|
    ensures k < |gs| && Start(gs, k) <= p < Start(gs, k) + |gs[k]|
    ensures Flatten(gs)[p] == gs[k][p - Start(gs, k)]
  {
    if p < |Flatten(Init(gs))| {
      k := GroupOf(Init(gs), p);
      assert Init(gs)[..k] == gs[..k];
      assert Flatten(gs)[p] == Flatten(Init(gs))[p];
    } else {
      k := |gs| - 1;
      assert gs[..k] == Init(gs);
    }
  }

  lemma {:induction false} OnePathPerGroup(g: seq<Wfdisc>, i: nat)
    requires Chain(SamePath, g) && i < |g|
    ensures Path(g[i]) == Path(g[0])
  {
    if i > 0 {
      OnePathPerGroup(g, i - 1);
      assert SamePath(g[i - 1], g[i]);
    }
  }

  lemma PathAt(rs: seq<Wfdisc>, p: nat) returns (k: nat)
    requires p < |rs|
    ensures var gs := Runs(SamePath, rs);
            k < |gs| && Start(gs, k) <= p < Start(gs, k) + |gs[k]| && Path(rs[p]) == GroupPaths(gs)[k]
  {
    var gs := Runs(SamePath, rs);
    RunsAreMaximal(SamePath, rs);
    k := GroupOf(gs, p);
    assert Chain(SamePath, gs[k]);
    OnePathPerGroup(gs[k], p - Start(gs, k));
  }

  lemma HeadAt(rs: seq<Wfdisc>, k: nat)
    requires k < |Runs(SamePath, rs)|
    ensures var gs := Runs(SamePath, rs);
            Start(gs, k) < |rs| && rs[Start(gs, k)] == gs[k][0]
  {
    RunsAreMaximal(SamePath, rs);
    FlattenAt(Runs(SamePath, rs), k);
  }

  lemma NeighbourPathsDiffer(rs: seq<Wfdisc>, k: nat)
    requires k + 1 < |Runs(SamePath, rs)|
    ensures GroupPaths(Runs(SamePath, rs))[k] != GroupPaths(Runs(SamePath, rs))[k + 1]
  {
    var gs := Runs(SamePath, rs);
    RunsAreMaximal(SamePath, rs);
    assert Chain(SamePath, gs[k]) && !SamePath(Last(gs[k]), gs[k + 1][0]);
    OnePathPerGroup(gs[k], |gs[k]| - 1);
  }

  lemma {:induction false} DistinctMeansBetween(rs: seq<Wfdisc>, i: nat, j: nat, k: nat)
    requires Distinct(GroupPaths(Runs(SamePath, rs)))
    requires i < j < k < |rs| && Path(rs[i]) == Path(rs[k])
    ensures Path(rs[j]) == Path(rs[i])
  {
    var gs := Runs(SamePath, rs);
    var a := PathAt(rs, i);
    var b := PathAt(rs, j);
    var c := PathAt(rs, k);
    assert a == c;
    GroupsInOrder(gs, a, i, b, j);
    GroupsInOrder(gs, b, j, c, k);
  }

  lemma ContiguousMeansDistinct(rs: seq<Wfdisc>, a: nat, b: nat)
    requires Contiguous(rs) && a < b < |Runs(SamePath, rs)|
    ensures GroupPaths(Runs(SamePath, rs))[a] != GroupPaths(Runs(SamePath, rs))[b]
  {
    var gs := Runs(SamePath, rs);
    NeighbourPathsDiffer(rs, a);
    HeadAt(rs, a);
    HeadAt(rs, a + 1);
    HeadAt(rs, b);
    StartNext(gs, a);
    StartsAscend(gs, a + 1, b);
  }

  /** Repeated group paths are exactly a matter of equal paths standing apart. */
  lemma DistinctIffContiguous(rs: seq<Wfdisc>)
    ensures Distinct(GroupPaths(Runs(SamePath, rs))) <==> Contiguous(rs)
  {
    var ps := GroupPaths(Runs(SamePath, rs));
    if Distinct(ps) {
      forall i, j, k | 0 <= i < j < k < |rs| && Path(rs[i]) == Path(rs[k]) ensures Path(rs[j]) == Path(rs[i]) {
        DistinctMeansBetween(rs, i, j, k);
      }
    }
    if Contiguous(rs) {
      forall a, b | 0 <= a < b < |ps| ensures ps[a] != ps[b] {
        ContiguousMeansDistinct(rs, a, b);
      }
    }
  }

  lemma GroupsInOrder(gs: seq<seq<Wfdisc>>, a: nat, p: nat, b: nat, q: nat)
    requires a < |gs| && b < |gs| && p < q
    requires Start(gs, a) <= p && q < Start(gs, b) + |gs[b]|
    ensures a <= b
  {
    if b < a {
      StartNext(gs, b);
      StartsAscend(gs, b + 1, a);
    }
  }

  ghost predicate SlashFree(rs: seq<Wfdisc>) {
    forall i | 0 <= i < |rs| :: '/' !in rs[i].dfile
  }

  /** With no slash in the file names a path determines directory and file. */
  lemma PathDetermines(a: Wfdisc, b: Wfdisc)
    requires '/' !in a.dfile && '/' !in b.dfile && Path(a) == Path(b)
    ensures a.dir == b.dir && a.dfile == b.dfile
  {
    var p := Path(a);
    assert p[|a.dir|] == '/' && p[|b.dir|] == '/';
    assert forall i | |a.dir| < i < |p| :: p[i] == a.dfile[i - |a.dir| - 1];
    assert forall i | |b.dir| < i < |p| :: p[i] == b.dfile[i - |b.dir| - 1];
    assert |a.dir| == |b.dir|;
    assert a.dir == p[..|a.dir|] && b.dir == p[..|b.dir|];
    assert a.dfile == p[|a.dir| + 1..] && b.dfile == p[|b.dir| + 1..];
  }

  /** On a sorted index with slash-free file names, each file named is unlinked, and exactly once. */
  lemma EachFileUnlinkedOnce(sorted: seq<Wfdisc>)
    requires SortedBy(AtMost, sorted) && SlashFree(sorted)
    ensures var ps := GroupPaths(Runs(SamePath, sorted));
            Distinct(ps) && Members(ps) == Paths(sorted)
  {
    forall i, j, k | 0 <= i < j < k < |sorted| && Path(sorted[i]) == Path(sorted[k])
      ensures Path(sorted[j]) == Path(sorted[i])
    {
      PathDetermines(sorted[i], sorted[k]);
      assert AtMost(sorted[i], sorted[j]) && AtMost(sorted[j], sorted[k]);
      StrCmpAntisymmetric(sorted[i].dir, sorted[j].dir);
      StrCmpAntisymmetric(sorted[i].dfile, sorted[j].dfile);
    }
    DistinctIffContiguous(sorted);
    GroupPathsCover(sorted);
  }

  lemma GroupPathsCover(rs: seq<Wfdisc>)
    ensures Members(GroupPaths(Runs(SamePath, rs))) == Paths(rs)
  {
    var ps := GroupPaths(Runs(SamePath, rs));
    forall p | p in ps ensures p in Paths(rs) {
      var k :| 0 <= k < |ps| && ps[k] == p;
      HeadAt(rs, k);
      assert rs[Start(Runs(SamePath, rs), k)] in rs;
    }
    forall p | p in Paths(rs) ensures p in ps {
      var i :| 0 <= i < |rs| && Path(rs[i]) == p;
      var k := PathAt(rs, i);
    }
  }

  /** A slash in a file name can make wddel unlink one file twice: the sort separates two spellings of a/b/c. */
  lemma SlashUnlinksTwice(r: Wfdisc)
    ensures var rs := [r.(dir := "a", dfile := "b/c"), r.(dir := "a", dfile := "x"), r.(dir := "a/b", dfile := "c")];
            SortedBy(AtMost, rs) && !Distinct(GroupPaths(Runs(SamePath, rs)))
  {
    var rs := [r.(dir := "a", dfile := "b/c"), r.(dir := "a", dfile := "x"), r.(dir := "a/b", dfile := "c")];
    assert Path(rs[0]) == "a/b/c" && Path(rs[2]) == "a/b/c" && Path(rs[1]) == "a/x";
    assert "a"[1..] == "" && "a/b"[1..] == "/b";
    DistinctIffContiguous(rs);
  }
}
