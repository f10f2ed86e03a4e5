/**
 * `get_unique_windows_processes` (activity/utils.py): the process snapshot
 * provider. The OS enumeration is an input sequence; what the function
 * does with it — drop the processes whose executable cannot be read, keep
 * the first process per executable path — is modelled loop by loop.
 */
module Snapshot {
  import opened Wrappers

  /**
   * One enumerated process: whether calling `exe()` on it succeeds, and
   * the `exe` entry its `info` holds (`None` when it could not be read).
   */
  datatype OsProcess = OsProcess(pid: int, name: string, exeReadable: bool, exeInfo: Option<string>)

  function PathOf(p: OsProcess): string {
    if p.exeInfo.Some? then p.exeInfo.value else ""
  }

  /** Kept by the dictionary loop: readable, with a non-empty path. */
  predicate Eligible(p: OsProcess) {
    p.exeReadable && PathOf(p) != ""
  }

  function Paths(ps: seq<OsProcess>): set<string> {
    set i | 0 <= i < |ps| :: PathOf(ps[i])
  }

  /** The processes left in `processes` by the removal loop (lines 10-14). */
  function Readable(ps: seq<OsProcess>): (r: seq<OsProcess>)
  {
    if ps == [] then []
    else Readable(ps[..|ps| - 1]) + (if ps[|ps| - 1].exeReadable then [ps[|ps| - 1]] else [])
  }

  /** The dictionary's values in insertion order (lines 17-24). */
  function FirstPerPath(ps: seq<OsProcess>): (r: seq<OsProcess>)
    ensures forall i :: 0 <= i < |r| ==> PathOf(r[i]) != "" && r[i] in ps
  {
    if ps == [] then []
    else
      var r := FirstPerPath(ps[..|ps| - 1]);
      var p := ps[|ps| - 1];
      if PathOf(p) != "" && PathOf(p) !in Paths(r) then r + [p] else r
  }

  /** The specification of the whole function: both stages in one filter. */
  function Unique(ps: seq<OsProcess>): (r: seq<OsProcess>)
  {
    if ps == [] then []
    else
      var r := Unique(ps[..|ps| - 1]);
      var p := ps[|ps| - 1];
      if Eligible(p) && PathOf(p) !in Paths(r) then r + [p] else r
  }

  /** Python's `list.remove(x)`: drops the first element equal to `x`. */
  function RemoveFirst(xs: seq<OsProcess>, x: OsProcess): (r: seq<OsProcess>)
    requires x in xs
    ensures |r| == |xs| - 1
  {
    if xs[0] == x then xs[1..] else [xs[0]] + RemoveFirst(xs[1..], x)
  }

  lemma {:induction false} RemoveFirstAfter(a: seq<OsProcess>, x: OsProcess, b: seq<OsProcess>)
    requires x !in a
    ensures RemoveFirst(a + [x] + b, x) == a + b
  {
    if a != [] {
      assert (a + [x] + b)[1..] == a[1..] + [x] + b;
      RemoveFirstAfter(a[1..], x, b);
    }
  }

  lemma {:induction false} ReadableOnly(ps: seq<OsProcess>)
    ensures forall i :: 0 <= i < |Readable(ps)| ==> Readable(ps)[i].exeReadable
  {
    if ps != [] {
      ReadableOnly(ps[..|ps| - 1]);
    }
  }

  lemma PathsAppend(r: seq<OsProcess>, p: OsProcess)
    ensures Paths(r + [p]) == Paths(r) + {PathOf(p)}
  {
    var s := r + [p];
    forall x | x in Paths(s) ensures x in Paths(r) + {PathOf(p)} {
      var i :| 0 <= i < |s| && PathOf(s[i]) == x;
      if i < |r| { assert s[i] == r[i]; }
    }
    forall x | x in Paths(r) ensures x in Paths(s) {
      var i :| 0 <= i < |r| && PathOf(r[i]) == x;
      assert s[i] == r[i];
    }
    assert PathOf(s[|r|]) == PathOf(p);
  }

  /** The two stages of the source together are the single filter `Unique`. */
  lemma {:induction false} StagesAreUnique(ps: seq<OsProcess>)
    ensures FirstPerPath(Readable(ps)) == Unique(ps)
  {
    if ps != [] {
      var init, p := ps[..|ps| - 1], ps[|ps| - 1];
      StagesAreUnique(init);
      if p.exeReadable {
        var rd := Readable(ps);
        assert rd == Readable(init) + [p];
        assert rd[..|rd| - 1] == Readable(init);
        assert rd[|rd| - 1] == p;
        assert FirstPerPath(rd) == (if PathOf(p) != "" && PathOf(p) !in Paths(Unique(init))
          then Unique(init) + [p] else Unique(init));
      } else {
        assert Readable(ps) == Readable(init);
      }
    }
  }

  /** One pass of the removal loop keeps it on track with `Readable`. */
  lemma DropStep(all: seq<OsProcess>, i: nat, processes: seq<OsProcess>)
    requires i < |all| && processes == Readable(all[..i]) + all[i..]
    ensures !all[i].exeReadable ==>
      all[i] in processes && RemoveFirst(processes, all[i]) == Readable(all[..i + 1]) + all[i + 1..]
    ensures all[i].exeReadable ==> processes == Readable(all[..i + 1]) + all[i + 1..]
  {
    var pre, rest := Readable(all[..i]), all[i + 1..];
    assert all[..i + 1][..i] == all[..i];
    assert Readable(all[..i + 1]) == pre + (if all[i].exeReadable then [all[i]] else []);
    assert processes == pre + [all[i]] + rest;
    if !all[i].exeReadable {
      ReadableOnly(all[..i]);
      RemoveFirstAfter(pre, all[i], rest);
    }
  }

  /** The first loop: `processes.remove(proc)` for every unreadable `proc`. */
  method DropUnreadable(all: seq<OsProcess>) returns (processes: seq<OsProcess>)
    ensures processes == Readable(all)
  {
    processes := all;
    for i := 0 to |all|
      invariant processes == Readable(all[..i]) + all[i..]
    {
      DropStep(all, i, processes);
      if !all[i].exeReadable {
        processes := RemoveFirst(processes, all[i]);
      }
    }
    assert all[..|all|] == all;
  }

  /**
   * The second loop: a dictionary from path to the first process with it;
   * `order` is the dictionary's insertion order.
   */
  method IndexByPath(processes: seq<OsProcess>) returns (exes: map<string, OsProcess>, order: seq<string>)
    ensures |order| == |FirstPerPath(processes)|
    ensures forall j :: 0 <= j < |order| ==> order[j] in exes && exes[order[j]] == FirstPerPath(processes)[j]
  {
    exes := map[];
    order := [];
    for i := 0 to |processes|
      invariant |order| == |FirstPerPath(processes[..i])|
      invariant forall j :: 0 <= j < |order| ==> order[j] == PathOf(FirstPerPath(processes[..i])[j])
      invariant exes.Keys == Paths(FirstPerPath(processes[..i]))
      invariant forall j :: 0 <= j < |order| ==> exes[order[j]] == FirstPerPath(processes[..i])[j]
    {
      var p := processes[i];
      assert processes[..i + 1][..i] == processes[..i];
      var path := PathOf(p);
      if path != "" && path !in exes {
        PathsAppend(FirstPerPath(processes[..i]), p);
        exes := exes[path := p];
        order := order + [path];
      }
    }
    assert processes[..|processes|] == processes;
  }

  /** The source's three loops: `list(exes.values())` of the two stages. */
  method GetUniqueProcesses(all: seq<OsProcess>) returns (r: seq<OsProcess>)
    ensures r == Unique(all)
  {
    var processes := DropUnreadable(all);
    var exes, order := IndexByPath(processes);
    r := [];
    for j := 0 to |order|
      invariant r == FirstPerPath(processes)[..j]
    {
      r := r + [exes[order[j]]];
    }
    StagesAreUnique(all);
  }

  /** Everything returned could be read and has a non-empty path. */
  lemma {:induction false} UniqueEligible(ps: seq<OsProcess>)
    ensures forall i :: 0 <= i < |Unique(ps)| ==> Eligible(Unique(ps)[i]) && Unique(ps)[i] in ps
  {
    if ps != [] {
      UniqueEligible(ps[..|ps| - 1]);
    }
  }

  /** No two returned processes share a path. */
  lemma {:induction false} UniqueDistinctPaths(ps: seq<OsProcess>)
    ensures forall i, j :: 0 <= i < j < |Unique(ps)| ==> PathOf(Unique(ps)[i]) != PathOf(Unique(ps)[j])
  {
    if ps != [] {
      var init := ps[..|ps| - 1];
      UniqueDistinctPaths(init);
      var r := Unique(init);
      assert forall i :: 0 <= i < |r| ==> PathOf(r[i]) in Paths(r);
    }
  }

  /** `a` is `b` with some elements left out, order kept. */
  predicate IsSubsequence(a: seq<OsProcess>, b: seq<OsProcess>)
    decreases |b|
  {
    a == [] || (b != [] &&
      ((a[|a| - 1] == b[|b| - 1] && IsSubsequence(a[..|a| - 1], b[..|b| - 1]))
       || IsSubsequence(a, b[..|b| - 1])))
  }

  lemma {:induction false} SubsequenceShorter(a: seq<OsProcess>, b: seq<OsProcess>)
    requires IsSubsequence(a, b)
    ensures |a| <= |b|
    decreases |b|
  {
    if a != [] {
      if a[|a| - 1] == b[|b| - 1] && IsSubsequence(a[..|a| - 1], b[..|b| - 1]) {
        SubsequenceShorter(a[..|a| - 1], b[..|b| - 1]);
      } else {
        SubsequenceShorter(a, b[..|b| - 1]);
      }
    }
  }

  /** The result keeps input order and is no longer than the input. */
  lemma {:induction false} UniqueSubsequence(ps: seq<OsProcess>)
    ensures IsSubsequence(Unique(ps), ps)
    ensures |Unique(ps)| <= |ps|
  {
    if ps != [] {
      var init := ps[..|ps| - 1];
      UniqueSubsequence(init);
      var r := Unique(ps);
      if r != Unique(init) {
        assert r[..|r| - 1] == Unique(init);
      }
    }
    SubsequenceShorter(Unique(ps), ps);
  }

  /** `ps[k]` is the first eligible process with its path. */
  predicate FirstOfItsPath(ps: seq<OsProcess>, k: int) {
    0 <= k < |ps| && Eligible(ps[k])
    && forall j :: 0 <= j < k ==> !(Eligible(ps[j]) && PathOf(ps[j]) == PathOf(ps[k]))
  }

  /** The first eligible process of every path is the one returned for it. */
  lemma {:induction false} UniqueKeepsFirst(ps: seq<OsProcess>, k: int)
    requires FirstOfItsPath(ps, k)
    ensures ps[k] in Unique(ps)
  {
    var init := ps[..|ps| - 1];
    if k < |ps| - 1 {
      assert FirstOfItsPath(init, k) by {
        forall j | 0 <= j < k ensures init[j] == ps[j] { }
      }
      UniqueKeepsFirst(init, k);
    } else {
      var r := Unique(init);
      UniqueEligible(init);
      forall x | x in Paths(r) ensures x != PathOf(ps[k]) {
        var i :| 0 <= i < |r| && PathOf(r[i]) == x;
        var j :| 0 <= j < |init| && init[j] == r[i];
        assert ps[j] == r[i];
      }
    }
  }
}
