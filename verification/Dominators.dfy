/** Dominators of a control flow graph, by a worklist over in-place intersections. */
module Dominators {

  /** A graph with both directions of every edge; node i is also the instruction that it stands for. */
  datatype Graph = Graph(succs: seq<seq<nat>>, preds: seq<seq<nat>>)

  ghost predicate GraphOk(g: Graph) {
    && |g.succs| == |g.preds|
    && (forall p: nat, n: nat {:trigger n in g.succs[p]} :: p < |g.succs| && n in g.succs[p] ==>
          n < |g.succs| && p in g.preds[n])
    && (forall p: nat, n: nat {:trigger p in g.preds[n]} :: n < |g.preds| && p in g.preds[n] ==>
          p < |g.succs| && n in g.succs[p])
  }

  /** Post-dominators are the dominators of the reversed graph. */
  function Reversed(g: Graph): Graph { Graph(g.preds, g.succs) }

  // ---------- the specification: paths ----------

  ghost predicate IsPath(g: Graph, entry: nat, path: seq<nat>) {
    && |path| > 0 && path[0] == entry
    && (forall i :: 0 <= i < |path| ==> path[i] < |g.succs|)
    && forall i :: 0 <= i < |path| - 1 ==> path[i + 1] in g.succs[path[i]]
  }

  ghost predicate PathTo(g: Graph, entry: nat, n: nat, path: seq<nat>)
  {
    IsPath(g, entry, path) && path[|path| - 1] == n
  }

  ghost predicate Reachable(g: Graph, entry: nat, n: nat) { exists path :: PathTo(g, entry, n, path) }

  /** Every path from the entry to n visits d. */
  ghost predicate Dominates(g: Graph, entry: nat, d: nat, n: nat)
  {
    forall path :: PathTo(g, entry, n, path) ==> d in path
  }

  lemma EntryIsReachable(g: Graph, entry: nat)
    requires entry < |g.succs|
    ensures Reachable(g, entry, entry)
    ensures forall d :: Dominates(g, entry, d, entry) <==> d == entry
  {
    assert PathTo(g, entry, entry, [entry]);
    forall d | Dominates(g, entry, d, entry) ensures d == entry {
      assert d in [entry];
    }
  }

  lemma PathStep(g: Graph, entry: nat, p: nat, n: nat, path: seq<nat>)
    requires GraphOk(g) && PathTo(g, entry, p, path) && n in g.succs[p]
    ensures PathTo(g, entry, n, path + [n])
  {
  }

  /** What dominates n, other than n, dominates its reachable predecessors. */
  lemma DominatesPredecessor(g: Graph, entry: nat, d: nat, p: nat, n: nat)
    requires GraphOk(g) && p < |g.succs| && n in g.succs[p] && Dominates(g, entry, d, n) && d != n
    ensures Dominates(g, entry, d, p)
  {
    forall path | PathTo(g, entry, p, path) ensures d in path {
      PathStep(g, entry, p, n, path);
      assert d in path + [n];
    }
  }

  lemma SuccessorIsReachable(g: Graph, entry: nat, p: nat, n: nat)
    requires GraphOk(g) && p < |g.succs| && n in g.succs[p] && Reachable(g, entry, p)
    ensures Reachable(g, entry, n)
  {
    var path :| PathTo(g, entry, p, path);
    PathStep(g, entry, p, n, path);
  }

  /** The last of d and e on a path can be reached by another way, which then reaches n without the other one. */
  lemma Detour(g: Graph, entry: nat, d: nat, e: nat, n: nat, path: seq<nat>, i: nat, other: seq<nat>)
    requires PathTo(g, entry, n, path) && i < |path| && path[i] == d && e !in path[i..]
    requires PathTo(g, entry, d, other) && e !in other
    ensures !Dominates(g, entry, e, n)
  {
    var detour := other + path[i + 1..];
    forall k | 0 <= k < |detour| - 1 ensures detour[k + 1] in g.succs[detour[k]] {
      if k >= |other| - 1 {
        var x := i + (k - (|other| - 1));
        assert path[x + 1] in g.succs[path[x]];
      }
    }
    assert PathTo(g, entry, n, detour);
    assert forall k :: i < k < |path| ==> path[k] in path[i..];
  }

  /** The dominators of a node form a chain: of any two, one dominates the other. */
  lemma DominatorsFormAChain(g: Graph, entry: nat, d: nat, e: nat, n: nat)
    requires Reachable(g, entry, n) && Dominates(g, entry, d, n) && Dominates(g, entry, e, n)
    ensures Dominates(g, entry, d, e) || Dominates(g, entry, e, d)
  {
    if !Dominates(g, entry, d, e) && !Dominates(g, entry, e, d) {
      var toE :| PathTo(g, entry, e, toE) && d !in toE;
      var toD :| PathTo(g, entry, d, toD) && e !in toD;
      var path :| PathTo(g, entry, n, path);
      var i := LastOf(path, d, e);
      if path[i] == d { Detour(g, entry, d, e, n, path, i, toD); } else { Detour(g, entry, e, d, n, path, i, toE); }
    }
  }

  lemma {:induction false} LastOf(path: seq<nat>, d: nat, e: nat) returns (i: nat)
    requires d in path
    ensures i < |path| && (path[i] == d || path[i] == e) && (d != e ==> (if path[i] == d then e else d) !in path[i..])
  {
    i := |path| - 1;
    assert path[..i + 1] == path;
    while path[i] != d && path[i] != e
      invariant i < |path| && d in path[..i + 1] && d !in path[i + 1..] && e !in path[i + 1..]
      decreases i
    {
      assert path[i..] == [path[i]] + path[i + 1..];
      assert path[..i + 1] == path[..i] + [path[i]];
      i := i - 1;
    }
    assert path[i..] == [path[i]] + path[i + 1..];
  }

  // ---------- ordered sets ----------

  /** A std::set as the sequence of its elements in order. */
  predicate Ordered(s: seq<nat>) { forall i, j :: 0 <= i < j < |s| ==> s[i] < s[j] }

  function Insert(s: seq<nat>, x: nat): (t: seq<nat>)
    requires Ordered(s)
    ensures Ordered(t) && forall y :: y in t <==> y in s || y == x
  {
    if s == [] then [x]
    else if x < s[0] then [x] + s
    else if x == s[0] then s
    else
      var rest := Insert(s[1..], x);
      assert forall y :: y in s <==> y == s[0] || y in s[1..];
      assert forall i :: 0 <= i < |rest| ==> rest[i] in rest;
      [s[0]] + rest
  }

  lemma {:induction false} OrderedFits(s: seq<nat>, n: nat)
    requires Ordered(s) && forall x :: x in s ==> x < n
    ensures |s| <= n
  {
    if s != [] {
      var k := |s| - 1;
      assert s[k] in s;
      forall x | x in s[..k] ensures x < s[k] {
        var i :| 0 <= i < k && s[i] == x;
      }
      OrderedFits(s[..k], s[k]);
    }
  }

  // ---------- in-place intersection ----------

  function Erase(s: seq<nat>, i: nat): (t: seq<nat>)
    requires i < |s|
    ensures |t| == |s| - 1
  {
    s[..i] + s[i + 1..]
  }

  /**
   * s is what is left of s0 when the intersection with o (but for n, which stays) has come to index i of s and j of o:
   * what is before i belongs there, what has left s0 had to leave, and o before j is below s from i on.
   */
  ghost predicate Erasing(s0: seq<nat>, o: seq<nat>, n: nat, s: seq<nat>, i: nat, j: nat) {
    && Ordered(s) && Ordered(o) && i <= |s| && j <= |o|
    && (forall k :: 0 <= k < |s| ==> s[k] in s0) && (forall k :: 0 <= k < i ==> s[k] == n || s[k] in o)
    && (forall x :: x in s0 ==> x in s || (x != n && x !in o))
    && forall a, b :: 0 <= a < j && i <= b < |s| ==> o[a] < s[b]
  }

  /** The cases of a step; in the aliased case (s is o, and j has not overtaken i) nothing is erased. */
  lemma ErasingStep(s0: seq<nat>, o: seq<nat>, n: nat, s: seq<nat>, i: nat, j: nat)
    requires Erasing(s0, o, n, s, i, j) && i < |s|
    ensures s[i] == n ==> Erasing(s0, o, n, s, i + 1, j)
    ensures s[i] != n && (j < |o| ==> s[i] < o[j]) ==> Erasing(s0, o, n, Erase(s, i), i, j)
    ensures j < |o| && o[j] < s[i] ==> Erasing(s0, o, n, s, i, j + 1)
    ensures j < |o| && o[j] == s[i] ==> Erasing(s0, o, n, s, i + 1, j + 1)
    ensures j < |o| && s == o && j <= i ==> o[j] <= s[i] && (o[j] < s[i] ==> j < i)
  {
    hide Erasing;
    if s[i] == n { PassOwn(s0, o, n, s, i, j); }
    if j < |o| && o[j] < s[i] { PassSmaller(s0, o, n, s, i, j); }
    if j < |o| && o[j] == s[i] { PassCommon(s0, o, n, s, i, j); }
    if j < |o| && s == o && j <= i { PassSame(s0, o, n, s, i, j); }
    if s[i] != n && (j < |o| ==> s[i] < o[j]) { EraseNext(s0, o, n, s, i, j); }
  }

  /** The cases without erasing. */
  lemma PassOwn(s0: seq<nat>, o: seq<nat>, n: nat, s: seq<nat>, i: nat, j: nat)
    requires Erasing(s0, o, n, s, i, j) && i < |s| && s[i] == n
    ensures Erasing(s0, o, n, s, i + 1, j)
  {
  }

  lemma PassSmaller(s0: seq<nat>, o: seq<nat>, n: nat, s: seq<nat>, i: nat, j: nat)
    requires Erasing(s0, o, n, s, i, j) && i < |s| && j < |o| && o[j] < s[i]
    ensures Erasing(s0, o, n, s, i, j + 1)
  {
  }

  lemma PassCommon(s0: seq<nat>, o: seq<nat>, n: nat, s: seq<nat>, i: nat, j: nat)
    requires Erasing(s0, o, n, s, i, j) && i < |s| && j < |o| && o[j] == s[i]
    ensures Erasing(s0, o, n, s, i + 1, j + 1)
  {
    assert o[j] in o;
  }

  /** In the aliased case nothing is below the element that is looked at. */
  lemma PassSame(s0: seq<nat>, o: seq<nat>, n: nat, s: seq<nat>, i: nat, j: nat)
    requires Erasing(s0, o, n, s, i, j) && i < |s| && j < |o| && s == o && j <= i
    ensures o[j] <= s[i] && (o[j] < s[i] ==> j < i)
  {
  }

  lemma EraseNext(s0: seq<nat>, o: seq<nat>, n: nat, s: seq<nat>, i: nat, j: nat)
    requires Erasing(s0, o, n, s, i, j) && i < |s| && s[i] != n && (j < |o| ==> s[i] < o[j])
    ensures Erasing(s0, o, n, Erase(s, i), i, j)
  {
    forall k | 0 <= k < |o| ensures o[k] != s[i] {
    }
    EraseKeeps(s0, o, n, s, i);
  }

  lemma EraseKeeps(s0: seq<nat>, o: seq<nat>, n: nat, s: seq<nat>, i: nat)
    requires i < |s| && s[i] != n && s[i] !in o && forall x :: x in s0 ==> x in s || (x != n && x !in o)
    ensures forall x :: x in s0 ==> x in Erase(s, i) || (x != n && x !in o)
  {
    forall x | x in s0 ensures x in Erase(s, i) || (x != n && x !in o) {
      if x in s && x != s[i] {
        var k :| 0 <= k < |s| && s[k] == x;
        assert Erase(s, i)[if k < i then k else k - 1] == x;
      }
    }
  }

  lemma ErasingDone(s0: seq<nat>, o: seq<nat>, n: nat, s: seq<nat>, i: nat, j: nat)
    requires Erasing(s0, o, n, s, i, j) && i == |s|
    ensures Ordered(s) && forall x :: x in s <==> x in s0 && (x == n || x in o)
  {
  }

  // ---------- the invariants ----------

  /** The set of n, when there is one: n is reachable, and nothing that dominates it is missing. */
  ghost predicate NodeOk(g: Graph, entry: nat, s: seq<nat>, n: nat) {
    && Ordered(s) && (forall x :: x in s ==> x < |g.succs|)
    && (s != [] ==> n in s && Reachable(g, entry, n) && forall d :: Dominates(g, entry, d, n) ==> d in s)
  }

  ghost predicate Sane(g: Graph, entry: nat, dom: seq<seq<nat>>) {
    && GraphOk(g) && |dom| == |g.succs| && entry < |dom| && dom[entry] == [entry]
    && forall n :: 0 <= n < |dom| ==> NodeOk(g, entry, dom[n], n)
  }

  /** The set of n agrees with that of its predecessor p. */
  ghost predicate Stable(dom: seq<seq<nat>>, p: nat, n: nat) {
    p < |dom| && n < |dom| && (dom[p] != [] ==> dom[n] != [] && forall d :: d in dom[n] ==> d == n || d in dom[p])
  }

  ghost predicate Pending(g: Graph, dom: seq<seq<nat>>, worklist: seq<nat>) {
    forall p: nat, n: nat :: p < |g.succs| && n in g.succs[p] ==> n in worklist || Stable(dom, p, n)
  }

  /** Taking over a predecessor's set. */
  lemma CopyKeepsSane(g: Graph, entry: nat, dom: seq<seq<nat>>, p: nat, n: nat)
    requires Sane(g, entry, dom) && n < |dom| && n != entry && p in g.preds[n] && dom[p] != []
    ensures Sane(g, entry, dom[n := Insert(dom[p], n)])
  {
    var s := Insert(dom[p], n);
    assert NodeOk(g, entry, dom[p], p);
    SuccessorIsReachable(g, entry, p, n);
    forall d | Dominates(g, entry, d, n) ensures d in s {
      if d != n { DominatesPredecessor(g, entry, d, p, n); }
    }
    assert NodeOk(g, entry, s, n);
  }

  /** Intersecting with a predecessor's set. */
  lemma MeetKeepsSane(g: Graph, entry: nat, dom: seq<seq<nat>>, p: nat, n: nat, s: seq<nat>)
    requires Sane(g, entry, dom) && n < |dom| && p in g.preds[n] && dom[p] != []
    requires Ordered(s) && forall x :: x in s <==> x in dom[n] && (x == n || x in dom[p])
    ensures Sane(g, entry, dom[n := s]) && (dom[n] != [] ==> s != [])
  {
    assert NodeOk(g, entry, dom[p], p) && NodeOk(g, entry, dom[n], n);
    if dom[n] != [] {
      assert n in s;
      forall d | Dominates(g, entry, d, n) ensures d in s {
        if d != n { DominatesPredecessor(g, entry, d, p, n); }
      }
    } else {
      EmptyMeet(s, dom[n]);
    }
    assert NodeOk(g, entry, s, n);
    if n == entry { OnlyEntry(s, entry); }
  }

  lemma HasElements(s: seq<nat>)
    requires Ordered(s) && s != []
    ensures s[0] in s && (|s| > 1 ==> exists x, y :: x in s && y in s && x != y)
  {
    if |s| > 1 { assert s[0] in s && s[1] in s && s[0] < s[1]; }
  }

  lemma EmptyMeet(s: seq<nat>, t: seq<nat>)
    requires Ordered(s) && t == [] && forall x :: x in s ==> x in t
    ensures s == []
  {
    if s != [] {
      HasElements(s);
      assert false;
    }
  }

  /** A smaller set stays below those it was met with. */
  lemma MeetKeepsStable(dom: seq<seq<nat>>, dom': seq<seq<nat>>, edges: seq<nat>, k: nat, n: nat)
    requires n < |dom| == |dom'| && k < |edges| && edges[k] < |dom| && dom' == dom[n := dom'[n]]
    requires forall i :: 0 <= i < k ==> Stable(dom, edges[i], n)
    requires if dom[edges[k]] == [] then dom' == dom
             else dom'[n] != [] && forall x :: x in dom'[n] <==> x in dom[n] && (x == n || x in dom[edges[k]])
    ensures forall i :: 0 <= i <= k ==> Stable(dom', edges[i], n)
  {
    forall i | 0 <= i <= k ensures Stable(dom', edges[i], n) {
      if i < k { assert Stable(dom, edges[i], n); }
    }
  }

  lemma OnlyEntry(s: seq<nat>, entry: nat)
    requires Ordered(s) && entry in s && forall x :: x in s ==> x == entry
    ensures s == [entry]
  {
    assert |s| == 0 ==> entry !in s;
    HasElements(s);
    if |s| > 1 {
      assert false;
    }
  }

  // ---------- how much is left to do ----------

  function Cost(s: seq<nat>, n: nat): nat { if s == [] then n + 1 else |s| }

  ghost function Total(dom: seq<seq<nat>>, n: nat): nat {
    if dom == [] then 0 else Total(dom[..|dom| - 1], n) + Cost(dom[|dom| - 1], n)
  }

  lemma {:induction false} TotalUpdate(dom: seq<seq<nat>>, n: nat, k: nat, s: seq<nat>)
    requires k < |dom|
    ensures Total(dom[k := s], n) + Cost(dom[k], n) == Total(dom, n) + Cost(s, n)
  {
    var l := |dom| - 1;
    if k == l {
      assert dom[k := s][..l] == dom[..l];
    } else {
      assert dom[k := s][..l] == dom[..l][k := s];
      TotalUpdate(dom[..l], n, k, s);
    }
  }

  // ---------- what a fixed point is ----------

  lemma {:induction false} FixedPointAlongPath(g: Graph, entry: nat, dom: seq<seq<nat>>, path: seq<nat>)
    requires Sane(g, entry, dom) && Pending(g, dom, []) && IsPath(g, entry, path)
    ensures dom[path[|path| - 1]] != [] && forall d :: d in dom[path[|path| - 1]] ==> d in path
  {
    if |path| > 1 {
      var front := path[..|path| - 1];
      FixedPointAlongPath(g, entry, dom, front);
      var p, n := front[|front| - 1], path[|path| - 1];
      assert n in g.succs[p];
      assert Stable(dom, p, n);
      assert path == front + [n];
    }
  }

  /** The sets are exactly the path-defined ones, and empty exactly for what cannot be reached. */
  ghost predicate Exact(g: Graph, entry: nat, dom: seq<seq<nat>>) {
    && |dom| == |g.succs|
    && (forall n :: 0 <= n < |dom| ==> (dom[n] == [] <==> !Reachable(g, entry, n)))
    && (forall n, d :: 0 <= n < |dom| && Reachable(g, entry, n) ==> (d in dom[n] <==> Dominates(g, entry, d, n)))
    && forall n :: 0 <= n < |dom| ==> Ordered(dom[n])
  }

  lemma FixedPointIsExact(g: Graph, entry: nat, dom: seq<seq<nat>>)
    requires Sane(g, entry, dom) && Pending(g, dom, [])
    ensures Exact(g, entry, dom)
  {
    forall n | 0 <= n < |dom| ensures NodeOk(g, entry, dom[n], n) {
    }
    forall n, path | 0 <= n < |dom| && PathTo(g, entry, n, path)
      ensures dom[n] != [] && forall d :: d in dom[n] ==> d in path
    {
      FixedPointAlongPath(g, entry, dom, path);
    }
  }

  // ---------- the analysis ----------

  class CfgDominators {
    const cfg: Graph
    const postDom: bool
    var entryNode: nat
    var dominators: seq<seq<nat>>

    constructor (cfg: Graph, postDom: bool)
      ensures this.cfg == cfg && this.postDom == postDom
    {
      this.cfg, this.postDom := cfg, postDom;
      entryNode, dominators := 0, seq(|cfg.succs|, _ => []);
    }

    /** The graph in the direction of the analysis. */
    ghost function View(): Graph { if postDom then Reversed(cfg) else cfg }

    function Succs(n: nat): seq<nat>
      requires n < |cfg.succs| == |cfg.preds|
    {
      if postDom then cfg.preds[n] else cfg.succs[n]
    }

    function Preds(n: nat): seq<nat>
      requires n < |cfg.succs| == |cfg.preds|
    {
      if postDom then cfg.succs[n] else cfg.preds[n]
    }

    /** The in-place intersection of the set of n with that of e, which may be the same set; n itself stays. */
    method Intersect(n: nat, e: nat) returns (changed: bool)
      requires n < |dominators| && e < |dominators| && Ordered(dominators[n]) && Ordered(dominators[e])
      modifies `dominators
      ensures |dominators| == |old(dominators)| && dominators == old(dominators)[n := dominators[n]]
      ensures Ordered(dominators[n])
      ensures forall x :: x in dominators[n] <==> x in old(dominators)[n] && (x == n || x in old(dominators)[e])
      ensures if changed then |dominators[n]| < |old(dominators)[n]| else dominators == old(dominators)
    {
      ghost var s0, o := dominators[n], dominators[e];
      assert Erasing(s0, o, n, s0, 0, 0);
      hide Erasing, Ordered, Erase;
      var i;
      ghost var j;
      changed, i, j := IntersectCommon(n, e);
      var more := EraseRest(n, i, s0, o, j);
      changed := changed || more;
      ErasingDone(s0, o, n, dominators[n], |dominators[n]|, j);
    }

    /** The first loop, while both lists have elements left; with e == n it erases nothing. */
    method IntersectCommon(n: nat, e: nat) returns (changed: bool, i: nat, j: nat)
      requires n < |dominators| && e < |dominators| && Erasing(dominators[n], dominators[e], n, dominators[n], 0, 0)
      modifies `dominators
      ensures |dominators| == |old(dominators)| && dominators == old(dominators)[n := dominators[n]]
      ensures i <= |dominators[n]| && j <= |old(dominators)[e]|
      ensures Erasing(old(dominators)[n], old(dominators)[e], n, dominators[n], i, j)
      ensures i < |dominators[n]| ==> e != n && j == |old(dominators)[e]|
      ensures if changed then |dominators[n]| < |old(dominators)[n]| else dominators == old(dominators)
    {
      changed, i, j := false, 0, 0;
      ghost var s0, o, s := dominators[n], dominators[e], dominators[n];
      hide Erasing, Ordered, Erase;
      while i < |dominators[n]| && j < |dominators[e]|
        invariant dominators == old(dominators)[n := s] && dominators[e] == o
        invariant 0 <= i <= |s| && 0 <= j <= |o| && Erasing(s0, o, n, s, i, j)
        invariant e == n ==> !changed && j <= i
        invariant if changed then |s| < |s0| else s == s0
        decreases |s| - i + |o| - j
      {
        ErasingStep(s0, o, n, s, i, j);
        var x, y := dominators[n][i], dominators[e][j];
        if x == n {
          i := i + 1;
        } else if x < y {
          changed := true;
          s := Erase(s, i);
          dominators := dominators[n := Erase(dominators[n], i)];
        } else if y < x {
          j := j + 1;
        } else {
          i, j := i + 1, j + 1;
        }
      }
    }

    /** The second loop: what is left has no counterpart. */
    method EraseRest(n: nat, i0: nat, ghost s0: seq<nat>, ghost o: seq<nat>, ghost j: nat) returns (changed: bool)
      requires n < |dominators| && i0 <= |dominators[n]| && Erasing(s0, o, n, dominators[n], i0, j)
      requires i0 < |dominators[n]| ==> j == |o|
      modifies `dominators
      ensures |dominators| == |old(dominators)| && dominators == old(dominators)[n := dominators[n]]
      ensures Erasing(s0, o, n, dominators[n], |dominators[n]|, j)
      ensures if changed then |dominators[n]| < |old(dominators)[n]| else dominators == old(dominators)
    {
      changed := false;
      var i := i0;
      ghost var s := dominators[n];
      hide Erasing, Ordered, Erase;
      while i < |dominators[n]|
        invariant dominators == old(dominators)[n := s]
        invariant 0 <= i <= |s| && Erasing(s0, o, n, s, i, j) && (i < |s| ==> j == |o|)
        invariant if changed then |s| < |old(dominators)[n]| else s == old(dominators)[n]
        decreases |s| - i
      {
        ErasingStep(s0, o, n, s, i, j);
        if dominators[n][i] == n {
          i := i + 1;
        } else {
          changed := true;
          s := Erase(s, i);
          dominators := dominators[n := Erase(dominators[n], i)];
        }
      }
    }

    /** No predecessor of n has a set yet. */
    ghost predicate NoneBefore(n: nat)
      reads this
    {
      && n < |cfg.succs| == |cfg.preds|
      && forall i :: 0 <= i < |Preds(n)| && Preds(n)[i] < |dominators| ==> dominators[Preds(n)[i]] == []
    }

    /** Everything about the shape that the loops need. */
    lemma Shape()
      requires Sane(View(), entryNode, dominators)
      ensures |dominators| == |cfg.succs| == |cfg.preds| && entryNode < |dominators| && dominators[entryNode] != []
      ensures forall n :: 0 <= n < |dominators| ==>
        Ordered(dominators[n]) && (dominators[n] != [] ==> n in dominators[n])
      ensures forall n, i :: 0 <= n < |dominators| && 0 <= i < |Preds(n)| ==>
        Preds(n)[i] < |dominators| && Preds(n)[i] in View().preds[n]
      ensures forall n, i :: 0 <= n < |dominators| && 0 <= i < |Succs(n)| ==> Succs(n)[i] < |dominators|
    {
      forall n: nat, i: nat | n < |dominators| && i < |Succs(n)| ensures Succs(n)[i] < |dominators| {
        var p: nat := Succs(n)[i];
        assert p in View().succs[n];
      }
      forall n | 0 <= n < |dominators| ensures NodeOk(View(), entryNode, dominators[n], n) {
      }
      forall n: nat, i: nat | n < |dominators| && i < |Preds(n)|
        ensures Preds(n)[i] < |dominators| && Preds(n)[i] in View().preds[n]
      {
        var p: nat := Preds(n)[i];
        assert p in View().preds[n];
      }
    }

    /** The first set of a node: that of a predecessor, the last one that has one. */
    method TakeOver(n: nat) returns (changed: bool)
      requires Sane(View(), entryNode, dominators) && n < |dominators| && dominators[n] == []
      modifies `dominators
      ensures Sane(View(), entryNode, dominators) && dominators == old(dominators)[n := dominators[n]]
      ensures changed == (dominators[n] != [])
      ensures dominators[n] == [] ==> NoneBefore(n)
    {
      Shape();
      hide Sane, Ordered;
      changed := false;
      var k := 0;
      var edges: seq<nat> := Preds(n);
      while k < |edges|
        invariant 0 <= k <= |edges| && Sane(View(), entryNode, dominators)
        invariant |dominators| == |old(dominators)| && dominators == old(dominators)[n := dominators[n]]
        invariant changed == (dominators[n] != [])
        invariant dominators[n] == [] ==> forall x :: 0 <= x < k ==> dominators[edges[x]] == []
      {
        var p := edges[k];
        if dominators[p] != [] {
          CopyKeepsSane(View(), entryNode, dominators, p, n);
          Shape();
          dominators := dominators[n := Insert(dominators[p], n)];
          assert n in dominators[n];
          changed := true;
        }
        k := k + 1;
      }
    }

    /** Meet with all predecessors that have a set. */
    method MeetAll(n: nat) returns (changed: bool)
      requires Sane(View(), entryNode, dominators) && n < |dominators|
      requires dominators[n] == [] ==> NoneBefore(n)
      modifies `dominators
      ensures Sane(View(), entryNode, dominators) && dominators == old(dominators)[n := dominators[n]]
      ensures if changed then |old(dominators)[n]| > |dominators[n]| > 0 else dominators == old(dominators)
      ensures forall i :: 0 <= i < |Preds(n)| ==> Stable(dominators, Preds(n)[i], n)
    {
      Shape();
      hide Sane, Ordered;
      changed := false;
      var k := 0;
      var edges: seq<nat> := Preds(n);
      while k < |edges|
        invariant 0 <= k <= |edges| && Sane(View(), entryNode, dominators)
        invariant |dominators| == |old(dominators)| && dominators == old(dominators)[n := dominators[n]]
        invariant if changed then |old(dominators)[n]| > |dominators[n]| > 0 else dominators == old(dominators)
        invariant forall x :: 0 <= x < k ==> Stable(dominators, edges[x], n)
      {
        var p := edges[k];
        ghost var dom := dominators;
        if dominators[p] != [] {
          Shape();
          var less := Intersect(n, p);
          MeetKeepsSane(View(), entryNode, dom, p, n, dominators[n]);
          changed := changed || less;
        }
        MeetKeepsStable(dom, dominators, edges, k, n);
        k := k + 1;
      }
    }

    lemma SaneNode(n: nat)
      requires Sane(View(), entryNode, dominators) && n < |dominators|
      ensures NodeOk(View(), entryNode, dominators[n], n) && |View().succs| == |dominators|
    {
    }

    /** One node from the worklist. */
    method Visit(n: nat) returns (changed: bool)
      requires Sane(View(), entryNode, dominators) && n < |dominators|
      modifies `dominators
      ensures Sane(View(), entryNode, dominators) && dominators == old(dominators)[n := dominators[n]]
      ensures forall i :: 0 <= i < |Preds(n)| ==> Stable(dominators, Preds(n)[i], n)
      ensures if changed then Total(dominators, |dominators|) < Total(old(dominators), |dominators|)
              else dominators == old(dominators)
    {
      hide Sane, Stable, Total;
      changed := false;
      if dominators[n] == [] { changed := TakeOver(n); }
      var less := MeetAll(n);
      changed := changed || less;
      SaneNode(n);
      OrderedFits(dominators[n], |dominators|);
      TotalUpdate(old(dominators), |dominators|, n, dominators[n]);
    }

    /** The first node of the worklist is visited; if its set changed, its successors are appended. */
    method Process(work: seq<nat>) returns (worklist: seq<nat>)
      requires Sane(View(), entryNode, dominators) && work != []
      requires (forall i :: 0 <= i < |work| ==> work[i] < |dominators|)
      requires Pending(View(), dominators, work)
      modifies `dominators
      ensures Sane(View(), entryNode, dominators) && (forall i :: 0 <= i < |worklist| ==> worklist[i] < |dominators|)
      ensures Pending(View(), dominators, worklist) && |dominators| == |old(dominators)|
      ensures Total(dominators, |dominators|) < Total(old(dominators), |dominators|) ||
        (Total(dominators, |dominators|) == Total(old(dominators), |dominators|) && |worklist| < |work|)
    {
      hide NodeOk, Exact, Total, GraphOk, Ordered;
      var current := work[0];
      worklist := work[1..];
      var changed := Visit(current);
      Shape();
      if changed { worklist := worklist + Succs(current); }
      assert View().preds[current] == Preds(current);
      StepKeepsPending(View(), old(dominators), work, dominators, worklist, current, changed);
    }

    /** fixedpoint: terminates with exactly the dominators. */
    method FixedPoint()
      requires GraphOk(cfg) && forall n :: 0 <= n < |dominators| ==> dominators[n] == []
      requires |dominators| == |cfg.succs|
      modifies `dominators, `entryNode
      ensures |cfg.succs| == 0 ==> dominators == old(dominators)
      ensures |cfg.succs| > 0 ==>
        entryNode == (if postDom then |cfg.succs| - 1 else 0) && Exact(View(), entryNode, dominators)
    {
      if |cfg.succs| == 0 { return; }
      entryNode := if postDom then |cfg.succs| - 1 else 0;
      dominators := dominators[entryNode := [entryNode]];
      EntryIsReachable(View(), entryNode);
      assert NodeOk(View(), entryNode, [entryNode], entryNode);
      Shape();
      var worklist: seq<nat> := Succs(entryNode);
      assert Sane(View(), entryNode, dominators) && Pending(View(), dominators, worklist);
      hide *;
      while worklist != []
        invariant Sane(View(), entryNode, dominators)
        invariant (forall i :: 0 <= i < |worklist| ==> worklist[i] < |dominators|)
        invariant Pending(View(), dominators, worklist) && entryNode == (if postDom then |cfg.succs| - 1 else 0)
        decreases Total(dominators, |dominators|), |worklist|
      {
        worklist := Process(worklist);
      }
      FixedPointIsExact(View(), entryNode, dominators);
    }
  }

  lemma StepKeepsPending(g: Graph, dom: seq<seq<nat>>, work: seq<nat>, dom': seq<seq<nat>>, work': seq<nat>, n: nat,
                         changed: bool)
    requires GraphOk(g) && |dom| == |dom'| == |g.succs| && Pending(g, dom, work) && |work| > 0 && work[0] == n < |dom|
    requires dom' == dom[n := dom'[n]] && (!changed ==> dom' == dom)
    requires work' == work[1..] + if changed then g.succs[n] else []
    requires forall i :: 0 <= i < |g.preds[n]| ==> Stable(dom', g.preds[n][i], n)
    ensures Pending(g, dom', work')
  {
    forall p: nat, m: nat | p < |dom'| && m in g.succs[p] ensures m in work' || Stable(dom', p, m) {
      if m != n && m in work {
        assert m in work[1..];
      }
      assert m in work || Stable(dom, p, m);
    }
  }
}
