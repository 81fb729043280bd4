/** Resolving two clauses on a variable, and writing a clause on the elimination stack. */
module Merging {
  import opened SolverTypes
  import opened Elimination
  import opened ElimStack

  /** The literals of c but for v's. */
  function Others(c: seq<Lit>, v: Var): seq<Lit> {
    if c == [] then [] else Others(c[..|c| - 1], v) + if c[|c| - 1].v != v then [c[|c| - 1]] else []
  }

  /** The literals of qs that ps does not decide, but for v's. */
  function Extra(ps: seq<Lit>, qs: seq<Lit>, v: Var): seq<Lit> {
    if qs == [] then []
    else
      var q := qs[|qs| - 1];
      Extra(ps, qs[..|qs| - 1], v) + if q.v != v && !Mentions(ps, q.v) then [q] else []
  }

  /** The resolvent as merge builds it: the new literals of the shorter clause, then the longer clause. */
  function Resolvent(c: seq<Lit>, d: seq<Lit>, v: Var): seq<Lit> {
    if |c| < |d| then Extra(d, c, v) + Others(d, v) else Extra(c, d, v) + Others(c, v)
  }

  // ---------- what it is ----------

  lemma {:induction false} OthersLits(c: seq<Lit>, v: Var)
    requires DistinctVars(c)
    ensures DistinctVars(Others(c, v)) && |Others(c, v)| == |c| - if Mentions(c, v) then 1 else 0
    ensures forall p :: p in Others(c, v) <==> p in c && p.v != v
  {
    if c != [] {
      var f, q := c[..|c| - 1], c[|c| - 1];
      assert c == f + [q];
      OthersLits(f, v);
      forall p | p in Others(f, v) ensures p.v != q.v {
        var i :| 0 <= i < |f| && f[i] == p;
        assert c[i].v != c[|c| - 1].v;
      }
      assert Mentions(c, v) <==> Mentions(f, v) || q.v == v by {
        assert c[|c| - 1] == q;
        if Mentions(f, v) {
          var k :| 0 <= k < |f| && f[k].v == v;
          assert c[k].v == v && c[k].v != c[|c| - 1].v;
        }
      }
    }
  }

  lemma OthersSize(c: seq<Lit>, v: Var)
    requires DistinctVars(c) && Mentions(c, v)
    ensures |Others(c, v)| == |c| - 1
  {
    OthersLits(c, v);
  }

  lemma {:induction false} ExtraLits(ps: seq<Lit>, qs: seq<Lit>, v: Var)
    requires DistinctVars(qs)
    ensures DistinctVars(Extra(ps, qs, v))
    ensures forall p :: p in Extra(ps, qs, v) <==> p in qs && p.v != v && !Mentions(ps, p.v)
  {
    if qs != [] {
      var f, q := qs[..|qs| - 1], qs[|qs| - 1];
      assert qs == f + [q];
      ExtraLits(ps, f, v);
      forall p | p in Extra(ps, f, v) ensures p.v != q.v {
        var i :| 0 <= i < |f| && f[i] == p;
        assert qs[i].v != qs[|qs| - 1].v;
      }
    }
  }

  lemma MergedLits(ps: seq<Lit>, qs: seq<Lit>, v: Var)
    requires DistinctVars(ps) && DistinctVars(qs) && !Clash(qs, ps, v)
    ensures IsResolvent(ps, qs, v, Extra(ps, qs, v) + Others(ps, v))
    ensures DistinctVars(Extra(ps, qs, v) + Others(ps, v))
  {
    var e, o := Extra(ps, qs, v), Others(ps, v);
    ExtraLits(ps, qs, v);
    OthersLits(ps, v);
    forall p | p in qs && p.v != v && Mentions(ps, p.v) ensures p in ps {
      var k :| 0 <= k < |ps| && ps[k].v == p.v;
      assert ps[k] in ps && ps[k] != Neg(p);
    }
    forall p | p in ps ensures Mentions(ps, p.v) {
    }
    forall i, j | 0 <= i < |e| && 0 <= j < |o| ensures e[i].v != o[j].v {
      assert e[i] in e && o[j] in o;
    }
  }

  /** The built clause is the resolvent, each literal once, of the length that the counting version of merge reports. */
  lemma ResolventIsRight(c: seq<Lit>, d: seq<Lit>, v: Var)
    requires DistinctVars(c) && DistinctVars(d) && !Clash(c, d, v)
    ensures IsResolvent(c, d, v, Resolvent(c, d, v)) && DistinctVars(Resolvent(c, d, v))
  {
    ClashIsSymmetric(c, d, v);
    if |c| < |d| { MergedLits(d, c, v); } else { MergedLits(c, d, v); }
  }

  // ---------- merge ----------

  method Locate(ps: seq<Lit>, v: Var) returns (j: nat)
    ensures j <= |ps| && (j < |ps| ==> ps[j].v == v)
    ensures j == |ps| <==> !Mentions(ps, v)
  {
    j := 0;
    while j < |ps| && ps[j].v != v
      invariant 0 <= j <= |ps| && forall k :: 0 <= k < j ==> ps[k].v != v
    {
      j := j + 1;
    }
  }

  lemma ClashFound(ps: seq<Lit>, qs: seq<Lit>, v: Var, i: nat, j: nat)
    requires i < |qs| && j < |ps| && qs[i].v != v && ps[j] == Neg(qs[i])
    ensures Clash(qs, ps, v)
  {
    assert qs[i] in qs;
  }

  lemma NoClashYet(ps: seq<Lit>, qs: seq<Lit>, v: Var, i: nat, j: nat)
    requires i < |qs| && j <= |ps| && DistinctVars(ps) && !Clash(qs[..i], ps, v)
    requires qs[i].v == v || (if j == |ps| then !Mentions(ps, qs[i].v) else ps[j] == qs[i])
    ensures !Clash(qs[..i + 1], ps, v)
  {
    assert qs[..i + 1] == qs[..i] + [qs[i]];
    if qs[i].v != v && Neg(qs[i]) in ps {
      var k :| 0 <= k < |ps| && ps[k] == Neg(qs[i]);
      assert ps[k].v == qs[i].v;
    }
  }

  method AppendOthers(out0: seq<Lit>, ps: seq<Lit>, v: Var) returns (out: seq<Lit>)
    ensures out == out0 + Others(ps, v)
  {
    out := out0;
    var i := 0;
    while i < |ps|
      invariant 0 <= i <= |ps| && out == out0 + Others(ps[..i], v)
    {
      assert ps[..i + 1][..i] == ps[..i];
      if ps[i].v != v { out := out + [ps[i]]; }
      i := i + 1;
    }
    assert ps[..i] == ps;
  }

  /** merge; b is false exactly for a tautology. */
  method Merge(c: seq<Lit>, d: seq<Lit>, v: Var) returns (b: bool, out: seq<Lit>)
    requires DistinctVars(c) && DistinctVars(d)
    ensures b <==> !Clash(c, d, v)
    ensures b ==> out == Resolvent(c, d, v)
  {
    hide Mentions, DistinctVars;
    ClashIsSymmetric(c, d, v);
    var ps, qs := if |c| < |d| then d else c, if |c| < |d| then c else d;
    out := [];
    var i := 0;
    assert !Clash(qs[..0], ps, v);
    hide Clash;
    while i < |qs|
      invariant 0 <= i <= |qs| && !Clash(qs[..i], ps, v) && out == Extra(ps, qs[..i], v)
    {
      assert qs[..i + 1][..i] == qs[..i];
      var j := |ps|;
      if qs[i].v != v {
        j := Locate(ps, qs[i].v);
        if j < |ps| {
          if ps[j] == Neg(qs[i]) {
            ClashFound(ps, qs, v, i, j);
            return false, out;
          }
        } else {
          out := out + [qs[i]];
        }
      }
      NoClashYet(ps, qs, v, i, j);
      i := i + 1;
    }
    assert qs[..i] == qs;
    out := AppendOthers(out, ps, v);
    b := true;
  }

  /** The version of merge that only counts. */
  method MergeSize(c: seq<Lit>, d: seq<Lit>, v: Var) returns (b: bool, size: int)
    requires DistinctVars(c) && DistinctVars(d) && Mentions(c, v) && Mentions(d, v)
    ensures b <==> !Clash(c, d, v)
    ensures b ==> size == |Resolvent(c, d, v)|
  {
    hide Mentions, DistinctVars;
    ClashIsSymmetric(c, d, v);
    var ps, qs := if |c| < |d| then d else c, if |c| < |d| then c else d;
    OthersSize(ps, v);
    size := |ps| - 1;
    var i := 0;
    assert !Clash(qs[..0], ps, v);
    hide Clash;
    while i < |qs|
      invariant 0 <= i <= |qs| && !Clash(qs[..i], ps, v) && size == |ps| - 1 + |Extra(ps, qs[..i], v)|
    {
      assert qs[..i + 1][..i] == qs[..i];
      var j := |ps|;
      if qs[i].v != v {
        j := Locate(ps, qs[i].v);
        if j < |ps| {
          if ps[j] == Neg(qs[i]) {
            ClashFound(ps, qs, v, i, j);
            return false, size;
          }
        } else {
          size := size + 1;
        }
      }
      NoClashYet(ps, qs, v, i, j);
      i := i + 1;
    }
    assert qs[..i] == qs;
    b := true;
  }

  // ---------- mkElimClause ----------

  /** c with the literals at 0 and k swapped. */
  function Fronted(c: seq<Lit>, k: nat): seq<Lit>
    requires k < |c|
  {
    c[k := c[0]][0 := c[k]]
  }

  lemma FrontedIsPermutation(c: seq<Lit>, k: nat)
    requires k < |c|
    ensures multiset(Fronted(c, k)) == multiset(c) && |Fronted(c, k)| == |c| && Fronted(c, k)[0] == c[k]
  {
  }

  /** mkElimClause for a clause: its literals with that of v first, then its length. */
  method MkElimClause(elimclauses: seq<nat>, v: Var, c: seq<Lit>) returns (es: seq<nat>)
    requires Mentions(c, v)
    ensures exists k :: 0 <= k < |c| && c[k].v == v && es == elimclauses + Ints(Fronted(c, k)) + [|c|]
  {
    var first := |elimclauses|;
    var vPos: int := -1;
    es := elimclauses;
    var i := 0;
    while i < |c|
      invariant 0 <= i <= |c| && es == elimclauses + Ints(c[..i])
      invariant if vPos == -1 then forall x :: 0 <= x < i ==> c[x].v != v
                else first <= vPos < first + i && c[vPos - first].v == v
    {
      assert Ints(c[..i + 1]) == Ints(c[..i]) + [ToInt(c[i])];
      es := es + [ToInt(c[i])];
      if c[i].v == v { vPos := i + first; }
      i := i + 1;
    }
    assert c[..i] == c;
    ghost var k := vPos - first;
    var tmp := es[vPos];
    es := es[vPos := es[first]];
    es := es[first := tmp];
    assert c[k].v == v && es == elimclauses + Ints(Fronted(c, k));
    es := es + [|c|];
  }

  /** mkElimClause for a unit clause. */
  method MkElimUnit(elimclauses: seq<nat>, x: Lit) returns (es: seq<nat>)
    ensures es == elimclauses + Ints([x]) + [1]
  {
    es := elimclauses + [ToInt(x)];
    es := es + [1];
  }
}
