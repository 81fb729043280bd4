/** Clause::subsumes with its 32-bit filter. */
module Subsumption {
  import opened SolverTypes

  function VarBit(v: Var): bv32 { (1 as bv32) << (v % 32) }

  /** calcAbstraction: one bit for each variable, modulo 32. */
  function Abstraction(c: seq<Lit>): bv32 {
    if c == [] then 0 else Abstraction(c[..|c| - 1]) | VarBit(c[|c| - 1].v)
  }

  method CalcAbstraction(c: seq<Lit>) returns (a: bv32)
    ensures a == Abstraction(c)
  {
    a := 0;
    var i := 0;
    while i < |c|
      invariant 0 <= i <= |c| && a == Abstraction(c[..i])
    {
      assert c[..i + 1][..i] == c[..i];
      a := a | VarBit(c[i].v);
      i := i + 1;
    }
    assert c[..i] == c;
  }

  lemma OrWithin(x: bv32, y: bv32, z: bv32)
    requires x & !z == 0 && y & !z == 0
    ensures (x | y) & !z == 0
  {
  }

  lemma WithinOr(x: bv32, y: bv32, z: bv32)
    ensures x & !y == 0 ==> x & !(y | z) == 0
    ensures x & !z == 0 ==> x & !(y | z) == 0
    ensures x & !x == 0
  {
  }

  lemma {:induction false} BitIsIn(c: seq<Lit>, v: Var)
    requires Mentions(c, v)
    ensures VarBit(v) & !Abstraction(c) == 0
  {
    var d, w := c[..|c| - 1], c[|c| - 1].v;
    WithinOr(VarBit(v), Abstraction(d), VarBit(w));
    WithinOr(VarBit(v), 0, 0);
    if v != w {
      var k :| 0 <= k < |c| && c[k].v == v;
      assert d[k].v == v;
      BitIsIn(d, v);
    }
  }

  /** No false negatives: if every variable of c occurs in d, the filter lets the pair through. */
  lemma {:induction false} FilterIsSafe(c: seq<Lit>, d: seq<Lit>)
    requires forall k :: 0 <= k < |c| ==> Mentions(d, c[k].v)
    ensures Abstraction(c) & !Abstraction(d) == 0
  {
    if c == [] {
      ZeroWithin(Abstraction(d));
    } else {
      var f := c[..|c| - 1];
      forall k | 0 <= k < |f| ensures Mentions(d, f[k].v) {
        assert f[k] == c[k];
      }
      FilterIsSafe(f, d);
      BitIsIn(d, c[|c| - 1].v);
      OrWithin(Abstraction(c[..|c| - 1]), VarBit(c[|c| - 1].v), Abstraction(d));
    }
  }

  lemma ZeroWithin(z: bv32)
    ensures 0 & !z == 0
  {
  }

  /** The three answers: lit_Error, lit_Undef, or the literal of c whose complement can be removed from d. */
  datatype Answer = Neither | Subsumed | Strengthens(p: Lit)

  /** c is a subset of d up to the literals flips, which occur complemented. */
  ghost predicate SubsetUpTo(c: seq<Lit>, d: seq<Lit>, flips: set<Lit>) {
    forall p :: p in c ==> if p in flips then Neg(p) in d else p in d
  }

  ghost predicate Right(c: seq<Lit>, d: seq<Lit>, a: Answer) {
    match a
    case Subsumed => SubsetUpTo(c, d, {})
    case Strengthens(p) => p in c && SubsetUpTo(c, d, {p})
    case Neither => !SubsetUpTo(c, d, {}) && forall p :: p in c ==> !SubsetUpTo(c, d, {p})
  }

  lemma {:induction false} DistinctFits(c: seq<Lit>, d: seq<Lit>)
    requires DistinctVars(c) && forall p :: p in c ==> exists q :: q in d && q.v == p.v
    ensures |c| <= |d|
  {
    if c != [] {
      var p := c[|c| - 1];
      assert p in c;
      var q :| q in d && q.v == p.v;
      var i :| 0 <= i < |d| && d[i] == q;
      var c', d' := c[..|c| - 1], d[..i] + d[i + 1..];
      forall r | r in c' ensures exists s :: s in d' && s.v == r.v {
        assert r in c;
        var s :| s in d && s.v == r.v;
        var k :| 0 <= k < |d| && d[k] == s;
        var x :| 0 <= x < |c'| && c'[x] == r;
        assert c[x].v != c[|c| - 1].v;
        assert d'[if k < i then k else k - 1] == s;
      }
      DistinctFits(c', d');
    }
  }

  /** Too long, or with a variable bit of its own: certainly no subset. */
  lemma QuickReject(c: seq<Lit>, d: seq<Lit>)
    requires DistinctVars(c) && (|d| < |c| || Abstraction(c) & !Abstraction(d) != 0)
    ensures Right(c, d, Neither)
  {
    if exists s :: SubsetUpTo(c, d, s) {
      var s :| SubsetUpTo(c, d, s);
      forall p | p in c ensures exists q :: q in d && q.v == p.v {
        assert if p in s then Neg(p) in d else p in d;
      }
      DistinctFits(c, d);
      forall k | 0 <= k < |c| ensures Mentions(d, c[k].v) {
        assert c[k] in c;
        var q :| q in d && q.v == c[k].v;
        var l :| 0 <= l < |d| && d[l] == q;
        assert d[l].v == c[k].v;
      }
      FilterIsSafe(c, d);
      assert false;
    }
  }

  datatype Hit = Same | Opposite | Missing

  /** Search d for p, or, if one may still be flipped, for its complement. */
  method Find(p: Lit, d: seq<Lit>, mayFlip: bool) returns (hit: Hit)
    requires DistinctVars(d)
    ensures hit == Same <==> p in d
    ensures hit == Opposite <==> mayFlip && Neg(p) in d
  {
    var j := 0;
    while j < |d|
      invariant 0 <= j <= |d| && p !in d[..j] && (mayFlip ==> Neg(p) !in d[..j])
    {
      assert d[..j + 1] == d[..j] + [d[j]];
      if p == d[j] {
        NotBoth(d, p);
        return Same;
      } else if mayFlip && p == Neg(d[j]) {
        assert Neg(p) == d[j];
        NotBoth(d, p);
        return Opposite;
      }
      j := j + 1;
    }
    assert d[..j] == d;
    hit := Missing;
  }

  lemma NotBoth(d: seq<Lit>, p: Lit)
    requires DistinctVars(d)
    ensures p in d ==> Neg(p) !in d
  {
    if p in d {
      var i :| 0 <= i < |d| && d[i] == p;
      assert forall j :: 0 <= j < |d| && d[j].v == p.v ==> j == i;
    }
  }

  /** The answer as far as the first i literals of c go. */
  ghost predicate SoFar(c: seq<Lit>, d: seq<Lit>, i: nat, a: Answer)
    requires i <= |c|
  {
    match a
    case Subsumed => SubsetUpTo(c[..i], d, {})
    case Strengthens(p) => p in c[..i] && SubsetUpTo(c[..i], d, {p})
    case Neither => false
  }

  lemma Extend(c: seq<Lit>, d: seq<Lit>, i: nat, a: Answer, hit: Hit)
    requires i < |c| && DistinctVars(c) && SoFar(c, d, i, a)
    requires if hit == Same then c[i] in d else hit == Opposite && a == Subsumed && Neg(c[i]) in d
    ensures SoFar(c, d, i + 1, if hit == Same then a else Strengthens(c[i]))
  {
    assert c[..i + 1] == c[..i] + [c[i]];
    forall p | p in c[..i] ensures p != c[i] {
      var k :| 0 <= k < i && c[k] == p;
    }
  }

  lemma Fail(c: seq<Lit>, d: seq<Lit>, i: nat, a: Answer)
    requires i < |c| && DistinctVars(c) && DistinctVars(d) && SoFar(c, d, i, a)
    requires c[i] !in d && (a == Subsumed ==> Neg(c[i]) !in d)
    ensures Right(c, d, Neither)
  {
    assert c[i] in c;
    if a.Strengthens? {
      var k :| 0 <= k < i && c[k] == a.p;
      assert a.p in c && Neg(a.p) in d && a.p != c[i];
      NotBoth(d, a.p);
      assert !SubsetUpTo(c, d, {c[i]});
    }
  }

  /** Clause::subsumes, on the clauses and their abstractions. */
  method Subsumes(c: seq<Lit>, d: seq<Lit>) returns (ret: Answer)
    requires DistinctVars(c) && DistinctVars(d)
    ensures Right(c, d, ret)
  {
    var ca := CalcAbstraction(c);
    var da := CalcAbstraction(d);
    if |d| < |c| || ca & !da != 0 {
      QuickReject(c, d);
      return Neither;
    }
    ret := Subsumed;
    var i := 0;
    while i < |c|
      invariant 0 <= i <= |c| && SoFar(c, d, i, ret)
    {
      var hit := Find(c[i], d, ret == Subsumed);
      if hit == Missing {
        Fail(c, d, i, ret);
        return Neither;
      }
      Extend(c, d, i, ret, hit);
      if hit == Opposite { ret := Strengthens(c[i]); }
      i := i + 1;
    }
    assert c[..i] == c;
  }

  // ---------- what the answers are good for ----------

  lemma SubsumedIsImplied(a: Model, c: seq<Lit>, d: seq<Lit>)
    requires Right(c, d, Subsumed) && Satisfies(a, c)
    ensures Satisfies(a, d)
  {
  }

  /** Self-subsuming resolution: d without ~p follows. */
  lemma StrengthenedIsImplied(a: Model, c: seq<Lit>, d: seq<Lit>, p: Lit)
    requires DistinctVars(c) && Right(c, d, Strengthens(p)) && Satisfies(a, c) && Satisfies(a, d)
    ensures exists q :: q in d && q != Neg(p) && Holds(a, q)
  {
    var q :| q in d && Holds(a, q);
    if q == Neg(p) {
      var r :| r in c && Holds(a, r);
      assert r in d;
      var i :| 0 <= i < |c| && c[i] == p;
      var k :| 0 <= k < |c| && c[k] == r;
      assert i != k;
    }
  }
}
