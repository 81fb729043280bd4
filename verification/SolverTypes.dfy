/** Variables, literals, lifted booleans and the meaning of clauses. */
module SolverTypes {

  type Var = nat

  /** The source packs a literal into one integer, 2 * var + sign; see ToInt. */
  datatype Lit = Lit(v: Var, sign: bool)

  function Neg(p: Lit): Lit { Lit(p.v, !p.sign) }

  function ToInt(p: Lit): nat { 2 * p.v + if p.sign then 1 else 0 }

  function ToLit(x: nat): Lit { Lit(x / 2, x % 2 == 1) }

  lemma ToIntIsABijection(p: Lit, x: nat)
    ensures ToLit(ToInt(p)) == p && ToInt(ToLit(x)) == x
    ensures ToInt(Neg(p)) == if ToInt(p) % 2 == 0 then ToInt(p) + 1 else ToInt(p) - 1
  {
  }

  datatype LBool = LTrue | LFalse | LUndef

  function LXor(b: LBool, s: bool): LBool {
    match b
    case LTrue => if s then LFalse else LTrue
    case LFalse => if s then LTrue else LFalse
    case LUndef => LUndef
  }

  /** The truth value a variable takes when literal p is enqueued. */
  function Polarity(p: Lit): LBool { if p.sign then LFalse else LTrue }

  /** A total assignment, as the set of its true variables. */
  type Model = iset<Var>

  ghost predicate Holds(a: Model, p: Lit) { (p.v in a) != p.sign }

  ghost predicate Satisfies(a: Model, c: seq<Lit>) { exists p :: p in c && Holds(a, p) }

  ghost predicate Models(a: Model, f: set<seq<Lit>>) { forall c :: c in f ==> Satisfies(a, c) }

  ghost predicate Implied(f: set<seq<Lit>>, c: seq<Lit>) { forall a :: Models(a, f) ==> Satisfies(a, c) }

  /** Implication of a clause given as a set of literals. */
  ghost predicate ImpliedSet(f: set<seq<Lit>>, c: set<Lit>) {
    forall a :: Models(a, f) ==> exists p :: p in c && Holds(a, p)
  }

  ghost predicate Satisfiable(f: set<seq<Lit>>) { exists a :: Models(a, f) }

  predicate DistinctVars(c: seq<Lit>) { forall i, j :: 0 <= i < j < |c| ==> c[i].v != c[j].v }

  predicate InRange(c: seq<Lit>, n: nat) { forall i :: 0 <= i < |c| ==> c[i].v < n }

  /** Clause c has a literal of variable v. */
  predicate Mentions(c: seq<Lit>, v: Var) { exists k :: 0 <= k < |c| && c[k].v == v }

  ghost function VarSet(c: seq<Lit>): set<Var> { set i | 0 <= i < |c| :: c[i].v }

  ghost function LitSet(c: seq<Lit>): set<Lit> { set p | p in c }

  lemma SameLitsSameMeaning(a: Model, c: seq<Lit>, d: seq<Lit>)
    requires multiset(c) == multiset(d)
    ensures Satisfies(a, c) <==> Satisfies(a, d)
  {
    forall p ensures p in c <==> p in d {
      assert p in c <==> p in multiset(c);
      assert p in d <==> p in multiset(d);
    }
  }

  lemma VarSetAppend(c: seq<Lit>, p: Lit)
    ensures VarSet(c + [p]) == VarSet(c) + {p.v}
  {
    var d := c + [p];
    assert d[|c|] == p;
    forall v | v in VarSet(c) ensures v in VarSet(d) {
      var i :| 0 <= i < |c| && c[i].v == v;
      assert d[i].v == v;
    }
  }
}
