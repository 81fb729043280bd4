/** What the verdicts mean, and what variables that are no decision variables cost. */
module Verdicts {
  import opened SolverTypes
  import opened Trails
  import opened Watches
  import opened Soundness

  ghost predicate Agrees(a: Model, assigns: seq<LBool>) {
    forall v :: 0 <= v < |assigns| && assigns[v] != LUndef ==> (v in a <==> assigns[v] == LTrue)
  }

  lemma AgreesHolds(a: Model, t: Trail, p: Lit)
    requires Agrees(a, t.assigns) && IsTrue(t, p)
    ensures Holds(a, p)
  {
  }

  predicate Decided(decision: seq<bool>, v: Var) { v < |decision| && decision[v] }

  /** All variables of c but at most one are decision variables. */
  predicate OneFreeAtMost(c: seq<Lit>, decision: seq<bool>) {
    forall i, j :: 0 <= i < j < |c| && !Decided(decision, c[i].v) && !Decided(decision, c[j].v) ==> c[i].v == c[j].v
  }

  ghost predicate Tautology(c: seq<Lit>) { exists p :: p in c && Neg(p) in c }

  lemma TautologyHolds(a: Model, c: seq<Lit>)
    requires Tautology(c)
    ensures Satisfies(a, c)
  {
    var p :| p in c && Neg(p) in c;
    assert Holds(a, p) || Holds(a, Neg(p));
  }

  /** The model decides all decision variables. */
  predicate AllDecided(decision: seq<bool>, model: seq<LBool>) {
    forall v :: 0 <= v < |decision| && decision[v] ==> v < |model| && model[v] != LUndef
  }

  ghost predicate Falsified(c: seq<Lit>, model: seq<LBool>) {
    forall p :: p in c ==> p.v < |model| && Value(model, p) == LFalse
  }

  /** A problem clause that is neither false nor unit is satisfied if at most one of its variables may be left open. */
  lemma ProblemClauseIsTrue(t: Trail, ca: seq<ClauseRec>, r: CRef, decision: seq<bool>, c: seq<Lit>) returns (p: Lit)
    requires NoUnitOrFalse(t, ca) && 0 <= r < |ca| && !ca[r].deleted && Part(ca[r].lits, c)
    requires DistinctVars(ca[r].lits) && AllDecided(decision, t.assigns) && InRange(ca[r].lits, |t.assigns|)
    ensures p in c && !IsFalse(t, p) && (OneFreeAtMost(c, decision) ==> IsTrue(t, p))
  {
    var d := ca[r].lits;
    if k :| 0 <= k < |d| && IsTrue(t, d[k]) {
      p := d[k];
    } else {
      var k, l :| 0 <= k < l < |d| && !IsFalse(t, d[k]) && !IsFalse(t, d[l]);
      p := d[k];
      if OneFreeAtMost(c, decision) { OpenVariables(c, decision, d[k], d[l]); }
    }
  }

  lemma OpenVariables(c: seq<Lit>, decision: seq<bool>, p: Lit, q: Lit)
    requires OneFreeAtMost(c, decision) && p in c && q in c && p.v != q.v
    ensures Decided(decision, p.v) || Decided(decision, q.v)
  {
    var i :| 0 <= i < |c| && c[i] == p;
    var j :| 0 <= j < |c| && c[j] == q;
    assert i < j || j < i;
  }

  /** With nothing left to propagate and no decision left to make, no clause of the formula is falsified. */
  lemma FullTrailIsConsistent(f: set<seq<Lit>>, t: Trail, ca: seq<ClauseRec>, clauses: seq<CRef>, decision: seq<bool>,
                              c: seq<Lit>)
    requires TrailOk(t) && ClausesOk(ca, |t.assigns|) && NoUnitOrFalse(t, ca) && Complete(f, t, ca, clauses)
    requires Listed(ca, clauses, false) && AllDecided(decision, t.assigns) && c in f
    ensures !Falsified(c, t.assigns)
  {
    hide NoUnitOrFalse, Listed;
    assert Represented(t, ca, clauses, c);
    if p :| p in c && (Neg(p) in c || IsRoot(t, p)) {
      if IsRoot(t, p) { assert IsTrue(t, p); }
    } else {
      var r :| r in clauses && 0 <= r < |ca| && Part(ca[r].lits, c);
      ListedIsLive(ca, clauses, r);
      var p := ProblemClauseIsTrue(t, ca, r, decision, c);
    }
  }

  lemma ListedIsLive(ca: seq<ClauseRec>, clauses: seq<CRef>, r: CRef)
    requires Listed(ca, clauses, false) && r in clauses
    ensures 0 <= r < |ca| && !ca[r].deleted
  {
  }

  /**
   * Every completion of the trail then satisfies each clause with at most one variable that is no decision
   * variable.
   */
  lemma FullTrailIsAModel(f: set<seq<Lit>>, t: Trail, ca: seq<ClauseRec>, clauses: seq<CRef>, decision: seq<bool>,
                          a: Model, c: seq<Lit>)
    requires TrailOk(t) && ClausesOk(ca, |t.assigns|) && NoUnitOrFalse(t, ca) && Complete(f, t, ca, clauses)
    requires Listed(ca, clauses, false) && AllDecided(decision, t.assigns)
    requires c in f && OneFreeAtMost(c, decision) && Agrees(a, t.assigns)
    ensures Satisfies(a, c)
  {
    hide NoUnitOrFalse, Listed, OneFreeAtMost;
    assert Represented(t, ca, clauses, c);
    if p :| p in c && (Neg(p) in c || IsRoot(t, p)) {
      if IsRoot(t, p) { AgreesHolds(a, t, p); } else { assert Holds(a, p) || Holds(a, Neg(p)); }
    } else {
      var r :| r in clauses && 0 <= r < |ca| && Part(ca[r].lits, c);
      ListedIsLive(ca, clauses, r);
      var p := ProblemClauseIsTrue(t, ca, r, decision, c);
      AgreesHolds(a, t, p);
    }
  }

  // ---------- the price of variables that are no decision variables ----------

  /** What search guarantees of clause c: it is true, or has two literals of different variables that are not false. */
  ghost predicate Settled(c: seq<Lit>, model: seq<LBool>) {
    || (exists p :: p in c && p.v < |model| && Value(model, p) == LTrue)
    || (exists p, q :: p in c && q in c && p.v != q.v && !Falsified([p], model) && !Falsified([q], model))
  }

  /** Some completion of some model that decides all decision variables and settles c does not satisfy c. */
  ghost predicate MayFail(c: seq<Lit>, decision: seq<bool>) {
    exists model, a ::
      |model| == |decision| && AllDecided(decision, model) && Settled(c, model) && Agrees(a, model) && !Satisfies(a, c)
  }

  /** All decision variables make c false; the others are open. */
  ghost function Against(c: seq<Lit>, decision: seq<bool>): seq<LBool> {
    seq(|decision|, v requires 0 <= v < |decision| =>
      if !decision[v] then LUndef else if Lit(v, false) in c then LFalse else LTrue)
  }

  ghost function Refuting(c: seq<Lit>): Model { iset v: Var | Lit(v, false) !in c }

  lemma RefutingFails(c: seq<Lit>)
    requires !Tautology(c)
    ensures !Satisfies(Refuting(c), c)
  {
    forall p | p in c ensures !Holds(Refuting(c), p) {
      assert p == Lit(p.v, p.sign) && (p.sign ==> Neg(p) == Lit(p.v, false));
    }
  }

  /**
   * The verdict l_True says nothing about a clause exactly if the clause has two variables that are no decision
   * variables.
   */
  lemma OpenVariablesMayFail(c: seq<Lit>, decision: seq<bool>)
    ensures MayFail(c, decision) <==> !Tautology(c) && !OneFreeAtMost(c, decision)
  {
    if !Tautology(c) && !OneFreeAtMost(c, decision) {
      var i, j :| 0 <= i < j < |c| && !Decided(decision, c[i].v) && !Decided(decision, c[j].v) && c[i].v != c[j].v;
      var model := Against(c, decision);
      assert c[i] in c && c[j] in c && c[i] in [c[i]] && c[j] in [c[j]];
      assert Settled(c, model);
      RefutingFails(c);
      assert Agrees(Refuting(c), model);
    }
    if MayFail(c, decision) {
      var model, a :| |model| == |decision| && AllDecided(decision, model) && Settled(c, model) && Agrees(a, model) &&
                          !Satisfies(a, c);
      FailingIsOpen(c, decision, model, a);
    }
  }

  lemma FailingIsOpen(c: seq<Lit>, decision: seq<bool>, model: seq<LBool>, a: Model)
    requires AllDecided(decision, model) && Settled(c, model) && Agrees(a, model) && !Satisfies(a, c)
    ensures !Tautology(c) && !OneFreeAtMost(c, decision)
  {
    if Tautology(c) { TautologyHolds(a, c); }
    NothingTrue(c, model, a);
    hide Satisfies, Tautology, Agrees;
    var p, q :| p in c && q in c && p.v != q.v && !Falsified([p], model) && !Falsified([q], model);
    OpenIfNotFalse(c, decision, model, p);
    OpenIfNotFalse(c, decision, model, q);
    hide Settled, AllDecided, Falsified;
    if OneFreeAtMost(c, decision) { OpenVariables(c, decision, p, q); }
  }

  lemma NothingTrue(c: seq<Lit>, model: seq<LBool>, a: Model)
    requires Agrees(a, model) && !Satisfies(a, c)
    ensures forall p :: p in c && p.v < |model| ==> Value(model, p) != LTrue
  {
    forall p | p in c && p.v < |model| ensures Value(model, p) != LTrue {
      assert !Holds(a, p);
    }
  }

  lemma OpenIfNotFalse(c: seq<Lit>, decision: seq<bool>, model: seq<LBool>, p: Lit)
    requires AllDecided(decision, model) && p in c && !Falsified([p], model)
    requires forall q :: q in c && q.v < |model| ==> Value(model, q) != LTrue
    ensures !Decided(decision, p.v)
  {
  }

  /** For instance: the clause x or y over two variables that are never decided. */
  lemma TwoOpenVariables()
    ensures MayFail([Lit(0, false), Lit(1, false)], [false, false])
  {
    var c := [Lit(0, false), Lit(1, false)];
    OpenVariablesMayFail(c, [false, false]);
    assert c[0].v != c[1].v;
  }

  // ---------- verdicts ----------

  /** A clause over negated assumptions that the formula implies rules the assumptions out. */
  lemma FinalConflictIsUnsat(f: set<seq<Lit>>, assumptions: seq<Lit>, out: seq<Lit>, a: Model)
    requires Implied(f, out) && forall q :: q in out ==> Neg(q) in assumptions
    requires Models(a, f)
    ensures exists p :: p in assumptions && !Holds(a, p)
  {
    assert Satisfies(a, out);
    var q :| q in out && Holds(a, q);
    assert Neg(q) in assumptions && !Holds(a, Neg(q));
  }

  /**
   * The model decides all decision variables, falsifies no clause, and all its completions satisfy what can be
   * promised.
   */
  ghost predicate ModelOk(f: set<seq<Lit>>, assumptions: seq<Lit>, decision: seq<bool>, model: seq<LBool>) {
    && AllDecided(decision, model)
    && (forall c :: c in f ==> !Falsified(c, model))
    && (forall a, p :: Agrees(a, model) && p in assumptions ==> Holds(a, p))
    && (forall a, c :: Agrees(a, model) && c in f && OneFreeAtMost(c, decision) ==> Satisfies(a, c))
  }

  /**
   * What a verdict under assumptions means. LTrue: all decision variables have a value, no clause of the formula is
   * falsified, and every completion of the model satisfies the assumptions and each clause with at most one variable
   * that
   * is no decision variable. LFalse: no model of the formula satisfies the assumptions; the conflict, if there is
   * one, is
   * a clause over negated assumptions that follows from the formula, and if there is none the formula alone has no
   * model.
   */
  ghost predicate VerdictOk(f: set<seq<Lit>>, assumptions: seq<Lit>, decision: seq<bool>, status: LBool,
                            model: seq<LBool>, conflict: seq<Lit>)
  {
    match status
    case LUndef => true
    case LTrue => ModelOk(f, assumptions, decision, model)
    case LFalse =>
      && (forall a :: Models(a, f) ==> exists p :: p in assumptions && !Holds(a, p))
      && if conflict == [] then !Satisfiable(f)
         else Implied(f, conflict) && forall q :: q in conflict ==> Neg(q) in assumptions
  }

  /** If all variables are decision variables, the verdict l_True comes with a model. */
  lemma DecidedModelIsAModel(f: set<seq<Lit>>, assumptions: seq<Lit>, decision: seq<bool>, model: seq<LBool>, a: Model)
    requires ModelOk(f, assumptions, decision, model) && Agrees(a, model)
    requires forall c, p :: c in f && p in c ==> Decided(decision, p.v)
    ensures Models(a, f)
  {
    forall c | c in f ensures Satisfies(a, c) {
      assert forall i :: 0 <= i < |c| ==> c[i] in c;
      assert OneFreeAtMost(c, decision);
    }
  }

  lemma RefutedBefore(f: set<seq<Lit>>, assumptions: seq<Lit>, decision: seq<bool>, model: seq<LBool>,
                      conflict: seq<Lit>)
    requires !Satisfiable(f) && conflict == []
    ensures VerdictOk(f, assumptions, decision, LFalse, model, conflict)
  {
  }
}
