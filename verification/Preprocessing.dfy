/** Solving after simplification: what the solver's verdict on the remaining clauses says about the whole formula. */
module Preprocessing {
  import opened SolverTypes
  import opened Trails
  import opened Elimination
  import opened ElimStack
  import opened SimpDatabase
  import opened Eliminating
  import opened Verdicts
  import opened Solvers
  import opened SimpSolvers
  import opened Costs

  /** What is left for the solver: the live clauses, and the root assignment as unit clauses. */
  ghost function Rest(ca: seq<ClauseRec>, trail: seq<Lit>): set<seq<Lit>> {
    (set r | 0 <= r < |ca| && !ca[r].deleted :: ca[r].lits) + (set p | p in trail :: [p])
  }

  lemma RestMeaning(a: Model, ca: seq<ClauseRec>, trail: seq<Lit>)
    ensures Models(a, Rest(ca, trail)) <==> DbSat(a, ca, trail)
  {
    var f := Rest(ca, trail);
    if Models(a, f) {
      forall r | 0 <= r < |ca| && !ca[r].deleted ensures Satisfies(a, ca[r].lits) {
        assert ca[r].lits in f;
      }
      forall p | p in trail ensures Holds(a, p) {
        assert [p] in f;
        UnitMeaning([p]);
      }
    }
    if DbSat(a, ca, trail) {
      forall c | c in f ensures Satisfies(a, c) {
        if p :| p in trail && c == [p] { UnitMeaning([p]); }
      }
    }
  }

  /** All literals of live clauses and of the root are over the first n variables. */
  ghost predicate RestInRange(ca: seq<ClauseRec>, trail: seq<Lit>, n: nat) {
    (forall r :: 0 <= r < |ca| ==> InRange(ca[r].lits, n)) && forall p :: p in trail ==> p.v < n
  }

  /** The rest is over variables that are left. */
  lemma RestIsDecided(ca: seq<ClauseRec>, trail: seq<Lit>, n: nat, gone: set<Var>, decision: seq<bool>)
    requires RestInRange(ca, trail, n) && Free(ca, trail, gone) && |decision| == n
    requires forall v :: 0 <= v < n ==> (decision[v] <==> v !in gone)
    ensures forall c, p :: c in Rest(ca, trail) && p in c ==> Decided(decision, p.v)
  {
    forall c, p | c in Rest(ca, trail) && p in c ensures Decided(decision, p.v) {
      var k :| 0 <= k < |c| && c[k] == p;
      if r :| 0 <= r < |ca| && !ca[r].deleted && ca[r].lits == c { assert Mentions(ca[r].lits, p.v); }
    }
  }

  /** A verdict false for the rest is one for the formula, with the same conflict clause. */
  lemma FalseAfterElimination(formula: set<seq<Lit>>, ca: seq<ClauseRec>, trail: seq<Lit>, n: nat, gone: set<Var>,
                              recs: seq<seq<Lit>>, flat: seq<nat>, assumptions: seq<Lit>, decision: seq<bool>,
                              all: seq<bool>, model: seq<LBool>, conflict: seq<Lit>)
    requires ElimOk(formula, ca, trail, n, gone, recs, flat)
    requires VerdictOk(Rest(ca, trail), assumptions, decision, LFalse, model, conflict)
    ensures VerdictOk(formula, assumptions, all, LFalse, [], conflict)
  {
    hide DbSat, Models, Rest;
    forall a | Models(a, formula) ensures Models(a, Rest(ca, trail)) {
      RestMeaning(a, ca, trail);
    }
  }

  /**
   * A verdict true for the rest, with the eliminated variables no decision variables, comes with a model of the
   * rest.
   */
  lemma TrueBeforeExtension(ca: seq<ClauseRec>, trail: seq<Lit>, n: nat, gone: set<Var>,
                            assumptions: seq<Lit>, decision: seq<bool>, model: seq<LBool>)
    requires ModelOk(Rest(ca, trail), assumptions, decision, model)
    requires |model| == |decision| == n && RestInRange(ca, trail, n) && Free(ca, trail, gone)
    requires forall v :: 0 <= v < n ==> (decision[v] <==> v !in gone)
    ensures ModelOfRest(model, ca, trail, n, gone)
  {
    hide DbSat, Models, Rest, Free, RestInRange, Agrees;
    RestIsDecided(ca, trail, n, gone, decision);
    forall a | Agrees(a, model) ensures DbSat(a, ca, trail) {
      DecidedModelIsAModel(Rest(ca, trail), assumptions, decision, model, a);
      RestMeaning(a, ca, trail);
    }
  }

  /** The extended model is total, so nothing is left open. */
  lemma TrueAfterExtension(formula: set<seq<Lit>>, rest: set<seq<Lit>>, assumptions: seq<Lit>, decision: seq<bool>,
                           all: seq<bool>, model: seq<LBool>, model': seq<LBool>)
    requires ModelOk(rest, assumptions, decision, model) && |decision| == |model| == |model'| == |all|
    requires forall v :: 0 <= v < |model'| ==> model'[v] != LUndef && (decision[v] ==> model'[v] == model[v])
    requires forall c :: c in formula ==> SatisfiedBy(model', c)
    requires forall p :: p in assumptions ==> Decided(decision, p.v)
    ensures ModelOk(formula, assumptions, all, model')
  {
    hide OneFreeAtMost;
    var b := Completed(model);
    assert Agrees(b, model);
    forall c | c in formula ensures !Falsified(c, model') && forall a :: Agrees(a, model') ==> Satisfies(a, c) {
      var k :| 0 <= k < |c| && ModelValue(model', c[k]) == LTrue;
      assert c[k] in c && forall a :: Agrees(a, model') ==> Holds(a, c[k]);
    }
    forall a, p | Agrees(a, model') && p in assumptions ensures Holds(a, p) {
      assert Holds(b, p) && model'[p.v] == model[p.v];
      CompletedHolds(model, p);
    }
  }

  // ---------- solve_ ----------

  ghost function RestUpTo(ca: seq<ClauseRec>, trail: seq<Lit>, n: nat, m: nat): set<seq<Lit>>
    requires n <= |ca| && m <= |trail|
  {
    Rest(ca[..n], trail[..m])
  }

  lemma RestNextClause(ca: seq<ClauseRec>, trail: seq<Lit>, n: nat)
    requires n < |ca|
    ensures RestUpTo(ca, trail, n + 1, 0) == RestUpTo(ca, trail, n, 0) + if ca[n].deleted then {} else {ca[n].lits}
  {
    var d, e := ca[..n], ca[..n + 1];
    forall c | c in Rest(e, []) ensures c in Rest(d, []) + if ca[n].deleted then {} else {ca[n].lits} {
      var r :| 0 <= r < |e| && !e[r].deleted && e[r].lits == c;
      if r < n { assert d[r] == e[r]; }
    }
    forall c | c in Rest(d, []) ensures c in Rest(e, []) {
      var r :| 0 <= r < |d| && !d[r].deleted && d[r].lits == c;
      assert e[r] == d[r];
    }
    if !ca[n].deleted { assert e[n].lits in Rest(e, []); }
    assert trail[..0] == [];
  }

  lemma RestNextLiteral(ca: seq<ClauseRec>, trail: seq<Lit>, m: nat)
    requires m < |trail|
    ensures RestUpTo(ca, trail, |ca|, m + 1) == RestUpTo(ca, trail, |ca|, m) + {[trail[m]]}
  {
    assert trail[..m + 1] == trail[..m] + [trail[m]];
  }

  /** A solver for the rest, in which the eliminated variables are no decision variables. */
  method Load(ca: seq<ClauseRec>, trail: seq<Lit>, eliminated: seq<bool>) returns (s: Solver)
    requires RestInRange(ca, trail, |eliminated|)
    ensures fresh(s) && s.Valid() && s.formula == Rest(ca, trail) && |s.assigns| == |s.decision| == |eliminated|
    ensures forall v :: 0 <= v < |eliminated| ==> (s.decision[v] <==> !eliminated[v])
  {
    RestWhole(ca, trail);
    hide *;
    s := new Solver();
    var v := 0;
    while v < |eliminated|
      invariant 0 <= v <= |eliminated| && s.Valid() && s.formula == {} && |s.assigns| == |s.decision| == v
      invariant fresh(s) && forall u :: 0 <= u < v ==> (s.decision[u] <==> !eliminated[u])
    {
      var x := s.NewVar(!eliminated[v]);
      v := v + 1;
    }
    LoadClauses(s, ca, trail);
    LoadLiterals(s, ca, trail);
  }

  lemma RestWhole(ca: seq<ClauseRec>, trail: seq<Lit>)
    ensures RestUpTo(ca, trail, |ca|, |trail|) == Rest(ca, trail)
  {
    assert ca[..|ca|] == ca && trail[..|trail|] == trail;
  }

  method LoadClauses(s: Solver, ca: seq<ClauseRec>, ghost trail: seq<Lit>)
    requires s.Valid() && s.formula == {} && RestInRange(ca, trail, |s.assigns|)
    modifies s
    ensures s.Valid() && s.formula == RestUpTo(ca, trail, |ca|, 0)
    ensures |s.assigns| == |old(s.assigns)| && s.decision == old(s.decision)
  {
    assert RestUpTo(ca, trail, 0, 0) == {};
    var i := 0;
    while i < |ca|
      invariant 0 <= i <= |ca| && s.Valid() && s.formula == RestUpTo(ca, trail, i, 0)
      invariant |s.assigns| == |old(s.assigns)| && s.decision == old(s.decision)
    {
      RestNextClause(ca, trail, i);
      if !ca[i].deleted { var b := s.AddClause(ca[i].lits); }
      i := i + 1;
    }
  }

  method LoadLiterals(s: Solver, ghost ca: seq<ClauseRec>, trail: seq<Lit>)
    requires s.Valid() && s.formula == RestUpTo(ca, trail, |ca|, 0) && RestInRange(ca, trail, |s.assigns|)
    modifies s
    ensures s.Valid() && s.formula == RestUpTo(ca, trail, |ca|, |trail|)
    ensures |s.assigns| == |old(s.assigns)| && s.decision == old(s.decision)
  {
    var i := 0;
    while i < |trail|
      invariant 0 <= i <= |trail| && s.Valid() && s.formula == RestUpTo(ca, trail, |ca|, i)
      invariant |s.assigns| == |old(s.assigns)| && s.decision == old(s.decision)
    {
      RestNextLiteral(ca, trail, i);
      assert trail[i] in trail;
      var b := s.AddClause([trail[i]]);
      i := i + 1;
    }
  }

  lemma MentionsNext(ps: seq<Lit>, i: nat, v: Var)
    requires i < |ps|
    ensures Mentions(ps[..i + 1], v) <==> Mentions(ps[..i], v) || v == ps[i].v
  {
    if Mentions(ps[..i], v) {
      var k :| 0 <= k < i && ps[..i][k].v == v;
      assert ps[..i + 1][k].v == v;
    }
    if v == ps[i].v { assert ps[..i + 1][i].v == v; }
    if Mentions(ps[..i + 1], v) {
      var k :| 0 <= k <= i && ps[..i + 1][k].v == v;
      assert k < i ==> ps[..i][k].v == v;
    }
  }

  /** The variables of c are frozen besides those that were; extra lists those that were not. */
  ghost predicate Freezing(before: seq<bool>, frozen: seq<bool>, c: seq<Lit>, extra: seq<Var>) {
    && |frozen| == |before| && (forall v :: v in extra ==> v < |frozen|)
    && forall v :: 0 <= v < |frozen| ==>
         (frozen[v] <==> before[v] || Mentions(c, v)) && (before[v] <==> frozen[v] && v !in extra)
  }

  lemma FreezeNothing(frozen: seq<bool>, c: seq<Lit>)
    requires c == []
    ensures Freezing(frozen, frozen, c, [])
  {
  }

  lemma FreezeNext(before: seq<bool>, frozen: seq<bool>, ps: seq<Lit>, i: nat, extra: seq<Var>)
    requires i < |ps| && ps[i].v < |frozen| && Freezing(before, frozen, ps[..i], extra)
    ensures var v := ps[i].v;
      if frozen[v] then Freezing(before, frozen, ps[..i + 1], extra)
      else Freezing(before, frozen[v := true], ps[..i + 1], extra + [v])
  {
    forall u { MentionsNext(ps, i, u); }
    hide Mentions;
  }

  method Freeze(simp: SimpSolver, assumptions: seq<Lit>) returns (extra: seq<Var>)
    requires simp.Valid() && InRange(assumptions, |simp.assigns|)
    modifies simp`frozen, simp`elimHeap
    ensures simp.Valid() && |simp.frozen| == |simp.assigns|
    ensures Freezing(old(simp.frozen), simp.frozen, assumptions, extra)
    ensures Requeued(simp.ca, old(simp.Waiters()), simp.ca, simp.Waiters())
  {
    simp.Lengths();
    FreezeNothing(simp.frozen, assumptions[..0]);
    hide *;
    NothingLost(simp.ca, simp.Waiters(), simp.Waiters());
    extra := [];
    var i := 0;
    while i < |assumptions|
      invariant 0 <= i <= |assumptions| && simp.Valid() && |simp.frozen| == |simp.assigns|
      invariant Requeued(simp.ca, old(simp.Waiters()), simp.ca, simp.Waiters())
      invariant Freezing(old(simp.frozen), simp.frozen, assumptions[..i], extra)
    {
      var v := assumptions[i].v;
      AssumptionInRange(assumptions, |simp.assigns|, i);
      FreezeNext(old(simp.frozen), simp.frozen, assumptions, i, extra);
      if !simp.frozen[v] {
        ghost var w := simp.Waiters();
        simp.SetFrozen(v, true);
        RequeuedTwice(simp.ca, old(simp.Waiters()), simp.ca, w, simp.ca, simp.Waiters());
        extra := extra + [v];
      }
      i := i + 1;
    }
    assert assumptions[..i] == assumptions;
  }

  lemma AssumptionInRange(ps: seq<Lit>, n: nat, i: nat)
    requires InRange(ps, n) && i < |ps|
    ensures ps[i].v < n
  {
  }

  method Unfreeze(simp: SimpSolver, extra: seq<Var>)
    requires simp.Valid() && forall v :: v in extra ==> v < |simp.assigns|
    modifies simp`frozen, simp`elimHeap
    ensures simp.Valid() && |simp.frozen| == |old(simp.frozen)| == |simp.assigns|
    ensures forall v :: 0 <= v < |simp.frozen| ==> (simp.frozen[v] <==> old(simp.frozen)[v] && v !in extra)
    ensures Requeued(simp.ca, old(simp.Waiters()), simp.ca, simp.Waiters())
  {
    simp.Lengths();
    hide *;
    NothingLost(simp.ca, simp.Waiters(), simp.Waiters());
    var i := 0;
    while i < |extra|
      invariant 0 <= i <= |extra| && simp.Valid() && |simp.frozen| == |old(simp.frozen)| == |simp.assigns|
      invariant Requeued(simp.ca, old(simp.Waiters()), simp.ca, simp.Waiters())
      invariant forall v :: 0 <= v < |simp.frozen| ==> (simp.frozen[v] <==> old(simp.frozen)[v] && v !in extra[..i])
    {
      assert extra[i] in extra && extra[..i + 1] == extra[..i] + [extra[i]];
      ghost var w := simp.Waiters();
      simp.SetFrozen(extra[i], false);
      RequeuedTwice(simp.ca, old(simp.Waiters()), simp.ca, w, simp.ca, simp.Waiters());
      i := i + 1;
    }
    assert extra[..i] == extra;
  }

  /** In the extended model every variable has a value, as if all were decision variables. */
  function AllVars(n: nat): seq<bool> { seq(n, v => true) }

  /** Solve what is left, and extend a model of it. */
  method SolveRest(simp: SimpSolver, assumptions: seq<Lit>, luby: bool, inc: real, first: nat, mode: nat,
                   removeSatisfied: bool, budgeted: bool) returns (status: LBool, model: seq<LBool>, conflict: seq<Lit>)
    requires simp.Valid() && simp.ok && InRange(assumptions, |simp.assigns|) && inc > 1.0 && first >= 1
    requires forall p :: p in assumptions ==> p.v < |simp.eliminated| && !simp.eliminated[p.v]
    modifies simp`ok
    ensures simp.Valid() && simp.ok == !(status == LFalse && conflict == [])
    ensures VerdictOk(simp.formula, assumptions, AllVars(|simp.assigns|), status, model, conflict)
    ensures (status == LUndef ==> budgeted) && (status == LTrue ==> |model| == |simp.assigns|)
  {
    simp.Lengths();
    RestFits(simp);
    hide *;
    var s := Load(simp.ca, simp.trail, simp.eliminated);
    status := s.Solve(assumptions, luby, inc, first, mode, removeSatisfied, budgeted);
    model, conflict := [], s.conflict;
    if status == LTrue {
      SatisfiableRest(simp, assumptions, s.decision, s.model, conflict);
      model := simp.ExtendSolverModel(s.model);
      ExtendedVerdict(simp, assumptions, s.decision, s.model, model, conflict);
    } else if status == LFalse {
      RestRefuted(simp, assumptions, s.decision, s.model, conflict);
      if conflict == [] { RefuteAll(simp); }
    } else {
      NoVerdict(simp.formula, assumptions, AllVars(|simp.assigns|), model, conflict);
    }
  }

  method RefuteAll(simp: SimpSolver)
    requires simp.Valid() && !Satisfiable(simp.formula)
    modifies simp`ok
    ensures simp.Valid() && !simp.ok
  {
    hide IndexOk, RootOk, Free, ElimOk, Satisfiable;
    simp.ok := false;
  }

  lemma NoVerdict(f: set<seq<Lit>>, assumptions: seq<Lit>, all: seq<bool>, model: seq<LBool>, conflict: seq<Lit>)
    ensures VerdictOk(f, assumptions, all, LUndef, model, conflict)
  {
  }

  lemma SatisfiableRest(simp: SimpSolver, assumptions: seq<Lit>, decision: seq<bool>, model: seq<LBool>,
                        conflict: seq<Lit>)
    requires simp.Valid() && VerdictOk(Rest(simp.ca, simp.trail), assumptions, decision, LTrue, model, conflict)
    requires |model| == |decision| == |simp.assigns|
    requires forall v :: 0 <= v < |decision| ==> v < |simp.eliminated| && (decision[v] <==> !simp.eliminated[v])
    ensures ModelOfRest(model, simp.ca, simp.trail, |simp.assigns|, simp.Gone())
  {
    RestFits(simp);
    hide ModelOk;
    TrueBeforeExtension(simp.ca, simp.trail, |simp.assigns|, simp.Gone(), assumptions, decision, model);
  }

  lemma ExtendedVerdict(simp: SimpSolver, assumptions: seq<Lit>, decision: seq<bool>, model: seq<LBool>,
                        model': seq<LBool>, conflict: seq<Lit>)
    requires VerdictOk(Rest(simp.ca, simp.trail), assumptions, decision, LTrue, model, conflict)
    requires |decision| == |model| == |model'| == |simp.assigns| == |simp.eliminated|
    requires forall v :: 0 <= v < |decision| ==> (decision[v] <==> !simp.eliminated[v])
    requires forall v :: 0 <= v < |model'| ==> model'[v] != LUndef
    requires forall v :: 0 <= v < |model'| && !simp.eliminated[v] ==> model'[v] == model[v]
    requires forall c :: c in simp.formula ==> SatisfiedBy(model', c)
    requires forall p :: p in assumptions ==> p.v < |simp.eliminated| && !simp.eliminated[p.v]
    ensures VerdictOk(simp.formula, assumptions, AllVars(|simp.assigns|), LTrue, model', conflict)
  {
    hide ModelOk, SatisfiedBy, Rest;
    TrueAfterExtension(simp.formula, Rest(simp.ca, simp.trail), assumptions, decision, AllVars(|simp.assigns|), model,
                       model');
  }

  lemma RestFits(simp: SimpSolver)
    requires simp.Valid()
    ensures RestInRange(simp.ca, simp.trail, |simp.assigns|)
  {
  }

  lemma RestRefuted(simp: SimpSolver, assumptions: seq<Lit>, decision: seq<bool>, model: seq<LBool>, conflict: seq<Lit>)
    requires simp.Valid() && simp.ok
    requires VerdictOk(Rest(simp.ca, simp.trail), assumptions, decision, LFalse, model, conflict)
    ensures VerdictOk(simp.formula, assumptions, AllVars(|simp.assigns|), LFalse, [], conflict)
    ensures conflict == [] ==> !Satisfiable(simp.formula)
  {
    FalseAfterElimination(simp.formula, simp.ca, simp.trail, |simp.assigns|, simp.Gone(), simp.recs, simp.elimclauses,
                          assumptions,
                          decision, AllVars(|simp.assigns|), model, conflict);
  }

  /**
   * solve_ of the simplifier: the assumptions are frozen, variables are eliminated, the rest is solved and its model
   * extended. The verdict is for the formula as it was given, and a model gives every variable a value.
   */
  method SolveSimplified(simp: SimpSolver, assumptions: seq<Lit>, doSimp: bool, asymm: bool, elim: bool, grow: int,
                         clauseLim: int, subLim: int, check: bool, luby: bool, inc: real, first: nat, mode: nat,
                         removeSatisfied: bool, budgeted: bool)
      returns (status: LBool, model: seq<LBool>, conflict: seq<Lit>)
    requires simp.Valid() && InRange(assumptions, |simp.assigns|) && inc > 1.0 && first >= 1
    requires forall p :: p in assumptions ==> p.v < |simp.eliminated| && !simp.eliminated[p.v]
    modifies simp
    ensures simp.Valid() && simp.formula == old(simp.formula) && |simp.assigns| == |old(simp.assigns)|
    ensures simp.ok == !(status == LFalse && conflict == []) && (simp.ok ==> simp.frozen == old(simp.frozen))
    ensures VerdictOk(simp.formula, assumptions, AllVars(|simp.assigns|), status, model, conflict)
    ensures (status == LUndef ==> budgeted) && (status == LTrue ==> |model| == |simp.assigns|)
    ensures doSimp && elim && simp.ok && !simp.asynchInterrupt ==>
      Steady(old(simp.ca), old(simp.Waiters()), simp.ca, simp.Waiters(), grow, clauseLim)
  {
    simp.Lengths();
    hide *;
    var extra := [];
    if doSimp { extra := Preprocess(simp, assumptions, asymm, elim, grow, clauseLim, subLim, check); }
    ghost var w := simp.Waiters();
    if !simp.ok {
      status, model, conflict := LFalse, [], [];
      SimpRefuted(simp, assumptions);
    } else {
      status, model, conflict := SolveRest(simp, assumptions, luby, inc, first, mode, removeSatisfied, budgeted);
    }
    if doSimp {
      Unfreeze(simp, extra);
      if elim && simp.ok && !simp.asynchInterrupt {
        RequeuedIsSteady(simp.ca, w, simp.ca, simp.Waiters(), grow, clauseLim);
        SteadyTwice(old(simp.ca), old(simp.Waiters()), simp.ca, w, simp.ca, simp.Waiters(), grow, clauseLim);
      }
    }
  }

  /** Freeze the assumptions and eliminate; extra are those that were not frozen before. */
  method Preprocess(simp: SimpSolver, assumptions: seq<Lit>, asymm: bool, elim: bool, grow: int, clauseLim: int,
                    subLim: int, check: bool) returns (extra: seq<Var>)
    requires simp.Valid() && InRange(assumptions, |simp.assigns|)
    requires forall p :: p in assumptions ==> p.v < |simp.eliminated| && !simp.eliminated[p.v]
    modifies simp
    ensures simp.Valid() && simp.formula == old(simp.formula) && |simp.assigns| == |old(simp.assigns)|
    ensures |simp.frozen| == |simp.assigns| && forall v :: v in extra ==> v < |simp.assigns|
    ensures simp.ok ==> forall p :: p in assumptions ==> p.v < |simp.eliminated| && !simp.eliminated[p.v]
    ensures simp.ok ==> |old(simp.frozen)| == |simp.frozen| && forall v :: 0 <= v < |simp.frozen| ==>
      (old(simp.frozen)[v] <==> simp.frozen[v] && v !in extra)
    ensures elim && simp.ok && !simp.asynchInterrupt ==>
      Steady(old(simp.ca), old(simp.Waiters()), simp.ca, simp.Waiters(), grow, clauseLim)
  {
    hide SimpSolver.Valid, SimpSolver.Waiters, Steady, Requeued, Spared, ElimOk, SimpSolver.Tidy;
    simp.Lengths();
    extra := Freeze(simp, assumptions);
    ghost var eliminated, frozen, w := simp.eliminated, simp.frozen, simp.Waiters();
    var b := simp.Eliminate(asymm, elim, grow, clauseLim, subLim, check);
    simp.Lengths();
    if b {
      AssumptionsAreLeft(assumptions, eliminated, old(simp.frozen), frozen, extra, simp.eliminated, simp.frozen);
      if elim && !simp.asynchInterrupt {
        RequeuedIsSteady(old(simp.ca), old(simp.Waiters()), old(simp.ca), w, grow, clauseLim);
        SteadyTwice(old(simp.ca), old(simp.Waiters()), old(simp.ca), w, simp.ca, simp.Waiters(), grow, clauseLim);
      }
    }
  }

  lemma SimpRefuted(simp: SimpSolver, assumptions: seq<Lit>)
    requires simp.Valid() && !simp.ok
    ensures VerdictOk(simp.formula, assumptions, AllVars(|simp.assigns|), LFalse, [], [])
  {
    RefutedBefore(simp.formula, assumptions, AllVars(|simp.assigns|), [], []);
  }

  lemma AssumptionsAreLeft(assumptions: seq<Lit>, eliminated: seq<bool>, before: seq<bool>, frozen: seq<bool>,
                           extra: seq<Var>, eliminated': seq<bool>, frozen': seq<bool>)
    requires Spared(eliminated, frozen, eliminated', frozen')
    requires |eliminated| == |frozen| && Freezing(before, frozen, assumptions, extra)
    requires forall p :: p in assumptions ==> p.v < |eliminated| && !eliminated[p.v]
    ensures forall p :: p in assumptions ==> p.v < |eliminated'| && !eliminated'[p.v]
    ensures frozen' == frozen
  {
    forall p | p in assumptions ensures p.v < |eliminated'| && !eliminated'[p.v] {
      var k :| 0 <= k < |assumptions| && assumptions[k] == p;
      assert Mentions(assumptions, p.v);
    }
  }
}
