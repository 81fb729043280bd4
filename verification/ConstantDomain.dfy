/** The constant propagation domain: partial evaluation, transfer and join. */
module ConstantDomain {
  import opened GotoPrograms

  const ROUNDING_MODE: Var := "__CPROVER_rounding_mode"
  /** To even, to zero, to minus infinity, to plus infinity, in the order in which they are tried. */
  const MODES: seq<int> := [0, 3, 1, 2]

  /** valuest: known constants, or bottom. */
  datatype Values = Values(isBottom: bool, consts: map<Var, Value>) {
    predicate IsBot() { isBottom && consts == map[] }
    function SetTo(v: Var, c: Value): Values { Values(false, consts[v := c]) }
    function Forget(v: Var): Values { Values(isBottom, consts - {v}) }
  }

  const BOTTOM := Values(true, map[])
  const TOP := Values(false, map[])

  /** simplify is a parameter; all that is asked of it is that it keeps the value. */
  type Simplifier = Expr -> Expr

  ghost predicate ValuePreserving(simplify: Simplifier, m: Meaning) {
    forall e, env, inp :: Eval(simplify(e), env, inp, m) == Eval(e, env, inp, m)
  }

  // ---------- evaluating expressions ----------

  /** replace_symbolt::replace. */
  function Subst(e: Expr, consts: map<Var, Value>): Expr {
    match e
    case Symbol(id) => if id in consts then Const(consts[id]) else e
    case Not(arg) => Not(Subst(arg, consts))
    case Op(name, args) => Op(name, seq(|args|, i requires 0 <= i < |args| => Subst(args[i], consts)))
    case _ => e
  }

  /** replace_constants_and_simplify: the new expression, and whether nothing changed. */
  function ReplaceAndSimplify(simplify: Simplifier, e: Expr, consts: map<Var, Value>): (Expr, bool) {
    var e1 := Subst(e, consts);
    var e2 := simplify(e1);
    (e2, e1 == e && e2 == e1)
  }

  function InMode(simplify: Simplifier, e: Expr, consts: map<Var, Value>, i: nat): (Expr, bool)
    requires i < |MODES|
  {
    ReplaceAndSimplify(simplify, e, consts[ROUNDING_MODE := VInt(MODES[i])])
  }

  /** partial_evaluate as a function: with an unknown rounding mode, a rewrite must be the same in all modes. */
  function PartiallyEvaluated(simplify: Simplifier, e: Expr, consts: map<Var, Value>): Expr {
    if ROUNDING_MODE in consts then ReplaceAndSimplify(simplify, e, consts).0
    else if forall i :: 0 <= i < |MODES| ==>
              !InMode(simplify, e, consts, i).1 &&
              InMode(simplify, e, consts, i).0 == InMode(simplify, e, consts, 0).0
    then InMode(simplify, e, consts, 0).0
    else e
  }

  /** partial_evaluate_with_all_rounding_modes. */
  method EvaluateInAllModes(simplify: Simplifier, e: Expr, consts: map<Var, Value>) returns (r: Expr)
    requires ROUNDING_MODE !in consts
    ensures r == PartiallyEvaluated(simplify, e, consts)
  {
    var first := e;
    var i := 0;
    while i < |MODES|
      invariant 0 <= i <= |MODES| && (i > 0 ==> first == InMode(simplify, e, consts, 0).0)
      invariant forall j :: 0 <= j < i ==>
        !InMode(simplify, e, consts, j).1 && InMode(simplify, e, consts, j).0 == InMode(simplify, e, consts, 0).0
    {
      var (result, same) := InMode(simplify, e, consts, i);
      if same { return e; }
      if i == 0 {
        first := result;
      } else if result != first {
        return e;
      }
      i := i + 1;
    }
    r := first;
  }

  method PartialEvaluate(simplify: Simplifier, e: Expr, consts: map<Var, Value>) returns (r: Expr)
    ensures r == PartiallyEvaluated(simplify, e, consts)
  {
    if ROUNDING_MODE !in consts {
      r := EvaluateInAllModes(simplify, e, consts);
    } else {
      r := ReplaceAndSimplify(simplify, e, consts).0;
    }
  }

  ghost predicate Fits(env: Env, consts: map<Var, Value>) { forall v :: v in consts ==> env(v) == consts[v] }

  /** The environment is one that the state describes. */
  ghost predicate Describes(s: Values, env: Env) { !s.isBottom && Fits(env, s.consts) }

  /** The rounding mode is known to the state, or one of the four. */
  ghost predicate ModeOk(consts: map<Var, Value>, env: Env) {
    ROUNDING_MODE in consts || exists i :: 0 <= i < |MODES| && env(ROUNDING_MODE) == VInt(MODES[i])
  }

  lemma {:induction false} SubstKeepsValue(e: Expr, consts: map<Var, Value>, env: Env, inp: Inputs, m: Meaning)
    requires Fits(env, consts)
    ensures Eval(Subst(e, consts), env, inp, m) == Eval(e, env, inp, m)
  {
    match e
    case Not(arg) => SubstKeepsValue(arg, consts, env, inp, m);
    case Op(name, args) =>
      var subst := Subst(e, consts).args;
      forall i | 0 <= i < |args| ensures Eval(subst[i], env, inp, m) == Eval(args[i], env, inp, m) {
        SubstKeepsValue(args[i], consts, env, inp, m);
      }
      assert seq(|subst|, i requires 0 <= i < |subst| => Eval(subst[i], env, inp, m)) ==
        seq(|args|, i requires 0 <= i < |args| => Eval(args[i], env, inp, m));
    case _ =>
  }

  /**
   * Partial evaluation keeps the value in every environment that the state describes, if the rounding mode is known
   * or one of the four.
   */
  lemma EvaluationKeepsValue(simplify: Simplifier, e: Expr, consts: map<Var, Value>, env: Env, inp: Inputs, m: Meaning)
    requires ValuePreserving(simplify, m) && Fits(env, consts) && ModeOk(consts, env)
    ensures Eval(PartiallyEvaluated(simplify, e, consts), env, inp, m) == Eval(e, env, inp, m)
  {
    if ROUNDING_MODE in consts {
      SubstKeepsValue(e, consts, env, inp, m);
    } else {
      var i :| 0 <= i < |MODES| && env(ROUNDING_MODE) == VInt(MODES[i]);
      SubstKeepsValue(e, consts[ROUNDING_MODE := VInt(MODES[i])], env, inp, m);
      assert Eval(InMode(simplify, e, consts, i).0, env, inp, m) == Eval(e, env, inp, m);
    }
  }

  /** A simplifier that folds equations, and a meaning of "=" for which it keeps values. */
  function FoldEquations(e: Expr): Expr {
    if e.Op? && e.name == "=" && |e.args| == 2 && e.args[0].Const? && e.args[1].Const?
    then Const(VBool(e.args[0].val == e.args[1].val)) else e
  }

  function EquationMeaning(name: string, vals: seq<Value>): Value {
    VBool(name == "=" && |vals| == 2 && vals[0] == vals[1])
  }

  /** In a mode that is neither known nor one of the four, "the mode is this one" is rewritten to false. */
  lemma FifthModeIsMisread(consts: map<Var, Value>, env: Env, inp: Inputs)
    requires !ModeOk(consts, env)
    ensures ValuePreserving(FoldEquations, EquationMeaning)
    ensures var e := Op("=", [Symbol(ROUNDING_MODE), Const(env(ROUNDING_MODE))]);
      Eval(PartiallyEvaluated(FoldEquations, e, consts), env, inp, EquationMeaning) == VBool(false) &&
      Eval(e, env, inp, EquationMeaning) == VBool(true)
  {
    var mode := env(ROUNDING_MODE);
    var e := Op("=", [Symbol(ROUNDING_MODE), Const(mode)]);
    forall i | 0 <= i < |MODES| ensures InMode(FoldEquations, e, consts, i) == (FALSE_EXPR, false) {
      assert mode != VInt(MODES[i]);
      assert Subst(e, consts[ROUNDING_MODE := VInt(MODES[i])]).args == [Const(VInt(MODES[i])), Const(mode)];
    }
    assert PartiallyEvaluated(FoldEquations, e, consts) == FALSE_EXPR;
  }

  /**
   * The value of every expression under every sound simplifier is kept exactly if the mode is known or one of the
   * four.
   */
  lemma ModeConditionIsExact(consts: map<Var, Value>, env: Env, inp: Inputs)
    requires Fits(env, consts)
    ensures ModeOk(consts, env) <==>
      forall simplify: Simplifier, m: Meaning, e: Expr :: ValuePreserving(simplify, m) ==>
      Eval(PartiallyEvaluated(simplify, e, consts), env, inp, m) == Eval(e, env, inp, m)
  {
    if ModeOk(consts, env) {
      forall simplify: Simplifier, m: Meaning, e: Expr | ValuePreserving(simplify, m)
        ensures Eval(PartiallyEvaluated(simplify, e, consts), env, inp, m) == Eval(e, env, inp, m)
      {
        EvaluationKeepsValue(simplify, e, consts, env, inp, m);
      }
    } else {
      FifthModeIsMisread(consts, env, inp);
    }
  }

  // ---------- transfer ----------

  /** transform along the edge from location l to location to; only tracked variables are kept. */
  function Transform(simplify: Simplifier, tracked: Var -> bool, p: Program, l: nat, to: nat, s: Values): Values
    requires l < |p|
  {
    if s.isBottom then s else
    match p[l]
    case Decl(v) => s.Forget(v)
    case Dead(v) => s.Forget(v)
    case Assign(v, rhs) =>
      if !tracked(v) then s
      else
        var e := PartiallyEvaluated(simplify, rhs, s.consts);
        if e.Const? then s.SetTo(v, e.val) else s.Forget(v)
    case Goto(guard, target) =>
      var g := PartiallyEvaluated(simplify, if target == to then guard else Not(guard), s.consts);
      if g == FALSE_EXPR then BOTTOM else s
    case _ => s
  }

  /** The goto at l jumps to where it would fall through to anyway. */
  predicate OwnFallThrough(p: Program, l: nat)
    requires l < |p|
  {
    p[l].Goto? && p[l].target == l + 1
  }

  /** The transfer along an edge covers every concrete step along it. */
  ghost predicate StepsCovered(simplify: Simplifier, tracked: Var -> bool, m: Meaning, p: Program, l: nat, to: nat,
                               s: Values)
    requires l < |p|
  {
    forall env, env', inp ::
      Describes(s, env) && ModeOk(s.consts, env) && Step(p, m, State(l, env), State(to, env'), inp) ==>
      Describes(Transform(simplify, tracked, p, l, to, s), env')
  }

  /** The variables that are not tracked are never in the map. */
  ghost predicate OnlyTracked(s: Values, tracked: Var -> bool) { forall v :: v in s.consts ==> tracked(v) }

  /**
   * The transfer is right for every edge but one: a goto to its own fall-through whose guard the state makes false.
   * There
   * the state becomes bottom, although execution goes on.
   */
  lemma TransferCoversExactly(simplify: Simplifier, tracked: Var -> bool, m: Meaning, p: Program, l: nat, to: nat,
                              s: Values)
    requires ValuePreserving(simplify, m) && l < |p| && !s.isBottom && OnlyTracked(s, tracked)
    requires exists env :: Describes(s, env) && ModeOk(s.consts, env)
    ensures StepsCovered(simplify, tracked, m, p, l, to, s) <==>
      !(OwnFallThrough(p, l) && to == l + 1 && PartiallyEvaluated(simplify, p[l].guard, s.consts) == FALSE_EXPR)
  {
    if OwnFallThrough(p, l) && to == l + 1 && PartiallyEvaluated(simplify, p[l].guard, s.consts) == FALSE_EXPR {
      var env :| Describes(s, env) && ModeOk(s.consts, env);
      var inp: Inputs := k => VInt(0);
      assert Step(p, m, State(l, env), State(to, env), inp);
      assert Transform(simplify, tracked, p, l, to, s).isBottom;
    } else {
      forall env, env', inp | Describes(s, env) && ModeOk(s.consts, env) &&
                                Step(p, m, State(l, env), State(to, env'), inp)
        ensures Describes(Transform(simplify, tracked, p, l, to, s), env')
      {
        StepIsCovered(simplify, tracked, m, p, l, to, s, env, env', inp);
      }
    }
  }

  lemma StepIsCovered(simplify: Simplifier, tracked: Var -> bool, m: Meaning, p: Program, l: nat, to: nat, s: Values,
                      env: Env, env': Env, inp: Inputs)
    requires ValuePreserving(simplify, m) && l < |p| && OnlyTracked(s, tracked)
    requires !(OwnFallThrough(p, l) && to == l + 1 && PartiallyEvaluated(simplify, p[l].guard, s.consts) == FALSE_EXPR)
    requires Describes(s, env) && ModeOk(s.consts, env) && Step(p, m, State(l, env), State(to, env'), inp)
    ensures Describes(Transform(simplify, tracked, p, l, to, s), env')
  {
    match p[l]
    case Assign(v, rhs) => EvaluationKeepsValue(simplify, rhs, s.consts, env, inp, m);
    case Goto(guard, target) =>
      EvaluationKeepsValue(simplify, guard, s.consts, env, inp, m);
      EvaluationKeepsValue(simplify, Not(guard), s.consts, env, inp, m);
    case _ =>
  }

  // ---------- order and join ----------

  /** s says no less than t: what s describes, t does. */
  predicate Leq(s: Values, t: Values) {
    s.isBottom || (!t.isBottom && forall v :: v in t.consts ==> v in s.consts && s.consts[v] == t.consts[v])
  }

  lemma LeqMeansMore(s: Values, t: Values, env: Env)
    requires Leq(s, t) && Describes(s, env)
    ensures Describes(t, env)
  {
  }

  lemma LeqIsTransitive(s: Values, t: Values, u: Values)
    requires Leq(s, t) && Leq(t, u)
    ensures Leq(s, u)
  {
  }

  ghost predicate Sound(s: Values) { s.isBottom ==> s.consts == map[] }

  /** The least upper bound. */
  function Join(s: Values, t: Values): Values {
    if t.isBottom then s
    else if s.isBottom then t
    else Values(false, map v | v in s.consts && v in t.consts && s.consts[v] == t.consts[v] :: s.consts[v])
  }

  lemma JoinIsLeastUpperBound(s: Values, t: Values, u: Values)
    ensures Leq(s, Join(s, t)) && Leq(t, Join(s, t))
    ensures Leq(s, u) && Leq(t, u) ==> Leq(Join(s, t), u)
  {
  }

  /** valuest::merge, which removes the constants that differ or are missing, one by one. */
  method Merge(dest: Values, src: Values) returns (r: Values, changed: bool)
    requires Sound(dest)
    ensures r == Join(dest, src) && (changed <==> r != dest)
  {
    if src.isBottom { return dest, false; }
    if dest.isBottom { return Values(false, src.consts), true; }
    if src.consts == map[] {
      r, changed := TOP, dest.consts != map[];
      assert r.consts == Join(dest, src).consts;
      return;
    }
    changed := false;
    var consts, ids := dest.consts, dest.consts.Keys;
    while ids != {}
      invariant ids <= consts.Keys <= dest.consts.Keys && forall v :: v in consts ==> consts[v] == dest.consts[v]
      invariant forall v :: v in dest.consts && v !in ids ==>
        (v in consts <==> v in src.consts && src.consts[v] == dest.consts[v])
      invariant if changed then consts != dest.consts else consts == dest.consts
    {
      var id :| id in ids;
      ids := ids - {id};
      if id in src.consts {
        if consts[id] != src.consts[id] {
          consts, changed := consts - {id}, true;
          assert id !in consts;
        }
      } else {
        consts, changed := consts - {id}, true;
        assert id !in consts;
      }
    }
    r := Values(false, consts);
    assert r.consts == Join(dest, src).consts;
  }
}
