/** What constant propagation finds: every constant that known constants justify, edge by edge. */
module ConstantPrecision {
  import opened GotoPrograms
  import opened ConstantDomain
  import opened ConstantPropagators

  // ---------- expressions ----------

  /** All that e reads is known. */
  ghost predicate Known(e: Expr, consts: map<Var, Value>) {
    match e
    case Const(val) => true
    case Symbol(id) => id in consts
    case Nondet(k) => false
    case Not(arg) => Known(arg, consts)
    case Op(name, args) => forall i :: 0 <= i < |args| ==> Known(args[i], consts)
  }

  /** consts says what more says, or less. */
  predicate Within(consts: map<Var, Value>, more: map<Var, Value>) {
    forall v :: v in consts ==> v in more && more[v] == consts[v]
  }

  /** Put in for what e reads, further constants make no difference. */
  lemma {:induction false} KnownStaysKnown(e: Expr, consts: map<Var, Value>, more: map<Var, Value>)
    requires Known(e, consts) && Within(consts, more)
    ensures Known(e, more) && Subst(e, more) == Subst(e, consts)
  {
    match e
    case Not(arg) => KnownStaysKnown(arg, consts, more);
    case Op(name, args) =>
      forall i | 0 <= i < |args| ensures Known(args[i], more) && Subst(args[i], more) == Subst(args[i], consts) {
        KnownStaysKnown(args[i], consts, more);
      }
      assert Subst(e, more).args == Subst(e, consts).args;
    case _ =>
  }

  /** With its constants put in, e reads nothing. */
  lemma {:induction false} KnownIsClosed(e: Expr, consts: map<Var, Value>)
    requires Known(e, consts)
    ensures Known(Subst(e, consts), map[])
  {
    match e
    case Not(arg) => KnownIsClosed(arg, consts);
    case Op(name, args) => forall i | 0 <= i < |args| { KnownIsClosed(args[i], consts); }
    case _ =>
  }

  /** The simplifier turns e into a constant once the known constants are put in. */
  ghost predicate Gives(simplify: Simplifier, e: Expr, consts: map<Var, Value>, val: Value) {
    Known(e, consts) && simplify(Subst(e, consts)) == Const(val)
  }

  lemma GivesWithMore(simplify: Simplifier, e: Expr, consts: map<Var, Value>, more: map<Var, Value>, val: Value)
    requires Gives(simplify, e, consts, val) && Within(consts, more)
    ensures Gives(simplify, e, more, val)
  {
    KnownStaysKnown(e, consts, more);
  }

  /** Partial evaluation then gives that constant, whether the rounding mode is known or tried. */
  lemma GivenIsEvaluated(simplify: Simplifier, e: Expr, consts: map<Var, Value>, val: Value)
    requires Gives(simplify, e, consts, val)
    ensures PartiallyEvaluated(simplify, e, consts) == Const(val)
  {
    if ROUNDING_MODE !in consts {
      forall i: nat | i < |MODES| ensures InMode(simplify, e, consts, i) == ReplaceAndSimplify(simplify, e, consts) {
        KnownStaysKnown(e, consts, consts[ROUNDING_MODE := VInt(MODES[i])]);
      }
      assert InMode(simplify, e, consts, 0) == ReplaceAndSimplify(simplify, e, consts);
    }
  }

  /** The constant is the value of e. */
  lemma GivenIsTheValue(simplify: Simplifier, e: Expr, consts: map<Var, Value>, val: Value, env: Env, inp: Inputs,
                        m: Meaning)
    requires Gives(simplify, e, consts, val) && ValuePreserving(simplify, m) && Fits(env, consts)
    ensures Eval(e, env, inp, m) == val
  {
    SubstKeepsValue(e, consts, env, inp, m);
    assert Eval(simplify(Subst(e, consts)), env, inp, m) == Eval(Subst(e, consts), env, inp, m);
  }

  /** The simplifier computes whatever reads nothing. */
  ghost predicate Folds(simplify: Simplifier, m: Meaning) {
    forall e, env, inp :: Known(e, map[]) ==> simplify(e) == Const(Eval(e, env, inp, m))
  }

  /** Then every expression over known variables gives its value. */
  lemma FoldingGives(simplify: Simplifier, m: Meaning, e: Expr, consts: map<Var, Value>, env: Env, inp: Inputs)
    requires Folds(simplify, m) && Known(e, consts) && Fits(env, consts)
    ensures Gives(simplify, e, consts, Eval(e, env, inp, m))
  {
    KnownIsClosed(e, consts);
    SubstKeepsValue(e, consts, env, inp, m);
  }

  /** A simplifier that leaves constants alone is enough for constants and known variables. */
  lemma LeavingGives(simplify: Simplifier, consts: map<Var, Value>, u: Var, c: Value)
    requires simplify(Const(c)) == Const(c)
    ensures Gives(simplify, Const(c), consts, c)
    ensures u in consts && consts[u] == c ==> Gives(simplify, Symbol(u), consts, c)
  {
  }

  // ---------- edges ----------

  /** The instruction takes from the state what it knew of v. */
  predicate Overwrites(i: Instr, tracked: Var -> bool, v: Var) {
    match i
    case Decl(x) => x == v
    case Dead(x) => x == v
    case Assign(x, rhs) => x == v && tracked(x)
    case _ => false
  }

  /** After the instruction at l, v has the value val: it is assigned that value, or had it and keeps it. */
  ghost predicate Passes(simplify: Simplifier, tracked: Var -> bool, i: Instr, consts: map<Var, Value>, v: Var,
                         val: Value)
  {
    || (i.Assign? && i.v == v && tracked(v) && Gives(simplify, i.rhs, consts, val))
    || (v in consts && consts[v] == val && !Overwrites(i, tracked, v))
  }

  /** The goto at l does not go to to: to its target with a false guard, or past it with a true one. */
  ghost predicate EdgeIsDead(simplify: Simplifier, i: Instr, to: nat, consts: map<Var, Value>) {
    i.Goto? && Gives(simplify, if i.target == to then i.guard else Not(i.guard), consts, VBool(false))
  }

  /** What is claimed at to follows from what is claimed at l along this edge. */
  ghost predicate EdgeJustified(simplify: Simplifier, tracked: Var -> bool, i: Instr, to: nat, before: Values,
                                after: Values)
  {
    || before.isBottom || EdgeIsDead(simplify, i, to, before.consts)
    || (!after.isBottom &&
        forall v :: v in after.consts ==> Passes(simplify, tracked, i, before.consts, v, after.consts[v]))
  }

  /** The transfer finds all that is justified, from a state that knows what is claimed or more. */
  lemma TransferIsPrecise(simplify: Simplifier, tracked: Var -> bool, p: Program, l: nat, to: nat, s: Values,
                          before: Values, after: Values)
    requires l < |p| && Leq(s, before) && EdgeJustified(simplify, tracked, p[l], to, before, after)
    ensures Leq(Transform(simplify, tracked, p, l, to, s), after)
  {
    hide Gives, PartiallyEvaluated;
    if !s.isBottom {
      if EdgeIsDead(simplify, p[l], to, before.consts) {
        var g := if p[l].target == to then p[l].guard else Not(p[l].guard);
        GivesWithMore(simplify, g, before.consts, s.consts, VBool(false));
        GivenIsEvaluated(simplify, g, s.consts, VBool(false));
      } else {
        forall v | v in after.consts && p[l].Assign? && p[l].v == v && tracked(v)
          ensures PartiallyEvaluated(simplify, p[l].rhs, s.consts) == Const(after.consts[v])
        {
          assert Passes(simplify, tracked, p[l], before.consts, v, after.consts[v]);
          GivesWithMore(simplify, p[l].rhs, before.consts, s.consts, after.consts[v]);
          GivenIsEvaluated(simplify, p[l].rhs, s.consts, after.consts[v]);
        }
      }
    }
  }

  // ---------- programs ----------

  /**
   * Claims about every location, constants or that it is not reached, that follow from each other along all edges:
   * loops, joins and branches included.
   */
  ghost predicate Justified(simplify: Simplifier, tracked: Var -> bool, p: Program, claims: seq<Values>) {
    && |claims| == |p| && (|p| > 0 ==> claims[0] == TOP)
    && forall l: nat, k: nat :: IsEdge(p, l, k) ==>
         EdgeJustified(simplify, tracked, p[l], Successors(p, l)[k], claims[l], claims[Successors(p, l)[k]])
  }

  lemma JustifiedIsBound(simplify: Simplifier, tracked: Var -> bool, p: Program, claims: seq<Values>)
    requires Justified(simplify, tracked, p, claims)
    ensures Bound(simplify, tracked, p, claims)
  {
    hide EdgeJustified, Transform, StateOk;
    forall l: nat, k: nat, s | IsEdge(p, l, k) && StateOk(s, p, tracked) && Leq(s, claims[l])
      ensures StaysBelow(simplify, tracked, p, claims, l, Successors(p, l)[k], s)
    {
      var to := Successors(p, l)[k];
      TransferIsPrecise(simplify, tracked, p, l, to, s, claims[l], claims[to]);
    }
  }

  /**
   * The analysis finds all that can be justified: where a location is claimed not to be reached, its state is bottom,
   * and elsewhere the state knows every constant that is claimed.
   */
  method FindsJustified(cp: ConstantPropagator, ghost claims: seq<Values>)
    requires WellFormed(cp.program) && |cp.states| == |cp.program|
    requires forall l :: 0 <= l < |cp.program| ==> cp.states[l] == if l == 0 then TOP else BOTTOM
    requires Justified(cp.simplify, cp.tracked, cp.program, claims)
    modifies cp`states
    ensures Solution(cp.simplify, cp.tracked, cp.program, cp.states)
    ensures forall l :: 0 <= l < |claims| && claims[l].isBottom ==> cp.states[l].isBottom
    ensures forall l, v :: 0 <= l < |claims| && !cp.states[l].isBottom && v in claims[l].consts ==>
      v in cp.states[l].consts && cp.states[l].consts[v] == claims[l].consts[v]
  {
    JustifiedIsBound(cp.simplify, cp.tracked, cp.program, claims);
    hide Solution, Bound, Justified;
    var newData := cp.FixedPoint();
    assert Below(cp.states, claims);
  }

  /** And what the known constants determine is rewritten to its value. */
  lemma GivenIsReplaced(simplify: Simplifier, p: Program, states: seq<Values>, l: nat, val: Value)
    requires l < |p| == |states| && !states[l].IsBot()
    ensures var q := Replaced(simplify, p, states); var c := states[l].consts;
      match p[l]
      case Goto(guard, target) => Gives(simplify, guard, c, val) ==> q[l] == Goto(Const(val), target)
      case Assume(guard) => Gives(simplify, guard, c, val) ==> q[l] == Assume(Const(val))
      case Assert(guard) => Gives(simplify, guard, c, val) ==> q[l] == Assert(Const(val))
      case Assign(v, rhs) => Gives(simplify, rhs, c, val) ==> q[l] == Assign(v, Const(val))
      case _ => q[l] == p[l]
  {
    var c := states[l].consts;
    hide Gives, PartiallyEvaluated;
    match p[l]
    case Goto(guard, target) => if Gives(simplify, guard, c, val) { GivenIsEvaluated(simplify, guard, c, val); }
    case Assume(guard) => if Gives(simplify, guard, c, val) { GivenIsEvaluated(simplify, guard, c, val); }
    case Assert(guard) => if Gives(simplify, guard, c, val) { GivenIsEvaluated(simplify, guard, c, val); }
    case Assign(v, rhs) => if Gives(simplify, rhs, c, val) { GivenIsEvaluated(simplify, rhs, c, val); }
    case _ =>
  }
}
