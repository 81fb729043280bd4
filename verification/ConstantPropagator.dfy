/** The worklist fixpoint over the constant domain, its soundness on concrete runs, and the rewriting of the program. */
module ConstantPropagators {
  import opened GotoPrograms
  import opened ConstantDomain

  /** The variables that some assignment can make known. */
  ghost function Assigned(p: Program): set<Var> { set l | 0 <= l < |p| && p[l].Assign? :: p[l].v }

  /** A state of the analysis: bottom has no constants, and constants are for tracked variables that are assigned. */
  ghost predicate StateOk(s: Values, p: Program, tracked: Var -> bool) {
    Sound(s) && OnlyTracked(s, tracked) && s.consts.Keys <= Assigned(p)
  }

  ghost predicate StatesOk(states: seq<Values>, p: Program, tracked: Var -> bool) {
    |states| == |p| && forall l :: 0 <= l < |p| ==> StateOk(states[l], p, tracked)
  }

  lemma TransformKeepsOk(simplify: Simplifier, tracked: Var -> bool, p: Program, l: nat, to: nat, s: Values)
    requires l < |p| && StateOk(s, p, tracked)
    ensures StateOk(Transform(simplify, tracked, p, l, to, s), p, tracked)
  {
    if p[l].Assign? { assert p[l].v in Assigned(p); }
  }

  lemma JoinKeepsOk(tracked: Var -> bool, p: Program, s: Values, t: Values)
    requires StateOk(s, p, tracked) && StateOk(t, p, tracked)
    ensures StateOk(Join(s, t), p, tracked)
  {
  }

  // ---------- termination ----------

  ghost function Height(s: Values, n: nat): nat { if s.isBottom then n + 1 else |s.consts| }

  ghost function Total(states: seq<Values>, n: nat): nat {
    if states == [] then 0 else Total(states[..|states| - 1], n) + Height(states[|states| - 1], n)
  }

  lemma {:induction false} TotalUpdate(states: seq<Values>, n: nat, k: nat, s: Values)
    requires k < |states|
    ensures Total(states[k := s], n) + Height(states[k], n) == Total(states, n) + Height(s, n)
  {
    var m := |states| - 1;
    if k == m {
      assert states[k := s][..m] == states[..m];
    } else {
      assert states[k := s][..m] == states[..m][k := s];
      TotalUpdate(states[..m], n, k, s);
    }
  }

  lemma {:induction false} SmallerSet(a: set<Var>, b: set<Var>)
    requires a <= b
    ensures |a| <= |b| && (a != b ==> |a| < |b|)
  {
    if a != {} {
      var x :| x in a;
      SmallerSet(a - {x}, b - {x});
    }
  }

  lemma SameKeysSameJoin(s: Values, t: Values)
    requires !s.isBottom && Join(s, t).consts.Keys == s.consts.Keys
    ensures Join(s, t) == s
  {
    assert Join(s, t).consts == s.consts;
  }

  /** A merge that changes the state brings it closer to top. */
  lemma JoinLowersHeight(p: Program, tracked: Var -> bool, s: Values, t: Values)
    requires StateOk(s, p, tracked) && StateOk(t, p, tracked) && Join(s, t) != s
    ensures Height(Join(s, t), |Assigned(p)|) < Height(s, |Assigned(p)|)
  {
    SmallerSet(t.consts.Keys, Assigned(p));
    if !s.isBottom {
      var j := Join(s, t);
      if j.consts.Keys == s.consts.Keys {
        SameKeysSameJoin(s, t);
        assert false;
      }
      SmallerSet(j.consts.Keys, s.consts.Keys);
    }
  }

  // ---------- the fixpoint ----------

  /** What flows from l to its k-th successor is covered there. */
  ghost predicate FlowOk(simplify: Simplifier, tracked: Var -> bool, p: Program, states: seq<Values>, l: nat, k: nat) {
    && l < |p| && |states| == |p| && k < |Successors(p, l)| && Successors(p, l)[k] < |p|
    && var to := Successors(p, l)[k]; Leq(Transform(simplify, tracked, p, l, to, states[l]), states[to])
  }

  /** All flow is covered but for what the working set will still look at. */
  ghost predicate Covered(simplify: Simplifier, tracked: Var -> bool, p: Program, states: seq<Values>, work: set<nat>) {
    forall l: nat, k: nat :: l < |p| && l !in work && k < |Successors(p, l)| ==>
      FlowOk(simplify, tracked, p, states, l, k)
  }

  /** The same in the middle of a visit of l, of which the first n successors have been looked at. */
  ghost predicate PartlyCovered(simplify: Simplifier, tracked: Var -> bool, p: Program, states: seq<Values>,
                                work: set<nat>, l: nat, n: nat)
  {
    forall x: nat, k: nat :: x < |p| && x !in work && k < |Successors(p, x)| && (x == l ==> k < n) ==>
      FlowOk(simplify, tracked, p, states, x, k)
  }

  lemma NoEdgeYet(simplify: Simplifier, tracked: Var -> bool, p: Program, states: seq<Values>, work: set<nat>, l: nat)
    requires Covered(simplify, tracked, p, states, work + {l})
    ensures PartlyCovered(simplify, tracked, p, states, work, l, 0)
  {
  }

  lemma AllEdgesDone(simplify: Simplifier, tracked: Var -> bool, p: Program, states: seq<Values>, work: set<nat>,
                     l: nat)
    requires l < |p| && PartlyCovered(simplify, tracked, p, states, work, l, |Successors(p, l)|)
    ensures Covered(simplify, tracked, p, states, work)
  {
  }

  /** A step keeps what was covered, but perhaps for the flow out of a location whose state has changed. */
  ghost predicate Kept(simplify: Simplifier, tracked: Var -> bool, p: Program, states: seq<Values>,
                       states': seq<Values>, to: nat, changed: bool)
  {
    forall x: nat, k: nat :: FlowOk(simplify, tracked, p, states, x, k) ==>
      FlowOk(simplify, tracked, p, states', x, k) || (changed && x == to)
  }

  lemma StepKeepsPartlyCovered(simplify: Simplifier, tracked: Var -> bool, p: Program, states: seq<Values>,
                               states': seq<Values>, work: set<nat>, work': set<nat>, l: nat, n: nat, changed: bool)
    requires PartlyCovered(simplify, tracked, p, states, work, l, n) && l < |p| && n < |Successors(p, l)|
    requires Kept(simplify, tracked, p, states, states', Successors(p, l)[n], changed)
    requires FlowOk(simplify, tracked, p, states', l, n) || (changed && l == Successors(p, l)[n])
    requires work' == work + if changed then {Successors(p, l)[n]} else {}
    ensures PartlyCovered(simplify, tracked, p, states', work', l, n + 1)
  {
    hide FlowOk;
  }

  /** A fixpoint that covers the entry. */
  ghost predicate Solution(simplify: Simplifier, tracked: Var -> bool, p: Program, states: seq<Values>) {
    && WellFormed(p) && StatesOk(states, p, tracked) && (|p| > 0 ==> states[0] == TOP)
    && Covered(simplify, tracked, p, states, {})
  }

  /** Raising the state of to keeps what was covered, except the flow out of to. */
  lemma RaiseKeeps(simplify: Simplifier, tracked: Var -> bool, p: Program, states: seq<Values>, to: nat, s: Values)
    requires |states| == |p| && to < |p| && Leq(states[to], s)
    ensures Kept(simplify, tracked, p, states, states[to := s], to, true)
  {
    forall x: nat, k: nat | FlowOk(simplify, tracked, p, states, x, k) && x != to
      ensures FlowOk(simplify, tracked, p, states[to := s], x, k)
    {
      if Successors(p, x)[k] == to {
        LeqIsTransitive(Transform(simplify, tracked, p, x, to, states[x]), states[to], s);
      }
    }
  }

  lemma TopAbsorbs(s: Values)
    ensures Join(TOP, s) == TOP
  {
  }

  /** What merging the flow from l to its k-th successor does. */
  lemma MergedFlow(simplify: Simplifier, tracked: Var -> bool, p: Program, states: seq<Values>, l: nat, k: nat,
                   flow: Values)
    requires StatesOk(states, p, tracked) && l < |p| && states[0] == TOP
    requires k < |Successors(p, l)| && Successors(p, l)[k] < |p|
    requires flow == Transform(simplify, tracked, p, l, Successors(p, l)[k], states[l])
    ensures var to := Successors(p, l)[k]; var merged := Join(states[to], flow); var states' := states[to := merged];
      && Sound(states[to]) && StatesOk(states', p, tracked) && states'[0] == TOP
      && Kept(simplify, tracked, p, states, states', to, merged != states[to])
      && (FlowOk(simplify, tracked, p, states', l, k) || (merged != states[to] && l == to))
      && if merged != states[to] then Total(states', |Assigned(p)|) < Total(states, |Assigned(p)|)
         else states' == states
  {
    var to := Successors(p, l)[k];
    var merged := Join(states[to], flow);
    MergedState(simplify, tracked, p, states, l, to, flow);
    hide Transform, StateOk, StatesOk, Total, Join, Leq, Sound;
    if merged != states[to] {
      JoinLowersHeight(p, tracked, states[to], flow);
      TotalUpdate(states, |Assigned(p)|, to, merged);
      RaiseKeeps(simplify, tracked, p, states, to, merged);
    } else {
      assert states[to := merged] == states;
    }
  }

  lemma MergedState(simplify: Simplifier, tracked: Var -> bool, p: Program, states: seq<Values>, l: nat, to: nat,
                    flow: Values)
    requires StatesOk(states, p, tracked) && l < |p| && to < |p| && states[0] == TOP
    requires flow == Transform(simplify, tracked, p, l, to, states[l])
    ensures var merged := Join(states[to], flow);
      && Sound(states[to]) && StateOk(states[to], p, tracked) && StateOk(flow, p, tracked)
      && StatesOk(states[to := merged], p, tracked) && states[to := merged][0] == TOP
      && Leq(states[to], merged) && Leq(flow, merged)
  {
    assert StateOk(states[to], p, tracked) && StateOk(states[l], p, tracked);
    TransformKeepsOk(simplify, tracked, p, l, to, states[l]);
    JoinKeepsOk(tracked, p, states[to], flow);
    JoinIsLeastUpperBound(states[to], flow, TOP);
    TopAbsorbs(flow);
    hide Transform, Join, Leq;
  }

  // ---------- the result is the least ----------

  ghost predicate IsEdge(p: Program, l: nat, k: nat) { l < |p| && k < |Successors(p, l)| && Successors(p, l)[k] < |p| }

  /** Nothing flows out of bound: the entry is within it, and what flows from below a state stays below. */
  ghost predicate Bound(simplify: Simplifier, tracked: Var -> bool, p: Program, bound: seq<Values>) {
    && |bound| == |p| && (|p| > 0 ==> Leq(TOP, bound[0]))
    && forall l: nat, k: nat, s :: IsEdge(p, l, k) && StateOk(s, p, tracked) && Leq(s, bound[l]) ==>
         StaysBelow(simplify, tracked, p, bound, l, Successors(p, l)[k], s)
  }

  ghost predicate StaysBelow(simplify: Simplifier, tracked: Var -> bool, p: Program, bound: seq<Values>, l: nat,
                             to: nat, s: Values)
    requires l < |p| && to < |bound|
  {
    Leq(Transform(simplify, tracked, p, l, to, s), bound[to])
  }

  ghost predicate Below(states: seq<Values>, bound: seq<Values>) {
    |bound| == |states| && forall l :: 0 <= l < |states| ==> Leq(states[l], bound[l])
  }

  ghost predicate BelowAll(simplify: Simplifier, tracked: Var -> bool, p: Program, states: seq<Values>) {
    forall bound :: Bound(simplify, tracked, p, bound) ==> Below(states, bound)
  }

  lemma MergeStaysBelow(simplify: Simplifier, tracked: Var -> bool, p: Program, states: seq<Values>, l: nat, k: nat,
                        flow: Values)
    requires StatesOk(states, p, tracked) && IsEdge(p, l, k)
    requires flow == Transform(simplify, tracked, p, l, Successors(p, l)[k], states[l])
    requires BelowAll(simplify, tracked, p, states)
    ensures var to := Successors(p, l)[k]; BelowAll(simplify, tracked, p, states[to := Join(states[to], flow)])
  {
    var to := Successors(p, l)[k];
    assert StateOk(states[l], p, tracked);
    hide Transform, StateOk, Leq, Join;
    forall bound | Bound(simplify, tracked, p, bound) ensures Below(states[to := Join(states[to], flow)], bound) {
      assert Below(states, bound) && StaysBelow(simplify, tracked, p, bound, l, to, states[l]);
      JoinIsLeastUpperBound(states[to], flow, bound[to]);
    }
  }

  /** More known before the transfer, more known after it. */
  ghost predicate Monotone(simplify: Simplifier, tracked: Var -> bool, p: Program) {
    forall l: nat, to: nat, s, t :: l < |p| && StateOk(s, p, tracked) && StateOk(t, p, tracked) && Leq(s, t) ==>
      Leq(Transform(simplify, tracked, p, l, to, s), Transform(simplify, tracked, p, l, to, t))
  }

  /** With a monotone transfer, what is below all bounds is below every solution. */
  lemma SolutionsAreBounds(simplify: Simplifier, tracked: Var -> bool, p: Program, sol: seq<Values>)
    requires Monotone(simplify, tracked, p) && Solution(simplify, tracked, p, sol)
    ensures Bound(simplify, tracked, p, sol)
  {
    hide Transform, Leq;
    assert |p| > 0 ==> Leq(TOP, sol[0]) by { TopIsTop(); }
    forall l: nat, k: nat, s | IsEdge(p, l, k) && StateOk(s, p, tracked) && Leq(s, sol[l])
      ensures StaysBelow(simplify, tracked, p, sol, l, Successors(p, l)[k], s)
    {
      assert FlowOk(simplify, tracked, p, sol, l, k) && StateOk(sol[l], p, tracked);
      var to := Successors(p, l)[k];
      LeqIsTransitive(Transform(simplify, tracked, p, l, to, s), Transform(simplify, tracked, p, l, to, sol[l]),
                      sol[to]);
    }
  }

  function Unsimplified(e: Expr): Expr { e }

  /** A constant under fewer constants is the same constant under more. */
  lemma MoreKnownSameConstant(e: Expr, c: map<Var, Value>, d: map<Var, Value>)
    requires forall v :: v in d ==> v in c && c[v] == d[v]
    requires PartiallyEvaluated(Unsimplified, e, d).Const?
    ensures PartiallyEvaluated(Unsimplified, e, c) == PartiallyEvaluated(Unsimplified, e, d)
  {
    match e
    case Symbol(id) =>
      assert InMode(Unsimplified, e, d, 0).0 == InMode(Unsimplified, e, d, 1).0 || ROUNDING_MODE in d || e.Const?;
    case _ =>
  }

  /** For instance, the transfer is monotone if nothing is simplified beyond replacing constants. */
  lemma ReplacingIsMonotone(tracked: Var -> bool, p: Program)
    ensures Monotone(Unsimplified, tracked, p)
  {
    forall l: nat, to: nat, s, t | l < |p| && StateOk(s, p, tracked) && StateOk(t, p, tracked) && Leq(s, t)
      ensures Leq(Transform(Unsimplified, tracked, p, l, to, s), Transform(Unsimplified, tracked, p, l, to, t))
    {
      if !s.isBottom && p[l].Assign? {
        if PartiallyEvaluated(Unsimplified, p[l].rhs, t.consts).Const? {
          MoreKnownSameConstant(p[l].rhs, s.consts, t.consts);
        }
      } else if !s.isBottom && p[l].Goto? {
        var g := if p[l].target == to then p[l].guard else Not(p[l].guard);
        if PartiallyEvaluated(Unsimplified, g, t.consts).Const? { MoreKnownSameConstant(g, s.consts, t.consts); }
      }
    }
  }

  lemma TopIsTop()
    ensures Leq(TOP, TOP)
  {
  }

  class ConstantPropagator {
    const program: Program
    const simplify: Simplifier
    const tracked: Var -> bool
    var states: seq<Values>

    /** initialize and entry_state: everything is unreachable but the entry, where nothing is known. */
    constructor (program: Program, simplify: Simplifier, tracked: Var -> bool)
      ensures this.program == program && this.simplify == simplify && this.tracked == tracked
      ensures |states| == |program| && forall l :: 0 <= l < |program| ==> states[l] == if l == 0 then TOP else BOTTOM
    {
      this.program, this.simplify, this.tracked := program, simplify, tracked;
      states := seq(|program|, l => if l == 0 then TOP else BOTTOM);
    }

    ghost predicate Ok()
      reads this
    {
      WellFormed(program) && StatesOk(states, program, tracked) && (|program| > 0 ==> states[0] == TOP)
    }

    /** Merge what flows from l to its k-th successor. */
    method Flow(l: nat, k: nat) returns (changed: bool)
      requires Ok() && l < |program| && k < |Successors(program, l)| && Successors(program, l)[k] < |program|
      modifies `states
      ensures Ok()
      ensures if changed then Total(states, |Assigned(program)|) < Total(old(states), |Assigned(program)|)
              else states == old(states)
      ensures Kept(simplify, tracked, program, old(states), states, Successors(program, l)[k], changed)
      ensures FlowOk(simplify, tracked, program, states, l, k) || (changed && l == Successors(program, l)[k])
      ensures old(BelowAll(simplify, tracked, program, states)) ==> BelowAll(simplify, tracked, program, states)
    {
      var to := Successors(program, l)[k];
      var flow := Transform(simplify, tracked, program, l, to, states[l]);
      assert StateOk(states[to], program, tracked);
      MergedFlow(simplify, tracked, program, states, l, k, flow);
      if BelowAll(simplify, tracked, program, states) {
        MergeStaysBelow(simplify, tracked, program, states, l, k, flow);
      }
      hide BelowAll, Transform, StatesOk, StateOk, Total, Kept, FlowOk, Join, WellFormed;
      var merged;
      merged, changed := Merge(states[to], flow);
      states := states[to := merged];
    }

    /** visit: push the state of l to its successors. */
    method Visit(l: nat, work: set<nat>) returns (newData: bool, work': set<nat>)
      requires Ok() && l < |program| && l !in work && (forall x :: x in work ==> x < |program|)
      requires Covered(simplify, tracked, program, states, work + {l})
      modifies `states
      ensures Ok() && work <= work' && (forall x :: x in work' ==> x < |program|)
      ensures Covered(simplify, tracked, program, states, work')
      ensures if newData then Total(states, |Assigned(program)|) < Total(old(states), |Assigned(program)|)
              else states == old(states) && work' == work
      ensures old(BelowAll(simplify, tracked, program, states)) ==> BelowAll(simplify, tracked, program, states)
    {
      newData, work' := false, work;
      var ts := Successors(program, l);
      SuccessorsInRange(program, l);
      hide FlowOk, Total, StatesOk, Kept, PartlyCovered, BelowAll;
      var k := 0;
      NoEdgeYet(simplify, tracked, program, states, work', l);
      while k < |ts|
        invariant Ok() && 0 <= k <= |ts| && work <= work' && (forall x :: x in work' ==> x < |program|)
        invariant PartlyCovered(simplify, tracked, program, states, work', l, k)
        invariant if newData then Total(states, |Assigned(program)|) < Total(old(states), |Assigned(program)|)
                  else states == old(states) && work' == work
        invariant old(BelowAll(simplify, tracked, program, states)) ==> BelowAll(simplify, tracked, program, states)
      {
        ghost var states0, work0 := states, work';
        var changed := Flow(l, k);
        if changed { newData, work' := true, work' + {ts[k]}; }
        StepKeepsPartlyCovered(simplify, tracked, program, states0, states, work0, work', l, k, changed);
        k := k + 1;
      }
      AllEdgesDone(simplify, tracked, program, states, work', l);
    }

    /** fixedpoint: take the first location of the working set until it is empty. */
    method FixedPoint() returns (newData: bool)
      requires WellFormed(program) && |states| == |program|
      requires forall l :: 0 <= l < |program| ==> states[l] == if l == 0 then TOP else BOTTOM
      modifies `states
      ensures Solution(simplify, tracked, program, states) && (newData <==> states != old(states))
      ensures BelowAll(simplify, tracked, program, states)
    {
      newData := false;
      var work: set<nat> := if |program| == 0 then {} else {0};
      BottomFlowsNowhere();
      hide FlowOk, Total, StatesOk, BelowAll;
      while work != {}
        invariant Ok() && (forall x :: x in work ==> x < |program|) && Covered(simplify, tracked, program, states, work)
        invariant if newData then Total(states, |Assigned(program)|) < Total(old(states), |Assigned(program)|)
                  else states == old(states)
        invariant BelowAll(simplify, tracked, program, states)
        decreases Total(states, |Assigned(program)|), work
      {
        var l := First(work);
        var more;
        more, work := Visit(l, work - {l});
        newData := newData || more;
      }
    }

    lemma BottomFlowsNowhere()
      requires WellFormed(program) && |states| == |program|
      requires forall l :: 0 <= l < |program| ==> states[l] == if l == 0 then TOP else BOTTOM
      ensures Ok() && Covered(simplify, tracked, program, states, if |program| == 0 then {} else {0})
      ensures BelowAll(simplify, tracked, program, states)
    {
    }

    /** get_next: the smallest location number. */
    static method First(work: set<nat>) returns (l: nat)
      requires work != {}
      ensures l in work && forall x :: x in work ==> l <= x
    {
      l :| l in work;
      var rest := work - {l};
      while rest != {}
        invariant rest <= work && l in work && forall x :: x in work && x !in rest ==> l <= x
        decreases rest
      {
        var x :| x in rest;
        rest := rest - {x};
        if x < l { l := x; }
      }
    }

    /** replace: rewrite guards and right-hand sides with what is known at their location. */
    method Replace() returns (q: Program)
      requires |states| == |program|
      ensures q == Replaced(simplify, program, states)
    {
      q := [];
      var l := 0;
      while l < |program|
        invariant 0 <= l <= |program| && |q| == l
        invariant forall x :: 0 <= x < l ==> q[x] == ReplacedAt(simplify, program[x], states[x])
      {
        var i := program[l];
        if !states[l].IsBot() {
          match i {
            case Goto(guard, target) =>
              var g := PartialEvaluate(simplify, guard, states[l].consts);
              i := Goto(g, target);
            case Assume(guard) =>
              var g := PartialEvaluate(simplify, guard, states[l].consts);
              i := Assume(g);
            case Assert(guard) =>
              var g := PartialEvaluate(simplify, guard, states[l].consts);
              i := Assert(g);
            case Assign(v, rhs) =>
              var e := PartialEvaluate(simplify, rhs, states[l].consts);
              i := Assign(v, e);
            case _ =>
          }
        }
        q := q + [i];
        l := l + 1;
      }
    }
  }

  function ReplacedAt(simplify: Simplifier, i: Instr, s: Values): Instr {
    if s.IsBot() then i
    else
      match i
      case Goto(guard, target) => Goto(PartiallyEvaluated(simplify, guard, s.consts), target)
      case Assume(guard) => Assume(PartiallyEvaluated(simplify, guard, s.consts))
      case Assert(guard) => Assert(PartiallyEvaluated(simplify, guard, s.consts))
      case Assign(v, rhs) => Assign(v, PartiallyEvaluated(simplify, rhs, s.consts))
      case _ => i
  }

  function Replaced(simplify: Simplifier, p: Program, states: seq<Values>): (q: Program)
    requires |states| == |p|
  {
    seq(|p|, l requires 0 <= l < |p| => ReplacedAt(simplify, p[l], states[l]))
  }

  // ---------- soundness on concrete runs ----------

  /** No goto to its own fall-through has a guard that its state makes false; certainly so if there is no such goto. */
  ghost predicate FallThroughsKept(simplify: Simplifier, p: Program, states: seq<Values>) {
    forall l :: 0 <= l < |p| && l < |states| && OwnFallThrough(p, l) ==>
      states[l].isBottom || PartiallyEvaluated(simplify, p[l].guard, states[l].consts) != FALSE_EXPR
  }

  /** Along the run, the rounding mode is one of the four wherever the analysis does not know it. */
  ghost predicate ModesOk(states: seq<Values>, run: seq<State>) {
    forall i :: 0 <= i < |run| && run[i].loc < |states| ==> ModeOk(states[run[i].loc].consts, run[i].env)
  }

  /** Every state of the run is described where the analysis has a location for it. */
  ghost predicate AllDescribed(states: seq<Values>, run: seq<State>) {
    forall i :: 0 <= i < |run| && run[i].loc < |states| ==> Describes(states[run[i].loc], run[i].env)
  }

  /** One step of a run stays within the solution. */
  lemma StepStaysDescribed(simplify: Simplifier, tracked: Var -> bool, m: Meaning, p: Program, states: seq<Values>,
                           s: State, s': State, inp: Inputs)
    requires ValuePreserving(simplify, m) && Solution(simplify, tracked, p, states)
    requires FallThroughsKept(simplify, p, states)
    requires s.loc < |p| && Describes(states[s.loc], s.env)
    requires ModeOk(states[s.loc].consts, s.env) && Step(p, m, s, s', inp)
    ensures s'.loc < |p| ==> Describes(states[s'.loc], s'.env)
  {
    if s'.loc < |p| {
      var l, to, v := s.loc, s'.loc, states[s.loc];
      assert StateOk(v, p, tracked);
      StepIsCovered(simplify, tracked, m, p, l, to, v, s.env, s'.env, inp);
      var k :| 0 <= k < |Successors(p, l)| && Successors(p, l)[k] == to;
      assert FlowOk(simplify, tracked, p, states, l, k);
      LeqMeansMore(Transform(simplify, tracked, p, l, to, v), states[to], s'.env);
    }
  }

  /**
   * Soundness: on every run from every initial environment, the environment agrees with the stored constants at each
   * location, and no location with bottom is reached.
   */
  lemma {:induction false} RunIsDescribed(simplify: Simplifier, tracked: Var -> bool, m: Meaning, p: Program,
                                          states: seq<Values>, run: seq<State>, inputs: seq<Inputs>)
    requires ValuePreserving(simplify, m) && Solution(simplify, tracked, p, states)
    requires FallThroughsKept(simplify, p, states)
    requires Run(p, m, run, inputs) && ModesOk(states, run)
    ensures AllDescribed(states, run)
    decreases |run|
  {
    if |inputs| > 0 {
      var k := |inputs| - 1;
      var run0, inputs0 := run[..k + 1], inputs[..k];
      assert Run(p, m, run0, inputs0);
      RunIsDescribed(simplify, tracked, m, p, states, run0, inputs0);
      assert Step(p, m, run[k], run[k + 1], inputs[k]);
      assert run0[k] == run[k];
      StepStaysDescribed(simplify, tracked, m, p, states, run[k], run[k + 1], inputs[k]);
      forall i | 0 <= i < |run| && run[i].loc < |states| ensures Describes(states[run[i].loc], run[i].env) {
        if i <= k { assert run0[i] == run[i]; }
      }
    }
  }

  // ---------- the rewritten program ----------

  /** In a described state, the rewritten instruction does what the original does. */
  lemma ReplacedStep(simplify: Simplifier, m: Meaning, p: Program, states: seq<Values>, s: State, s': State,
                     inp: Inputs)
    requires ValuePreserving(simplify, m) && |states| == |p|
    requires s.loc < |p| ==> Describes(states[s.loc], s.env) && ModeOk(states[s.loc].consts, s.env)
    ensures Step(p, m, s, s', inp) <==> Step(Replaced(simplify, p, states), m, s, s', inp)
  {
    if s.loc < |p| {
      match p[s.loc]
      case Goto(guard, target) => EvaluationKeepsValue(simplify, guard, states[s.loc].consts, s.env, inp, m);
      case Assume(guard) => EvaluationKeepsValue(simplify, guard, states[s.loc].consts, s.env, inp, m);
      case Assert(guard) => EvaluationKeepsValue(simplify, guard, states[s.loc].consts, s.env, inp, m);
      case Assign(v, rhs) => EvaluationKeepsValue(simplify, rhs, states[s.loc].consts, s.env, inp, m);
      case _ =>
    }
  }

  /** The asserted conditions have the same values, too. */
  lemma ReplacedAssertion(simplify: Simplifier, m: Meaning, p: Program, states: seq<Values>, s: State, inp: Inputs)
    requires ValuePreserving(simplify, m) && |states| == |p| && s.loc < |p| && p[s.loc].Assert?
    requires Describes(states[s.loc], s.env) && ModeOk(states[s.loc].consts, s.env)
    ensures var q := Replaced(simplify, p, states);
      q[s.loc].Assert? && Eval(q[s.loc].guard, s.env, inp, m) == Eval(p[s.loc].guard, s.env, inp, m)
  {
    EvaluationKeepsValue(simplify, p[s.loc].guard, states[s.loc].consts, s.env, inp, m);
  }

  /** Rewriting preserves meaning: the original and the rewritten program have the same runs. */
  lemma {:induction false} ReplacedHasTheSameRuns(simplify: Simplifier, tracked: Var -> bool, m: Meaning, p: Program,
                                                  states: seq<Values>, run: seq<State>, inputs: seq<Inputs>)
    requires ValuePreserving(simplify, m) && Solution(simplify, tracked, p, states)
    requires FallThroughsKept(simplify, p, states) && ModesOk(states, run)
    ensures Run(p, m, run, inputs) <==> Run(Replaced(simplify, p, states), m, run, inputs)
    decreases |inputs|
  {
    var q := Replaced(simplify, p, states);
    if |run| == |inputs| + 1 && |inputs| > 0 {
      var k := |inputs| - 1;
      var run0, inputs0 := run[..k + 1], inputs[..k];
      ReplacedHasTheSameRuns(simplify, tracked, m, p, states, run0, inputs0);
      RunSplits(p, m, run, inputs);
      RunSplits(q, m, run, inputs);
      if Run(p, m, run0, inputs0) {
        RunIsDescribed(simplify, tracked, m, p, states, run0, inputs0);
        assert run0[k] == run[k];
        ReplacedStep(simplify, m, p, states, run[k], run[k + 1], inputs[k]);
      }
    }
  }

  lemma RunSplits(p: Program, m: Meaning, run: seq<State>, inputs: seq<Inputs>)
    requires |run| == |inputs| + 1 && |inputs| > 0
    ensures var k := |inputs| - 1;
      Run(p, m, run, inputs) <==> Run(p, m, run[..k + 1], inputs[..k]) && Step(p, m, run[k], run[k + 1], inputs[k])
  {
    var k := |inputs| - 1;
    var run0, inputs0 := run[..k + 1], inputs[..k];
    if Run(p, m, run0, inputs0) && Step(p, m, run[k], run[k + 1], inputs[k]) {
      forall i | 0 <= i < |inputs| ensures Step(p, m, run[i], run[i + 1], inputs[i]) {
        if i < k { assert Step(p, m, run0[i], run0[i + 1], inputs0[i]); }
      }
    }
    if Run(p, m, run, inputs) {
      forall i | 0 <= i < |inputs0| ensures Step(p, m, run0[i], run0[i + 1], inputs0[i]) {
        assert Step(p, m, run[i], run[i + 1], inputs[i]);
      }
    }
  }

  // ---------- the exception ----------

  /** After "x := false", a goto on x to the next location: that location is reached, but its state stays bottom. */
  const OWN_FALL_THROUGH: Program := [Assign("x", FALSE_EXPR), Goto(Symbol("x"), 2), Skip]

  /** The states that the analysis cannot exceed. */
  const OWN_FALL_THROUGH_BOUND: seq<Values> := [TOP, Values(false, map["x" := VBool(false)]), BOTTOM]

  lemma OwnFallThroughStates(simplify: Simplifier, tracked: Var -> bool)
    requires tracked("x") && simplify(FALSE_EXPR) == FALSE_EXPR
    ensures Bound(simplify, tracked, OWN_FALL_THROUGH, OWN_FALL_THROUGH_BOUND)
  {
    var p, bound := OWN_FALL_THROUGH, OWN_FALL_THROUGH_BOUND;
    forall l: nat, k: nat, s | IsEdge(p, l, k) && StateOk(s, p, tracked) && Leq(s, bound[l])
      ensures StaysBelow(simplify, tracked, p, bound, l, Successors(p, l)[k], s)
    {
      if !s.isBottom {
        FoldsToFalse(simplify, FALSE_EXPR, s.consts);
        if l == 1 { FoldsToFalse(simplify, Symbol("x"), s.consts); }
      }
    }
  }

  lemma FoldsToFalse(simplify: Simplifier, e: Expr, consts: map<Var, Value>)
    requires simplify(FALSE_EXPR) == FALSE_EXPR
    requires e == FALSE_EXPR || (e == Symbol("x") && "x" in consts && consts["x"] == VBool(false))
    ensures PartiallyEvaluated(simplify, e, consts) == FALSE_EXPR
  {
    assert "x" != ROUNDING_MODE by { assert |"x"| != |ROUNDING_MODE|; }
    forall i: nat | i < |MODES| ensures InMode(simplify, e, consts, i) == (FALSE_EXPR, e == FALSE_EXPR) {
      assert Subst(e, consts[ROUNDING_MODE := VInt(MODES[i])]) == FALSE_EXPR;
    }
    assert Subst(e, consts) == FALSE_EXPR;
    assert InMode(simplify, e, consts, 0) == (FALSE_EXPR, e == FALSE_EXPR);
  }

  /**
   * The fixpoint for this program has bottom at location 2, and in every environment a run reaches that location; all
   * that
   * is asked of the simplifier is that it keeps values and does not rewrite false.
   */
  method OwnFallThroughIsUnsound(simplify: Simplifier, tracked: Var -> bool, ghost m: Meaning, ghost env: Env,
                                 ghost inp: Inputs)
      returns (cp: ConstantPropagator, ghost run: seq<State>)
    requires tracked("x") && simplify(FALSE_EXPR) == FALSE_EXPR
    ensures cp.program == OWN_FALL_THROUGH
    ensures Solution(simplify, tracked, OWN_FALL_THROUGH, cp.states) && cp.states[2].isBottom
    ensures Run(OWN_FALL_THROUGH, m, run, [inp, inp]) && run[0].env == env && run[2].loc == 2
  {
    var p := OWN_FALL_THROUGH;
    OwnFallThroughStates(simplify, tracked);
    cp := new ConstantPropagator(p, simplify, tracked);
    var newData := cp.FixedPoint();
    assert Below(cp.states, OWN_FALL_THROUGH_BOUND);
    var env1: Env := v => if v == "x" then VBool(false) else env(v);
    run := [State(0, env), State(1, env1), State(2, env1)];
  }
}
