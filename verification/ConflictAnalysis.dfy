/** Conflict analysis, on values: resolution along the trail, and clause minimization. */
module ConflictAnalysis {
  import opened SolverTypes
  import opened Trails
  import opened ReasonCones

  /** Every live clause follows from the formula. */
  ghost predicate ClausesSound(f: set<seq<Lit>>, ca: seq<ClauseRec>) {
    forall r :: 0 <= r < |ca| && !ca[r].deleted ==> Implied(f, ca[r].lits)
  }

  /** Every literal of level 0 follows from the formula. */
  ghost predicate RootSound(f: set<seq<Lit>>, t: Trail) {
    forall i :: 0 <= i < |t.lits| && Level(t, t.lits[i]) == 0 ==> Implied(f, [t.lits[i]])
  }

  /** The literal of variable v that the trail makes false. */
  ghost function FalseLit(t: Trail, v: Var): Lit { Lit(v, v < |t.assigns| && t.assigns[v] == LTrue) }

  lemma RootFalseIsRefuted(f: set<seq<Lit>>, t: Trail, q: Lit)
    requires TrailOk(t) && RootSound(f, t) && IsFalse(t, q) && Level(t, q) == 0
    ensures forall a :: Models(a, f) ==> !Holds(a, q)
  {
    FalseIsOnStack(t, q);
    forall a | Models(a, f) ensures !Holds(a, q) {
      assert Implied(f, [t.lits[Pos(t, q)]]) && Satisfies(a, [Neg(q)]);
    }
  }

  // ---------- the resolution loop ----------

  /**
   * The resolvent is split into the literals of lower levels (rest) and those of the current level (open),
   * which all lie below stack index bound; seen marks exactly its variables.
   */
  ghost predicate Frontier(t: Trail, seen: seq<bool>, rest: seq<Lit>, open: set<Lit>, bound: nat) {
    && |seen| == |t.assigns|
    && (forall i :: 0 <= i < |rest| ==> IsFalse(t, rest[i]) && 0 < Level(t, rest[i]) < |t.lim| && seen[rest[i].v])
    && (forall q :: q in open ==> IsFalse(t, q) && Level(t, q) == |t.lim| && Pos(t, q) < bound && seen[q.v])
    && (forall v :: 0 <= v < |seen| && seen[v] ==> FalseLit(t, v) in rest || FalseLit(t, v) in open)
    && DistinctVars(rest)
  }

  lemma FrontierFits(t: Trail, seen: seq<bool>, rest: seq<Lit>, open: set<Lit>, bound: nat)
    requires Frontier(t, seen, rest, open, bound)
    ensures |seen| == |t.assigns|
    ensures forall i :: 0 <= i < |rest| ==> rest[i].v < |t.assigns| && 0 < Level(t, rest[i]) < |t.lim|
  {
  }

  lemma FalseLevelIsAtMostCurrent(t: Trail, q: Lit)
    requires TrailOk(t) && IsFalse(t, q)
    ensures Level(t, q) <= |t.lim|
  {
    FalseIsOnStack(t, q);
    assert LevelAt(t, Pos(t, q), Level(t, q));
  }

  lemma MarkLow(t: Trail, seen: seq<bool>, rest: seq<Lit>, open: set<Lit>, bound: nat, q: Lit)
    requires TrailOk(t) && Frontier(t, seen, rest, open, bound)
    requires IsFalse(t, q) && 0 < Level(t, q) < |t.lim| && !seen[q.v]
    ensures Frontier(t, seen[q.v := true], rest + [q], open, bound)
  {
    var seen', rest' := seen[q.v := true], rest + [q];
    assert rest'[|rest|] == q;
    forall v | 0 <= v < |seen'| && seen'[v] ensures FalseLit(t, v) in rest' || FalseLit(t, v) in open {
      if v == q.v { assert FalseLit(t, v) == q; }
    }
  }

  lemma MarkCurrent(t: Trail, seen: seq<bool>, rest: seq<Lit>, open: set<Lit>, bound: nat, q: Lit)
    requires TrailOk(t) && Frontier(t, seen, rest, open, bound) && Pos(t, q) < bound
    requires IsFalse(t, q) && Level(t, q) == |t.lim| && !seen[q.v]
    ensures Frontier(t, seen[q.v := true], rest, open + {q}, bound) && q !in open
  {
    var seen', open' := seen[q.v := true], open + {q};
    forall v | 0 <= v < |seen'| && seen'[v] ensures FalseLit(t, v) in rest || FalseLit(t, v) in open' {
      if v == q.v { assert FalseLit(t, v) == q; }
    }
  }

  lemma AlreadyMarked(t: Trail, seen: seq<bool>, rest: seq<Lit>, open: set<Lit>, bound: nat, q: Lit)
    requires Frontier(t, seen, rest, open, bound) && IsFalse(t, q) && seen[q.v]
    ensures q in rest || q in open
  {
    assert FalseLit(t, q.v) == q;
  }

  lemma OpenIsMarked(t: Trail, seen: seq<bool>, rest: seq<Lit>, open: set<Lit>, bound: nat) returns (q: Lit)
    requires TrailOk(t) && Frontier(t, seen, rest, open, bound) && open != {} && bound <= |t.lits|
    ensures q in open && q.v < |seen| == |t.assigns| && seen[q.v] && Pos(t, q) < bound && t.lits[Pos(t, q)].v == q.v
    ensures forall i :: 0 <= i < |t.lits| ==> t.lits[i].v < |t.assigns|
  {
    q :| q in open;
    FalseIsOnStack(t, q);
  }

  lemma LowerBound(t: Trail, seen: seq<bool>, rest: seq<Lit>, open: set<Lit>, bound: nat, bound': nat)
    requires TrailOk(t) && Frontier(t, seen, rest, open, bound) && bound' <= bound <= |t.lits|
    requires forall x :: bound' <= x < bound ==> t.lits[x].v < |seen| && !seen[t.lits[x].v]
    ensures Frontier(t, seen, rest, open, bound')
  {
    forall q | q in open ensures Pos(t, q) < bound' {
      FalseIsOnStack(t, q);
    }
  }

  /** The next marked variable down the stack is of the current level; it leaves the frontier. */
  lemma TakeOpen(t: Trail, seen: seq<bool>, rest: seq<Lit>, open: set<Lit>, index: nat, q: Lit)
    requires TrailOk(t) && index < |t.lits| && Frontier(t, seen, rest, open, index + 1)
    requires q in open && Pos(t, q) <= index && seen[t.lits[index].v]
    ensures Neg(t.lits[index]) in open && Level(t, t.lits[index]) == |t.lim|
    ensures Frontier(t, seen[t.lits[index].v := false], rest, open - {Neg(t.lits[index])}, index)
  {
    var p := t.lits[index];
    FalseIsOnStack(t, q);
    LevelIsMonotone(t, Pos(t, q), index);
    assert LevelAt(t, index, Level(t, p));
    assert FalseLit(t, p.v) == Neg(p);
    assert Neg(p) !in rest;
    forall s | s in open && s != Neg(p) ensures Pos(t, s) < index && s.v != p.v {
      FalseIsOnStack(t, s);
    }
    forall i | 0 <= i < |rest| ensures rest[i].v != p.v {
    }
  }

  /** One resolution step with the reason c of its first literal. */
  lemma Resolve(f: set<seq<Lit>>, t: Trail, cur: set<Lit>, c: seq<Lit>, next: set<Lit>)
    requires TrailOk(t) && RootSound(f, t) && |c| > 0 && Implied(f, c)
    requires ImpliedSet(f, cur + {Neg(c[0])}) && cur <= next
    requires forall k :: 1 <= k < |c| ==> c[k] in next || (IsFalse(t, c[k]) && Level(t, c[k]) == 0)
    ensures ImpliedSet(f, next)
  {
    forall a | Models(a, f) ensures exists p :: p in next && Holds(a, p) {
      assert Satisfies(a, c);
      var k :| 0 <= k < |c| && Holds(a, c[k]);
      var p :| p in cur + {Neg(c[0])} && Holds(a, p);
      if k > 0 && c[k] !in next {
        RootFalseIsRefuted(f, t, c[k]);
      } else if k == 0 {
        assert p in next;
      }
    }
  }

  /** The first step starts from the conflict itself. */
  lemma StartResolution(f: set<seq<Lit>>, t: Trail, c: seq<Lit>, next: set<Lit>)
    requires TrailOk(t) && RootSound(f, t) && Implied(f, c)
    requires forall k :: 0 <= k < |c| ==> c[k] in next || (IsFalse(t, c[k]) && Level(t, c[k]) == 0)
    ensures ImpliedSet(f, next)
  {
    forall a | Models(a, f) ensures exists p :: p in next && Holds(a, p) {
      assert Satisfies(a, c);
      var k :| 0 <= k < |c| && Holds(a, c[k]);
      if c[k] !in next {
        RootFalseIsRefuted(f, t, c[k]);
      }
    }
  }

  predicate AllUnmarked(seen: seq<bool>) { forall v :: 0 <= v < |seen| ==> !seen[v] }

  lemma StartFrontier(t: Trail, seen: seq<bool>)
    requires AllUnmarked(seen) && |seen| == |t.assigns|
    ensures Frontier(t, seen, [], {}, |t.lits|)
  {
  }

  lemma RaiseBound(t: Trail, seen: seq<bool>, rest: seq<Lit>, open: set<Lit>, bound: nat, bound': nat)
    requires Frontier(t, seen, rest, open, bound) && bound <= bound'
    ensures Frontier(t, seen, rest, open, bound')
  {
  }

  /** At the head of the loop: the clause to resolve with next, from its literal number start on. */
  ghost predicate ResolutionOk(t: Trail, ca: seq<ClauseRec>, f: set<seq<Lit>>, r: CRef, start: nat, rest: seq<Lit>,
                               open: set<Lit>, bound: nat, p: Lit) {
    && 0 <= r < |ca| && !ca[r].deleted && 0 < |ca[r].lits| && ca[r].lits[0] == p && start <= 1
    && (forall k :: start <= k < |ca[r].lits| ==> IsFalse(t, ca[r].lits[k]) && Pos(t, ca[r].lits[k]) < bound)
    && if start == 0 then Level(t, p) == |t.lim| > 0 else open != {} && ImpliedSet(f, LitSet(rest) + open + {Neg(p)})
  }

  lemma StartClause(t: Trail, ca: seq<ClauseRec>, f: set<seq<Lit>>, r: CRef)
    requires TrailOk(t) && ClausesOk(ca, |t.assigns|) && 0 <= r < |ca| && !ca[r].deleted && |t.lim| > 0
    requires forall k :: 0 <= k < |ca[r].lits| ==> IsFalse(t, ca[r].lits[k])
    requires Level(t, ca[r].lits[0]) == |t.lim|
    ensures ResolutionOk(t, ca, f, r, 0, [], {}, |t.lits|, ca[r].lits[0])
  {
    forall k | 0 <= k < |ca[r].lits| ensures Pos(t, ca[r].lits[k]) < |t.lits| {
      FalseIsOnStack(t, ca[r].lits[k]);
    }
  }

  lemma ResolutionStep(t: Trail, ca: seq<ClauseRec>, f: set<seq<Lit>>, seen: seq<bool>, r: CRef, start: nat,
                       rest0: seq<Lit>, open0: set<Lit>, rest: seq<Lit>, open: set<Lit>, bound: nat, p: Lit)
    requires TrailOk(t) && RootSound(f, t) && ClausesSound(f, ca)
    requires ResolutionOk(t, ca, f, r, start, rest0, open0, bound, p) && Frontier(t, seen, rest, open, bound)
    requires rest0 <= rest && open0 <= open
    requires forall k :: start <= k < |ca[r].lits| ==>
      ca[r].lits[k] in rest || ca[r].lits[k] in open || Level(t, ca[r].lits[k]) == 0
    ensures ImpliedSet(f, LitSet(rest) + open) && open != {} && bound > 0
  {
    var c := ca[r].lits;
    assert Implied(f, c);
    if start == 0 {
      StartResolution(f, t, c, LitSet(rest) + open);
      assert c[0] in open;
    } else {
      Resolve(f, t, LitSet(rest0) + open0, c, LitSet(rest) + open);
    }
    var q :| q in open;
    assert Pos(t, q) < bound;
  }

  lemma TakenKeepsImplied(f: set<seq<Lit>>, rest: seq<Lit>, open: set<Lit>, p: Lit)
    requires ImpliedSet(f, LitSet(rest) + open) && Neg(p) in open
    ensures ImpliedSet(f, LitSet(rest) + (open - {Neg(p)}) + {Neg(p)})
  {
    assert LitSet(rest) + (open - {Neg(p)}) + {Neg(p)} == LitSet(rest) + open;
  }

  lemma TakenIsTrue(t: Trail, i: nat)
    requires TrailOk(t) && i < |t.lits|
    ensures IsTrue(t, t.lits[i])
  {
  }

  /** While other literals of the current level remain, p is not the decision, so it has a reason. */
  lemma NextClause(t: Trail, ca: seq<ClauseRec>, f: set<seq<Lit>>, seen: seq<bool>, rest: seq<Lit>, open: set<Lit>,
                   index: nat, p: Lit)
    requires TrailOk(t) && ReasonsOk(t, ca) && Frontier(t, seen, rest, open, index) && open != {}
    requires index < |t.lits| && p == t.lits[index] && Level(t, p) == |t.lim| > 0
    requires ImpliedSet(f, LitSet(rest) + open + {Neg(p)})
    ensures ResolutionOk(t, ca, f, Reason(t, p), 1, rest, open, index, p)
  {
    var q :| q in open;
    FalseIsOnStack(t, q);
    assert LevelAt(t, Pos(t, q), |t.lim|);
    assert ReasonAt(t, ca, index);
  }

  // ---------- minimization ----------

  /** v was propagated, and every other literal of its reason is marked or of level 0. */
  ghost predicate Justified(t: Trail, ca: seq<ClauseRec>, seen: seq<bool>, v: Var) {
    v < |t.vardata| && var r := t.vardata[v].reason;
    && 0 <= r < |ca|
    && forall k :: 1 <= k < |ca[r].lits| ==>
         ca[r].lits[k].v < |seen| && (Level(t, ca[r].lits[k]) == 0 || seen[ca[r].lits[k].v])
  }

  lemma JustifiedIsMonotone(t: Trail, ca: seq<ClauseRec>, seen: seq<bool>, seen': seq<bool>, v: Var)
    requires Justified(t, ca, seen, v) && |seen| == |seen'|
    requires forall x :: 0 <= x < |seen| && seen[x] ==> seen'[x]
    ensures Justified(t, ca, seen', v)
  {
  }

  /** A model that falsifies the kept literals agrees with the trail on every marked variable. */
  lemma {:induction false} MarkedFollows(f: set<seq<Lit>>, t: Trail, ca: seq<ClauseRec>, seen: seq<bool>,
                                         kept: set<Lit>, a: Model, i: nat)
    requires TrailOk(t) && ReasonsOk(t, ca) && ClausesSound(f, ca) && RootSound(f, t) && |seen| == |t.assigns|
    requires forall v :: 0 <= v < |seen| && seen[v] ==> FalseLit(t, v) in kept || Justified(t, ca, seen, v)
    requires Models(a, f) && forall p :: p in kept ==> !Holds(a, p)
    requires i < |t.lits| && seen[t.lits[i].v]
    ensures Holds(a, t.lits[i])
    decreases i
  {
    var p := t.lits[i];
    if FalseLit(t, p.v) in kept {
      assert FalseLit(t, p.v) == Neg(p);
    } else {
      assert ReasonAt(t, ca, i) && Justified(t, ca, seen, p.v);
      var c := ca[Reason(t, p)].lits;
      forall k | 1 <= k < |c| ensures !Holds(a, c[k]) {
        FalseIsOnStack(t, c[k]);
        if Level(t, c[k]) == 0 {
          RootFalseIsRefuted(f, t, c[k]);
        } else {
          MarkedFollows(f, t, ca, seen, kept, a, Pos(t, c[k]));
        }
      }
      assert Satisfies(a, c);
    }
  }

  /** Dropping the justified literals of an implied clause leaves an implied clause. */
  lemma MinimizedIsImplied(f: set<seq<Lit>>, t: Trail, ca: seq<ClauseRec>, seen: seq<bool>, full: set<Lit>,
                           kept: set<Lit>)
    requires TrailOk(t) && ReasonsOk(t, ca) && ClausesSound(f, ca) && RootSound(f, t) && |seen| == |t.assigns|
    requires forall v :: 0 <= v < |seen| && seen[v] ==> FalseLit(t, v) in kept || Justified(t, ca, seen, v)
    requires forall p :: p in full ==> p in kept || (IsFalse(t, p) && seen[p.v])
    requires ImpliedSet(f, full)
    ensures ImpliedSet(f, kept)
  {
    forall a | Models(a, f) ensures exists p :: p in kept && Holds(a, p) {
      if forall p :: p in kept ==> !Holds(a, p) {
        var p :| p in full && Holds(a, p);
        FalseIsOnStack(t, p);
        MarkedFollows(f, t, ca, seen, kept, a, Pos(t, p));
        assert false;
      }
    }
  }

  // ---------- the search for a justification ----------

  lemma VarSetDropLast(c: seq<Lit>)
    requires |c| > 0
    ensures VarSet(c) == VarSet(c[..|c| - 1]) + {c[|c| - 1].v}
  {
    VarSetAppend(c[..|c| - 1], c[|c| - 1]);
    assert c == c[..|c| - 1] + [c[|c| - 1]];
  }

  ghost predicate HasReason(t: Trail, ca: seq<ClauseRec>, q: Lit) {
    IsFalse(t, q) && 0 <= Reason(t, q) < |ca|
  }

  /**
   * The marks are those of before (seen0) plus those of the literals pushed since; each pushed variable, and v0,
   * is justified, waits on the stack, or is the one being looked at (cur).
   */
  ghost predicate Exploring(t: Trail, ca: seq<ClauseRec>, seen0: seq<bool>, seen: seq<bool>, v0: Var, pushed: seq<Lit>,
                            stack: seq<Lit>, cur: set<Var>) {
    && |seen0| == |seen| == |t.assigns|
    && (forall v :: 0 <= v < |seen| ==> (seen[v] <==> seen0[v] || v in VarSet(pushed)))
    && (forall i :: 0 <= i < |pushed| ==> pushed[i].v < |seen| && !seen0[pushed[i].v])
    && (forall v :: v in VarSet(pushed) + {v0} ==> Justified(t, ca, seen, v) || v in VarSet(stack) || v in cur)
    && (forall i :: 0 <= i < |stack| ==> HasReason(t, ca, stack[i]))
  }

  /** Literals of c from 1 to i - 1 need no further look. */
  ghost predicate Covered(t: Trail, seen: seq<bool>, c: seq<Lit>, i: nat) {
    forall k :: 1 <= k < i && k < |c| ==> c[k].v < |seen| && (Level(t, c[k]) == 0 || seen[c[k].v])
  }

  lemma Push(t: Trail, ca: seq<ClauseRec>, seen0: seq<bool>, seen: seq<bool>, v0: Var, pushed: seq<Lit>,
             stack: seq<Lit>, cur: set<Var>, l: Lit)
    requires Exploring(t, ca, seen0, seen, v0, pushed, stack, cur)
    requires HasReason(t, ca, l) && !seen[l.v]
    ensures Exploring(t, ca, seen0, seen[l.v := true], v0, pushed + [l], stack + [l], cur)
  {
    var seen' := seen[l.v := true];
    VarSetAppend(pushed, l);
    VarSetAppend(stack, l);
    forall v | v in VarSet(pushed + [l]) + {v0}
      ensures Justified(t, ca, seen', v) || v in VarSet(stack + [l]) || v in cur
    {
      if v != l.v && Justified(t, ca, seen, v) {
        JustifiedIsMonotone(t, ca, seen, seen', v);
      }
    }
  }

  lemma Pop(t: Trail, ca: seq<ClauseRec>, seen0: seq<bool>, seen: seq<bool>, v0: Var, pushed: seq<Lit>, stack: seq<Lit>)
    requires Exploring(t, ca, seen0, seen, v0, pushed, stack, {}) && |stack| > 0
    ensures Exploring(t, ca, seen0, seen, v0, pushed, stack[..|stack| - 1], {stack[|stack| - 1].v})
  {
    VarSetDropLast(stack);
  }

  lemma Close(t: Trail, ca: seq<ClauseRec>, seen0: seq<bool>, seen: seq<bool>, v0: Var, pushed: seq<Lit>,
              stack: seq<Lit>, q: Lit)
    requires Exploring(t, ca, seen0, seen, v0, pushed, stack, {q.v}) && HasReason(t, ca, q)
    requires |t.vardata| == |t.assigns| && Covered(t, seen, ca[Reason(t, q)].lits, |ca[Reason(t, q)].lits|)
    ensures Exploring(t, ca, seen0, seen, v0, pushed, stack, {})
  {
    assert Justified(t, ca, seen, q.v);
  }

  /**
   * What was pushed is passable and in the cone of v0, down to the marks of before; and so is all that is still to be
   * looked into.
   */
  ghost predicate Walking(t: Trail, ca: seq<ClauseRec>, levels: set<nat>, seen0: seq<bool>, v0: Var, pushed: seq<Lit>,
                          stack: seq<Lit>) {
    && (forall i :: 0 <= i < |pushed| ==> InCone(t, ca, seen0, v0, pushed[i].v) && Passable(t, levels, pushed[i].v))
    && (forall i :: 0 <= i < |stack| ==> BelowCone(t, ca, seen0, v0, stack[i].v))
  }

  ghost predicate InCone(t: Trail, ca: seq<ClauseRec>, seen0: seq<bool>, v0: Var, v: Var) {
    v in Cone(t, ca, Antecedents(t, ca, v0), Marked(seen0))
  }

  ghost predicate BelowCone(t: Trail, ca: seq<ClauseRec>, seen0: seq<bool>, v0: Var, v: Var) {
    Antecedents(t, ca, v) <= Cone(t, ca, Antecedents(t, ca, v0), Marked(seen0))
  }

  lemma StartWalking(t: Trail, ca: seq<ClauseRec>, levels: set<nat>, seen: seq<bool>, p: Lit)
    requires ClausesOk(ca, |t.assigns|)
    ensures Walking(t, ca, levels, seen, p.v, [], [p])
  {
    hide Antecedents, Cone, ClausesOk;
    AntecedentsInRange(t, ca, p.v);
    ConeIsClosed(t, ca, Antecedents(t, ca, p.v), Marked(seen));
  }

  lemma WalkOn(t: Trail, ca: seq<ClauseRec>, levels: set<nat>, seen0: seq<bool>, v0: Var, pushed: seq<Lit>,
               stack: seq<Lit>, l: Lit)
    requires ClausesOk(ca, |t.assigns|) && Walking(t, ca, levels, seen0, v0, pushed, stack)
    requires InCone(t, ca, seen0, v0, l.v) && Passable(t, levels, l.v) && l.v !in Marked(seen0)
    ensures Walking(t, ca, levels, seen0, v0, pushed + [l], stack + [l])
  {
    hide Antecedents, Cone, ClausesOk, Passable;
    AntecedentsInRange(t, ca, v0);
    ConeIsClosed(t, ca, Antecedents(t, ca, v0), Marked(seen0));
  }

  lemma WalkDown(t: Trail, ca: seq<ClauseRec>, levels: set<nat>, seen0: seq<bool>, v0: Var, pushed: seq<Lit>,
                 stack: seq<Lit>)
    requires Walking(t, ca, levels, seen0, v0, pushed, stack) && |stack| > 0
    ensures Walking(t, ca, levels, seen0, v0, pushed, stack[..|stack| - 1])
    ensures BelowCone(t, ca, seen0, v0, stack[|stack| - 1].v)
  {
  }

  /** The literals of a reason that is looked into are in the cone. */
  lemma ReasonInCone(t: Trail, ca: seq<ClauseRec>, seen0: seq<bool>, v0: Var, q: Lit, i: nat)
    requires HasReason(t, ca, q) && BelowCone(t, ca, seen0, v0, q.v) && |t.vardata| == |t.assigns|
    requires 1 <= i < |ca[Reason(t, q)].lits| && Level(t, ca[Reason(t, q)].lits[i]) > 0
    ensures InCone(t, ca, seen0, v0, ca[Reason(t, q)].lits[i].v)
  {
    hide Cone;
    var c := ca[Reason(t, q)].lits;
    assert c[1..][i - 1] == c[i];
    assert c[i].v in Antecedents(t, ca, q.v);
  }

  /** A variable of the cone that is neither marked nor passable refutes redundancy. */
  lemma Blocked(t: Trail, ca: seq<ClauseRec>, levels: set<nat>, seen0: seq<bool>, v0: Var, v: Var)
    requires InCone(t, ca, seen0, v0, v) && v !in Marked(seen0) && !Passable(t, levels, v)
    ensures !IsRedundant(t, ca, levels, Marked(seen0), v0)
  {
  }

  lemma UnmarkedBefore(t: Trail, ca: seq<ClauseRec>, seen0: seq<bool>, seen: seq<bool>, v0: Var, pushed: seq<Lit>,
                       stack: seq<Lit>, cur: set<Var>, v: Var)
    requires Exploring(t, ca, seen0, seen, v0, pushed, stack, cur) && v < |seen| && !seen[v]
    ensures v !in Marked(seen0)
  {
  }

  /** A finished search has marked the whole cone, and found it passable. */
  lemma Walked(t: Trail, ca: seq<ClauseRec>, levels: set<nat>, seen0: seq<bool>, seen: seq<bool>, v0: Var,
               pushed: seq<Lit>)
    requires Exploring(t, ca, seen0, seen, v0, pushed, [], {}) && Walking(t, ca, levels, seen0, v0, pushed, [])
    ensures IsRedundant(t, ca, levels, Marked(seen0), v0)
    ensures Marked(seen) == Marked(seen0) + Cone(t, ca, Antecedents(t, ca, v0), Marked(seen0))
  {
    hide Cone, Antecedents, Passable;
    var cone := Cone(t, ca, Antecedents(t, ca, v0), Marked(seen0));
    JustifiedBelow(t, ca, seen, v0);
    forall v | v in Marked(seen) && v !in Marked(seen0) ensures Antecedents(t, ca, v) <= Marked(seen) {
      assert v in VarSet(pushed);
      JustifiedBelow(t, ca, seen, v);
    }
    ConeIsWithin(t, ca, Antecedents(t, ca, v0), Marked(seen0), Marked(seen));
    forall v | v in VarSet(pushed) ensures v in cone && Passable(t, levels, v) {
      var i :| 0 <= i < |pushed| && pushed[i].v == v;
      assert InCone(t, ca, seen0, v0, pushed[i].v);
    }
  }

  lemma JustifiedBelow(t: Trail, ca: seq<ClauseRec>, seen: seq<bool>, v: Var)
    requires Justified(t, ca, seen, v)
    ensures Antecedents(t, ca, v) <= Marked(seen)
  {
  }

  /** Being justified by the literals of the learnt clause themselves. */
  lemma LocalIsJustified(t: Trail, ca: seq<ClauseRec>, seen: seq<bool>, rest: seq<Lit>, q: Lit)
    requires ClausesOk(ca, |t.assigns|) && |seen| == |t.assigns| == |t.vardata| && HasReason(t, ca, q)
    requires Marked(seen) == VarSet(rest)
    ensures Justified(t, ca, seen, q.v) <==> Antecedents(t, ca, q.v) <= VarSet(rest)
  {
    if Antecedents(t, ca, q.v) <= VarSet(rest) {
      var c := ca[Reason(t, q)].lits;
      forall k | 1 <= k < |c| ensures c[k].v < |seen| && (Level(t, c[k]) == 0 || seen[c[k].v]) {
        assert c[1..][k - 1] == c[k];
        if Level(t, c[k]) > 0 {
          assert c[k].v in Antecedents(t, ca, q.v) && c[k].v in Marked(seen);
        }
      }
    }
  }

  lemma FrontierMarks(t: Trail, seen: seq<bool>, rest: seq<Lit>, bound: nat)
    requires Frontier(t, seen, rest, {}, bound)
    ensures Marked(seen) == VarSet(rest)
  {
  }

  /** Dropping all pushed marks restores the marks of before. */
  lemma Restore(t: Trail, ca: seq<ClauseRec>, seen0: seq<bool>, seen: seq<bool>, v0: Var, pushed: seq<Lit>,
                stack: seq<Lit>, cur: set<Var>, seen': seq<bool>)
    requires Exploring(t, ca, seen0, seen, v0, pushed, stack, cur) && |seen'| == |seen|
    requires forall v :: 0 <= v < |seen| ==> (seen'[v] <==> seen[v] && v !in VarSet(pushed))
    ensures seen' == seen0
  {
    forall v | 0 <= v < |seen| ensures seen'[v] == seen0[v] {
      if v in VarSet(pushed) {
        var i :| 0 <= i < |pushed| && pushed[i].v == v;
      }
    }
  }

  lemma ReasonIsFalse(t: Trail, ca: seq<ClauseRec>, q: Lit)
    requires TrailOk(t) && ReasonsOk(t, ca) && HasReason(t, ca, q)
    ensures q.v < |t.assigns| == |t.vardata| && 0 <= t.vardata[q.v].reason < |ca|
    ensures forall k :: 1 <= k < |ca[t.vardata[q.v].reason].lits| ==> IsFalse(t, ca[t.vardata[q.v].reason].lits[k])
  {
    FalseIsOnStack(t, q);
    assert ReasonAt(t, ca, Pos(t, q));
  }

  lemma FalseHasReason(t: Trail, ca: seq<ClauseRec>, q: Lit)
    requires TrailOk(t) && ReasonsOk(t, ca) && IsFalse(t, q) && Reason(t, q) != CREF_UNDEF
    ensures HasReason(t, ca, q)
  {
    FalseIsOnStack(t, q);
    assert ReasonAt(t, ca, Pos(t, q));
  }

  lemma CoveredStart(t: Trail, seen: seq<bool>, c: seq<Lit>)
    ensures Covered(t, seen, c, 1)
  {
  }

  lemma CoveredNext(t: Trail, seen: seq<bool>, c: seq<Lit>, i: nat)
    requires Covered(t, seen, c, i) && i < |c| && c[i].v < |seen| && (Level(t, c[i]) == 0 || seen[c[i].v])
    ensures Covered(t, seen, c, i + 1)
  {
  }

  lemma CoveredAll(t: Trail, seen: seq<bool>, c: seq<Lit>, i: nat)
    requires Covered(t, seen, c, i) && |c| <= i
    ensures Covered(t, seen, c, |c|)
  {
  }

  lemma CoveredIsMonotone(t: Trail, seen: seq<bool>, c: seq<Lit>, i: nat, v: Var)
    requires Covered(t, seen, c, i) && v < |seen|
    ensures Covered(t, seen[v := true], c, i)
  {
  }

  lemma StartExploring(t: Trail, ca: seq<ClauseRec>, seen: seq<bool>, p: Lit)
    requires |seen| == |t.assigns| && HasReason(t, ca, p)
    ensures Exploring(t, ca, seen, seen, p.v, [], [p], {})
  {
    VarSetAppend([], p);
    assert [] + [p] == [p];
  }

  lemma TopHasReason(t: Trail, ca: seq<ClauseRec>, seen0: seq<bool>, seen: seq<bool>, v0: Var, pushed: seq<Lit>,
                     stack: seq<Lit>)
    requires Exploring(t, ca, seen0, seen, v0, pushed, stack, {}) && |stack| > 0
    ensures HasReason(t, ca, stack[|stack| - 1]) && |seen| == |t.assigns|
  {
  }

  lemma PushedInRange(t: Trail, ca: seq<ClauseRec>, seen0: seq<bool>, seen: seq<bool>, v0: Var, toclear0: seq<Lit>,
                      pushed: seq<Lit>, stack: seq<Lit>, cur: set<Var>)
    requires Exploring(t, ca, seen0, seen, v0, pushed, stack, cur)
    ensures forall i :: |toclear0| <= i < |toclear0 + pushed| ==> (toclear0 + pushed)[i].v < |seen|
  {
  }

  ghost function Unmarked(seen: seq<bool>): set<Var> { set v: Var | v < |seen| && !seen[v] }

  lemma MarkShrinksUnmarked(seen: seq<bool>, v: Var)
    requires v < |seen| && !seen[v]
    ensures Unmarked(seen[v := true]) < Unmarked(seen)
  {
    assert v in Unmarked(seen) && v !in Unmarked(seen[v := true]);
  }

  /** Every mark is on a literal of the learnt clause, or justified; and toclear remembers it. */
  ghost predicate MarksOk(t: Trail, ca: seq<ClauseRec>, seen: seq<bool>, rest: seq<Lit>, toclear: seq<Lit>) {
    && |seen| == |t.assigns|
    && (forall v :: 0 <= v < |seen| && seen[v] ==> FalseLit(t, v) in rest || Justified(t, ca, seen, v))
    && (forall v :: 0 <= v < |seen| && seen[v] ==> v in VarSet(toclear))
    && (forall i :: 0 <= i < |toclear| ==> toclear[i].v < |seen|)
  }

  /** A finished search: the pushed literals are justified, and so is v0. */
  lemma Explored(t: Trail, ca: seq<ClauseRec>, seen0: seq<bool>, seen: seq<bool>, v0: Var, pushed: seq<Lit>,
                 rest: seq<Lit>, toclear0: seq<Lit>)
    requires Exploring(t, ca, seen0, seen, v0, pushed, [], {}) && MarksOk(t, ca, seen0, rest, toclear0)
    ensures MarksOk(t, ca, seen, rest, toclear0 + pushed) && Justified(t, ca, seen, v0)
    ensures |seen| == |seen0| && forall v :: 0 <= v < |seen| && seen0[v] ==> seen[v]
  {
    var toclear := toclear0 + pushed;
    forall v | v in VarSet(toclear0) || v in VarSet(pushed) ensures v in VarSet(toclear) {
      if v in VarSet(toclear0) {
        var i :| 0 <= i < |toclear0| && toclear0[i].v == v;
        assert toclear[i].v == v;
      } else {
        var i :| 0 <= i < |pushed| && pushed[i].v == v;
        assert toclear[|toclear0| + i].v == v;
      }
    }
    forall v | 0 <= v < |seen| && seen[v] ensures FalseLit(t, v) in rest || Justified(t, ca, seen, v) {
      if seen0[v] && Justified(t, ca, seen0, v) {
        JustifiedIsMonotone(t, ca, seen0, seen, v);
      }
    }
  }

  lemma MarksInRange(t: Trail, ca: seq<ClauseRec>, seen: seq<bool>, rest: seq<Lit>, toclear: seq<Lit>)
    requires MarksOk(t, ca, seen, rest, toclear)
    ensures forall i :: 0 <= i < |toclear| ==> toclear[i].v < |seen|
    ensures forall v :: 0 <= v < |seen| && seen[v] ==> v in VarSet(toclear)
  {
  }

  // ---------- compaction of the learnt clause ----------

  /** kept holds those of the first i literals of rest that are not justified, each once. */
  ghost predicate Compacted(t: Trail, ca: seq<ClauseRec>, seen: seq<bool>, rest: seq<Lit>, i: nat, kept: seq<Lit>) {
    && i <= |rest| && DistinctVars(rest) && DistinctVars(kept) && |seen| == |t.assigns|
    && (forall x :: 0 <= x < |kept| ==> kept[x] in rest[..i])
    && (forall x :: 0 <= x < i ==> rest[x] in kept || Justified(t, ca, seen, rest[x].v))
    && (forall x :: 0 <= x < |rest| ==> IsFalse(t, rest[x]) && seen[rest[x].v])
  }

  lemma CompactStart(t: Trail, ca: seq<ClauseRec>, seen: seq<bool>, rest: seq<Lit>, bound: nat)
    requires Frontier(t, seen, rest, {}, bound)
    ensures Compacted(t, ca, seen, rest, 0, [])
  {
  }

  lemma CompactKeep(t: Trail, ca: seq<ClauseRec>, seen: seq<bool>, rest: seq<Lit>, i: nat, kept: seq<Lit>)
    requires Compacted(t, ca, seen, rest, i, kept) && i < |rest|
    ensures Compacted(t, ca, seen, rest, i + 1, kept + [rest[i]])
  {
    var kept' := kept + [rest[i]];
    assert kept'[|kept|] == rest[i] && rest[..i + 1] == rest[..i] + [rest[i]];
    forall x, y | 0 <= x < y < |kept'| ensures kept'[x].v != kept'[y].v {
      if y == |kept| {
        assert kept'[x] in rest[..i];
        var z :| 0 <= z < i && rest[z] == kept'[x];
      }
    }
    forall x | 0 <= x < i + 1 ensures rest[x] in kept' || Justified(t, ca, seen, rest[x].v) {
      if x < i && rest[x] in kept {
        var z :| 0 <= z < |kept| && kept[z] == rest[x];
        assert kept'[z] == rest[x];
      }
    }
  }

  lemma CompactDrop(t: Trail, ca: seq<ClauseRec>, seen: seq<bool>, rest: seq<Lit>, i: nat, kept: seq<Lit>)
    requires Compacted(t, ca, seen, rest, i, kept) && i < |rest| && Justified(t, ca, seen, rest[i].v)
    ensures Compacted(t, ca, seen, rest, i + 1, kept)
  {
    assert rest[..i + 1] == rest[..i] + [rest[i]];
  }

  lemma CompactIsMonotone(t: Trail, ca: seq<ClauseRec>, seen: seq<bool>, rest: seq<Lit>, i: nat, kept: seq<Lit>,
                          seen': seq<bool>)
    requires Compacted(t, ca, seen, rest, i, kept) && |seen'| == |seen|
    requires forall v :: 0 <= v < |seen| && seen[v] ==> seen'[v]
    ensures Compacted(t, ca, seen', rest, i, kept)
  {
    forall x | 0 <= x < i ensures rest[x] in kept || Justified(t, ca, seen', rest[x].v) {
      if rest[x] !in kept {
        JustifiedIsMonotone(t, ca, seen, seen', rest[x].v);
      }
    }
  }

  lemma CompactInRange(t: Trail, ca: seq<ClauseRec>, seen: seq<bool>, rest: seq<Lit>, i: nat, kept: seq<Lit>)
    requires Compacted(t, ca, seen, rest, i, kept) && i < |rest|
    ensures IsFalse(t, rest[i]) && rest[i].v < |t.assigns| == |seen|
  {
  }

  lemma MarksStart(t: Trail, ca: seq<ClauseRec>, seen: seq<bool>, rest: seq<Lit>, bound: nat, p: Lit)
    requires Frontier(t, seen, rest, {}, bound) && p.v < |t.assigns|
    ensures MarksOk(t, ca, seen, rest, [p] + rest)
  {
    var toclear := [p] + rest;
    forall v | 0 <= v < |seen| && seen[v] ensures v in VarSet(toclear) {
      var i :| 0 <= i < |rest| && rest[i] == FalseLit(t, v);
      assert toclear[i + 1].v == v;
    }
  }

  /** The compacted clause is still implied. */
  lemma CompactIsImplied(f: set<seq<Lit>>, t: Trail, ca: seq<ClauseRec>, seen: seq<bool>, rest: seq<Lit>,
                         kept: seq<Lit>, toclear: seq<Lit>, p: Lit)
    requires TrailOk(t) && ReasonsOk(t, ca) && ClausesSound(f, ca) && RootSound(f, t)
    requires Compacted(t, ca, seen, rest, |rest|, kept) && MarksOk(t, ca, seen, rest, toclear)
    requires ImpliedSet(f, LitSet(rest) + {p})
    ensures ImpliedSet(f, LitSet(kept) + {p})
  {
    var full, small := LitSet(rest) + {p}, LitSet(kept) + {p};
    forall v | 0 <= v < |seen| && seen[v] ensures FalseLit(t, v) in small || Justified(t, ca, seen, v) {
      if FalseLit(t, v) in rest {
        var x :| 0 <= x < |rest| && rest[x] == FalseLit(t, v);
        assert rest[x] in kept || Justified(t, ca, seen, rest[x].v);
      }
    }
    MinimizedIsImplied(f, t, ca, seen, full, small);
  }

  // ---------- the asserting clause ----------

  /**
   * The clause is false, its first literal alone is of the current level, and bt, the level to return to, is the
   * highest of the others, found at index 1; the root level if there are none.
   */
  ghost predicate Asserting(t: Trail, c: seq<Lit>, bt: nat) {
    && |c| >= 1 && DistinctVars(c)
    && (forall i :: 0 <= i < |c| ==> IsFalse(t, c[i]))
    && Level(t, c[0]) == |t.lim|
    && bt < |t.lim|
    && (forall i :: 1 <= i < |c| ==> 0 < Level(t, c[i]) <= bt)
    && if |c| == 1 then bt == 0 else Level(t, c[1]) == bt
  }

  lemma BuildAsserting(t: Trail, ca: seq<ClauseRec>, seen: seq<bool>, rest: seq<Lit>, kept: seq<Lit>, bound: nat,
                       p: Lit)
    requires Compacted(t, ca, seen, rest, |rest|, kept)
    requires forall x :: 0 <= x < |rest| ==> 0 < Level(t, rest[x]) < |t.lim|
    requires IsFalse(t, p) && Level(t, p) == |t.lim|
    ensures DistinctVars([p] + kept) && Level(t, ([p] + kept)[0]) == |t.lim|
    ensures forall i :: 0 <= i < |[p] + kept| ==> IsFalse(t, ([p] + kept)[i])
    ensures forall i :: 1 <= i < |[p] + kept| ==> 0 < Level(t, ([p] + kept)[i]) < |t.lim|
  {
    forall x | 0 <= x < |kept| ensures IsFalse(t, kept[x]) && 0 < Level(t, kept[x]) < |t.lim| && kept[x].v != p.v {
      assert kept[x] in rest[..|rest|];
      var z :| 0 <= z < |rest| && rest[z] == kept[x];
    }
  }

  lemma ImpliedAsClause(f: set<seq<Lit>>, kept: seq<Lit>, p: Lit, c: seq<Lit>)
    requires ImpliedSet(f, LitSet(kept) + {p}) && multiset(c) == multiset([p] + kept)
    ensures Implied(f, c)
  {
    forall a | Models(a, f) ensures Satisfies(a, c) {
      var l :| l in LitSet(kept) + {p} && Holds(a, l);
      assert l in [p] + kept;
      assert Satisfies(a, [p] + kept);
      SameLitsSameMeaning(a, c, [p] + kept);
    }
  }

  // ---------- the final conflict, in terms of assumptions ----------

  /** Each decision of a level that belongs to an assumption is that assumption. */
  ghost predicate DecisionsAssumed(t: Trail, assumptions: seq<Lit>) {
    forall i :: 0 <= i < |t.lits| && Reason(t, t.lits[i]) == CREF_UNDEF && 0 < Level(t, t.lits[i]) <= |assumptions| ==>
      t.lits[i] == assumptions[Level(t, t.lits[i]) - 1]
  }

  /**
   * marked collects all marks ever set, none outside of the cone of p. Those at stack index i and above have been dealt
   * with: exactly the decisions went to out, the others are justified. Below i they are still set in seen. (p itself
   * may be of level 0.)
   */
  ghost predicate Finalizing(t: Trail, ca: seq<ClauseRec>, assumptions: seq<Lit>, seen: seq<bool>, marked: seq<bool>,
                             out: seq<Lit>, i: nat, p: Lit) {
    && |seen| == |marked| == |t.assigns|
    && (forall v :: 0 <= v < |seen| ==>
          (seen[v] <==> (marked[v] && v < |t.pos| && t.pos[v] < i) || (v == p.v && Level(t, p) == 0)))
    && (forall v :: 0 <= v < |marked| && marked[v] ==>
          t.assigns[v] != LUndef && v < |t.vardata| && t.vardata[v].level > 0)
    && Dealt(t, ca, marked, i) && (forall q :: q in out ==> Neg(q) in assumptions)
    && (p.v < |marked| && Level(t, p) > 0 ==> marked[p.v])
    && |out| > 0 && out[0] == p && DecisionsOf(t, marked, out[1..], i)
    && Marked(marked) <= Cone(t, ca, AboveRoot(t, [p]), {})
  }

  /** The marked variables at stack index i and above are decisions, or justified. */
  ghost predicate Dealt(t: Trail, ca: seq<ClauseRec>, marked: seq<bool>, i: nat) {
    forall v :: 0 <= v < |marked| && marked[v] && v < |t.pos| && i <= t.pos[v] ==>
      (v < |t.vardata| && t.vardata[v].reason == CREF_UNDEF) || Justified(t, ca, marked, v)
  }

  lemma DealtAfterMark(t: Trail, ca: seq<ClauseRec>, marked: seq<bool>, i: nat, x: Var)
    requires Dealt(t, ca, marked, i) && x < |marked| && x < |t.pos| && t.pos[x] < i
    ensures Dealt(t, ca, marked[x := true], i)
  {
    var marked' := marked[x := true];
    forall v | 0 <= v < |marked| && marked'[v] && v < |t.pos| && i <= t.pos[v]
      ensures (v < |t.vardata| && t.vardata[v].reason == CREF_UNDEF) || Justified(t, ca, marked', v)
    {
      if Justified(t, ca, marked, v) {
        JustifiedIsMonotone(t, ca, marked, marked', v);
      }
    }
  }

  /** The complements of exactly the marked decisions at stack index i and above, once each. */
  ghost predicate DecisionsOf(t: Trail, marked: seq<bool>, core: seq<Lit>, i: nat) {
    && DistinctVars(core)
    && forall q :: q in core <==>
         IsFalse(t, q) && Reason(t, q) == CREF_UNDEF && q.v < |marked| && marked[q.v] && i <= Pos(t, q)
  }

  lemma FalseFinal(t: Trail, ca: seq<ClauseRec>, p: Lit)
    requires ClausesOk(ca, |t.assigns|) && IsTrue(t, p)
    ensures AboveRoot(t, [p]) == if Level(t, p) > 0 then {p.v} else {}
    ensures AboveRoot(t, [p]) <= Cone(t, ca, AboveRoot(t, [p]), {})
  {
    assert [p][0] == p;
    ConeIsClosed(t, ca, AboveRoot(t, [p]), {});
  }

  /** At the root nothing was decided. */
  lemma RootCore(t: Trail, ca: seq<ClauseRec>, p: Lit)
    requires TrailOk(t) && IsTrue(t, p) && |t.lim| == 0
    ensures FinalCore(t, ca, p, [p])
  {
    TrueIsOnStack(t, p);
    assert LevelAt(t, Pos(t, p), Level(t, p));
    assert AboveRoot(t, [p]) == {};
    ConeIsWithin(t, ca, {}, {}, {});
  }

  lemma FinalStart(t: Trail, ca: seq<ClauseRec>, assumptions: seq<Lit>, seen: seq<bool>, p: Lit)
    requires TrailOk(t) && AllUnmarked(seen) && |seen| == |t.assigns| && IsTrue(t, p) && Neg(p) in assumptions
    requires ClausesOk(ca, |t.assigns|)
    ensures Finalizing(t, ca, assumptions, seen[p.v := true],
                       if Level(t, p) > 0 then seen[p.v := true] else seen, [p], |t.lits|, p)
  {
    hide Cone, AboveRoot;
    FalseFinal(t, ca, p);
    assert [p][1..] == [];
    forall q | IsFalse(t, q) ensures Pos(t, q) < |t.lits| {
      FalseIsOnStack(t, q);
    }
  }

  lemma FinalSkip(t: Trail, ca: seq<ClauseRec>, assumptions: seq<Lit>, seen: seq<bool>, marked: seq<bool>,
                  out: seq<Lit>, i: nat, p: Lit)
    requires TrailOk(t) && Finalizing(t, ca, assumptions, seen, marked, out, i + 1, p) && i < |t.lits|
    requires !seen[t.lits[i].v]
    ensures Finalizing(t, ca, assumptions, seen, marked, out, i, p)
  {
    hide Cone, AboveRoot, Justified, Marked, DecisionsOf;
    NoDecision(t, marked, out[1..], i);
  }

  lemma LaterMark(t: Trail, marked: seq<bool>, core: seq<Lit>, i: nat, v: Var)
    requires DecisionsOf(t, marked, core, i) && v < |marked| && v < |t.pos| && t.pos[v] < i
    ensures DecisionsOf(t, marked[v := true], core, i)
  {
  }

  lemma NoDecision(t: Trail, marked: seq<bool>, core: seq<Lit>, i: nat)
    requires TrailOk(t) && i < |t.lits| && DecisionsOf(t, marked, core, i + 1)
    requires t.lits[i].v < |marked| && marked[t.lits[i].v] ==> Reason(t, t.lits[i]) != CREF_UNDEF
    ensures DecisionsOf(t, marked, core, i)
  {
    hide LevelsOk, LimOk;
    forall q | IsFalse(t, q) && Pos(t, q) == i ensures q.v == t.lits[i].v {
      FalseIsOnStack(t, q);
    }
  }

  lemma FinalDecision(t: Trail, ca: seq<ClauseRec>, assumptions: seq<Lit>, seen: seq<bool>, marked: seq<bool>,
                      out: seq<Lit>, i: nat, p: Lit)
    requires TrailOk(t) && DecisionsAssumed(t, assumptions) && |t.lim| <= |assumptions|
    requires i < |t.lits| && Finalizing(t, ca, assumptions, seen, marked, out, i + 1, p)
    requires seen[t.lits[i].v] && Reason(t, t.lits[i]) == CREF_UNDEF && Level(t, t.lits[i]) > 0
    ensures Finalizing(t, ca, assumptions, seen[t.lits[i].v := false], marked, out + [Neg(t.lits[i])], i, p)
  {
    hide Cone, AboveRoot, Justified, Marked;
    assert LevelAt(t, i, Level(t, t.lits[i]));
    assert Neg(Neg(t.lits[i])) == t.lits[i];
    NextDecision(t, marked, out[1..], i);
    assert (out + [Neg(t.lits[i])])[1..] == out[1..] + [Neg(t.lits[i])];
  }

  lemma NextDecision(t: Trail, marked: seq<bool>, core: seq<Lit>, i: nat)
    requires TrailOk(t) && i < |t.lits| && DecisionsOf(t, marked, core, i + 1)
    requires t.lits[i].v < |marked| && marked[t.lits[i].v] && Reason(t, t.lits[i]) == CREF_UNDEF
    ensures DecisionsOf(t, marked, core + [Neg(t.lits[i])], i)
  {
    var q0 := Neg(t.lits[i]);
    var core' := core + [q0];
    forall q ensures q in core' <==>
                     IsFalse(t, q) && Reason(t, q) == CREF_UNDEF && q.v < |marked| && marked[q.v] && i <= Pos(t, q)
    {
      if IsFalse(t, q) && Pos(t, q) == i {
        FalseIsOnStack(t, q);
        assert q == q0;
      }
    }
    forall k | 0 <= k < |core| ensures core[k].v != q0.v {
      assert core[k] in core;
    }
  }

  lemma FinalMark(t: Trail, ca: seq<ClauseRec>, assumptions: seq<Lit>, seen: seq<bool>, marked: seq<bool>,
                  out: seq<Lit>, i: nat, p: Lit, l: Lit)
    requires TrailOk(t) && Finalizing(t, ca, assumptions, seen, marked, out, i, p)
    requires IsFalse(t, l) && Level(t, l) > 0 && Pos(t, l) < i && l.v in Cone(t, ca, AboveRoot(t, [p]), {})
    ensures Finalizing(t, ca, assumptions, seen[l.v := true], marked[l.v := true], out, i, p)
  {
    hide Cone, AboveRoot;
    var marked' := marked[l.v := true];
    LaterMark(t, marked, out[1..], i, l.v);
    DealtAfterMark(t, ca, marked, i, l.v);
    hide DecisionsOf, Dealt;
    FalseIsOnStack(t, l);
  }

  lemma FinalClose(t: Trail, ca: seq<ClauseRec>, assumptions: seq<Lit>, seen: seq<bool>, marked: seq<bool>,
                   out: seq<Lit>, i: nat, p: Lit)
    requires TrailOk(t) && Finalizing(t, ca, assumptions, seen, marked, out, i + 1, p) && i < |t.lits|
    requires Level(t, t.lits[i]) > 0 && 0 <= Reason(t, t.lits[i]) < |ca|
    requires Covered(t, marked, ca[Reason(t, t.lits[i])].lits, |ca[Reason(t, t.lits[i])].lits|)
    ensures Finalizing(t, ca, assumptions, seen[t.lits[i].v := false], marked, out, i, p)
  {
    hide Cone, AboveRoot, Marked, DecisionsOf;
    assert Justified(t, ca, marked, t.lits[i].v);
    NoDecision(t, marked, out[1..], i);
  }

  /** The reason of a marked literal stays in the cone of p. */
  lemma MarkedReason(t: Trail, ca: seq<ClauseRec>, assumptions: seq<Lit>, seen: seq<bool>, marked: seq<bool>,
                     out: seq<Lit>, i: nat, p: Lit)
    requires Finalizing(t, ca, assumptions, seen, marked, out, i + 1, p) && i < |t.lits|
    requires ClausesOk(ca, |t.assigns|) && IsTrue(t, p)
    requires t.lits[i].v < |seen| && seen[t.lits[i].v] && Level(t, t.lits[i]) > 0 && 0 <= Reason(t, t.lits[i]) < |ca|
    ensures var c := ca[Reason(t, t.lits[i])].lits; forall k :: 1 <= k < |c| && Level(t, c[k]) > 0 ==>
        c[k].v in Cone(t, ca, AboveRoot(t, [p]), {})
  {
    hide Cone, Justified, ClausesOk;
    FalseFinal(t, ca, p);
    ConeIsClosed(t, ca, AboveRoot(t, [p]), {});
    var c := ca[Reason(t, t.lits[i])].lits;
    assert t.lits[i].v in Marked(marked);
    forall k | 1 <= k < |c| && Level(t, c[k]) > 0 ensures c[k].v in Antecedents(t, ca, t.lits[i].v) {
      assert c[1..][k - 1] == c[k];
    }
  }

  lemma RootTrueIsImplied(f: set<seq<Lit>>, t: Trail, p: Lit)
    requires TrailOk(t) && RootSound(f, t) && IsTrue(t, p) && |t.lim| == 0
    ensures Implied(f, [p])
  {
    TrueIsOnStack(t, p);
    assert LevelAt(t, Pos(t, p), Level(t, p));
  }

  lemma LimInRange(t: Trail, l: nat)
    requires TrailOk(t) && l < |t.lim|
    ensures t.lim[l] <= |t.lits|
  {
  }

  lemma StackLevelIsPositive(t: Trail, ca: seq<ClauseRec>, i: nat)
    requires TrailOk(t) && |t.lim| > 0 && t.lim[0] <= i < |t.lits|
    ensures t.lits[i].v < |t.assigns| == |t.vardata| && Level(t, t.lits[i]) > 0
  {
    LevelFromPos(t, i, 0);
  }

  lemma ReasonClauseIsFalse(t: Trail, ca: seq<ClauseRec>, i: nat)
    requires TrailOk(t) && ReasonsOk(t, ca) && i < |t.lits| && Reason(t, t.lits[i]) != CREF_UNDEF
    ensures 0 <= Reason(t, t.lits[i]) < |ca| && forall k :: 1 <= k < |ca[Reason(t, t.lits[i])].lits| ==>
      IsFalse(t, ca[Reason(t, t.lits[i])].lits[k]) && Pos(t, ca[Reason(t, t.lits[i])].lits[k]) < i
  {
    assert ReasonAt(t, ca, i);
  }

  lemma FinalShape(t: Trail, ca: seq<ClauseRec>, assumptions: seq<Lit>, seen: seq<bool>, marked: seq<bool>,
                   out: seq<Lit>, i: nat, p: Lit)
    requires Finalizing(t, ca, assumptions, seen, marked, out, i, p)
    ensures |seen| == |marked| == |t.assigns|
  {
  }

  /** Once the stack is done down to level 0, the collected clause is implied and no mark but p's can be left. */
  lemma FinalImplied(f: set<seq<Lit>>, t: Trail, ca: seq<ClauseRec>, assumptions: seq<Lit>, seen: seq<bool>,
                     marked: seq<bool>, out: seq<Lit>, i: nat, p: Lit)
    requires TrailOk(t) && ReasonsOk(t, ca) && ClausesSound(f, ca) && RootSound(f, t) && IsTrue(t, p)
    requires Finalizing(t, ca, assumptions, seen, marked, out, i, p) && |t.lim| > 0 && i == t.lim[0]
    requires ClausesOk(ca, |t.assigns|)
    ensures Implied(f, out) && AllUnmarked(seen[p.v := false])
    ensures FinalCore(t, ca, p, out) && forall q :: q in out ==> Neg(q) in assumptions
  {
    hide Cone, AboveRoot, Marked;
    forall v | 0 <= v < |marked| && marked[v] ensures i <= t.pos[v] {
      LevelFromPos(t, t.pos[v], 0);
    }
    forall v | 0 <= v < |marked| && marked[v] ensures FalseLit(t, v) in out || Justified(t, ca, marked, v) {
      if !Justified(t, ca, marked, v) {
        assert FalseLit(t, v) in out[1..];
      }
    }
    FinalIsCore(t, ca, assumptions, seen, marked, out, i, p);
    TrueIsOnStack(t, p);
    forall a | Models(a, f) ensures Satisfies(a, out) {
      if Level(t, p) == 0 {
        assert Implied(f, [t.lits[Pos(t, p)]]);
        assert Satisfies(a, [p]);
      } else if forall q :: q in LitSet(out) ==> !Holds(a, q) {
        MarkedFollows(f, t, ca, marked, LitSet(out), a, Pos(t, p));
      }
    }
  }

  /** All marks have been dealt with: they are closed under reasons, so they are the whole cone. */
  lemma FinalIsCore(t: Trail, ca: seq<ClauseRec>, assumptions: seq<Lit>, seen: seq<bool>, marked: seq<bool>,
                    out: seq<Lit>, i: nat, p: Lit)
    requires TrailOk(t) && ClausesOk(ca, |t.assigns|) && IsTrue(t, p)
    requires Finalizing(t, ca, assumptions, seen, marked, out, i, p)
    requires forall v :: 0 <= v < |marked| && marked[v] ==> v < |t.pos| && i <= t.pos[v]
    ensures FinalCore(t, ca, p, out)
  {
    hide Cone, AboveRoot, Antecedents;
    FalseFinal(t, ca, p);
    forall v | v in Marked(marked) ensures Antecedents(t, ca, v) <= Marked(marked) {
      DealtWith(t, ca, marked, v);
    }
    ConeIsWithin(t, ca, AboveRoot(t, [p]), {}, Marked(marked));
    assert forall q :: IsFalse(t, q) && q.v < |marked| && marked[q.v] ==> i <= Pos(t, q);
  }

  lemma DealtWith(t: Trail, ca: seq<ClauseRec>, marked: seq<bool>, v: Var)
    requires v < |t.vardata| && (t.vardata[v].reason == CREF_UNDEF || Justified(t, ca, marked, v))
    ensures Antecedents(t, ca, v) <= Marked(marked)
  {
  }
}
