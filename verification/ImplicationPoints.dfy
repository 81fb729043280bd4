/** The resolution loop of conflict analysis stops at the first unique implication point. */
module ImplicationPoints {
  import opened SolverTypes
  import opened Trails
  import opened ReasonCones
  import opened ConflictAnalysis

  ghost function OpenVars(open: set<Lit>): set<Var> { set q | q in open :: q.v }

  /** All variables met so far: in the resolvent, or resolved away. */
  ghost function Met(rest: seq<Lit>, open: set<Lit>, done: set<Var>): set<Var> { VarSet(rest) + OpenVars(open) + done }

  /** Every set around base that is closed down to stack index b contains m. */
  ghost predicate Needed(t: Trail, ca: seq<ClauseRec>, base: set<Var>, b: nat, m: set<Var>) {
    forall s :: base <= s && ReasonClosed(t, ca, s, Low(t, b)) ==> m <= s
  }

  ghost predicate ResolvedAway(t: Trail, done: set<Var>, bound: nat) {
    forall v :: v in done ==>
      v < |t.assigns| && v < |t.vardata| && v < |t.pos| && t.vardata[v].level == |t.lim| && bound <= t.pos[v]
  }

  /**
   * Of the current level, the variables in done are resolved away, all of them at stack index bound or above; cur are
   * those whose reasons are still to be looked at.
   */
  ghost predicate Tracing(t: Trail, ca: seq<ClauseRec>, base: set<Var>, rest: seq<Lit>, open: set<Lit>, done: set<Var>,
                          cur: set<Var>, bound: nat) {
    && ResolvedAway(t, done, bound) && cur <= done
    && Needed(t, ca, base, bound, Met(rest, open, done))
    && forall v :: v in done && v !in cur ==> Antecedents(t, ca, v) <= Met(rest, open, done)
  }

  lemma StartTracing(t: Trail, ca: seq<ClauseRec>, base: set<Var>)
    ensures Tracing(t, ca, base, [], {}, {}, {}, |t.lits|)
  {
  }

  /** One clause was looked at, from its literal number start on. */
  ghost predicate ClauseMet(t: Trail, c: seq<Lit>, start: nat, rest0: seq<Lit>, open0: set<Lit>, rest: seq<Lit>,
                            open: set<Lit>) {
    && start <= |c| && rest0 <= rest && open0 <= open
    && (forall k :: start <= k < |c| ==> c[k] in rest || c[k] in open || Level(t, c[k]) == 0)
    && (forall q :: q in rest || q in open ==> q in rest0 || q in open0 || (q in c[start..] && Level(t, q) > 0))
  }

  lemma MetGrows(t: Trail, c: seq<Lit>, start: nat, rest0: seq<Lit>, open0: set<Lit>, rest: seq<Lit>, open: set<Lit>,
                 done: set<Var>)
    requires ClauseMet(t, c, start, rest0, open0, rest, open)
    ensures Met(rest, open, done) == Met(rest0, open0, done) + AboveRoot(t, c[start..])
  {
    var d := c[start..];
    var m, m' := Met(rest0, open0, done), Met(rest, open, done);
    forall v | v in m + AboveRoot(t, d) ensures v in m' {
      if v in VarSet(rest0) {
        var i :| 0 <= i < |rest0| && rest0[i].v == v;
        assert rest[i].v == v;
      } else if v in AboveRoot(t, d) {
        var k :| 0 <= k < |d| && Level(t, d[k]) > 0 && d[k].v == v;
        assert c[start + k] == d[k];
        LitIsMet(rest, open, done, d[k]);
      }
    }
    forall v | v in m' ensures v in m + AboveRoot(t, d) {
      if v in VarSet(rest) || v in OpenVars(open) {
        var q :| (q in rest || q in open) && q.v == v;
        if q in rest0 || q in open0 {
          LitIsMet(rest0, open0, done, q);
        } else {
          var k :| 0 <= k < |d| && d[k] == q;
        }
      }
    }
  }

  lemma LitIsMet(rest: seq<Lit>, open: set<Lit>, done: set<Var>, q: Lit)
    requires q in rest || q in open
    ensures q.v in Met(rest, open, done)
  {
    if q in rest {
      var i :| 0 <= i < |rest| && rest[i] == q;
      assert rest[i].v in VarSet(rest);
    }
  }

  /** The conflict itself. */
  lemma TraceConflict(t: Trail, ca: seq<ClauseRec>, c: seq<Lit>, rest0: seq<Lit>, open0: set<Lit>, rest: seq<Lit>,
                      open: set<Lit>, done: set<Var>, bound: nat)
    requires Tracing(t, ca, AboveRoot(t, c), rest0, open0, done, {}, bound)
    requires ClauseMet(t, c, 0, rest0, open0, rest, open)
    ensures Tracing(t, ca, AboveRoot(t, c), rest, open, done, {}, bound)
    ensures AboveRoot(t, c) <= Met(rest, open, done)
  {
    hide AboveRoot, Antecedents, ClauseMet;
    MetGrows(t, c, 0, rest0, open0, rest, open, done);
    hide Met;
    assert c[0..] == c;
  }

  /** The reason of v, the one that was just taken. */
  lemma TraceReason(t: Trail, ca: seq<ClauseRec>, base: set<Var>, v: Var, rest0: seq<Lit>, open0: set<Lit>,
                    rest: seq<Lit>, open: set<Lit>, done: set<Var>, bound: nat)
    requires Tracing(t, ca, base, rest0, open0, done, {v}, bound) && base <= Met(rest0, open0, done)
    requires v < |t.vardata| && 0 <= t.vardata[v].reason < |ca| && |ca[t.vardata[v].reason].lits| > 0
    requires ClauseMet(t, ca[t.vardata[v].reason].lits, 1, rest0, open0, rest, open)
    ensures Tracing(t, ca, base, rest, open, done, {}, bound) && base <= Met(rest, open, done)
  {
    hide AboveRoot, ClauseMet;
    MetGrows(t, ca[t.vardata[v].reason].lits, 1, rest0, open0, rest, open, done);
    assert v in Met(rest0, open0, done);
    hide Met;
    assert v !in Low(t, bound);
    var m, m' := Met(rest0, open0, done), Met(rest, open, done);
    assert m' == m + Antecedents(t, ca, v);
    forall s | base <= s && ReasonClosed(t, ca, s, Low(t, bound)) ensures m' <= s {
      assert m <= s;
    }
  }

  /** The next literal is taken from the top of the stack. */
  lemma TraceTake(t: Trail, ca: seq<ClauseRec>, base: set<Var>, rest: seq<Lit>, open: set<Lit>, done: set<Var>,
                  bound: nat, i: nat)
    requires TrailOk(t) && Tracing(t, ca, base, rest, open, done, {}, bound) && i < |t.lits| && i < bound
    requires Neg(t.lits[i]) in open && Level(t, t.lits[i]) == |t.lim|
    ensures Tracing(t, ca, base, rest, open - {Neg(t.lits[i])}, done + {t.lits[i].v}, {t.lits[i].v}, i)
    ensures Met(rest, open - {Neg(t.lits[i])}, done + {t.lits[i].v}) <= Met(rest, open, done)
    ensures Met(rest, open, done) <= Met(rest, open - {Neg(t.lits[i])}, done + {t.lits[i].v})
  {
    hide Antecedents, LevelsOk, LimOk;
    var p := t.lits[i];
    var open', done' := open - {Neg(p)}, done + {p.v};
    assert Met(rest, open', done') == Met(rest, open, done) by {
      assert OpenVars(open') + {p.v} == OpenVars(open);
    }
    NeededBelow(t, ca, base, bound, i, Met(rest, open, done));
  }

  lemma NeededBelow(t: Trail, ca: seq<ClauseRec>, base: set<Var>, b: nat, b': nat, m: set<Var>)
    requires Needed(t, ca, base, b, m) && b' <= b
    ensures Needed(t, ca, base, b', m)
  {
    hide Antecedents;
    forall s | base <= s && ReasonClosed(t, ca, s, Low(t, b')) ensures m <= s {
      assert Low(t, b') <= Low(t, b);
      assert ReasonClosed(t, ca, s, Low(t, b));
    }
  }

  /** What was met is exactly what is involved, resolving down to any index above the open literals. */
  lemma MetIsInvolved(t: Trail, ca: seq<ClauseRec>, seen: seq<bool>, c: seq<Lit>, rest: seq<Lit>, open: set<Lit>,
                      done: set<Var>, bound: nat, b: nat)
    requires TrailOk(t) && Frontier(t, seen, rest, open, b) && b <= bound
    requires Tracing(t, ca, AboveRoot(t, c), rest, open, done, {}, bound)
    requires AboveRoot(t, c) <= Met(rest, open, done)
    ensures Involved(t, ca, c, b) == Met(rest, open, done)
    ensures CurrentVars(t, Met(rest, open, done), b) == OpenVars(open)
  {
    hide Antecedents, AboveRoot, LevelsOk, LimOk;
    var m := Met(rest, open, done);
    NeededBelow(t, ca, AboveRoot(t, c), bound, b, m);
    forall v | v in m && v !in Low(t, b) ensures v in done {
    }
    ConeIs(t, ca, AboveRoot(t, c), Low(t, b), m);
  }

  /** Only the last open literal, when it is taken, is a unique implication point. */
  lemma UipAt(t: Trail, ca: seq<ClauseRec>, seen: seq<bool>, c: seq<Lit>, rest: seq<Lit>, open: set<Lit>,
              done: set<Var>, bound: nat, i: nat, j: nat)
    requires TrailOk(t) && i <= j < bound && j < |t.lits| && Frontier(t, seen, rest, open, i + 1)
    requires Tracing(t, ca, AboveRoot(t, c), rest, open, done, {}, bound)
    requires AboveRoot(t, c) <= Met(rest, open, done) && Neg(t.lits[i]) in open
    ensures IsUip(t, ca, c, j) <==> j == i && open == {Neg(t.lits[i])}
  {
    RaiseBound(t, seen, rest, open, i + 1, j + 1);
    MetIsInvolved(t, ca, seen, c, rest, open, done, bound, j + 1);
    hide Involved, Met, CurrentVars, Tracing, AboveRoot, LevelsOk, LimOk;
    if OpenVars(open) == {t.lits[j].v} {
      assert t.lits[i].v in OpenVars(open);
      forall q | q in open ensures q == Neg(t.lits[i]) {
        assert q.v in OpenVars(open);
        FalseIsOnStack(t, q);
      }
    }
  }

  /** What is left of lower levels then. */
  lemma RestAt(t: Trail, ca: seq<ClauseRec>, seen: seq<bool>, c: seq<Lit>, rest: seq<Lit>, open: set<Lit>,
               done: set<Var>, bound: nat, i: nat, q: Lit)
    requires TrailOk(t) && i < bound && i < |t.lits| && Frontier(t, seen, rest, open, i + 1)
    requires Tracing(t, ca, AboveRoot(t, c), rest, open, done, {}, bound)
    requires AboveRoot(t, c) <= Met(rest, open, done)
    ensures q in rest <==> IsFalse(t, q) && Level(t, q) < |t.lim| && q.v in Involved(t, ca, c, i + 1)
  {
    MetIsInvolved(t, ca, seen, c, rest, open, done, bound, i + 1);
    hide Involved, AboveRoot, LevelsOk, LimOk, Needed, Antecedents;
    if q in rest {
      LitIsMet(rest, open, done, q);
    }
    if IsFalse(t, q) && Level(t, q) < |t.lim| && q.v in Met(rest, open, done) {
      assert q.v in VarSet(rest);
      var k :| 0 <= k < |rest| && rest[k].v == q.v;
      assert rest[k] == q;
    }
  }

  /** At the head of the loop: what was met, and no unique implication point so far. */
  ghost predicate Searching(t: Trail, ca: seq<ClauseRec>, c: seq<Lit>, rest: seq<Lit>, open: set<Lit>, done: set<Var>,
                            cur: set<Var>, bound: nat) {
    && Tracing(t, ca, AboveRoot(t, c), rest, open, done, cur, bound)
    && forall j :: bound <= j < |t.lits| ==> !IsUip(t, ca, c, j)
  }

  /** After the clause was looked at. */
  lemma SearchClause(t: Trail, ca: seq<ClauseRec>, c: seq<Lit>, r: CRef, start: nat, p: Lit, rest0: seq<Lit>,
                     open0: set<Lit>, rest: seq<Lit>, open: set<Lit>, done: set<Var>, bound: nat)
    requires start <= 1 && 0 <= r < |ca| && |ca[r].lits| > 0
    requires Searching(t, ca, c, rest0, open0, done, if start == 0 then {} else {p.v}, bound)
    requires if start == 0 then ca[r].lits == c
             else AboveRoot(t, c) <= Met(rest0, open0, done) && p.v < |t.vardata| && Reason(t, p) == r
    requires ClauseMet(t, ca[r].lits, start, rest0, open0, rest, open)
    ensures Searching(t, ca, c, rest, open, done, {}, bound) && AboveRoot(t, c) <= Met(rest, open, done)
  {
    hide Tracing, IsUip, Met, AboveRoot, ClauseMet;
    if start == 0 {
      TraceConflict(t, ca, c, rest0, open0, rest, open, done, bound);
    } else {
      TraceReason(t, ca, AboveRoot(t, c), p.v, rest0, open0, rest, open, done, bound);
    }
  }

  /** After the next literal, at stack index i, was taken. */
  lemma SearchTake(t: Trail, ca: seq<ClauseRec>, seen: seq<bool>, c: seq<Lit>, rest: seq<Lit>, open: set<Lit>,
                   done: set<Var>, bound: nat, i: nat)
    requires TrailOk(t) && Searching(t, ca, c, rest, open, done, {}, bound) && i < |t.lits| && i < bound
    requires AboveRoot(t, c) <= Met(rest, open, done) && Frontier(t, seen, rest, open, i + 1)
    requires Neg(t.lits[i]) in open && Level(t, t.lits[i]) == |t.lim|
    ensures var p, open' := t.lits[i], open - {Neg(t.lits[i])};
      if open' == {} then FirstUipIs(t, ca, c, p, rest)
      else Searching(t, ca, c, rest, open', done + {p.v}, {p.v}, i) &&
           AboveRoot(t, c) <= Met(rest, open', done + {p.v})
  {
    hide Tracing, IsUip, Met, AboveRoot, Frontier, Involved;
    forall j | i <= j < bound && j < |t.lits|
      ensures IsUip(t, ca, c, j) <==> j == i && open == {Neg(t.lits[i])}
    {
      UipAt(t, ca, seen, c, rest, open, done, bound, i, j);
    }
    TraceTake(t, ca, AboveRoot(t, c), rest, open, done, bound, i);
    if open - {Neg(t.lits[i])} == {} {
      assert open == {Neg(t.lits[i])};
      forall q ensures q in rest <==> IsFalse(t, q) && Level(t, q) < |t.lim| && q.v in Involved(t, ca, c, i + 1) {
        RestAt(t, ca, seen, c, rest, open, done, bound, i, q);
      }
      RestIsDistinct(t, seen, rest, open, i + 1);
    }
  }

  lemma RestIsDistinct(t: Trail, seen: seq<bool>, rest: seq<Lit>, open: set<Lit>, bound: nat)
    requires Frontier(t, seen, rest, open, bound)
    ensures DistinctVars(rest)
  {
  }

  lemma StartSearching(t: Trail, ca: seq<ClauseRec>, c: seq<Lit>)
    ensures Searching(t, ca, c, [], {}, {}, {}, |t.lits|)
  {
    StartTracing(t, ca, AboveRoot(t, c));
  }

  lemma ClauseIsMet(t: Trail, c: seq<Lit>, start: nat, rest0: seq<Lit>, open0: set<Lit>, rest: seq<Lit>, open: set<Lit>)
    requires ClauseMet(t, c, start, rest0, open0, rest, open)
    ensures rest0 <= rest && open0 <= open
    ensures forall k :: start <= k < |c| ==> c[k] in rest || c[k] in open || Level(t, c[k]) == 0
  {
  }
}
