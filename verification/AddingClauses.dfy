/** addClause_, on values: simplifying a new clause against the root, and what storing the rest keeps. */
module AddingClauses {
  import opened SolverTypes
  import opened Trails
  import opened Watches
  import opened Propagation
  import opened Database
  import opened ConflictAnalysis
  import opened Soundness
  import opened Backtracking
  import Sort

  function LitLess(p: Lit, q: Lit): bool { ToInt(p) < ToInt(q) }

  ghost predicate AscendingVars(c: seq<Lit>) { forall i, j :: 0 <= i < j < |c| ==> c[i].v < c[j].v }

  /** out is what the scan of the sorted literals ps has kept; all else so far was false or a repetition. */
  ghost predicate Scanned(assigns: seq<LBool>, ps: seq<Lit>, i: nat, out: seq<Lit>) {
    && i <= |ps| && InRange(ps, |assigns|) && Sort.Sorted(ps, LitLess)
    && AscendingVars(out)
    && (forall p :: p in out <==> p in ps[..i] && p.v < |assigns| && Value(assigns, p) == LUndef)
    && (forall x :: 0 <= x < i ==> Value(assigns, ps[x]) != LTrue)
  }

  lemma ScanSkip(assigns: seq<LBool>, ps: seq<Lit>, i: nat, out: seq<Lit>)
    requires Scanned(assigns, ps, i, out) && i < |ps|
    requires Value(assigns, ps[i]) == LFalse || ps[i] in out
    ensures Scanned(assigns, ps, i + 1, out)
  {
    assert ps[..i + 1] == ps[..i] + [ps[i]];
  }

  lemma ScanKeep(assigns: seq<LBool>, ps: seq<Lit>, i: nat, out: seq<Lit>)
    requires Scanned(assigns, ps, i, out) && i < |ps| && Value(assigns, ps[i]) == LUndef
    requires |out| > 0 ==> ps[i] != out[|out| - 1] && ps[i] != Neg(out[|out| - 1])
    ensures Scanned(assigns, ps, i + 1, out + [ps[i]])
  {
    assert ps[..i + 1] == ps[..i] + [ps[i]];
    if |out| > 0 {
      var q := out[|out| - 1];
      assert q in ps[..i];
      var x :| 0 <= x < i && ps[x] == q;
      assert !LitLess(ps[i], ps[x]);
    }
  }

  /** The scan finds every tautology. */
  lemma ScannedHasNoTautology(assigns: seq<LBool>, ps: seq<Lit>, out: seq<Lit>)
    requires Scanned(assigns, ps, |ps|, out)
    ensures DistinctVars(out) && InRange(out, |assigns|)
    ensures forall p :: p in out <==> p in ps && Value(assigns, p) == LUndef
    ensures forall p :: p in ps ==> Neg(p) !in ps && Value(assigns, p) != LTrue
    ensures forall i :: 0 <= i < |out| ==> assigns[out[i].v] == LUndef
  {
    assert ps[..|ps|] == ps;
    forall i | 0 <= i < |out| ensures out[i].v < |assigns| && Value(assigns, out[i]) == LUndef {
      assert out[i] in out;
    }
    forall p | p in ps ensures Neg(p) !in ps {
      var x :| 0 <= x < |ps| && ps[x] == p;
    }
  }

  lemma SameLits(ps: seq<Lit>, ps0: seq<Lit>, n: nat)
    requires multiset(ps) == multiset(ps0) && InRange(ps0, n)
    ensures InRange(ps, n) && forall p :: p in ps <==> p in ps0
  {
    forall p ensures p in ps <==> p in ps0 {
      assert p in ps <==> p in multiset(ps);
      assert p in ps0 <==> p in multiset(ps0);
    }
    forall i | 0 <= i < |ps| ensures ps[i].v < n {
      assert ps[i] in ps0;
    }
  }

  method SortLits(ps: seq<Lit>) returns (out: seq<Lit>)
    ensures Sort.Sorted(out, LitLess) && multiset(out) == multiset(ps)
  {
    var a := new Lit[|ps|](i requires 0 <= i < |ps| => ps[i]);
    assert a[..] == ps;
    Sort.Sort(a, 0, a.Length, LitLess);
    out := a[..];
    assert out == out[0..a.Length] && ps == ps[0..a.Length];
  }

  /** Is the clause satisfied at the root or a tautology? If not, out has its unassigned literals, each once. */
  method SimplifyClause(assigns: seq<LBool>, ps0: seq<Lit>) returns (trivial: bool, out: seq<Lit>)
    requires InRange(ps0, |assigns|)
    ensures trivial <==> TriviallyTrue(assigns, ps0)
    ensures !trivial ==> DistinctVars(out) && forall p :: p in out <==> p in ps0 && Value(assigns, p) == LUndef
  {
    var ps := SortLits(ps0);
    SameLits(ps, ps0, |assigns|);
    out := [];
    var i := 0;
    while i < |ps|
      invariant Scanned(assigns, ps, i, out)
    {
      assert ps[i] in ps;
      if Value(assigns, ps[i]) == LTrue {
        return true, out;
      }
      if |out| > 0 && ps[i] == Neg(out[|out| - 1]) {
        assert Neg(ps[i]) == out[|out| - 1] && out[|out| - 1] in out;
        return true, out;
      }
      if Value(assigns, ps[i]) != LFalse && (|out| > 0 ==> ps[i] != out[|out| - 1]) {
        ScanKeep(assigns, ps, i, out);
        out := out + [ps[i]];
      } else {
        ScanSkip(assigns, ps, i, out);
      }
      i := i + 1;
    }
    ScannedHasNoTautology(assigns, ps, out);
    trivial := false;
  }

  // ---------- what each case keeps ----------

  lemma MoreFormulaKeepsSound(f: set<seq<Lit>>, t: Trail, ca: seq<ClauseRec>, c: seq<Lit>)
    requires Sound(f, t, ca)
    ensures Sound(f + {c}, t, ca)
  {
    forall d | Implied(f, d) ensures Implied(f + {c}, d) {
      forall a | Models(a, f + {c}) ensures Satisfies(a, d) {
        assert Models(a, f);
      }
    }
  }

  lemma MoreFormulaKeepsUnsat(f: set<seq<Lit>>, c: seq<Lit>)
    requires !Satisfiable(f)
    ensures !Satisfiable(f + {c})
  {
    forall a ensures !Models(a, f + {c}) {
      if Models(a, f + {c}) { assert Models(a, f); }
    }
  }

  /** A true literal at the root, or complementary literals. */
  predicate TriviallyTrue(assigns: seq<LBool>, ps: seq<Lit>)
    requires InRange(ps, |assigns|)
  {
    exists p :: p in ps && (Value(assigns, p) == LTrue || Neg(p) in ps)
  }

  /** The literals of ps that have no value. */
  ghost function OpenLits(assigns: seq<LBool>, ps: seq<Lit>): set<Lit>
    requires InRange(ps, |assigns|)
  {
    set p | p in ps && Value(assigns, p) == LUndef
  }

  lemma OutIsOpen(assigns: seq<LBool>, ps: seq<Lit>, out: seq<Lit>)
    requires InRange(ps, |assigns|) && DistinctVars(out)
    requires forall p :: p in out <==> p in ps && Value(assigns, p) == LUndef
    ensures OpenLits(assigns, ps) == LitSet(out) && |LitSet(out)| == |out|
    ensures |out| == 1 ==> LitSet(out) == {out[0]}
  {
    LitSetSize(out);
    assert |out| == 1 ==> out == [out[0]];
  }

  lemma {:induction false} LitSetSize(c: seq<Lit>)
    requires DistinctVars(c)
    ensures |LitSet(c)| == |c|
  {
    if c != [] {
      var d, p := c[..|c| - 1], c[|c| - 1];
      LitSetSize(d);
      assert c == d + [p] && p !in d;
      assert LitSet(c) == LitSet(d) + {p};
    }
  }

  /** All literals of the given clause but those of out are false at the root. */
  ghost predicate Reduced(t: Trail, c: seq<Lit>, out: seq<Lit>) {
    forall p :: p in c ==> p in out || IsFalse(t, p)
  }

  lemma OutIsReduced(t: Trail, ps: seq<Lit>, out: seq<Lit>)
    requires InRange(ps, |t.assigns|) && forall p :: p in ps ==> Value(t.assigns, p) != LTrue
    requires forall p :: p in out <==> p in ps && Value(t.assigns, p) == LUndef
    ensures Reduced(t, ps, out) && InRange(out, |t.assigns|) && forall p :: p in out ==> p in ps
    ensures forall i :: 0 <= i < |out| ==> t.assigns[out[i].v] == LUndef
  {
    forall p | p in ps ensures p.v < |t.assigns| {
      var i :| 0 <= i < |ps| && ps[i] == p;
    }
    forall i | 0 <= i < |out| ensures out[i].v < |t.assigns| && t.assigns[out[i].v] == LUndef {
      assert out[i] in out;
    }
  }

  lemma ReducedIsImplied(f: set<seq<Lit>>, t: Trail, ca: seq<ClauseRec>, c: seq<Lit>, out: seq<Lit>)
    requires TrailOk(t) && |t.lim| == 0 && Sound(f, t, ca) && Reduced(t, c, out)
    ensures Implied(f + {c}, out)
  {
    forall a | Models(a, f + {c}) ensures Satisfies(a, out) {
      assert Models(a, f) && Satisfies(a, c);
      var p :| p in c && Holds(a, p);
      if p !in out {
        FalseLevelIsAtMostCurrent(t, p);
        RootFalseIsRefuted(f, t, p);
      }
    }
  }

  /** A true literal at the root, or a complementary pair: the clause says nothing new. */
  lemma SatisfiedAddsNothing(f: set<seq<Lit>>, t: Trail, ca: seq<ClauseRec>, clauses: seq<CRef>, c: seq<Lit>, p: Lit)
    requires TrailOk(t) && |t.lim| == 0 && Complete(f, t, ca, clauses)
    requires p in c && (IsTrue(t, p) || Neg(p) in c)
    ensures Complete(f + {c}, t, ca, clauses)
  {
    if IsTrue(t, p) {
      TrueIsOnStack(t, p);
      LevelIsAtMostCurrent(t, p);
      assert IsRoot(t, p);
    }
  }

  lemma UnitAdds(f: set<seq<Lit>>, t: Trail, ca: seq<ClauseRec>, clauses: seq<CRef>, c: seq<Lit>, p: Lit)
    requires TrailOk(t) && |t.lim| == 0 && Complete(f, t, ca, clauses)
    requires p in c && p.v < |t.assigns| && t.assigns[p.v] == LUndef
    ensures Complete(f + {c}, Enqueued(t, p, CREF_UNDEF), ca, clauses)
  {
    var t' := Enqueued(t, p, CREF_UNDEF);
    EnqueueKeepsTrail(t, p, CREF_UNDEF);
    MoreRootKeepsComplete(f, t, t', ca, clauses);
    SatisfiedAddsNothing(f, t', ca, clauses, c, p);
  }

  lemma ClauseAdds(f: set<seq<Lit>>, t: Trail, ca: seq<ClauseRec>, clauses: seq<CRef>, c: seq<Lit>, rec: ClauseRec)
    requires Complete(f, t, ca, clauses) && forall r :: r in clauses ==> 0 <= r < |ca|
    requires forall p :: p in rec.lits ==> p in c
    ensures Complete(f + {c}, t, ca + [rec], clauses + [|ca|])
  {
    var ca', clauses' := ca + [rec], clauses + [|ca|];
    assert ca'[|ca|] == rec && clauses'[|clauses|] == |ca|;
    forall r | r in clauses ensures StillSaid(t, ca, ca', clauses', r) {
      assert ca'[r] == ca[r] && r in clauses';
    }
    CompleteStays(f, t, t, ca, ca', clauses, clauses');
    assert |ca| in clauses' && Part(ca'[|ca|].lits, c);
  }

  // ---------- the whole database ----------

  lemma AddTrivial(f: set<seq<Lit>>, t: Trail, ca: seq<ClauseRec>, ws: Lists, dirty: set<Lit>, dirties: seq<Lit>,
                   q: nat, clauses: seq<CRef>, learnts: seq<CRef>, c: seq<Lit>)
    requires DatabaseOk(f, t, ca, ws, dirty, dirties, q, clauses, learnts) && |t.lim| == 0 && InRange(c, |t.assigns|)
    requires exists p :: p in c && (IsTrue(t, p) || Neg(p) in c)
    ensures DatabaseOk(f + {c}, t, ca, ws, dirty, dirties, q, clauses, learnts)
  {
    hide Idle, Sound, Complete;
    DatabaseIsIdle(f, t, ca, ws, dirty, dirties, q, clauses, learnts);
    var p :| p in c && (IsTrue(t, p) || Neg(p) in c);
    MoreFormulaKeepsSound(f, t, ca, c);
    SatisfiedAddsNothing(f, t, ca, clauses, c, p);
  }

  lemma AddEmpty(f: set<seq<Lit>>, t: Trail, ca: seq<ClauseRec>, ws: Lists, dirty: set<Lit>, dirties: seq<Lit>,
                 q: nat, clauses: seq<CRef>, learnts: seq<CRef>, c: seq<Lit>)
    requires DatabaseOk(f, t, ca, ws, dirty, dirties, q, clauses, learnts) && |t.lim| == 0 && Reduced(t, c, [])
    ensures !Satisfiable(f + {c})
  {
    ReducedIsImplied(f, t, ca, c, []);
    assert forall a :: Models(a, f + {c}) ==> Satisfies(a, []);
  }

  lemma AddUnit(f: set<seq<Lit>>, t: Trail, ca: seq<ClauseRec>, ws: Lists, dirty: set<Lit>, dirties: seq<Lit>,
                q: nat, clauses: seq<CRef>, learnts: seq<CRef>, c: seq<Lit>, p: Lit)
    requires DatabaseOk(f, t, ca, ws, dirty, dirties, q, clauses, learnts) && |t.lim| == 0 && Reduced(t, c, [p])
    requires p in c && p.v < |t.assigns| && t.assigns[p.v] == LUndef
    ensures DatabaseOk(f + {c}, Enqueued(t, p, CREF_UNDEF), ca, ws, dirty, dirties, q, clauses, learnts)
  {
    hide Idle, Sound, Complete;
    DatabaseIsIdle(f, t, ca, ws, dirty, dirties, q, clauses, learnts);
    ReducedIsImplied(f, t, ca, c, [p]);
    MoreFormulaKeepsSound(f, t, ca, c);
    UnitKeepsIdle(t, ca, ws, dirty, q, p);
    UnitIsSound(f + {c}, t, ca, p);
    UnitAdds(f, t, ca, clauses, c, p);
  }

  lemma UnitIsSound(f: set<seq<Lit>>, t: Trail, ca: seq<ClauseRec>, p: Lit)
    requires TrailOk(t) && Sound(f, t, ca) && Implied(f, [p]) && p.v < |t.assigns| && t.assigns[p.v] == LUndef
    ensures Sound(f, Enqueued(t, p, CREF_UNDEF), ca)
  {
    var t' := Enqueued(t, p, CREF_UNDEF);
    forall i | 0 <= i < |t'.lits| && Level(t', t'.lits[i]) == 0 ensures Implied(f, [t'.lits[i]]) {
      if i < |t.lits| { assert t'.lits[i] == t.lits[i] && t.lits[i].v != p.v; }
    }
  }

  lemma AddStored(f: set<seq<Lit>>, t: Trail, ca: seq<ClauseRec>, ws: Lists, dirty: set<Lit>, dirties: seq<Lit>,
                  q: nat, clauses: seq<CRef>, learnts: seq<CRef>, c: seq<Lit>, out: seq<Lit>)
    requires DatabaseOk(f, t, ca, ws, dirty, dirties, q, clauses, learnts) && |t.lim| == 0 && Reduced(t, c, out)
    requires |out| >= 2 && DistinctVars(out) && InRange(out, |t.assigns|) && forall p :: p in out ==> p in c
    requires forall i :: 0 <= i < |out| ==> t.assigns[out[i].v] == LUndef
    ensures Neg(out[0]) in ws && Neg(out[1]) in ws
    ensures DatabaseOk(f + {c}, t, ca + [ClauseRec(out, false, false)], Attached(ws, out, |ca|), dirty, dirties, q,
                       clauses + [|ca|], learnts)
  {
    var rec := ClauseRec(out, false, false);
    hide Idle, Complete, Listed, RootSound;
    DatabaseIsIdle(f, t, ca, ws, dirty, dirties, q, clauses, learnts);
    ReducedIsImplied(f, t, ca, c, out);
    MoreFormulaKeepsSound(f, t, ca, c);
    AttachKeepsIdle(t, ca, ws, dirty, q, rec);
    ListedInRange(ca, clauses, false);
    ClauseAdds(f, t, ca, clauses, c, rec);
    GrowKeepsListed(ca, clauses, false, rec);
    GrowKeepsListed(ca, learnts, true, rec);
    GrowIsSound(f + {c}, ca, rec);
  }

  lemma ListedInRange(ca: seq<ClauseRec>, s: seq<CRef>, learnt: bool)
    requires Listed(ca, s, learnt)
    ensures forall r :: r in s ==> 0 <= r < |ca|
  {
  }

  lemma GrowIsSound(f: set<seq<Lit>>, ca: seq<ClauseRec>, rec: ClauseRec)
    requires ClausesSound(f, ca) && Implied(f, rec.lits)
    ensures ClausesSound(f, ca + [rec])
  {
    forall r | 0 <= r < |ca + [rec]| && !(ca + [rec])[r].deleted ensures Implied(f, (ca + [rec])[r].lits) {
      if r < |ca| { assert (ca + [rec])[r] == ca[r]; }
    }
  }

  // ---------- learning ----------

  /** Going back to level l after a conflict. */
  lemma CancelStuck(f: set<seq<Lit>>, t: Trail, ca: seq<ClauseRec>, ws: Lists, clauses: seq<CRef>, learnts: seq<CRef>,
                    l: nat)
    requires StuckOk(f, t, ca, ws, clauses, learnts) && l < |t.lim|
    ensures DatabaseOk(f, Cancelled(t, l), ca, ws, {}, [], t.lim[l], clauses, learnts)
  {
    hide Sound, Complete, Listed, Halted, Idle;
    StuckShape(f, t, ca, ws, clauses, learnts);
    CancelRestoresIdle(t, ca, ws, l);
    CancelKeepsSound(f, t, ca, clauses, l);
  }

  lemma CancelDatabase(f: set<seq<Lit>>, t: Trail, ca: seq<ClauseRec>, ws: Lists, dirty: set<Lit>, dirties: seq<Lit>,
                       q: nat, clauses: seq<CRef>, learnts: seq<CRef>, l: nat)
    requires DatabaseOk(f, t, ca, ws, dirty, dirties, q, clauses, learnts) && l < |t.lim|
    ensures TrailOk(t) && |Cancelled(t, l).lits| == t.lim[l] && |Cancelled(t, l).lim| == l
    ensures DatabaseOk(f, Cancelled(t, l), ca, ws, dirty, dirties, t.lim[l], clauses, learnts)
  {
    hide Sound, Complete, Listed, Idle;
    DatabaseIsIdle(f, t, ca, ws, dirty, dirties, q, clauses, learnts);
    CancelKeepsIdle(t, ca, ws, dirty, l, q);
    CancelKeepsSound(f, t, ca, clauses, l);
  }

  lemma BacktrackBelow(t: Trail, c: seq<Lit>, bt: nat)
    requires Asserting(t, c, bt)
    ensures bt < |t.lim| && |c| >= 1 && DistinctVars(c)
  {
  }

  /** An asserting clause is unit after going back to its level. */
  lemma AssertingIsUnit(t: Trail, c: seq<Lit>, bt: nat)
    requires TrailOk(t) && Asserting(t, c, bt)
    ensures var t' := Cancelled(t, bt);
      && TrailOk(t') && |t'.lim| == bt && InRange(c, |t'.assigns|)
      && t'.assigns[c[0].v] == LUndef && (forall i :: 1 <= i < |c| ==> IsFalse(t', c[i]))
      && (|c| > 1 ==> Level(t', c[1]) == bt > 0) && (|c| == 1 ==> bt == 0)
      && bt < |t.lim| && |t'.lits| == t.lim[bt]
  {
    CancelKeepsTrail(t, bt);
    forall i | 0 <= i < |c| ensures IsFalse(Cancelled(t, bt), c[i]) <==> i > 0 {
      CancelKeepsLowLevels(t, bt, c[i]);
    }
    CancelKeepsLowLevels(t, bt, Neg(c[0]));
    if |c| > 1 { CancelKeepsLowLevels(t, bt, c[1]); }
  }

  lemma LearnUnit(f: set<seq<Lit>>, t: Trail, ca: seq<ClauseRec>, ws: Lists, clauses: seq<CRef>, learnts: seq<CRef>,
                  p: Lit)
    requires DatabaseOk(f, t, ca, ws, {}, [], |t.lits|, clauses, learnts) && |t.lim| == 0 && Implied(f, [p])
    requires p.v < |t.assigns| && t.assigns[p.v] == LUndef
    ensures DatabaseOk(f, Enqueued(t, p, CREF_UNDEF), ca, ws, {}, [], |t.lits|, clauses, learnts)
  {
    hide Sound, Complete, Listed, Idle;
    DatabaseIsIdle(f, t, ca, ws, {}, [], |t.lits|, clauses, learnts);
    UnitKeepsIdle(t, ca, ws, {}, |t.lits|, p);
    EnqueueKeepsSound(f, t, ca, clauses, p, CREF_UNDEF);
  }

  lemma LearnClause(f: set<seq<Lit>>, t: Trail, ca: seq<ClauseRec>, ws: Lists, clauses: seq<CRef>, learnts: seq<CRef>,
                    c: seq<Lit>)
    requires DatabaseOk(f, t, ca, ws, {}, [], |t.lits|, clauses, learnts) && Implied(f, c)
    requires |c| >= 2 && InRange(c, |t.assigns|) && DistinctVars(c)
    requires t.assigns[c[0].v] == LUndef && Level(t, c[1]) == |t.lim| > 0
    requires forall i :: 1 <= i < |c| ==> IsFalse(t, c[i])
    ensures Neg(c[0]) in ws && Neg(c[1]) in ws
    ensures DatabaseOk(f, Enqueued(t, c[0], |ca|), ca + [ClauseRec(c, true, false)], Attached(ws, c, |ca|), {}, [],
                       |t.lits|, clauses, learnts + [|ca|])
  {
    var rec := ClauseRec(c, true, false);
    hide Sound, Complete, Listed, Idle;
    DatabaseIsIdle(f, t, ca, ws, {}, [], |t.lits|, clauses, learnts);
    LearnKeepsIdle(t, ca, ws, {}, rec);
    ListedInRange(ca, clauses, false);
    GrowKeepsSound(f, t, ca, clauses, rec);
    EnqueueKeepsSound(f, t, ca + [rec], clauses, c[0], |ca|);
    GrowKeepsListed(ca, clauses, false, rec);
    GrowKeepsListed(ca, learnts, true, rec);
  }
}
