/** What the search keeps about assumptions and decision levels, on values. */
module Assuming {
  import opened SolverTypes
  import opened Trails
  import opened Watches
  import opened Propagation
  import opened Backtracking
  import opened ConflictAnalysis
  import opened Database
  import opened Soundness
  import opened SearchProgress

  /** The assumption of each open level holds, at that level or below. */
  ghost predicate AssumptionsHold(t: Trail, assumptions: seq<Lit>) {
    forall l :: 0 <= l < |t.lim| && l < |assumptions| ==> IsTrue(t, assumptions[l]) && Level(t, assumptions[l]) <= l + 1
  }

  ghost predicate AssumedOk(t: Trail, assumptions: seq<Lit>) {
    && DecisionsAssumed(t, assumptions) && AssumptionsHold(t, assumptions) && DecisionLevelsFilled(t, |assumptions|)
  }

  lemma RootAssumedOk(t: Trail, assumptions: seq<Lit>)
    requires TrailOk(t) && |t.lim| == 0
    ensures AssumedOk(t, assumptions)
  {
    forall i | 0 <= i < |t.lits| ensures Level(t, t.lits[i]) == 0 {
      assert LevelAt(t, i, Level(t, t.lits[i]));
    }
  }

  lemma PropagateKeepsAssumed(t: Trail, t': Trail, assumptions: seq<Lit>)
    requires TrailOk(t) && TrailOk(t') && Propagated(t, t') && AssumedOk(t, assumptions)
    ensures AssumedOk(t', assumptions)
  {
    forall i | 0 <= i < |t'.lits| && Reason(t', t'.lits[i]) == CREF_UNDEF &&
                 0 < Level(t', t'.lits[i]) <= |assumptions|
      ensures t'.lits[i] == assumptions[Level(t', t'.lits[i]) - 1]
    {
      assert t'.lits[i] == t.lits[i];
      assert t'.vardata[t.lits[i].v] == t.vardata[t.lits[i].v];
    }
    forall l | 0 <= l < |t'.lim| && l < |assumptions|
      ensures IsTrue(t', assumptions[l]) && Level(t', assumptions[l]) <= l + 1
    {
      assert IsTrue(t, assumptions[l]);
    }
    forall i | |assumptions| <= i < |t'.lim| ensures t'.lim[i] < LevelEnd(t', i + 1) {
      assert t.lim[i] < LevelEnd(t, i + 1);
    }
  }

  lemma CancelKeepsAssumed(t: Trail, assumptions: seq<Lit>, l: nat)
    requires TrailOk(t) && AssumedOk(t, assumptions)
    ensures AssumedOk(Cancelled(t, l), assumptions)
  {
    var t' := Cancelled(t, l);
    if l < |t.lim| {
      forall i | 0 <= i < |t'.lits| && Reason(t', t'.lits[i]) == CREF_UNDEF &&
                 0 < Level(t', t'.lits[i]) <= |assumptions|
        ensures t'.lits[i] == assumptions[Level(t', t'.lits[i]) - 1]
      {
        assert t'.lits[i] == t.lits[i];
      }
      forall k | 0 <= k < |t'.lim| && k < |assumptions|
        ensures IsTrue(t', assumptions[k]) && Level(t', assumptions[k]) <= k + 1
      {
        assert IsTrue(t, assumptions[k]);
        CancelKeepsLowLevels(t, l, assumptions[k]);
      }
      forall i | |assumptions| <= i < |t'.lim| ensures t'.lim[i] < LevelEnd(t', i + 1) {
        assert t.lim[i] < LevelEnd(t, i + 1);
      }
    }
  }

  /** Enqueueing a learnt literal: it has a reason, or is of level 0. */
  lemma EnqueueKeepsAssumed(t: Trail, assumptions: seq<Lit>, p: Lit, from: CRef)
    requires TrailOk(t) && AssumedOk(t, assumptions) && p.v < |t.assigns| && t.assigns[p.v] == LUndef
    requires from != CREF_UNDEF || |t.lim| == 0
    ensures AssumedOk(Enqueued(t, p, from), assumptions)
  {
    var t' := Enqueued(t, p, from);
    EnqueueKeepsTrail(t, p, from);
    forall i | 0 <= i < |t'.lits| && Reason(t', t'.lits[i]) == CREF_UNDEF &&
                 0 < Level(t', t'.lits[i]) <= |assumptions|
      ensures t'.lits[i] == assumptions[Level(t', t'.lits[i]) - 1]
    {
      assert t'.lits[i] == t.lits[i];
    }
    forall l | 0 <= l < |t'.lim| && l < |assumptions|
      ensures IsTrue(t', assumptions[l]) && Level(t', assumptions[l]) <= l + 1
    {
      assert IsTrue(t, assumptions[l]);
    }
    forall i | |assumptions| <= i < |t'.lim| ensures t'.lim[i] < LevelEnd(t', i + 1) {
      assert t.lim[i] < LevelEnd(t, i + 1);
    }
  }

  ghost function NewLevel(t: Trail): Trail { t.(lim := t.lim + [|t.lits|]) }

  lemma NewLevelKeepsTrail(t: Trail)
    requires TrailOk(t)
    ensures TrailOk(NewLevel(t))
  {
    var t' := NewLevel(t);
    forall i | 0 <= i < |t'.lits| ensures LevelAt(t', i, Level(t', t'.lits[i])) {
      assert LevelAt(t, i, Level(t, t.lits[i]));
    }
  }

  lemma NewLevelKeepsReasons(t: Trail, ca: seq<ClauseRec>)
    requires TrailOk(t) && ReasonsOk(t, ca)
    ensures ReasonsOk(NewLevel(t), ca)
  {
    forall i | 0 <= i < |t.lits| ensures ReasonAt(NewLevel(t), ca, i) {
      assert ReasonAt(t, ca, i);
    }
  }

  lemma NewLevelKeepsServed(t: Trail, ca: seq<ClauseRec>, ws: Lists, m: nat)
    requires Served(t, ca, ws, m)
    ensures Served(NewLevel(t), ca, ws, m)
  {
    var t' := NewLevel(t);
    forall i, j | 0 <= i < m && i < |t'.lits| && t'.lits[i] in ws && 0 <= j < |ws[t'.lits[i]]|
      ensures EntryServed(t', ca, t'.lits[i], ws[t'.lits[i]][j])
    {
      assert EntryServed(t, ca, t.lits[i], ws[t.lits[i]][j]);
    }
  }

  lemma NewLevelKeepsSound(f: set<seq<Lit>>, t: Trail, ca: seq<ClauseRec>, clauses: seq<CRef>)
    requires Sound(f, t, ca) && Complete(f, t, ca, clauses)
    ensures Sound(f, NewLevel(t), ca) && Complete(f, NewLevel(t), ca, clauses)
  {
    var t' := NewLevel(t);
    forall i | 0 <= i < |t'.lits| && Level(t', t'.lits[i]) == 0 ensures Implied(f, [t'.lits[i]]) {
      assert Level(t, t.lits[i]) == 0;
    }
    forall p | IsRoot(t, p) ensures IsRoot(t', p) {
    }
    CompleteStays(f, t, t', ca, ca, clauses, clauses);
  }

  lemma NewLevelKeepsDatabase(f: set<seq<Lit>>, t: Trail, ca: seq<ClauseRec>, ws: Lists, dirty: set<Lit>,
                              dirties: seq<Lit>, clauses: seq<CRef>, learnts: seq<CRef>)
    requires DatabaseOk(f, t, ca, ws, dirty, dirties, |t.lits|, clauses, learnts)
    ensures DatabaseOk(f, NewLevel(t), ca, ws, dirty, dirties, |t.lits|, clauses, learnts)
  {
    hide Served, Sound, Complete, Listed, ListsOk, ReasonsOk, ClausesOk, LevelsOk, StackOk, LimOk;
    NewLevelKeepsTrail(t);
    NewLevelKeepsReasons(t, ca);
    NewLevelKeepsServed(t, ca, ws, |t.lits|);
    NewLevelKeepsSound(f, t, ca, clauses);
  }

  /** A dummy level for an assumption that holds already. */
  lemma DummyKeepsAssumed(t: Trail, assumptions: seq<Lit>)
    requires TrailOk(t) && AssumedOk(t, assumptions) && |t.lim| < |assumptions| && IsTrue(t, assumptions[|t.lim|])
    ensures AssumedOk(NewLevel(t), assumptions)
  {
    var t' := NewLevel(t);
    LevelIsAtMostCurrent(t, assumptions[|t.lim|]);
    forall l | 0 <= l < |t'.lim| && l < |assumptions|
      ensures IsTrue(t', assumptions[l]) && Level(t', assumptions[l]) <= l + 1
    {
      if l < |t.lim| { assert IsTrue(t, assumptions[l]); }
    }
    forall i | 0 <= i < |t'.lits| && Reason(t', t'.lits[i]) == CREF_UNDEF &&
                 0 < Level(t', t'.lits[i]) <= |assumptions|
      ensures t'.lits[i] == assumptions[Level(t', t'.lits[i]) - 1]
    {
      assert t'.lits[i] == t.lits[i];
    }
  }

  lemma DummyKeepsProgress(t: Trail, m: nat)
    requires TrailOk(t) && TrailOk(NewLevel(t))
    ensures Remaining(NewLevel(t), m) <= Remaining(t, m)
  {
    forall x | 0 <= x < m ensures LevelEnd(t, x) <= LevelEnd(NewLevel(t), x) {
      if x < |t.lim| { assert NewLevel(t).lim[x] == t.lim[x]; }
    }
    WeightIsMonotone(t, NewLevel(t), 0, m, |t.assigns| + 1);
  }

  /** A decision: the next assumption, or anything once all assumptions have a level. */
  lemma DecideKeepsDecisionsAssumed(t: Trail, assumptions: seq<Lit>, p: Lit)
    requires TrailOk(t) && DecisionsAssumed(t, assumptions) && p.v < |t.assigns| && t.assigns[p.v] == LUndef
    requires |t.lim| < |assumptions| ==> p == assumptions[|t.lim|]
    ensures DecisionsAssumed(Enqueued(NewLevel(t), p, CREF_UNDEF), assumptions)
  {
    var t' := Enqueued(NewLevel(t), p, CREF_UNDEF);
    forall i | 0 <= i < |t'.lits| && Reason(t', t'.lits[i]) == CREF_UNDEF &&
                 0 < Level(t', t'.lits[i]) <= |assumptions|
      ensures t'.lits[i] == assumptions[Level(t', t'.lits[i]) - 1]
    {
      if i < |t.lits| { assert t'.lits[i] == t.lits[i] && t.lits[i].v != p.v; }
    }
  }

  lemma DecideKeepsAssumed(t: Trail, assumptions: seq<Lit>, p: Lit)
    requires TrailOk(t) && AssumedOk(t, assumptions) && p.v < |t.assigns| && t.assigns[p.v] == LUndef
    requires |t.lim| < |assumptions| ==> p == assumptions[|t.lim|]
    ensures AssumedOk(Enqueued(NewLevel(t), p, CREF_UNDEF), assumptions)
  {
    DecideKeepsDecisionsAssumed(t, assumptions, p);
    hide DecisionsAssumed, LevelsOk;
    var t' := Enqueued(NewLevel(t), p, CREF_UNDEF);
    forall l | 0 <= l < |t'.lim| && l < |assumptions|
      ensures IsTrue(t', assumptions[l]) && Level(t', assumptions[l]) <= l + 1
    {
      if l < |t.lim| { assert IsTrue(t, assumptions[l]); }
    }
    forall i | |assumptions| <= i < |t'.lim| ensures t'.lim[i] < LevelEnd(t', i + 1) {
      if i < |t.lim| {
        assert t.lim[i] < LevelEnd(t, i + 1);
      }
    }
  }

  lemma DecideKeepsDatabase(f: set<seq<Lit>>, t: Trail, ca: seq<ClauseRec>, ws: Lists, dirty: set<Lit>,
                            dirties: seq<Lit>, clauses: seq<CRef>, learnts: seq<CRef>, p: Lit)
    requires DatabaseOk(f, t, ca, ws, dirty, dirties, |t.lits|, clauses, learnts)
    requires p.v < |t.assigns| && t.assigns[p.v] == LUndef
    ensures |t.vardata| == |t.assigns| == |t.pos|
    ensures DatabaseOk(f, Enqueued(NewLevel(t), p, CREF_UNDEF), ca, ws, dirty, dirties, |t.lits|, clauses, learnts)
  {
    hide Idle, Sound, Complete, Listed;
    NewLevelKeepsDatabase(f, t, ca, ws, dirty, dirties, clauses, learnts);
    DatabaseIsIdle(f, NewLevel(t), ca, ws, dirty, dirties, |t.lits|, clauses, learnts);
    UnitKeepsIdle(NewLevel(t), ca, ws, dirty, |t.lits|, p);
    EnqueueKeepsSound(f, NewLevel(t), ca, clauses, p, CREF_UNDEF);
  }

  /** What the analysis of a failed assumption needs. */
  lemma FinalSetting(f: set<seq<Lit>>, t: Trail, ca: seq<ClauseRec>, ws: Lists, dirty: set<Lit>, dirties: seq<Lit>,
                     q: nat, clauses: seq<CRef>, learnts: seq<CRef>, assumptions: seq<Lit>, p: Lit)
    requires DatabaseOk(f, t, ca, ws, dirty, dirties, q, clauses, learnts) && AssumedOk(t, assumptions)
    requires |t.lim| < |assumptions| && p == assumptions[|t.lim|] && IsFalse(t, p)
    ensures TrailOk(t) && ReasonsOk(t, ca) && ClausesOk(ca, |t.assigns|) && ClausesSound(f, ca) && RootSound(f, t)
    ensures DecisionsAssumed(t, assumptions) && IsTrue(t, Neg(p)) && Neg(Neg(p)) in assumptions
  {
    assert Neg(Neg(p)) == p;
  }

  lemma MoreHeap(assigns: seq<LBool>, decision: seq<bool>, heap: set<Var>, p: Lit)
    requires HeapOk(assigns, decision, heap) && p.v < |assigns|
    ensures HeapOk(assigns, decision, heap + {p.v})
  {
  }

  lemma LevelBound(t: Trail, assumptions: seq<Lit>, l: nat)
    requires TrailOk(t) && AssumedOk(t, assumptions) && l < |t.lim|
    ensures l < |assumptions| + |t.assigns| + 2
  {
    LevelsFit(t, |assumptions|);
  }

  /** There is room for one more level. */
  lemma RoomForDecision(t: Trail, assumptions: seq<Lit>, p: Lit)
    requires TrailOk(t) && AssumedOk(t, assumptions) && p.v < |t.assigns| && t.assigns[p.v] == LUndef
    ensures |t.lim| + 1 < |assumptions| + |t.assigns| + 2
  {
    LevelsFit(t, |assumptions|);
    StackFits(t);
  }
}
