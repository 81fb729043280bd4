/** Watched-literal propagation computes exactly the closure under naive unit propagation. */
module UnitPropagation {
  import opened SolverTypes
  import opened Trails
  import opened Watches
  import opened Propagation
  import opened UnitClosure

  /** A false watch whose list was served comes with a true literal of the clause. */
  lemma FalseWatchIsServed(t: Trail, ca: seq<ClauseRec>, ws: Lists, dirty: set<Lit>, m: nat, r: CRef, k: nat)
    requires PropOk(t, ca, ws, dirty) && Served(t, ca, ws, m) && 0 <= r < |ca| && !ca[r].deleted && k < 2
    requires |ca[r].lits| >= 2 && IsFalse(t, ca[r].lits[k]) && Pos(t, ca[r].lits[k]) < m
    ensures exists x :: 0 <= x < |ca[r].lits| && IsTrue(t, ca[r].lits[x])
  {
    hide ReasonsOk, ClausesOk, LevelsOk, LimOk, DirtyOk;
    var c := ca[r].lits;
    var q := Neg(c[k]);
    FalseIsOnStack(t, c[k]);
    assert ClauseWatched(ws, c, r);
    var x :| 0 <= x < |ws[q]| && ws[q][x].cref == r;
    assert ListOk(ca, q, ws[q]) && EntryOk(ca, q, ws[q][x]);
    assert EntryServed(t, ca, t.lits[Pos(t, c[k])], ws[q][x]);
    if IsTrue(t, ws[q][x].blocker) {
      var y :| 0 <= y < |c| && c[y] == ws[q][x].blocker;
      assert IsTrue(t, c[y]);
    } else {
      assert IsTrue(t, c[0]) || IsTrue(t, c[1]);
    }
  }

  /** Propagation is complete: no live clause is left false, or unit with its literal unassigned. */
  lemma PropagationIsComplete(t: Trail, ca: seq<ClauseRec>, ws: Lists, dirty: set<Lit>)
    requires Idle(t, ca, ws, dirty, |t.lits|)
    ensures NoUnitOrFalse(t, ca)
  {
    forall r | 0 <= r < |ca| && !ca[r].deleted
      ensures (exists k :: 0 <= k < |ca[r].lits| && IsTrue(t, ca[r].lits[k]))
        || (exists k, l :: 0 <= k < l < |ca[r].lits| && !IsFalse(t, ca[r].lits[k]) && !IsFalse(t, ca[r].lits[l]))
    {
      var c := ca[r].lits;
      if IsFalse(t, c[0]) {
        FalseIsOnStack(t, c[0]);
        FalseWatchIsServed(t, ca, ws, dirty, |t.lits|, r, 0);
      } else if IsFalse(t, c[1]) {
        FalseIsOnStack(t, c[1]);
        FalseWatchIsServed(t, ca, ws, dirty, |t.lits|, r, 1);
      }
    }
  }

  /** A falsified clause has both its watches at the current level. */
  lemma ConflictIsCurrent(t: Trail, ca: seq<ClauseRec>, ws: Lists, r: CRef, k: nat)
    requires Halted(t, ca, ws) && 0 <= r < |ca| && !ca[r].deleted && k < 2 && |t.lim| > 0
    requires forall x :: 0 <= x < |ca[r].lits| ==> IsFalse(t, ca[r].lits[x])
    ensures |ca[r].lits| >= 2 && Level(t, ca[r].lits[k]) == |t.lim|
  {
    var p := ca[r].lits[k];
    FalseIsOnStack(t, p);
    assert LevelAt(t, Pos(t, p), Level(t, p));
    if Level(t, p) < |t.lim| {
      LevelFromPos(t, Pos(t, p), |t.lim| - 1);
      FalseWatchIsServed(t, ca, ws, {}, t.lim[|t.lim| - 1], r, k);
      assert false;
    }
  }

  /** Everything propagation puts on the stack belongs to every unit-closed set that contains the old stack. */
  lemma {:induction false} PropagatedIsDerivable(t0: Trail, t: Trail, ca: seq<ClauseRec>, s: set<Lit>, i: nat)
    requires TrailOk(t) && ReasonsOk(t, ca) && Propagated(t0, t) && UnitClosed(ca, s)
    requires forall p :: p in t0.lits ==> p in s
    requires i < |t.lits|
    ensures t.lits[i] in s
  {
    if i < |t0.lits| {
      assert t.lits[i] == t0.lits[i];
    } else {
      assert ReasonAt(t, ca, i);
      var r := Reason(t, t.lits[i]);
      var c := ca[r].lits;
      forall l | 1 <= l < |c| ensures Neg(c[l]) in s {
        FalseIsOnStack(t, c[l]);
        PropagatedIsDerivable(t0, t, ca, s, Pos(t, c[l]));
      }
      assert Refuted(c, 0, s);
    }
  }

  /** Without a conflict the stack is the unit closure of the old stack, and consistent. */
  lemma PropagationIsUnitClosure(t0: Trail, t: Trail, ca: seq<ClauseRec>, ws: Lists)
    requires Propagated(t0, t) && Idle(t, ca, ws, {}, |t.lits|)
    ensures IsClosure(ca, LitSet(t0.lits), LitSet(t.lits)) && !Conflicts(ca, LitSet(t0.lits))
  {
    StackIsClosed(t, ca, ws);
    forall s | UnitClosed(ca, s) && LitSet(t0.lits) <= s ensures LitSet(t.lits) <= s {
      forall p | p in t.lits ensures p in s {
        var i :| 0 <= i < |t.lits| && t.lits[i] == p;
        PropagatedIsDerivable(t0, t, ca, s, i);
      }
    }
    StackIsConsistent(t);
  }

  lemma StackIsClosed(t: Trail, ca: seq<ClauseRec>, ws: Lists)
    requires Idle(t, ca, ws, {}, |t.lits|)
    ensures UnitClosed(ca, LitSet(t.lits))
  {
    PropagationIsComplete(t, ca, ws, {});
    assert TrailOk(t);
    hide Idle;
    forall r, k | 0 <= r < |ca| && !ca[r].deleted && 0 <= k < |ca[r].lits| && Refuted(ca[r].lits, k, LitSet(t.lits))
      ensures ca[r].lits[k] in LitSet(t.lits)
    {
      ClauseIsClosed(t, ca, r, k);
    }
  }

  lemma ClauseIsClosed(t: Trail, ca: seq<ClauseRec>, r: CRef, k: nat)
    requires TrailOk(t) && NoUnitOrFalse(t, ca) && 0 <= r < |ca| && !ca[r].deleted && k < |ca[r].lits|
    requires Refuted(ca[r].lits, k, LitSet(t.lits))
    ensures ca[r].lits[k] in t.lits
  {
    var c := ca[r].lits;
    forall l | 0 <= l < |c| && l != k ensures IsFalse(t, c[l]) {
      assert Neg(c[l]) in t.lits;
    }
    hide TrailOk;
    assert IsTrue(t, c[k]);
    TrueIsOnStack(t, c[k]);
  }

  lemma StackIsConsistent(t: Trail)
    requires TrailOk(t)
    ensures Consistent(LitSet(t.lits))
  {
    forall p | p in t.lits ensures Neg(p) !in t.lits {
      assert IsTrue(t, p);
    }
  }

  /** A conflict clause is found only if propagation from the old stack conflicts. */
  lemma ConflictIsUnitConflict(t0: Trail, t: Trail, ca: seq<ClauseRec>, ws: Lists, r: CRef)
    requires Propagated(t0, t) && Halted(t, ca, ws) && 0 <= r < |ca| && !ca[r].deleted
    requires forall x :: 0 <= x < |ca[r].lits| ==> IsFalse(t, ca[r].lits[x])
    ensures Conflicts(ca, LitSet(t0.lits))
  {
    var c := ca[r].lits;
    forall s | UnitClosed(ca, s) && LitSet(t0.lits) <= s ensures !Consistent(s) {
      forall l | 0 <= l < |c| ensures Neg(c[l]) in s {
        FalseIsOnStack(t, c[l]);
        PropagatedIsDerivable(t0, t, ca, s, Pos(t, c[l]));
      }
      FalseClauseConflicts(ca, r, s);
    }
  }
}
