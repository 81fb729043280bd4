/** The assignment stack: what is assigned, in which order, at which level, and why. */
module Trails {
  import opened SolverTypes

  /** A clause reference is an index into the clause region; CREF_UNDEF is the source's sentinel. */
  type CRef = int
  const CREF_UNDEF: CRef := -1

  datatype ClauseRec = ClauseRec(lits: seq<Lit>, learnt: bool, deleted: bool)

  datatype VarData = VarData(reason: CRef, level: nat)

  /** The five vectors that record the assignment. pos[v] is the index of v on the stack, kept for the proofs only. */
  datatype Trail = Trail(assigns: seq<LBool>, vardata: seq<VarData>, lits: seq<Lit>, lim: seq<nat>, pos: seq<nat>)

  function Value(assigns: seq<LBool>, p: Lit): LBool
    requires p.v < |assigns|
  {
    LXor(assigns[p.v], p.sign)
  }

  ghost predicate IsTrue(t: Trail, p: Lit) { p.v < |t.assigns| && Value(t.assigns, p) == LTrue }

  ghost predicate IsFalse(t: Trail, p: Lit) { p.v < |t.assigns| && Value(t.assigns, p) == LFalse }

  ghost function Level(t: Trail, p: Lit): nat { if p.v < |t.vardata| then t.vardata[p.v].level else 0 }

  ghost function Reason(t: Trail, p: Lit): CRef { if p.v < |t.vardata| then t.vardata[p.v].reason else CREF_UNDEF }

  ghost function Pos(t: Trail, p: Lit): nat { if p.v < |t.pos| then t.pos[p.v] else 0 }

  /** One past the last stack index of level l. */
  ghost function LevelEnd(t: Trail, l: nat): nat { if l < |t.lim| then t.lim[l] else |t.lits| }

  ghost predicate LimOk(t: Trail) {
    && (forall i, j :: 0 <= i <= j < |t.lim| ==> t.lim[i] <= t.lim[j])
    && (forall i :: 0 <= i < |t.lim| ==> t.lim[i] <= |t.lits|)
  }

  ghost predicate StackOk(t: Trail) {
    && |t.vardata| == |t.assigns| && |t.pos| == |t.assigns|
    && (forall i :: 0 <= i < |t.lits| ==>
          && t.lits[i].v < |t.assigns|
          && t.assigns[t.lits[i].v] == Polarity(t.lits[i])
          && t.pos[t.lits[i].v] == i)
    && (forall v :: 0 <= v < |t.assigns| && t.assigns[v] != LUndef ==> t.pos[v] < |t.lits| && t.lits[t.pos[v]].v == v)
  }

  ghost predicate LevelsOk(t: Trail) {
    forall i :: 0 <= i < |t.lits| ==> LevelAt(t, i, Level(t, t.lits[i]))
  }

  /** Stack index i lies in the segment of level l. */
  ghost predicate LevelAt(t: Trail, i: nat, l: nat) {
    l <= |t.lim| && (l > 0 ==> t.lim[l - 1] <= i) && i < LevelEnd(t, l)
  }

  ghost predicate TrailOk(t: Trail) { LimOk(t) && StackOk(t) && LevelsOk(t) }

  /** Clause c forces its literal c[0], which sits at stack index i: the others were falsified before. */
  ghost predicate Forces(t: Trail, c: seq<Lit>, i: nat) {
    && |c| > 0 && i < |t.lits| && c[0] == t.lits[i]
    && (forall k :: 1 <= k < |c| ==> IsFalse(t, c[k]) && Pos(t, c[k]) < i)
  }

  ghost predicate ReasonAt(t: Trail, ca: seq<ClauseRec>, i: nat)
    requires i < |t.lits|
  {
    var r := Reason(t, t.lits[i]);
    if r == CREF_UNDEF then
      var l := Level(t, t.lits[i]); l == 0 || (l <= |t.lim| && t.lim[l - 1] == i)
    else
      0 <= r < |ca| && !ca[r].deleted && Forces(t, ca[r].lits, i)
  }

  ghost predicate ReasonsOk(t: Trail, ca: seq<ClauseRec>) {
    forall i :: 0 <= i < |t.lits| ==> ReasonAt(t, ca, i)
  }

  lemma TrailShape(t: Trail)
    requires TrailOk(t)
    ensures |t.vardata| == |t.assigns| == |t.pos|
  {
  }

  lemma LevelIsMonotone(t: Trail, i: nat, j: nat)
    requires TrailOk(t) && i <= j < |t.lits|
    ensures Level(t, t.lits[i]) <= Level(t, t.lits[j])
  {
    var l, m := Level(t, t.lits[i]), Level(t, t.lits[j]);
    assert LevelAt(t, i, l) && LevelAt(t, j, m);
  }

  lemma LevelFromPos(t: Trail, i: nat, l: nat)
    requires TrailOk(t) && i < |t.lits| && l <= |t.lim|
    ensures i < LevelEnd(t, l) <==> Level(t, t.lits[i]) <= l
  {
    var m := Level(t, t.lits[i]);
    assert LevelAt(t, i, m);
    if m <= l {
      if m < l < |t.lim| { assert t.lim[m] <= t.lim[l]; }
    } else {
      assert t.lim[l] <= t.lim[m - 1];
    }
  }

  /** A false literal's complement is on the stack. */
  lemma FalseIsOnStack(t: Trail, p: Lit)
    requires TrailOk(t) && IsFalse(t, p)
    ensures Pos(t, p) < |t.lits| && t.lits[Pos(t, p)] == Neg(p)
  {
  }

  lemma TrueIsOnStack(t: Trail, p: Lit)
    requires TrailOk(t) && IsTrue(t, p)
    ensures Pos(t, p) < |t.lits| && t.lits[Pos(t, p)] == p
  {
  }

  /** uncheckedEnqueue. */
  ghost function Enqueued(t: Trail, p: Lit, from: CRef): Trail
    requires p.v < |t.assigns| && |t.vardata| == |t.assigns| && |t.pos| == |t.assigns|
  {
    Trail(t.assigns[p.v := Polarity(p)], t.vardata[p.v := VarData(from, |t.lim|)],
          t.lits + [p], t.lim, t.pos[p.v := |t.lits|])
  }

  /** t' extends t by further assignments at the current level. */
  ghost predicate Extends(t: Trail, t': Trail) {
    && |t.assigns| == |t'.assigns| && t.lim == t'.lim
    && t.lits <= t'.lits
    && |t.vardata| == |t'.vardata| && |t.pos| == |t'.pos|
    && (forall v :: 0 <= v < |t.assigns| && t.assigns[v] != LUndef && v < |t.vardata| && v < |t.pos| ==>
          t'.assigns[v] == t.assigns[v] && t'.vardata[v] == t.vardata[v] && t'.pos[v] == t.pos[v])
  }

  lemma EnqueueKeepsTrail(t: Trail, p: Lit, from: CRef)
    requires TrailOk(t) && p.v < |t.assigns| && t.assigns[p.v] == LUndef
    ensures var t' := Enqueued(t, p, from);
      TrailOk(t') && Extends(t, t') && IsTrue(t', p) && Level(t', p) == |t.lim|
  {
    var t' := Enqueued(t, p, from);
    forall i | 0 <= i < |t'.lits| ensures LevelAt(t', i, Level(t', t'.lits[i])) {
      if i < |t.lits| {
        assert LevelAt(t, i, Level(t, t.lits[i]));
      }
    }
  }

  lemma EnqueueKeepsReasons(t: Trail, ca: seq<ClauseRec>, p: Lit, from: CRef)
    requires TrailOk(t) && ReasonsOk(t, ca) && p.v < |t.assigns| && t.assigns[p.v] == LUndef
    requires from == CREF_UNDEF ==> |t.lim| == 0 || t.lim[|t.lim| - 1] == |t.lits|
    requires from != CREF_UNDEF ==>
      && 0 <= from < |ca| && !ca[from].deleted && |ca[from].lits| > 0 && ca[from].lits[0] == p
      && forall k :: 1 <= k < |ca[from].lits| ==> IsFalse(t, ca[from].lits[k])
    ensures ReasonsOk(Enqueued(t, p, from), ca)
  {
    var t' := Enqueued(t, p, from);
    forall i | 0 <= i < |t'.lits| ensures ReasonAt(t', ca, i) {
      if i < |t.lits| {
        assert ReasonAt(t, ca, i);
      } else if from != CREF_UNDEF {
        var c := ca[from].lits;
        forall k | 1 <= k < |c| ensures IsFalse(t', c[k]) && Pos(t', c[k]) < i {
          FalseIsOnStack(t, c[k]);
        }
      }
    }
  }

  lemma {:induction false} RangeSize(s: set<nat>, n: nat)
    requires forall x :: x in s ==> x < n
    ensures |s| <= n
  {
    if n > 0 {
      RangeSize(s - {n - 1}, n - 1);
    } else {
      assert s == {};
    }
  }

  lemma {:induction false} StackVarsSize(t: Trail, k: nat)
    requires StackOk(t) && k <= |t.lits|
    ensures |set i: nat | i < k && i < |t.lits| :: t.lits[i].v| == k
  {
    var s := set i: nat | i < k && i < |t.lits| :: t.lits[i].v;
    if k == 0 {
      assert s == {};
    } else {
      var s' := set i: nat | i < k - 1 && i < |t.lits| :: t.lits[i].v;
      StackVarsSize(t, k - 1);
      assert s == s' + {t.lits[k - 1].v};
      assert forall i: nat :: i < k - 1 ==> t.pos[t.lits[i].v] == i;
    }
  }

  /** No variable is on the stack twice, so the stack has room for all of them. */
  lemma StackFits(t: Trail)
    requires StackOk(t)
    ensures |t.lits| <= |t.assigns|
    ensures forall v :: 0 <= v < |t.assigns| && t.assigns[v] == LUndef ==> |t.lits| < |t.assigns|
  {
    var s := set i: nat | i < |t.lits| && i < |t.lits| :: t.lits[i].v;
    StackVarsSize(t, |t.lits|);
    RangeSize(s, |t.assigns|);
    forall v | 0 <= v < |t.assigns| && t.assigns[v] == LUndef ensures |t.lits| < |t.assigns| {
      assert v !in s;
      RangeSize(s + {v}, |t.assigns|);
    }
  }

  /** The region with some clauses' literals permuted, nothing else changed. */
  ghost predicate Reordered(ca: seq<ClauseRec>, ca': seq<ClauseRec>) {
    && |ca| == |ca'|
    && forall r :: 0 <= r < |ca| ==>
         multiset(ca'[r].lits) == multiset(ca[r].lits) && ca'[r].learnt == ca[r].learnt &&
         ca'[r].deleted == ca[r].deleted
  }

  /** The region with clause r marked as deleted. */
  function Removed(ca: seq<ClauseRec>, r: CRef): seq<ClauseRec>
    requires 0 <= r < |ca|
  {
    ca[r := ca[r].(deleted := true)]
  }

  predicate NoRepeats(s: seq<CRef>) { forall i, j :: 0 <= i < j < |s| ==> s[i] != s[j] }

  /** Every clause names existing variables, each at most once. */
  ghost predicate ClausesOk(ca: seq<ClauseRec>, n: nat) {
    forall r :: 0 <= r < |ca| ==> |ca[r].lits| >= 2 && InRange(ca[r].lits, n) && DistinctVars(ca[r].lits)
  }
}
