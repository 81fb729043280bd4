/**
 * Why search ends, although learnt clauses are thrown away: the vector that gives, for each level, the number of
 * literals up to that level grows lexicographically with every decision and every backjump.
 */
module SearchProgress {
  import opened SolverTypes
  import opened Trails
  import opened Watches
  import opened Backtracking

  function Pow(b: nat, e: nat): (p: nat)
    ensures b > 0 ==> p > 0
  {
    if e == 0 then 1 else b * Pow(b, e - 1)
  }

  /** Levels i to m - 1 of the vector, read as digits to base b. */
  ghost function Weight(t: Trail, i: nat, m: nat, b: nat): nat
    requires i <= m
    decreases m - i
  {
    if i == m then 0 else LevelEnd(t, i) * Pow(b, m - 1 - i) + Weight(t, i + 1, m, b)
  }

  lemma LevelEndFits(t: Trail, i: nat)
    requires TrailOk(t)
    ensures LevelEnd(t, i) <= |t.lits| <= |t.assigns|
  {
    StackFits(t);
  }

  lemma {:induction false} MulMono(x: nat, y: nat, p: nat)
    requires x <= y
    ensures x * p <= y * p && (x < y ==> x * p + p <= y * p)
  {
    if x < y {
      MulMono(x, y - 1, p);
      assert y * p == (y - 1) * p + p;
    }
  }

  lemma {:induction false} WeightIsBounded(t: Trail, i: nat, m: nat, b: nat)
    requires TrailOk(t) && i <= m && |t.assigns| < b
    ensures Weight(t, i, m, b) < Pow(b, m - i)
    decreases m - i
  {
    if i < m {
      WeightIsBounded(t, i + 1, m, b);
      LevelEndFits(t, i);
      MulMono(LevelEnd(t, i), b - 1, Pow(b, m - 1 - i));
      assert Pow(b, m - i) == (b - 1) * Pow(b, m - 1 - i) + Pow(b, m - 1 - i);
    }
  }

  /** Levels below k are unchanged and level k has grown: the vector has grown. */
  lemma {:induction false} WeightGrows(t: Trail, t': Trail, i: nat, k: nat, m: nat, b: nat)
    requires TrailOk(t) && i <= k < m && |t.assigns| < b
    requires forall x :: i <= x < k ==> LevelEnd(t, x) == LevelEnd(t', x)
    requires LevelEnd(t, k) < LevelEnd(t', k)
    ensures Weight(t, i, m, b) < Weight(t', i, m, b)
    decreases k - i
  {
    if i == k {
      WeightIsBounded(t, i + 1, m, b);
      MulMono(LevelEnd(t, i), LevelEnd(t', i), Pow(b, m - 1 - i));
    } else {
      WeightGrows(t, t', i + 1, k, m, b);
    }
  }

  lemma {:induction false} WeightIsMonotone(t: Trail, t': Trail, i: nat, m: nat, b: nat)
    requires i <= m && forall x :: i <= x < m ==> LevelEnd(t, x) <= LevelEnd(t', x)
    ensures Weight(t, i, m, b) <= Weight(t', i, m, b)
    decreases m - i
  {
    if i < m {
      WeightIsMonotone(t, t', i + 1, m, b);
      MulMono(LevelEnd(t, i), LevelEnd(t', i), Pow(b, m - 1 - i));
    }
  }

  /** How far search is from having exhausted all vectors of m levels. */
  ghost function Remaining(t: Trail, m: nat): nat
    requires TrailOk(t)
  {
    WeightIsBounded(t, 0, m, |t.assigns| + 1);
    Pow(|t.assigns| + 1, m) - Weight(t, 0, m, |t.assigns| + 1)
  }

  lemma RemainingIsBounded(t: Trail, m: nat)
    requires TrailOk(t)
    ensures Remaining(t, m) <= Pow(|t.assigns| + 1, m)
  {
  }

  /** Propagation, and whatever leaves the levels alone, does not go back. */
  lemma PropagationKeepsProgress(t: Trail, t': Trail, m: nat)
    requires TrailOk(t) && TrailOk(t') && |t.assigns| == |t'.assigns| && t.lim == t'.lim && |t.lits| <= |t'.lits|
    ensures Remaining(t', m) <= Remaining(t, m)
  {
    WeightIsMonotone(t, t', 0, m, |t.assigns| + 1);
  }

  /** A decision makes progress. */
  lemma DecisionMakesProgress(t: Trail, p: Lit, m: nat)
    requires TrailOk(t) && p.v < |t.assigns| && t.assigns[p.v] == LUndef && |t.lim| + 1 < m
    requires TrailOk(Enqueued(t.(lim := t.lim + [|t.lits|]), p, CREF_UNDEF))
    ensures Remaining(Enqueued(t.(lim := t.lim + [|t.lits|]), p, CREF_UNDEF), m) < Remaining(t, m)
  {
    var t' := Enqueued(t.(lim := t.lim + [|t.lits|]), p, CREF_UNDEF);
    forall x | 0 <= x < |t.lim| + 1 ensures LevelEnd(t, x) == LevelEnd(t', x) {
      if x < |t.lim| { assert t'.lim[x] == t.lim[x]; }
    }
    WeightGrows(t, t', 0, |t.lim| + 1, m, |t.assigns| + 1);
  }

  /** So does a backjump with an asserting literal: its level is below the current one, and gains a literal. */
  lemma BackjumpMakesProgress(t: Trail, l: nat, p: Lit, from: CRef, m: nat)
    requires TrailOk(t) && l < |t.lim| && l < m && p.v < |t.assigns|
    requires TrailOk(Cancelled(t, l)) && TrailOk(Enqueued(Cancelled(t, l), p, from))
    ensures Remaining(Enqueued(Cancelled(t, l), p, from), m) < Remaining(t, m)
  {
    var t' := Enqueued(Cancelled(t, l), p, from);
    forall x | 0 <= x < l ensures LevelEnd(t, x) == LevelEnd(t', x) {
      assert t'.lim[x] == t.lim[x];
    }
    WeightGrows(t, t', 0, l, m, |t.assigns| + 1);
  }

  /** A level above those of the assumptions is opened with a decision, so it is not empty. */
  ghost predicate DecisionLevelsFilled(t: Trail, k: nat) {
    forall i :: k <= i < |t.lim| ==> t.lim[i] < LevelEnd(t, i + 1)
  }

  lemma {:induction false} FilledLevelsReach(t: Trail, k: nat, i: nat)
    requires DecisionLevelsFilled(t, k) && k <= i <= |t.lim|
    ensures i - k <= LevelEnd(t, i)
    decreases i
  {
    if i > k {
      FilledLevelsReach(t, k, i - 1);
      assert t.lim[i - 1] < LevelEnd(t, i);
    }
  }

  /** So there can never be more levels than assumptions and variables. */
  lemma LevelsFit(t: Trail, k: nat)
    requires TrailOk(t) && DecisionLevelsFilled(t, k)
    ensures |t.lim| <= k + |t.lits| <= k + |t.assigns|
  {
    StackFits(t);
    if k <= |t.lim| { FilledLevelsReach(t, k, |t.lim|); }
  }
}
