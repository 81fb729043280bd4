/** Naive unit propagation as a closure of a set of literals under the live clauses. */
module UnitClosure {
  import opened SolverTypes
  import opened Trails

  /** All of c but its k-th literal is refuted by s. */
  ghost predicate Refuted(c: seq<Lit>, k: nat, s: set<Lit>) {
    forall l :: 0 <= l < |c| && l != k ==> Neg(c[l]) in s
  }

  /** s contains the remaining literal of every live clause all of whose other literals it refutes. */
  ghost predicate UnitClosed(ca: seq<ClauseRec>, s: set<Lit>) {
    forall r, k :: 0 <= r < |ca| && !ca[r].deleted && 0 <= k < |ca[r].lits| && Refuted(ca[r].lits, k, s) ==>
      ca[r].lits[k] in s
  }

  /** s is the least closed set that contains base. */
  ghost predicate IsClosure(ca: seq<ClauseRec>, base: set<Lit>, s: set<Lit>) {
    UnitClosed(ca, s) && base <= s && forall u :: UnitClosed(ca, u) && base <= u ==> s <= u
  }

  ghost predicate Consistent(s: set<Lit>) { forall p :: p in s ==> Neg(p) !in s }

  /** Propagation from base ends in a conflict: no closed set that contains base is consistent. */
  ghost predicate Conflicts(ca: seq<ClauseRec>, base: set<Lit>) {
    forall s :: UnitClosed(ca, s) && base <= s ==> !Consistent(s)
  }

  /** A closed set that refutes a whole clause is not consistent. */
  lemma FalseClauseConflicts(ca: seq<ClauseRec>, r: CRef, s: set<Lit>)
    requires UnitClosed(ca, s) && 0 <= r < |ca| && !ca[r].deleted && |ca[r].lits| > 0
    requires forall l :: 0 <= l < |ca[r].lits| ==> Neg(ca[r].lits[l]) in s
    ensures !Consistent(s)
  {
    assert Refuted(ca[r].lits, 0, s);
    assert ca[r].lits[0] in s;
  }
}
