/** Which variables an assignment was derived from, as least sets closed under reasons. */
module ReasonCones {
  import opened SolverTypes
  import opened Trails

  /** The variables above level 0 in c. */
  ghost function AboveRoot(t: Trail, c: seq<Lit>): set<Var> { set k | 0 <= k < |c| && Level(t, c[k]) > 0 :: c[k].v }

  /** The variables above level 0 that v was derived from; none, if v was decided. */
  ghost function Antecedents(t: Trail, ca: seq<ClauseRec>, v: Var): set<Var> {
    if v < |t.vardata| && 0 <= t.vardata[v].reason < |ca| && |ca[t.vardata[v].reason].lits| > 0
    then AboveRoot(t, ca[t.vardata[v].reason].lits[1..]) else {}
  }

  /** s contains what its members were derived from; those in stop are not looked into. */
  ghost predicate ReasonClosed(t: Trail, ca: seq<ClauseRec>, s: set<Var>, stop: set<Var>) {
    forall v :: v in s && v !in stop ==> Antecedents(t, ca, v) <= s
  }

  ghost predicate InAllClosed(t: Trail, ca: seq<ClauseRec>, base: set<Var>, stop: set<Var>, v: Var) {
    forall s: set<Var> :: base <= s && ReasonClosed(t, ca, s, stop) ==> v in s
  }

  /** The variables that are in every closed set around base. */
  ghost function Cone(t: Trail, ca: seq<ClauseRec>, base: set<Var>, stop: set<Var>): set<Var> {
    set v: Var | v < |t.assigns| && InAllClosed(t, ca, base, stop, v)
  }

  lemma ConeIsWithin(t: Trail, ca: seq<ClauseRec>, base: set<Var>, stop: set<Var>, s: set<Var>)
    requires base <= s && ReasonClosed(t, ca, s, stop)
    ensures Cone(t, ca, base, stop) <= s
  {
  }

  lemma ConeIs(t: Trail, ca: seq<ClauseRec>, base: set<Var>, stop: set<Var>, s: set<Var>)
    requires base <= s && ReasonClosed(t, ca, s, stop) && forall v :: v in s ==> v < |t.assigns|
    requires forall u: set<Var> :: base <= u && ReasonClosed(t, ca, u, stop) ==> s <= u
    ensures Cone(t, ca, base, stop) == s
  {
  }

  lemma AntecedentsInRange(t: Trail, ca: seq<ClauseRec>, v: Var)
    requires ClausesOk(ca, |t.assigns|)
    ensures forall u :: u in Antecedents(t, ca, v) ==> u < |t.assigns|
  {
  }

  /** The cone is itself closed: it is the least closed set around base. */
  lemma ConeIsClosed(t: Trail, ca: seq<ClauseRec>, base: set<Var>, stop: set<Var>)
    requires ClausesOk(ca, |t.assigns|) && forall v :: v in base ==> v < |t.assigns|
    ensures base <= Cone(t, ca, base, stop) && ReasonClosed(t, ca, Cone(t, ca, base, stop), stop)
  {
    hide Antecedents;
    var cone := Cone(t, ca, base, stop);
    forall v, u | v in cone && v !in stop && u in Antecedents(t, ca, v) ensures u in cone {
      AntecedentsInRange(t, ca, v);
      assert InAllClosed(t, ca, base, stop, v);
      forall s: set<Var> | base <= s && ReasonClosed(t, ca, s, stop) ensures u in s {
        assert v in s;
      }
    }
  }

  /** Looking into more variables only adds to the cone. */
  lemma ConeIsAntitone(t: Trail, ca: seq<ClauseRec>, base: set<Var>, stop: set<Var>, stop': set<Var>)
    requires stop' <= stop
    ensures Cone(t, ca, base, stop) <= Cone(t, ca, base, stop')
  {
    forall v | InAllClosed(t, ca, base, stop, v) ensures InAllClosed(t, ca, base, stop', v) {
      forall s: set<Var> | base <= s && ReasonClosed(t, ca, s, stop') ensures v in s {
        assert ReasonClosed(t, ca, s, stop);
      }
    }
  }

  // ---------- the final conflict ----------

  /** The clause is p and the complements of exactly the decisions that p was derived from. */
  ghost predicate FinalCore(t: Trail, ca: seq<ClauseRec>, p: Lit, out: seq<Lit>) {
    && |out| > 0 && out[0] == p && DistinctVars(out[1..])
    && forall q :: q in out[1..] <==>
         IsFalse(t, q) && Reason(t, q) == CREF_UNDEF && q.v in Cone(t, ca, AboveRoot(t, [p]), {})
  }

  // ---------- minimization ----------

  ghost function Marked(seen: seq<bool>): set<Var> { set v: Var | v < |seen| && seen[v] }

  /** v was propagated, and its level is, modulo 32, among the given ones. */
  ghost predicate Passable(t: Trail, levels: set<nat>, v: Var) {
    v < |t.vardata| && t.vardata[v].reason != CREF_UNDEF && t.vardata[v].level % 32 in levels
  }

  /** All that v was derived from, down to the marked variables, is passable. */
  ghost predicate IsRedundant(t: Trail, ca: seq<ClauseRec>, levels: set<nat>, marks: set<Var>, v: Var) {
    forall u :: u in Cone(t, ca, Antecedents(t, ca, v), marks) && u !in marks ==> Passable(t, levels, u)
  }

  /** Marks were only added for passable variables, with all they were derived from. */
  ghost predicate SharedMarks(t: Trail, ca: seq<ClauseRec>, levels: set<nat>, marks0: set<Var>, marks: set<Var>) {
    && marks0 <= marks
    && forall u :: u in marks && u !in marks0 ==> Passable(t, levels, u) && Antecedents(t, ca, u) <= marks
  }

  /** Such marks leave every answer as it was. */
  lemma SharedMarksKeepAnswers(t: Trail, ca: seq<ClauseRec>, levels: set<nat>, marks0: set<Var>, marks: set<Var>,
                               v: Var)
    requires ClausesOk(ca, |t.assigns|) && SharedMarks(t, ca, levels, marks0, marks)
    ensures IsRedundant(t, ca, levels, marks, v) <==> IsRedundant(t, ca, levels, marks0, v)
  {
    hide Antecedents, Passable;
    var base := Antecedents(t, ca, v);
    AntecedentsInRange(t, ca, v);
    var cone0, cone := Cone(t, ca, base, marks0), Cone(t, ca, base, marks);
    ConeIsAntitone(t, ca, base, marks, marks0);
    ConeIsClosed(t, ca, base, marks);
    assert ReasonClosed(t, ca, cone + marks, marks0) by {
      forall u | u in cone + marks && u !in marks0 ensures Antecedents(t, ca, u) <= cone + marks {
      }
    }
    ConeIsWithin(t, ca, base, marks0, cone + marks);
  }

  /** A redundant variable's cone can be marked. */
  lemma SharedMarksGrow(t: Trail, ca: seq<ClauseRec>, levels: set<nat>, marks0: set<Var>, marks: set<Var>,
                        marks': set<Var>, v: Var)
    requires ClausesOk(ca, |t.assigns|) && SharedMarks(t, ca, levels, marks0, marks)
    requires IsRedundant(t, ca, levels, marks, v) && marks' == marks + Cone(t, ca, Antecedents(t, ca, v), marks)
    ensures SharedMarks(t, ca, levels, marks0, marks')
  {
    hide Antecedents, Passable, Cone;
    AntecedentsInRange(t, ca, v);
    ConeIsClosed(t, ca, Antecedents(t, ca, v), marks);
  }

  ghost function LevelSet(t: Trail, rest: seq<Lit>): set<nat> { set i | 0 <= i < |rest| :: Level(t, rest[i]) % 32 }

  /** The literal q of a learnt clause with the literals rest goes away: 1 locally, 2 deeply, else nothing goes away. */
  ghost predicate Droppable(t: Trail, ca: seq<ClauseRec>, mode: nat, rest: seq<Lit>, q: Lit) {
    && Reason(t, q) != CREF_UNDEF
    && (mode == 1 || mode == 2)
    && (mode == 1 ==> Antecedents(t, ca, q.v) <= VarSet(rest))
    && (mode == 2 ==> IsRedundant(t, ca, LevelSet(t, rest), VarSet(rest), q.v))
  }

  /** The first i literals of rest without those that go away. */
  ghost function Kept(t: Trail, ca: seq<ClauseRec>, mode: nat, rest: seq<Lit>, i: nat): seq<Lit>
    requires i <= |rest|
  {
    if i == 0 then [] else
      Kept(t, ca, mode, rest, i - 1) + if Droppable(t, ca, mode, rest, rest[i - 1]) then [] else [rest[i - 1]]
  }

  // ---------- the first unique implication point ----------

  /** The variables that stay when those of the current level are resolved away down to stack index b. */
  ghost function Low(t: Trail, b: nat): set<Var> {
    set v: Var | v < |t.assigns| && (v >= |t.vardata| || v >= |t.pos| || t.vardata[v].level < |t.lim| || t.pos[v] < b)
  }

  /** What the clause c turns to by this resolution, and all that was resolved away. */
  ghost function Involved(t: Trail, ca: seq<ClauseRec>, c: seq<Lit>, b: nat): set<Var> {
    Cone(t, ca, AboveRoot(t, c), Low(t, b))
  }

  /** The variables of s of the current level below stack index b. */
  ghost function CurrentVars(t: Trail, s: set<Var>, b: nat): set<Var> {
    set v | v in s && v < |t.vardata| && v < |t.pos| && t.vardata[v].level == |t.lim| && t.pos[v] < b
  }

  /** Resolved down to stack index i, c has one literal of the current level: the one at i. */
  ghost predicate IsUip(t: Trail, ca: seq<ClauseRec>, c: seq<Lit>, i: nat) {
    i < |t.lits| && CurrentVars(t, Involved(t, ca, c, i + 1), i + 1) == {t.lits[i].v}
  }

  /** p is the first such point from the top of the stack, and rest are the literals of lower levels then. */
  ghost predicate FirstUipIs(t: Trail, ca: seq<ClauseRec>, c: seq<Lit>, p: Lit, rest: seq<Lit>) {
    && IsTrue(t, p) && IsUip(t, ca, c, Pos(t, p)) && DistinctVars(rest)
    && (forall j :: Pos(t, p) < j < |t.lits| ==> !IsUip(t, ca, c, j))
    && (forall q :: q in rest <==>
          IsFalse(t, q) && Level(t, q) < |t.lim| && q.v in Involved(t, ca, c, Pos(t, p) + 1))
  }

  /** The learnt clause: the complement of the first point and what minimization keeps of the rest. */
  ghost predicate LearntIs(t: Trail, ca: seq<ClauseRec>, mode: nat, c: seq<Lit>, learnt: seq<Lit>) {
    exists p, rest :: FirstUipIs(t, ca, c, p, rest) &&
      multiset(learnt) == multiset([Neg(p)] + Kept(t, ca, mode, rest, |rest|))
  }
}
