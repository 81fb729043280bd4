/** How the clause database and the root of the trail stand to the formula, and which steps keep that. */
module Soundness {
  import opened SolverTypes
  import opened Trails
  import opened Watches
  import opened Propagation
  import opened Backtracking
  import opened Database
  import opened ConflictAnalysis

  /** p is true at the root. */
  ghost predicate IsRoot(t: Trail, p: Lit) { p in t.lits && Level(t, p) == 0 }

  ghost predicate Part(d: seq<Lit>, c: seq<Lit>) { forall p :: p in d ==> p in c }

  /** Clause c is a tautology, satisfied at the root, or there is a problem clause that says at least as much. */
  ghost predicate Represented(t: Trail, ca: seq<ClauseRec>, clauses: seq<CRef>, c: seq<Lit>) {
    || (exists p :: p in c && (Neg(p) in c || IsRoot(t, p)))
    || (exists r :: r in clauses && 0 <= r < |ca| && Part(ca[r].lits, c))
  }

  /** Nothing was lost: the database still represents every clause of the formula. */
  ghost predicate Complete(f: set<seq<Lit>>, t: Trail, ca: seq<ClauseRec>, clauses: seq<CRef>) {
    forall c :: c in f ==> Represented(t, ca, clauses, c)
  }

  /** Problem clause r is still there, perhaps reordered, or satisfied at the root. */
  ghost predicate StillSaid(t': Trail, ca: seq<ClauseRec>, ca': seq<ClauseRec>, clauses': seq<CRef>, r: CRef)
    requires 0 <= r < |ca|
  {
    || (r in clauses' && r < |ca'| && Part(ca'[r].lits, ca[r].lits))
    || (exists p :: p in ca[r].lits && IsRoot(t', p))
  }

  /** Steps that keep what is true at the root and keep each problem clause said keep the database complete. */
  lemma CompleteStays(f: set<seq<Lit>>, t: Trail, t': Trail, ca: seq<ClauseRec>, ca': seq<ClauseRec>,
                      clauses: seq<CRef>, clauses': seq<CRef>)
    requires Complete(f, t, ca, clauses) && forall p :: IsRoot(t, p) ==> IsRoot(t', p)
    requires forall r :: r in clauses && 0 <= r < |ca| ==> StillSaid(t', ca, ca', clauses', r)
    ensures Complete(f, t', ca', clauses')
  {
    hide IsRoot;
    forall c | c in f ensures Represented(t', ca', clauses', c) {
      assert Represented(t, ca, clauses, c);
      if !(exists p :: p in c && (Neg(p) in c || IsRoot(t, p))) {
        var r :| r in clauses && 0 <= r < |ca| && Part(ca[r].lits, c);
        assert StillSaid(t', ca, ca', clauses', r);
      }
    }
  }

  lemma ReorderedPart(c: seq<Lit>, d: seq<Lit>)
    requires multiset(c) == multiset(d)
    ensures Part(c, d)
  {
    forall p | p in c ensures p in d { assert p in multiset(c) && p in multiset(d); }
  }

  /** Nothing was added. */
  ghost predicate Sound(f: set<seq<Lit>>, t: Trail, ca: seq<ClauseRec>) { ClausesSound(f, ca) && RootSound(f, t) }

  ghost predicate Listed(ca: seq<ClauseRec>, s: seq<CRef>, learnt: bool) {
    NoRepeats(s) && forall r :: r in s ==> 0 <= r < |ca| && !ca[r].deleted && ca[r].learnt == learnt
  }

  /** The clause database: watched, served, sound, complete, and listed. */
  ghost predicate DatabaseOk(f: set<seq<Lit>>, t: Trail, ca: seq<ClauseRec>, ws: Lists, dirty: set<Lit>,
                             dirties: seq<Lit>, q: nat, clauses: seq<CRef>, learnts: seq<CRef>) {
    && Idle(t, ca, ws, dirty, q) && DirtiesListed(ws, dirty, dirties)
    && Sound(f, t, ca) && Complete(f, t, ca, clauses)
    && Listed(ca, clauses, false) && Listed(ca, learnts, true)
  }

  /** An unassigned decision variable is in the heap. */
  ghost predicate HeapOk(assigns: seq<LBool>, decision: seq<bool>, heap: set<Var>) {
    && |decision| == |assigns|
    && (forall v :: v in heap ==> v < |assigns|)
    && (forall v :: 0 <= v < |assigns| && assigns[v] == LUndef && decision[v] ==> v in heap)
  }

  // ---------- propagation ----------

  lemma ReorderKeeps(f: set<seq<Lit>>, t: Trail, ca: seq<ClauseRec>, ca': seq<ClauseRec>, clauses: seq<CRef>)
    requires Reordered(ca, ca')
    ensures ClausesSound(f, ca) ==> ClausesSound(f, ca')
    ensures Complete(f, t, ca, clauses) ==> Complete(f, t, ca', clauses)
  {
    if ClausesSound(f, ca) {
      forall r | 0 <= r < |ca'| && !ca'[r].deleted ensures Implied(f, ca'[r].lits) {
        assert Implied(f, ca[r].lits);
        forall a { SameLitsSameMeaning(a, ca'[r].lits, ca[r].lits); }
      }
    }
    if Complete(f, t, ca, clauses) {
      forall r | r in clauses && 0 <= r < |ca| ensures StillSaid(t, ca, ca', clauses, r) {
        ReorderedPart(ca'[r].lits, ca[r].lits);
      }
      CompleteStays(f, t, t, ca, ca', clauses, clauses);
    }
  }

  lemma ReorderKeepsListed(ca: seq<ClauseRec>, ca': seq<ClauseRec>, s: seq<CRef>, learnt: bool)
    requires Reordered(ca, ca') && Listed(ca, s, learnt)
    ensures Listed(ca', s, learnt)
  {
  }

  /** What is propagated at the root follows from the formula. */
  lemma {:induction false} PropagatedRootIsImplied(f: set<seq<Lit>>, t: Trail, t': Trail, ca: seq<ClauseRec>, i: nat)
    requires TrailOk(t) && TrailOk(t') && ReasonsOk(t', ca) && Propagated(t, t')
    requires ClausesSound(f, ca) && RootSound(f, t) && i < |t'.lits| && Level(t', t'.lits[i]) == 0
    ensures Implied(f, [t'.lits[i]])
    decreases i
  {
    if i < |t.lits| {
      assert t'.lits[i] == t.lits[i];
      assert t'.vardata[t.lits[i].v] == t.vardata[t.lits[i].v];
    } else {
      assert ReasonAt(t', ca, i);
      var c := ca[Reason(t', t'.lits[i])].lits;
      forall k | 1 <= k < |c| ensures forall a :: Models(a, f) ==> !Holds(a, c[k]) {
        FalseIsOnStack(t', c[k]);
        LevelIsMonotone(t', Pos(t', c[k]), i);
        PropagatedRootIsImplied(f, t, t', ca, Pos(t', c[k]));
        forall a | Models(a, f) ensures !Holds(a, c[k]) {
          assert Satisfies(a, [t'.lits[Pos(t', c[k])]]);
        }
      }
      forall a | Models(a, f) ensures Satisfies(a, [t'.lits[i]]) {
        assert Implied(f, c) && Satisfies(a, c);
        var k :| 0 <= k < |c| && Holds(a, c[k]);
        assert k == 0;
        assert c[0] in [t'.lits[i]];
      }
    }
  }

  lemma PropagateKeepsSound(f: set<seq<Lit>>, t: Trail, t': Trail, ca: seq<ClauseRec>, ca': seq<ClauseRec>,
                            clauses: seq<CRef>)
    requires TrailOk(t) && TrailOk(t') && ReasonsOk(t', ca') && Propagated(t, t') && Reordered(ca, ca')
    requires Sound(f, t, ca) && Complete(f, t, ca, clauses)
    ensures Sound(f, t', ca') && Complete(f, t', ca', clauses)
  {
    ReorderKeeps(f, t, ca, ca', clauses);
    forall i | 0 <= i < |t'.lits| && Level(t', t'.lits[i]) == 0 ensures Implied(f, [t'.lits[i]]) {
      PropagatedRootIsImplied(f, t, t', ca', i);
    }
    MoreRootKeepsComplete(f, t, t', ca', clauses);
  }

  lemma MoreRootKeepsComplete(f: set<seq<Lit>>, t: Trail, t': Trail, ca: seq<ClauseRec>, clauses: seq<CRef>)
    requires TrailOk(t) && Extends(t, t') && Complete(f, t, ca, clauses)
    ensures Complete(f, t', ca, clauses)
  {
    forall p | IsRoot(t, p) ensures IsRoot(t', p) {
      var i :| 0 <= i < |t.lits| && t.lits[i] == p;
      assert t'.lits[i] == p;
    }
    CompleteStays(f, t, t', ca, ca, clauses, clauses);
  }

  /** A clause false at the root refutes the formula. */
  lemma RootConflictIsUnsat(f: set<seq<Lit>>, t: Trail, ca: seq<ClauseRec>, r: CRef)
    requires TrailOk(t) && Sound(f, t, ca) && |t.lim| == 0 && 0 <= r < |ca| && !ca[r].deleted
    requires forall k :: 0 <= k < |ca[r].lits| ==> IsFalse(t, ca[r].lits[k])
    ensures !Satisfiable(f)
  {
    forall a | Models(a, f) ensures false {
      assert Implied(f, ca[r].lits) && Satisfies(a, ca[r].lits);
      var k :| 0 <= k < |ca[r].lits| && Holds(a, ca[r].lits[k]);
      FalseLevelIsAtMostCurrent(t, ca[r].lits[k]);
      RootFalseIsRefuted(f, t, ca[r].lits[k]);
    }
  }

  /** After a conflict the database is as good, but for the watches of the current level. */
  ghost predicate StuckOk(f: set<seq<Lit>>, t: Trail, ca: seq<ClauseRec>, ws: Lists, clauses: seq<CRef>,
                          learnts: seq<CRef>)
  {
    && Halted(t, ca, ws) && Sound(f, t, ca) && Complete(f, t, ca, clauses)
    && Listed(ca, clauses, false) && Listed(ca, learnts, true)
  }

  lemma PropagateKeepsDatabase(f: set<seq<Lit>>, t: Trail, ca: seq<ClauseRec>, ws: Lists, dirty: set<Lit>,
                               dirties: seq<Lit>, q: nat, clauses: seq<CRef>, learnts: seq<CRef>, t': Trail,
                               ca': seq<ClauseRec>, ws': Lists)
    requires DatabaseOk(f, t, ca, ws, dirty, dirties, q, clauses, learnts) && Propagated(t, t') && Reordered(ca, ca')
    ensures Idle(t', ca', ws', {}, |t'.lits|) ==> DatabaseOk(f, t', ca', ws', {}, [], |t'.lits|, clauses, learnts)
    ensures Halted(t', ca', ws') ==> StuckOk(f, t', ca', ws', clauses, learnts)
  {
    hide Served, ListsOk, ClausesOk, StackOk, LevelsOk, LimOk, ReasonsOk, Sound, Complete, Listed, Reordered;
    hide Propagated;
    if Idle(t', ca', ws', {}, |t'.lits|) || Halted(t', ca', ws') {
      PropagateKeepsSound(f, t, t', ca, ca', clauses);
      ReorderKeepsListed(ca, ca', clauses, false);
      ReorderKeepsListed(ca, ca', learnts, true);
    }
  }

  lemma DatabaseIsIdle(f: set<seq<Lit>>, t: Trail, ca: seq<ClauseRec>, ws: Lists, dirty: set<Lit>, dirties: seq<Lit>,
                       q: nat, clauses: seq<CRef>, learnts: seq<CRef>)
    requires DatabaseOk(f, t, ca, ws, dirty, dirties, q, clauses, learnts)
    ensures Idle(t, ca, ws, dirty, q) && DirtiesListed(ws, dirty, dirties) && TrailOk(t)
  {
  }

  lemma PropagatedExtends(t: Trail, t': Trail)
    requires Propagated(t, t')
    ensures Extends(t, t') && t'.lim == t.lim && t.lits <= t'.lits && |t'.assigns| == |t.assigns|
  {
  }

  lemma StuckShape(f: set<seq<Lit>>, t: Trail, ca: seq<ClauseRec>, ws: Lists, clauses: seq<CRef>, learnts: seq<CRef>)
    requires StuckOk(f, t, ca, ws, clauses, learnts)
    ensures TrailOk(t) && ReasonsOk(t, ca) && ClausesOk(ca, |t.assigns|) && Sound(f, t, ca) && Halted(t, ca, ws)
  {
  }

  // ---------- a new variable ----------

  ghost function WithVar(t: Trail): Trail {
    t.(assigns := t.assigns + [LUndef], vardata := t.vardata + [VarData(CREF_UNDEF, 0)], pos := t.pos + [0])
  }

  function WithLists(ws: Lists, v: Var): Lists { ws[Lit(v, false) := []][Lit(v, true) := []] }

  lemma NewVarKeepsTrail(t: Trail, ca: seq<ClauseRec>)
    requires TrailOk(t) && ReasonsOk(t, ca) && ClausesOk(ca, |t.assigns|)
    ensures TrailOk(WithVar(t)) && ReasonsOk(WithVar(t), ca) && ClausesOk(ca, |t.assigns| + 1)
  {
    var t' := WithVar(t);
    forall i | 0 <= i < |t'.lits| ensures LevelAt(t', i, Level(t', t'.lits[i])) && ReasonAt(t', ca, i) {
      assert LevelAt(t, i, Level(t, t.lits[i])) && ReasonAt(t, ca, i);
    }
  }

  lemma NewVarKeepsLists(ca: seq<ClauseRec>, ws: Lists, dirty: set<Lit>, n: nat)
    requires ListsOk(ca, ws, dirty, n)
    ensures ListsOk(ca, WithLists(ws, n), dirty, n + 1)
  {
    var ws' := WithLists(ws, n);
    forall q: Lit ensures q in ws' <==> q.v < n + 1 {
      assert q in ws <==> q.v < n;
    }
    forall r | 0 <= r < |ca| && !ca[r].deleted ensures ClauseWatched(ws', ca[r].lits, r) {
      assert ClauseWatched(ws, ca[r].lits, r);
    }
  }

  lemma NewVarKeepsServed(t: Trail, ca: seq<ClauseRec>, ws: Lists, m: nat)
    requires TrailOk(t) && Served(t, ca, ws, m) && DomainOk(ws, |t.assigns|) && AllListsOk(ca, ws)
    ensures Served(WithVar(t), ca, WithLists(ws, |t.assigns|), m)
  {
    var t', ws' := WithVar(t), WithLists(ws, |t.assigns|);
    forall i, j | 0 <= i < m && i < |t'.lits| && t'.lits[i] in ws' && 0 <= j < |ws'[t'.lits[i]]|
      ensures EntryServed(t', ca, t'.lits[i], ws'[t'.lits[i]][j])
    {
      assert EntryServed(t, ca, t.lits[i], ws[t.lits[i]][j]);
    }
  }

  lemma NewVarKeepsDatabase(f: set<seq<Lit>>, t: Trail, ca: seq<ClauseRec>, ws: Lists, dirty: set<Lit>,
                            dirties: seq<Lit>, q: nat, clauses: seq<CRef>, learnts: seq<CRef>)
    requires DatabaseOk(f, t, ca, ws, dirty, dirties, q, clauses, learnts)
    ensures DatabaseOk(f, WithVar(t), ca, WithLists(ws, |t.assigns|), dirty, dirties, q, clauses, learnts)
  {
    hide ReasonsOk, ClausesOk, AllListsOk, AllWatched, DirtyOk, Served, LevelsOk;
    NewVarKeepsTrail(t, ca);
    NewVarKeepsLists(ca, ws, dirty, |t.assigns|);
    NewVarKeepsServed(t, ca, ws, q);
    var t' := WithVar(t);
    forall i | 0 <= i < |t'.lits| && Level(t', t'.lits[i]) == 0 ensures Implied(f, [t'.lits[i]]) {
      assert Level(t, t.lits[i]) == 0;
    }
    forall p | IsRoot(t, p) ensures IsRoot(t', p) {
    }
    CompleteStays(f, t, t', ca, ca, clauses, clauses);
  }

  lemma DecisionLength(assigns: seq<LBool>, decision: seq<bool>, heap: set<Var>)
    requires HeapOk(assigns, decision, heap)
    ensures |decision| == |assigns|
  {
  }

  lemma DecideKeepsHeap(assigns: seq<LBool>, decision: seq<bool>, heap: set<Var>, p: Lit)
    requires HeapOk(assigns, decision, heap + {p.v}) && p.v < |assigns|
    ensures HeapOk(assigns[p.v := Polarity(p)], decision, heap)
  {
  }

  lemma AssignKeepsHeap(assigns: seq<LBool>, decision: seq<bool>, heap: set<Var>, p: Lit)
    requires HeapOk(assigns, decision, heap) && p.v < |assigns|
    ensures HeapOk(assigns[p.v := Polarity(p)], decision, heap)
  {
  }

  lemma NewVarIsUnmarked(seen: seq<bool>)
    requires AllUnmarked(seen)
    ensures AllUnmarked(seen + [false])
  {
  }

  lemma NewVarKeepsHeap(assigns: seq<LBool>, decision: seq<bool>, heap: set<Var>, dvar: bool)
    requires HeapOk(assigns, decision, heap)
    ensures HeapOk(assigns + [LUndef], decision + [dvar], if dvar then heap + {|assigns|} else heap)
  {
  }

  lemma ExtendKeepsHeap(t: Trail, t': Trail, decision: seq<bool>, heap: set<Var>)
    requires TrailOk(t) && Extends(t, t') && HeapOk(t.assigns, decision, heap)
    ensures HeapOk(t'.assigns, decision, heap)
  {
    forall v | 0 <= v < |t'.assigns| && t'.assigns[v] == LUndef && decision[v] ensures v in heap {
      assert t.assigns[v] == LUndef;
    }
  }

  // ---------- backtracking and learning ----------

  lemma CancelKeepsSound(f: set<seq<Lit>>, t: Trail, ca: seq<ClauseRec>, clauses: seq<CRef>, l: nat)
    requires TrailOk(t) && Sound(f, t, ca) && Complete(f, t, ca, clauses)
    ensures Sound(f, Cancelled(t, l), ca) && Complete(f, Cancelled(t, l), ca, clauses)
  {
    var t' := Cancelled(t, l);
    forall i | 0 <= i < |t'.lits| && Level(t', t'.lits[i]) == 0 ensures Implied(f, [t'.lits[i]]) {
      assert t'.lits[i] == t.lits[i];
    }
    forall p | IsRoot(t, p) ensures IsRoot(t', p) {
      var i :| 0 <= i < |t.lits| && t.lits[i] == p;
      if l < |t.lim| {
        LevelFromPos(t, i, l);
        assert t'.lits[i] == p;
      }
    }
    CompleteStays(f, t, t', ca, ca, clauses, clauses);
  }

  lemma EnqueueKeepsSound(f: set<seq<Lit>>, t: Trail, ca: seq<ClauseRec>, clauses: seq<CRef>, p: Lit, from: CRef)
    requires TrailOk(t) && Sound(f, t, ca) && Complete(f, t, ca, clauses)
    requires p.v < |t.assigns| && t.assigns[p.v] == LUndef && (|t.lim| == 0 ==> Implied(f, [p]))
    ensures Sound(f, Enqueued(t, p, from), ca) && Complete(f, Enqueued(t, p, from), ca, clauses)
  {
    var t' := Enqueued(t, p, from);
    EnqueueKeepsTrail(t, p, from);
    MoreRootKeepsComplete(f, t, t', ca, clauses);
    forall i | 0 <= i < |t'.lits| && Level(t', t'.lits[i]) == 0 ensures Implied(f, [t'.lits[i]]) {
      if i < |t.lits| {
        assert t'.lits[i] == t.lits[i] && t.lits[i].v != p.v;
      }
    }
  }

  lemma GrowKeepsSound(f: set<seq<Lit>>, t: Trail, ca: seq<ClauseRec>, clauses: seq<CRef>, rec: ClauseRec)
    requires Sound(f, t, ca) && Complete(f, t, ca, clauses) && Implied(f, rec.lits)
    requires forall r :: r in clauses ==> 0 <= r < |ca|
    ensures Sound(f, t, ca + [rec]) && Complete(f, t, ca + [rec], clauses)
  {
    var ca' := ca + [rec];
    forall r | 0 <= r < |ca'| && !ca'[r].deleted ensures Implied(f, ca'[r].lits) {
      if r < |ca| { assert ca'[r] == ca[r]; }
    }
    CompleteStays(f, t, t, ca, ca', clauses, clauses);
  }

  lemma GrowKeepsListed(ca: seq<ClauseRec>, s: seq<CRef>, learnt: bool, rec: ClauseRec)
    requires Listed(ca, s, learnt)
    ensures Listed(ca + [rec], s, learnt)
    ensures !rec.deleted && rec.learnt == learnt ==> Listed(ca + [rec], s + [|ca|], learnt)
  {
    assert (ca + [rec])[|ca|] == rec;
    assert |ca| !in s;
  }

  // ---------- removing clauses ----------

  predicate IsSatisfied(assigns: seq<LBool>, c: seq<Lit>) {
    exists k :: 0 <= k < |c| && c[k].v < |assigns| && Value(assigns, c[k]) == LTrue
  }

  /** The clauses of the list that are not satisfied, in order. */
  function Unsatisfied(assigns: seq<LBool>, ca: seq<ClauseRec>, cs: seq<CRef>): seq<CRef> {
    if cs == [] then []
    else
      var r := cs[|cs| - 1];
      Unsatisfied(assigns, ca, cs[..|cs| - 1]) +
      if 0 <= r < |ca| && IsSatisfied(assigns, ca[r].lits) then [] else [r]
  }

  /** The region with the satisfied clauses of the list marked. */
  function SatisfiedDeleted(assigns: seq<LBool>, ca: seq<ClauseRec>, cs: seq<CRef>): (ca': seq<ClauseRec>)
    ensures |ca'| == |ca| && forall r :: 0 <= r < |ca| ==> ca'[r].lits == ca[r].lits && ca'[r].learnt == ca[r].learnt
  {
    seq(|ca|, r requires 0 <= r < |ca| =>
          if r in cs && IsSatisfied(assigns, ca[r].lits) then ca[r].(deleted := true) else ca[r])
  }

  /** The statistics clauses_literals and learnts_literals: the number of literals of the listed clauses. */
  function LitCount(ca: seq<ClauseRec>, cs: seq<CRef>): nat {
    if cs == [] then 0
    else
      var r := cs[|cs| - 1];
      LitCount(ca, cs[..|cs| - 1]) + if 0 <= r < |ca| then |ca[r].lits| else 0
  }

  lemma UnsatisfiedNone(assigns: seq<LBool>, ca: seq<ClauseRec>)
    ensures Unsatisfied(assigns, ca, []) == []
  {
  }

  lemma UnsatisfiedNext(assigns: seq<LBool>, ca: seq<ClauseRec>, cs: seq<CRef>, r: CRef)
    requires 0 <= r < |ca|
    ensures Unsatisfied(assigns, ca, cs + [r]) ==
      Unsatisfied(assigns, ca, cs) + if IsSatisfied(assigns, ca[r].lits) then [] else [r]
  {
    assert (cs + [r])[..|cs|] == cs;
  }

  lemma SatisfiedReordered(assigns: seq<LBool>, c: seq<Lit>, d: seq<Lit>)
    requires multiset(c) == multiset(d) && IsSatisfied(assigns, c)
    ensures IsSatisfied(assigns, d)
  {
    var k :| 0 <= k < |c| && c[k].v < |assigns| && Value(assigns, c[k]) == LTrue;
    assert c[k] in multiset(c) && c[k] in multiset(d);
    var i :| 0 <= i < |d| && d[i] == c[k];
  }

  /** Marks and the order of literals do not matter to what is satisfied. */
  lemma {:induction false} UnsatisfiedSame(assigns: seq<LBool>, ca: seq<ClauseRec>, ca': seq<ClauseRec>, cs: seq<CRef>)
    requires |ca| == |ca'| && forall r :: 0 <= r < |ca| ==> multiset(ca'[r].lits) == multiset(ca[r].lits)
    ensures Unsatisfied(assigns, ca', cs) == Unsatisfied(assigns, ca, cs)
  {
    hide IsSatisfied;
    if cs != [] {
      var r := cs[|cs| - 1];
      UnsatisfiedSame(assigns, ca, ca', cs[..|cs| - 1]);
      if 0 <= r < |ca| {
        if IsSatisfied(assigns, ca[r].lits) { SatisfiedReordered(assigns, ca[r].lits, ca'[r].lits); }
        if IsSatisfied(assigns, ca'[r].lits) { SatisfiedReordered(assigns, ca'[r].lits, ca[r].lits); }
      }
    }
  }

  lemma NothingDeleted(assigns: seq<LBool>, ca: seq<ClauseRec>)
    ensures SatisfiedDeleted(assigns, ca, []) == ca
  {
  }

  lemma DeleteNext(assigns: seq<LBool>, ca: seq<ClauseRec>, cs: seq<CRef>, r: CRef)
    requires 0 <= r < |ca|
    ensures SatisfiedDeleted(assigns, ca, cs + [r]) ==
      if IsSatisfied(assigns, ca[r].lits) then Removed(SatisfiedDeleted(assigns, ca, cs), r)
      else SatisfiedDeleted(assigns, ca, cs)
  {
    assert forall s :: s in cs + [r] <==> s in cs || s == r;
  }

  lemma RemoveKeepsSound(f: set<seq<Lit>>, t: Trail, ca: seq<ClauseRec>, clauses: seq<CRef>, r: CRef)
    requires 0 <= r < |ca| && Sound(f, t, ca) && Complete(f, t, ca, clauses)
    ensures Sound(f, Unlocked(t, ca, r), Removed(ca, r)) && Complete(f, Unlocked(t, ca, r), Removed(ca, r), clauses)
  {
    var t', ca' := Unlocked(t, ca, r), Removed(ca, r);
    forall i | 0 <= i < |t'.lits| && Level(t', t'.lits[i]) == 0 ensures Implied(f, [t'.lits[i]]) {
      assert Level(t, t.lits[i]) == 0;
    }
    forall p | IsRoot(t, p) ensures IsRoot(t', p) {
    }
    CompleteStays(f, t, t', ca, ca', clauses, clauses);
  }

  /** A problem clause that the root satisfies may be forgotten. */
  lemma DropKeepsComplete(f: set<seq<Lit>>, t: Trail, ca: seq<ClauseRec>, front: seq<CRef>, r: CRef, back: seq<CRef>)
    requires TrailOk(t) && |t.lim| == 0 && Complete(f, t, ca, front + [r] + back)
    requires 0 <= r < |ca| && IsSatisfied(t.assigns, ca[r].lits)
    ensures Complete(f, t, ca, front + back)
  {
    var k :| 0 <= k < |ca[r].lits| && IsTrue(t, ca[r].lits[k]);
    var p := ca[r].lits[k];
    TrueIsOnStack(t, p);
    LevelIsAtMostCurrent(t, p);
    assert p in ca[r].lits && IsRoot(t, p);
    forall s | s in front + [r] + back && 0 <= s < |ca| ensures StillSaid(t, ca, ca, front + back, s) {
      assert s == r || s in front + back;
    }
    CompleteStays(f, t, t, ca, ca, front + [r] + back, front + back);
  }

  lemma RemoveKeepsListed(ca: seq<ClauseRec>, s: seq<CRef>, learnt: bool, r: CRef)
    requires Listed(ca, s, learnt) && 0 <= r < |ca| && r !in s
    ensures Listed(Removed(ca, r), s, learnt)
  {
  }

  lemma DropFromList(ca: seq<ClauseRec>, front: seq<CRef>, r: CRef, back: seq<CRef>, learnt: bool)
    requires Listed(ca, front + [r] + back, learnt)
    ensures Listed(ca, front + back, learnt) && r !in front + back && 0 <= r < |ca| && !ca[r].deleted
    ensures forall s :: Listed(ca, s, !learnt) ==> r !in s
  {
    var l, m := front + [r] + back, front + back;
    assert l[|front|] == r;
    assert forall i :: 0 <= i < |m| ==> m[i] == l[if i < |front| then i else i + 1];
    forall i | 0 <= i < |m| ensures m[i] != r {
      assert l[if i < |front| then i else i + 1] != l[|front|];
    }
    assert r in l && forall s :: s in m ==> s in l;
  }
}
