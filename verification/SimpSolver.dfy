/** The preprocessor: subsumption, strengthening, and bounded variable elimination at the root level. */
module SimpSolvers {
  import opened SolverTypes
  import opened Trails
  import opened Elimination
  import opened ElimStack
  import opened Subsumption
  import opened SimpDatabase
  import opened Merging
  import opened Eliminating
  import opened Irredundance
  import opened Costs
  import opened UnitClosure
  import AddingClauses

  class SimpSolver {
    var ok: bool
    var ca: seq<ClauseRec>
    var assigns: seq<LBool>
    var trail: seq<Lit>
    var occurs: Occs
    var dirty: set<Var>
    var nOcc: map<Lit, int>
    var elimclauses: seq<nat>
    var eliminated: seq<bool>
    var frozen: seq<bool>
    var touched: set<Var>
    var elimHeap: set<Var>
    var subsumptionQueue: seq<CRef>
    var bwdsubAssigns: nat
    var asynchInterrupt: bool
    /** The problem as given by the user, and the elimination stack as clauses. */
    ghost var formula: set<seq<Lit>>
    ghost var recs: seq<seq<Lit>>

    ghost function Gone(): set<Var>
      reads `eliminated
    {
      Marked(eliminated)
    }

    /** Clauses, root assignment and indexes fit together. */
    ghost predicate DbOk()
      reads this
    {
      && IndexOk(ca, occurs, dirty, nOcc, |assigns|) && RootOk(assigns, trail)
      && |eliminated| == |frozen| == |assigns| && Free(ca, trail, Gone())
      && bwdsubAssigns <= |trail| && (forall r :: r in subsumptionQueue ==> 0 <= r < |ca|)
      && (forall v :: v in touched ==> v < |assigns|) && (forall v :: v in elimHeap ==> v < |assigns|)
    }

    predicate Candidate(v: Var)
      reads `assigns, `eliminated, `frozen
    {
      && v < |assigns| && v < |eliminated| && v < |frozen|
      && !eliminated[v] && !frozen[v] && assigns[v] == LUndef
    }

    /** The variables that are to be tried, and those that are no candidates. */
    ghost function Waiters(): iset<Var>
      reads `assigns, `eliminated, `frozen, `elimHeap
    {
      iset v: Var | v in elimHeap || !Candidate(v)
    }

    // ---------- indexes ----------

    /** OccLists::lookup: clean the list of v if it is dirty. */
    method Lookup(v: Var)
      requires DbOk() && v < |assigns|
      modifies `occurs, `dirty
      ensures DbOk() && v !in dirty
      ensures NoRepeats(occurs[v]) && forall r :: r in occurs[v] <==> Live(ca, r) && Mentions(ca[r].lits, v)
    {
      hide RootOk, Free;
      if v in dirty {
        var l, kept, i := occurs[v], [], 0;
        while i < |l|
          invariant 0 <= i <= |l| && kept == LiveOnly(ca, l[..i])
        {
          assert l[..i + 1][..i] == l[..i];
          var r := l[i];
          if !(0 <= r < |ca| && ca[r].deleted) { kept := kept + [r]; }
          i := i + 1;
        }
        assert l[..i] == l;
        CleanKeepsIndex(ca, occurs, dirty, nOcc, |assigns|, v);
        occurs, dirty := occurs[v := kept], dirty - {v};
      } else {
        assert OccListOk(ca, occurs[v], v, false);
      }
    }

    method IndexClause(c: seq<Lit>, r: CRef)
      requires DistinctVars(c) && InRange(c, |occurs|) && forall p :: p in c ==> p in nOcc
      modifies `occurs, `nOcc, `touched
      ensures occurs == Pushed(old(occurs), c, r) && nOcc == Counted(old(nOcc), c, 1)
      ensures touched == old(touched) + VarSet(c)
    {
      hide Counted, Pushed;
      CountedNone(nOcc, 1);
      PushedNone(occurs, r);
      var i := 0;
      while i < |c|
        invariant 0 <= i <= |c|
        invariant nOcc == Counted(old(nOcc), c[..i], 1) && occurs == Pushed(old(occurs), c[..i], r)
        invariant touched == old(touched) + VarSet(c[..i])
      {
        var v := c[i].v;
        CountNext(old(nOcc), c, i, 1);
        PushNext(old(occurs), c, i, r);
        VarSetAppend(c[..i], c[i]);
        assert c[..i + 1] == c[..i] + [c[i]];
        occurs := occurs[v := occurs[v] + [r]];
        nOcc := nOcc[c[i] := nOcc[c[i]] + 1];
        touched := touched + {v};
        i := i + 1;
      }
      assert c[..i] == c;
    }

    /**
     * Nothing is left to subsume or strengthen, but for queued clauses, touched variables, new root literals, and the
     * clauses skip, among them all that the limit on size leaves out.
     */
    ghost predicate Tidy(lim: int, skip: set<CRef>)
      reads `ca, `subsumptionQueue, `touched, `trail, `bwdsubAssigns
    {
      Long(ca, lim) <= skip && Minimal(ca, subsumptionQueue, touched, trail, bwdsubAssigns, skip)
    }

    lemma DbShape()
      requires DbOk()
      ensures ShapeOk(ca, |assigns|) && |eliminated| == |assigns| && RootOk(assigns, trail) && Free(ca, trail, Gone())
    {
    }

    lemma StoreIsTidy(c: seq<Lit>)
      requires DbOk() && forall i :: 0 <= i < |c| ==> c[i].v < |assigns| && assigns[c[i].v] == LUndef
      ensures var ca', queue := ca + [ClauseRec(c, false, false)], subsumptionQueue + [|ca|];
        forall g, k :: Tidy(g, k) && (g == -1 || |c| < g) ==>
          Long(ca', g) <= k && Minimal(ca', queue, touched + VarSet(c), trail, bwdsubAssigns, k)
    {
      hide IndexOk, Free, Minimal;
      var ca', queue := ca + [ClauseRec(c, false, false)], subsumptionQueue + [|ca|];
      forall g, k | Tidy(g, k) && (g == -1 || |c| < g)
        ensures Long(ca', g) <= k && Minimal(ca', queue, touched + VarSet(c), trail, bwdsubAssigns, k)
      {
        StoredIsMinimal(ca, subsumptionQueue, touched, trail, bwdsubAssigns, c, touched + VarSet(c), k);
      }
    }

    /** The tail of addClause_: store the clause, index it, and queue it for subsumption. */
    method StoreClause(c: seq<Lit>)
      requires DbOk() && InRange(c, |assigns|) && DistinctVars(c) && |c| >= 2 && VarSet(c) !! Gone()
      requires forall i :: 0 <= i < |c| ==> assigns[c[i].v] == LUndef
      modifies `ca, `occurs, `nOcc, `touched, `subsumptionQueue
      ensures DbOk() && ca == old(ca) + [ClauseRec(c, false, false)]
      ensures subsumptionQueue == old(subsumptionQueue) + [|old(ca)|] && touched == old(touched) + VarSet(c)
      ensures forall a :: DbSat(a, ca, trail) <==> DbSat(a, old(ca), trail) && Satisfies(a, c)
      ensures (forall v :: Mentions(c, v) ==> v in Waiters()) ==> Requeued(old(ca), Waiters(), ca, Waiters())
      ensures forall g, k :: old(Tidy(g, k)) && (g == -1 || |c| < g) ==> Tidy(g, k)
    {
      hide IndexOk, RootOk, Free, DbSat, Counted, Pushed, Requeued, Mentions, Waiters, Long, Minimal;
      var r := |ca|;
      StoreIsTidy(c);
      StoreKeepsIndex(ca, occurs, dirty, nOcc, |assigns|, c);
      IndexShape(ca, occurs, dirty, nOcc, |assigns|);
      StoreKeepsFree(ca, trail, Gone(), c);
      forall a { StoreMeaning(a, ca, trail, c); }
      if forall v :: Mentions(c, v) ==> v in Waiters() { StoredIsRequeued(ca, c, Waiters(), Waiters()); }
      ca, subsumptionQueue := ca + [ClauseRec(c, false, false)], subsumptionQueue + [r];
      IndexClause(c, r);
    }

    /** updateElimHeap: a candidate whose cost changed is looked at again. */
    method UpdateElimHeap(v: Var)
      requires v < |assigns| == |frozen| == |eliminated|
      modifies `elimHeap
      ensures v in Waiters() && old(Waiters()) <= Waiters()
      ensures elimHeap == old(elimHeap) + if frozen[v] || eliminated[v] || assigns[v] != LUndef then {} else {v}
    {
      if v in elimHeap || (!frozen[v] && !eliminated[v] && assigns[v] == LUndef) {
        elimHeap := elimHeap + {v};
      }
    }

    method UnindexClause(c: seq<Lit>)
      requires DistinctVars(c) && forall p :: p in c ==> p in nOcc
      requires InRange(c, |assigns|) && |assigns| == |frozen| == |eliminated|
      modifies `nOcc, `dirty, `elimHeap
      ensures nOcc == Counted(old(nOcc), c, -1) && dirty == old(dirty) + VarSet(c)
      ensures forall v :: v in elimHeap <==> v in old(elimHeap) || (v in VarSet(c) && Candidate(v))
    {
      hide Counted;
      CountedNone(nOcc, -1);
      var i := 0;
      while i < |c|
        invariant 0 <= i <= |c|
        invariant nOcc == Counted(old(nOcc), c[..i], -1) && dirty == old(dirty) + VarSet(c[..i])
        invariant forall v :: v in elimHeap <==> v in old(elimHeap) || (v in VarSet(c[..i]) && Candidate(v))
      {
        CountNext(old(nOcc), c, i, -1);
        VarSetAppend(c[..i], c[i]);
        assert c[..i + 1] == c[..i] + [c[i]];
        nOcc := nOcc[c[i] := nOcc[c[i]] - 1];
        UpdateElimHeap(c[i].v);
        dirty := dirty + {c[i].v};
        i := i + 1;
      }
      assert c[..i] == c;
    }

    /** What the database without clause r looks like. */
    lemma RemovalIsSafe(r: CRef)
      requires DbOk() && Live(ca, r)
      ensures DistinctVars(ca[r].lits) && InRange(ca[r].lits, |assigns|) && forall p :: p in ca[r].lits ==> p in nOcc
      ensures IndexOk(Removed(ca, r), occurs, dirty + VarSet(ca[r].lits), Counted(nOcc, ca[r].lits, -1), |assigns|)
      ensures Free(Removed(ca, r), trail, Gone()) && |Removed(ca, r)| == |ca|
      ensures forall a :: DbSat(a, ca, trail) <==> DbSat(a, Removed(ca, r), trail) && Satisfies(a, ca[r].lits)
      ensures forall g, k :: Tidy(g, k) ==>
        Long(Removed(ca, r), g) <= k && Minimal(Removed(ca, r), subsumptionQueue, touched, trail, bwdsubAssigns, k)
    {
      hide Minimal, IndexOk, RootOk, Free, DbSat, Counted;
      RemoveKeepsIndex(ca, occurs, dirty, nOcc, |assigns|, r);
      IndexShape(ca, occurs, dirty, nOcc, |assigns|);
      RemoveKeepsFree(ca, trail, Gone(), r);
      forall a { RemoveMeaning(a, ca, trail, r); }
      forall g, k | Tidy(g, k)
        ensures Long(Removed(ca, r), g) <= k
        ensures Minimal(Removed(ca, r), subsumptionQueue, touched, trail, bwdsubAssigns, k)
      {
        RemovedIsMinimal(ca, r, subsumptionQueue, touched, trail, bwdsubAssigns, k);
        RemovedShrinks(ca, r, subsumptionQueue);
        LongShrinks(ca, Removed(ca, r), subsumptionQueue, subsumptionQueue, g);
      }
    }

    static lemma VarsAreMentioned(c: seq<Lit>)
      ensures forall v :: v in VarSet(c) <==> Mentions(c, v)
    {
    }

    method RemoveClause(r: CRef)
      requires DbOk() && Live(ca, r)
      modifies `ca, `nOcc, `dirty, `elimHeap
      ensures DbOk() && ca == Removed(old(ca), r)
      ensures forall a :: DbSat(a, old(ca), trail) <==> DbSat(a, ca, trail) && Satisfies(a, ca[r].lits)
      ensures forall g, k :: old(Tidy(g, k)) ==> Tidy(g, k)
      ensures old(Waiters()) <= Waiters() && forall v :: Mentions(ca[r].lits, v) ==> v in Waiters()
      ensures Requeued(old(ca), old(Waiters()), ca, Waiters())
    {
      hide Minimal, IndexOk, RootOk, Free, DbSat, Counted, Satisfies, DistinctVars, Mentions, Requeued, VarSet;
      RemovalIsSafe(r);
      UnindexClause(ca[r].lits);
      VarsAreMentioned(ca[r].lits);
      RemovedIsRequeued(ca, r, old(Waiters()), Waiters());
      ca := Removed(ca, r);
    }

    // ---------- unit propagation ----------

    /** k >= 0: unit with c[k] unassigned; -1: false; -2: neither. */
    method ScanClause(as0: seq<LBool>, c: seq<Lit>) returns (k: int)
      requires InRange(c, |as0|)
      ensures -2 <= k < |c| && (k >= -1 ==> UnitOn(as0, c, k))
      ensures (k >= 0 ==> as0[c[k].v] == LUndef) && (k == -2 ==> Inert(as0, c))
    {
      k := -1;
      var i := 0;
      while i < |c|
        invariant 0 <= i <= |c| && -1 <= k < i
        invariant forall x :: 0 <= x < i && x != k ==> Value(as0, c[x]) == LFalse
        invariant k >= 0 ==> as0[c[k].v] == LUndef
      {
        if Value(as0, c[i]) != LFalse {
          if k != -1 || Value(as0, c[i]) == LTrue {
            if Value(as0, c[i]) != LTrue { assert 0 <= k < i && as0[c[i].v] == LUndef; }
            return -2;
          }
          k := i;
        }
        i := i + 1;
      }
    }

    /** Naive unit propagation over the live clauses, from the given assignment. */
    method UnitPropagate(as0: seq<LBool>, trail0: seq<Lit>) returns (as1: seq<LBool>, trail1: seq<Lit>, conflict: bool)
      requires ShapeOk(ca, |as0|) && RootOk(as0, trail0)
      ensures |as1| == |as0| && PropagatedFrom(ca, trail0, as1, trail1)
      ensures if conflict then forall a :: !(LiveHold(a, ca) && TrailHolds(a, trail0)) else AllInert(ca, as1)
      ensures conflict <==> Conflicts(ca, LitSet(trail0))
      ensures !conflict ==> IsClosure(ca, LitSet(trail0), LitSet(trail1))
    {
      StartPropagation(ca, as0, trail0);
      hide *;
      as1, trail1, conflict := as0, trail0, false;
      var changed := true;
      while changed && !conflict
        invariant |as1| == |as0| && PropagatedFrom(ca, trail0, as1, trail1) && |trail1| <= |as1|
        invariant conflict ==> Refutation(ca, trail0)
        invariant !changed && !conflict ==> AllInert(ca, as1)
        decreases |as0| - |trail1|, changed
      {
        as1, trail1, changed, conflict := PropagateRound(as1, trail1, trail0);
      }
      if conflict { RefutationMeans(ca, trail0); } else { PropagatedIsClosure(ca, trail0, as1, trail1); }
    }

    /** One pass over all clauses. */
    method PropagateRound(as0: seq<LBool>, trail0: seq<Lit>, ghost base: seq<Lit>)
        returns (as1: seq<LBool>, trail1: seq<Lit>, changed: bool, conflict: bool)
      requires ShapeOk(ca, |as0|) && PropagatedFrom(ca, base, as0, trail0) && |trail0| <= |as0|
      ensures |as1| == |as0| && PropagatedFrom(ca, base, as1, trail1) && |trail0| <= |trail1| <= |as1|
      ensures conflict ==> Refutation(ca, base)
      ensures if changed then |trail0| < |trail1| else conflict || AllInert(ca, as1)
    {
      hide PropagatedFrom, UnitOn, Inert, Refutation;
      as1, trail1, changed, conflict := as0, trail0, false, false;
      var r := 0;
      while r < |ca| && !conflict
        invariant 0 <= r <= |ca| && |as1| == |as0| && PropagatedFrom(ca, base, as1, trail1)
        invariant |trail0| <= |trail1| <= |as1| && (changed ==> |trail0| < |trail1|)
        invariant conflict ==> Refutation(ca, base)
        invariant !changed && !conflict ==> forall x :: 0 <= x < r && !ca[x].deleted ==> Inert(as1, ca[x].lits)
      {
        if !ca[r].deleted {
          var c := ca[r].lits;
          var k := ScanClause(as1, c);
          if k == -1 {
            PropagateConflict(ca, base, as1, trail1, r);
            conflict := true;
          } else if k >= 0 {
            PropagateOne(ca, base, as1, trail1, r, k);
            as1, trail1, changed := as1[c[k].v := Polarity(c[k])], trail1 + [c[k]], true;
          }
        }
        r := r + 1;
      }
    }

    /** Propagation at the root. */
    method Propagate() returns (b: bool)
      requires DbOk()
      modifies `assigns, `trail
      ensures DbOk() && |assigns| == |old(assigns)| && old(trail) <= trail
      ensures forall a :: DbSat(a, ca, trail) <==> DbSat(a, ca, old(trail))
      ensures if b then AllInert(ca, assigns) else forall a :: !DbSat(a, ca, trail)
      ensures b <==> !Conflicts(ca, LitSet(old(trail)))
      ensures b ==> IsClosure(ca, LitSet(old(trail)), LitSet(trail))
      ensures forall g, k :: old(Tidy(g, k)) ==> Tidy(g, k)
      ensures old(Waiters()) <= Waiters()
    {
      hide Minimal, OccsOk, CountsOk, RootOk, Free, PropagatedFrom, LiveHold, AllInert, Conflicts, IsClosure;
      var as1, trail1, conflict := UnitPropagate(assigns, trail);
      PropagatedMeaning(ca, trail, as1, trail1);
      PropagatedKeepsFree(ca, trail, as1, trail1, Gone());
      forall k | Minimal(ca, subsumptionQueue, touched, trail, bwdsubAssigns, k)
        ensures Minimal(ca, subsumptionQueue, touched, trail1, bwdsubAssigns, k)
      {
        GrownIsMinimal(ca, subsumptionQueue, touched, trail, trail1, bwdsubAssigns, k);
      }
      RootGrows(assigns, trail, as1, trail1);
      assigns, trail := as1, trail1;
      b := !conflict;
    }

    method EnqueueRoot(p: Lit)
      requires DbOk() && p.v < |assigns| && assigns[p.v] == LUndef && p.v !in Gone()
      modifies `assigns, `trail
      ensures DbOk() && trail == old(trail) + [p] && |assigns| == |old(assigns)|
      ensures forall a :: DbSat(a, ca, trail) <==> DbSat(a, ca, old(trail)) && Holds(a, p)
      ensures old(Waiters()) <= Waiters()
      ensures forall g, k :: old(Tidy(g, k)) ==> Tidy(g, k)
    {
      hide IndexOk, RootOk, LiveHold, TrailHolds, Minimal, Long;
      forall k | Minimal(ca, subsumptionQueue, touched, trail, bwdsubAssigns, k)
        ensures Minimal(ca, subsumptionQueue, touched, trail + [p], bwdsubAssigns, k)
      {
        GrownIsMinimal(ca, subsumptionQueue, touched, trail, trail + [p], bwdsubAssigns, k);
      }
      RootEnqueue(assigns, trail, p);
      forall a { EnqueueMeaning(a, trail, p); }
      assigns, trail := assigns[p.v := Polarity(p)], trail + [p];
    }

    static lemma OutMentions(ps: seq<Lit>, out: seq<Lit>)
      requires forall p :: p in out ==> p in ps
      ensures forall v :: Mentions(out, v) ==> Mentions(ps, v)
    {
      forall v | Mentions(out, v) ensures Mentions(ps, v) {
        var k :| 0 <= k < |out| && out[k].v == v;
        assert out[k] in ps;
      }
    }

    /** addClause_ with indexes: what remains of the clause is stored, or enqueued and propagated. */
    method AddToDb(ps: seq<Lit>) returns (b: bool)
      requires DbOk() && InRange(ps, |assigns|) && VarSet(ps) !! Gone()
      modifies `ca, `occurs, `nOcc, `touched, `subsumptionQueue, `assigns, `trail
      ensures DbOk() && |assigns| == |old(assigns)| && old(trail) <= trail && old(ca) <= ca
      ensures forall g, k :: old(Tidy(g, k)) && (g == -1 || |ps| < g) ==> Tidy(g, k)
      ensures b ==> forall a :: DbSat(a, ca, trail) <==> DbSat(a, old(ca), old(trail)) && Satisfies(a, ps)
      ensures !b ==> forall a :: !(DbSat(a, old(ca), old(trail)) && Satisfies(a, ps))
      ensures old(Waiters()) <= Waiters()
      ensures (forall v :: Mentions(ps, v) ==> v in old(Waiters())) ==> Requeued(old(ca), old(Waiters()), ca, Waiters())
      ensures AddingClauses.TriviallyTrue(old(assigns), ps) ==> b && ca == old(ca) && trail == old(trail)
      ensures !AddingClauses.TriviallyTrue(old(assigns), ps) ==>
        var left, base := AddingClauses.OpenLits(old(assigns), ps), LitSet(old(trail));
        && (left == {} ==> !b)
        && (|left| == 1 ==> ca == old(ca) && (b <==> !Conflicts(ca, base + left)))
        && (|left| == 1 && b ==> IsClosure(ca, base + left, LitSet(trail)))
        && (|left| > 1 ==> b && trail == old(trail))
        && (|left| > 1 ==> exists c :: ca == old(ca) + [ClauseRec(c, false, false)] && LitSet(c) == left)
    {
      hide IndexOk, RootOk, LiveHold, TrailHolds, Free, Satisfies, Requeued, Mentions, Waiters, Tidy, IsClosure;
      hide Conflicts;
      NothingLost(ca, Waiters(), Waiters());
      var trivial, out := AddingClauses.SimplifyClause(assigns, ps);
      if trivial {
        TrivialHolds(assigns, trail, ps);
        return true;
      }
      OutMentions(ps, out);
      AddingClauses.OutIsOpen(assigns, ps, out);
      OutMeaning(assigns, trail, ps, out);
      EmptyMeaning();
      if |out| == 0 { return false; }
      if |out| == 1 {
        UnitMeaning(out);
        assert out[0].v in VarSet(out);
        EnqueueRoot(out[0]);
        assert LitSet(trail) == LitSet(old(trail)) + {out[0]};
        b := Propagate();
        NothingLost(ca, old(Waiters()), Waiters());
      } else {
        SubclauseIsShorter(ps, out);
        StoreClause(out);
        b := true;
      }
    }

    // ---------- strengthening and subsumption ----------

    /** Literal l is superfluous in clause r: every model of the database satisfies some other literal. */
    ghost predicate Superfluous(r: CRef, l: Lit)
      reads this
    {
      && Live(ca, r) && l in ca[r].lits
      && forall a :: DbSat(a, ca, trail) ==> exists q :: q in ca[r].lits && q != l && Holds(a, q)
    }

    ghost function Size(): nat
      reads `ca
    {
      LiveLits(ca)
    }

    /** Remove a superfluous literal; a binary clause becomes a root literal. */
    method StrengthenClause(r: CRef, l: Lit) returns (b: bool)
      requires DbOk() && Superfluous(r, l)
      modifies `ca, `occurs, `nOcc, `dirty, `elimHeap, `subsumptionQueue, `assigns, `trail
      ensures DbOk() && Size() < old(Size()) && |assigns| == |old(assigns)| && old(trail) <= trail
      ensures Lost(old(ca), ca, r, l) && ListsKept(old(occurs), occurs, r, l.v)
      ensures subsumptionQueue == old(subsumptionQueue) + [r]
      ensures b ==> forall a :: DbSat(a, ca, trail) <==> DbSat(a, old(ca), old(trail))
      ensures !b ==> forall a :: !DbSat(a, old(ca), old(trail))
      ensures Requeued(old(ca), old(Waiters()), ca, Waiters())
    {
      hide IndexOk, RootOk, DbSat, Free, Requeued, Waiters;
      IndexShape(ca, occurs, dirty, nOcc, |assigns|);
      subsumptionQueue := subsumptionQueue + [r];
      if |ca[r].lits| == 2 {
        b := StrengthenBinary(r, l);
      } else {
        ShortenLong(r, l);
        b := true;
      }
    }

    method ShortenLong(r: CRef, l: Lit)
      requires DbOk() && Superfluous(r, l) && |ca[r].lits| > 2
      modifies `ca, `occurs, `nOcc, `elimHeap
      ensures DbOk() && Size() < old(Size()) && ca == Shortened(old(ca), r, l) && ListsKept(old(occurs), occurs, r, l.v)
      ensures forall a :: DbSat(a, ca, trail) <==> DbSat(a, old(ca), trail)
      ensures Requeued(old(ca), old(Waiters()), ca, Waiters())
    {
      hide IndexOk, RootOk, DbSat, Free, Requeued, Waiters;
      IndexShape(ca, occurs, dirty, nOcc, |assigns|);
      ShortenKeepsIndex(ca, occurs, dirty, nOcc, |assigns|, r, l);
      ShortenKeepsFree(ca, trail, Gone(), r, l);
      ShorteningShrinks(ca, r, l);
      forall a { ShortenMeaning(a, ca, trail, r, l); }
      ca, occurs := Shortened(ca, r, l), occurs[l.v := Without(occurs[l.v], r)];
      nOcc := nOcc[l := nOcc[l] - 1];
      UpdateElimHeap(l.v);
      ShortenedIsRequeued(old(ca), r, l, old(Waiters()), Waiters());
    }

    /** removeClause and strengthen: the clause is gone, and its other literal q is what it said. */
    method DropBinary(r: CRef, l: Lit) returns (q: Lit)
      requires DbOk() && Superfluous(r, l) && |ca[r].lits| == 2
      modifies `ca, `nOcc, `dirty, `elimHeap
      ensures DbOk() && Size() < old(Size()) && q.v < |assigns| && q.v !in Gone()
      ensures Lost(old(ca), ca, r, l) && ca[r].deleted
      ensures forall a :: DbSat(a, ca, trail) && Holds(a, q) <==> DbSat(a, old(ca), trail)
      ensures Requeued(old(ca), old(Waiters()), ca, Waiters())
    {
      hide IndexOk, RootOk, DbSat, Free, Requeued, Mentions, Waiters;
      IndexShape(ca, occurs, dirty, nOcc, |assigns|);
      var c := ca[r].lits;
      BinaryRest(c, l);
      RemovalShrinks(ca, r);
      q := Without(c, l)[0];
      RestIsForced(ca, trail, r, l, q);
      RestIsFree(ca, trail, Gone(), r, q, |assigns|);
      RemoveClause(r);
      ghost var ca1, w := ca, Waiters();
      StrengthenDead(r, l);
      RequeuedTwice(old(ca), old(Waiters()), ca1, w, ca, Waiters());
    }

    /** strengthen on a clause that is removed already. */
    method StrengthenDead(r: CRef, l: Lit)
      requires DbOk() && 0 <= r < |ca| && ca[r].deleted && l in ca[r].lits
      modifies `ca
      ensures DbOk() && ca == Shortened(old(ca), r, l) && Size() == old(Size())
      ensures forall a :: DbSat(a, ca, trail) <==> DbSat(a, old(ca), trail)
      ensures Requeued(old(ca), Waiters(), ca, Waiters())
    {
      hide IndexOk, RootOk, DbSat, Free, Requeued, Mentions, Waiters;
      IndexShape(ca, occurs, dirty, nOcc, |assigns|);
      DeadShortenKeepsIndex(ca, occurs, dirty, nOcc, |assigns|, r, l);
      ShortenKeepsFree(ca, trail, Gone(), r, l);
      ShorteningShrinks(ca, r, l);
      forall a { DeadShortenMeaning(a, ca, trail, r, l); }
      WithoutLits(ca[r].lits, l);
      DeadIsRequeued(ca, r, l, Waiters());
      ca := Shortened(ca, r, l);
    }

    method StrengthenBinary(r: CRef, l: Lit) returns (b: bool)
      requires DbOk() && Superfluous(r, l) && |ca[r].lits| == 2
      modifies `ca, `nOcc, `dirty, `elimHeap, `assigns, `trail
      ensures DbOk() && Size() < old(Size()) && |assigns| == |old(assigns)| && old(trail) <= trail
      ensures Lost(old(ca), ca, r, l) && ca[r].deleted
      ensures b ==> forall a :: DbSat(a, ca, trail) <==> DbSat(a, old(ca), old(trail))
      ensures !b ==> forall a :: !DbSat(a, old(ca), old(trail))
      ensures Requeued(old(ca), old(Waiters()), ca, Waiters())
    {
      hide IndexOk, RootOk, DbSat, Free, Requeued, Waiters;
      var q := DropBinary(r, l);
      RootValueMeaning(assigns, trail, q);
      ghost var w := Waiters();
      var v := Value(assigns, q);
      if v == LFalse {
        b := false;
      } else {
        if v == LUndef { EnqueueRoot(q); }
        b := Propagate();
        RequeuedMore(old(ca), old(Waiters()), ca, w, Waiters());
      }
    }

    /** c is the live clause r, or the unit clause of a root literal (r is then CREF_UNDEF). */
    ghost predicate Subsuming(c: seq<Lit>, r: CRef)
      reads this
    {
      && |c| > 0 && DistinctVars(c) && InRange(c, |assigns|)
      && if r == CREF_UNDEF then |c| == 1 && c[0] in trail else Live(ca, r) && ca[r].lits == c
    }

    /** Use c on clause s: remove s if c subsumes it, or strengthen it. hit tells which literal of c was flipped. */
    method TrySubsume(c: seq<Lit>, r: CRef, s: CRef) returns (b: bool, hit: Answer)
      requires DbOk() && Subsuming(c, r) && Live(ca, s) && s != r
      modifies `ca, `occurs, `nOcc, `dirty, `elimHeap, `subsumptionQueue, `assigns, `trail
      ensures DbOk() && |assigns| == |old(assigns)| && old(trail) <= trail
      ensures b ==> Subsuming(c, r) && forall a :: DbSat(a, ca, trail) <==> DbSat(a, old(ca), old(trail))
      ensures !b ==> forall a :: !DbSat(a, old(ca), old(trail))
      ensures if hit == Neither then b && unchanged(this) else Size() < old(Size())
      ensures Right(c, old(ca)[s].lits, hit)
      ensures Used(old(ca), ca, old(subsumptionQueue), subsumptionQueue, old(occurs), occurs, c, s, hit)
      ensures Requeued(old(ca), old(Waiters()), ca, Waiters())
    {
      hide IndexOk, RootOk, DbSat, Free, Right, Lost, ListsKept, Used, Requeued, Waiters;
      NothingLost(ca, Waiters(), Waiters());
      IndexShape(ca, occurs, dirty, nOcc, |assigns|);
      var d := ca[s].lits;
      forall a { SubsumerHolds(a, ca, trail, c, r); }
      hit := Subsumes(c, d);
      b := true;
      if hit == Subsumed {
        RemovalShrinks(ca, s);
        forall a { SubsumedMeaning(a, ca, trail, c, r, s); }
        UsedToRemove(ca, subsumptionQueue, occurs, c, s);
        RemoveClause(s);
      } else if hit.Strengthens? {
        forall a { StrengthenedMeaning(a, ca, trail, c, d, hit.p); }
        FlippedIsThere(c, d, hit.p);
        b := StrengthenClause(s, Neg(hit.p));
        PrefixMember(old(trail), trail, c[0]);
        UsedToStrengthen(old(ca), ca, old(subsumptionQueue), old(occurs), occurs, c, s, hit.p);
        LostOthers(old(ca), ca, s, Neg(hit.p));
      } else {
        UsedNot(ca, subsumptionQueue, occurs, c, s);
      }
    }

    /** The variable of c with the shortest occurrence list. */
    method BestVar(c: seq<Lit>) returns (best: Var)
      requires |c| > 0 && InRange(c, |occurs|)
      ensures Mentions(c, best) && best < |occurs|
      ensures forall i :: 0 <= i < |c| ==> |occurs[best]| <= |occurs[c[i].v]|
    {
      best := c[0].v;
      var i := 1;
      while i < |c|
        invariant 1 <= i <= |c| && Mentions(c, best) && best < |occurs|
        invariant forall x :: 0 <= x < i ==> |occurs[best]| <= |occurs[c[x].v]|
      {
        if |occurs[c[i].v]| < |occurs[best]| { best := c[i].v; }
        i := i + 1;
      }
    }

    ghost predicate OccInRange(v: Var)
      reads this
    {
      v < |occurs| && forall j :: 0 <= j < |occurs[v]| ==>
        0 <= occurs[v][j] < |ca| && (!ca[occurs[v][j]].deleted ==> Mentions(ca[occurs[v][j]].lits, v))
    }

    lemma OccursInRange(v: Var)
      requires DbOk() && v < |assigns|
      ensures OccInRange(v)
    {
      assert OccListOk(ca, occurs[v], v, v in dirty);
      forall j | 0 <= j < |occurs[v]|
        ensures 0 <= occurs[v][j] < |ca| && (!ca[occurs[v][j]].deleted ==> Mentions(ca[occurs[v][j]].lits, v))
      {
        assert occurs[v][j] in occurs[v];
      }
    }

    /** The database has the models it had. */
    ghost predicate Same(ca0: seq<ClauseRec>, trail0: seq<Lit>)
      reads this
    {
      forall a :: DbSat(a, ca, trail) <==> DbSat(a, ca0, trail0)
    }

    /** One candidate of the list of best: skipped, or used. again tells to look at the same index once more. */
    method UseOn(c: seq<Lit>, r: CRef, lim: int, best: Var, j: nat, ghost done: set<CRef>,
                 ghost skip: set<CRef>)
        returns (b: bool, again: bool)
      requires DbOk() && Subsuming(c, r) && OccInRange(best) && best < |assigns| && j < |occurs[best]|
      requires Long(ca, lim) <= skip && Tried(ca, c, r, occurs[best], j, done, skip)
      modifies `ca, `occurs, `nOcc, `dirty, `elimHeap, `subsumptionQueue, `assigns, `trail
      ensures DbOk() && |assigns| == |old(assigns)| && old(trail) <= trail && best < |occurs|
      ensures b ==> Subsuming(c, r) && OccInRange(best) && Same(old(ca), old(trail))
      ensures !b ==> forall a :: !DbSat(a, old(ca), old(trail))
      ensures Shrunk(old(ca), ca, old(subsumptionQueue), subsumptionQueue)
      ensures Size() < old(Size()) || (b && !again && unchanged(this))
      ensures b ==> Tried(ca, c, r, occurs[best], if again then j else j + 1, done + {old(occurs)[best][j]}, skip)
      ensures Requeued(old(ca), old(Waiters()), ca, Waiters())
    {
      hide DbOk, DbSat, Right, Subsuming, Shrunk, Used, Tried, Requeued, Waiters;
      NothingLost(ca, Waiters(), Waiters());
      NotShrunk(ca, subsumptionQueue);
      var s := occurs[best][j];
      b, again := true, false;
      if !ca[s].deleted && s != r && (lim == -1 || |ca[s].lits| < lim) {
        var hit;
        b, hit := TrySubsume(c, r, s);
        UsedShrinks(old(ca), ca, old(subsumptionQueue), subsumptionQueue, old(occurs), occurs, c, s, hit);
        TriedUsed(old(ca), ca, old(subsumptionQueue), subsumptionQueue, old(occurs), occurs, c, r, best, j, done,
                  hit, skip);
        again := hit.Strengthens? && hit.p.v == best;
        OccursInRange(best);
      } else {
        TriedSkip(ca, c, r, occurs[best], j, done, skip);
      }
    }

    /** The cleaned list of the best variable holds the candidates. */
    method PickList(c: seq<Lit>, r: CRef) returns (best: Var)
      requires DbOk() && Subsuming(c, r)
      modifies `occurs, `dirty
      ensures DbOk() && Subsuming(c, r) && OccInRange(best) && Mentions(c, best)
      ensures best < |assigns| && best < |occurs| && NoRepeats(occurs[best])
    {
      assert |occurs| == |assigns|;
      best := BestVar(c);
      Lookup(best);
      OccursInRange(best);
    }

    /** Use c on all candidates; lim is the size limit, -1 for none. */
    method ScanCandidates(c: seq<Lit>, r: CRef, lim: int) returns (b: bool)
      requires DbOk() && Subsuming(c, r)
      modifies `ca, `occurs, `nOcc, `dirty, `elimHeap, `subsumptionQueue, `assigns, `trail
      ensures DbOk() && |assigns| == |old(assigns)| && old(trail) <= trail
      ensures b ==> Subsuming(c, r) && Same(old(ca), old(trail))
      ensures !b ==> forall a :: !DbSat(a, old(ca), old(trail))
      ensures Size() < old(Size()) ||
              (Size() == old(Size()) && trail == old(trail) && subsumptionQueue == old(subsumptionQueue) &&
               elimHeap == old(elimHeap))
      ensures Shrunk(old(ca), ca, old(subsumptionQueue), subsumptionQueue)
      ensures b ==> Exhausted(ca, c, r, Long(old(ca), lim))
      ensures Requeued(old(ca), old(Waiters()), ca, Waiters())
    {
      hide DbOk, DbSat, Right, Subsuming, Shrunk, Used, Tried, Exhausted, OccInRange, Size, NoRepeats, Mentions, Long;
      hide IndexOk, Requeued, Waiters;
      var best := PickList(c, r);
      var j := 0;
      ghost var done: set<CRef> := {};
      ghost var skip := Long(ca, lim);
      TriedNothing(ca, c, r, occurs[best], skip);
      NotShrunk(ca, subsumptionQueue);
      NothingLost(ca, Waiters(), Waiters());
      while j < |occurs[best]|
        invariant DbOk() && |assigns| == |old(assigns)| && old(trail) <= trail && Subsuming(c, r)
        invariant OccInRange(best) && best < |assigns| && best < |occurs| && Same(old(ca), old(trail))
        invariant Size() < old(Size()) ||
                  (Size() == old(Size()) && trail == old(trail) && subsumptionQueue == old(subsumptionQueue) &&
                   elimHeap == old(elimHeap))
        invariant Shrunk(old(ca), ca, old(subsumptionQueue), subsumptionQueue)
        invariant Requeued(old(ca), old(Waiters()), ca, Waiters())
        invariant j <= |occurs[best]| && Tried(ca, c, r, occurs[best], j, done, skip) && Long(ca, lim) <= skip
        decreases Size(), |occurs[best]| - j
      {
        ghost var before, queue, s, w := ca, subsumptionQueue, occurs[best][j], Waiters();
        var again;
        b, again := UseOn(c, r, lim, best, j, done, skip);
        ShrunkTwice(old(ca), before, ca, old(subsumptionQueue), queue, subsumptionQueue);
        RequeuedTwice(old(ca), old(Waiters()), before, w, ca, Waiters());
        if !b { return false; }
        done := done + {s};
        // a strengthened clause may have left the list: look at index j again
        if !again { j := j + 1; }
        TriedLength(ca, c, r, occurs[best], j, done, skip);
        LongShrinks(before, ca, queue, subsumptionQueue, lim);
      }
      CandidatesDone(c, r, best, done, skip);
      b := true;
    }

    lemma CandidatesDone(c: seq<Lit>, r: CRef, best: Var, done: set<CRef>, skip: set<CRef>)
      requires DbOk() && best < |assigns| && Mentions(c, best)
      requires Tried(ca, c, r, occurs[best], |occurs[best]|, done, skip)
      ensures Exhausted(ca, c, r, skip)
    {
      hide RootOk, Free, Right, Tried;
      assert OccListOk(ca, occurs[best], best, best in dirty);
      TriedAll(ca, c, r, occurs[best], done, best, best in dirty, skip);
    }

    /** The user may interrupt at any time. */
    method Poll()
      modifies `asynchInterrupt
      ensures old(asynchInterrupt) ==> asynchInterrupt
    {
      if * { asynchInterrupt := true; }
    }

    /** One clause of the queue, or one root literal as a unit clause, is used on all others. */
    method SubsumeNext(lim: int) returns (b: bool)
      requires DbOk() && (|subsumptionQueue| > 0 || bwdsubAssigns < |trail|)
      modifies `ca, `occurs, `nOcc, `dirty, `elimHeap, `subsumptionQueue, `assigns, `trail, `bwdsubAssigns
      ensures DbOk() && |assigns| == |old(assigns)| && old(trail) <= trail
      ensures Size() < old(Size()) || (Size() == old(Size()) && elimHeap == old(elimHeap)
        && |subsumptionQueue| + |trail| - bwdsubAssigns < old(|subsumptionQueue| + |trail| - bwdsubAssigns))
      ensures b ==> Same(old(ca), old(trail))
      ensures !b ==> forall a :: !DbSat(a, old(ca), old(trail))
      ensures b ==> forall k :: old(Tidy(lim, k)) ==> Tidy(lim, k)
      ensures Requeued(old(ca), old(Waiters()), ca, Waiters())
    {
      hide IndexOk, RootOk, Free, DbSat, Shrunk, Exhausted, Minimal, Requeued, Waiters, Long;
      NothingLost(ca, Waiters(), Waiters());
      if |subsumptionQueue| == 0 {
        var p := trail[bwdsubAssigns];
        RootLiteralSubsumes(p);
        bwdsubAssigns := bwdsubAssigns + 1;
        b := ScanCandidates([p], CREF_UNDEF, lim);
        if b {
          LongShrinks(old(ca), ca, [], subsumptionQueue, lim);
          forall k | old(Tidy(lim, k)) ensures Tidy(lim, k) {
            ExhaustedWithMore(ca, [p], CREF_UNDEF, Long(old(ca), lim), k);
            UnitTaken(old(ca), ca, subsumptionQueue, touched, old(trail), trail, old(bwdsubAssigns), k);
          }
        }
      } else {
        var r := subsumptionQueue[0];
        assert r in subsumptionQueue;
        QueueTail(subsumptionQueue);
        subsumptionQueue := subsumptionQueue[1..];
        NotShrunk(ca, subsumptionQueue);
        b := true;
        if !ca[r].deleted {
          LiveClauseSubsumes(r);
          b := ScanCandidates(ca[r].lits, r, lim);
        }
        if b {
          LongShrinks(old(ca), ca, old(subsumptionQueue)[1..], subsumptionQueue, lim);
          forall k | old(Tidy(lim, k)) ensures Tidy(lim, k) {
            if Live(ca, r) { ExhaustedWithMore(ca, ca[r].lits, r, Long(old(ca), lim), k); }
            ClauseTaken(old(ca), ca, old(subsumptionQueue), subsumptionQueue, touched, old(trail), trail,
                        bwdsubAssigns, k);
          }
        }
      }
    }

    /**
     * backwardSubsumptionCheck. Run to its end, it leaves no clause that another one subsumes or strengthens, but for
     * those that the size limit left out.
     */
    method BackwardSubsumptionCheck(lim: int) returns (b: bool)
      requires DbOk()
      modifies `ca, `occurs, `nOcc, `dirty, `elimHeap, `subsumptionQueue, `assigns, `trail, `bwdsubAssigns,
        `asynchInterrupt
      ensures DbOk() && |assigns| == |old(assigns)| && old(trail) <= trail && (old(asynchInterrupt) ==> asynchInterrupt)
      ensures Size() < old(Size()) || (Size() == old(Size()) && elimHeap == old(elimHeap))
      ensures b ==> forall a :: DbSat(a, ca, trail) <==> DbSat(a, old(ca), old(trail))
      ensures !b ==> forall a :: !DbSat(a, old(ca), old(trail))
      ensures b ==> subsumptionQueue == [] && bwdsubAssigns == |trail|
      ensures b && !asynchInterrupt ==> forall k :: old(Tidy(lim, k)) ==> Tidy(lim, k)
      ensures Requeued(old(ca), old(Waiters()), ca, Waiters())
    {
      hide IndexOk, RootOk, Free, DbSat, Minimal, Requeued, Waiters;
      NothingLost(ca, Waiters(), Waiters());
      while |subsumptionQueue| > 0 || bwdsubAssigns < |trail|
        invariant DbOk() && |assigns| == |old(assigns)| && old(trail) <= trail && Same(old(ca), old(trail))
        invariant old(asynchInterrupt) ==> asynchInterrupt
        invariant Size() < old(Size()) || (Size() == old(Size()) && elimHeap == old(elimHeap))
        invariant forall k :: old(Tidy(lim, k)) ==> Tidy(lim, k)
        invariant Requeued(old(ca), old(Waiters()), ca, Waiters())
        decreases Size(), |subsumptionQueue| + |trail| - bwdsubAssigns
      {
        Poll();
        if asynchInterrupt {
          subsumptionQueue, bwdsubAssigns := [], |trail|;
          return true;
        }
        ghost var ca0, w := ca, Waiters();
        b := SubsumeNext(lim);
        RequeuedTwice(old(ca), old(Waiters()), ca0, w, ca, Waiters());
        if !b { return false; }
      }
      b := true;
    }

    static lemma QueueTail(q: seq<CRef>)
      requires |q| > 0
      ensures forall r :: r in q[1..] ==> r in q
    {
    }

    lemma RootLiteralSubsumes(p: Lit)
      requires DbOk() && p in trail
      ensures Subsuming([p], CREF_UNDEF)
    {
    }

    lemma LiveClauseSubsumes(r: CRef)
      requires DbOk() && Live(ca, r)
      ensures Subsuming(ca[r].lits, r)
    {
    }

    // ---------- implied clauses and asymmetric branching ----------

    static lemma OneHolds(a: Model, c: seq<Lit>)
      requires exists q :: q in LitSet(c) && Holds(a, q)
      ensures Satisfies(a, c)
    {
    }

    /** Nothing to probe: c has a root literal that is true, or complementary literals. */
    ghost predicate Trivial(c: seq<Lit>)
      reads `assigns
    {
      exists p :: p in c && p.v < |assigns| && (Value(assigns, p) == LTrue || Neg(p) in c)
    }

    /** implied: does propagation refute the complement of c? A trivial clause is not probed. */
    method ImpliedByPropagation(c: seq<Lit>) returns (b: bool)
      requires DbOk() && InRange(c, |assigns|)
      ensures b ==> forall a :: DbSat(a, ca, trail) ==> Satisfies(a, c)
      ensures b <==> !Trivial(c) && Conflicts(ca, LitSet(trail) + Complements(LitSet(c)))
    {
      hide OccsOk, CountsOk, RootOk, Free, PropagatedFrom, LiveHold, TrailHolds, Satisfies, AllInert, Conflicts;
      hide IsClosure, Complements;
      var as1, trail1, i := assigns, trail, 0;
      while i < |c|
        invariant 0 <= i <= |c| && |as1| == |assigns| && RootOk(as1, trail1) && Probed(trail, trail1, LitSet(c))
        invariant forall x :: 0 <= x < i ==> Neg(c[x]) in trail1 && Value(as1, c[x]) == LFalse
        invariant forall v :: 0 <= v < |as1| && as1[v] != assigns[v] ==>
          assigns[v] == LUndef && exists p :: p in c && p.v == v && as1[v] == Polarity(Neg(p))
      {
        var val := Value(as1, c[i]);
        if val == LTrue {
          assert c[i] in c;
          return false;
        }
        if val == LFalse {
          FalseIsOnTrail(as1, trail1, c[i]);
        } else {
          RootEnqueue(as1, trail1, Neg(c[i]));
          assert c[i] in c;
          as1, trail1 := as1[c[i].v := Polarity(Neg(c[i]))], trail1 + [Neg(c[i])];
        }
        i := i + 1;
      }
      forall p | p in c ensures Neg(p) in trail1 && Value(as1, p) == LFalse { var x :| 0 <= x < |c| && c[x] == p; }
      ProbeBase(trail, trail1, LitSet(c));
      var as2, trail2, conflict := UnitPropagate(as1, trail1);
      if conflict {
        ProbeConflict(ca, trail, trail1, LitSet(c));
        forall a | exists q :: q in LitSet(c) && Holds(a, q) ensures Satisfies(a, c) { OneHolds(a, c); }
      }
      b := conflict;
    }

    /** The literals of c that asymmetric branching on v negates. */
    ghost function Branched(c: seq<Lit>, v: Var): set<Lit>
      requires InRange(c, |assigns|)
      reads `assigns
    {
      set i | 0 <= i < |c| && c[i].v != v && Value(assigns, c[i]) != LFalse :: c[i]
    }

    method SatisfiedAtRoot(c: seq<Lit>) returns (b: bool)
      requires InRange(c, |assigns|)
      ensures b <==> exists i :: 0 <= i < |c| && Value(assigns, c[i]) == LTrue
    {
      var i := 0;
      while i < |c|
        invariant 0 <= i <= |c| && forall x :: 0 <= x < i ==> Value(assigns, c[x]) != LTrue
      {
        if Value(assigns, c[i]) == LTrue { return true; }
        i := i + 1;
      }
      b := false;
    }

    /** Negate the literals of c but for v's and false ones; k is the index of the last one left out. */
    method Branch(v: Var, c: seq<Lit>) returns (as1: seq<LBool>, trail1: seq<Lit>, k: int)
      requires RootOk(assigns, trail) && InRange(c, |assigns|) && DistinctVars(c) && Mentions(c, v)
      requires forall i :: 0 <= i < |c| ==> Value(assigns, c[i]) != LTrue
      ensures |as1| == |assigns| && RootOk(as1, trail1) && Probed(trail, trail1, Branched(c, v))
      ensures 0 <= k < |c| && c[k] !in Branched(c, v) && forall p :: p in Branched(c, v) ==> Neg(p) in trail1
    {
      hide RootOk;
      as1, trail1, k := assigns, trail, -1;
      var i := 0;
      while i < |c|
        invariant 0 <= i <= |c| && |as1| == |assigns| && RootOk(as1, trail1) && Probed(trail, trail1, Branched(c, v))
        invariant forall x :: i <= x < |c| ==> as1[c[x].v] == assigns[c[x].v]
        invariant forall x :: 0 <= x < i && c[x].v != v && Value(assigns, c[x]) != LFalse ==> Neg(c[x]) in trail1
        invariant if k == -1 then forall x :: 0 <= x < i ==> c[x].v != v
                  else 0 <= k < i && (c[k].v == v || Value(assigns, c[k]) == LFalse)
      {
        if c[i].v != v && Value(as1, c[i]) != LFalse {
          RootEnqueue(as1, trail1, Neg(c[i]));
          as1, trail1 := as1[c[i].v := Polarity(Neg(c[i]))], trail1 + [Neg(c[i])];
        } else {
          k := i;
        }
        i := i + 1;
      }
    }

    /** Clause r is live, not satisfied, and propagation refutes that its branched literals are all false. */
    ghost predicate CanShorten(v: Var, r: CRef)
      requires 0 <= r < |ca| && InRange(ca[r].lits, |assigns|)
      reads `ca, `assigns, `trail
    {
      && !ca[r].deleted && (forall i :: 0 <= i < |ca[r].lits| ==> Value(assigns, ca[r].lits[i]) != LTrue)
      && Conflicts(ca, LitSet(trail) + Complements(Branched(ca[r].lits, v)))
    }

    /** asymm: if the branched literals of clause r cannot all be false, one of those left out is superfluous. */
    method Asymm(v: Var, r: CRef) returns (b: bool)
      requires DbOk() && v < |assigns| && 0 <= r < |ca| && (!ca[r].deleted ==> Mentions(ca[r].lits, v))
      modifies `ca, `occurs, `nOcc, `dirty, `elimHeap, `subsumptionQueue, `assigns, `trail
      ensures DbOk() && |assigns| == |old(assigns)| && old(trail) <= trail
      ensures b ==> forall a :: DbSat(a, ca, trail) <==> DbSat(a, old(ca), old(trail))
      ensures !b ==> forall a :: !DbSat(a, old(ca), old(trail))
      ensures if old(CanShorten(v, r)) then Size() < old(Size()) else b && unchanged(this)
      ensures forall g, k :: old(Tidy(g, k)) ==> Tidy(g, k)
      ensures Requeued(old(ca), old(Waiters()), ca, Waiters())
    {
      hide AllInert, Minimal, OccsOk, CountsOk, RootOk, Free, LiveHold, TrailHolds, PropagatedFrom, Conflicts;
      hide IsClosure, Complements, Requeued, Waiters;
      NothingLost(ca, Waiters(), Waiters());
      var c := ca[r].lits;
      if ca[r].deleted { return true; }
      var satisfied := SatisfiedAtRoot(c);
      if satisfied { return true; }
      var as1, trail1, k := Branch(v, c);
      ProbeBase(trail, trail1, Branched(c, v));
      var as2, trail2, conflict := UnitPropagate(as1, trail1);
      b := true;
      if conflict {
        ProbeConflict(ca, trail, trail1, Branched(c, v));
        hide DbOk;
        b := StrengthenClause(r, c[k]);
        LostIsTidy(old(ca), r, c[k], old(subsumptionQueue), old(trail));
      }
    }

    /** A clause that lost a literal is queued. */
    lemma LostIsTidy(ca0: seq<ClauseRec>, r: CRef, l: Lit, queue0: seq<CRef>, trail0: seq<Lit>)
      requires Lost(ca0, ca, r, l) && subsumptionQueue == queue0 + [r] && trail0 <= trail
      ensures forall g, k :: Long(ca0, g) <= k && Minimal(ca0, queue0, touched, trail0, bwdsubAssigns, k) ==> Tidy(g, k)
    {
      hide Minimal, Long, Lost;
      LostShrinks(ca0, ca, queue0, r, l);
      forall g, k | Long(ca0, g) <= k && Minimal(ca0, queue0, touched, trail0, bwdsubAssigns, k) ensures Tidy(g, k) {
        LongShrinks(ca0, ca, queue0, subsumptionQueue, g);
        LostIsMinimal(ca0, ca, r, l, queue0, touched, trail0, trail, bwdsubAssigns, k);
      }
    }

    /** Some live clause over v can be shortened. */
    ghost predicate AnyShortens(v: Var)
      reads `ca, `assigns, `trail
    {
      exists r :: Over(ca, v, r) && Shortens(v, r)
    }

    ghost predicate Shortens(v: Var, r: CRef)
      reads `ca, `assigns, `trail
    {
      0 <= r < |ca| && InRange(ca[r].lits, |assigns|) && CanShorten(v, r)
    }

    /** asymmVar: if any clause over v can be shortened, one is. */
    method AsymmVar(v: Var, lim: int) returns (b: bool)
      requires DbOk() && v < |assigns|
      modifies `ca, `occurs, `nOcc, `dirty, `elimHeap, `subsumptionQueue, `assigns, `trail, `bwdsubAssigns,
        `asynchInterrupt
      ensures DbOk() && |assigns| == |old(assigns)| && old(trail) <= trail && (old(asynchInterrupt) ==> asynchInterrupt)
      ensures Size() < old(Size()) || (Size() == old(Size()) && elimHeap == old(elimHeap))
      ensures b ==> old(bwdsubAssigns) == |old(trail)| ==> bwdsubAssigns == |trail|
      ensures b ==> forall a :: DbSat(a, ca, trail) <==> DbSat(a, old(ca), old(trail))
      ensures !b ==> forall a :: !DbSat(a, old(ca), old(trail))
      ensures b && !asynchInterrupt ==> forall k :: old(Tidy(lim, k)) ==> Tidy(lim, k)
      ensures b && old(subsumptionQueue) == [] ==> subsumptionQueue == []
      ensures old(assigns[v] == LUndef && AnyShortens(v)) ==> Size() < old(Size())
      ensures Requeued(old(ca), old(Waiters()), ca, Waiters())
    {
      hide *;
      NothingLost(ca, Waiters(), Waiters());
      LookupCandidates(v);
      if assigns[v] != LUndef || |occurs[v]| == 0 {
        NoOccurrence(v);
        return true;
      }
      b := AsymmAll(v);
      if !b { return false; }
      ghost var ca1, w := ca, Waiters();
      b := BackwardSubsumptionCheck(lim);
      RequeuedTwice(old(ca), old(Waiters()), ca1, w, ca, Waiters());
    }

    lemma NoOccurrence(v: Var)
      requires v < |occurs| && forall r :: r in occurs[v] <==> Over(ca, v, r)
      ensures |occurs[v]| == 0 ==> !AnyShortens(v)
    {
    }

    /** asymm for the list of v, which may shrink meanwhile. */
    method AsymmAll(v: Var) returns (b: bool)
      requires DbOk() && v < |assigns| && v < |occurs| && OccInRange(v)
      requires forall r :: r in occurs[v] <==> Over(ca, v, r)
      modifies `ca, `occurs, `nOcc, `dirty, `elimHeap, `subsumptionQueue, `assigns, `trail
      ensures DbOk() && |assigns| == |old(assigns)| && old(trail) <= trail
      ensures b ==> forall a :: DbSat(a, ca, trail) <==> DbSat(a, old(ca), old(trail))
      ensures !b ==> forall a :: !DbSat(a, old(ca), old(trail))
      ensures Size() < old(Size()) || (b && unchanged(this) && !old(AnyShortens(v)))
      ensures forall g, k :: old(Tidy(g, k)) ==> Tidy(g, k)
      ensures Requeued(old(ca), old(Waiters()), ca, Waiters())
    {
      hide *;
      NothingLost(ca, Waiters(), Waiters());
      var i := 0;
      while i < |occurs[v]|
        invariant 0 <= i && DbOk() && |assigns| == |old(assigns)| && old(trail) <= trail && OccInRange(v)
        invariant v < |occurs|
        invariant forall a :: DbSat(a, ca, trail) <==> DbSat(a, old(ca), old(trail))
        invariant Size() < old(Size()) ||
                  (unchanged(this) && i <= |occurs[v]| && forall j :: 0 <= j < i ==> !Shortens(v, occurs[v][j]))
        invariant forall g, k :: old(Tidy(g, k)) ==> Tidy(g, k)
        invariant Requeued(old(ca), old(Waiters()), ca, Waiters())
        decreases Size(), |occurs[v]| - i
      {
        ghost var ca1, w := ca, Waiters();
        b := AsymmAt(v, i);
        RequeuedTwice(old(ca), old(Waiters()), ca1, w, ca, Waiters());
        if !b { return false; }
        i := i + 1;
      }
      b := true;
      if unchanged(this) { NoneShortens(v); }
    }

    lemma NoneShortens(v: Var)
      requires v < |occurs| && forall r :: r in occurs[v] <==> Over(ca, v, r)
      requires forall j :: 0 <= j < |occurs[v]| ==> !Shortens(v, occurs[v][j])
      ensures !AnyShortens(v)
    {
      hide Over, Shortens;
      forall r | Over(ca, v, r) ensures !Shortens(v, r) {
        var j :| 0 <= j < |occurs[v]| && occurs[v][j] == r;
      }
    }

    /** asymm for the i-th clause of the list, which may leave the list. */
    method AsymmAt(v: Var, i: nat) returns (b: bool)
      requires DbOk() && v < |assigns| && v < |occurs| && i < |occurs[v]| && OccInRange(v)
      modifies `ca, `occurs, `nOcc, `dirty, `elimHeap, `subsumptionQueue, `assigns, `trail
      ensures DbOk() && |assigns| == |old(assigns)| && old(trail) <= trail && OccInRange(v) && v < |occurs|
      ensures b ==> forall a :: DbSat(a, ca, trail) <==> DbSat(a, old(ca), old(trail))
      ensures !b ==> forall a :: !DbSat(a, old(ca), old(trail))
      ensures Size() < old(Size()) || (b && unchanged(this))
      ensures forall g, k :: old(Tidy(g, k)) ==> Tidy(g, k)
      ensures Requeued(old(ca), old(Waiters()), ca, Waiters())
      ensures old(Shortens(v, occurs[v][i])) ==> Size() < old(Size())
    {
      hide Tidy, DbSat, CanShorten, Size, Requeued, Waiters, IndexOk, RootOk, Free;
      b := Asymm(v, occurs[v][i]);
      OccursInRange(v);
    }

    /** The cleaned list of v. */
    method LookupCandidates(v: Var)
      requires DbOk() && v < |assigns|
      modifies `occurs, `dirty
      ensures DbOk() && OccInRange(v) && v < |occurs|
      ensures forall r :: r in occurs[v] <==> Over(ca, v, r)
    {
      Lookup(v);
      OccursInRange(v);
    }

    // ---------- variable elimination ----------

    /** The formula, the elimination stack and the database belong together. */
    ghost predicate ElimInv()
      reads this
    {
      ElimOk(formula, ca, trail, |assigns|, Gone(), recs, elimclauses)
    }

    method SplitOccurrences(v: Var) returns (cls: seq<CRef>, pos: seq<CRef>, neg: seq<CRef>)
      requires DbOk() && v < |assigns|
      modifies `occurs, `dirty
      ensures DbOk() && Split(ca, v, cls, pos, neg)
    {
      Lookup(v);
      DistinctEverywhere();
      cls, pos, neg := occurs[v], [], [];
      SplitNothing(ca, v, cls);
      hide *;
      var j := 0;
      while j < |cls|
        invariant 0 <= j <= |cls| && SplitSoFar(ca, v, cls, j, pos, neg) && DbOk()
      {
        var r := cls[j];
        assert r in cls;
        AreLive(ca, cls, v);
        SplitOne(ca, v, cls, j, pos, neg);
        if Lit(v, false) in ca[r].lits { pos := pos + [r]; } else { neg := neg + [r]; }
        j := j + 1;
      }
      MakeSplit(ca, v, cls, pos, neg);
    }

    lemma DistinctEverywhere()
      requires DbOk()
      ensures |occurs| == |assigns| && forall r :: 0 <= r < |ca| ==> DistinctVars(ca[r].lits)
    {
      hide RootOk, Free;
      IndexShape(ca, occurs, dirty, nOcc, |assigns|);
    }

    static lemma AreLive(ca: seq<ClauseRec>, cls: seq<CRef>, v: Var)
      requires forall r :: r in cls <==> Live(ca, r) && Mentions(ca[r].lits, v)
      ensures forall r :: r in cls ==> 0 <= r < |ca| && Live(ca, r)
    {
    }

    /** Push the clauses of one side, and on top the value that satisfies the other side. */
    method StoreSide(p: Lit, cs: seq<seq<Lit>>) returns (ghost block: seq<seq<Lit>>)
      requires elimclauses == Flat(recs) && AllHave(cs, p)
      modifies `elimclauses, `recs
      ensures IsBlock(block, cs, p) && |block| == |cs| + 1 && recs == old(recs) + block && elimclauses == Flat(recs)
      ensures old(DbOk()) ==> DbOk()
    {
      hide Flat, DistinctVars, Ints, Fronted;
      block := [];
      var i := 0;
      while i < |cs|
        invariant 0 <= i <= |cs| && |block| == i && recs == old(recs) + block && elimclauses == Flat(recs)
        invariant forall x :: 0 <= x < i ==> |block[x]| > 0 && block[x][0] == p && multiset(block[x]) == multiset(cs[x])
      {
        var c := cs[i];
        FindMention(c, p);
        ghost var below := elimclauses;
        elimclauses := MkElimClause(elimclauses, p.v, c);
        ghost var k :| 0 <= k < |c| && c[k].v == p.v && elimclauses == below + Ints(Fronted(c, k)) + [|c|];
        FrontedIsPermutation(c, k);
        ghost var entry := Fronted(c, k);
        FlatAppend(recs, entry);
        block, recs := block + [entry], recs + [entry];
        i := i + 1;
      }
      elimclauses := MkElimUnit(elimclauses, Neg(p));
      FlatAppend(recs, [Neg(p)]);
      block, recs := block + [[Neg(p)]], recs + [[Neg(p)]];
    }

    static lemma FindMention(c: seq<Lit>, p: Lit)
      requires p in c && DistinctVars(c)
      ensures Mentions(c, p.v) && forall k :: 0 <= k < |c| && c[k].v == p.v ==> c[k] == p
    {
      var x :| 0 <= x < |c| && c[x] == p;
    }

    method RemoveAll(cls: seq<CRef>)
      requires DbOk() && NoRepeats(cls) && forall i :: 0 <= i < |cls| ==> Live(ca, cls[i])
      modifies `ca, `nOcc, `dirty, `elimHeap
      ensures DbOk() && WithoutClauses(old(ca), ca, cls)
      ensures RefsOk(old(ca), cls) && forall a :: DbSat(a, old(ca), trail) <==>
        DbSat(a, ca, trail) && AllHold(a, Lits(old(ca), cls))
      ensures forall g, k :: old(Tidy(g, k)) ==> Tidy(g, k)
      ensures old(Waiters()) <= Waiters()
      ensures forall i, v :: 0 <= i < |cls| && Mentions(old(ca)[cls[i]].lits, v) ==> v in Waiters()
      ensures Requeued(old(ca), old(Waiters()), ca, Waiters())
    {
      hide Tidy, DbOk, DbSat, Satisfies, Requeued, Waiters, Mentions;
      NothingLost(ca, Waiters(), Waiters());
      var i := 0;
      while i < |cls|
        invariant 0 <= i <= |cls| && DbOk() && |ca| == |old(ca)|
        invariant forall g, k :: old(Tidy(g, k)) ==> Tidy(g, k)
        invariant old(Waiters()) <= Waiters() && Requeued(old(ca), old(Waiters()), ca, Waiters())
        invariant forall x, v :: 0 <= x < i && Mentions(ca[cls[x]].lits, v) ==> v in Waiters()
        invariant forall r :: 0 <= r < |ca| ==>
          ca[r].lits == old(ca)[r].lits && (ca[r].deleted <==> old(ca)[r].deleted || r in cls[..i])
        invariant forall a :: DbSat(a, old(ca), trail) <==>
          DbSat(a, ca, trail) && forall x :: 0 <= x < i ==> Satisfies(a, ca[cls[x]].lits)
      {
        assert cls[i] !in cls[..i];
        ghost var ca0, w := ca, Waiters();
        RemoveClause(cls[i]);
        RequeuedTwice(old(ca), old(Waiters()), ca0, w, ca, Waiters());
        assert cls[..i + 1] == cls[..i] + [cls[i]];
        i := i + 1;
      }
      assert cls[..i] == cls;
      forall a { AllHoldAt(a, old(ca), cls); }
    }

    /**
     * SimpSolver::addClause_ on an unrefuted database; with check, a clause that propagation shows implied is
     * dropped.
     */
    method AddChecked(ps: seq<Lit>, check: bool) returns (b: bool)
      requires DbOk() && InRange(ps, |assigns|) && VarSet(ps) !! Gone()
      modifies `ca, `occurs, `nOcc, `touched, `subsumptionQueue, `assigns, `trail
      ensures DbOk() && |assigns| == |old(assigns)| && old(trail) <= trail && old(ca) <= ca
      ensures forall g, k :: old(Tidy(g, k)) && (g == -1 || |ps| < g) ==> Tidy(g, k)
      ensures b ==> forall a :: DbSat(a, ca, trail) <==> DbSat(a, old(ca), old(trail)) && Satisfies(a, ps)
      ensures !b ==> forall a :: !(DbSat(a, old(ca), old(trail)) && Satisfies(a, ps))
      ensures old(Waiters()) <= Waiters()
      ensures (forall v :: Mentions(ps, v) ==> v in old(Waiters())) ==> Requeued(old(ca), old(Waiters()), ca, Waiters())
    {
      hide Tidy, DbOk, DbSat, Satisfies, Requeued, Waiters, Mentions;
      NothingLost(ca, Waiters(), Waiters());
      if check {
        assert InRange(ps, |assigns|);
        b := ImpliedByPropagation(ps);
        if b { return true; }
      }
      b := AddToDb(ps);
    }

    /** The cross product: add every resolvent that is no tautology. */
    method AddResolvents(v: Var, cs: seq<seq<Lit>>, ds: seq<seq<Lit>>, check: bool) returns (b: bool)
      requires DbOk() && Parents(cs, v, |assigns|, Gone()) && Parents(ds, v, |assigns|, Gone())
      requires AllIn(cs, Waiters()) && AllIn(ds, Waiters())
      modifies `ca, `occurs, `nOcc, `touched, `subsumptionQueue, `assigns, `trail
      ensures DbOk() && |assigns| == |old(assigns)| && old(trail) <= trail
      ensures b ==> forall a :: DbSat(a, ca, trail) <==> DbSat(a, old(ca), old(trail)) && ResolventsHold(a, cs, ds, v)
      ensures !b ==> forall a :: !(DbSat(a, old(ca), old(trail)) && ResolventsHold(a, cs, ds, v))
      ensures forall g, k :: AllShort(cs, ds, v, g) && old(Tidy(g, k)) ==> Tidy(g, k)
      ensures old(Waiters()) <= Waiters()
      ensures Requeued(old(ca), old(Waiters()), ca, Waiters())
    {
      hide Tidy, DbOk, DbSat, ResolventsHold, Parents, Requeued, Waiters, AllIn, AllShort;
      NothingLost(ca, Waiters(), Waiters());
      var i := 0;
      forall a { NoResolvents(a, cs, ds, v); }
      while i < |cs|
        invariant 0 <= i <= |cs| && DbOk() && |assigns| == |old(assigns)| && old(trail) <= trail
        invariant forall g, k :: AllShort(cs, ds, v, g) && old(Tidy(g, k)) ==> Tidy(g, k)
        invariant old(Waiters()) <= Waiters() && Requeued(old(ca), old(Waiters()), ca, Waiters())
        invariant Parents(cs, v, |assigns|, Gone()) && Parents(ds, v, |assigns|, Gone())
        invariant forall a :: DbSat(a, ca, trail) <==>
          DbSat(a, old(ca), old(trail)) && ResolventsHold(a, cs[..i], ds, v)
      {
        StillIn(cs, old(Waiters()), Waiters());
        StillIn(ds, old(Waiters()), Waiters());
        ghost var ca0, w := ca, Waiters();
        b := AddRow(v, cs, i, ds, check);
        RequeuedTwice(old(ca), old(Waiters()), ca0, w, ca, Waiters());
        forall a { ResolventsNextRow(a, cs, ds, v, i); }
        if !b {
          forall a | ResolventsHold(a, cs, ds, v) ensures ResolventsHold(a, cs[..i + 1], ds, v) {
            FewerResolvents(a, cs, ds, v, i + 1);
          }
          return false;
        }
        i := i + 1;
      }
      assert cs[..i] == cs;
      b := true;
    }

    method AddRow(v: Var, cs: seq<seq<Lit>>, i: nat, ds: seq<seq<Lit>>, check: bool) returns (b: bool)
      requires DbOk() && Parents(cs, v, |assigns|, Gone()) && Parents(ds, v, |assigns|, Gone()) && i < |cs|
      requires AllIn(cs, Waiters()) && AllIn(ds, Waiters())
      modifies `ca, `occurs, `nOcc, `touched, `subsumptionQueue, `assigns, `trail
      ensures DbOk() && |assigns| == |old(assigns)| && old(trail) <= trail
      ensures Parents(cs, v, |assigns|, Gone()) && Parents(ds, v, |assigns|, Gone())
      ensures b ==>
        forall a :: DbSat(a, ca, trail) <==> DbSat(a, old(ca), old(trail)) && ResolventsHold(a, [cs[i]], ds, v)
      ensures !b ==> forall a :: !(DbSat(a, old(ca), old(trail)) && ResolventsHold(a, [cs[i]], ds, v))
      ensures forall g, k :: AllShort(cs, ds, v, g) && old(Tidy(g, k)) ==> Tidy(g, k)
      ensures old(Waiters()) <= Waiters()
      ensures Requeued(old(ca), old(Waiters()), ca, Waiters())
    {
      hide Tidy, DbOk, DbSat, ResolventsHold, IsResolvent, Clash, Resolvent, Satisfies, OthersHold, InRange;
      hide Requeued, Waiters, AllIn, Mentions, AllShort;
      NothingLost(ca, Waiters(), Waiters());
      var j := 0;
      forall a { NoResolvents(a, [cs[i]], ds, v); }
      while j < |ds|
        invariant 0 <= j <= |ds| && DbOk() && |assigns| == |old(assigns)| && old(trail) <= trail
        invariant forall g, k :: AllShort(cs, ds, v, g) && old(Tidy(g, k)) ==> Tidy(g, k)
        invariant old(Waiters()) <= Waiters() && Requeued(old(ca), old(Waiters()), ca, Waiters())
        invariant forall a :: DbSat(a, ca, trail) <==>
          DbSat(a, old(ca), old(trail)) && ResolventsHold(a, [cs[i]], ds[..j], v)
      {
        var merged, out := Merge(cs[i], ds[j], v);
        forall a { ResolventsNextPair(a, cs, ds, v, i, j); }
        if merged {
          ResolventIsRight(cs[i], ds[j], v);
          ResolventIsThere(cs, ds, v, |assigns|, Gone(), i, j, out);
          ghost var ca0, w := ca, Waiters();
          StillIn(cs, old(Waiters()), w);
          StillIn(ds, old(Waiters()), w);
          ResolventIn(cs, ds, v, i, j, out, w);
          ResolventIsShort(cs, ds, v, i, j);
          b := AddChecked(out, check);
          RequeuedTwice(old(ca), old(Waiters()), ca0, w, ca, Waiters());
          forall a { ResolventMeaning(a, cs[i], ds[j], v, out); }
          if !b {
            forall a | ResolventsHold(a, [cs[i]], ds, v) ensures ResolventsHold(a, [cs[i]], ds[..j + 1], v) {
              FewerResolventsInRow(a, cs[i], ds, v, j + 1);
            }
            return false;
          }
        }
        j := j + 1;
      }
      assert ds[..j] == ds;
      b := true;
    }

    method MarkEliminated(v: Var)
      requires DbOk() && v < |assigns| && assigns[v] == LUndef && forall r :: Live(ca, r) ==> !Mentions(ca[r].lits, v)
      modifies `eliminated
      ensures DbOk() && eliminated == old(eliminated)[v := true] && Gone() == old(Gone()) + {v} && Free(ca, trail, {v})
      ensures old(Waiters()) <= Waiters()
    {
      hide IndexOk, RootOk, Free;
      FreeOneMore(ca, assigns, trail, Gone(), v);
      eliminated := eliminated[v := true];
      MarkedMore(old(eliminated), v);
    }

    /** Store the clauses of the rarer sign, then delete all clauses over v. */
    method TakeOut(v: Var, cls: seq<CRef>, pos: seq<CRef>, neg: seq<CRef>) returns (p: Lit, ghost block: seq<seq<Lit>>)
      requires DbOk() && elimclauses == Flat(recs) && v < |assigns|
      requires assigns[v] == LUndef && Split(ca, v, cls, pos, neg)
      modifies `ca, `nOcc, `dirty, `elimHeap, `eliminated, `elimclauses, `recs
      ensures DbOk() && eliminated == old(eliminated)[v := true] && Gone() == old(Gone()) + {v}
      ensures recs == old(recs) + block && elimclauses == Flat(recs)
      ensures p.v == v && TakenOut(old(ca), trail, ca, cls, pos, neg, p, block)
      ensures forall g, k :: old(Tidy(g, k)) ==> Tidy(g, k)
      ensures Requeued(old(ca), old(Waiters()), ca, Waiters())
      ensures AllIn(Lits(old(ca), pos), Waiters()) && AllIn(Lits(old(ca), neg), Waiters())
      ensures |recs| == |old(recs)| + 1 + Smaller(|pos|, |neg|)
    {
      hide *;
      DbShape();
      SplitLive(ca, v, cls, pos, neg);
      p := Lit(v, |pos| > |neg|);
      StoredHave(ca, v, cls, pos, neg, p);
      StoredSize(ca, pos, neg, p);
      block := StoreSide(p, Stored(ca, pos, neg, p));
      RemoveAll(cls);
      SidesAreIn(old(ca), cls, pos, neg, Waiters());
      ghost var w := Waiters();
      NoneLeft(old(ca), ca, cls, v);
      MarkEliminated(v);
      RequeuedMore(old(ca), old(Waiters()), ca, w, Waiters());
      StillIn(Lits(old(ca), pos), w, Waiters());
      StillIn(Lits(old(ca), neg), w, Waiters());
      MakeTakenOut(old(ca), trail, ca, cls, pos, neg, p, block);
    }

    /** Add the resolvents of the clauses taken out of ca0; recs0 and flat0 are the stack before. */
    method PutResolvents(v: Var, cs: seq<seq<Lit>>, ds: seq<seq<Lit>>, check: bool, ghost gone0: set<Var>,
                         ghost ca0: seq<ClauseRec>, ghost recs0: seq<seq<Lit>>, ghost flat0: seq<nat>,
                         ghost cls: seq<CRef>, ghost pos: seq<CRef>, ghost neg: seq<CRef>,
                         ghost p: Lit, ghost block: seq<seq<Lit>>) returns (b: bool)
      requires DbOk() && p.v == v && v !in gone0 && v < |assigns| && Gone() == gone0 + {v}
      requires recs == recs0 + block && elimclauses == Flat(recs)
      requires ElimOk(formula, ca0, trail, |assigns|, gone0, recs0, flat0)
      requires TakenOut(ca0, trail, ca, cls, pos, neg, p, block)
      requires RefsOk(ca0, pos) && RefsOk(ca0, neg) && cs == Lits(ca0, pos) && ds == Lits(ca0, neg)
      requires AllIn(cs, Waiters()) && AllIn(ds, Waiters())
      requires StandIn(cs, |assigns|, gone0) && StandIn(ds, |assigns|, gone0)
      modifies `ca, `occurs, `nOcc, `touched, `subsumptionQueue, `assigns, `trail
      ensures DbOk() && |assigns| == |old(assigns)|
      ensures if b then ElimInv() else !Satisfiable(formula)
      ensures forall g, k :: AllShort(cs, ds, v, g) && old(Tidy(g, k)) ==> Tidy(g, k)
      ensures Requeued(old(ca), old(Waiters()), ca, Waiters())
    {
      hide Tidy, DbOk, DbSat, ElimOk, ResolventsHold, Flat, TakenOut, InRange, StandIn, Gone, Parents, RefsOk;
      hide Satisfiable, Lits, Requeued, Waiters, AllIn, AllShort;
      StandParents(cs, v, |assigns|, gone0);
      StandParents(ds, v, |assigns|, gone0);
      b := AddResolvents(v, cs, ds, check);
      if b {
        ResolvedKeepsElim(formula, |assigns|, gone0, recs0, flat0, elimclauses, ca0, old(trail), old(ca), ca, trail,
                          cls, pos, neg, p, block);
      } else {
        ResolvedIsRefuted(formula, |assigns|, gone0, recs0, flat0, ca0, old(trail), old(ca), cls, pos, neg, p, block);
      }
    }

    /** Replace the clauses over v by their resolvents. */
    method ReplaceByResolvents(v: Var, cls: seq<CRef>, pos: seq<CRef>, neg: seq<CRef>, check: bool) returns (b: bool)
      requires DbOk() && ElimInv() && v < |assigns| && assigns[v] == LUndef
      requires v !in Gone() && Split(ca, v, cls, pos, neg)
      modifies `ca, `occurs, `nOcc, `dirty, `elimHeap, `touched, `subsumptionQueue, `assigns, `trail
      modifies `eliminated, `elimclauses, `recs
      ensures DbOk() && |assigns| == |old(assigns)| && eliminated == old(eliminated)[v := true]
      ensures if b then ElimInv() else !Satisfiable(formula)
      ensures RefsOk(old(ca), pos) && RefsOk(old(ca), neg) && forall g, k ::
        AllShort(Lits(old(ca), pos), Lits(old(ca), neg), v, g) && old(Tidy(g, k)) ==> Tidy(g, k)
      ensures Requeued(old(ca), old(Waiters()), ca, Waiters())
      ensures |recs| == |old(recs)| + 1 + Smaller(|pos|, |neg|)
    {
      SplitStands(ca, occurs, dirty, nOcc, |assigns|, trail, Gone(), v, cls, pos, neg);
      SplitLive(ca, v, cls, pos, neg);
      assert elimclauses == Flat(recs);
      hide Tidy, DbOk, ElimOk, Split, Flat, TakenOut, StandIn, Gone, RefsOk, AllHave, Satisfiable, Lits, Covers;
      hide Occurrences, Mentions, Live, NoRepeats, Requeued, Waiters, AllIn, AllShort, Smaller;
      var cs, ds := Lits(ca, pos), Lits(ca, neg);
      var p, block := TakeOut(v, cls, pos, neg);
      ghost var ca1, w := ca, Waiters();
      b := PutResolvents(v, cs, ds, check, old(Gone()), old(ca), old(recs), old(elimclauses), cls, pos, neg, p, block);
      RequeuedTwice(old(ca), old(Waiters()), ca1, w, ca, Waiters());
    }

    /** The second half of eliminateVar. */
    method Resolve(v: Var, cls: seq<CRef>, pos: seq<CRef>, neg: seq<CRef>, subLim: int, check: bool) returns (b: bool)
      requires DbOk() && ElimInv() && v < |assigns| && assigns[v] == LUndef
      requires v !in Gone() && Split(ca, v, cls, pos, neg)
      modifies `ca, `occurs, `nOcc, `dirty, `elimHeap, `touched, `subsumptionQueue, `assigns, `trail
      modifies `eliminated, `elimclauses, `recs, `bwdsubAssigns, `asynchInterrupt
      ensures DbOk() && |assigns| == |old(assigns)| && (old(asynchInterrupt) ==> asynchInterrupt)
      ensures eliminated == old(eliminated)[v := true]
      ensures if b then ElimInv() && bwdsubAssigns == |trail| && subsumptionQueue == [] else !Satisfiable(formula)
      ensures RefsOk(old(ca), pos) && RefsOk(old(ca), neg)
      ensures b && !asynchInterrupt && AllShort(Lits(old(ca), pos), Lits(old(ca), neg), v, subLim) ==>
        forall k :: old(Tidy(subLim, k)) ==> Tidy(subLim, k)
      ensures Requeued(old(ca), old(Waiters()), ca, Waiters())
      ensures |recs| == |old(recs)| + 1 + Smaller(|pos|, |neg|)
    {
      hide Tidy, ElimOk, Split, Satisfiable, Requeued, Waiters, AllShort, Lits, RefsOk;
      assert v < |eliminated|;
      hide DbOk;
      b := ReplaceByResolvents(v, cls, pos, neg, check);
      if !b { return false; }
      assert v in Gone();
      hide Gone;
      ClearOccurs(v);
      ghost var ca1, w := ca, Waiters();
      b := SubsumeMore(subLim);
      RequeuedTwice(old(ca), old(Waiters()), ca1, w, ca, Waiters());
    }

    lemma MarkingChanges(v: Var)
      requires DbOk() && v < |assigns| && v !in Gone()
      ensures v < |eliminated| && eliminated[v := true] != eliminated
    {
      assert eliminated[v := true][v] != eliminated[v];
    }

    /** eliminateVar: v is eliminated exactly if it is not over the limits. */
    method EliminateVar(v: Var, grow: int, clauseLim: int, subLim: int, check: bool) returns (b: bool)
      requires DbOk() && ElimInv() && v < |assigns| && assigns[v] == LUndef && v !in Gone() && !frozen[v]
      modifies `ca, `occurs, `nOcc, `dirty, `elimHeap, `touched, `subsumptionQueue, `assigns, `trail
      modifies `eliminated, `elimclauses, `recs, `bwdsubAssigns, `asynchInterrupt
      ensures DbOk() && |assigns| == |old(assigns)| && (old(asynchInterrupt) ==> asynchInterrupt)
      ensures if b then ElimInv() else !Satisfiable(formula)
      ensures eliminated == old(eliminated)[v := true] || (b && eliminated == old(eliminated) && ca == old(ca) &&
        elimHeap == old(elimHeap) && trail == old(trail) && touched == old(touched) &&
        bwdsubAssigns == old(bwdsubAssigns) && subsumptionQueue == old(subsumptionQueue))
      ensures b && eliminated != old(eliminated) ==> bwdsubAssigns == |trail| && subsumptionQueue == []
      ensures eliminated != old(eliminated) <==> !OverLimits(old(ca), v, grow, clauseLim)
      ensures b && !asynchInterrupt && LimitsFit(clauseLim, subLim) ==>
        forall k :: old(Tidy(subLim, k)) ==> Tidy(subLim, k)
      ensures Requeued(old(ca), old(Waiters()), ca, Waiters())
      ensures eliminated != old(eliminated) ==> |recs| == |old(recs)| + Stacked(old(ca), v)
    {
      hide *;
      MarkingChanges(v);
      var costly, cls, pos, neg := Weigh(v, grow, clauseLim);
      if costly {
        NothingLost(ca, Waiters(), Waiters());
        b := true;
      } else {
        b := ResolveWithin(v, cls, pos, neg, clauseLim, subLim, check);
      }
    }

    /** The same for the clauses of v, which is within the limits. */
    method ResolveWithin(v: Var, cls: seq<CRef>, pos: seq<CRef>, neg: seq<CRef>, clauseLim: int, subLim: int,
                         check: bool) returns (b: bool)
      requires DbOk() && ElimInv() && v < |assigns| && assigns[v] == LUndef
      requires v !in Gone() && Split(ca, v, cls, pos, neg) && RefsOk(ca, pos) && RefsOk(ca, neg)
      requires 1 + Smaller(|pos|, |neg|) == Stacked(ca, v)
      requires forall g :: LimitsFit(clauseLim, g) ==> AllShort(Lits(ca, pos), Lits(ca, neg), v, g)
      modifies `ca, `occurs, `nOcc, `dirty, `elimHeap, `touched, `subsumptionQueue, `assigns, `trail
      modifies `eliminated, `elimclauses, `recs, `bwdsubAssigns, `asynchInterrupt
      ensures DbOk() && |assigns| == |old(assigns)| && (old(asynchInterrupt) ==> asynchInterrupt)
      ensures eliminated == old(eliminated)[v := true]
      ensures if b then ElimInv() && bwdsubAssigns == |trail| && subsumptionQueue == [] else !Satisfiable(formula)
      ensures b && !asynchInterrupt && LimitsFit(clauseLim, subLim) ==>
        forall k :: old(Tidy(subLim, k)) ==> Tidy(subLim, k)
      ensures Requeued(old(ca), old(Waiters()), ca, Waiters())
      ensures |recs| == |old(recs)| + Stacked(old(ca), v)
    {
      hide *;
      b := Resolve(v, cls, pos, neg, subLim, check);
    }

    /** Is v over the limits? */
    method Weigh(v: Var, grow: int, clauseLim: int)
        returns (costly: bool, cls: seq<CRef>, pos: seq<CRef>, neg: seq<CRef>)
      requires DbOk() && ElimInv() && v < |assigns|
      modifies `occurs, `dirty
      ensures DbOk() && ElimInv() && Split(ca, v, cls, pos, neg) && (costly <==> OverLimits(ca, v, grow, clauseLim))
      ensures RefsOk(ca, pos) && RefsOk(ca, neg)
      ensures 1 + Smaller(|pos|, |neg|) == Stacked(ca, v)
      ensures !costly ==> forall g :: LimitsFit(clauseLim, g) ==> AllShort(Lits(ca, pos), Lits(ca, neg), v, g)
    {
      cls, pos, neg := SplitOccurrences(v);
      hide DbOk, ElimInv, OverLimits, WithinLimits, AllShort, LimitsFit;
      SplitLive(ca, v, cls, pos, neg);
      SidesSize(ca, v, cls, pos, neg);
      LimitsAreExact(ca, v, cls, pos, neg, grow, clauseLim);
      costly := TooCostly(Lits(ca, pos), Lits(ca, neg), v, |cls| + grow, clauseLim);
      if !costly { WithinIsShort(Lits(ca, pos), Lits(ca, neg), v, |cls| + grow, clauseLim); }
    }

    /** backwardSubsumptionCheck as a step of the whole. */
    method SubsumeMore(lim: int) returns (b: bool)
      requires DbOk() && ElimInv()
      modifies `ca, `occurs, `nOcc, `dirty, `elimHeap, `subsumptionQueue, `assigns, `trail, `bwdsubAssigns,
        `asynchInterrupt
      ensures DbOk() && |assigns| == |old(assigns)| && (old(asynchInterrupt) ==> asynchInterrupt)
      ensures Size() < old(Size()) || (Size() == old(Size()) && elimHeap == old(elimHeap))
      ensures if b then ElimInv() && subsumptionQueue == [] && bwdsubAssigns == |trail| else !Satisfiable(formula)
      ensures b && !asynchInterrupt ==> forall k :: old(Tidy(lim, k)) ==> Tidy(lim, k)
      ensures Requeued(old(ca), old(Waiters()), ca, Waiters())
    {
      hide Tidy, Minimal, DbOk, ElimOk, DbSat, Gone, Satisfiable, Requeued, Waiters;
      b := BackwardSubsumptionCheck(lim);
      if b {
        SameModelsKeepElim(formula, old(ca), old(trail), |assigns|, Gone(), recs, elimclauses, ca, trail);
      } else {
        NoModelMeansUnsat(formula, old(ca), old(trail), |assigns|, Gone(), recs, elimclauses);
      }
    }

    method ClearOccurs(v: Var)
      requires DbOk() && v in Gone()
      modifies `occurs
      ensures DbOk()
      ensures forall g, k :: old(Tidy(g, k)) ==> Tidy(g, k)
    {
      hide Tidy;
      hide RootOk, Free;
      ClearKeepsIndex(ca, occurs, dirty, nOcc, |assigns|, trail, Gone(), v);
      hide IndexOk;
      occurs := occurs[v := []];
    }

    // ---------- the whole simplification ----------

    /** The live clauses over v are queued. */
    ghost predicate Queued(v: Var)
      reads `ca, `subsumptionQueue
    {
      forall r :: Live(ca, r) && Mentions(ca[r].lits, v) ==> r in subsumptionQueue
    }

    /** The clauses over touched variables are to be looked at again. */
    method GatherTouchedClauses()
      requires DbOk()
      modifies `occurs, `dirty, `touched, `subsumptionQueue
      ensures DbOk() && touched == {} && old(subsumptionQueue) <= subsumptionQueue
      ensures forall v :: v in old(touched) ==> Queued(v)
      ensures forall g, k :: old(Tidy(g, k)) ==> Tidy(g, k)
    {
      if touched == {} { return; }
      var i := 0;
      while i < |assigns|
        invariant 0 <= i <= |assigns| && DbOk() && touched == old(touched) && old(subsumptionQueue) <= subsumptionQueue
        invariant forall v :: v in touched && v < i ==> Queued(v)
      {
        if i in touched {
          Lookup(i);
          GatherList(i);
        }
        i := i + 1;
      }
      GatherIsMinimal(old(subsumptionQueue));
      hide IndexOk, RootOk, Free;
      touched := {};
    }

    lemma GatherIsMinimal(queue: seq<CRef>)
      requires DbOk() && queue <= subsumptionQueue
      requires forall v :: v in touched ==> Queued(v)
      ensures forall k :: Minimal(ca, queue, touched, trail, bwdsubAssigns, k) ==>
        Minimal(ca, subsumptionQueue, {}, trail, bwdsubAssigns, k)
    {
      hide RootOk, Free, Minimal;
      QueuePrefix(queue, subsumptionQueue);
      forall r, v | v in touched && Live(ca, r) && Mentions(ca[r].lits, v)
        ensures r in subsumptionQueue
      {
        assert Queued(v);
      }
      forall k | Minimal(ca, queue, touched, trail, bwdsubAssigns, k)
        ensures Minimal(ca, subsumptionQueue, {}, trail, bwdsubAssigns, k)
      {
        GatheredIsMinimal(ca, queue, subsumptionQueue, touched, trail, bwdsubAssigns, k);
      }
    }

    method GatherList(v: Var)
      requires DbOk() && v < |assigns| && forall r :: Live(ca, r) && Mentions(ca[r].lits, v) ==> r in occurs[v]
      modifies `subsumptionQueue
      ensures DbOk() && old(subsumptionQueue) <= subsumptionQueue && Queued(v)
      ensures forall u :: old(Queued(u)) ==> Queued(u)
    {
      OccursInRange(v);
      hide IndexOk, RootOk, Free;
      var j := 0;
      while j < |occurs[v]|
        invariant 0 <= j <= |occurs[v]| && DbOk() && OccInRange(v) && old(subsumptionQueue) <= subsumptionQueue
        invariant forall x :: 0 <= x < j ==> occurs[v][x] in subsumptionQueue
      {
        var r := occurs[v][j];
        if r !in subsumptionQueue { subsumptionQueue := subsumptionQueue + [r]; }
        j := j + 1;
      }
      QueuePrefix(old(subsumptionQueue), subsumptionQueue);
    }

    static lemma QueuePrefix(q: seq<CRef>, q': seq<CRef>)
      requires q <= q'
      ensures forall r :: r in q ==> r in q'
    {
      forall r | r in q ensures r in q' {
        var i :| 0 <= i < |q| && q[i] == r;
        assert q'[i] == r;
      }
    }

    /** asymmVar as a step of the whole, with v frozen meanwhile. */
    method AsymmMore(v: Var, lim: int) returns (b: bool)
      requires DbOk() && ElimInv() && v < |assigns|
      modifies `ca, `occurs, `nOcc, `dirty, `elimHeap, `subsumptionQueue, `assigns, `trail, `bwdsubAssigns,
        `asynchInterrupt, `frozen
      ensures DbOk() && |assigns| == |old(assigns)| && (old(asynchInterrupt) ==> asynchInterrupt)
      ensures Size() < old(Size()) || (Size() == old(Size()) && elimHeap == old(elimHeap))
      ensures b ==> old(bwdsubAssigns) == |old(trail)| ==> bwdsubAssigns == |trail|
      ensures if b then ElimInv() && frozen == old(frozen) else !Satisfiable(formula)
      ensures b && !asynchInterrupt ==> forall k :: old(Tidy(lim, k)) ==> Tidy(lim, k)
      ensures b && old(subsumptionQueue) == [] ==> subsumptionQueue == []
      ensures Requeued(old(ca), old(Waiters()) + iset{v}, ca, Waiters() + iset{v})
    {
      hide Tidy, IndexOk, RootOk, Free, ElimOk, DbSat, Satisfiable, Requeued;
      var wasFrozen := frozen[v];
      frozen := frozen[v := true];
      assert Waiters() == old(Waiters()) + iset{v};
      b := AsymmVar(v, lim);
      assert Waiters() == Waiters() + iset{v};
      if b {
        ghost var w := Waiters();
        frozen := frozen[v := wasFrozen];
        assert w == Waiters() + iset{v};
        SameModelsKeepElim(formula, old(ca), old(trail), |assigns|, Gone(), recs, elimclauses, ca, trail);
      } else {
        NoModelMeansUnsat(formula, old(ca), old(trail), |assigns|, Gone(), recs, elimclauses);
      }
    }

    /** Nothing is left to look at. */
    predicate Settled()
      reads this
    {
      touched == {} && bwdsubAssigns >= |trail| && elimHeap == {}
    }

    /** Try each candidate, in any order, until none is left; asymm and elim switch the two techniques on. */
    method EliminateCandidates(asymm: bool, elim: bool, grow: int, clauseLim: int, subLim: int, check: bool)
        returns (b: bool)
      requires DbOk() && ElimInv() && touched == {} && bwdsubAssigns == |trail|
      modifies `ca, `occurs, `nOcc, `dirty, `elimHeap, `touched, `subsumptionQueue, `assigns, `trail
      modifies `eliminated, `elimclauses, `recs, `bwdsubAssigns, `asynchInterrupt, `frozen
      ensures DbOk() && |assigns| == |old(assigns)| && (old(asynchInterrupt) ==> asynchInterrupt)
      ensures if b then ElimInv() && Spared(old(eliminated), old(frozen), eliminated, frozen) else !Satisfiable(formula)
      ensures b ==> StillThere(eliminated) <= StillThere(old(eliminated))
      ensures b && StillThere(eliminated) == StillThere(old(eliminated)) ==> asynchInterrupt || Settled()
      ensures b && !asynchInterrupt && LimitsFit(clauseLim, subLim) ==>
        forall k :: old(Tidy(subLim, k)) ==> Tidy(subLim, k)
      ensures b && old(subsumptionQueue) == [] ==> subsumptionQueue == []
      ensures b && elim && !asynchInterrupt ==> Steady(old(ca), old(Waiters()), ca, Waiters(), grow, clauseLim)
    {
      hide *;
      var stop := false;
      SparedSoFar(eliminated, frozen);
      SteadyAsIs(ca, Waiters(), Waiters(), grow, clauseLim);
      while elimHeap != {} && !stop
        invariant DbOk() && ElimInv() && |assigns| == |old(assigns)| && (old(asynchInterrupt) ==> asynchInterrupt)
        invariant Spared(old(eliminated), old(frozen), eliminated, frozen) && (stop ==> asynchInterrupt)
        invariant StillThere(eliminated) < StillThere(old(eliminated)) ||
          (StillThere(eliminated) == StillThere(old(eliminated)) && touched == {} && bwdsubAssigns == |trail|)
        invariant !asynchInterrupt && LimitsFit(clauseLim, subLim) ==>
                  forall k :: old(Tidy(subLim, k)) ==> Tidy(subLim, k)
        invariant old(subsumptionQueue) == [] ==> subsumptionQueue == []
        invariant elim && !asynchInterrupt ==> Steady(old(ca), old(Waiters()), ca, Waiters(), grow, clauseLim)
        decreases StillThere(eliminated), Size(), |elimHeap|
      {
        ghost var e0, f0, ca0, w := eliminated, frozen, ca, Waiters();
        ghost var v;
        b, stop, v := TakeCandidate(asymm, elim, grow, clauseLim, subLim, check);
        if !b { return false; }
        if elim && !asynchInterrupt {
          SteadyTwice(old(ca), old(Waiters()), ca0, w, ca, Waiters(), grow, clauseLim);
        }
        SparedTwice(old(eliminated), old(frozen), e0, f0, eliminated, frozen);
      }
      b := true;
      NothingLeft();
    }

    lemma NothingLeft()
      ensures touched == {} && bwdsubAssigns == |trail| && elimHeap == {} ==> Settled()
    {
    }

    /**
     * One candidate, any, is taken from the heap and, unless there is an interrupt, tried: if it is still a candidate
     * then, it is over the limits.
     */
    method TakeCandidate(asymm: bool, elim: bool, grow: int, clauseLim: int, subLim: int, check: bool)
        returns (b: bool, stop: bool, ghost v: Var)
      requires DbOk() && ElimInv() && elimHeap != {}
      modifies `ca, `occurs, `nOcc, `dirty, `elimHeap, `touched, `subsumptionQueue, `assigns, `trail
      modifies `eliminated, `elimclauses, `recs, `bwdsubAssigns, `asynchInterrupt, `frozen
      ensures DbOk() && |assigns| == |old(assigns)|
      ensures (old(asynchInterrupt) ==> asynchInterrupt) && (stop ==> asynchInterrupt)
      ensures if b then ElimInv() && Spared(old(eliminated), old(frozen), eliminated, frozen) else !Satisfiable(formula)
      ensures b && eliminated != old(eliminated) ==> StillThere(eliminated) < StillThere(old(eliminated))
      ensures b && eliminated == old(eliminated) ==> touched == old(touched)
      ensures b && eliminated == old(eliminated) && old(bwdsubAssigns) == |old(trail)| ==> bwdsubAssigns == |trail|
      ensures b && eliminated == old(eliminated) ==>
        Size() < old(Size()) || (Size() == old(Size()) && |elimHeap| < |old(elimHeap)|)
      ensures b && !asynchInterrupt && LimitsFit(clauseLim, subLim) ==>
        forall k :: old(Tidy(subLim, k)) ==> Tidy(subLim, k)
      ensures b && old(subsumptionQueue) == [] ==> subsumptionQueue == []
      ensures v in old(elimHeap) && (b && elim && !stop && Candidate(v) ==> OverLimits(ca, v, grow, clauseLim))
      ensures b && elim && !stop ==> Steady(old(ca), old(Waiters()), ca, Waiters(), grow, clauseLim)
    {
      hide Tidy, ElimOk, Satisfiable, IndexOk, RootOk, Free, StillThere, OverLimits, Steady;
      var next :| next in elimHeap;
      v := next;
      ghost var w := Waiters();
      elimHeap := elimHeap - {next};
      assert w == Waiters() + iset{next};
      Poll();
      b, stop := true, asynchInterrupt;
      if !stop && !eliminated[next] && assigns[next] == LUndef {
        assert w == Waiters() + iset{next};
        b := TryCandidate(next, asymm, elim, grow, clauseLim, subLim, check);
        assert b && elim ==> Steady(old(ca), w, ca, Waiters(), grow, clauseLim);
      } else if !stop {
        SteadyAsIs(ca, w, Waiters(), grow, clauseLim);
      }
    }

    /** eliminateVar, and what it does to the measures of the loop. */
    method TryEliminate(v: Var, grow: int, clauseLim: int, subLim: int, check: bool)
        returns (b: bool)
      requires DbOk() && ElimInv() && v < |assigns| && assigns[v] == LUndef && v !in Gone() && !frozen[v]
      modifies `ca, `occurs, `nOcc, `dirty, `elimHeap, `touched, `subsumptionQueue, `assigns, `trail
      modifies `eliminated, `elimclauses, `recs, `bwdsubAssigns, `asynchInterrupt
      ensures DbOk() && |assigns| == |old(assigns)| && (old(asynchInterrupt) ==> asynchInterrupt)
      ensures (if b then ElimInv() else !Satisfiable(formula)) && Spared(old(eliminated), frozen, eliminated, frozen)
      ensures eliminated != old(eliminated) ==> StillThere(eliminated) < StillThere(old(eliminated))
      ensures eliminated == old(eliminated) ==>
        b && Size() == old(Size()) && elimHeap == old(elimHeap) && trail == old(trail)
      ensures eliminated == old(eliminated) ==> touched == old(touched) && bwdsubAssigns == old(bwdsubAssigns)
      ensures b && !asynchInterrupt && LimitsFit(clauseLim, subLim) ==>
        forall k :: old(Tidy(subLim, k)) ==> Tidy(subLim, k)
      ensures b && old(subsumptionQueue) == [] ==> subsumptionQueue == []
      ensures eliminated == old(eliminated) || eliminated == old(eliminated)[v := true]
      ensures eliminated == old(eliminated) ==> ca == old(ca) && OverLimits(ca, v, grow, clauseLim)
      ensures Requeued(old(ca), old(Waiters()), ca, Waiters())
    {
      FewerAreThere(eliminated, v);
      OneMoreSpared(eliminated, frozen, v);
      hide DbOk, ElimOk, DbSat, Gone, Satisfiable, Spared, StillThere, Tidy, LiveLits, OverLimits, Requeued;
      hide Waiters;
      b := EliminateVar(v, grow, clauseLim, subLim, check);
    }

    method TryCandidate(v: Var, asymm: bool, elim: bool, grow: int, clauseLim: int, subLim: int, check: bool)
        returns (b: bool)
      requires DbOk() && ElimInv() && v < |assigns| && !eliminated[v] && assigns[v] == LUndef
      modifies `ca, `occurs, `nOcc, `dirty, `elimHeap, `touched, `subsumptionQueue, `assigns, `trail
      modifies `eliminated, `elimclauses, `recs, `bwdsubAssigns, `asynchInterrupt, `frozen
      ensures DbOk() && |assigns| == |old(assigns)| && (old(asynchInterrupt) ==> asynchInterrupt)
      ensures if b then ElimInv() && Spared(old(eliminated), old(frozen), eliminated, frozen) else !Satisfiable(formula)
      ensures b && eliminated != old(eliminated) ==> StillThere(eliminated) < StillThere(old(eliminated))
      ensures b && eliminated == old(eliminated) ==> touched == old(touched)
      ensures b && eliminated == old(eliminated) && old(bwdsubAssigns) == |old(trail)| ==> bwdsubAssigns == |trail|
      ensures b && eliminated == old(eliminated) ==>
        Size() < old(Size()) || (Size() == old(Size()) && elimHeap == old(elimHeap))
      ensures b && !asynchInterrupt && LimitsFit(clauseLim, subLim) ==>
        forall k :: old(Tidy(subLim, k)) ==> Tidy(subLim, k)
      ensures b && old(subsumptionQueue) == [] ==> subsumptionQueue == []
      ensures b && elim && Candidate(v) ==> OverLimits(ca, v, grow, clauseLim)
      ensures b && elim ==> Steady(old(ca), old(Waiters()) + iset{v}, ca, Waiters(), grow, clauseLim)
    {
      assert v !in Gone();
      hide *;
      ghost var w := Waiters() + iset{v};
      NothingLost(ca, w, w);
      SparedSoFar(eliminated, frozen);
      if asymm {
        b := AsymmMore(v, subLim);
        if !b { return false; }
      }
      ghost var ca1, w1 := ca, Waiters() + iset{v};
      RequeuedIsSteady(old(ca), w, ca1, w1, grow, clauseLim);
      b := EliminateOrLeave(v, elim, grow, clauseLim, subLim, check);
      if b && elim { SteadyTwice(old(ca), w, ca1, w1, ca, Waiters(), grow, clauseLim); }
    }

    /** v is eliminated or over the limits, unless propagation assigned it or it is frozen. */
    method EliminateOrLeave(v: Var, elim: bool, grow: int, clauseLim: int, subLim: int, check: bool)
        returns (b: bool)
      requires DbOk() && ElimInv() && v < |assigns| && v !in Gone()
      modifies `ca, `occurs, `nOcc, `dirty, `elimHeap, `touched, `subsumptionQueue, `assigns, `trail
      modifies `eliminated, `elimclauses, `recs, `bwdsubAssigns, `asynchInterrupt
      ensures DbOk() && |assigns| == |old(assigns)| && (old(asynchInterrupt) ==> asynchInterrupt)
      ensures if b then ElimInv() && Spared(old(eliminated), frozen, eliminated, frozen) else !Satisfiable(formula)
      ensures b && eliminated != old(eliminated) ==> StillThere(eliminated) < StillThere(old(eliminated))
      ensures b && eliminated == old(eliminated) ==> touched == old(touched)
      ensures b && eliminated == old(eliminated) && old(bwdsubAssigns) == |old(trail)| ==> bwdsubAssigns == |trail|
      ensures b && eliminated == old(eliminated) ==>
        Size() < old(Size()) || (Size() == old(Size()) && elimHeap == old(elimHeap))
      ensures b && !asynchInterrupt && LimitsFit(clauseLim, subLim) ==>
        forall k :: old(Tidy(subLim, k)) ==> Tidy(subLim, k)
      ensures b && old(subsumptionQueue) == [] ==> subsumptionQueue == []
      ensures b && elim && Candidate(v) ==> OverLimits(ca, v, grow, clauseLim)
      ensures b && elim ==> Steady(old(ca), old(Waiters()) + iset{v}, ca, Waiters(), grow, clauseLim)
    {
      assert |eliminated| == |frozen| == |assigns| && !eliminated[v];
      hide Tidy, DbOk, ElimOk, Satisfiable, StillThere, Spared, OverLimits, Requeued, Steady;
      SparedSoFar(eliminated, frozen);
      b := true;
      if elim && assigns[v] == LUndef && !frozen[v] {
        ghost var ca1, w := ca, Waiters();
        b := TryEliminate(v, grow, clauseLim, subLim, check);
        TriedIsSteady(ca1, w, ca, Waiters(), v, grow, clauseLim);
      } else if elim {
        SteadyAsIs(ca, Waiters() + iset{v}, Waiters(), grow, clauseLim);
      }
    }

    // ---------- the problem ----------

    /** Between calls. An elimination step may lose ok, and only if the formula is unsatisfiable. */
    ghost predicate Valid()
      reads this
    {
      DbOk() && if ok then ElimInv() else !Satisfiable(formula)
    }

    lemma Lengths()
      requires Valid()
      ensures |eliminated| == |frozen| == |assigns|
    {
    }

    constructor ()
      ensures Valid() && ok && formula == {} && assigns == [] && forall g, k :: Tidy(g, k)
    {
      ok := true;
      ca, assigns, trail, occurs, dirty, nOcc := [], [], [], [], {}, map[];
      elimclauses, eliminated, frozen := [], [], [];
      touched, elimHeap, subsumptionQueue, bwdsubAssigns, asynchInterrupt := {}, {}, [], 0, false;
      formula, recs := {}, [];
    }

    method NewVar() returns (v: Var)
      requires Valid()
      modifies `assigns, `frozen, `eliminated, `nOcc, `occurs, `elimHeap
      ensures Valid() && v == |old(assigns)| && assigns == old(assigns) + [LUndef]
      ensures eliminated == old(eliminated) + [false] && frozen == old(frozen) + [false]
      ensures v in elimHeap && Requeued(old(ca), old(Waiters()), ca, Waiters())
    {
      hide *;
      Lengths();
      NewVarFits(|assigns|);
      UnmarkedLast(eliminated);
      RangesGrow(|assigns|, |eliminated|, |frozen|, bwdsubAssigns, |trail|, subsumptionQueue, |ca|, touched, elimHeap);
      v := GrowFields();
      NothingLost(ca, old(Waiters()), Waiters());
      MakeValid();
    }

    /** A further variable, in all that is indexed by variables. */
    method GrowFields() returns (v: Var)
      requires |eliminated| == |frozen| == |assigns|
      modifies `assigns, `frozen, `eliminated, `nOcc, `occurs, `elimHeap
      ensures v == |old(assigns)| && assigns == old(assigns) + [LUndef] && elimHeap == old(elimHeap) + {v}
      ensures eliminated == old(eliminated) + [false] && frozen == old(frozen) + [false]
      ensures nOcc == old(nOcc)[Lit(v, false) := 0][Lit(v, true) := 0] && occurs == old(occurs) + [[]]
      ensures old(Waiters()) <= Waiters()
    {
      v := |assigns|;
      assigns, frozen, eliminated := assigns + [LUndef], frozen + [false], eliminated + [false];
      nOcc, occurs := nOcc[Lit(v, false) := 0][Lit(v, true) := 0], occurs + [[]];
      elimHeap := elimHeap + {v};
    }

    lemma NewVarFits(v: Var)
      requires Valid() && v == |assigns|
      ensures IndexOk(ca, occurs + [[]], dirty, nOcc[Lit(v, false) := 0][Lit(v, true) := 0], v + 1)
      ensures RootOk(assigns + [LUndef], trail) && Free(ca, trail, Marked(eliminated))
      ensures if ok then ElimOk(formula, ca, trail, v + 1, Marked(eliminated), recs, elimclauses)
              else !Satisfiable(formula)
      ensures RangesOk(v, |eliminated|, |frozen|, bwdsubAssigns, |trail|, subsumptionQueue, |ca|, touched, elimHeap)
    {
      hide IndexOk, RootOk, Free, ElimOk, Satisfiable, Marked;
      NewVarKeepsIndex(ca, occurs, dirty, nOcc, v);
      NewVarKeepsRoot(assigns, trail);
      if ok { NewVarKeepsElim(formula, ca, trail, v, Gone(), recs, elimclauses); }
    }

    lemma MakeValid()
      requires IndexOk(ca, occurs, dirty, nOcc, |assigns|)
      requires RootOk(assigns, trail) && Free(ca, trail, Marked(eliminated))
      requires RangesOk(|assigns|, |eliminated|, |frozen|, bwdsubAssigns,
                        |trail|, subsumptionQueue, |ca|, touched, elimHeap)
      requires if ok then ElimOk(formula, ca, trail, |assigns|, Marked(eliminated), recs, elimclauses)
               else !Satisfiable(formula)
      ensures Valid()
    {
    }

    method SetFrozen(v: Var, b: bool)
      requires Valid() && v < |assigns|
      modifies `frozen, `elimHeap
      ensures Valid() && frozen == old(frozen)[v := b]
      ensures elimHeap == old(elimHeap) + if !b && !eliminated[v] && assigns[v] == LUndef then {v} else {}
      ensures Requeued(old(ca), old(Waiters()), ca, Waiters())
    {
      hide IndexOk, RootOk, Free, ElimOk, Satisfiable, Requeued;
      frozen := frozen[v := b];
      if !b { UpdateElimHeap(v); }
      NothingLost(ca, old(Waiters()), Waiters());
    }

    /** addClause_: the clause joins the problem; it may name no eliminated variable. */
    method AddClause(ps: seq<Lit>, check: bool) returns (b: bool)
      requires Valid() && InRange(ps, |assigns|) && VarSet(ps) !! Gone()
      modifies `ok, `ca, `occurs, `nOcc, `touched, `subsumptionQueue, `assigns, `trail, `formula
      ensures Valid() && formula == old(formula) + {ps} && |assigns| == |old(assigns)| && old(trail) <= trail
      ensures (!b ==> !ok) && forall g, k :: old(Tidy(g, k)) && (g == -1 || |ps| < g) ==> Tidy(g, k)
      ensures (forall v :: Mentions(ps, v) ==> v in old(Waiters())) ==> Requeued(old(ca), old(Waiters()), ca, Waiters())
    {
      hide *;
      NothingLost(ca, Waiters(), Waiters());
      if check {
        b := ImpliedBefore(ps);
        if b {
          AddNothing(ps);
          return true;
        }
      }
      b := AddUnimplied(ps);
    }

    method ImpliedBefore(ps: seq<Lit>) returns (b: bool)
      requires Valid() && InRange(ps, |assigns|)
      ensures b ==> forall a :: DbSat(a, ca, trail) ==> Satisfies(a, ps)
    {
      hide ElimInv, Satisfiable, Conflicts, Trivial;
      b := ImpliedByPropagation(ps);
    }

    /** An implied clause joins the formula and nothing else happens. */
    method AddNothing(ps: seq<Lit>)
      requires Valid() && InRange(ps, |assigns|) && VarSet(ps) !! Gone()
      requires forall a :: DbSat(a, ca, trail) ==> Satisfies(a, ps)
      modifies `formula
      ensures Valid() && formula == old(formula) + {ps}
    {
      hide IndexOk, RootOk, Free, ElimOk, DbSat, Gone, Satisfiable;
      if ok {
        AddedClauseKeepsElim(formula, ca, trail, |assigns|, Gone(), recs, elimclauses, ps, ca, trail);
      } else {
        MoreStaysUnsat(formula, ps);
      }
      formula := formula + {ps};
    }

    method AddUnimplied(ps: seq<Lit>) returns (b: bool)
      requires Valid() && InRange(ps, |assigns|) && VarSet(ps) !! Gone()
      modifies `ok, `ca, `occurs, `nOcc, `touched, `subsumptionQueue, `assigns, `trail, `formula
      ensures Valid() && formula == old(formula) + {ps} && |assigns| == |old(assigns)| && old(trail) <= trail
      ensures (!b ==> !ok) && forall g, k :: old(Tidy(g, k)) && (g == -1 || |ps| < g) ==> Tidy(g, k)
      ensures (forall v :: Mentions(ps, v) ==> v in old(Waiters())) ==> Requeued(old(ca), old(Waiters()), ca, Waiters())
    {
      hide IndexOk, RootOk, Free, ElimOk, DbSat, Gone, Satisfiable, Tidy, VarSet, Requeued, Waiters, Mentions;
      NothingLost(ca, Waiters(), Waiters());
      ghost var f := formula;
      formula := formula + {ps};
      if !ok {
        MoreStaysUnsat(f, ps);
        return false;
      }
      b := AddToDb(ps);
      if b {
        AddedClauseKeepsElim(f, old(ca), old(trail), |assigns|, Gone(), recs, elimclauses, ps, ca, trail);
      } else {
        AddedClauseMayRefute(f, old(ca), old(trail), |assigns|, Gone(), recs, elimclauses, ps);
        ok := false;
      }
    }

    /** The root propagation at the start of eliminate. */
    method SimplifyRoot() returns (b: bool)
      requires Valid()
      modifies `assigns, `trail, `ok
      ensures Valid() && b == ok && |assigns| == |old(assigns)| && old(trail) <= trail
      ensures forall g, k :: old(Tidy(g, k)) ==> Tidy(g, k)
      ensures old(Waiters()) <= Waiters()
    {
      hide Tidy, IndexOk, RootOk, Free, ElimOk, DbSat, Gone, Satisfiable;
      if !ok { return false; }
      b := Propagate();
      if b {
        SameModelsKeepElim(formula, old(ca), old(trail), |assigns|, Gone(), recs, elimclauses, ca, trail);
      } else {
        SameModelsKeepElim(formula, old(ca), old(trail), |assigns|, Gone(), recs, elimclauses, ca, trail);
        NoModelMeansUnsat(formula, ca, trail, |assigns|, Gone(), recs, elimclauses);
        ok := false;
      }
    }

    /** One round of eliminate: backward subsumption, then the candidates; an interrupt ends it. */
    method EliminateRound(asymm: bool, elim: bool, grow: int, clauseLim: int, subLim: int, check: bool)
        returns (b: bool, stop: bool)
      requires DbOk() && ElimInv()
      modifies `ca, `occurs, `nOcc, `dirty, `elimHeap, `touched, `subsumptionQueue, `assigns, `trail
      modifies `eliminated, `elimclauses, `recs, `bwdsubAssigns, `asynchInterrupt, `frozen
      ensures DbOk() && |assigns| == |old(assigns)|
      ensures if b then ElimInv() && Spared(old(eliminated), old(frozen), eliminated, frozen) else !Satisfiable(formula)
      ensures stop ==> b && asynchInterrupt && Settled() && subsumptionQueue == []
      ensures b && !stop ==> !old(asynchInterrupt) && StillThere(eliminated) <= StillThere(old(eliminated))
      ensures b && !stop && StillThere(eliminated) == StillThere(old(eliminated)) ==> asynchInterrupt || Settled()
      ensures b ==> subsumptionQueue == []
      ensures b && !asynchInterrupt && LimitsFit(clauseLim, subLim) ==>
        forall k :: old(Tidy(subLim, k)) ==> Tidy(subLim, k)
      ensures b && elim && !asynchInterrupt ==> Steady(old(ca), old(Waiters()), ca, Waiters(), grow, clauseLim)
    {
      hide Tidy, ElimOk, Satisfiable, IndexOk, RootOk, Free, StillThere, Steady, Requeued, Waiters;
      NothingLost(ca, Waiters(), Waiters());
      GatherTouchedClauses();
      if |subsumptionQueue| > 0 || bwdsubAssigns < |trail| {
        b := SubsumeMore(subLim);
        if !b { return false, false; }
      }
      if asynchInterrupt {
        elimHeap := {};
        return true, true;
      }
      ghost var ca0, w := ca, Waiters();
      RequeuedIsSteady(old(ca), old(Waiters()), ca, Waiters(), grow, clauseLim);
      b := EliminateCandidates(asymm, elim, grow, clauseLim, subLim, check);
      stop := false;
      if b && elim && !asynchInterrupt {
        SteadyTwice(old(ca), old(Waiters()), ca0, w, ca, Waiters(), grow, clauseLim);
      }
    }

    /** eliminate, which terminates: a round without an elimination settles everything, or there was an interrupt. */
    method Eliminate(asymm: bool, elim: bool, grow: int, clauseLim: int, subLim: int, check: bool) returns (b: bool)
      requires Valid()
      modifies this
      ensures Valid() && b == ok && |assigns| == |old(assigns)| && formula == old(formula)
      ensures b ==> Spared(old(eliminated), old(frozen), eliminated, frozen) && Settled()
      ensures b && !asynchInterrupt && LimitsFit(clauseLim, subLim) ==>
        forall k :: old(Tidy(subLim, k)) ==> Tidy(subLim, k)
      ensures b && (old(touched) != {} || old(subsumptionQueue) == []) ==> subsumptionQueue == []
      ensures b && elim && !asynchInterrupt ==> Steady(old(ca), old(Waiters()), ca, Waiters(), grow, clauseLim)
    {
      hide Tidy, ElimOk, Satisfiable, IndexOk, RootOk, Free, StillThere, Steady, Waiters;
      b := SimplifyRoot();
      if !b { return false; }
      SteadyAsIs(ca, old(Waiters()), Waiters(), grow, clauseLim);
      while touched != {} || bwdsubAssigns < |trail| || elimHeap != {}
        invariant Valid() && ok && |assigns| == |old(assigns)| && formula == old(formula)
        invariant Spared(old(eliminated), old(frozen), eliminated, frozen)
        invariant !asynchInterrupt && LimitsFit(clauseLim, subLim) ==>
                  forall k :: old(Tidy(subLim, k)) ==> Tidy(subLim, k)
        invariant elim && !asynchInterrupt ==> Steady(old(ca), old(Waiters()), ca, Waiters(), grow, clauseLim)
        invariant subsumptionQueue == [] || (subsumptionQueue == old(subsumptionQueue) && touched == old(touched))
        decreases StillThere(eliminated), !asynchInterrupt, !Settled()
      {
        ghost var ca0, w := ca, Waiters();
        var stop;
        b, stop := EliminateRound(asymm, elim, grow, clauseLim, subLim, check);
        if !b {
          ok := false;
          return false;
        }
        if stop { break; }
        if elim && !asynchInterrupt {
          SteadyTwice(old(ca), old(Waiters()), ca0, w, ca, Waiters(), grow, clauseLim);
        }
      }
      b := true;
    }

    /** extendModel: the values of eliminated variables are filled in, and the result satisfies the whole formula. */
    method ExtendSolverModel(m: seq<LBool>) returns (m': seq<LBool>)
      requires Valid() && ok && ModelOfRest(m, ca, trail, |assigns|, Gone())
      ensures |m'| == |assigns| && forall v :: 0 <= v < |m'| ==> m'[v] != LUndef
      ensures forall v :: 0 <= v < |m'| && !eliminated[v] ==> m'[v] == m[v]
      ensures forall c :: c in formula ==> SatisfiedBy(m', c)
    {
      assert |eliminated| == |assigns|;
      hide DbOk, SatisfiedBy, Faithful, Flat, ModelOfRest;
      ExtendedModelIsAModel(formula, ca, trail, |assigns|, Gone(), recs, elimclauses, m);
      m' := ExtendModel(elimclauses, m, recs);
    }
  }
}
