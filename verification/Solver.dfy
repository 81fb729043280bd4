/** The conflict-driven clause-learning solver. */
module Solvers {
  import opened SolverTypes
  import opened Trails
  import opened Watches
  import opened Propagation
  import opened Backtracking
  import opened ConflictAnalysis
  import opened ReasonCones
  import opened ImplicationPoints
  import opened Database
  import opened Soundness
  import opened Verdicts
  import opened AddingClauses
  import opened SearchProgress
  import opened Restarts
  import opened Assuming
  import opened UnitPropagation
  import opened UnitClosure
  import opened Reduction
  import Sort

  class Solver {
    var ok: bool
    var ca: seq<ClauseRec>
    var clauses: seq<CRef>
    var learnts: seq<CRef>
    var watches: Lists
    var dirty: set<Lit>
    var dirties: seq<Lit>
    var assigns: seq<LBool>
    var decision: seq<bool>
    var trail: seq<Lit>
    var trailLim: seq<nat>
    /**
     * When satisfied clauses were last removed: the assignments then, and the propagations until it is worthwhile
     * again.
     */
    var simpDBAssigns: int
    var simpDBProps: int
    var vardata: seq<VarData>
    var qhead: nat
    var orderHeap: set<Var>
    var seen: seq<bool>
    var assumptions: seq<Lit>
    var conflict: seq<Lit>
    var model: seq<LBool>
    var conflicts: nat
    /** The conflict limits of the searches so far. */
    ghost var limits: seq<int>
    /** The stack index of each assigned variable. */
    ghost var pos: seq<nat>
    /** The problem as given by the user. */
    ghost var formula: set<seq<Lit>>

    ghost function T(): Trail
      reads this
    {
      Trail(assigns, vardata, trail, trailLim, pos)
    }

    // ---------- watch lists ----------

    ghost predicate DirtiesOk()
      reads this
    {
      DirtiesListed(watches, dirty, dirties)
    }

    method Clean(q: Lit)
      requires q in watches
      modifies `watches, `dirty
      ensures watches == old(watches)[q := Cleaned(ca, old(watches[q]))] && dirty == old(dirty) - {q}
    {
      var l, kept, i := watches[q], [], 0;
      while i < |l|
        invariant 0 <= i <= |l| && kept == Cleaned(ca, l[..i])
      {
        assert l[..i + 1][..i] == l[..i];
        if !IsDeleted(ca, l[i].cref) { kept := kept + [l[i]]; }
        i := i + 1;
      }
      assert l[..i] == l;
      watches, dirty := watches[q := kept], dirty - {q};
    }

    method CleanAll()
      requires Idle(T(), ca, watches, dirty, qhead) && DirtiesOk()
      modifies `watches, `dirty, `dirties
      ensures Idle(T(), ca, watches, {}, qhead) && dirty == {} && dirties == []
    {
      hide Idle;
      ghost var t := T();
      var i := 0;
      while i < |dirties|
        invariant 0 <= i <= |dirties| && Idle(t, ca, watches, dirty, qhead)
        invariant forall q :: q in dirty ==> q in dirties[i..] && q in watches
      {
        if dirties[i] in dirty {
          CleanKeepsIdle(t, ca, watches, dirty, qhead, dirties[i]);
          Clean(dirties[i]);
        }
        i := i + 1;
      }
      dirties := [];
      assert dirty == {} && T() == t;
    }

    // ---------- assignment ----------

    /** uncheckedEnqueue. */
    method Enqueue(p: Lit, from: CRef)
      requires p.v < |assigns| && |vardata| == |assigns| && |pos| == |assigns| && assigns[p.v] == LUndef
      modifies `assigns, `vardata, `trail, `pos
      ensures T() == Enqueued(old(T()), p, from)
    {
      assigns := assigns[p.v := Polarity(p)];
      vardata := vardata[p.v := VarData(from, |trailLim|)];
      pos := pos[p.v := |trail|];
      trail := trail + [p];
    }

    // ---------- unit propagation ----------

    ghost predicate ScanOk(p: Lit, j: nat)
      reads this
    {
      Scanning(T(), ca, watches, qhead, p, j)
    }

    /** Make sure the false literal is the clause's second. */
    method MakeSecond(p: Lit, j: nat)
      requires ScanOk(p, j) && j < |watches[p]|
      modifies `ca
      ensures ScanOk(p, j) && Reordered(old(ca), ca)
      ensures EntryOk(ca, p, watches[p][j]) && ca[watches[p][j].cref].lits[1] == Neg(p)
    {
      EntryIsOk(T(), ca, watches, qhead, p, j);
      var r := watches[p][j].cref;
      if ca[r].lits[0] == Neg(p) {
        Normalize(T(), ca, watches, qhead, p, j);
        ca := SwapLits(ca, r, 0, 1);
      }
    }

    /** Look for a new watch; without one the clause is unit or false. */
    method Rewatch(p: Lit, j: nat) returns (kept: bool, confl: CRef)
      requires ScanOk(p, j) && j < |watches[p]|
      requires EntryOk(ca, p, watches[p][j]) && ca[watches[p][j].cref].lits[1] == Neg(p)
      requires !IsTrue(T(), ca[watches[p][j].cref].lits[0])
      modifies `ca, `watches, `assigns, `vardata, `trail, `pos
      ensures Reordered(old(ca), ca) && Propagated(old(T()), T())
      ensures ScanOk(p, if kept && confl == CREF_UNDEF then j + 1 else j)
      ensures |watches[p]| == if kept then old(|watches[p]|) else old(|watches[p]|) - 1
      ensures confl != CREF_UNDEF ==> Conflicting(confl)
    {
      hide Scanning;
      EntryIsOk(T(), ca, watches, qhead, p, j);
      ScannedIsCurrent(T(), ca, watches, qhead, p, j);
      var r := watches[p][j].cref;
      var first := ca[r].lits[0];
      var k := 2;
      while k < |ca[r].lits| && Value(assigns, ca[r].lits[k]) == LFalse
        invariant 2 <= k <= |ca[r].lits|
        invariant forall x :: 2 <= x < k ==> IsFalse(T(), ca[r].lits[x])
      {
        k := k + 1;
      }
      if k < |ca[r].lits| {
        Move(T(), ca, watches, qhead, p, j, k);
        watches, ca := Moved(ca, watches, p, j, k), SwapLits(ca, r, 1, k);
        return false, CREF_UNDEF;
      }
      Reblock(T(), ca, watches, qhead, p, j, first);
      watches := watches[p := watches[p][j := Watcher(r, first)]];
      if Value(assigns, first) == LFalse {
        return true, r;
      }
      Unit(T(), ca, watches, qhead, p, j);
      Enqueue(first, r);
      return true, CREF_UNDEF;
    }

    /** One step of the scan of p's list: entry j stays (and is served), moves away, or shows a conflict. */
    method VisitWatcher(p: Lit, j: nat) returns (kept: bool, confl: CRef)
      requires ScanOk(p, j) && j < |watches[p]|
      modifies `ca, `watches, `assigns, `vardata, `trail, `pos
      ensures Reordered(old(ca), ca) && Propagated(old(T()), T())
      ensures ScanOk(p, if kept && confl == CREF_UNDEF then j + 1 else j)
      ensures |watches[p]| == if kept then old(|watches[p]|) else old(|watches[p]|) - 1
      ensures confl != CREF_UNDEF ==> Conflicting(confl)
    {
      hide Scanning;
      EntryIsOk(T(), ca, watches, qhead, p, j);
      var w := watches[p][j];
      // Try to avoid inspecting the clause.
      if Value(assigns, w.blocker) == LTrue {
        BlockerTrue(T(), ca, watches, qhead, p, j);
        return true, CREF_UNDEF;
      }
      MakeSecond(p, j);
      EntryIsOk(T(), ca, watches, qhead, p, j);
      var first := ca[w.cref].lits[0];
      if first != w.blocker && Value(assigns, first) == LTrue {
        Reblock(T(), ca, watches, qhead, p, j, first);
        watches := watches[p := watches[p][j := Watcher(w.cref, first)]];
        OtherTrue(T(), ca, watches, qhead, p, j);
        return true, CREF_UNDEF;
      }
      kept, confl := Rewatch(p, j);
    }
    /** Clause r is live and falsified. */
    ghost predicate Conflicting(r: CRef)
      reads this
    {
      0 <= r < |ca| && !ca[r].deleted && forall k :: 0 <= k < |ca[r].lits| ==> IsFalse(T(), ca[r].lits[k])
    }

    method PropagateLit(p: Lit) returns (confl: CRef)
      requires ScanOk(p, 0)
      modifies `ca, `watches, `assigns, `vardata, `trail, `pos
      ensures Reordered(old(ca), ca) && Propagated(old(T()), T()) && TrailOk(T())
      ensures confl == CREF_UNDEF ==> Idle(T(), ca, watches, {}, qhead)
      ensures confl != CREF_UNDEF ==> Conflicting(confl) && Halted(T(), ca, watches)
    {
      hide Scanning, Idle, Halted;
      var j, kept := 0, true;
      confl := CREF_UNDEF;
      ScanFits(T(), ca, watches, qhead, p, j);
      while confl == CREF_UNDEF && j < |watches[p]|
        invariant ScanOk(p, j) && p in watches && j <= |watches[p]|
        invariant Reordered(old(ca), ca) && Propagated(old(T()), T()) && TrailOk(T())
        invariant confl != CREF_UNDEF ==> Conflicting(confl)
        decreases if confl == CREF_UNDEF then 1 else 0, |watches[p]| - j
      {
        ghost var t := T();
        kept, confl := VisitWatcher(p, j);
        if kept && confl == CREF_UNDEF { j := j + 1; }
        ScanFits(T(), ca, watches, qhead, p, j);
        PropagatedIsTransitive(old(T()), t, T());
      }
      FinishScan(T(), ca, watches, qhead, p, j);
    }

    method Propagate() returns (confl: CRef)
      requires Idle(T(), ca, watches, dirty, qhead) && DirtiesOk()
      modifies `ca, `watches, `dirty, `dirties, `assigns, `vardata, `trail, `pos, `qhead, `simpDBProps
      ensures Reordered(old(ca), ca) && Propagated(old(T()), T())
      ensures dirty == {} && dirties == [] && qhead == |trail|
      ensures confl == CREF_UNDEF ==> Idle(T(), ca, watches, {}, qhead)
      ensures confl != CREF_UNDEF ==> Conflicting(confl) && Halted(T(), ca, watches)
      ensures old(simpDBProps) - (|trail| - old(qhead)) <= simpDBProps <= old(simpDBProps)
      ensures confl == CREF_UNDEF ==> simpDBProps == old(simpDBProps) - (|trail| - old(qhead))
      ensures confl == CREF_UNDEF ==> IsClosure(ca, LitSet(old(trail)), LitSet(trail))
      ensures confl == CREF_UNDEF <==> !Conflicts(ca, LitSet(old(trail)))
    {
      StartPropagate();
      hide *;
      ghost var t0, ca0 := T(), ca;
      TrailOfT();
      CleanAll();
      var numProps;
      confl, numProps := EmptyQueue();
      PropagationMeans(t0, confl);
      CountProps(numProps);
    }

    /** The loop over the queue, and how many literals it took from it. */
    method EmptyQueue() returns (confl: CRef, numProps: int)
      requires Idle(T(), ca, watches, {}, qhead) && dirty == {} && dirties == [] && qhead <= |trail| <= |assigns|
      requires TrailOk(T()) && Propagated(T(), T()) && Reordered(ca, ca)
      modifies `ca, `watches, `assigns, `vardata, `trail, `pos, `qhead
      ensures Reordered(old(ca), ca) && Propagated(old(T()), T()) && qhead == |trail|
      ensures confl == CREF_UNDEF ==> Idle(T(), ca, watches, {}, qhead)
      ensures confl != CREF_UNDEF ==> Conflicting(confl) && Halted(T(), ca, watches)
      ensures 0 <= numProps <= qhead - old(qhead) && (confl == CREF_UNDEF ==> numProps == qhead - old(qhead))
    {
      hide *;
      ghost var t0, ca0 := T(), ca;
      confl, numProps := CREF_UNDEF, 0;
      while qhead < |trail|
        invariant Reordered(ca0, ca) && Propagated(t0, T()) && TrailOk(T())
        invariant qhead <= |trail| <= |assigns| == |old(assigns)|
        invariant confl == CREF_UNDEF ==> Idle(T(), ca, watches, {}, qhead)
        invariant confl != CREF_UNDEF ==> qhead == |trail| && Conflicting(confl) && Halted(T(), ca, watches)
        invariant 0 <= numProps <= qhead - old(qhead) && (confl == CREF_UNDEF ==> numProps == qhead - old(qhead))
        decreases |assigns| - qhead
      {
        ghost var t, ca1 := T(), ca;
        confl := PropagateNext();
        numProps := numProps + 1;
        PropagatedIsTransitive(t0, t, T());
        ReorderedIsTransitive(ca0, ca1, ca);
      }
    }

    lemma TrailOfT()
      ensures T().lits == trail
    {
    }

    /** Watched propagation does what naive unit propagation does. */
    lemma PropagationMeans(t0: Trail, confl: CRef)
      requires Propagated(t0, T())
      requires if confl == CREF_UNDEF then Idle(T(), ca, watches, {}, qhead) && qhead == |trail|
               else Conflicting(confl) && Halted(T(), ca, watches)
      ensures confl == CREF_UNDEF ==> IsClosure(ca, LitSet(t0.lits), LitSet(trail))
      ensures confl == CREF_UNDEF <==> !Conflicts(ca, LitSet(t0.lits))
    {
      hide Idle, Halted, Propagated, IsClosure, Conflicts, LitSet;
      if confl == CREF_UNDEF {
        PropagationIsUnitClosure(t0, T(), ca, watches);
      } else {
        ConflictIsUnitConflict(t0, T(), ca, watches, confl);
      }
    }

    method CountProps(n: nat)
      modifies `simpDBProps
      ensures simpDBProps == old(simpDBProps) - n
    {
      simpDBProps := simpDBProps - n;
    }

    lemma StartPropagate()
      requires Idle(T(), ca, watches, dirty, qhead)
      ensures Reordered(ca, ca) && Propagated(T(), T()) && TrailOk(T()) && qhead <= |trail| <= |assigns|
    {
      PropagatedIsReflexive(T(), ca);
      IdleFits(T(), ca, watches, dirty, qhead);
    }

    /** The next literal of the trail; a conflict empties the queue. */
    method PropagateNext() returns (confl: CRef)
      requires Idle(T(), ca, watches, {}, qhead) && dirty == {} && qhead < |trail| <= |assigns| && TrailOk(T())
      modifies `ca, `watches, `assigns, `vardata, `trail, `pos, `qhead
      ensures Reordered(old(ca), ca) && Propagated(old(T()), T()) && TrailOk(T())
      ensures qhead <= |trail| <= |assigns| == |old(assigns)| && qhead > old(qhead)
      ensures confl == CREF_UNDEF ==> qhead == old(qhead) + 1 && Idle(T(), ca, watches, {}, qhead)
      ensures confl != CREF_UNDEF ==> qhead == |trail| && Conflicting(confl) && Halted(T(), ca, watches)
    {
      hide Idle, Halted, TrailOk, Propagated, Reordered;
      ghost var t := T();
      StartScan(t, ca, watches, qhead);
      qhead := qhead + 1;
      assert T() == t;
      confl := PropagateLit(trail[qhead - 1]);
      TrailFits(T());
      PropagatedExtends(t, T());
      if confl != CREF_UNDEF {
        qhead := |trail|;
      } else {
        IdleFits(T(), ca, watches, {}, qhead);
      }
    }

    // ---------- conflict analysis ----------

    /** What analysis needs to know; it changes nothing but the marks. */
    ghost predicate AnalyzeOk()
      reads this
    {
      && TrailOk(T()) && ReasonsOk(T(), ca) && ClausesOk(ca, |assigns|) && |seen| == |assigns|
      && ClausesSound(formula, ca) && RootSound(formula, T())
    }

    /** Mark the literals of c from index start on that are not of level 0. */
    method MarkLits(c: seq<Lit>, start: nat, rest0: seq<Lit>, pathC0: nat, ghost open0: set<Lit>, ghost bound: nat)
        returns (rest: seq<Lit>, pathC: nat, ghost open: set<Lit>)
      requires TrailOk(T()) && Frontier(T(), seen, rest0, open0, bound) && pathC0 == |open0|
      requires start <= |c| && forall k :: start <= k < |c| ==> IsFalse(T(), c[k]) && Pos(T(), c[k]) < bound
      modifies `seen
      ensures Frontier(T(), seen, rest, open, bound) && pathC == |open| && rest0 <= rest && open0 <= open
      ensures ClauseMet(T(), c, start, rest0, open0, rest, open)
    {
      hide Frontier, LevelsOk, LimOk;
      rest, pathC, open := rest0, pathC0, open0;
      var j := start;
      FrontierFits(T(), seen, rest, open, bound);
      while j < |c|
        invariant start <= j <= |c| && |seen| == |assigns|
        invariant Frontier(T(), seen, rest, open, bound) && pathC == |open| && rest0 <= rest && open0 <= open
        invariant forall k :: start <= k < j ==> c[k] in rest || c[k] in open || Level(T(), c[k]) == 0
        invariant forall q :: q in rest || q in open ==>
                    q in rest0 || q in open0 || (q in c[start..] && Level(T(), q) > 0)
      {
        var q := c[j];
        assert c[start..][j - start] == q;
        if !seen[q.v] && vardata[q.v].level > 0 {
          if vardata[q.v].level >= |trailLim| {
            FalseLevelIsAtMostCurrent(T(), q);
            MarkCurrent(T(), seen, rest, open, bound, q);
            seen, pathC, open := seen[q.v := true], pathC + 1, open + {q};
          } else {
            MarkLow(T(), seen, rest, open, bound, q);
            seen, rest := seen[q.v := true], rest + [q];
          }
        } else if seen[q.v] {
          AlreadyMarked(T(), seen, rest, open, bound, q);
        }
        j := j + 1;
      }
    }

    /** Walk down the stack to the next marked literal and take its mark away. */
    method TakeNext(index0: nat, rest: seq<Lit>, ghost open: set<Lit>) returns (p: Lit, index: nat)
      requires TrailOk(T()) && 0 < index0 <= |trail| && Frontier(T(), seen, rest, open, index0) && open != {}
      modifies `seen
      ensures index < index0 && p == trail[index] && Neg(p) in open && Level(T(), p) == |trailLim|
      ensures Frontier(T(), seen, rest, open - {Neg(p)}, index) && Frontier(T(), old(seen), rest, open, index + 1)
    {
      hide Frontier, TrailOk, Level, Pos;
      ghost var q := OpenIsMarked(T(), seen, rest, open, index0);
      index := index0 - 1;
      while !seen[trail[index].v]
        invariant Pos(T(), q) <= index < index0
        invariant forall x :: index < x < index0 ==> !seen[trail[x].v]
        decreases index
      {
        index := index - 1;
      }
      LowerBound(T(), seen, rest, open, index0, index + 1);
      TakeOpen(T(), seen, rest, open, index, q);
      p := trail[index];
      seen := seen[p.v := false];
    }

    /** Resolve backwards along the stack until one literal of the current level is left. */
    method FirstUip(confl0: CRef) returns (p: Lit, rest: seq<Lit>)
      requires AnalyzeOk() && Conflicting(confl0) && |trailLim| > 0 && AllUnmarked(seen)
      requires Level(T(), ca[confl0].lits[0]) == |trailLim|
      modifies `seen
      ensures FirstUipIs(T(), ca, ca[confl0].lits, p, rest)
      ensures Frontier(T(), seen, rest, {}, |trail|)
      ensures IsTrue(T(), p) && Level(T(), p) == |trailLim|
      ensures ImpliedSet(formula, LitSet(rest) + {Neg(p)})
    {
      hide Frontier, TrailOk, ReasonsOk, ClausesOk, ClausesSound, RootSound, ImpliedSet, Searching, Met, FirstUipIs;
      hide AboveRoot, ClauseMet;
      var confl, start: nat, index: nat, pathC: nat := confl0, 0, |trail|, 0;
      ghost var open: set<Lit>, done: set<Var> := {}, {};
      rest := [];
      StartFrontier(T(), seen);
      StartClause(T(), ca, formula, confl0);
      StartSearching(T(), ca, ca[confl].lits);
      p := ca[confl].lits[0];
      while true
        invariant index <= |trail| && start <= 1 && pathC == |open|
        invariant Frontier(T(), seen, rest, open, index)
        invariant ResolutionOk(T(), ca, formula, confl, start, rest, open, index, p)
        invariant Searching(T(), ca, ca[confl0].lits, rest, open, done, if start == 0 then {} else {p.v}, index)
        invariant if start == 0 then confl == confl0
                  else AboveRoot(T(), ca[confl0].lits) <= Met(rest, open, done) && Reason(T(), p) == confl
        decreases index
      {
        ghost var rest0, open0 := rest, open;
        rest, pathC, open := MarkLits(ca[confl].lits, start, rest, pathC, open, index);
        ClauseIsMet(T(), ca[confl].lits, start, rest0, open0, rest, open);
        ResolutionStep(T(), ca, formula, seen, confl, start, rest0, open0, rest, open, index, p);
        SearchClause(T(), ca, ca[confl0].lits, confl, start, p, rest0, open0, rest, open, done, index);
        ghost var open1, seen1, index1 := open, seen, index;
        p, index := TakeNext(index, rest, open);
        SearchTake(T(), ca, seen1, ca[confl0].lits, rest, open1, done, index1, index);
        open, done, pathC := open - {Neg(p)}, done + {p.v}, pathC - 1;
        TakenKeepsImplied(formula, rest, open1, p);
        if pathC == 0 {
          assert |open| == 0 && open == {};
          RaiseBound(T(), seen, rest, {}, index, |trail|);
          TakenIsTrue(T(), index);
          assert LitSet(rest) + {} + {Neg(p)} == LitSet(rest) + {Neg(p)};
          break;
        }
        confl, start := vardata[p.v].reason, 1;
        NextClause(T(), ca, formula, seen, rest, open, index, p);
      }
    }

    // ---------- clause minimization ----------

    method Unmark(toclear: seq<Lit>, top: nat)
      requires top <= |toclear| && forall i :: top <= i < |toclear| ==> toclear[i].v < |seen|
      modifies `seen
      ensures |seen| == |old(seen)|
      ensures forall v :: 0 <= v < |seen| ==> (seen[v] <==> old(seen)[v] && v !in VarSet(toclear[top..]))
    {
      var j := top;
      while j < |toclear|
        invariant top <= j <= |toclear| && |seen| == |old(seen)|
        invariant forall v :: 0 <= v < |seen| ==> (seen[v] <==> old(seen)[v] && v !in VarSet(toclear[top..j]))
      {
        assert toclear[top..j + 1] == toclear[top..j] + [toclear[j]];
        VarSetAppend(toclear[top..j], toclear[j]);
        seen := seen[toclear[j].v := false];
        j := j + 1;
      }
      assert toclear[top..j] == toclear[top..];
    }

    /** Look at the reason of q; push what is not marked yet, or give up. */
    method ScanReason(q: Lit, levels: set<nat>, ghost seen0: seq<bool>, ghost v0: Var, pushed0: seq<Lit>,
                      stack0: seq<Lit>)
        returns (ok: bool, pushed: seq<Lit>, stack: seq<Lit>)
      requires AnalyzeOk() && HasReason(T(), ca, q)
      requires Exploring(T(), ca, seen0, seen, v0, pushed0, stack0, {q.v})
      requires Walking(T(), ca, levels, seen0, v0, pushed0, stack0) && BelowCone(T(), ca, seen0, v0, q.v)
      modifies `seen
      ensures if ok then Walking(T(), ca, levels, seen0, v0, pushed, stack)
              else !IsRedundant(T(), ca, levels, Marked(seen0), v0)
      ensures Exploring(T(), ca, seen0, seen, v0, pushed, stack, if ok then {} else {q.v})
      ensures Unmarked(seen) < Unmarked(old(seen)) || (seen == old(seen) && stack == stack0)
    {
      hide Exploring, ClausesSound, RootSound, Covered, HasReason, TrailOk, ReasonsOk, ClausesOk, Walking, IsRedundant;
      hide InCone, BelowCone, Marked;
      TrailShape(T());
      ReasonIsFalse(T(), ca, q);
      var c := ca[vardata[q.v].reason].lits;
      pushed, stack := pushed0, stack0;
      CoveredStart(T(), seen, c);
      var i := 1;
      while i < |c|
        invariant 1 <= i && |seen| == |assigns|
        invariant Exploring(T(), ca, seen0, seen, v0, pushed, stack, {q.v}) && Covered(T(), seen, c, i)
        invariant Walking(T(), ca, levels, seen0, v0, pushed, stack)
        invariant Unmarked(seen) < Unmarked(old(seen)) || (seen == old(seen) && stack == stack0)
      {
        var l := c[i];
        if !seen[l.v] && vardata[l.v].level > 0 {
          ReasonInCone(T(), ca, seen0, v0, q, i);
          UnmarkedBefore(T(), ca, seen0, seen, v0, pushed, stack, {q.v}, l.v);
          if vardata[l.v].reason == CREF_UNDEF || vardata[l.v].level % 32 !in levels {
            Blocked(T(), ca, levels, seen0, v0, l.v);
            return false, pushed, stack;
          }
          FalseHasReason(T(), ca, l);
          Push(T(), ca, seen0, seen, v0, pushed, stack, {q.v}, l);
          WalkOn(T(), ca, levels, seen0, v0, pushed, stack, l);
          MarkShrinksUnmarked(seen, l.v);
          CoveredIsMonotone(T(), seen, c, i, l.v);
          seen, pushed, stack := seen[l.v := true], pushed + [l], stack + [l];
        }
        CoveredNext(T(), seen, c, i);
        i := i + 1;
      }
      CoveredAll(T(), seen, c, i);
      Close(T(), ca, seen0, seen, v0, pushed, stack, q);
      ok := true;
    }

    /** Check if p can be removed: all it follows from is marked. A failed search leaves no trace. */
    method LitRedundant(p: Lit, levels: set<nat>, ghost rest: seq<Lit>, toclear0: seq<Lit>)
        returns (redundant: bool, toclear: seq<Lit>)
      requires AnalyzeOk() && HasReason(T(), ca, p) && MarksOk(T(), ca, seen, rest, toclear0)
      modifies `seen
      ensures !redundant ==> seen == old(seen) && toclear == toclear0
      ensures MarksOk(T(), ca, seen, rest, toclear)
      ensures redundant ==> Justified(T(), ca, seen, p.v)
      ensures redundant <==> IsRedundant(T(), ca, levels, Marked(old(seen)), p.v)
      ensures redundant ==>
        Marked(seen) == Marked(old(seen)) + Cone(T(), ca, Antecedents(T(), ca, p.v), Marked(old(seen)))
      ensures |seen| == |old(seen)| && forall v :: 0 <= v < |seen| && old(seen)[v] ==> seen[v]
    {
      hide Exploring, MarksOk, HasReason, TrailOk, ReasonsOk, ClausesOk, ClausesSound, RootSound, Walking, IsRedundant;
      hide BelowCone, Marked, Cone, Antecedents;
      var stack, pushed, ok := [p], [], true;
      StartExploring(T(), ca, seen, p);
      StartWalking(T(), ca, levels, seen, p);
      while |stack| > 0
        invariant Exploring(T(), ca, old(seen), seen, p.v, pushed, stack, {})
        invariant Walking(T(), ca, levels, old(seen), p.v, pushed, stack)
        decreases Unmarked(seen), |stack|
      {
        var q := stack[|stack| - 1];
        TopHasReason(T(), ca, old(seen), seen, p.v, pushed, stack);
        Pop(T(), ca, old(seen), seen, p.v, pushed, stack);
        WalkDown(T(), ca, levels, old(seen), p.v, pushed, stack);
        ok, pushed, stack := ScanReason(q, levels, old(seen), p.v, pushed, stack[..|stack| - 1]);
        if !ok {
          ghost var seen1 := seen;
          PushedInRange(T(), ca, old(seen), seen, p.v, toclear0, pushed, stack, {q.v});
          Unmark(toclear0 + pushed, |toclear0|);
          assert (toclear0 + pushed)[|toclear0|..] == pushed;
          Restore(T(), ca, old(seen), seen1, p.v, pushed, stack, {q.v}, seen);
          return false, toclear0;
        }
      }
      assert stack == [];
      Walked(T(), ca, levels, old(seen), seen, p.v, pushed);
      Explored(T(), ca, old(seen), seen, p.v, pushed, rest, toclear0);
      return true, toclear0 + pushed;
    }

    /** ccmin-mode 1: all other literals of q's reason are marked or of level 0. */
    method LocallyRedundant(q: Lit) returns (b: bool)
      requires AnalyzeOk() && HasReason(T(), ca, q)
      ensures b <==> Justified(T(), ca, seen, q.v)
    {
      ReasonIsFalse(T(), ca, q);
      var c := ca[vardata[q.v].reason].lits;
      var k := 1;
      while k < |c|
        invariant 1 <= k && Covered(T(), seen, c, k)
      {
        if !seen[c[k].v] && vardata[c[k].v].level > 0 { return false; }
        k := k + 1;
      }
      b := true;
    }

    /** Drop exactly the redundant literals of a learnt clause, as mode says: 1 locally, 2 deeply, else none. */
    method Minimize(mode: nat, p: Lit, rest: seq<Lit>) returns (kept: seq<Lit>, toclear: seq<Lit>)
      requires AnalyzeOk() && Frontier(T(), seen, rest, {}, |trail|) && p.v < |assigns|
      requires ImpliedSet(formula, LitSet(rest) + {p})
      modifies `seen
      ensures |seen| == |assigns|
      ensures Compacted(T(), ca, seen, rest, |rest|, kept) && MarksOk(T(), ca, seen, rest, toclear)
      ensures ImpliedSet(formula, LitSet(kept) + {p}) && kept == Kept(T(), ca, mode, rest, |rest|)
    {
      hide Compacted, MarksOk, Frontier, HasReason, TrailOk, ReasonsOk, ClausesOk, ClausesSound, RootSound, ImpliedSet;
      hide Justified, SharedMarks, Droppable;
      toclear, kept := [p] + rest, [];
      MarksStart(T(), ca, seen, rest, |trail|, p);
      CompactStart(T(), ca, seen, rest, |trail|);
      TrailShape(T());
      FrontierFits(T(), seen, rest, {}, |trail|);
      FrontierMarks(T(), seen, rest, |trail|);
      NoSharedMarks(T(), ca, rest, seen);
      var levels := {};
      if mode == 2 { levels := LevelsOf(rest); }
      var i := 0;
      while i < |rest|
        invariant 0 <= i <= |rest| && |seen| == |assigns|
        invariant Compacted(T(), ca, seen, rest, i, kept) && MarksOk(T(), ca, seen, rest, toclear)
        invariant if mode == 2 then SharedMarks(T(), ca, LevelSet(T(), rest), VarSet(rest), Marked(seen))
                  else seen == old(seen)
        invariant kept == Kept(T(), ca, mode, rest, i)
      {
        var q := rest[i];
        CompactInRange(T(), ca, seen, rest, i, kept);
        ghost var seen0 := seen;
        var drop: bool;
        drop, toclear := CanDrop(mode, levels, rest, q, toclear);
        CompactIsMonotone(T(), ca, seen0, rest, i, kept, seen);
        if drop {
          CompactDrop(T(), ca, seen, rest, i, kept);
        } else {
          CompactKeep(T(), ca, seen, rest, i, kept);
          kept := kept + [q];
        }
        i := i + 1;
      }
      CompactIsImplied(formula, T(), ca, seen, rest, kept, toclear, p);
    }

    /** One literal of the learnt clause. */
    method CanDrop(mode: nat, levels: set<nat>, ghost rest: seq<Lit>, q: Lit, toclear0: seq<Lit>)
        returns (drop: bool, toclear: seq<Lit>)
      requires AnalyzeOk() && IsFalse(T(), q) && MarksOk(T(), ca, seen, rest, toclear0)
      requires if mode == 2 then levels == LevelSet(T(), rest) &&
                                 SharedMarks(T(), ca, LevelSet(T(), rest), VarSet(rest), Marked(seen))
               else Marked(seen) == VarSet(rest)
      modifies `seen
      ensures MarksOk(T(), ca, seen, rest, toclear) && (drop ==> Justified(T(), ca, seen, q.v))
      ensures |seen| == |old(seen)| && forall v :: 0 <= v < |seen| && old(seen)[v] ==> seen[v]
      ensures if mode == 2 then SharedMarks(T(), ca, LevelSet(T(), rest), VarSet(rest), Marked(seen))
              else seen == old(seen)
      ensures drop <==> Droppable(T(), ca, mode, rest, q)
    {
      hide MarksOk, HasReason, TrailOk, ReasonsOk, ClausesOk, ClausesSound, RootSound, Justified, SharedMarks;
      hide LevelSet, Marked, Cone, Antecedents, IsRedundant;
      TrailShape(T());
      drop, toclear := false, toclear0;
      if vardata[q.v].reason != CREF_UNDEF {
        FalseHasReason(T(), ca, q);
        if mode == 2 {
          drop, toclear := LitRedundant(q, levels, rest, toclear);
          SharedMarksKeepAnswers(T(), ca, levels, VarSet(rest), Marked(old(seen)), q.v);
          if drop {
            SharedMarksGrow(T(), ca, levels, VarSet(rest), Marked(old(seen)), Marked(seen), q.v);
          }
        } else if mode == 1 {
          drop := LocallyRedundant(q);
          LocalIsJustified(T(), ca, seen, rest, q);
        }
      }
    }

    static lemma NoSharedMarks(t: Trail, ca: seq<ClauseRec>, rest: seq<Lit>, seen: seq<bool>)
      requires Marked(seen) == VarSet(rest)
      ensures SharedMarks(t, ca, LevelSet(t, rest), VarSet(rest), Marked(seen))
    {
    }

    /** The abstraction of the levels involved in the conflict: levels modulo 32. */
    method LevelsOf(rest: seq<Lit>) returns (levels: set<nat>)
      requires forall i :: 0 <= i < |rest| ==> rest[i].v < |vardata|
      ensures levels == set i | 0 <= i < |rest| :: vardata[rest[i].v].level % 32
    {
      levels := {};
      var i := 0;
      while i < |rest|
        invariant 0 <= i <= |rest| && levels == set k | 0 <= k < i :: vardata[rest[k].v].level % 32
      {
        levels := levels + {vardata[rest[i].v].level % 32};
        i := i + 1;
      }
    }

    /** Put a literal of the highest level at index 1 and return to that level. */
    method FindBacktrackLevel(c0: seq<Lit>) returns (c: seq<Lit>, bt: nat)
      requires TrailOk(T()) && |trailLim| > 0 && |c0| >= 1 && DistinctVars(c0)
      requires forall i :: 0 <= i < |c0| ==> IsFalse(T(), c0[i])
      requires Level(T(), c0[0]) == |trailLim| && forall i :: 1 <= i < |c0| ==> 0 < Level(T(), c0[i]) < |trailLim|
      ensures Asserting(T(), c, bt) && multiset(c) == multiset(c0)
    {
      if |c0| == 1 { return c0, 0; }
      var maxI, i := 1, 2;
      while i < |c0|
        invariant 1 <= maxI < |c0| && 2 <= i <= |c0|
        invariant forall k :: 1 <= k < i ==> Level(T(), c0[k]) <= Level(T(), c0[maxI])
      {
        if vardata[c0[i].v].level > vardata[c0[maxI].v].level { maxI := i; }
        i := i + 1;
      }
      c, bt := c0[maxI := c0[1]][1 := c0[maxI]], vardata[c0[maxI].v].level;
      SwapIsPermutation(c0, maxI, 1);
    }

    /** Conflict analysis: an implied clause that is asserting at level bt; no mark is left behind. */
    method Analyze(confl: CRef, mode: nat) returns (learnt: seq<Lit>, bt: nat)
      requires AnalyzeOk() && Conflicting(confl) && |trailLim| > 0 && AllUnmarked(seen)
      requires Level(T(), ca[confl].lits[0]) == |trailLim|
      modifies `seen
      ensures Asserting(T(), learnt, bt) && Implied(formula, learnt)
      ensures LearntIs(T(), ca, mode, ca[confl].lits, learnt)
      ensures AllUnmarked(seen) && |seen| == |assigns|
    {
      hide Frontier, MarksOk, Compacted, ImpliedSet, Asserting, FirstUipIs;
      var p, rest := FirstUip(confl);
      FrontierFits(T(), seen, rest, {}, |trail|);
      var kept, toclear := Minimize(mode, Neg(p), rest);
      BuildAsserting(T(), ca, seen, rest, kept, |trail|, Neg(p));
      learnt, bt := FindBacktrackLevel([Neg(p)] + kept);
      ImpliedAsClause(formula, kept, Neg(p), learnt);
      MarksInRange(T(), ca, seen, rest, toclear);
      Unmark(toclear, 0);
      assert toclear[0..] == toclear;
    }

    // ---------- the final conflict ----------

    /** Mark the literals of a reason, at stack index i, that are not of level 0. */
    method MarkReason(c: seq<Lit>, ghost marked0: seq<bool>, ghost out: seq<Lit>, ghost i: nat, ghost p: Lit)
        returns (ghost marked: seq<bool>)
      requires TrailOk(T()) && forall k :: 1 <= k < |c| ==> IsFalse(T(), c[k]) && Pos(T(), c[k]) < i
      requires Finalizing(T(), ca, assumptions, seen, marked0, out, i, p)
      requires forall k :: 1 <= k < |c| && Level(T(), c[k]) > 0 ==> c[k].v in Cone(T(), ca, AboveRoot(T(), [p]), {})
      modifies `seen
      ensures Finalizing(T(), ca, assumptions, seen, marked, out, i, p) && Covered(T(), marked, c, |c|)
    {
      hide Finalizing, TrailOk, Cone, AboveRoot;
      marked := marked0;
      TrailShape(T());
      FinalShape(T(), ca, assumptions, seen, marked, out, i, p);
      var j := 1;
      while j < |c|
        invariant 1 <= j && |seen| == |marked| == |assigns|
        invariant Finalizing(T(), ca, assumptions, seen, marked, out, i, p) && Covered(T(), marked, c, j)
      {
        if vardata[c[j].v].level > 0 {
          FinalMark(T(), ca, assumptions, seen, marked, out, i, p, c[j]);
          CoveredIsMonotone(T(), marked, c, j, c[j].v);
          seen, marked := seen[c[j].v := true], marked[c[j].v := true];
        }
        j := j + 1;
      }
    }

    /** Deal with stack index i. */
    method FinalStep(i: nat, out0: seq<Lit>, ghost marked0: seq<bool>, p: Lit)
        returns (out: seq<Lit>, ghost marked: seq<bool>)
      requires AnalyzeOk() && DecisionsAssumed(T(), assumptions) && 0 < |trailLim| <= |assumptions|
      requires trailLim[0] <= i < |trail| && Finalizing(T(), ca, assumptions, seen, marked0, out0, i + 1, p)
      requires IsTrue(T(), p)
      modifies `seen
      ensures Finalizing(T(), ca, assumptions, seen, marked, out, i, p) && out0 <= out && |seen| == |assigns|
    {
      hide Finalizing, TrailOk, ReasonsOk, ClausesOk, ClausesSound, RootSound, DecisionsAssumed, Covered, Cone;
      hide AboveRoot, IsTrue;
      var x := trail[i].v;
      out, marked := out0, marked0;
      StackLevelIsPositive(T(), ca, i);
      FinalShape(T(), ca, assumptions, seen, marked, out, i + 1, p);
      if !seen[x] {
        FinalSkip(T(), ca, assumptions, seen, marked, out, i, p);
        return;
      }
      if vardata[x].reason == CREF_UNDEF {
        FinalDecision(T(), ca, assumptions, seen, marked, out, i, p);
        out := out + [Neg(trail[i])];
      } else {
        ReasonClauseIsFalse(T(), ca, i);
        MarkedReason(T(), ca, assumptions, seen, marked, out, i, p);
        marked := MarkReason(ca[vardata[x].reason].lits, marked, out, i + 1, p);
        FinalShape(T(), ca, assumptions, seen, marked, out, i + 1, p);
        FinalClose(T(), ca, assumptions, seen, marked, out, i, p);
      }
      seen := seen[x := false];
    }

    /** The set of assumptions that led to the true literal p, as a clause: exactly those that p was derived from. */
    method AnalyzeFinal(p: Lit) returns (out: seq<Lit>)
      requires AnalyzeOk() && AllUnmarked(seen) && IsTrue(T(), p) && Neg(p) in assumptions
      requires DecisionsAssumed(T(), assumptions) && |trailLim| <= |assumptions|
      modifies `seen
      ensures Implied(formula, out) && AllUnmarked(seen) && |seen| == |assigns|
      ensures forall q :: q in out ==> Neg(q) in assumptions
      ensures FinalCore(T(), ca, p, out)
    {
      if |trailLim| == 0 {
        RootTrueIsImplied(formula, T(), p);
        RootCore(T(), ca, p);
        return [p];
      }
      hide *;
      out := FinalAnalysis(p);
    }

    /** The same with at least one assumption decided: the marked part of the trail is resolved down to assumptions. */
    method FinalAnalysis(p: Lit) returns (out: seq<Lit>)
      requires AnalyzeOk() && AllUnmarked(seen) && IsTrue(T(), p) && Neg(p) in assumptions
      requires DecisionsAssumed(T(), assumptions) && 0 < |trailLim| <= |assumptions|
      modifies `seen
      ensures Implied(formula, out) && AllUnmarked(seen) && |seen| == |assigns|
      ensures forall q :: q in out ==> Neg(q) in assumptions
      ensures FinalCore(T(), ca, p, out)
    {
      assert p.v < |assigns|;
      hide Finalizing, TrailOk, ReasonsOk, ClausesOk, ClausesSound, RootSound, DecisionsAssumed, Covered, AllUnmarked;
      hide Implied, FinalCore, IsTrue, Marked, Cone, AboveRoot;
      out := [p];
      FinalStart(T(), ca, assumptions, seen, p);
      ghost var marked := if Level(T(), p) > 0 then seen[p.v := true] else seen;
      seen := seen[p.v := true];
      out, marked := FinalWalk(p, marked);
      FinalImplied(formula, T(), ca, assumptions, seen, marked, out, trailLim[0], p);
      seen := seen[p.v := false];
    }

    /** The loop down the stack to level 0. */
    method FinalWalk(p: Lit, ghost marked0: seq<bool>) returns (out: seq<Lit>, ghost marked: seq<bool>)
      requires AnalyzeOk() && DecisionsAssumed(T(), assumptions) && 0 < |trailLim| <= |assumptions|
      requires IsTrue(T(), p) && Finalizing(T(), ca, assumptions, seen, marked0, [p], |trail|, p)
      modifies `seen
      ensures AnalyzeOk() && Finalizing(T(), ca, assumptions, seen, marked, out, trailLim[0], p)
    {
      hide Finalizing, TrailOk, ReasonsOk, ClausesOk, ClausesSound, RootSound, DecisionsAssumed, IsTrue;
      LimInRange(T(), 0);
      out, marked := [p], marked0;
      var i := |trail|;
      while i > trailLim[0]
        invariant trailLim[0] <= i <= |trail| && |seen| == |assigns|
        invariant Finalizing(T(), ca, assumptions, seen, marked, out, i, p)
      {
        i := i - 1;
        out, marked := FinalStep(i, out, marked, p);
      }
    }

    // ---------- the invariant ----------

    ghost predicate Inv()
      reads this
    {
      && DatabaseOk(formula, T(), ca, watches, dirty, dirties, qhead, clauses, learnts)
      && |seen| == |assigns| && AllUnmarked(seen) && HeapOk(assigns, decision, orderHeap)
    }

    // ---------- the clause database ----------

    method Attach(r: CRef)
      requires 0 <= r < |ca| && |ca[r].lits| >= 2 && Neg(ca[r].lits[0]) in watches && Neg(ca[r].lits[1]) in watches
      modifies `watches
      ensures watches == Attached(old(watches), ca[r].lits, r)
    {
      var c := ca[r].lits;
      watches := watches[Neg(c[0]) := watches[Neg(c[0])] + [Watcher(r, c[1])]];
      watches := watches[Neg(c[1]) := watches[Neg(c[1])] + [Watcher(r, c[0])]];
    }

    method Smudge(q: Lit)
      requires DirtiesOk() && q in watches
      modifies `dirty, `dirties
      ensures DirtiesOk() && dirty == old(dirty) + {q}
    {
      if q !in dirty {
        dirty, dirties := dirty + {q}, dirties + [q];
      }
    }

    /** Detach lazily, forget a reason that would dangle, and mark the clause. */
    method RemoveClause(r: CRef)
      requires Idle(T(), ca, watches, dirty, qhead) && DirtiesOk() && 0 <= r < |ca|
      requires Locked(T(), ca, r) ==> |trailLim| == 0
      modifies `ca, `vardata, `dirty, `dirties
      ensures Idle(T(), ca, watches, dirty, qhead) && DirtiesOk()
      ensures ca == Removed(old(ca), r) && T() == Unlocked(old(T()), old(ca), r)
    {
      hide Idle;
      var c := ca[r].lits;
      RemoveKeepsIdle(T(), ca, watches, dirty, qhead, r);
      ClauseInRange(T(), ca, watches, dirty, qhead, r);
      Smudge(Neg(c[0]));
      Smudge(Neg(c[1]));
      assert dirty == old(dirty) + {Neg(c[0]), Neg(c[1])};
      if Value(assigns, c[0]) == LTrue && vardata[c[0].v].reason == r {
        vardata := vardata[c[0].v := vardata[c[0].v].(reason := CREF_UNDEF)];
      }
      ca := Removed(ca, r);
    }

    method Satisfied(c: seq<Lit>) returns (b: bool)
      requires InRange(c, |assigns|)
      ensures b <==> IsSatisfied(assigns, c)
    {
      var i := 0;
      while i < |c|
        invariant 0 <= i <= |c| && forall k :: 0 <= k < i ==> Value(assigns, c[k]) != LTrue
      {
        if Value(assigns, c[i]) == LTrue { return true; }
        i := i + 1;
      }
      return false;
    }

    /** cs is the list being compacted, the learnt clauses or the problem clauses, and other the other one. */
    ghost predicate RemovingFrom(isLearnt: bool, cs: seq<CRef>, other: seq<CRef>)
      reads this
    {
      if isLearnt then DatabaseOk(formula, T(), ca, watches, dirty, dirties, qhead, other, cs)
      else DatabaseOk(formula, T(), ca, watches, dirty, dirties, qhead, cs, other)
    }

    lemma NextInRange(isLearnt: bool, kept: seq<CRef>, r: CRef, back: seq<CRef>, other: seq<CRef>)
      requires RemovingFrom(isLearnt, kept + [r] + back, other)
      ensures 0 <= r < |ca| && |ca[r].lits| > 0 && InRange(ca[r].lits, |assigns|) && |assigns| == |vardata|
    {
      DropFromList(ca, kept, r, back, isLearnt);
      ClauseInRange(T(), ca, watches, dirty, qhead, r);
    }

    /** Remove clause r, a free learnt clause or one that the root satisfies, from between kept and back. */
    method RemoveOne(r: CRef, isLearnt: bool, ghost kept: seq<CRef>, ghost back: seq<CRef>, ghost other: seq<CRef>)
      requires RemovingFrom(isLearnt, kept + [r] + back, other)
      requires 0 <= r < |ca|
      requires (isLearnt && !Locked(T(), ca, r)) || (|trailLim| == 0 && IsSatisfied(assigns, ca[r].lits))
      modifies `ca, `vardata, `dirty, `dirties
      ensures RemovingFrom(isLearnt, kept + back, other)
      ensures ca == Removed(old(ca), r) && T() == Unlocked(old(T()), old(ca), r)
    {
      hide Idle, Sound, Complete, Listed, Locked;
      DropFromList(ca, kept, r, back, isLearnt);
      ClauseInRange(T(), ca, watches, dirty, qhead, r);
      RemoveKeepsListed(ca, kept + back, isLearnt, r);
      RemoveKeepsListed(ca, other, !isLearnt, r);
      if isLearnt {
        RemoveKeepsSound(formula, T(), ca, other, r);
      } else {
        DropKeepsComplete(formula, T(), ca, kept, r, back);
        RemoveKeepsSound(formula, T(), ca, kept + back, r);
      }
      RemoveClause(r);
    }

    /** Remove the satisfied clauses of one of the two lists. */
    method RemoveSatisfied(cs: seq<CRef>, isLearnt: bool, ghost other: seq<CRef>) returns (kept: seq<CRef>)
      requires RemovingFrom(isLearnt, cs, other) && |trailLim| == 0
      modifies `ca, `vardata, `dirty, `dirties
      ensures RemovingFrom(isLearnt, kept, other)
      ensures kept == Unsatisfied(assigns, old(ca), cs) && ca == SatisfiedDeleted(assigns, old(ca), cs)
    {
      hide DatabaseOk, RemovingFrom, IsSatisfied, SatisfiedDeleted, Unsatisfied;
      UnsatisfiedNone(assigns, ca);
      kept := [];
      NothingDeleted(assigns, ca);
      var i := 0;
      assert kept + cs[i..] == cs;
      while i < |cs|
        invariant 0 <= i <= |cs|
        invariant RemovingFrom(isLearnt, kept + cs[i..], other)
        invariant kept == Unsatisfied(assigns, old(ca), cs[..i]) && ca == SatisfiedDeleted(assigns, old(ca), cs[..i])
      {
        assert kept + cs[i..] == kept + [cs[i]] + cs[i + 1..];
        assert kept + [cs[i]] + cs[i + 1..] == (kept + [cs[i]]) + cs[i + 1..];
        assert cs[..i + 1] == cs[..i] + [cs[i]];
        NextInRange(isLearnt, kept, cs[i], cs[i + 1..], other);
        DeleteNext(assigns, old(ca), cs[..i], cs[i]);
        UnsatisfiedNext(assigns, old(ca), cs[..i], cs[i]);
        var b := Satisfied(ca[cs[i]].lits);
        if b {
          RemoveOne(cs[i], isLearnt, kept, cs[i + 1..], other);
        } else {
          kept := kept + [cs[i]];
        }
        i := i + 1;
      }
      assert kept + cs[i..] == kept && cs[..i] == cs;
    }

    method IsLocked(r: CRef) returns (b: bool)
      requires 0 <= r < |ca| && |ca[r].lits| > 0 && InRange(ca[r].lits, |assigns|) && |assigns| == |vardata|
      ensures b <==> Locked(T(), ca, r)
    {
      var p := ca[r].lits[0];
      b := Value(assigns, p) == LTrue && vardata[p.v].reason == r;
    }

    /**
     * Remove about half of the learnt clauses: of those neither binary nor locked, the first half in the order of
     * activity, and all below the limit. The activities are the caller's.
     */
    method ReduceDB(act: Activity, extraLim: real) returns (ghost order: seq<CRef>)
      requires Inv()
      modifies `ca, `learnts, `vardata, `dirty, `dirties
      ensures Inv() && T() == old(T())
      ensures multiset(order) == multiset(old(learnts)) && ByActivity(old(ca), act, order)
      ensures forall i :: 0 <= i < |order| ==>
        (order[i] in learnts <==> !Dropped(T(), old(ca), act, extraLim, order, i))
      ensures (forall r :: r in learnts ==> r in old(learnts))
      ensures ca == WithDeleted(old(ca), set r | r in old(learnts) && r !in learnts)
    {
      hide DatabaseOk, HeapOk, Locked, WithDeleted, ByActivity, Dropped, NoRepeats;
      var ls := SortRefs(learnts, ca, act);
      order := ls;
      PermuteLearnts(formula, T(), ca, watches, dirty, dirties, qhead, clauses, learnts, ls);
      var kept, gone := ReduceList(ls, act, extraLim);
      assert ls[..|ls|] == ls;
      DroppedSet(old(learnts), ls, kept, gone);
      learnts := kept;
    }

    static lemma DroppedSet(old_: seq<CRef>, ls: seq<CRef>, kept: seq<CRef>, gone: set<CRef>)
      requires forall r :: r in ls <==> r in old_
      requires forall r :: r in gone ==> r in ls
      requires forall r :: r in kept <==> (r in ls && r !in gone)
      ensures gone == (set r | r in old_ && r !in kept) && forall r :: r in kept ==> r in old_
      ensures forall i :: 0 <= i < |ls| ==> (ls[i] in kept <==> ls[i] !in gone)
    {
      var s := set r | r in old_ && r !in kept;
      forall r ensures r in gone <==> r in s {
        assert r in ls <==> r in old_;
      }
      forall i | 0 <= i < |ls| ensures ls[i] in kept <==> ls[i] !in gone {
        var r := ls[i];
        assert r in ls;
        assert r in kept <==> r !in gone;
      }
    }

    method ReduceList(ls: seq<CRef>, act: Activity, extraLim: real) returns (kept: seq<CRef>, ghost gone: set<CRef>)
      requires RemovingFrom(true, ls, clauses) && NoRepeats(ls)
      modifies `ca, `vardata, `dirty, `dirties
      ensures RemovingFrom(true, kept, clauses) && T() == old(T()) && ca == WithDeleted(old(ca), gone)
      ensures SplitUpTo(T(), old(ca), act, extraLim, ls, |ls|, kept, gone)
    {
      hide *;
      kept, gone := [], {};
      var i := 0;
      ghost var t, ca0 := T(), ca;
      StartReducing(t, ls, act, extraLim);
      while i < |ls|
        invariant 0 <= i <= |ls| && RemovingAt(kept, ls, i) && T() == t
        invariant ca == WithDeleted(ca0, gone) && SplitUpTo(t, ca0, act, extraLim, ls, i, kept, gone)
      {
        SplitNext(t, ca0, act, extraLim, ls, i, kept, gone);
        var dropped := ReduceOne(ls, i, act, extraLim, ca0, kept, gone);
        if dropped { gone := gone + {ls[i]}; } else { kept := kept + [ls[i]]; }
        i := i + 1;
      }
      NothingBehind(kept, ls);
    }

    /** The invariant while kept and the rest of ls from i on are the learnt clauses. */
    ghost predicate RemovingAt(kept: seq<CRef>, ls: seq<CRef>, i: nat)
      reads this
    {
      i <= |ls| && RemovingFrom(true, kept + ls[i..], clauses)
    }

    lemma StartReducing(t: Trail, ls: seq<CRef>, act: Activity, extraLim: real)
      requires RemovingFrom(true, ls, clauses)
      ensures RemovingAt([], ls, 0) && ca == WithDeleted(ca, {}) && SplitUpTo(t, ca, act, extraLim, ls, 0, [], {})
    {
      assert [] + ls[0..] == ls;
      NoneDeleted(ca);
    }

    lemma NothingBehind(kept: seq<CRef>, ls: seq<CRef>)
      requires RemovingAt(kept, ls, |ls|)
      ensures RemovingFrom(true, kept, clauses)
    {
      assert kept + ls[|ls|..] == kept;
    }

    method ReduceOne(ls: seq<CRef>, i: nat, act: Activity, extraLim: real, ghost ca0: seq<ClauseRec>,
                     ghost kept: seq<CRef>, ghost gone: set<CRef>)
        returns (dropped: bool)
      requires i < |ls| && RemovingAt(kept, ls, i) && ca == WithDeleted(ca0, gone)
      modifies `ca, `vardata, `dirty, `dirties
      ensures T() == old(T()) && (dropped <==> Dropped(T(), ca0, act, extraLim, ls, i))
      ensures dropped ==> RemovingAt(kept, ls, i + 1) && ca == WithDeleted(ca0, gone + {ls[i]})
      ensures !dropped ==> RemovingAt(kept + [ls[i]], ls, i + 1) && ca == WithDeleted(ca0, gone)
    {
      var r := ls[i];
      Rotate(kept, ls, i);
      NextInRange(true, kept, r, ls[i + 1..], clauses);
      hide DatabaseOk, Locked, WithDeleted, Dropped;
      var locked := IsLocked(r);
      DeleteOne(T(), ca0, gone, r);
      DroppedNow(T(), ca0, gone, act, extraLim, ls, i);
      dropped := Size(ca, r) > 2 && !locked && (i < |ls| / 2 || ActivityOf(act, r) < extraLim);
      if dropped { RemoveOne(r, true, kept, ls[i + 1..], clauses); }
    }

    static lemma Rotate(kept: seq<CRef>, ls: seq<CRef>, i: nat)
      requires i < |ls|
      ensures kept + ls[i..] == kept + [ls[i]] + ls[i + 1..]
    {
    }

    static lemma DroppedNow(t: Trail, ca: seq<ClauseRec>, gone: set<CRef>, act: Activity, lim: real, ls: seq<CRef>,
                            i: nat)
      requires i < |ls|
      ensures Dropped(t, ca, act, lim, ls, i) <==>
        Size(WithDeleted(ca, gone), ls[i]) > 2 && !Locked(t, WithDeleted(ca, gone), ls[i]) &&
        (i < |ls| / 2 || ActivityOf(act, ls[i]) < lim)
    {
    }

    method InsertVarOrder(x: Var)
      requires x < |decision|
      modifies `orderHeap
      ensures orderHeap == if decision[x] then old(orderHeap) + {x} else old(orderHeap)
    {
      if x !in orderHeap && decision[x] { orderHeap := orderHeap + {x}; }
    }

    method CancelUntil(level: nat)
      requires TrailOk(T()) && HeapOk(assigns, decision, orderHeap)
      modifies `assigns, `trail, `trailLim, `qhead, `orderHeap
      ensures T() == Cancelled(old(T()), level) && HeapOk(assigns, decision, orderHeap)
      ensures qhead == if |old(trailLim)| > level then |trail| else old(qhead)
    {
      if |trailLim| > level {
        hide TrailOk;
        ghost var t := T();
        var c := |trail|;
        LimInRange(t, level);
        StartUndo(t);
        while c > trailLim[level]
          invariant t == T().(assigns := t.assigns) && t.lim[level] <= c <= |t.lits|
          invariant assigns == Undone(t, c) && HeapOk(assigns, decision, orderHeap)
        {
          c := c - 1;
          UndoOne(t, c);
          var x := trail[c].v;
          assigns := assigns[x := LUndef];
          InsertVarOrder(x);
        }
        FinishUndo(t, level);
        qhead := trailLim[level];
        trail := trail[..trailLim[level]];
        trailLim := trailLim[..level];
      } else {
        KeepAll(T(), level);
      }
    }

    // ---------- propagation with the whole invariant ----------

    /** Propagate, and know that the invariant holds, or that a clause is false. */
    method PropagateAll() returns (confl: CRef)
      requires Inv()
      modifies `ca, `watches, `dirty, `dirties, `assigns, `vardata, `trail, `pos, `qhead, `simpDBProps
      ensures Reordered(old(ca), ca) && Propagated(old(T()), T()) && qhead == |trail| && TrailOk(T())
      ensures trailLim == old(trailLim) && old(trail) <= trail && |assigns| == |old(assigns)|
      ensures dirty == {} && dirties == []
      ensures |seen| == |assigns| && HeapOk(assigns, decision, orderHeap)
      ensures confl == CREF_UNDEF ==> Inv() && Idle(T(), ca, watches, {}, |trail|)
      ensures confl != CREF_UNDEF ==> Conflicting(confl) && StuckOk(formula, T(), ca, watches, clauses, learnts)
      ensures confl != CREF_UNDEF && |trailLim| == 0 ==> !Satisfiable(formula)
      ensures confl == CREF_UNDEF ==> simpDBProps == old(simpDBProps) - (|trail| - old(qhead))
      ensures confl == CREF_UNDEF ==> IsClosure(ca, LitSet(old(trail)), LitSet(trail))
      ensures confl == CREF_UNDEF <==> !Conflicts(ca, LitSet(old(trail)))
    {
      hide Idle, Halted, TrailOk, DatabaseOk, StuckOk, HeapOk, Reordered, Propagated, IsClosure, Conflicts, LitSet;
      ghost var t, ca0, ws0, dirty0, dirties0, q0 := T(), ca, watches, dirty, dirties, qhead;
      DatabaseIsIdle(formula, T(), ca, watches, dirty, dirties, qhead, clauses, learnts);
      confl := Propagate();
      PropagateKeepsDatabase(formula, t, ca0, ws0, dirty0, dirties0, q0, clauses, learnts, T(), ca, watches);
      PropagatedExtends(t, T());
      ExtendKeepsHeap(t, T(), decision, orderHeap);
      if confl != CREF_UNDEF {
        StuckShape(formula, T(), ca, watches, clauses, learnts);
        if |trailLim| == 0 { RootConflictIsUnsat(formula, T(), ca, confl); }
      } else {
        DatabaseIsIdle(formula, T(), ca, watches, {}, [], qhead, clauses, learnts);
      }
    }

    // ---------- the problem ----------

    /** Between calls: the invariant at level 0, or a formula known to be unsatisfiable. */
    ghost predicate Valid()
      reads this
    {
      (ok ==> Inv() && trailLim == []) && (!ok ==> !Satisfiable(formula))
    }

    lemma EmptyIsValid()
      requires ok && ca == [] && clauses == [] && learnts == [] && watches == map[] && dirty == {} && dirties == []
      requires assigns == [] && decision == [] && T() == Trail([], [], [], [], []) && qhead == 0 && orderHeap == {}
      requires seen == [] && formula == {}
      ensures Valid()
    {
    }

    constructor ()
      ensures Valid() && ok && formula == {} && assigns == [] && decision == []
    {
      ok := true;
      ca, clauses, learnts := [], [], [];
      watches, dirty, dirties := map[], {}, [];
      simpDBAssigns, simpDBProps := -1, 0;
      assigns, decision, trail, trailLim, vardata, qhead := [], [], [], [], [], 0;
      orderHeap, seen, assumptions, conflict, model := {}, [], [], [], [];
      conflicts, limits := 0, [];
      pos, formula := [], {};
      new;
      EmptyIsValid();
    }

    method NewVar(dvar: bool) returns (v: Var)
      requires Valid()
      modifies `watches, `assigns, `vardata, `seen, `decision, `orderHeap, `pos
      ensures Valid()
      ensures v == |old(assigns)| && assigns == old(assigns) + [LUndef] && decision == old(decision) + [dvar]
    {
      hide Inv, Satisfiable, DatabaseOk, AllUnmarked, HeapOk, WithLists;
      ghost var wasOk := ok;
      if ok { NewVarKeepsInv(dvar); }
      v := PushVar(dvar);
      if wasOk { MakeInv(); }
    }

    lemma MakeInv()
      requires DatabaseOk(formula, T(), ca, watches, dirty, dirties, qhead, clauses, learnts)
      requires |seen| == |assigns| && AllUnmarked(seen) && HeapOk(assigns, decision, orderHeap)
      ensures Inv()
    {
      hide DatabaseOk, AllUnmarked, HeapOk;
    }

    method PushVar(dvar: bool) returns (v: Var)
      modifies `watches, `assigns, `vardata, `seen, `decision, `orderHeap, `pos
      ensures v == |old(assigns)| && assigns == old(assigns) + [LUndef] && decision == old(decision) + [dvar]
      ensures vardata == old(vardata) + [VarData(CREF_UNDEF, 0)] && pos == old(pos) + [0] && seen == old(seen) + [false]
      ensures watches == WithLists(old(watches), v)
      ensures orderHeap == if dvar then old(orderHeap) + {v} else old(orderHeap)
    {
      hide WithLists;
      v := |assigns|;
      watches := WithLists(watches, v);
      assigns, vardata, pos := assigns + [LUndef], vardata + [VarData(CREF_UNDEF, 0)], pos + [0];
      seen, decision := seen + [false], decision + [dvar];
      if dvar { orderHeap := orderHeap + {v}; }
    }

    lemma NewVarKeepsInv(dvar: bool)
      requires Inv()
      ensures var t' := Trail(assigns + [LUndef], vardata + [VarData(CREF_UNDEF, 0)], trail, trailLim, pos + [0]);
        DatabaseOk(formula, t', ca, WithLists(watches, |assigns|), dirty, dirties, qhead, clauses, learnts)
      ensures |seen| == |assigns| && AllUnmarked(seen + [false])
      ensures HeapOk(assigns + [LUndef], decision + [dvar], if dvar then orderHeap + {|assigns|} else orderHeap)
    {
      hide DatabaseOk, HeapOk, AllUnmarked, WithLists;
      NewVarKeepsDatabase(formula, T(), ca, watches, dirty, dirties, qhead, clauses, learnts);
      NewVarKeepsHeap(assigns, decision, orderHeap, dvar);
      NewVarIsUnmarked(seen);
    }

    /** The invariant for the formula without the clause that is being added. */
    ghost predicate InvBut(f: set<seq<Lit>>)
      reads this
    {
      && DatabaseOk(f, T(), ca, watches, dirty, dirties, qhead, clauses, learnts) && trailLim == []
      && |seen| == |assigns| && AllUnmarked(seen) && HeapOk(assigns, decision, orderHeap)
    }

    method AddUnitClause(p: Lit, ghost f: set<seq<Lit>>, ghost ps: seq<Lit>)
      requires InvBut(f) && ok && formula == f + {ps} && Reduced(T(), ps, [p])
      requires p in ps && p.v < |assigns| && assigns[p.v] == LUndef
      modifies `ok, `ca, `watches, `dirty, `dirties, `assigns, `vardata, `trail, `pos, `qhead, `simpDBProps
      ensures Valid() && |assigns| == |old(assigns)| && (ok ==> qhead == |trail|)
      ensures ok <==> !Conflicts(ca, LitSet(old(trail)) + {p})
      ensures ok ==> IsClosure(ca, LitSet(old(trail)) + {p}, LitSet(trail))
    {
      hide DatabaseOk, HeapOk, Satisfiable, Propagated, TrailOk, Reordered, StuckOk, Idle, AllUnmarked;
      hide IsClosure, Conflicts;
      DatabaseIsIdle(f, T(), ca, watches, dirty, dirties, qhead, clauses, learnts);
      AddUnit(f, T(), ca, watches, dirty, dirties, qhead, clauses, learnts, ps, p);
      AssignKeepsHeap(assigns, decision, orderHeap, p);
      TrailShape(T());
      Enqueue(p, CREF_UNDEF);
      assert LitSet(trail) == LitSet(old(trail)) + {p};
      var confl := PropagateAll();
      ok := confl == CREF_UNDEF;
    }

    method StoreClause(out: seq<Lit>, ghost f: set<seq<Lit>>, ghost ps: seq<Lit>)
      requires InvBut(f) && ok && formula == f + {ps} && Reduced(T(), ps, out)
      requires |out| >= 2 && DistinctVars(out) && InRange(out, |assigns|) && forall p :: p in out ==> p in ps
      requires forall i :: 0 <= i < |out| ==> assigns[out[i].v] == LUndef
      modifies `ca, `clauses, `watches
      ensures Valid() && ca == old(ca) + [ClauseRec(out, false, false)] && clauses == old(clauses) + [|old(ca)|]
    {
      hide DatabaseOk, HeapOk, Satisfiable, AllUnmarked;
      AddStored(f, T(), ca, watches, dirty, dirties, qhead, clauses, learnts, ps, out);
      ca, clauses := ca + [ClauseRec(out, false, false)], clauses + [|ca|];
      Attach(|ca| - 1);
    }

    /** Add a clause to the problem. */
    method AddClause(ps: seq<Lit>) returns (b: bool)
      requires Valid() && InRange(ps, |assigns|)
      modifies `ok, `ca, `clauses, `watches, `dirty, `dirties, `assigns, `vardata, `trail, `pos, `qhead, `simpDBProps,
        `formula
      ensures Valid() && b == ok && formula == old(formula) + {ps} && |assigns| == |old(assigns)|
      ensures !old(ok) ==> !ok
      ensures old(ok) && TriviallyTrue(old(assigns), ps) ==>
        ok && ca == old(ca) && clauses == old(clauses) && trail == old(trail)
      ensures old(ok) && !TriviallyTrue(old(assigns), ps) ==>
        var left, base := OpenLits(old(assigns), ps), LitSet(old(trail));
        && (left == {} ==> !ok)
        && (|left| == 1 ==> (ok <==> !Conflicts(ca, base + left)))
        && (|left| == 1 && ok ==> IsClosure(ca, base + left, LitSet(trail)) && qhead == |trail|)
        && (|left| > 1 ==> ok && trail == old(trail) && clauses == old(clauses) + [|old(ca)|])
        && (|left| > 1 ==> exists c :: ca == old(ca) + [ClauseRec(c, false, false)] && LitSet(c) == left)
    {
      hide DatabaseOk, HeapOk, Satisfiable, Propagated, TrailOk, Reordered, StuckOk, Idle, AllUnmarked;
      hide IsClosure, Conflicts;
      ghost var f := formula;
      formula := formula + {ps};
      if !ok {
        MoreFormulaKeepsUnsat(f, ps);
        return false;
      }
      var trivial, out := SimplifyClause(assigns, ps);
      if trivial {
        AddTrivial(f, T(), ca, watches, dirty, dirties, qhead, clauses, learnts, ps);
        return true;
      }
      OutIsReduced(T(), ps, out);
      OutIsOpen(assigns, ps, out);
      if |out| == 0 {
        AddEmpty(f, T(), ca, watches, dirty, dirties, qhead, clauses, learnts, ps);
        ok := false;
      } else if |out| == 1 {
        AddUnitClause(out[0], f, ps);
      } else {
        StoreClause(out, f, ps);
      }
      b := ok;
    }

    // ---------- search ----------

    method RebuildOrderHeap()
      requires |decision| == |assigns|
      modifies `orderHeap
      ensures orderHeap == set v: Var | v < |assigns| && decision[v] && assigns[v] == LUndef
      ensures HeapOk(assigns, decision, orderHeap)
    {
      var v := 0;
      orderHeap := {};
      while v < |assigns|
        invariant v <= |assigns|
        invariant orderHeap == set x: Var | x < v && x < |assigns| && decision[x] && assigns[x] == LUndef
      {
        if decision[v] && assigns[v] == LUndef { orderHeap := orderHeap + {v}; }
        v := v + 1;
      }
    }

    /** Propagate at the root and, if enough was propagated since the last sweep, remove satisfied clauses. */
    method Simplify(removeSatisfied: bool) returns (b: bool)
      requires ok && Inv() && trailLim == []
      modifies `ok, `ca, `clauses, `learnts, `watches, `dirty, `dirties, `assigns, `vardata, `trail, `pos, `qhead,
        `simpDBProps, `simpDBAssigns, `orderHeap
      ensures b == ok && trailLim == [] && old(trail) <= trail && |assigns| == |old(assigns)|
      ensures b ==> Inv() && qhead == |trail|
      ensures !b ==> !Satisfiable(formula)
      ensures b ==>
        var left := old(simpDBProps) - (|trail| - old(qhead)); var sweep := |trail| != old(simpDBAssigns) && left <= 0;
        && learnts == (if sweep then Unsatisfied(assigns, old(ca), old(learnts)) else old(learnts))
        && clauses == (if sweep && removeSatisfied then Unsatisfied(assigns, old(ca), old(clauses)) else old(clauses))
        && simpDBAssigns == (if sweep then |trail| else old(simpDBAssigns))
        && simpDBProps == if sweep then LitCount(ca, clauses) + LitCount(ca, learnts) else left
    {
      hide DatabaseOk, HeapOk, Satisfiable, Propagated, TrailOk, StuckOk, Idle, AllUnmarked, SatisfiedDeleted;
      hide Unsatisfied;
      var confl := PropagateAll();
      if confl != CREF_UNDEF {
        ok := false;
        return false;
      }
      UnsatisfiedSame(assigns, old(ca), ca, learnts);
      UnsatisfiedSame(assigns, old(ca), ca, clauses);
      hide *;
      Sweep(removeSatisfied);
      b := true;
    }

    /** Satisfied clauses are removed if there are new assignments and enough propagations since the last time. */
    method Sweep(removeSatisfied: bool)
      requires ok && Inv() && trailLim == []
      modifies `ca, `clauses, `learnts, `dirty, `dirties, `vardata, `simpDBProps, `simpDBAssigns, `orderHeap
      ensures Inv()
      ensures var sweep := |trail| != old(simpDBAssigns) && old(simpDBProps) <= 0;
        && learnts == (if sweep then Unsatisfied(assigns, old(ca), old(learnts)) else old(learnts))
        && clauses == (if sweep && removeSatisfied then Unsatisfied(assigns, old(ca), old(clauses)) else old(clauses))
        && simpDBAssigns == (if sweep then |trail| else old(simpDBAssigns))
        && simpDBProps == if sweep then LitCount(ca, clauses) + LitCount(ca, learnts) else old(simpDBProps)
    {
      hide DatabaseOk, HeapOk, AllUnmarked, SatisfiedDeleted, Unsatisfied, LitCount;
      if |trail| == simpDBAssigns || simpDBProps > 0 { return; }
      RemoveAllSatisfied(removeSatisfied);
      simpDBAssigns := |trail|;
      simpDBProps := LitCount(ca, clauses) + LitCount(ca, learnts);
    }

    method RemoveAllSatisfied(problemToo: bool)
      requires Inv() && trailLim == []
      modifies `ca, `clauses, `learnts, `dirty, `dirties, `vardata, `orderHeap
      ensures Inv()
      ensures learnts == Unsatisfied(assigns, old(ca), old(learnts))
      ensures clauses == if problemToo then Unsatisfied(assigns, old(ca), old(clauses)) else old(clauses)
    {
      hide DatabaseOk, HeapOk, AllUnmarked, SatisfiedDeleted, Unsatisfied, IsSatisfied;
      ghost var ca0 := ca;
      var kept := RemoveSatisfied(learnts, true, clauses);
      learnts := kept;
      if problemToo {
        UnsatisfiedSame(assigns, ca0, ca, clauses);
        kept := RemoveSatisfied(clauses, false, learnts);
        clauses := kept;
      }
      DecisionLength(assigns, decision, orderHeap);
      RebuildOrderHeap();
    }

    /** A decision variable that is not assigned, from the heap or at random; none only if there is none. */
    method PickBranchLit() returns (found: bool, next: Lit)
      requires HeapOk(assigns, decision, orderHeap)
      modifies `orderHeap
      ensures found ==> next.v < |assigns| && assigns[next.v] == LUndef && decision[next.v]
      ensures found ==> HeapOk(assigns, decision, orderHeap + {next.v})
      ensures !found ==> forall v :: 0 <= v < |assigns| && decision[v] ==> assigns[v] != LUndef
      ensures !found ==> HeapOk(assigns, decision, orderHeap)
      ensures |decision| == |assigns|
    {
      var v: int := -1;
      var random: bool := *;
      if random && orderHeap != {} {
        v :| v in orderHeap;
      }
      while v == -1 || assigns[v] != LUndef || !decision[v]
        invariant -1 <= v < |assigns|
        invariant HeapOk(assigns, decision, if v == -1 then orderHeap else orderHeap + {v})
        decreases orderHeap, if v == -1 then 1 else 0
      {
        if orderHeap == {} {
          return false, Lit(0, false);
        }
        var x :| x in orderHeap;
        orderHeap := orderHeap - {x};
        v := x;
      }
      var sign: bool := *;
      return true, Lit(v, sign);
    }

    /** What holds at the head of the search loop. */
    ghost predicate SearchOk()
      reads this
    {
      && ok && Inv() && TrailOk(T()) && AssumedOk(T(), assumptions) && InRange(assumptions, |assigns|)
    }

    ghost function Budget(): nat
      reads this
      requires TrailOk(T())
    {
      Remaining(T(), |assumptions| + |assigns| + 2)
    }

    /** A conflict above the root: analyze, go back, and add the learnt clause with its first literal. */
    method Learn(confl: CRef, mode: nat)
      requires ok && StuckOk(formula, T(), ca, watches, clauses, learnts) && TrailOk(T()) && Conflicting(confl)
      requires |trailLim| > 0 && |seen| == |assigns| && AllUnmarked(seen) && HeapOk(assigns, decision, orderHeap)
      requires dirty == {} && dirties == []
      requires AssumedOk(T(), assumptions) && InRange(assumptions, |assigns|)
      modifies `ca, `learnts, `watches, `assigns, `vardata, `trail, `trailLim, `pos, `qhead, `orderHeap, `seen
      ensures SearchOk() && |assigns| == |old(assigns)| && Budget() < old(Budget())
    {
      hide StuckOk, DatabaseOk, HeapOk, AssumedOk, AllUnmarked, TrailOk, ReasonsOk, ClausesOk, Sound, Halted;
      hide Asserting, ClausesSound, RootSound, LearntIs;
      StuckShape(formula, T(), ca, watches, clauses, learnts);
      ConflictIsCurrent(T(), ca, watches, confl, 0);
      ghost var t, m := T(), |assumptions| + |assigns| + 2;
      var learnt, bt := Analyze(confl, mode);
      BacktrackBelow(t, learnt, bt);
      AssertingIsUnit(t, learnt, bt);
      CancelStuck(formula, t, ca, watches, clauses, learnts, bt);
      CancelKeepsAssumed(t, assumptions, bt);
      CancelUntil(bt);
      LevelBound(t, assumptions, bt);
      ghost var from := if |learnt| == 1 then CREF_UNDEF else |ca|;
      AddLearnt(learnt);
      BackjumpMakesProgress(t, bt, learnt[0], from, m);
    }

    /** Store the learnt clause, unless it is a unit, and enqueue its first literal. */
    method AddLearnt(c: seq<Lit>)
      requires ok && DatabaseOk(formula, T(), ca, watches, {}, [], |trail|, clauses, learnts) && qhead == |trail|
      requires dirty == {} && dirties == [] && TrailOk(T())
      requires |seen| == |assigns| && AllUnmarked(seen) && HeapOk(assigns, decision, orderHeap)
      requires AssumedOk(T(), assumptions) && InRange(assumptions, |assigns|)
      requires |c| >= 1 && InRange(c, |assigns|) && DistinctVars(c) && Implied(formula, c)
      requires assigns[c[0].v] == LUndef && forall i :: 1 <= i < |c| ==> IsFalse(T(), c[i])
      requires if |c| == 1 then trailLim == [] else Level(T(), c[1]) == |trailLim| > 0
      modifies `ca, `learnts, `watches, `assigns, `vardata, `trail, `pos
      ensures SearchOk()
      ensures T() == Enqueued(old(T()), c[0], if |c| == 1 then CREF_UNDEF else |old(ca)|)
      ensures |c| > 1 ==> ca == old(ca) + [ClauseRec(c, true, false)] && learnts == old(learnts) + [|old(ca)|]
    {
      hide DatabaseOk, HeapOk, AssumedOk, AllUnmarked, TrailOk, Implied, Satisfiable, SearchOk, Enqueued;
      if |c| == 1 { AddLearntUnit(c); } else { AddLearntClause(c); }
    }

    method AddLearntUnit(c: seq<Lit>)
      requires ok && DatabaseOk(formula, T(), ca, watches, {}, [], |trail|, clauses, learnts) && qhead == |trail|
      requires dirty == {} && dirties == [] && TrailOk(T())
      requires |seen| == |assigns| && AllUnmarked(seen) && HeapOk(assigns, decision, orderHeap)
      requires AssumedOk(T(), assumptions) && InRange(assumptions, |assigns|)
      requires |c| == 1 && InRange(c, |assigns|) && Implied(formula, c) && assigns[c[0].v] == LUndef && trailLim == []
      modifies `assigns, `vardata, `trail, `pos
      ensures SearchOk() && T() == Enqueued(old(T()), c[0], CREF_UNDEF)
    {
      hide DatabaseOk, HeapOk, AssumedOk, AllUnmarked, TrailOk, Implied, Satisfiable;
      ghost var t := T();
      TrailShape(t);
      AssignKeepsHeap(assigns, decision, orderHeap, c[0]);
      assert c == [c[0]];
      LearnUnit(formula, t, ca, watches, clauses, learnts, c[0]);
      EnqueueKeepsAssumed(t, assumptions, c[0], CREF_UNDEF);
      Enqueue(c[0], CREF_UNDEF);
      DatabaseIsIdle(formula, T(), ca, watches, {}, [], qhead, clauses, learnts);
    }

    method AddLearntClause(c: seq<Lit>)
      requires ok && DatabaseOk(formula, T(), ca, watches, {}, [], |trail|, clauses, learnts) && qhead == |trail|
      requires dirty == {} && dirties == [] && TrailOk(T())
      requires |seen| == |assigns| && AllUnmarked(seen) && HeapOk(assigns, decision, orderHeap)
      requires AssumedOk(T(), assumptions) && InRange(assumptions, |assigns|)
      requires |c| > 1 && InRange(c, |assigns|) && DistinctVars(c) && Implied(formula, c)
      requires assigns[c[0].v] == LUndef && forall i :: 1 <= i < |c| ==> IsFalse(T(), c[i])
      requires Level(T(), c[1]) == |trailLim| > 0
      modifies `ca, `learnts, `watches, `assigns, `vardata, `trail, `pos
      ensures SearchOk() && T() == Enqueued(old(T()), c[0], |old(ca)|)
      ensures ca == old(ca) + [ClauseRec(c, true, false)] && learnts == old(learnts) + [|old(ca)|]
    {
      hide DatabaseOk, HeapOk, AssumedOk, AllUnmarked, TrailOk, Implied, Satisfiable;
      ghost var t := T();
      TrailShape(t);
      AssignKeepsHeap(assigns, decision, orderHeap, c[0]);
      LearnClause(formula, t, ca, watches, clauses, learnts, c);
      EnqueueKeepsAssumed(t, assumptions, c[0], |ca|);
      ca, learnts := ca + [ClauseRec(c, true, false)], learnts + [|ca|];
      Attach(|ca| - 1);
      Enqueue(c[0], |ca| - 1);
      DatabaseIsIdle(formula, T(), ca, watches, {}, [], qhead, clauses, learnts);
    }

    method NewDecisionLevel()
      modifies `trailLim
      ensures trailLim == old(trailLim) + [|trail|]
    {
      trailLim := trailLim + [|trail|];
    }

    /** Open levels for assumptions that hold already, up to the first that does not. */
    method PickAssumption() returns (status: LBool, next: Lit)
      requires SearchOk() && qhead == |trail|
      modifies `trailLim
      ensures SearchOk() && Budget() <= old(Budget())
      ensures status == LTrue ==> |trailLim| >= |assumptions|
      ensures status != LTrue ==> |trailLim| < |assumptions| && next == assumptions[|trailLim|]
      ensures status == LFalse ==> IsFalse(T(), next)
      ensures status == LUndef ==> assigns[next.v] == LUndef
    {
      hide DatabaseOk, HeapOk, AssumedOk, AllUnmarked, TrailOk, Satisfiable, Remaining;
      next := Lit(0, false);
      while |trailLim| < |assumptions|
        invariant SearchOk() && Budget() <= old(Budget())
        decreases |assumptions| - |trailLim|
      {
        var p := assumptions[|trailLim|];
        if Value(assigns, p) == LTrue {
          ghost var t := T();
          NewLevelKeepsDatabase(formula, t, ca, watches, dirty, dirties, clauses, learnts);
          NewLevelKeepsTrail(t);
          DummyKeepsAssumed(t, assumptions);
          DummyKeepsProgress(t, |assumptions| + |assigns| + 2);
          NewDecisionLevel();
        } else if Value(assigns, p) == LFalse {
          return LFalse, p;
        } else {
          return LUndef, p;
        }
      }
      status := LTrue;
    }

    /** Open a level and decide its first literal. */
    method Decide(p: Lit)
      requires SearchDecides(p)
      modifies `assigns, `vardata, `trail, `trailLim, `pos
      ensures SearchOk() && Budget() < old(Budget()) && |assigns| == |old(assigns)|
      ensures T() == Enqueued(NewLevel(old(T())), p, CREF_UNDEF)
    {
      hide DatabaseOk, HeapOk, AssumedOk, AllUnmarked, TrailOk, Satisfiable;
      ghost var t, m := T(), |assumptions| + |assigns| + 2;
      DecideKeepsDatabase(formula, t, ca, watches, dirty, dirties, clauses, learnts, p);
      DecideKeepsAssumed(t, assumptions, p);
      DecideKeepsHeap(assigns, decision, orderHeap, p);
      RoomForDecision(t, assumptions, p);
      NewDecisionLevel();
      Enqueue(p, CREF_UNDEF);
      DatabaseIsIdle(formula, T(), ca, watches, dirty, dirties, qhead, clauses, learnts);
      DecisionMakesProgress(t, p, m);
    }

    /** The heap may lack the variable that is about to be decided. */
    ghost predicate SearchDecides(p: Lit)
      reads this
    {
      && ok && DatabaseOk(formula, T(), ca, watches, dirty, dirties, qhead, clauses, learnts) && qhead == |trail|
      && |seen| == |assigns| && AllUnmarked(seen) && TrailOk(T())
      && AssumedOk(T(), assumptions) && InRange(assumptions, |assigns|)
      && p.v < |assigns| && assigns[p.v] == LUndef && HeapOk(assigns, decision, orderHeap + {p.v})
      && (|trailLim| < |assumptions| ==> p == assumptions[|trailLim|])
    }

    method SearchPropagate() returns (confl: CRef)
      requires SearchOk()
      modifies `ca, `watches, `dirty, `dirties, `assigns, `vardata, `trail, `pos, `qhead, `simpDBProps, `conflicts
      ensures conflicts == old(conflicts) + if confl == CREF_UNDEF then 0 else 1
      ensures TrailOk(T()) && Budget() <= old(Budget()) && |assigns| == |old(assigns)|
      ensures trailLim == old(trailLim) && qhead == |trail| && AssumedOk(T(), assumptions)
      ensures (confl == CREF_UNDEF ==> SearchOk()) && ok && InRange(assumptions, |assigns|)
      ensures confl != CREF_UNDEF ==> Conflicting(confl) && StuckOk(formula, T(), ca, watches, clauses, learnts)
      ensures |seen| == |assigns| && AllUnmarked(seen)
      ensures HeapOk(assigns, decision, orderHeap) && dirty == {} && dirties == []
      ensures confl != CREF_UNDEF && |trailLim| == 0 ==> !Satisfiable(formula)
    {
      hide DatabaseOk, HeapOk, AssumedOk, AllUnmarked, TrailOk, Satisfiable, Idle, Propagated, StuckOk, Reordered;
      hide Remaining;
      ghost var t := T();
      confl := PropagateAll();
      PropagateKeepsAssumed(t, T(), assumptions);
      PropagationKeepsProgress(t, T(), |assumptions| + |assigns| + 2);
      if confl != CREF_UNDEF { conflicts := conflicts + 1; }
    }

    method SearchSimplify(removeSatisfied: bool) returns (b: bool)
      requires SearchOk() && trailLim == []
      modifies `ok, `ca, `clauses, `learnts, `watches, `dirty, `dirties, `assigns, `vardata, `trail, `pos, `qhead,
        `simpDBProps, `simpDBAssigns, `orderHeap
      ensures |assigns| == |old(assigns)|
      ensures b ==> SearchOk() && qhead == |trail| && Budget() <= old(Budget())
      ensures !b ==> !Satisfiable(formula)
    {
      hide DatabaseOk, HeapOk, AssumedOk, AllUnmarked, TrailOk, Satisfiable, Remaining;
      ghost var t := T();
      b := Simplify(removeSatisfied);
      if b {
        DatabaseIsIdle(formula, T(), ca, watches, dirty, dirties, qhead, clauses, learnts);
        RootAssumedOk(T(), assumptions);
        PropagationKeepsProgress(t, T(), |assumptions| + |assigns| + 2);
      }
    }

    /** Why search stopped. */
    ghost predicate SearchResult(status: LBool)
      reads this
    {
      match status
      case LUndef => ok && Inv() && trailLim == [] && conflict == []
      case LTrue =>
        && SearchOk() && qhead == |trail| && conflict == [] && |assumptions| <= |trailLim|
        && forall v :: 0 <= v < |decision| && decision[v] ==> v < |assigns| && assigns[v] != LUndef
      case LFalse =>
        if conflict == [] then !Satisfiable(formula) && trailLim == []
        else && SearchOk() && Implied(formula, conflict) && FinalCore(T(), ca, conflict[0], conflict)
             && forall q :: q in conflict ==> Neg(q) in assumptions
    }

    /** The next assumption or branching literal is decided (LUndef), or search ends. */
    method DecideNext() returns (status: LBool)
      requires SearchOk() && qhead == |trail| && conflict == []
      modifies `assigns, `vardata, `trail, `trailLim, `pos, `orderHeap, `seen, `conflict
      ensures |assigns| == |old(assigns)|
      ensures status == LUndef ==> SearchOk() && conflict == [] && Budget() < old(Budget())
      ensures status != LUndef ==> SearchResult(status)
    {
      hide DatabaseOk, AssumedOk, AllUnmarked, TrailOk, Satisfiable, Remaining, Implied, HeapOk;
      var picked, next := PickAssumption();
      if picked == LFalse {
        FailAssumption(next);
        return LFalse;
      }
      if picked == LTrue {
        var found, lit := PickBranchLit();
        if !found { return LTrue; }
        next := lit;
      } else {
        MoreHeap(assigns, decision, orderHeap, next);
      }
      hide *;
      Decide(next);
      status := LUndef;
    }

    /** An assumption that is false already: the final conflict says why. */
    method FailAssumption(p: Lit)
      requires SearchOk() && IsFalse(T(), p) && |trailLim| < |assumptions| && p == assumptions[|trailLim|]
      modifies `seen, `conflict
      ensures SearchResult(LFalse) && conflict != [] && conflict[0] == Neg(p)
    {
      FailureIsFinal(p);
      hide AnalyzeOk, DatabaseOk, AssumedOk, AllUnmarked, TrailOk, Satisfiable, Implied, HeapOk, IsTrue;
      hide DecisionsAssumed, FinalCore, SearchResult;
      var out := AnalyzeFinal(Neg(p));
      CoreBegins(T(), ca, Neg(p), out);
      SetConflict(out);
    }

    static lemma CoreBegins(t: Trail, ca: seq<ClauseRec>, p: Lit, out: seq<Lit>)
      requires FinalCore(t, ca, p, out)
      ensures |out| > 0 && out[0] == p
    {
    }

    method SetConflict(out: seq<Lit>)
      requires SearchOk() && |out| > 0 && Implied(formula, out) && FinalCore(T(), ca, out[0], out)
      requires forall q :: q in out ==> Neg(q) in assumptions
      modifies `conflict
      ensures SearchResult(LFalse) && conflict == out
    {
      hide AnalyzeOk, DatabaseOk, AssumedOk, AllUnmarked, TrailOk, Satisfiable, Implied, HeapOk, FinalCore;
      conflict := out;
    }

    lemma FailureIsFinal(p: Lit)
      requires SearchOk() && IsFalse(T(), p) && |trailLim| < |assumptions| && p == assumptions[|trailLim|]
      ensures AnalyzeOk() && AllUnmarked(seen) && IsTrue(T(), Neg(p)) && Neg(Neg(p)) in assumptions
      ensures DecisionsAssumed(T(), assumptions)
    {
      hide AllUnmarked, Satisfiable, HeapOk;
      FinalSetting(formula, T(), ca, watches, dirty, dirties, qhead, clauses, learnts, assumptions, p);
    }

    /** Without a conflict: simplify at the root, drop learnt clauses if there are too many, and go on deciding. */
    method MaintainAndDecide(removeSatisfied: bool) returns (status: LBool)
      requires SearchOk() && qhead == |trail| && conflict == []
      modifies `ok, `ca, `clauses, `learnts, `watches, `dirty, `dirties, `assigns, `vardata, `trail, `trailLim, `pos,
        `qhead, `simpDBProps, `simpDBAssigns, `orderHeap, `seen, `conflict
      ensures |assigns| == |old(assigns)|
      ensures status == LUndef ==> SearchOk() && conflict == [] && Budget() < old(Budget())
      ensures status != LUndef ==> SearchResult(status)
    {
      hide Inv, DatabaseOk, HeapOk, AssumedOk, AllUnmarked, TrailOk, Satisfiable, Remaining, Implied;
      if |trailLim| == 0 {
        var b := SearchSimplify(removeSatisfied);
        if !b { return LFalse; }
      }
      var manyLearnts: bool := *;
      if manyLearnts {
        var act: Activity, extraLim: real := *, *;
        var order := ReduceDB(act, extraLim);
      }
      status := DecideNext();
    }

    lemma SearchShape()
      requires SearchOk()
      ensures TrailOk(T()) && ok && InRange(assumptions, |assigns|)
    {
    }

    lemma RefutedAtRoot()
      requires !Satisfiable(formula) && trailLim == [] && conflict == []
      ensures SearchResult(LFalse)
    {
    }

    method StopSearch()
      requires SearchOk() && conflict == []
      modifies `assigns, `trail, `trailLim, `qhead, `orderHeap
      ensures SearchResult(LUndef) && |assigns| == |old(assigns)|
    {
      hide Inv, AssumedOk, AllUnmarked, TrailOk;
      BackToRoot();
    }

    method StartSearch(nofConflicts: int)
      requires SearchOk()
      modifies `limits
      ensures SearchOk() && TrailOk(T()) && Budget() == old(Budget()) && limits == old(limits) + [nofConflicts]
    {
      hide DatabaseOk, HeapOk, AssumedOk, AllUnmarked, TrailOk, Remaining;
      limits := limits + [nofConflicts];
    }

    /**
     * Search for a model until nofConflicts conflicts were met (any number, if negative) or, if there are budgets,
     * one of them is exhausted. It always ends, and without a verdict only for one of these two reasons.
     */
    method Search(nofConflicts: int, mode: nat, removeSatisfied: bool, budgeted: bool)
        returns (status: LBool, exhausted: bool)
      requires SearchOk() && trailLim == [] && conflict == []
      modifies `ok, `ca, `clauses, `learnts, `watches, `dirty, `dirties, `assigns, `vardata, `trail, `trailLim, `pos,
        `qhead, `simpDBProps, `simpDBAssigns, `orderHeap, `seen, `conflict, `conflicts, `limits
      ensures SearchResult(status) && |assigns| == |old(assigns)| && (exhausted ==> budgeted)
      ensures limits == old(limits) + [nofConflicts] && conflicts >= old(conflicts)
      ensures status == LUndef ==> exhausted || 0 <= nofConflicts <= conflicts - old(conflicts) <= old(Budget())
    {
      hide *;
      SearchShape();
      StartSearch(nofConflicts);
      var conflictC := 0;
      exhausted := false;
      while true
        invariant SearchOk() && TrailOk(T()) && conflict == [] && |assigns| == |old(assigns)| && !exhausted
        invariant 0 <= conflictC && conflictC + Budget() <= old(Budget()) && conflicts == old(conflicts) + conflictC
        invariant limits == old(limits) + [nofConflicts]
        decreases Budget()
      {
        var confl := SearchPropagate();
        if confl != CREF_UNDEF {
          conflictC := conflictC + 1;
          if |trailLim| == 0 {
            RefutedAtRoot();
            return LFalse, exhausted;
          }
          Learn(confl, mode);
          SearchShape();
        } else {
          if budgeted { exhausted := *; }
          if (nofConflicts >= 0 && conflictC >= nofConflicts) || exhausted {
            StopSearch();
            return LUndef, exhausted;
          }
          status := MaintainAndDecide(removeSatisfied);
          if status != LUndef { return; }
          SearchShape();
        }
      }
    }

    /** cancelUntil(0), with the invariant. */
    method BackToRoot()
      requires Inv() && TrailOk(T())
      modifies `assigns, `trail, `trailLim, `qhead, `orderHeap
      ensures Inv() && trailLim == [] && |assigns| == |old(assigns)|
    {
      hide DatabaseOk, HeapOk, AllUnmarked, TrailOk;
      if |trailLim| > 0 {
        CancelDatabase(formula, T(), ca, watches, dirty, dirties, qhead, clauses, learnts, 0);
      }
      CancelUntil(0);
    }

    /** The trail satisfies the assumptions and is as good a model of the formula as can be promised. */
    lemma TrailIsAModel()
      requires SearchResult(LTrue)
      ensures ModelOk(formula, assumptions, decision, assigns)
    {
      hide HeapOk, Satisfiable, Served, ListsOk, Sound, Complete, Listed, Falsified, OneFreeAtMost, NoUnitOrFalse;
      PropagationIsComplete(T(), ca, watches, dirty);
      forall a, p | Agrees(a, assigns) && p in assumptions ensures Holds(a, p) {
        var l :| 0 <= l < |assumptions| && assumptions[l] == p;
        assert IsTrue(T(), assumptions[l]);
        AgreesHolds(a, T(), p);
      }
      DecisionLength(assigns, decision, orderHeap);
      forall c | c in formula ensures !Falsified(c, assigns) {
        FullTrailIsConsistent(formula, T(), ca, clauses, decision, c);
      }
      forall a, c | Agrees(a, assigns) && c in formula && OneFreeAtMost(c, decision) ensures Satisfies(a, c) {
        FullTrailIsAModel(formula, T(), ca, clauses, decision, a, c);
      }
    }

    /**
     * Searches with growing limits, those of the restart scheme in turn, until one ends with a verdict or a budget,
     * which stays exhausted, runs out.
     */
    method RunSearches(luby: bool, inc: real, first: nat, mode: nat, removeSatisfied: bool, budgeted: bool)
        returns (status: LBool)
      requires SearchResult(LUndef) && InRange(assumptions, |assigns|) && inc > 1.0 && first >= 1
      modifies `ok, `ca, `clauses, `learnts, `watches, `dirty, `dirties, `assigns, `vardata, `trail, `trailLim, `pos,
        `qhead, `simpDBProps, `simpDBAssigns, `orderHeap, `seen, `conflict, `conflicts, `limits
      ensures SearchResult(status) && |assigns| == |old(assigns)|
      ensures status == LUndef ==> budgeted
      ensures old(limits) < limits
      ensures forall i :: |old(limits)| <= i < |limits| ==> limits[i] == Limit(luby, inc, first, i - |old(limits)|)
    {
      hide DatabaseOk, AssumedOk, AllUnmarked, TrailOk, HeapOk, Satisfiable, Implied, Remaining, Pow, Limit;
      status := LUndef;
      var restarts := 0;
      ghost var most := Pow(|assigns| + 1, |assumptions| + |assigns| + 2);
      ghost var last := LimitsGrow(luby, inc, first, most);
      while status == LUndef
        invariant SearchResult(status) && |assigns| == |old(assigns)|
        invariant (status == LUndef ==> restarts <= last) && (restarts == 0 ==> status == LUndef)
        invariant old(limits) <= limits && |limits| == |old(limits)| + restarts
        invariant forall i :: |old(limits)| <= i < |limits| ==>
          limits[i] == Limit(luby, inc, first, i - |old(limits)|)
        decreases status == LUndef, if status == LUndef then last - restarts else 0
      {
        SearchStarts();
        var base;
        if luby { base := Luby(inc, restarts); } else { base := RealPow(inc, restarts); }
        RemainingIsBounded(T(), |assumptions| + |assigns| + 2);
        LimitIs(luby, inc, first, restarts, base);
        var exhausted;
        status, exhausted := Search((base * first as real).Floor, mode, removeSatisfied, budgeted);
        if budgeted && !exhausted { exhausted := *; }
        if exhausted { break; }
        restarts := restarts + 1;
      }
    }

    /**
     * Solve under assumptions, restarting at growing conflict limits. The verdict LTrue comes with a model, LFalse
     * with a conflict clause over negated assumptions; ok is lost only if the formula alone is unsatisfiable. There is
     * always a verdict unless a budget or an interrupt ends the search.
     */
    method Solve(assumps: seq<Lit>, luby: bool, inc: real, first: nat, mode: nat, removeSatisfied: bool, budgeted: bool)
        returns (status: LBool)
      requires Valid() && InRange(assumps, |assigns|) && inc > 1.0 && first >= 1
      modifies `ok, `ca, `clauses, `learnts, `watches, `dirty, `dirties, `assigns, `vardata, `trail, `trailLim, `pos,
        `qhead, `simpDBProps, `simpDBAssigns, `orderHeap, `seen, `conflict, `model, `assumptions, `conflicts, `limits
      ensures Valid() && assumptions == assumps && |assigns| == |old(assigns)|
      ensures ok == !(status == LFalse && conflict == []) && (status == LTrue ==> |model| == |assigns|)
      ensures VerdictOk(formula, assumptions, decision, status, model, conflict)
      ensures status == LUndef ==> budgeted
    {
      hide *;
      TakeAssumptions(assumps);
      if !ok {
        RefutedAlready();
        return LFalse;
      }
      status := RunAndConclude(luby, inc, first, mode, removeSatisfied, budgeted);
    }

    method TakeAssumptions(assumps: seq<Lit>)
      requires Valid() && InRange(assumps, |assigns|)
      modifies `model, `conflict, `assumptions
      ensures Valid() && model == [] && conflict == [] && assumptions == assumps && InRange(assumptions, |assigns|)
      ensures ok ==> SearchResult(LUndef)
    {
      hide DatabaseOk, HeapOk, AllUnmarked, Satisfiable;
      model, conflict, assumptions := [], [], assumps;
    }

    lemma RefutedAlready()
      requires Valid() && !ok && conflict == []
      ensures VerdictOk(formula, assumptions, decision, LFalse, model, conflict)
    {
      hide VerdictOk, Satisfiable;
      RefutedBefore(formula, assumptions, decision, model, conflict);
    }

    /** The searches, and then the verdict, from the root and back to the root. */
    method RunAndConclude(luby: bool, inc: real, first: nat, mode: nat, removeSatisfied: bool, budgeted: bool)
        returns (status: LBool)
      requires SearchResult(LUndef) && InRange(assumptions, |assigns|) && model == [] && inc > 1.0 && first >= 1
      modifies `ok, `ca, `clauses, `learnts, `watches, `dirty, `dirties, `assigns, `vardata, `trail, `trailLim, `pos,
        `qhead, `simpDBProps, `simpDBAssigns, `orderHeap, `seen, `conflict, `model, `conflicts, `limits
      ensures Valid() && |assigns| == |old(assigns)|
      ensures ok == !(status == LFalse && conflict == []) && (status == LTrue ==> |model| == |assigns|)
      ensures VerdictOk(formula, assumptions, decision, status, model, conflict)
      ensures status == LUndef ==> budgeted
    {
      status := RunSearches(luby, inc, first, mode, removeSatisfied, budgeted);
      hide SearchResult, VerdictOk, Valid;
      Conclude(status);
    }

    /** Keep the model, or the fact that the formula has none; then back to the root. */
    method Conclude(status: LBool)
      requires SearchResult(status) && model == []
      modifies `ok, `model, `assigns, `trail, `trailLim, `qhead, `orderHeap
      ensures Valid() && |assigns| == |old(assigns)|
      ensures ok == !(status == LFalse && conflict == []) && (status == LTrue ==> |model| == |assigns|)
      ensures VerdictOk(formula, assumptions, decision, status, model, conflict)
    {
      hide SearchResult, DatabaseOk, AllUnmarked, HeapOk, TrailOk, VerdictOk, Satisfiable, Implied;
      Stopped(status);
      if status == LTrue {
        model := assigns;
      } else if status == LFalse && |conflict| == 0 {
        ok := false;
      }
      if ok { BackToRoot(); }
    }

    /** What the end of the search says. */
    lemma Stopped(status: LBool)
      requires SearchResult(status) && model == []
      ensures !(status == LFalse && conflict == []) ==> ok && Inv() && TrailOk(T())
      ensures status == LFalse && conflict == [] ==> !Satisfiable(formula)
      ensures VerdictOk(formula, assumptions, decision, status, if status == LTrue then assigns else [], conflict)
    {
      if !(status == LFalse && conflict == []) { InvHasTrail(); }
      hide DatabaseOk, AssumedOk, AllUnmarked, TrailOk, HeapOk, ModelOk, Models, Implied;
      if status == LTrue {
        TrailIsAModel();
      } else if status == LFalse {
        Refuted();
      }
    }

    lemma SearchStarts()
      requires SearchResult(LUndef) && InRange(assumptions, |assigns|)
      ensures SearchOk()
    {
      RootAssumedOk(T(), assumptions);
    }

    lemma InvHasTrail()
      requires Inv()
      ensures TrailOk(T())
    {
    }

    lemma Refuted()
      requires SearchResult(LFalse)
      ensures forall a :: Models(a, formula) ==> exists p :: p in assumptions && !Holds(a, p)
    {
      forall a | Models(a, formula) ensures exists p :: p in assumptions && !Holds(a, p) {
        if conflict != [] { FinalConflictIsUnsat(formula, assumptions, conflict, a); }
      }
    }
  }
}
