/** What backward subsumption is for: afterwards no clause subsumes or strengthens another. */
module Irredundance {
  import opened SolverTypes
  import opened Trails
  import opened Subsumption
  import opened SimpDatabase

  /** The clauses that a limit on size leaves out of subsumption; -1 is no limit. */
  ghost function Long(ca: seq<ClauseRec>, lim: int): set<CRef> {
    set r | 0 <= r < |ca| && lim != -1 && !ca[r].deleted && |ca[r].lits| >= lim
  }

  lemma LongShrinks(ca: seq<ClauseRec>, ca': seq<ClauseRec>, q: seq<CRef>, q': seq<CRef>, lim: int)
    requires Shrunk(ca, ca', q, q')
    ensures Long(ca', lim) <= Long(ca, lim)
  {
    forall s | s in Long(ca', lim) ensures s in Long(ca, lim) {
      assert Live(ca', s);
    }
  }

  /** From ca to ca', clauses only went away or lost literals; those that lost literals are queued. */
  ghost predicate Shrunk(ca: seq<ClauseRec>, ca': seq<ClauseRec>, queue: seq<CRef>, queue': seq<CRef>) {
    && |ca'| == |ca| && (forall r :: r in queue ==> r in queue')
    && forall s :: Live(ca', s) ==>
         Live(ca, s) && |ca'[s].lits| <= |ca[s].lits| &&
         (ca'[s].lits == ca[s].lits || (s in queue' && Within(ca'[s].lits, ca[s].lits)))
  }

  ghost predicate Within(c: seq<Lit>, d: seq<Lit>) { forall p :: p in c ==> p in d }

  lemma NotShrunk(ca: seq<ClauseRec>, queue: seq<CRef>)
    ensures Shrunk(ca, ca, queue, queue)
  {
  }

  lemma ShrunkTwice(ca: seq<ClauseRec>, ca': seq<ClauseRec>, ca'': seq<ClauseRec>, q: seq<CRef>, q': seq<CRef>,
                    q'': seq<CRef>)
    requires Shrunk(ca, ca', q, q') && Shrunk(ca', ca'', q', q'')
    ensures Shrunk(ca, ca'', q, q'')
  {
    forall s | Live(ca'', s)
      ensures Live(ca, s) && |ca''[s].lits| <= |ca[s].lits|
      ensures ca''[s].lits == ca[s].lits || (s in q'' && Within(ca''[s].lits, ca[s].lits))
    {
      assert Live(ca', s);
    }
  }

  lemma RemovedShrinks(ca: seq<ClauseRec>, r: CRef, queue: seq<CRef>)
    requires Live(ca, r)
    ensures Shrunk(ca, Removed(ca, r), queue, queue)
  {
  }

  /** Clause r is deleted or has lost l, and is queued. */
  ghost predicate Lost(ca: seq<ClauseRec>, ca': seq<ClauseRec>, r: CRef, l: Lit) {
    && Live(ca, r) && |ca'| == |ca| && (forall s :: 0 <= s < |ca| && s != r ==> ca'[s] == ca[s])
    && (ca'[r].deleted || ca'[r].lits == Without(ca[r].lits, l))
  }

  lemma LostOthers(ca: seq<ClauseRec>, ca': seq<ClauseRec>, r: CRef, l: Lit)
    requires Lost(ca, ca', r, l)
    ensures |ca'| == |ca| && forall s :: 0 <= s < |ca| && s != r ==> ca'[s] == ca[s]
  {
  }

  lemma LostShrinks(ca: seq<ClauseRec>, ca': seq<ClauseRec>, queue: seq<CRef>, r: CRef, l: Lit)
    requires Lost(ca, ca', r, l)
    ensures Shrunk(ca, ca', queue, queue + [r])
  {
    if 0 <= r < |ca| { WithoutWithin(ca[r].lits, l); }
  }

  lemma {:induction false} WithoutWithin(c: seq<Lit>, l: Lit)
    ensures Within(Without(c, l), c) && |Without(c, l)| <= |c|
  {
    if c != [] { WithoutWithin(c[1..], l); }
  }

  /** What TrySubsume did to clause s: nothing, removed it, or took out the complement of the flipped literal. */
  ghost predicate Used(ca: seq<ClauseRec>, ca': seq<ClauseRec>, queue: seq<CRef>, queue': seq<CRef>, occ: Occs,
                       occ': Occs, c: seq<Lit>, s: CRef, hit: Answer) {
    && Shrunk(ca, ca', queue, queue') && (Live(ca', s) ==> Right(c, ca'[s].lits, Neither))
    && if hit.Strengthens? then ListsKept(occ, occ', s, hit.p.v) else occ' == occ
  }

  lemma UsedShrinks(ca: seq<ClauseRec>, ca': seq<ClauseRec>, queue: seq<CRef>, queue': seq<CRef>, occ: Occs, occ': Occs,
                    c: seq<Lit>, s: CRef, hit: Answer)
    requires Used(ca, ca', queue, queue', occ, occ', c, s, hit)
    ensures Shrunk(ca, ca', queue, queue') && |occ'| == |occ|
  {
  }

  lemma UsedNot(ca: seq<ClauseRec>, queue: seq<CRef>, occ: Occs, c: seq<Lit>, s: CRef)
    requires Live(ca, s) && Right(c, ca[s].lits, Neither)
    ensures Used(ca, ca, queue, queue, occ, occ, c, s, Neither)
  {
  }

  lemma UsedToRemove(ca: seq<ClauseRec>, queue: seq<CRef>, occ: Occs, c: seq<Lit>, s: CRef)
    requires Live(ca, s)
    ensures Used(ca, Removed(ca, s), queue, queue, occ, occ, c, s, Subsumed)
  {
    RemovedShrinks(ca, s, queue);
  }

  lemma UsedToStrengthen(ca: seq<ClauseRec>, ca': seq<ClauseRec>, queue: seq<CRef>, occ: Occs, occ': Occs, c: seq<Lit>,
                         s: CRef, p: Lit)
    requires Lost(ca, ca', s, Neg(p)) && ListsKept(occ, occ', s, p.v)
    requires Right(c, ca[s].lits, Strengthens(p)) && DistinctVars(ca[s].lits)
    ensures Used(ca, ca', queue, queue + [s], occ, occ', c, s, Strengthens(p))
  {
    hide ListsKept;
    LostShrinks(ca, ca', queue, s, Neg(p));
    if Live(ca', s) { StrengthenedIsDone(c, ca[s].lits, p); }
  }

  /** Only the list of v may have changed: it may have lost r. */
  ghost predicate ListsKept(occ: Occs, occ': Occs, r: CRef, v: Var) {
    |occ'| == |occ| && forall w :: 0 <= w < |occ| ==> occ'[w] == occ[w] || (w == v && occ'[w] == Without(occ[w], r))
  }

  lemma NeitherShrinks(c: seq<Lit>, d: seq<Lit>, d': seq<Lit>)
    requires Right(c, d, Neither) && Within(d', d)
    ensures Right(c, d', Neither)
  {
    forall flips | SubsetUpTo(c, d', flips) ensures SubsetUpTo(c, d, flips) {
    }
  }

  ghost predicate Covered(c: seq<Lit>, touched: set<Var>) { forall i :: 0 <= i < |c| ==> c[i].v in touched }

  /**
   * A clause that is not queued neither subsumes nor strengthens another one, except one that is skipped or all of
   * whose variables are touched.
   */
  ghost predicate Irredundant(ca: seq<ClauseRec>, queue: seq<CRef>, touched: set<Var>, skip: set<CRef>) {
    forall r, s ::
      Live(ca, r) && Live(ca, s) && s !in skip && r != s && r !in queue && !Covered(ca[s].lits, touched) ==>
      Right(ca[r].lits, ca[s].lits, Neither)
  }

  /** No clause is over one of the first n root variables. */
  ghost predicate UnitsDone(ca: seq<ClauseRec>, trail: seq<Lit>, n: nat, skip: set<CRef>) {
    n <= |trail| && forall i, s :: 0 <= i < n && Live(ca, s) && s !in skip ==> !Mentions(ca[s].lits, trail[i].v)
  }

  /** c, the clause r or a root literal, is of no use on any other clause. */
  ghost predicate Exhausted(ca: seq<ClauseRec>, c: seq<Lit>, r: CRef, skip: set<CRef>) {
    forall s :: Live(ca, s) && s !in skip && s != r ==> Right(c, ca[s].lits, Neither)
  }

  lemma ShrunkKeepsIrredundant(ca: seq<ClauseRec>, ca': seq<ClauseRec>, q: seq<CRef>, q': seq<CRef>, t: set<Var>,
                                skip: set<CRef>)
    requires Irredundant(ca, q, t, skip) && Shrunk(ca, ca', q, q')
    ensures Irredundant(ca', q', t, skip)
  {
    hide Right, Covered;
    forall r, s | Live(ca', r) && Live(ca', s) && s !in skip && r != s && r !in q' && !Covered(ca'[s].lits, t)
      ensures Right(ca'[r].lits, ca'[s].lits, Neither)
    {
      assert ca'[r].lits == ca[r].lits && Live(ca, r) && Live(ca, s);
      if ca'[s].lits != ca[s].lits && Covered(ca[s].lits, t) { WithinCovered(ca'[s].lits, ca[s].lits, t); }
      assert Right(ca[r].lits, ca[s].lits, Neither);
      if ca'[s].lits != ca[s].lits { NeitherShrinks(ca[r].lits, ca[s].lits, ca'[s].lits); }
    }
  }

  lemma ShrunkKeepsUnits(ca: seq<ClauseRec>, ca': seq<ClauseRec>, q: seq<CRef>, q': seq<CRef>, trail: seq<Lit>,
                         trail': seq<Lit>, n: nat, skip: set<CRef>)
    requires UnitsDone(ca, trail, n, skip) && Shrunk(ca, ca', q, q') && trail <= trail'
    ensures UnitsDone(ca', trail', n, skip)
  {
    forall i, s | 0 <= i < n && Live(ca', s) && s !in skip ensures !Mentions(ca'[s].lits, trail'[i].v) {
      assert trail'[i] == trail[i] && Live(ca, s) && !Mentions(ca[s].lits, trail[i].v);
      WithinMentions(ca'[s].lits, ca[s].lits, trail[i].v);
    }
  }

  lemma WithinCovered(c: seq<Lit>, d: seq<Lit>, t: set<Var>)
    requires Within(c, d) && Covered(d, t)
    ensures Covered(c, t)
  {
    forall k | 0 <= k < |c| ensures c[k].v in t {
      assert c[k] in c && c[k] in d;
      var i :| 0 <= i < |d| && d[i] == c[k];
    }
  }

  lemma WithinMentions(c: seq<Lit>, d: seq<Lit>, v: Var)
    requires Within(c, d) && !Mentions(d, v)
    ensures !Mentions(c, v)
  {
    forall k | 0 <= k < |c| ensures c[k].v != v {
      assert c[k] in c && c[k] in d;
      var i :| 0 <= i < |d| && d[i] == c[k];
    }
  }

  /** The clause r has been popped and is exhausted. */
  lemma PoppedIsDone(ca: seq<ClauseRec>, q: seq<CRef>, q': seq<CRef>, r: CRef, t: set<Var>, skip: set<CRef>)
    requires Irredundant(ca, q, t, skip) && (forall x :: x in q ==> x == r || x in q')
    requires Live(ca, r) ==> Exhausted(ca, ca[r].lits, r, skip)
    ensures Irredundant(ca, q', t, skip)
  {
    hide Right;
  }

  /** A root literal that is exhausted leaves no clause over its variable. */
  lemma UnitIsDone(ca: seq<ClauseRec>, trail: seq<Lit>, n: nat, skip: set<CRef>)
    requires UnitsDone(ca, trail, n, skip) && n < |trail| && Exhausted(ca, [trail[n]], CREF_UNDEF, skip)
    ensures UnitsDone(ca, trail, n + 1, skip)
  {
    var p := trail[n];
    forall s | Live(ca, s) && s !in skip ensures !Mentions(ca[s].lits, p.v) {
      assert Right([p], ca[s].lits, Neither);
      assert !SubsetUpTo([p], ca[s].lits, {}) && p in [p] && !SubsetUpTo([p], ca[s].lits, {p});
      assert p !in ca[s].lits && Neg(p) !in ca[s].lits;
      forall k | 0 <= k < |ca[s].lits| ensures ca[s].lits[k].v != p.v {
        var q := ca[s].lits[k];
        assert q in ca[s].lits && q != p && q != Neg(p);
      }
    }
  }

  /** A clause without the variable best is nothing to c. */
  lemma NotACandidate(c: seq<Lit>, d: seq<Lit>, best: Var)
    requires Mentions(c, best) && !Mentions(d, best)
    ensures Right(c, d, Neither)
  {
    var k :| 0 <= k < |c| && c[k].v == best;
    forall i | 0 <= i < |d| ensures d[i] != c[k] && d[i] != Neg(c[k]) {
    }
    assert c[k] in c && c[k] !in d && Neg(c[k]) !in d;
  }

  /** After strengthening, c is of no more use on d. */
  lemma StrengthenedIsDone(c: seq<Lit>, d: seq<Lit>, p: Lit)
    requires DistinctVars(d) && p in c && Neg(p) in d
    ensures Right(c, Without(d, Neg(p)), Neither)
  {
    var d' := Without(d, Neg(p));
    ShortenedVars(d, Neg(p), p.v);
    var k :| 0 <= k < |c| && c[k] == p;
    NotACandidate(c, d', p.v);
  }

  lemma {:induction false} WithoutAt(s: seq<CRef>, j: nat)
    requires NoRepeats(s) && j < |s|
    ensures Without(s, s[j]) == s[..j] + s[j + 1..]
  {
    if j > 0 {
      TailHasNoRepeats(s, j);
      WithoutAt(s[1..], j - 1);
      Reassembled(s, j);
    } else {
      assert s[..0] + s[1..] == s[1..];
    }
  }

  lemma TailHasNoRepeats(s: seq<CRef>, j: nat)
    requires NoRepeats(s) && 0 < j < |s|
    ensures NoRepeats(s[1..]) && s[1..][j - 1] == s[j] && s[0] != s[j]
  {
  }

  lemma Reassembled(s: seq<CRef>, j: nat)
    requires 0 < j < |s|
    ensures [s[0]] + (s[1..][..j - 1] + s[1..][j..]) == s[..j] + s[j + 1..]
  {
    assert s[1..][..j - 1] == s[1..j] && s[1..][j..] == s[j + 1..];
    assert [s[0]] + s[1..j] == s[..j];
  }

  // ---------- one scan over the candidates ----------

  /** The clauses in done have been tried with c, and the first j of the list are done. */
  ghost predicate Tried(ca: seq<ClauseRec>, c: seq<Lit>, r: CRef, list: seq<CRef>, j: nat, done: set<CRef>,
                        skip: set<CRef>) {
    && j <= |list| && NoRepeats(list) && (forall x :: 0 <= x < j ==> list[x] in done)
    && forall s :: s in done && Live(ca, s) && s !in skip && s != r ==> Right(c, ca[s].lits, Neither)
  }

  lemma TriedNothing(ca: seq<ClauseRec>, c: seq<Lit>, r: CRef, list: seq<CRef>, skip: set<CRef>)
    requires NoRepeats(list)
    ensures Tried(ca, c, r, list, 0, {}, skip)
  {
  }

  /** The list stays, or loses its j-th entry. */
  lemma TriedNext(ca: seq<ClauseRec>, ca': seq<ClauseRec>, q: seq<CRef>, q': seq<CRef>, c: seq<Lit>, r: CRef,
                  list: seq<CRef>, list': seq<CRef>, j: nat, done: set<CRef>, again: bool, skip: set<CRef>)
    requires Tried(ca, c, r, list, j, done, skip) && j < |list| && Shrunk(ca, ca', q, q')
    requires Live(ca', list[j]) && list[j] !in skip && list[j] != r ==> Right(c, ca'[list[j]].lits, Neither)
    requires list' == list || (again && list' == Without(list, list[j]))
    ensures Tried(ca', c, r, list', if again then j else j + 1, done + {list[j]}, skip)
  {
    hide Right;
    forall s | s in done && Live(ca', s) && s !in skip && s != r ensures Right(c, ca'[s].lits, Neither) {
      if ca'[s].lits != ca[s].lits { NeitherShrinks(c, ca[s].lits, ca'[s].lits); }
    }
    if list' != list {
      WithoutAt(list, j);
      WithoutRef(list, list[j]);
    }
  }

  lemma TriedUsed(ca: seq<ClauseRec>, ca': seq<ClauseRec>, q: seq<CRef>, q': seq<CRef>, occ: Occs, occ': Occs,
                  c: seq<Lit>, r: CRef, best: Var, j: nat, done: set<CRef>, hit: Answer, skip: set<CRef>)
    requires best < |occ| == |occ'| && Tried(ca, c, r, occ[best], j, done, skip) && j < |occ[best]|
    requires Used(ca, ca', q, q', occ, occ', c, occ[best][j], hit)
    ensures Tried(ca', c, r, occ'[best],
                  if hit.Strengthens? && hit.p.v == best then j else j + 1, done + {occ[best][j]}, skip)
  {
    hide Right, Shrunk;
    TriedNext(ca, ca', q, q', c, r, occ[best], occ'[best], j, done, hit.Strengthens? && hit.p.v == best, skip);
  }

  lemma TriedSkip(ca: seq<ClauseRec>, c: seq<Lit>, r: CRef, list: seq<CRef>, j: nat, done: set<CRef>, skip: set<CRef>)
    requires Tried(ca, c, r, list, j, done, skip) && j < |list|
    requires !Live(ca, list[j]) || list[j] in skip || list[j] == r
    ensures Tried(ca, c, r, list, j + 1, done + {list[j]}, skip)
  {
    TriedNext(ca, ca, [], [], c, r, list, list, j, done, false, skip);
  }

  /** All candidates of the best variable tried: c is exhausted. */
  lemma TriedAll(ca: seq<ClauseRec>, c: seq<Lit>, r: CRef, list: seq<CRef>, done: set<CRef>, best: Var, isDirty: bool,
                 skip: set<CRef>)
    requires Tried(ca, c, r, list, |list|, done, skip) && OccListOk(ca, list, best, isDirty) && Mentions(c, best)
    ensures Exhausted(ca, c, r, skip)
  {
    hide Right;
    forall s | Live(ca, s) && s !in skip && s != r ensures Right(c, ca[s].lits, Neither) {
      if Mentions(ca[s].lits, best) {
        assert s in list;
        var x :| 0 <= x < |list| && list[x] == s;
      } else {
        NotACandidate(c, ca[s].lits, best);
      }
    }
  }

  lemma ExhaustedWithMore(ca: seq<ClauseRec>, c: seq<Lit>, r: CRef, skip: set<CRef>, skip': set<CRef>)
    requires Exhausted(ca, c, r, skip) && skip <= skip'
    ensures Exhausted(ca, c, r, skip')
  {
  }

  lemma TriedLength(ca: seq<ClauseRec>, c: seq<Lit>, r: CRef, list: seq<CRef>, j: nat, done: set<CRef>, skip: set<CRef>)
    requires Tried(ca, c, r, list, j, done, skip)
    ensures j <= |list|
  {
  }

  // ---------- one round of backwardSubsumptionCheck ----------

  /**
   * Apart from queued clauses, touched variables and the root literals from n on, no clause subsumes or
   * strengthens another and no clause mentions a root variable.
   */
  ghost predicate Minimal(ca: seq<ClauseRec>, queue: seq<CRef>, touched: set<Var>, trail: seq<Lit>, n: nat,
                          skip: set<CRef>) {
    Irredundant(ca, queue, touched, skip) && UnitsDone(ca, trail, n, skip)
  }

  lemma UnitTaken(ca: seq<ClauseRec>, ca': seq<ClauseRec>, queue': seq<CRef>, t: set<Var>, trail: seq<Lit>,
                  trail': seq<Lit>, n: nat, skip: set<CRef>)
    requires Minimal(ca, [], t, trail, n, skip) && n < |trail| && trail <= trail'
    requires Shrunk(ca, ca', [], queue') && Exhausted(ca', [trail[n]], CREF_UNDEF, skip)
    ensures Minimal(ca', queue', t, trail', n + 1, skip)
  {
    hide Shrunk, Exhausted, Irredundant, UnitsDone;
    ShrunkKeepsIrredundant(ca, ca', [], queue', t, skip);
    ShrunkKeepsUnits(ca, ca', [], queue', trail, trail', n, skip);
    UnitIsDone(ca', trail', n, skip);
  }

  lemma ClauseTaken(ca: seq<ClauseRec>, ca': seq<ClauseRec>, queue: seq<CRef>, queue': seq<CRef>, t: set<Var>,
                    trail: seq<Lit>, trail': seq<Lit>, n: nat, skip: set<CRef>)
    requires |queue| > 0 && Minimal(ca, queue, t, trail, n, skip) && trail <= trail'
    requires Shrunk(ca, ca', queue[1..], queue')
    requires (Live(ca', queue[0]) ==> Exhausted(ca', ca'[queue[0]].lits, queue[0], skip))
    ensures Minimal(ca', queue', t, trail', n, skip)
  {
    hide Exhausted, Irredundant, UnitsDone;
    var q' := [queue[0]] + queue';
    assert queue == [queue[0]] + queue[1..];
    assert Shrunk(ca, ca', queue, q');
    hide Shrunk;
    ShrunkKeepsIrredundant(ca, ca', queue, q', t, skip);
    ShrunkKeepsUnits(ca, ca', queue, q', trail, trail', n, skip);
    PoppedIsDone(ca', q', queue', queue[0], t, skip);
  }

  /** Queueing the clauses of all touched variables makes up for the touched clauses. */
  lemma GatheredIsMinimal(ca: seq<ClauseRec>, queue: seq<CRef>, queue': seq<CRef>, t: set<Var>, trail: seq<Lit>, n: nat,
                          skip: set<CRef>)
    requires Minimal(ca, queue, t, trail, n, skip) && (forall r :: r in queue ==> r in queue')
    requires forall r :: Live(ca, r) ==> |ca[r].lits| > 0
    requires forall r, v :: v in t && Live(ca, r) && Mentions(ca[r].lits, v) ==> r in queue'
    ensures Minimal(ca, queue', {}, trail, n, skip)
  {
    hide Right;
    forall r, s | Live(ca, r) && Live(ca, s) && s !in skip && r != s && r !in queue'
      ensures Right(ca[r].lits, ca[s].lits, Neither)
    {
      var v := ca[r].lits[0].v;
      assert Mentions(ca[r].lits, v);
      if Covered(ca[s].lits, t) { NotACandidate(ca[r].lits, ca[s].lits, v); }
    }
  }

  /** A new clause is queued, its variables are touched, and it has no root variable. */
  lemma StoredIsMinimal(ca: seq<ClauseRec>, queue: seq<CRef>, t: set<Var>, trail: seq<Lit>, n: nat, c: seq<Lit>,
                        t': set<Var>, skip: set<CRef>)
    requires Minimal(ca, queue, t, trail, n, skip) && t <= t' && Covered(c, t')
    requires forall p :: p in trail ==> !Mentions(c, p.v)
    ensures Minimal(ca + [ClauseRec(c, false, false)], queue + [|ca|], t', trail, n, skip)
  {
    hide Right;
    var ca' := ca + [ClauseRec(c, false, false)];
    forall r, s | Live(ca', r) && Live(ca', s) && s !in skip && r != s && r !in queue + [|ca|] &&
                    !Covered(ca'[s].lits, t')
      ensures Right(ca'[r].lits, ca'[s].lits, Neither)
    {
      assert r in queue ==> r in queue + [|ca|];
      assert |ca| in queue + [|ca|];
      assert Live(ca, r) && Live(ca, s) && !Covered(ca[s].lits, t);
    }
    forall i, s | 0 <= i < n && Live(ca', s) && s !in skip ensures !Mentions(ca'[s].lits, trail[i].v) {
      assert trail[i] in trail;
      assert s < |ca| ==> Live(ca, s);
    }
  }

  lemma GrownIsMinimal(ca: seq<ClauseRec>, queue: seq<CRef>, t: set<Var>, trail: seq<Lit>, trail': seq<Lit>, n: nat,
                       skip: set<CRef>)
    requires Minimal(ca, queue, t, trail, n, skip) && trail <= trail'
    ensures Minimal(ca, queue, t, trail', n, skip)
  {
    hide Irredundant;
    NotShrunk(ca, queue);
    ShrunkKeepsUnits(ca, ca, queue, queue, trail, trail', n, skip);
  }

  lemma RemovedIsMinimal(ca: seq<ClauseRec>, r: CRef, queue: seq<CRef>, t: set<Var>, trail: seq<Lit>, n: nat,
                         skip: set<CRef>)
    requires Minimal(ca, queue, t, trail, n, skip) && Live(ca, r)
    ensures Minimal(Removed(ca, r), queue, t, trail, n, skip)
  {
    hide Irredundant, UnitsDone;
    RemovedShrinks(ca, r, queue);
    ShrunkKeepsIrredundant(ca, Removed(ca, r), queue, queue, t, skip);
    ShrunkKeepsUnits(ca, Removed(ca, r), queue, queue, trail, trail, n, skip);
  }

  lemma LostIsMinimal(ca: seq<ClauseRec>, ca': seq<ClauseRec>, r: CRef, l: Lit, queue: seq<CRef>, t: set<Var>,
                      trail: seq<Lit>, trail': seq<Lit>, n: nat, skip: set<CRef>)
    requires Minimal(ca, queue, t, trail, n, skip) && Lost(ca, ca', r, l) && trail <= trail'
    ensures Minimal(ca', queue + [r], t, trail', n, skip)
  {
    hide Irredundant, UnitsDone, Lost;
    LostShrinks(ca, ca', queue, r, l);
    ShrunkKeepsIrredundant(ca, ca', queue, queue + [r], t, skip);
    ShrunkKeepsUnits(ca, ca', queue, queue + [r], trail, trail', n, skip);
  }
}
