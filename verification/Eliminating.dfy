/** Why variable elimination may replace clauses by their resolvents, on values. */
module Eliminating {
  import opened SolverTypes
  import opened Trails
  import opened Elimination
  import opened ElimStack
  import opened SimpDatabase
  import opened Merging
  import Verdicts

  /** The variables below n. */
  ghost function Range(n: nat): (s: set<Var>)
    ensures forall v: Var :: v in s <==> v < n
  {
    if n == 0 then {} else Range(n - 1) + {n - 1}
  }

  /**
   * Every model of the formula is one of the database, and every model of the database extends to one of the
   * formula.
   */
  ghost predicate Faithful(formula: set<seq<Lit>>, ca: seq<ClauseRec>, trail: seq<Lit>, recs: seq<seq<Lit>>)
    requires EntriesOk(recs)
  {
    && (forall a :: Models(a, formula) ==> DbSat(a, ca, trail))
    && (forall a :: DbSat(a, ca, trail) ==> Models(Extended(a, recs), formula))
  }

  /** The stack decides exactly the eliminated variables, and finds all others decided when it is undone. */
  ghost predicate RecsOk(recs: seq<seq<Lit>>, n: nat, gone: set<Var>) {
    && EntriesOk(recs) && Grounded(recs, Range(n) - gone)
    && gone <= UnitVars(recs) <= Range(n) && forall i :: 0 <= i < |recs| ==> recs[i][0].v in gone
  }

  /** The formula, the database, and the elimination stack (as clauses, and flat) belong together. */
  ghost predicate ElimOk(formula: set<seq<Lit>>, ca: seq<ClauseRec>, trail: seq<Lit>, n: nat, gone: set<Var>,
                         recs: seq<seq<Lit>>, flat: seq<nat>) {
    && flat == Flat(recs) && RecsOk(recs, n, gone) && Faithful(formula, ca, trail, recs)
    && forall c :: c in formula ==> InRange(c, n)
  }

  /** Steps that preserve the models of the database. */
  lemma SameModelsKeepElim(formula: set<seq<Lit>>, ca: seq<ClauseRec>, trail: seq<Lit>, n: nat, gone: set<Var>,
                           recs: seq<seq<Lit>>, flat: seq<nat>, ca': seq<ClauseRec>, trail': seq<Lit>)
    requires ElimOk(formula, ca, trail, n, gone, recs, flat)
    requires forall a :: DbSat(a, ca', trail') <==> DbSat(a, ca, trail)
    ensures ElimOk(formula, ca', trail', n, gone, recs, flat)
  {
    hide DbSat, Models, Flat, InRange;
    assert EntriesOk(recs);
    hide RecsOk;
  }

  lemma NoModelMeansUnsat(formula: set<seq<Lit>>, ca: seq<ClauseRec>, trail: seq<Lit>, n: nat, gone: set<Var>,
                          recs: seq<seq<Lit>>, flat: seq<nat>)
    requires ElimOk(formula, ca, trail, n, gone, recs, flat) && forall a :: !DbSat(a, ca, trail)
    ensures !Satisfiable(formula)
  {
    hide DbSat, Models, Flat, InRange;
    assert EntriesOk(recs);
  }

  lemma FaithfulIsEquisatisfiable(formula: set<seq<Lit>>, ca: seq<ClauseRec>, trail: seq<Lit>, recs: seq<seq<Lit>>)
    requires EntriesOk(recs) && Faithful(formula, ca, trail, recs)
    ensures Satisfiable(formula) <==> exists a :: DbSat(a, ca, trail)
  {
    if exists a :: DbSat(a, ca, trail) {
      var a :| DbSat(a, ca, trail);
      assert Models(Extended(a, recs), formula);
    }
  }

  /** A further clause that avoids the eliminated variables. */
  lemma AddedClauseKeepsElim(formula: set<seq<Lit>>, ca: seq<ClauseRec>, trail: seq<Lit>, n: nat, gone: set<Var>,
                             recs: seq<seq<Lit>>, flat: seq<nat>, c: seq<Lit>, ca': seq<ClauseRec>, trail': seq<Lit>)
    requires ElimOk(formula, ca, trail, n, gone, recs, flat) && VarSet(c) !! gone && InRange(c, n)
    requires forall a :: DbSat(a, ca', trail') <==> DbSat(a, ca, trail) && Satisfies(a, c)
    ensures ElimOk(formula + {c}, ca', trail', n, gone, recs, flat)
  {
    hide DbSat, Satisfies, Flat, InRange;
    forall a | DbSat(a, ca', trail') ensures Models(Extended(a, recs), formula + {c}) {
      ExtensionSparesOthers(a, recs, n, gone, c);
    }
  }

  lemma ExtensionSparesOthers(a: Model, recs: seq<seq<Lit>>, n: nat, gone: set<Var>, c: seq<Lit>)
    requires RecsOk(recs, n, gone) && VarSet(c) !! gone
    ensures Satisfies(Extended(a, recs), c) <==> Satisfies(a, c)
  {
    forall k | 0 <= k < |c| ensures Holds(a, c[k]) <==> Holds(Extended(a, recs), c[k]) {
      assert c[k].v in VarSet(c);
      ExtendedKeepsOthers(a, recs, c[k]);
    }
    SatisfiedInBoth(a, Extended(a, recs), c);
  }

  lemma AddedClauseMayRefute(formula: set<seq<Lit>>, ca: seq<ClauseRec>, trail: seq<Lit>, n: nat, gone: set<Var>,
                             recs: seq<seq<Lit>>, flat: seq<nat>, c: seq<Lit>)
    requires ElimOk(formula, ca, trail, n, gone, recs, flat) && forall a :: !(DbSat(a, ca, trail) && Satisfies(a, c))
    ensures !Satisfiable(formula + {c})
  {
    forall a ensures !Models(a, formula + {c}) {
      if Models(a, formula + {c}) {
        assert Models(a, formula) && Satisfies(a, c);
      }
    }
  }

  lemma MoreStaysUnsat(formula: set<seq<Lit>>, c: seq<Lit>)
    requires !Satisfiable(formula)
    ensures !Satisfiable(formula + {c})
  {
    forall a | Models(a, formula + {c}) ensures Models(a, formula) {
    }
  }

  // ---------- the clauses of the eliminated variable ----------

  predicate RefsOk(ca: seq<ClauseRec>, rs: seq<CRef>) { forall i :: 0 <= i < |rs| ==> 0 <= rs[i] < |ca| }

  function Lits(ca: seq<ClauseRec>, rs: seq<CRef>): (cs: seq<seq<Lit>>)
    requires RefsOk(ca, rs)
    ensures |cs| == |rs| && forall i :: 0 <= i < |rs| ==> cs[i] == ca[rs[i]].lits
  {
    seq(|rs|, i requires 0 <= i < |rs| => ca[rs[i]].lits)
  }

  lemma AllHoldAt(a: Model, ca: seq<ClauseRec>, rs: seq<CRef>)
    requires RefsOk(ca, rs)
    ensures AllHold(a, Lits(ca, rs)) <==> forall i :: 0 <= i < |rs| ==> Satisfies(a, ca[rs[i]].lits)
  {
    hide Satisfies;
    var cs := Lits(ca, rs);
    if AllHold(a, cs) {
      forall i | 0 <= i < |rs| ensures Satisfies(a, ca[rs[i]].lits) {
        assert cs[i] in cs;
      }
    }
  }

  /** Changing a model only on variables the database avoids. */
  lemma FreeVariable(a: Model, b: Model, ca: seq<ClauseRec>, trail: seq<Lit>, v: Var)
    requires Free(ca, trail, {v}) && forall q: Lit :: q.v != v ==> (Holds(b, q) <==> Holds(a, q))
    ensures DbSat(a, ca, trail) <==> DbSat(b, ca, trail)
  {
    forall r | 0 <= r < |ca| && !ca[r].deleted ensures Satisfies(a, ca[r].lits) <==> Satisfies(b, ca[r].lits) {
      assert !Mentions(ca[r].lits, v);
      SatisfiedInBoth(a, b, ca[r].lits);
    }
  }

  /** The two databases around the elimination of the variable of p: mid is what both share. */
  ghost predicate Eliminates(ca: seq<ClauseRec>, trail: seq<Lit>, mid: seq<ClauseRec>, ca': seq<ClauseRec>,
                             trail': seq<Lit>, stored: seq<seq<Lit>>, others: seq<seq<Lit>>, p: Lit) {
    && Free(mid, trail, {p.v})
    && Occurrences(stored, others, p)
    && (forall a :: DbSat(a, ca, trail) <==> DbSat(a, mid, trail) && AllHold(a, stored) && AllHold(a, others))
    && (forall a :: DbSat(a, ca', trail') <==> DbSat(a, mid, trail) && ResolventsHold(a, stored, others, p.v))
  }

  lemma EliminationIsSound(a: Model, ca: seq<ClauseRec>, trail: seq<Lit>, mid: seq<ClauseRec>, ca': seq<ClauseRec>,
                           trail': seq<Lit>, stored: seq<seq<Lit>>, others: seq<seq<Lit>>, p: Lit)
    requires Eliminates(ca, trail, mid, ca', trail', stored, others, p) && DbSat(a, ca, trail)
    ensures DbSat(a, ca', trail')
  {
    hide DbSat, Free, AllHold;
    ResolventsFollow(a, stored, others, p);
  }

  lemma EliminationIsInvertible(a: Model, ca: seq<ClauseRec>, trail: seq<Lit>, mid: seq<ClauseRec>, ca': seq<ClauseRec>,
                                trail': seq<Lit>, stored: seq<seq<Lit>>, others: seq<seq<Lit>>,
                                p: Lit, block: seq<seq<Lit>>)
    requires Eliminates(ca, trail, mid, ca', trail', stored, others, p) && IsBlock(block, stored, p)
    requires DbSat(a, ca', trail')
    ensures EntriesOk(block) && DbSat(Extended(a, block), ca, trail)
  {
    hide DbSat, Free, AllHold, IsBlock, Clash, OthersHold;
    BlockRestores(a, stored, others, p, block);
    FreeVariable(a, Extended(a, block), mid, trail, p.v);
  }

  /** One elimination step of the formula's stack. */
  lemma EliminationKeepsFaithful(formula: set<seq<Lit>>, ca: seq<ClauseRec>, trail: seq<Lit>, recs: seq<seq<Lit>>,
                                 mid: seq<ClauseRec>, ca': seq<ClauseRec>, trail': seq<Lit>,
                                 stored: seq<seq<Lit>>, others: seq<seq<Lit>>, p: Lit, block: seq<seq<Lit>>)
    requires EntriesOk(recs) && Faithful(formula, ca, trail, recs)
    requires Eliminates(ca, trail, mid, ca', trail', stored, others, p) && IsBlock(block, stored, p)
    ensures EntriesOk(recs + block) && Faithful(formula, ca', trail', recs + block)
  {
    hide DbSat, Models, Eliminates;
    assert EntriesOk(block);
    hide IsBlock;
    forall a | DbSat(a, ca, trail) ensures DbSat(a, ca', trail') {
      EliminationIsSound(a, ca, trail, mid, ca', trail', stored, others, p);
    }
    forall a | DbSat(a, ca', trail') ensures Models(Extended(a, recs + block), formula) {
      EliminationIsInvertible(a, ca, trail, mid, ca', trail', stored, others, p, block);
      ExtendedInTwo(a, recs, block);
    }
  }

  /** The stack after one more elimination. */
  lemma EliminationKeepsRecs(recs: seq<seq<Lit>>, n: nat, gone: set<Var>, stored: seq<seq<Lit>>, p: Lit,
                             block: seq<seq<Lit>>)
    requires RecsOk(recs, n, gone) && IsBlock(block, stored, p) && p.v < n && p.v !in gone
    requires StandIn(stored, n, gone)
    ensures RecsOk(recs + block, n, gone + {p.v})
  {
    var known, entries := Range(n) - gone, block[..|stored|];
    assert block == entries + [[Neg(p)]];
    assert recs + block == recs + entries + [[Neg(p)]];
    forall i, k | 0 <= i < |entries| && 0 <= k < |entries[i]| ensures entries[i][k].v in known {
      PermutedEntry(entries[i], stored[i]);
      assert entries[i][k] in stored[i];
      var x :| 0 <= x < |stored[i]| && stored[i][x] == entries[i][k];
      assert stored[i][x].v in VarSet(stored[i]);
    }
    BlockIsGrounded(recs, entries, Neg(p), known);
    assert Range(n) - (gone + {p.v}) == known - {p.v};
    EntryUnits(recs, entries, n);
    var all := recs + block;
    assert all[..|all| - 1] == recs + entries;
  }

  lemma {:induction false} EntryUnits(recs: seq<seq<Lit>>, entries: seq<seq<Lit>>, n: nat)
    requires UnitVars(recs) <= Range(n)
    requires forall i, k :: 0 <= i < |entries| && 0 <= k < |entries[i]| ==> entries[i][k].v < n
    ensures UnitVars(recs + entries) <= Range(n)
  {
    if entries == [] {
      assert recs + entries == recs;
    } else {
      var all, front := recs + entries, entries[..|entries| - 1];
      assert all[..|all| - 1] == recs + front;
      EntryUnits(recs, front, n);
    }
  }

  /** More variables. */
  lemma {:induction false} GroundedGrows(recs: seq<seq<Lit>>, known: set<Var>, known': set<Var>)
    requires Grounded(recs, known) && known <= known'
    ensures Grounded(recs, known')
  {
    if recs != [] {
      var c, front := recs[|recs| - 1], recs[..|recs| - 1];
      if |c| == 1 {
        GroundedGrows(front, known + {c[0].v}, known' + {c[0].v});
      } else {
        GroundedGrows(front, known, known');
      }
    }
  }

  // ---------- counting resolvents ----------

  /** The number of non-tautological resolvents of c with the clauses ds. */
  ghost function CountRow(c: seq<Lit>, ds: seq<seq<Lit>>, v: Var): nat {
    if ds == [] then 0 else CountRow(c, ds[..|ds| - 1], v) + if Clash(c, ds[|ds| - 1], v) then 0 else 1
  }

  ghost function CountPairs(cs: seq<seq<Lit>>, ds: seq<seq<Lit>>, v: Var): nat {
    if cs == [] then 0 else CountPairs(cs[..|cs| - 1], ds, v) + CountRow(cs[|cs| - 1], ds, v)
  }

  lemma CountNextPair(c: seq<Lit>, ds: seq<seq<Lit>>, v: Var, j: nat)
    requires j < |ds|
    ensures CountRow(c, ds[..j + 1], v) == CountRow(c, ds[..j], v) + if Clash(c, ds[j], v) then 0 else 1
    ensures CountRow(c, ds, v) >= CountRow(c, ds[..j + 1], v)
  {
    assert ds[..j + 1][..j] == ds[..j];
    RowIsLarger(c, ds, v, j + 1);
  }

  lemma CountNextRow(cs: seq<seq<Lit>>, ds: seq<seq<Lit>>, v: Var, i: nat)
    requires i < |cs|
    ensures CountPairs(cs[..i + 1], ds, v) == CountPairs(cs[..i], ds, v) + CountRow(cs[i], ds, v)
    ensures CountPairs(cs, ds, v) >= CountPairs(cs[..i + 1], ds, v)
  {
    assert cs[..i + 1][..i] == cs[..i];
    CountIsLarger(cs, ds, v, i);
  }

  lemma NoResolvents(a: Model, cs: seq<seq<Lit>>, ds: seq<seq<Lit>>, v: Var)
    ensures ResolventsHold(a, cs[..0], ds, v) && ResolventsHold(a, cs, ds[..0], v)
  {
  }

  lemma FewerResolvents(a: Model, cs: seq<seq<Lit>>, ds: seq<seq<Lit>>, v: Var, i: nat)
    requires i <= |cs| && ResolventsHold(a, cs, ds, v)
    ensures ResolventsHold(a, cs[..i], ds, v)
  {
    hide Clash, OthersHold;
    assert forall c :: c in cs[..i] ==> c in cs;
  }

  lemma FewerResolventsInRow(a: Model, c: seq<Lit>, ds: seq<seq<Lit>>, v: Var, j: nat)
    requires j <= |ds| && ResolventsHold(a, [c], ds, v)
    ensures ResolventsHold(a, [c], ds[..j], v)
  {
    hide Clash, OthersHold;
    assert forall d :: d in ds[..j] ==> d in ds;
  }

  lemma ResolventsNextPair(a: Model, cs: seq<seq<Lit>>, ds: seq<seq<Lit>>, v: Var, i: nat, j: nat)
    requires i < |cs| && j < |ds|
    ensures ResolventsHold(a, [cs[i]], ds[..j + 1], v) <==>
      ResolventsHold(a, [cs[i]], ds[..j], v) &&
      (Clash(cs[i], ds[j], v) || OthersHold(a, cs[i], v) || OthersHold(a, ds[j], v))
  {
    assert ds[..j + 1] == ds[..j] + [ds[j]];
    hide Clash, OthersHold;
    assert cs[i] in [cs[i]] && ds[j] in ds[..j + 1];
    assert forall d :: d in ds[..j] ==> d in ds[..j + 1];
  }

  lemma ResolventsNextRow(a: Model, cs: seq<seq<Lit>>, ds: seq<seq<Lit>>, v: Var, i: nat)
    requires i < |cs|
    ensures ResolventsHold(a, cs[..i + 1], ds, v) <==>
      ResolventsHold(a, cs[..i], ds, v) && ResolventsHold(a, [cs[i]], ds, v)
  {
    assert cs[..i + 1] == cs[..i] + [cs[i]];
    hide Clash, OthersHold;
    assert cs[i] in cs[..i + 1];
    assert forall c :: c in cs[..i] ==> c in cs[..i + 1];
  }

  lemma {:induction false} CountIsLarger(cs: seq<seq<Lit>>, ds: seq<seq<Lit>>, v: Var, i: nat)
    requires i < |cs|
    ensures CountPairs(cs, ds, v) >= CountPairs(cs[..i], ds, v) + CountRow(cs[i], ds, v)
  {
    if i == |cs| - 1 {
      assert cs[..|cs| - 1] == cs[..i];
    } else {
      CountIsLarger(cs[..|cs| - 1], ds, v, i);
      assert cs[..|cs| - 1][..i] == cs[..i];
    }
  }

  lemma {:induction false} RowIsLarger(c: seq<Lit>, ds: seq<seq<Lit>>, v: Var, j: nat)
    requires j <= |ds|
    ensures CountRow(c, ds, v) >= CountRow(c, ds[..j], v)
  {
    if j < |ds| {
      RowIsLarger(c, ds[..|ds| - 1], v, j);
      assert ds[..|ds| - 1][..j] == ds[..j];
    } else {
      assert ds[..j] == ds;
    }
  }

  ghost predicate ShortEnough(c: seq<Lit>, d: seq<Lit>, v: Var, lim: int) {
    Clash(c, d, v) || lim == -1 || |Resolvent(c, d, v)| <= lim
  }

  /** What bounded elimination allows: at most max resolvents, none too long. */
  ghost predicate WithinLimits(cs: seq<seq<Lit>>, ds: seq<seq<Lit>>, v: Var, max: int, lim: int) {
    && (CountPairs(cs, ds, v) == 0 || CountPairs(cs, ds, v) <= max)
    && forall i, j :: 0 <= i < |cs| && 0 <= j < |ds| ==> ShortEnough(cs[i], ds[j], v, lim)
  }

  /** The clauses of one side of v. */
  ghost predicate SideOk(cs: seq<seq<Lit>>, v: Var) {
    forall i :: 0 <= i < |cs| ==> DistinctVars(cs[i]) && Mentions(cs[i], v)
  }

  method CostlyRow(c: seq<Lit>, ds: seq<seq<Lit>>, v: Var, cnt0: nat, max: int, lim: int) returns (b: bool, cnt: nat)
    requires DistinctVars(c) && Mentions(c, v) && SideOk(ds, v) && (cnt0 == 0 || cnt0 <= max)
    ensures b ==>
      (cnt0 + CountRow(c, ds, v) > max && CountRow(c, ds, v) > 0) ||
      exists j :: 0 <= j < |ds| && !ShortEnough(c, ds[j], v, lim)
    ensures !b ==>
      cnt == cnt0 + CountRow(c, ds, v) && (cnt == 0 || cnt <= max) &&
      forall j :: 0 <= j < |ds| ==> ShortEnough(c, ds[j], v, lim)
  {
    hide Clash, Resolvent, Mentions, DistinctVars;
    cnt := cnt0;
    var j := 0;
    while j < |ds|
      invariant 0 <= j <= |ds| && cnt == cnt0 + CountRow(c, ds[..j], v) && (cnt == 0 || cnt <= max)
      invariant forall y :: 0 <= y < j ==> ShortEnough(c, ds[y], v, lim)
    {
      var merged, size := MergeSize(c, ds[j], v);
      CountNextPair(c, ds, v, j);
      if merged {
        cnt := cnt + 1;
        if cnt > max || (lim != -1 && size > lim) { return true, cnt; }
      }
      j := j + 1;
    }
    assert ds[..j] == ds;
    b := false;
  }

  /** Are the resolvents more than max, or one of them longer than lim? Stops at the first reason. */
  method TooCostly(cs: seq<seq<Lit>>, ds: seq<seq<Lit>>, v: Var, max: int, lim: int) returns (b: bool)
    requires SideOk(cs, v) && SideOk(ds, v)
    ensures b <==> !WithinLimits(cs, ds, v, max, lim)
  {
    hide Clash, Resolvent, ShortEnough, Mentions, DistinctVars;
    var cnt, i := 0, 0;
    while i < |cs|
      invariant 0 <= i <= |cs| && cnt == CountPairs(cs[..i], ds, v) && (cnt == 0 || cnt <= max)
      invariant forall x, y :: 0 <= x < i && 0 <= y < |ds| ==> ShortEnough(cs[x], ds[y], v, lim)
    {
      CountNextRow(cs, ds, v, i);
      b, cnt := CostlyRow(cs[i], ds, v, cnt, max, lim);
      if b { return true; }
      i := i + 1;
    }
    assert cs[..i] == cs;
    b := false;
  }

  // ---------- assembling one elimination step ----------

  ghost predicate Covers(cls: seq<CRef>, pos: seq<CRef>, neg: seq<CRef>) {
    forall r :: r in cls <==> r in pos || r in neg
  }

  lemma SplitHolds(a: Model, ca: seq<ClauseRec>, cls: seq<CRef>, pos: seq<CRef>, neg: seq<CRef>)
    requires RefsOk(ca, cls) && RefsOk(ca, pos) && RefsOk(ca, neg) && Covers(cls, pos, neg)
    ensures AllHold(a, Lits(ca, cls)) <==> AllHold(a, Lits(ca, pos)) && AllHold(a, Lits(ca, neg))
  {
    hide AllHold, Satisfies;
    AllHoldAt(a, ca, cls);
    AllHoldAt(a, ca, pos);
    AllHoldAt(a, ca, neg);
    assert forall i :: 0 <= i < |cls| ==> cls[i] in cls;
    assert forall i :: 0 <= i < |pos| ==> pos[i] in pos;
    assert forall i :: 0 <= i < |neg| ==> neg[i] in neg;
  }

  function Stored(ca: seq<ClauseRec>, pos: seq<CRef>, neg: seq<CRef>, p: Lit): seq<seq<Lit>>
    requires RefsOk(ca, pos) && RefsOk(ca, neg)
  {
    if p.sign then Lits(ca, neg) else Lits(ca, pos)
  }

  /** The clauses over the variable of p have been stored and deleted; mid is what is left of ca. */
  ghost predicate TakenOut(ca: seq<ClauseRec>, trail: seq<Lit>, mid: seq<ClauseRec>,
                           cls: seq<CRef>, pos: seq<CRef>, neg: seq<CRef>, p: Lit, block: seq<seq<Lit>>) {
    && RefsOk(ca, cls) && RefsOk(ca, pos) && RefsOk(ca, neg) && Covers(cls, pos, neg)
    && Occurrences(Lits(ca, pos), Lits(ca, neg), Lit(p.v, false)) && Free(mid, trail, {p.v})
    && (forall a :: DbSat(a, ca, trail) <==> DbSat(a, mid, trail) && AllHold(a, Lits(ca, cls)))
    && IsBlock(block, Stored(ca, pos, neg, p), p)
  }

  lemma MakeTakenOut(ca: seq<ClauseRec>, trail: seq<Lit>, mid: seq<ClauseRec>,
                     cls: seq<CRef>, pos: seq<CRef>, neg: seq<CRef>, p: Lit, block: seq<seq<Lit>>)
    requires RefsOk(ca, cls) && RefsOk(ca, pos) && RefsOk(ca, neg) && Covers(cls, pos, neg)
    requires Occurrences(Lits(ca, pos), Lits(ca, neg), Lit(p.v, false)) && Free(mid, trail, {p.v})
    requires forall a :: DbSat(a, ca, trail) <==> DbSat(a, mid, trail) && AllHold(a, Lits(ca, cls))
    requires IsBlock(block, Stored(ca, pos, neg, p), p)
    ensures TakenOut(ca, trail, mid, cls, pos, neg, p, block)
  {
    hide RefsOk, Covers, Occurrences, Lits, Free, DbSat, AllHold, IsBlock, Stored;
  }

  lemma ResolvedIsFaithful(formula: set<seq<Lit>>, recs: seq<seq<Lit>>, ca: seq<ClauseRec>, trail: seq<Lit>,
                           mid: seq<ClauseRec>, ca': seq<ClauseRec>, trail': seq<Lit>,
                           cls: seq<CRef>, pos: seq<CRef>, neg: seq<CRef>, p: Lit, block: seq<seq<Lit>>)
    requires EntriesOk(recs) && Faithful(formula, ca, trail, recs) && TakenOut(ca, trail, mid, cls, pos, neg, p, block)
    requires forall a :: DbSat(a, ca', trail') <==>
      DbSat(a, mid, trail) && ResolventsHold(a, Lits(ca, pos), Lits(ca, neg), p.v)
    ensures EntriesOk(recs + block) && Faithful(formula, ca', trail', recs + block)
  {
    var cs, ds := Lits(ca, pos), Lits(ca, neg);
    var others := if p.sign then cs else ds;
    assert Occurrences(Stored(ca, pos, neg, p), others, p);
    hide DbSat, AllHold, ResolventsHold, Free, Occurrences, Faithful, IsBlock;
    forall a { SplitHolds(a, ca, cls, pos, neg); }
    forall a { ResolventsAreSymmetric(a, cs, ds, p.v); }
    EliminationKeepsFaithful(formula, ca, trail, recs, mid, ca', trail', Stored(ca, pos, neg, p), others, p, block);
  }

  lemma ResolvedKeepsElim(formula: set<seq<Lit>>, n: nat, gone: set<Var>, recs: seq<seq<Lit>>, flat: seq<nat>,
                          flat': seq<nat>, ca: seq<ClauseRec>, trail: seq<Lit>, mid: seq<ClauseRec>,
                          ca': seq<ClauseRec>, trail': seq<Lit>,
                          cls: seq<CRef>, pos: seq<CRef>, neg: seq<CRef>, p: Lit, block: seq<seq<Lit>>)
    requires ElimOk(formula, ca, trail, n, gone, recs, flat) && TakenOut(ca, trail, mid, cls, pos, neg, p, block)
    requires RefsOk(ca, pos) && RefsOk(ca, neg) && p.v < n && p.v !in gone && flat' == Flat(recs + block)
    requires StandIn(Lits(ca, pos), n, gone) && StandIn(Lits(ca, neg), n, gone)
    requires forall a :: DbSat(a, ca', trail') <==>
      DbSat(a, mid, trail) && ResolventsHold(a, Lits(ca, pos), Lits(ca, neg), p.v)
    ensures ElimOk(formula, ca', trail', n, gone + {p.v}, recs + block, flat')
  {
    hide Faithful, DbSat, ResolventsHold, Flat, InRange, StandIn, IsBlock, Occurrences;
    assert EntriesOk(recs);
    ResolvedIsFaithful(formula, recs, ca, trail, mid, ca', trail', cls, pos, neg, p, block);
    EliminationKeepsRecs(recs, n, gone, Stored(ca, pos, neg, p), p, block);
  }

  lemma ResolvedIsRefuted(formula: set<seq<Lit>>, n: nat, gone: set<Var>, recs: seq<seq<Lit>>, flat: seq<nat>,
                          ca: seq<ClauseRec>, trail: seq<Lit>, mid: seq<ClauseRec>,
                          cls: seq<CRef>, pos: seq<CRef>, neg: seq<CRef>, p: Lit, block: seq<seq<Lit>>)
    requires ElimOk(formula, ca, trail, n, gone, recs, flat) && TakenOut(ca, trail, mid, cls, pos, neg, p, block)
    requires RefsOk(ca, pos) && RefsOk(ca, neg)
    requires forall a :: !(DbSat(a, mid, trail) && ResolventsHold(a, Lits(ca, pos), Lits(ca, neg), p.v))
    ensures !Satisfiable(formula)
  {
    hide DbSat, AllHold, ResolventsHold, Occurrences, ElimOk, IsBlock;
    forall a ensures !DbSat(a, ca, trail) {
      SplitHolds(a, ca, cls, pos, neg);
      if DbSat(a, ca, trail) {
        ResolventsFollow(a, Lits(ca, pos), Lits(ca, neg), Lit(p.v, false));
      }
    }
    NoModelMeansUnsat(formula, ca, trail, n, gone, recs, flat);
  }

  /** The clauses name existing variables that are not gone. */
  ghost predicate StandIn(cs: seq<seq<Lit>>, n: nat, gone: set<Var>) {
    forall i :: 0 <= i < |cs| ==> DistinctVars(cs[i]) && InRange(cs[i], n) && VarSet(cs[i]) !! gone
  }

  /** Every clause has p, and no variable twice. */
  ghost predicate AllHave(cs: seq<seq<Lit>>, p: Lit) { forall i :: 0 <= i < |cs| ==> p in cs[i] && DistinctVars(cs[i]) }

  lemma SidesHave(cs: seq<seq<Lit>>, ds: seq<seq<Lit>>, p: Lit)
    requires Occurrences(cs, ds, p)
    ensures AllHave(cs, p) && AllHave(ds, Neg(p))
  {
    assert forall i :: 0 <= i < |cs| ==> cs[i] in cs;
    assert forall i :: 0 <= i < |ds| ==> ds[i] in ds;
  }

  /** mid is ca without the clauses cls. */
  ghost predicate WithoutClauses(ca: seq<ClauseRec>, mid: seq<ClauseRec>, cls: seq<CRef>) {
    && |mid| == |ca|
    && forall r :: 0 <= r < |ca| ==> mid[r].lits == ca[r].lits && (mid[r].deleted <==> ca[r].deleted || r in cls)
  }

  lemma NoneLeft(ca: seq<ClauseRec>, mid: seq<ClauseRec>, cls: seq<CRef>, v: Var)
    requires WithoutClauses(ca, mid, cls) && forall r :: r in cls <==> Live(ca, r) && Mentions(ca[r].lits, v)
    ensures forall r :: Live(mid, r) ==> !Mentions(mid[r].lits, v)
  {
  }

  /** cls are the occurrences of v, pos those with the positive and neg those with the negative literal. */
  ghost predicate Split(ca: seq<ClauseRec>, v: Var, cls: seq<CRef>, pos: seq<CRef>, neg: seq<CRef>) {
    && NoRepeats(cls) && (forall r :: r in cls <==> Live(ca, r) && Mentions(ca[r].lits, v))
    && RefsOk(ca, cls) && RefsOk(ca, pos) && RefsOk(ca, neg) && Covers(cls, pos, neg)
    && Occurrences(Lits(ca, pos), Lits(ca, neg), Lit(v, false)) && NoRepeats(pos) && NoRepeats(neg)
  }

  /** The first j clauses of cls are split. */
  ghost predicate SplitSoFar(ca: seq<ClauseRec>, v: Var, cls: seq<CRef>, j: nat, pos: seq<CRef>, neg: seq<CRef>) {
    && j <= |cls|
    && (forall i :: 0 <= i < j ==> cls[i] in pos || cls[i] in neg)
    && (forall i :: 0 <= i < |pos| ==> pos[i] in cls[..j] && Live(ca, pos[i]) && Lit(v, false) in ca[pos[i]].lits)
    && (forall i :: 0 <= i < |neg| ==> neg[i] in cls[..j] && Live(ca, neg[i]) && Lit(v, true) in ca[neg[i]].lits)
    && NoRepeats(pos) && NoRepeats(neg)
  }

  lemma SplitNothing(ca: seq<ClauseRec>, v: Var, cls: seq<CRef>)
    ensures SplitSoFar(ca, v, cls, 0, [], [])
  {
  }

  lemma SplitOne(ca: seq<ClauseRec>, v: Var, cls: seq<CRef>, j: nat, pos: seq<CRef>, neg: seq<CRef>)
    requires SplitSoFar(ca, v, cls, j, pos, neg) && j < |cls| && Live(ca, cls[j]) && Mentions(ca[cls[j]].lits, v)
    requires NoRepeats(cls)
    ensures if Lit(v, false) in ca[cls[j]].lits then SplitSoFar(ca, v, cls, j + 1, pos + [cls[j]], neg)
            else SplitSoFar(ca, v, cls, j + 1, pos, neg + [cls[j]])
  {
    var r := cls[j];
    assert cls[..j + 1] == cls[..j] + [r] && r !in cls[..j];
    if Lit(v, false) in ca[r].lits {
      assert (pos + [r])[|pos|] == r;
    } else {
      var k :| 0 <= k < |ca[r].lits| && ca[r].lits[k].v == v;
      assert ca[r].lits[k] == Lit(v, true) && (neg + [r])[|neg|] == r;
    }
  }

  lemma MakeSplit(ca: seq<ClauseRec>, v: Var, cls: seq<CRef>, pos: seq<CRef>, neg: seq<CRef>)
    requires NoRepeats(cls) && forall r :: r in cls <==> Live(ca, r) && Mentions(ca[r].lits, v)
    requires SplitSoFar(ca, v, cls, |cls|, pos, neg)
    requires forall r :: 0 <= r < |ca| ==> DistinctVars(ca[r].lits)
    ensures Split(ca, v, cls, pos, neg)
  {
    hide NoRepeats, DistinctVars, Mentions;
    forall i | 0 <= i < |cls| ensures 0 <= cls[i] < |ca| {
      assert cls[i] in cls;
    }
    assert RefsOk(ca, pos) && RefsOk(ca, neg);
    forall c | c in Lits(ca, pos) ensures Lit(v, false) in c && DistinctVars(c) {
      var i :| 0 <= i < |pos| && Lits(ca, pos)[i] == c;
    }
    forall d | d in Lits(ca, neg) ensures Lit(v, true) in d && DistinctVars(d) {
      var i :| 0 <= i < |neg| && Lits(ca, neg)[i] == d;
    }
  }

  lemma SplitLive(ca: seq<ClauseRec>, v: Var, cls: seq<CRef>, pos: seq<CRef>, neg: seq<CRef>)
    requires Split(ca, v, cls, pos, neg)
    ensures NoRepeats(cls) && forall i :: 0 <= i < |cls| ==> Live(ca, cls[i])
    ensures forall r :: r in cls <==> Live(ca, r) && Mentions(ca[r].lits, v)
    ensures RefsOk(ca, cls) && RefsOk(ca, pos) && RefsOk(ca, neg) && Covers(cls, pos, neg)
    ensures Occurrences(Lits(ca, pos), Lits(ca, neg), Lit(v, false))
    ensures AllHave(Lits(ca, pos), Lit(v, false)) && AllHave(Lits(ca, neg), Lit(v, true))
    ensures SideOk(Lits(ca, pos), v) && SideOk(Lits(ca, neg), v)
  {
    forall i | 0 <= i < |cls| ensures Live(ca, cls[i]) { assert cls[i] in cls; }
    SidesHave(Lits(ca, pos), Lits(ca, neg), Lit(v, false));
    SideMentions(Lits(ca, pos), Lit(v, false));
    SideMentions(Lits(ca, neg), Lit(v, true));
  }

  lemma StoredHave(ca: seq<ClauseRec>, v: Var, cls: seq<CRef>, pos: seq<CRef>, neg: seq<CRef>, p: Lit)
    requires Split(ca, v, cls, pos, neg) && p.v == v
    ensures RefsOk(ca, pos) && RefsOk(ca, neg) && AllHave(Stored(ca, pos, neg, p), p)
  {
    SidesHave(Lits(ca, pos), Lits(ca, neg), Lit(v, false));
  }

  lemma SideMentions(cs: seq<seq<Lit>>, p: Lit)
    requires AllHave(cs, p)
    ensures SideOk(cs, p.v)
  {
    forall i | 0 <= i < |cs| ensures Mentions(cs[i], p.v) {
      var k :| 0 <= k < |cs[i]| && cs[i][k] == p;
    }
  }

  /** Live clauses name existing variables that are not gone. */
  lemma SplitStands(ca: seq<ClauseRec>, occurs: Occs, dirty: set<Var>, nOcc: map<Lit, int>, n: nat, trail: seq<Lit>,
                    gone: set<Var>, v: Var, cls: seq<CRef>, pos: seq<CRef>, neg: seq<CRef>)
    requires IndexOk(ca, occurs, dirty, nOcc, n) && Free(ca, trail, gone) && Split(ca, v, cls, pos, neg)
    ensures StandIn(Lits(ca, pos), n, gone) && StandIn(Lits(ca, neg), n, gone)
  {
    IndexShape(ca, occurs, dirty, nOcc, n);
    hide IndexOk, DistinctVars, InRange;
    forall r, u | Live(ca, r) && u in VarSet(ca[r].lits) ensures u !in gone {
      assert Mentions(ca[r].lits, u);
    }
    forall i | 0 <= i < |pos| ensures Live(ca, pos[i]) { assert pos[i] in pos; }
    forall i | 0 <= i < |neg| ensures Live(ca, neg[i]) { assert neg[i] in neg; }
  }

  /** Clauses over v, which is gone; all their other variables are still there. */
  ghost predicate Parents(cs: seq<seq<Lit>>, v: Var, n: nat, gone: set<Var>) {
    forall i :: 0 <= i < |cs| ==>
      DistinctVars(cs[i]) && InRange(cs[i], n) && forall u :: u in VarSet(cs[i]) && u in gone ==> u == v
  }

  lemma StandParents(cs: seq<seq<Lit>>, v: Var, n: nat, gone: set<Var>)
    requires StandIn(cs, n, gone)
    ensures Parents(cs, v, n, gone + {v})
  {
  }

  lemma ResolventIsThere(cs: seq<seq<Lit>>, ds: seq<seq<Lit>>, v: Var, n: nat, gone: set<Var>, i: nat, j: nat,
                         out: seq<Lit>)
    requires Parents(cs, v, n, gone) && Parents(ds, v, n, gone)
    requires i < |cs| && j < |ds| && IsResolvent(cs[i], ds[j], v, out)
    ensures InRange(out, n) && VarSet(out) !! gone
  {
    forall k | 0 <= k < |out| ensures out[k].v < n && out[k].v !in gone {
      var p := out[k];
      assert p in out;
      var c := if p in cs[i] then cs[i] else ds[j];
      assert p in c && p.v != v;
      var x :| 0 <= x < |c| && c[x] == p;
      assert c[x].v in VarSet(c);
    }
  }

  // ---------- a further variable, and the final model ----------

  lemma NewVarKeepsElim(formula: set<seq<Lit>>, ca: seq<ClauseRec>, trail: seq<Lit>, n: nat, gone: set<Var>,
                        recs: seq<seq<Lit>>, flat: seq<nat>)
    requires ElimOk(formula, ca, trail, n, gone, recs, flat)
    ensures ElimOk(formula, ca, trail, n + 1, gone, recs, flat)
  {
    hide Flat, Faithful;
    GroundedGrows(recs, Range(n) - gone, Range(n + 1) - gone);
  }

  /** Some literal of c is true in the solver model. */
  predicate SatisfiedBy(m: seq<LBool>, c: seq<Lit>) { exists k :: 0 <= k < |c| && ModelValue(m, c[k]) == LTrue }

  /** The total assignment that reads undefined as false. */
  ghost function Completed(m: seq<LBool>): Model { iset v: Var | v < |m| && m[v] == LTrue }

  lemma CompletedHolds(m: seq<LBool>, p: Lit)
    requires p.v < |m| && m[p.v] != LUndef
    ensures Holds(Completed(m), p) <==> ModelValue(m, p) == LTrue
  {
  }

  /** The solver model satisfies the assumptions and what is left of the problem, over the variables that are left. */
  ghost predicate ModelOfRest(m: seq<LBool>, ca: seq<ClauseRec>, trail: seq<Lit>, n: nat, gone: set<Var>) {
    && |m| == n && (forall v :: 0 <= v < n && v !in gone ==> m[v] != LUndef)
    && forall a :: Verdicts.Agrees(a, m) ==> DbSat(a, ca, trail)
  }

  /** extendModel turns it into a model of the whole formula that keeps the values of the variables that were left. */
  lemma ExtendedModelIsAModel(formula: set<seq<Lit>>, ca: seq<ClauseRec>, trail: seq<Lit>, n: nat, gone: set<Var>,
                              recs: seq<seq<Lit>>, flat: seq<nat>, m: seq<LBool>)
    requires ElimOk(formula, ca, trail, n, gone, recs, flat) && ModelOfRest(m, ca, trail, n, gone)
    ensures EntriesOk(recs)
    ensures var m' := ExtendedL(m, recs);
      && |m'| == n && (forall v :: 0 <= v < n ==> m'[v] != LUndef)
      && (forall v :: 0 <= v < n && v !in gone ==> m'[v] == m[v])
      && (forall c :: c in formula ==> SatisfiedBy(m', c))
  {
    hide Flat, DbSat, Grounded;
    var a, known, m' := Completed(m), Range(n) - gone, ExtendedL(m, recs);
    assert Verdicts.Agrees(a, m);
    var b := Extended(a, recs);
    ExtensionsAgree(a, m, recs, known);
    assert forall v :: 0 <= v < n ==> v in known + UnitVars(recs);
    forall v | 0 <= v < n && v !in gone ensures m'[v] == m[v] {
      ExtendedKeepsOthers(a, recs, Lit(v, false));
      assert v in known;
    }
    forall c | c in formula ensures SatisfiedBy(m', c) {
      assert Satisfies(b, c);
      var p :| p in c && Holds(b, p);
      var k :| 0 <= k < |c| && c[k] == p;
      assert p.v in known + UnitVars(recs);
    }
  }

  /**
   * Variables that were never eliminated mean the same before and after: assumptions on them refute both or
   * neither.
   */
  lemma AssumptionsSurvive(formula: set<seq<Lit>>, ca: seq<ClauseRec>, trail: seq<Lit>, n: nat, gone: set<Var>,
                           recs: seq<seq<Lit>>, flat: seq<nat>, assumps: seq<Lit>)
    requires ElimOk(formula, ca, trail, n, gone, recs, flat) && forall p :: p in assumps ==> p.v !in gone
    ensures (exists a :: Models(a, formula) && TrailHolds(a, assumps)) <==>
      (exists a :: DbSat(a, ca, trail) && TrailHolds(a, assumps))
  {
    hide Flat, DbSat, Models, Grounded;
    if exists a :: DbSat(a, ca, trail) && TrailHolds(a, assumps) {
      var a :| DbSat(a, ca, trail) && TrailHolds(a, assumps);
      forall p | p in assumps ensures Holds(Extended(a, recs), p) {
        ExtendedKeepsOthers(a, recs, p);
      }
      assert Models(Extended(a, recs), formula);
    }
  }

  /** The number of variables that are not eliminated. */
  ghost function StillThere(eliminated: seq<bool>): nat {
    if eliminated == [] then 0
    else StillThere(eliminated[..|eliminated| - 1]) + if eliminated[|eliminated| - 1] then 0 else 1
  }

  lemma {:induction false} FewerAreThere(eliminated: seq<bool>, v: Var)
    requires v < |eliminated| && !eliminated[v]
    ensures StillThere(eliminated[v := true]) < StillThere(eliminated)
  {
    var k := |eliminated| - 1;
    if v == k {
      assert eliminated[v := true][..k] == eliminated[..k];
    } else {
      assert eliminated[v := true][..k] == eliminated[..k][v := true];
      FewerAreThere(eliminated[..k], v);
    }
  }

  /** No frozen variable was eliminated, none came back, and the frozen ones stay frozen. */
  ghost predicate Spared(eliminated: seq<bool>, frozen: seq<bool>, eliminated': seq<bool>, frozen': seq<bool>) {
    && frozen' == frozen && |eliminated'| == |eliminated|
    && forall v :: 0 <= v < |eliminated| && v < |frozen| ==>
         (eliminated[v] ==> eliminated'[v]) && (frozen[v] && eliminated'[v] ==> eliminated[v])
  }

  /** The marks cover n variables, and queue and candidates stay in range. */
  ghost predicate RangesOk(n: nat, marks: nat, frozen: nat, done: nat, size: nat, queue: seq<CRef>, refs: nat,
                           touched: set<Var>, heap: set<Var>)
  {
    && marks == frozen == n && done <= size && (forall r :: r in queue ==> 0 <= r < refs)
    && (forall v :: v in touched ==> v < n) && (forall v :: v in heap ==> v < n)
  }

  lemma RangesGrow(n: nat, marks: nat, frozen: nat, done: nat, size: nat, queue: seq<CRef>, refs: nat,
                   touched: set<Var>, heap: set<Var>)
    requires RangesOk(n, marks, frozen, done, size, queue, refs, touched, heap)
    ensures RangesOk(n + 1, marks + 1, frozen + 1, done, size, queue, refs, touched, heap + {n})
  {
  }

  lemma SparedSoFar(eliminated: seq<bool>, frozen: seq<bool>)
    ensures Spared(eliminated, frozen, eliminated, frozen)
  {
  }

  lemma SparedTwice(eliminated: seq<bool>, frozen: seq<bool>, eliminated': seq<bool>, frozen': seq<bool>,
                    eliminated'': seq<bool>, frozen'': seq<bool>)
    requires Spared(eliminated, frozen, eliminated', frozen') && Spared(eliminated', frozen', eliminated'', frozen'')
    ensures Spared(eliminated, frozen, eliminated'', frozen'')
  {
  }

  lemma OneMoreSpared(eliminated: seq<bool>, frozen: seq<bool>, v: Var)
    requires v < |eliminated| && v < |frozen| && !frozen[v]
    ensures Spared(eliminated, frozen, eliminated, frozen) && Spared(eliminated, frozen, eliminated[v := true], frozen)
  {
  }
}
