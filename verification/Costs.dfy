/** When a variable is too costly to eliminate, in terms of the clauses it occurs in, and when it stays so. */
module Costs {
  import opened SolverTypes
  import opened Trails
  import opened Elimination
  import opened SimpDatabase
  import opened Merging
  import opened Eliminating

  /** The live clauses over v. */
  ghost function Occurring(ca: seq<ClauseRec>, v: Var): set<CRef> {
    set r | 0 <= r < |ca| && Over(ca, v, r)
  }

  ghost predicate Over(ca: seq<ClauseRec>, v: Var, r: CRef) { Live(ca, r) && Mentions(ca[r].lits, v) }

  /** Clauses r and s have a resolvent on v that is no tautology. */
  ghost predicate Resolve(ca: seq<ClauseRec>, v: Var, r: CRef, s: CRef) {
    && Live(ca, r) && Live(ca, s) && Lit(v, false) in ca[r].lits && Lit(v, true) in ca[s].lits
    && !Clash(ca[r].lits, ca[s].lits, v)
  }

  ghost function Pairs(ca: seq<ClauseRec>, v: Var): set<(CRef, CRef)> {
    set r, s | 0 <= r < |ca| && 0 <= s < |ca| && Resolve(ca, v, r, s) :: (r, s)
  }

  /** Eliminating v would put more than grow clauses more than it takes away. */
  ghost predicate TooMany(ca: seq<ClauseRec>, v: Var, grow: int) {
    |Pairs(ca, v)| > 0 && |Pairs(ca, v)| > |Occurring(ca, v)| + grow
  }

  /** Eliminating v would make a clause of more than lim literals; lim is -1 for no limit. */
  ghost predicate TooLong(ca: seq<ClauseRec>, v: Var, lim: int) {
    lim != -1 && exists r, s :: Resolve(ca, v, r, s) && |Resolvent(ca[r].lits, ca[s].lits, v)| > lim
  }

  ghost predicate OverLimits(ca: seq<ClauseRec>, v: Var, grow: int, lim: int) {
    TooMany(ca, v, grow) || TooLong(ca, v, lim)
  }

  // ---------- the count of eliminateVar ----------

  lemma {:induction false} RefSetSize(rs: seq<CRef>, s: set<CRef>)
    requires NoRepeats(rs) && forall r :: r in rs <==> r in s
    ensures |rs| == |s|
  {
    if rs == [] {
      assert forall r :: r in s ==> r in rs;
    } else {
      var last, front := rs[|rs| - 1], rs[..|rs| - 1];
      assert rs == front + [last] && last !in front;
      RefSetSize(front, s - {last});
    }
  }

  /** The pairs of r with the clauses of neg. */
  ghost function Row(ca: seq<ClauseRec>, v: Var, r: CRef, neg: seq<CRef>): set<(CRef, CRef)>
    requires 0 <= r < |ca| && RefsOk(ca, neg)
  {
    set s | s in neg && !Clash(ca[r].lits, ca[s].lits, v) :: (r, s)
  }

  lemma {:induction false} RowSize(ca: seq<ClauseRec>, v: Var, r: CRef, neg: seq<CRef>)
    requires 0 <= r < |ca| && RefsOk(ca, neg) && NoRepeats(neg)
    ensures |Row(ca, v, r, neg)| == CountRow(ca[r].lits, Lits(ca, neg), v)
  {
    hide *;
    if neg == [] {
      NoRow(ca, v, r);
    } else {
      var last, front := neg[|neg| - 1], neg[..|neg| - 1];
      FrontOfRefs(ca, neg);
      RowSize(ca, v, r, front);
      RowNext(ca, v, r, front, last);
      CountLast(ca, v, r, front, last);
    }
  }

  lemma FrontOfRefs(ca: seq<ClauseRec>, rs: seq<CRef>)
    requires RefsOk(ca, rs) && NoRepeats(rs) && rs != []
    ensures var last, front := rs[|rs| - 1], rs[..|rs| - 1];
      rs == front + [last] && last !in front && 0 <= last < |ca| && RefsOk(ca, front) && NoRepeats(front)
  {
  }

  lemma NoRow(ca: seq<ClauseRec>, v: Var, r: CRef)
    requires 0 <= r < |ca|
    ensures Row(ca, v, r, []) == {} && CountRow(ca[r].lits, Lits(ca, []), v) == 0
  {
  }

  lemma CountLast(ca: seq<ClauseRec>, v: Var, r: CRef, front: seq<CRef>, last: CRef)
    requires 0 <= r < |ca| && RefsOk(ca, front + [last]) && RefsOk(ca, front) && 0 <= last < |ca|
    ensures CountRow(ca[r].lits, Lits(ca, front + [last]), v) ==
            CountRow(ca[r].lits, Lits(ca, front), v) + if Clash(ca[r].lits, ca[last].lits, v) then 0 else 1
  {
    hide Clash;
    var ds := Lits(ca, front + [last]);
    assert ds[..|ds| - 1] == Lits(ca, front) && ds[|ds| - 1] == ca[last].lits;
  }

  lemma RowNext(ca: seq<ClauseRec>, v: Var, r: CRef, front: seq<CRef>, last: CRef)
    requires 0 <= r < |ca| && RefsOk(ca, front + [last]) && last !in front
    ensures RefsOk(ca, front) && 0 <= last < |ca|
    ensures Row(ca, v, r, front + [last]) ==
            Row(ca, v, r, front) + if Clash(ca[r].lits, ca[last].lits, v) then {} else {(r, last)}
    ensures (r, last) !in Row(ca, v, r, front)
  {
    hide Clash;
    assert (front + [last])[|front|] == last;
    assert forall i :: 0 <= i < |front| ==> (front + [last])[i] == front[i];
  }

  ghost function Product(ca: seq<ClauseRec>, v: Var, pos: seq<CRef>, neg: seq<CRef>): set<(CRef, CRef)>
    requires RefsOk(ca, pos) && RefsOk(ca, neg)
  {
    set i, s | 0 <= i < |pos| && s in neg && !Clash(ca[pos[i]].lits, ca[s].lits, v) :: (pos[i], s)
  }

  lemma {:induction false} ProductSize(ca: seq<ClauseRec>, v: Var, pos: seq<CRef>, neg: seq<CRef>)
    requires RefsOk(ca, pos) && RefsOk(ca, neg) && NoRepeats(pos) && NoRepeats(neg)
    ensures |Product(ca, v, pos, neg)| == CountPairs(Lits(ca, pos), Lits(ca, neg), v)
  {
    hide Clash, Product, Row, CountRow;
    if pos == [] {
      NoProduct(ca, v, neg);
    } else {
      var last, front := pos[|pos| - 1], pos[..|pos| - 1];
      ProductSize(ca, v, front, neg);
      RowSize(ca, v, last, neg);
      assert Lits(ca, pos)[..|pos| - 1] == Lits(ca, front);
      ProductNext(ca, v, pos, neg);
    }
  }

  lemma NoProduct(ca: seq<ClauseRec>, v: Var, neg: seq<CRef>)
    requires RefsOk(ca, neg)
    ensures Product(ca, v, [], neg) == {}
  {
  }

  lemma ProductNext(ca: seq<ClauseRec>, v: Var, pos: seq<CRef>, neg: seq<CRef>)
    requires RefsOk(ca, pos) && RefsOk(ca, neg) && NoRepeats(pos) && pos != []
    ensures var last, front := pos[|pos| - 1], pos[..|pos| - 1];
      && Product(ca, v, pos, neg) == Product(ca, v, front, neg) + Row(ca, v, last, neg)
      && Product(ca, v, front, neg) !! Row(ca, v, last, neg)
  {
    hide Clash;
    var last, front := pos[|pos| - 1], pos[..|pos| - 1];
    var all, some, row := Product(ca, v, pos, neg), Product(ca, v, front, neg), Row(ca, v, last, neg);
    forall x ensures x in all <==> x in some || x in row {
      if x in some {
        var i, s :| 0 <= i < |front| && s in neg && !Clash(ca[front[i]].lits, ca[s].lits, v) && x == (front[i], s);
        assert pos[i] == front[i];
      }
      if x in all {
        var i, s :| 0 <= i < |pos| && s in neg && !Clash(ca[pos[i]].lits, ca[s].lits, v) && x == (pos[i], s);
        if i < |front| { assert front[i] == pos[i]; }
      }
    }
  }

  /** The double loop of eliminateVar decides exactly whether v is over the limits. */
  lemma LimitsAreExact(ca: seq<ClauseRec>, v: Var, cls: seq<CRef>, pos: seq<CRef>, neg: seq<CRef>, grow: int, lim: int)
    requires Split(ca, v, cls, pos, neg)
    ensures WithinLimits(Lits(ca, pos), Lits(ca, neg), v, |cls| + grow, lim) <==> !OverLimits(ca, v, grow, lim)
  {
    hide Clash, Mentions, NoRepeats;
    SidesAre(ca, v, cls, pos, neg);
    RefSetSize(cls, Occurring(ca, v));
    ProductSize(ca, v, pos, neg);
    ProductIsPairs(ca, v, pos, neg);
    assert TooLong(ca, v, lim) <==>
           exists i, j :: 0 <= i < |pos| && 0 <= j < |neg| &&
             !ShortEnough(ca[pos[i]].lits, ca[neg[j]].lits, v, lim) by {
      hide Split;
      LongPair(ca, v, pos, neg, lim);
    }
  }

  ghost predicate Side(ca: seq<ClauseRec>, p: Lit, rs: seq<CRef>) {
    RefsOk(ca, rs) && forall r :: r in rs <==> Live(ca, r) && p in ca[r].lits
  }

  /** The live clauses with the literal p. */
  ghost function Having(ca: seq<ClauseRec>, p: Lit): set<CRef> {
    set r | 0 <= r < |ca| && Live(ca, r) && p in ca[r].lits
  }

  function Smaller(a: int, b: int): int { if a > b then b else a }

  /** The stack takes the clauses of the rarer literal of v, and one unit. */
  ghost function Stacked(ca: seq<ClauseRec>, v: Var): int {
    1 + Smaller(|Having(ca, Lit(v, false))|, |Having(ca, Lit(v, true))|)
  }

  lemma SidesSize(ca: seq<ClauseRec>, v: Var, cls: seq<CRef>, pos: seq<CRef>, neg: seq<CRef>)
    requires Split(ca, v, cls, pos, neg)
    ensures |pos| == |Having(ca, Lit(v, false))| && |neg| == |Having(ca, Lit(v, true))|
  {
    SidesAre(ca, v, cls, pos, neg);
    hide Mentions;
    RefSetSize(pos, Having(ca, Lit(v, false)));
    RefSetSize(neg, Having(ca, Lit(v, true)));
  }

  lemma StoredSize(ca: seq<ClauseRec>, pos: seq<CRef>, neg: seq<CRef>, p: Lit)
    requires RefsOk(ca, pos) && RefsOk(ca, neg) && p.sign == (|pos| > |neg|)
    ensures |Stored(ca, pos, neg, p)| == Smaller(|pos|, |neg|)
  {
  }

  lemma SidesAre(ca: seq<ClauseRec>, v: Var, cls: seq<CRef>, pos: seq<CRef>, neg: seq<CRef>)
    requires Split(ca, v, cls, pos, neg)
    ensures Side(ca, Lit(v, false), pos) && Side(ca, Lit(v, true), neg)
  {
    SideIs(ca, Lit(v, false), cls, pos, neg);
    SideIs(ca, Lit(v, true), cls, neg, pos);
  }

  lemma SideIs(ca: seq<ClauseRec>, p: Lit, cls: seq<CRef>, rs: seq<CRef>, others: seq<CRef>)
    requires (forall r :: r in cls <==> Live(ca, r) && Mentions(ca[r].lits, p.v)) && Covers(cls, rs, others)
    requires RefsOk(ca, rs) && RefsOk(ca, others)
    requires forall c :: c in Lits(ca, rs) ==> p in c && DistinctVars(c)
    requires forall d :: d in Lits(ca, others) ==> Neg(p) in d && DistinctVars(d)
    ensures Side(ca, p, rs)
  {
    hide Mentions, DistinctVars;
    forall r ensures r in rs <==> Live(ca, r) && p in ca[r].lits {
      OverIfHas(ca, r, p);
      if r in rs {
        var i :| 0 <= i < |rs| && rs[i] == r;
        assert Lits(ca, rs)[i] in Lits(ca, rs);
      }
      if Live(ca, r) && p in ca[r].lits && r in others {
        var i :| 0 <= i < |others| && others[i] == r;
        assert Lits(ca, others)[i] in Lits(ca, others);
        OneLiteralOfAVariable(ca[r].lits, p, Neg(p));
      }
    }
  }

  lemma ProductIsPairs(ca: seq<ClauseRec>, v: Var, pos: seq<CRef>, neg: seq<CRef>)
    requires Side(ca, Lit(v, false), pos) && Side(ca, Lit(v, true), neg)
    ensures Product(ca, v, pos, neg) == Pairs(ca, v)
  {
    hide Clash;
    forall x | x in Pairs(ca, v) ensures x in Product(ca, v, pos, neg) {
      assert x.0 in pos;
      var i :| 0 <= i < |pos| && pos[i] == x.0;
    }
    forall x | x in Product(ca, v, pos, neg) ensures x in Pairs(ca, v) {
      assert x.0 in pos && x.1 in neg;
      assert Resolve(ca, v, x.0, x.1);
    }
  }

  lemma LongPair(ca: seq<ClauseRec>, v: Var, pos: seq<CRef>, neg: seq<CRef>, lim: int)
    requires Side(ca, Lit(v, false), pos) && Side(ca, Lit(v, true), neg)
    ensures TooLong(ca, v, lim) <==>
      exists i, j :: 0 <= i < |pos| && 0 <= j < |neg| && !ShortEnough(ca[pos[i]].lits, ca[neg[j]].lits, v, lim)
  {
    hide Clash, Resolvent;
    if TooLong(ca, v, lim) {
      var r, s :| Resolve(ca, v, r, s) && |Resolvent(ca[r].lits, ca[s].lits, v)| > lim;
      assert r in pos && s in neg;
      var i :| 0 <= i < |pos| && pos[i] == r;
      var j :| 0 <= j < |neg| && neg[j] == s;
      assert !ShortEnough(ca[pos[i]].lits, ca[neg[j]].lits, v, lim);
    }
    forall i, j | 0 <= i < |pos| && 0 <= j < |neg| && !ShortEnough(ca[pos[i]].lits, ca[neg[j]].lits, v, lim)
      ensures TooLong(ca, v, lim)
    {
      assert pos[i] in pos && neg[j] in neg;
      assert Resolve(ca, v, pos[i], neg[j]);
    }
  }

  // ---------- what changes the cost of a variable ----------

  /** The clauses over v are the same. */
  ghost predicate SameClauses(ca: seq<ClauseRec>, ca': seq<ClauseRec>, v: Var) {
    forall r :: (Over(ca, v, r) <==> Over(ca', v, r)) && (Over(ca, v, r) ==> ca'[r].lits == ca[r].lits)
  }

  lemma SameClausesSameCost(ca: seq<ClauseRec>, ca': seq<ClauseRec>, v: Var, grow: int, lim: int)
    requires SameClauses(ca, ca', v)
    ensures OverLimits(ca, v, grow, lim) <==> OverLimits(ca', v, grow, lim)
  {
    hide Clash, Resolvent;
    assert Occurring(ca, v) == Occurring(ca', v) by {
      forall r ensures r in Occurring(ca, v) <==> r in Occurring(ca', v) {
      }
    }
    hide SameClauses;
    forall r, s ensures Resolve(ca, v, r, s) <==> Resolve(ca', v, r, s) {
      SamePair(ca, ca', v, r, s);
    }
    assert Pairs(ca, v) == Pairs(ca', v);
    forall r, s | Resolve(ca, v, r, s) ensures ca'[r].lits == ca[r].lits && ca'[s].lits == ca[s].lits {
      SamePair(ca, ca', v, r, s);
    }
  }

  lemma SamePair(ca: seq<ClauseRec>, ca': seq<ClauseRec>, v: Var, r: CRef, s: CRef)
    requires SameClauses(ca, ca', v)
    ensures Resolve(ca, v, r, s) <==> Resolve(ca', v, r, s)
    ensures Resolve(ca, v, r, s) ==> ca'[r].lits == ca[r].lits && ca'[s].lits == ca[s].lits
  {
    hide Clash;
    OverIfHas(ca, r, Lit(v, false));
    OverIfHas(ca, s, Lit(v, true));
    OverIfHas(ca', r, Lit(v, false));
    OverIfHas(ca', s, Lit(v, true));
  }

  lemma OverIfHas(ca: seq<ClauseRec>, r: CRef, p: Lit)
    ensures Live(ca, r) && p in ca[r].lits ==> Over(ca, p.v, r)
  {
    if Live(ca, r) && p in ca[r].lits {
      var k :| 0 <= k < |ca[r].lits| && ca[r].lits[k] == p;
    }
  }

  /** A variable that occurs in no clause that goes away, comes or changes costs what it did. */
  lemma RemovedElsewhere(ca: seq<ClauseRec>, r: CRef, v: Var, grow: int, lim: int)
    requires Live(ca, r) && !Mentions(ca[r].lits, v)
    ensures OverLimits(ca, v, grow, lim) <==> OverLimits(Removed(ca, r), v, grow, lim)
  {
    hide Mentions;
    assert SameClauses(ca, Removed(ca, r), v);
    SameClausesSameCost(ca, Removed(ca, r), v, grow, lim);
  }

  lemma StoredElsewhere(ca: seq<ClauseRec>, c: seq<Lit>, v: Var, grow: int, lim: int)
    requires !Mentions(c, v)
    ensures OverLimits(ca, v, grow, lim) <==> OverLimits(ca + [ClauseRec(c, false, false)], v, grow, lim)
  {
    hide Mentions;
    var ca' := ca + [ClauseRec(c, false, false)];
    forall r ensures (Over(ca, v, r) <==> Over(ca', v, r)) && (Over(ca, v, r) ==> ca'[r].lits == ca[r].lits) {
      if r == |ca| { assert ca'[r].lits == c; }
    }
    SameClausesSameCost(ca, ca', v, grow, lim);
  }

  /** A deleted clause does not matter. */
  lemma ShortenedDead(ca: seq<ClauseRec>, r: CRef, l: Lit, v: Var, grow: int, lim: int)
    requires 0 <= r < |ca| && ca[r].deleted
    ensures OverLimits(ca, v, grow, lim) <==> OverLimits(Shortened(ca, r, l), v, grow, lim)
  {
    hide Mentions, Without;
    assert SameClauses(ca, Shortened(ca, r, l), v);
    SameClausesSameCost(ca, Shortened(ca, r, l), v, grow, lim);
  }

  lemma ShortenedElsewhere(ca: seq<ClauseRec>, r: CRef, l: Lit, v: Var, grow: int, lim: int)
    requires Live(ca, r) && DistinctVars(ca[r].lits) && l in ca[r].lits && !Mentions(ca[r].lits, v)
    ensures OverLimits(ca, v, grow, lim) <==> OverLimits(Shortened(ca, r, l), v, grow, lim)
  {
    var ca' := Shortened(ca, r, l);
    MentionsWithout(ca[r].lits, l, v);
    hide Mentions, Without;
    assert SameClauses(ca, ca', v);
    SameClausesSameCost(ca, ca', v, grow, lim);
  }

  lemma MentionsWithout(c: seq<Lit>, l: Lit, v: Var)
    requires DistinctVars(c) && l in c
    ensures l.v != v ==> (Mentions(Without(c, l), v) <==> Mentions(c, v))
    ensures Mentions(Without(c, l), v) ==> Mentions(c, v)
  {
    WithoutLits(c, l);
    hide Without;
    var d := Without(c, l);
    if Mentions(d, v) {
      var k :| 0 <= k < |d| && d[k].v == v;
      assert d[k] in c;
    }
    if Mentions(c, v) && l.v != v {
      var k :| 0 <= k < |c| && c[k].v == v;
      assert c[k] in d;
    }
  }

  /** Taking a literal of another variable out of a clause over v leaves at least as many resolvents on v. */
  lemma ShorteningKeepsTooMany(ca: seq<ClauseRec>, r: CRef, l: Lit, v: Var, grow: int)
    requires Live(ca, r) && DistinctVars(ca[r].lits) && l in ca[r].lits && l.v != v && TooMany(ca, v, grow)
    ensures TooMany(Shortened(ca, r, l), v, grow)
  {
    var ca' := Shortened(ca, r, l);
    MentionsWithout(ca[r].lits, l, v);
    WithoutLits(ca[r].lits, l);
    hide Mentions, Without, DistinctVars;
    assert Occurring(ca', v) == Occurring(ca, v);
    forall x | x in Pairs(ca, v) ensures x in Pairs(ca', v) {
      assert Resolve(ca, v, x.0, x.1);
      assert Resolve(ca', v, x.0, x.1);
    }
    SubsetSize(Pairs(ca, v), Pairs(ca', v));
  }

  lemma SubsetSize<T>(s: set<T>, s': set<T>)
    requires s <= s'
    ensures |s| <= |s'|
  {
    assert s' == s + (s' - s);
  }

  // ---------- who is looked at again ----------

  /** Clauses were only added, deleted or shortened. */
  ghost predicate Worn(ca: seq<ClauseRec>, ca': seq<ClauseRec>) {
    |ca| <= |ca'| && forall r :: 0 <= r < |ca| ==>
      (ca[r].deleted ==> ca'[r].deleted) && |ca'[r].lits| <= |ca[r].lits|
  }

  /** Some live clause over v is new or shorter than it was. */
  ghost predicate Shorter(ca: seq<ClauseRec>, ca': seq<ClauseRec>, v: Var) { exists r :: ShorterAt(ca, ca', v, r) }

  ghost predicate ShorterAt(ca: seq<ClauseRec>, ca': seq<ClauseRec>, v: Var, r: CRef) {
    Over(ca', v, r) && (r >= |ca| || |ca'[r].lits| < |ca[r].lits|)
  }

  /** Some live clause over v is not there any more, or not over v. */
  ghost predicate Fewer(ca: seq<ClauseRec>, ca': seq<ClauseRec>, v: Var) {
    exists r :: Over(ca, v, r) && !Over(ca', v, r)
  }

  /** v waits or is no candidate, or is over the limits; if length is limited, a clause may have become shorter. */
  ghost predicate Weighed(ca: seq<ClauseRec>, ca': seq<ClauseRec>, waiting': iset<Var>, v: Var, grow: int, lim: int) {
    v in waiting' || OverLimits(ca', v, grow, lim) || (lim != -1 && Shorter(ca, ca', v))
  }

  /**
   * From ca to ca' no variable that was waiting or over the limits was lost from sight, and none whose occurrences
   * became fewer.
   */
  ghost predicate Steady(ca: seq<ClauseRec>, waiting: iset<Var>, ca': seq<ClauseRec>, waiting': iset<Var>, grow: int,
                         lim: int) {
    && Worn(ca, ca')
    && forall v :: v in waiting || OverLimits(ca, v, grow, lim) || Fewer(ca, ca', v) ==>
         Weighed(ca, ca', waiting', v, grow, lim)
  }

  /** The same whatever the limits are. */
  ghost predicate Requeued(ca: seq<ClauseRec>, waiting: iset<Var>, ca': seq<ClauseRec>, waiting': iset<Var>) {
    forall grow, lim :: Steady(ca, waiting, ca', waiting', grow, lim)
  }

  lemma SteadyTwice(ca: seq<ClauseRec>, w: iset<Var>, ca': seq<ClauseRec>, w': iset<Var>, ca'': seq<ClauseRec>,
                    w'': iset<Var>, grow: int, lim: int)
    requires Steady(ca, w, ca', w', grow, lim) && Steady(ca', w', ca'', w'', grow, lim)
    ensures Steady(ca, w, ca'', w'', grow, lim)
  {
    hide OverLimits, Over;
    forall v | v in w || OverLimits(ca, v, grow, lim) || Fewer(ca, ca'', v)
      ensures Weighed(ca, ca'', w'', v, grow, lim)
    {
      if lim != -1 && Shorter(ca, ca', v) && !Fewer(ca', ca'', v) {
        var r :| ShorterAt(ca, ca', v, r);
        OverInRange(ca', v, r);
        assert Over(ca'', v, r);
        assert ShorterAt(ca, ca'', v, r);
      }
      if Weighed(ca', ca'', w'', v, grow, lim) && lim != -1 && Shorter(ca', ca'', v) {
        var r :| ShorterAt(ca', ca'', v, r);
        OverInRange(ca'', v, r);
        assert ShorterAt(ca, ca'', v, r);
      }
    }
  }

  lemma OverInRange(ca: seq<ClauseRec>, v: Var, r: CRef)
    requires Over(ca, v, r)
    ensures 0 <= r < |ca|
  {
  }

  lemma RequeuedTwice(ca: seq<ClauseRec>, w: iset<Var>, ca': seq<ClauseRec>, w': iset<Var>, ca'': seq<ClauseRec>,
                      w'': iset<Var>)
    requires Requeued(ca, w, ca', w') && Requeued(ca', w', ca'', w'')
    ensures Requeued(ca, w, ca'', w'')
  {
    hide Steady;
    forall grow, lim { SteadyTwice(ca, w, ca', w', ca'', w'', grow, lim); }
  }

  lemma RequeuedMore(ca: seq<ClauseRec>, w: iset<Var>, ca': seq<ClauseRec>, w': iset<Var>, w'': iset<Var>)
    requires Requeued(ca, w, ca', w') && w' <= w''
    ensures Requeued(ca, w, ca', w'')
  {
    NothingLost(ca', w', w'');
    RequeuedTwice(ca, w, ca', w', ca', w'');
  }

  /** The clauses are the same and nobody stops waiting. */
  lemma NothingLost(ca: seq<ClauseRec>, w: iset<Var>, w': iset<Var>)
    requires w <= w'
    ensures Requeued(ca, w, ca, w')
  {
    hide OverLimits, Over;
  }

  /** Clause r is gone, and its variables wait. */
  lemma RemovedIsRequeued(ca: seq<ClauseRec>, r: CRef, w: iset<Var>, w': iset<Var>)
    requires Live(ca, r) && w <= w' && forall v :: Mentions(ca[r].lits, v) ==> v in w'
    ensures Requeued(ca, w, Removed(ca, r), w')
  {
    hide OverLimits, Mentions;
    var ca' := Removed(ca, r);
    forall v, grow, lim | OverLimits(ca, v, grow, lim) && !Mentions(ca[r].lits, v)
      ensures OverLimits(ca', v, grow, lim)
    {
      RemovedElsewhere(ca, r, v, grow, lim);
    }
    forall v | Fewer(ca, ca', v) ensures Mentions(ca[r].lits, v) {
      var s :| Over(ca, v, s) && !Over(ca', v, s);
    }
  }

  /** Clause c is new, and its variables wait. */
  lemma StoredIsRequeued(ca: seq<ClauseRec>, c: seq<Lit>, w: iset<Var>, w': iset<Var>)
    requires w <= w' && forall v :: Mentions(c, v) ==> v in w'
    ensures Requeued(ca, w, ca + [ClauseRec(c, false, false)], w')
  {
    hide OverLimits, Mentions;
    var ca' := ca + [ClauseRec(c, false, false)];
    forall v, grow, lim | OverLimits(ca, v, grow, lim) && !Mentions(c, v) ensures OverLimits(ca', v, grow, lim) {
      StoredElsewhere(ca, c, v, grow, lim);
    }
    forall v ensures !Fewer(ca, ca', v) {
      assert forall s :: Over(ca, v, s) ==> Over(ca', v, s);
    }
  }

  lemma DeadIsRequeued(ca: seq<ClauseRec>, r: CRef, l: Lit, w: iset<Var>)
    requires 0 <= r < |ca| && ca[r].deleted && |Without(ca[r].lits, l)| <= |ca[r].lits|
    ensures Requeued(ca, w, Shortened(ca, r, l), w)
  {
    hide OverLimits, Mentions, Without;
    var ca' := Shortened(ca, r, l);
    forall v, grow, lim ensures OverLimits(ca, v, grow, lim) <==> OverLimits(ca', v, grow, lim) {
      ShortenedDead(ca, r, l, v, grow, lim);
    }
    forall v ensures !Fewer(ca, ca', v) {
      assert forall s :: Over(ca, v, s) ==> Over(ca', v, s);
    }
  }

  /** Clause r has lost l, and the variable of l waits. */
  lemma ShortenedIsRequeued(ca: seq<ClauseRec>, r: CRef, l: Lit, w: iset<Var>, w': iset<Var>)
    requires Live(ca, r) && DistinctVars(ca[r].lits) && l in ca[r].lits && w <= w' && l.v in w'
    ensures Requeued(ca, w, Shortened(ca, r, l), w')
  {
    hide OverLimits, TooMany, TooLong, DistinctVars;
    var ca' := Shortened(ca, r, l);
    WithoutLits(ca[r].lits, l);
    forall v ensures Mentions(ca'[r].lits, v) <== Mentions(ca[r].lits, v) && v != l.v {
      MentionsWithout(ca[r].lits, l, v);
    }
    hide Mentions, Without;
    forall v | Fewer(ca, ca', v) ensures v == l.v {
      var s :| Over(ca, v, s) && !Over(ca', v, s);
    }
    forall v, grow, lim | OverLimits(ca, v, grow, lim) && v != l.v ensures Weighed(ca, ca', w', v, grow, lim) {
      ShortenedWeighs(ca, r, l, w', v, grow, lim);
    }
  }

  lemma ShortenedWeighs(ca: seq<ClauseRec>, r: CRef, l: Lit, w': iset<Var>, v: Var, grow: int, lim: int)
    requires Live(ca, r) && DistinctVars(ca[r].lits) && l in ca[r].lits && l.v != v && OverLimits(ca, v, grow, lim)
    ensures Weighed(ca, Shortened(ca, r, l), w', v, grow, lim)
  {
    hide TooMany, Mentions, Without, DistinctVars;
    var ca' := Shortened(ca, r, l);
    MentionsWithout(ca[r].lits, l, v);
    WithoutLits(ca[r].lits, l);
    if !Mentions(ca[r].lits, v) {
      ShortenedElsewhere(ca, r, l, v, grow, lim);
    } else if TooMany(ca, v, grow) {
      ShorteningKeepsTooMany(ca, r, l, v, grow);
    } else {
      assert ShorterAt(ca, ca', v, r);
    }
  }

  lemma RequeuedIsSteady(ca: seq<ClauseRec>, w: iset<Var>, ca': seq<ClauseRec>, w': iset<Var>, grow: int, lim: int)
    requires Requeued(ca, w, ca', w')
    ensures Steady(ca, w, ca', w', grow, lim)
  {
  }

  lemma SteadyAsIs(ca: seq<ClauseRec>, w: iset<Var>, w': iset<Var>, grow: int, lim: int)
    requires w <= w'
    ensures Steady(ca, w, ca, w', grow, lim)
  {
    NothingLost(ca, w, w');
  }

  const LONG_PAIR: seq<ClauseRec> := [
    ClauseRec([Lit(0, false), Lit(1, false), Lit(2, false)], false, false),
    ClauseRec([Lit(0, true), Lit(3, false), Lit(4, false)], false, false)]

  /**
   * Why length is the exception: variable 0 makes a resolvent of four literals here, too long for a limit of three.
   * When the first clause loses its last literal, the resolvent fits, but only variable 2 is looked at again.
   */
  lemma ShorteningMayFit()
    ensures OverLimits(LONG_PAIR, 0, 0, 3) && !OverLimits(Shortened(LONG_PAIR, 0, Lit(2, false)), 0, 0, 3)
  {
    var ca, l := LONG_PAIR, Lit(2, false);
    var ca' := Shortened(ca, 0, l);
    var c, c', d := ca[0].lits, [Lit(0, false), Lit(1, false)], ca[1].lits;
    assert Without(c, l) == c' by {
      assert c[1..] == [Lit(1, false), l] && c[1..][1..] == [l];
      assert Without(c[1..], l) == [Lit(1, false)];
    }
    assert Apart(c, d) && Apart(c', d);
    hide OverLimits, Without, Apart;
    OnePair(ca, 3);
    OnePair(ca', 3);
  }

  /** The clauses resolve on variable 0 and have no other variable in common. */
  ghost predicate Apart(c: seq<Lit>, d: seq<Lit>) {
    && DistinctVars(c) && DistinctVars(d) && Lit(0, false) in c && Lit(0, true) in d
    && forall p, q :: p in c && q in d && p.v == q.v ==> p.v == 0
  }

  /** With two such clauses, only the length of their resolvent matters. */
  lemma OnePair(ca: seq<ClauseRec>, lim: nat)
    requires |ca| == 2 && Live(ca, 0) && Live(ca, 1) && Apart(ca[0].lits, ca[1].lits)
    ensures OverLimits(ca, 0, 0, lim) <==> |ca[0].lits| + |ca[1].lits| - 2 > lim
  {
    var c, d := ca[0].lits, ca[1].lits;
    ApartSize(c, d);
    OverIfHas(ca, 0, Lit(0, false));
    OverIfHas(ca, 1, Lit(0, true));
    assert !Clash(c, d, 0) by {
      forall p | p in c && Neg(p) in d ensures p.v == 0 {
      }
    }
    hide Clash, Resolvent, Mentions;
    forall r, s | Resolve(ca, 0, r, s) ensures r == 0 && s == 1 {
      OneLiteralOfAVariableOnly(c, Lit(0, false));
      OneLiteralOfAVariableOnly(d, Lit(0, true));
    }
    assert Pairs(ca, 0) <= {(0, 1)};
    SubsetSize(Pairs(ca, 0), {(0, 1)});
    assert {0, 1} <= Occurring(ca, 0);
    SubsetSize({0, 1}, Occurring(ca, 0));
    assert Resolve(ca, 0, 0, 1);
  }

  lemma OneLiteralOfAVariableOnly(c: seq<Lit>, p: Lit)
    requires DistinctVars(c) && p in c
    ensures Neg(p) !in c
  {
  }

  lemma ApartSize(c: seq<Lit>, d: seq<Lit>)
    requires Apart(c, d)
    ensures |Resolvent(c, d, 0)| == |c| + |d| - 2
  {
    var i :| 0 <= i < |c| && c[i] == Lit(0, false);
    var j :| 0 <= j < |d| && d[j] == Lit(0, true);
    OthersSize(c, 0);
    OthersSize(d, 0);
    ExtraIsOthers(c, d);
    ExtraIsOthers(d, c);
  }

  lemma {:induction false} ExtraIsOthers(ps: seq<Lit>, qs: seq<Lit>)
    requires forall p, q :: p in ps && q in qs && p.v == q.v ==> p.v == 0
    ensures Extra(ps, qs, 0) == Others(qs, 0)
  {
    if qs != [] {
      var q := qs[|qs| - 1];
      ExtraIsOthers(ps, qs[..|qs| - 1]);
      forall k | 0 <= k < |ps| ensures q.v == 0 || ps[k].v != q.v {
        assert ps[k] in ps && q in qs;
      }
    }
  }

  /** v was tried and is over the limits, or out of the question. */
  lemma TriedIsSteady(ca: seq<ClauseRec>, w: iset<Var>, ca': seq<ClauseRec>, w': iset<Var>, v: Var, grow: int, lim: int)
    requires Requeued(ca, w, ca', w') && (v in w' || OverLimits(ca', v, grow, lim))
    ensures Steady(ca, w + iset{v}, ca', w', grow, lim)
  {
    hide OverLimits, Over;
    assert Steady(ca, w, ca', w', grow, lim);
  }

  // ---------- the variables of clauses ----------

  ghost predicate AllIn(cs: seq<seq<Lit>>, w: iset<Var>) {
    forall i, v :: 0 <= i < |cs| && Mentions(cs[i], v) ==> v in w
  }

  lemma StillIn(cs: seq<seq<Lit>>, w: iset<Var>, w': iset<Var>)
    requires AllIn(cs, w) && w <= w'
    ensures AllIn(cs, w')
  {
  }

  lemma ResolventIn(cs: seq<seq<Lit>>, ds: seq<seq<Lit>>, v: Var, i: nat, j: nat, out: seq<Lit>, w: iset<Var>)
    requires AllIn(cs, w) && AllIn(ds, w) && i < |cs| && j < |ds| && IsResolvent(cs[i], ds[j], v, out)
    ensures forall u :: Mentions(out, u) ==> u in w
  {
    forall u | Mentions(out, u) ensures u in w {
      var k :| 0 <= k < |out| && out[k].v == u;
      assert out[k] in out;
      var c := if out[k] in cs[i] then cs[i] else ds[j];
      var x :| 0 <= x < |c| && c[x] == out[k];
      assert Mentions(c, u);
    }
  }

  lemma SidesAreIn(ca: seq<ClauseRec>, cls: seq<CRef>, pos: seq<CRef>, neg: seq<CRef>, w: iset<Var>)
    requires RefsOk(ca, cls) && RefsOk(ca, pos) && RefsOk(ca, neg) && Covers(cls, pos, neg)
    requires forall i, v :: 0 <= i < |cls| && Mentions(ca[cls[i]].lits, v) ==> v in w
    ensures AllIn(Lits(ca, pos), w) && AllIn(Lits(ca, neg), w)
  {
    hide Mentions;
    forall r, v | 0 <= r < |ca| && r in cls && Mentions(ca[r].lits, v) ensures v in w {
      var i :| 0 <= i < |cls| && cls[i] == r;
    }
    forall i | 0 <= i < |pos| ensures pos[i] in cls {
      assert pos[i] in pos;
    }
    forall i | 0 <= i < |neg| ensures neg[i] in cls {
      assert neg[i] in neg;
    }
  }

  // ---------- the length of resolvents ----------

  /** All resolvents that are no tautologies are shorter than lim; -1 is no limit. */
  ghost predicate AllShort(cs: seq<seq<Lit>>, ds: seq<seq<Lit>>, v: Var, lim: int) {
    lim == -1 || forall i, j :: 0 <= i < |cs| && 0 <= j < |ds| && !Clash(cs[i], ds[j], v) ==>
      |Resolvent(cs[i], ds[j], v)| < lim
  }

  /** A limit on the length of resolvents that keeps them below the limit on the size of subsumed clauses. */
  predicate LimitsFit(clauseLim: int, subLim: int) { subLim == -1 || (clauseLim != -1 && clauseLim < subLim) }

  lemma ResolventIsShort(cs: seq<seq<Lit>>, ds: seq<seq<Lit>>, v: Var, i: nat, j: nat)
    requires i < |cs| && j < |ds| && !Clash(cs[i], ds[j], v)
    ensures forall lim :: AllShort(cs, ds, v, lim) ==> lim == -1 || |Resolvent(cs[i], ds[j], v)| < lim
  {
  }

  lemma WithinIsShort(cs: seq<seq<Lit>>, ds: seq<seq<Lit>>, v: Var, max: int, lim: int)
    requires WithinLimits(cs, ds, v, max, lim)
    ensures forall g :: LimitsFit(lim, g) ==> AllShort(cs, ds, v, g)
  {
    hide Clash, Resolvent;
    forall g | LimitsFit(lim, g) && g != -1 ensures AllShort(cs, ds, v, g) {
      assert forall i, j :: 0 <= i < |cs| && 0 <= j < |ds| ==> ShortEnough(cs[i], ds[j], v, lim);
    }
  }

  /** A clause without repetition of literals of ps is no longer than ps. */
  lemma SubclauseIsShorter(ps: seq<Lit>, out: seq<Lit>)
    requires DistinctVars(out) && forall p :: p in out ==> p in ps
    ensures |out| <= |ps|
  {
    DistinctSize(out);
    VarSetSize(ps);
    forall v | v in VarSet(out) ensures v in VarSet(ps) {
      var i :| 0 <= i < |out| && out[i].v == v;
      assert out[i] in ps;
    }
    SubsetSize(VarSet(out), VarSet(ps));
  }

  lemma {:induction false} DistinctSize(c: seq<Lit>)
    requires DistinctVars(c)
    ensures |VarSet(c)| == |c|
  {
    if c != [] {
      var d, p := c[..|c| - 1], c[|c| - 1];
      DistinctSize(d);
      assert c == d + [p];
      VarSetAppend(d, p);
      assert p.v !in VarSet(d);
    }
  }

  lemma {:induction false} VarSetSize(c: seq<Lit>)
    ensures |VarSet(c)| <= |c|
  {
    if c != [] {
      var d, p := c[..|c| - 1], c[|c| - 1];
      VarSetSize(d);
      assert c == d + [p];
      VarSetAppend(d, p);
    }
  }
}
