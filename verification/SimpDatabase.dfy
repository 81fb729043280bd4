/** The simplifier's clauses and their indexes, on values. */
module SimpDatabase {
  import opened SolverTypes
  import opened Trails
  import opened Subsumption
  import opened UnitClosure

  type Occs = seq<seq<CRef>>

  ghost predicate Live(ca: seq<ClauseRec>, r: CRef) { 0 <= r < |ca| && !ca[r].deleted }

  ghost predicate ShapeOk(ca: seq<ClauseRec>, n: nat) {
    forall r :: 0 <= r < |ca| ==>
      InRange(ca[r].lits, n) && DistinctVars(ca[r].lits) && (!ca[r].deleted ==> |ca[r].lits| >= 2)
  }

  /** The root assignment and its stack say the same. */
  ghost predicate RootOk(assigns: seq<LBool>, trail: seq<Lit>) {
    && (forall p :: p in trail ==> p.v < |assigns| && assigns[p.v] == Polarity(p))
    && (forall v :: 0 <= v < |assigns| && assigns[v] != LUndef ==> Lit(v, assigns[v] == LFalse) in trail)
    && DistinctVars(trail)
  }

  lemma {:induction false} DistinctFitsRange(c: seq<Lit>, n: nat)
    requires DistinctVars(c) && InRange(c, n)
    ensures |VarSet(c)| == |c| <= n
  {
    if c != [] {
      var d, p := c[..|c| - 1], c[|c| - 1];
      DistinctFitsRange(d, n);
      assert c == d + [p];
      VarSetAppend(d, p);
      assert p.v !in VarSet(d);
    }
    RangeSize(VarSet(c), n);
  }

  lemma RootEnqueue(assigns: seq<LBool>, trail: seq<Lit>, p: Lit)
    requires RootOk(assigns, trail) && p.v < |assigns| && assigns[p.v] == LUndef
    ensures RootOk(assigns[p.v := Polarity(p)], trail + [p]) && |trail| < |assigns|
  {
    var trail' := trail + [p];
    forall i | 0 <= i < |trail| ensures trail[i].v != p.v && trail[i].v < |assigns| {
      assert trail[i] in trail;
    }
    RootRoom(assigns, trail, p);
    assert trail'[|trail|] == p;
    hide InRange;
  }

  lemma RootGrows(assigns: seq<LBool>, trail: seq<Lit>, assigns': seq<LBool>, trail': seq<Lit>)
    requires RootOk(assigns, trail) && RootOk(assigns', trail') && |assigns| == |assigns'| && trail <= trail'
    ensures forall v :: 0 <= v < |assigns| && assigns[v] != LUndef ==> assigns'[v] != LUndef
  {
    forall v | 0 <= v < |assigns| && assigns[v] != LUndef ensures assigns'[v] != LUndef {
      var p := Lit(v, assigns[v] == LFalse);
      var i :| 0 <= i < |trail| && trail[i] == p;
      assert trail'[i] == p;
    }
  }

  lemma RootRoom(assigns: seq<LBool>, trail: seq<Lit>, p: Lit)
    requires DistinctVars(trail) && p.v < |assigns|
    requires forall i :: 0 <= i < |trail| ==> trail[i].v != p.v && trail[i].v < |assigns|
    ensures DistinctVars(trail + [p]) && |trail| < |assigns|
  {
    DistinctFitsRange(trail + [p], |assigns|);
  }

  /** The list of v holds each live clause over v once, and dead clauses only while it is dirty. */
  ghost predicate OccListOk(ca: seq<ClauseRec>, l: seq<CRef>, v: Var, isDirty: bool) {
    && NoRepeats(l)
    && (forall r :: r in l ==> 0 <= r < |ca| && (ca[r].deleted ==> isDirty))
    && (forall r :: 0 <= r < |ca| && !ca[r].deleted ==> (r in l <==> Mentions(ca[r].lits, v)))
  }

  ghost predicate OccsOk(ca: seq<ClauseRec>, occurs: Occs, dirty: set<Var>) {
    forall v :: 0 <= v < |occurs| ==> OccListOk(ca, occurs[v], v, v in dirty)
  }

  /** The live clauses with literal p. */
  ghost function Holders(ca: seq<ClauseRec>, p: Lit): set<CRef> {
    set r: CRef | 0 <= r < |ca| && !ca[r].deleted && p in ca[r].lits
  }

  ghost predicate CountsOk(ca: seq<ClauseRec>, nOcc: map<Lit, int>, n: nat) {
    forall p: Lit :: p.v < n ==> p in nOcc && nOcc[p] == |Holders(ca, p)|
  }

  ghost predicate IndexOk(ca: seq<ClauseRec>, occurs: Occs, dirty: set<Var>, nOcc: map<Lit, int>, n: nat) {
    ShapeOk(ca, n) && |occurs| == n && OccsOk(ca, occurs, dirty) && CountsOk(ca, nOcc, n)
  }

  lemma IndexShape(ca: seq<ClauseRec>, occurs: Occs, dirty: set<Var>, nOcc: map<Lit, int>, n: nat)
    requires IndexOk(ca, occurs, dirty, nOcc, n)
    ensures |occurs| == n
    ensures forall r :: 0 <= r < |ca| ==> DistinctVars(ca[r].lits) && InRange(ca[r].lits, n)
    ensures forall r :: Live(ca, r) ==> |ca[r].lits| >= 2
  {
  }

  ghost predicate TrailHolds(a: Model, trail: seq<Lit>) { forall p :: p in trail ==> Holds(a, p) }

  ghost predicate LiveHold(a: Model, ca: seq<ClauseRec>) {
    forall r :: 0 <= r < |ca| && !ca[r].deleted ==> Satisfies(a, ca[r].lits)
  }

  /** a satisfies all live clauses and the root assignment. */
  ghost predicate DbSat(a: Model, ca: seq<ClauseRec>, trail: seq<Lit>) { LiveHold(a, ca) && TrailHolds(a, trail) }

  /** The variables with a mark. */
  ghost function Marked(marks: seq<bool>): set<Var> { set v: Var | v < |marks| && marks[v] }

  lemma UnmarkedLast(marks: seq<bool>)
    ensures Marked(marks + [false]) == Marked(marks)
  {
  }

  lemma MarkedMore(marks: seq<bool>, v: Var)
    requires v < |marks|
    ensures Marked(marks[v := true]) == Marked(marks) + {v}
  {
  }

  /** No live clause and no root literal is over one of the variables. */
  ghost predicate Free(ca: seq<ClauseRec>, trail: seq<Lit>, gone: set<Var>) {
    && (forall r, v :: 0 <= r < |ca| && !ca[r].deleted && v in gone ==> !Mentions(ca[r].lits, v))
    && (forall p :: p in trail ==> p.v !in gone)
  }

  // ---------- storing a clause ----------

  function Counted(nOcc: map<Lit, int>, c: seq<Lit>, d: int): (m: map<Lit, int>)
    ensures m.Keys == nOcc.Keys
  {
    map p | p in nOcc :: if p in c then nOcc[p] + d else nOcc[p]
  }

  lemma CountedNone(nOcc: map<Lit, int>, d: int)
    ensures Counted(nOcc, [], d) == nOcc
  {
  }

  lemma CountNext(nOcc: map<Lit, int>, c: seq<Lit>, i: nat, d: int)
    requires i < |c| && DistinctVars(c) && c[i] in nOcc
    ensures Counted(nOcc, c[..i + 1], d) == Counted(nOcc, c[..i], d)[c[i] := Counted(nOcc, c[..i], d)[c[i]] + d]
  {
    assert c[..i + 1] == c[..i] + [c[i]] && c[i] !in c[..i];
  }

  lemma PushedNone(occurs: Occs, r: CRef)
    ensures Pushed(occurs, [], r) == occurs
  {
  }

  lemma PushNext(occurs: Occs, c: seq<Lit>, i: nat, r: CRef)
    requires i < |c| && DistinctVars(c) && c[i].v < |occurs|
    ensures Pushed(occurs, c[..i + 1], r) ==
            Pushed(occurs, c[..i], r)[c[i].v := Pushed(occurs, c[..i], r)[c[i].v] + [r]]
  {
    var d, e := c[..i], c[..i + 1];
    assert e[i] == c[i];
    forall v ensures Mentions(e, v) <==> Mentions(d, v) || v == c[i].v {
      if Mentions(d, v) {
        var k :| 0 <= k < |d| && d[k].v == v;
        assert e[k].v == v;
      }
    }
  }

  function Pushed(occurs: Occs, c: seq<Lit>, r: CRef): (o: Occs)
    ensures |o| == |occurs|
  {
    seq(|occurs|, v requires 0 <= v < |occurs| => if Mentions(c, v) then occurs[v] + [r] else occurs[v])
  }

  lemma StoreKeepsIndex(ca: seq<ClauseRec>, occurs: Occs, dirty: set<Var>, nOcc: map<Lit, int>, n: nat, c: seq<Lit>)
    requires IndexOk(ca, occurs, dirty, nOcc, n) && InRange(c, n) && DistinctVars(c) && |c| >= 2
    ensures forall p :: p in c ==> p in nOcc
    ensures IndexOk(ca + [ClauseRec(c, false, false)], Pushed(occurs, c, |ca|), dirty, Counted(nOcc, c, 1), n)
  {
    var ca', r := ca + [ClauseRec(c, false, false)], |ca|;
    assert ca'[r].lits == c;
    forall p | p in c ensures p in nOcc {
      var k :| 0 <= k < |c| && c[k] == p;
    }
    assert OccsOk(ca', Pushed(occurs, c, r), dirty) by {
      hide OccListOk;
      forall v | 0 <= v < |occurs| ensures OccListOk(ca', Pushed(occurs, c, r)[v], v, v in dirty) {
        PushKeepsList(ca, occurs[v], v, v in dirty, c);
      }
    }
    StoreKeepsCounts(ca, nOcc, n, c);
  }

  lemma StoreKeepsCounts(ca: seq<ClauseRec>, nOcc: map<Lit, int>, n: nat, c: seq<Lit>)
    requires CountsOk(ca, nOcc, n)
    ensures CountsOk(ca + [ClauseRec(c, false, false)], Counted(nOcc, c, 1), n)
  {
    var ca', r := ca + [ClauseRec(c, false, false)], |ca|;
    assert ca'[r].lits == c;
    forall p: Lit | p.v < n ensures p in nOcc && Counted(nOcc, c, 1)[p] == |Holders(ca', p)| {
      if p in c {
        assert Holders(ca', p) == Holders(ca, p) + {r};
      } else {
        assert Holders(ca', p) == Holders(ca, p);
      }
    }
  }

  lemma PushKeepsList(ca: seq<ClauseRec>, l: seq<CRef>, v: Var, isDirty: bool, c: seq<Lit>)
    requires OccListOk(ca, l, v, isDirty)
    ensures OccListOk(ca + [ClauseRec(c, false, false)], if Mentions(c, v) then l + [|ca|] else l, v, isDirty)
  {
    assert |ca| !in l;
  }

  // ---------- removing a clause ----------

  lemma RemoveKeepsIndex(ca: seq<ClauseRec>, occurs: Occs, dirty: set<Var>, nOcc: map<Lit, int>, n: nat, r: CRef)
    requires IndexOk(ca, occurs, dirty, nOcc, n) && Live(ca, r)
    ensures forall p :: p in ca[r].lits ==> p in nOcc
    ensures IndexOk(Removed(ca, r), occurs, dirty + VarSet(ca[r].lits), Counted(nOcc, ca[r].lits, -1), n)
  {
    var ca', c := Removed(ca, r), ca[r].lits;
    forall p | p in c ensures p in nOcc {
      var k :| 0 <= k < |c| && c[k] == p;
    }
    forall v | 0 <= v < |occurs| ensures OccListOk(ca', occurs[v], v, v in dirty + VarSet(c)) {
      assert OccListOk(ca, occurs[v], v, v in dirty);
      assert Mentions(c, v) ==> v in VarSet(c);
    }
    forall p: Lit | p.v < n ensures Counted(nOcc, c, -1)[p] == |Holders(ca', p)| {
      if p in c {
        assert Holders(ca', p) == Holders(ca, p) - {r};
        assert r in Holders(ca, p);
      } else {
        assert Holders(ca', p) == Holders(ca, p);
      }
    }
  }

  // ---------- removing a literal from a clause ----------

  /** The list without the first x, order kept. */
  function Without<T(==)>(s: seq<T>, x: T): seq<T> {
    if s == [] then [] else if s[0] == x then s[1..] else [s[0]] + Without(s[1..], x)
  }

  lemma {:induction false} WithoutLits(c: seq<Lit>, l: Lit)
    requires DistinctVars(c) && l in c
    ensures |Without(c, l)| == |c| - 1 && DistinctVars(Without(c, l))
    ensures forall p :: p in Without(c, l) <==> p in c && p != l
  {
    if c[0] == l {
      assert c == [l] + c[1..];
      forall p | p in c[1..] ensures p != l {
        var i :| 1 <= i < |c| && c[i] == p;
        assert c[0].v != c[i].v;
      }
    } else {
      assert c == [c[0]] + c[1..];
      WithoutLits(c[1..], l);
      var d := Without(c, l);
      forall i, j | 0 <= i < j < |d| ensures d[i].v != d[j].v {
        if i == 0 {
          assert d[j] in Without(c[1..], l);
          var k :| 1 <= k < |c| && c[k] == d[j];
        }
      }
    }
  }

  lemma {:induction false} WithoutRef(s: seq<CRef>, r: CRef)
    requires NoRepeats(s) && r in s
    ensures |Without(s, r)| == |s| - 1 && NoRepeats(Without(s, r))
    ensures forall x :: x in Without(s, r) <==> x in s && x != r
  {
    if s[0] == r {
      assert s == [r] + s[1..];
    } else {
      assert s == [s[0]] + s[1..] && s[0] !in s[1..];
      WithoutRef(s[1..], r);
      var w := Without(s[1..], r);
      assert Without(s, r) == [s[0]] + w && s[0] !in w;
    }
  }

  function Shortened(ca: seq<ClauseRec>, r: CRef, l: Lit): seq<ClauseRec>
    requires 0 <= r < |ca|
  {
    ca[r := ca[r].(lits := Without(ca[r].lits, l))]
  }

  lemma ShortenKeepsIndex(ca: seq<ClauseRec>, occurs: Occs, dirty: set<Var>, nOcc: map<Lit, int>, n: nat, r: CRef,
                          l: Lit)
    requires IndexOk(ca, occurs, dirty, nOcc, n) && Live(ca, r) && l in ca[r].lits && |ca[r].lits| > 2
    ensures l.v < n && l in nOcc && r in occurs[l.v]
    ensures IndexOk(Shortened(ca, r, l), occurs[l.v := Without(occurs[l.v], r)], dirty, nOcc[l := nOcc[l] - 1], n)
  {
    var ca', c := Shortened(ca, r, l), ca[r].lits;
    var k :| 0 <= k < |c| && c[k] == l;
    assert Mentions(c, l.v);
    WithoutLits(c, l);
    assert OccListOk(ca, occurs[l.v], l.v, l.v in dirty);
    WithoutRef(occurs[l.v], r);
    ShortenKeepsLists(ca, occurs, dirty, r, l);
    assert InRange(ca'[r].lits, n) by {
      forall i | 0 <= i < |ca'[r].lits| ensures ca'[r].lits[i].v < n {
        assert ca'[r].lits[i] in c;
      }
    }
    ShortenKeepsCounts(ca, nOcc, n, r, l);
  }

  lemma ShortenKeepsCounts(ca: seq<ClauseRec>, nOcc: map<Lit, int>, n: nat, r: CRef, l: Lit)
    requires CountsOk(ca, nOcc, n) && Live(ca, r) && l in ca[r].lits && DistinctVars(ca[r].lits) && l.v < n
    ensures CountsOk(Shortened(ca, r, l), nOcc[l := nOcc[l] - 1], n)
  {
    var ca' := Shortened(ca, r, l);
    WithoutLits(ca[r].lits, l);
    forall p: Lit | p.v < n ensures nOcc[l := nOcc[l] - 1][p] == |Holders(ca', p)| {
      if p == l {
        assert Holders(ca', p) == Holders(ca, p) - {r};
        assert r in Holders(ca, p);
      } else {
        assert Holders(ca', p) == Holders(ca, p);
      }
    }
  }

  lemma ShortenKeepsLists(ca: seq<ClauseRec>, occurs: Occs, dirty: set<Var>, r: CRef, l: Lit)
    requires OccsOk(ca, occurs, dirty) && Live(ca, r) && l in ca[r].lits && DistinctVars(ca[r].lits)
    requires l.v < |occurs| && r in occurs[l.v]
    ensures OccsOk(Shortened(ca, r, l), occurs[l.v := Without(occurs[l.v], r)], dirty)
  {
    var ca', c := Shortened(ca, r, l), ca[r].lits;
    var occurs' := occurs[l.v := Without(occurs[l.v], r)];
    WithoutLits(c, l);
    assert OccListOk(ca, occurs[l.v], l.v, l.v in dirty);
    WithoutRef(occurs[l.v], r);
    forall v | 0 <= v < |occurs| ensures OccListOk(ca', occurs'[v], v, v in dirty) {
      assert OccListOk(ca, occurs[v], v, v in dirty);
      ShortenedVars(c, l, v);
    }
  }

  lemma ShortenedVars(c: seq<Lit>, l: Lit, v: Var)
    requires DistinctVars(c) && l in c
    ensures Mentions(Without(c, l), v) <==> Mentions(c, v) && v != l.v
  {
    WithoutLits(c, l);
    var d := Without(c, l);
    if Mentions(c, v) && v != l.v {
      var k :| 0 <= k < |c| && c[k].v == v;
      assert c[k] in d;
    }
    if Mentions(d, v) {
      var k :| 0 <= k < |d| && d[k].v == v;
      assert d[k] in c && d[k] != l;
      var i :| 0 <= i < |c| && c[i] == d[k];
      var j :| 0 <= j < |c| && c[j] == l;
    }
  }

  /** A deleted clause may change freely. */
  lemma DeadShortenKeepsIndex(ca: seq<ClauseRec>, occurs: Occs, dirty: set<Var>, nOcc: map<Lit, int>, n: nat, r: CRef,
                              l: Lit)
    requires IndexOk(ca, occurs, dirty, nOcc, n) && 0 <= r < |ca| && ca[r].deleted && l in ca[r].lits
    ensures IndexOk(Shortened(ca, r, l), occurs, dirty, nOcc, n)
  {
    var ca', c := Shortened(ca, r, l), ca[r].lits;
    WithoutLits(c, l);
    forall i | 0 <= i < |ca'[r].lits| ensures ca'[r].lits[i].v < n {
      assert ca'[r].lits[i] in c;
    }
    forall v | 0 <= v < |occurs| ensures OccListOk(ca', occurs[v], v, v in dirty) {
      assert OccListOk(ca, occurs[v], v, v in dirty);
    }
    forall p: Lit | p.v < n ensures nOcc[p] == |Holders(ca', p)| {
      assert Holders(ca', p) == Holders(ca, p);
    }
  }

  // ---------- lazy deletion ----------

  function LiveOnly(ca: seq<ClauseRec>, l: seq<CRef>): seq<CRef> {
    if l == [] then []
    else
      var r := l[|l| - 1];
      LiveOnly(ca, l[..|l| - 1]) + if 0 <= r < |ca| && ca[r].deleted then [] else [r]
  }

  lemma {:induction false} LiveOnlyKeeps(ca: seq<ClauseRec>, l: seq<CRef>)
    requires NoRepeats(l)
    ensures NoRepeats(LiveOnly(ca, l))
    ensures forall r :: r in LiveOnly(ca, l) <==> r in l && !(0 <= r < |ca| && ca[r].deleted)
  {
    if l != [] {
      var f := l[..|l| - 1];
      LiveOnlyKeeps(ca, f);
      assert l == f + [l[|l| - 1]];
      assert l[|l| - 1] !in f;
    }
  }

  /** Cleaning a dirty list refines eager deletion: afterwards it holds exactly the live clauses over v. */
  lemma CleanKeepsIndex(ca: seq<ClauseRec>, occurs: Occs, dirty: set<Var>, nOcc: map<Lit, int>, n: nat, v: Var)
    requires IndexOk(ca, occurs, dirty, nOcc, n) && v < n
    ensures IndexOk(ca, occurs[v := LiveOnly(ca, occurs[v])], dirty - {v}, nOcc, n)
    ensures forall r :: r in LiveOnly(ca, occurs[v]) <==> Live(ca, r) && Mentions(ca[r].lits, v)
  {
    assert OccListOk(ca, occurs[v], v, v in dirty);
    LiveOnlyKeeps(ca, occurs[v]);
    forall u | 0 <= u < |occurs| ensures OccListOk(ca, occurs[v := LiveOnly(ca, occurs[v])][u], u, u in dirty - {v}) {
      assert OccListOk(ca, occurs[u], u, u in dirty);
    }
  }

  // ---------- eliminated variables stay away ----------

  lemma StoreKeepsFree(ca: seq<ClauseRec>, trail: seq<Lit>, gone: set<Var>, c: seq<Lit>)
    requires Free(ca, trail, gone) && VarSet(c) !! gone
    ensures Free(ca + [ClauseRec(c, false, false)], trail, gone)
  {
    forall v | v in gone ensures !Mentions(c, v) {
      assert v !in VarSet(c);
    }
  }

  lemma RemoveKeepsFree(ca: seq<ClauseRec>, trail: seq<Lit>, gone: set<Var>, r: CRef)
    requires Free(ca, trail, gone) && 0 <= r < |ca|
    ensures Free(Removed(ca, r), trail, gone)
  {
  }

  lemma ShortenKeepsFree(ca: seq<ClauseRec>, trail: seq<Lit>, gone: set<Var>, r: CRef, l: Lit)
    requires Free(ca, trail, gone) && 0 <= r < |ca| && DistinctVars(ca[r].lits) && l in ca[r].lits
    ensures Free(Shortened(ca, r, l), trail, gone)
  {
    forall v { ShortenedVars(ca[r].lits, l, v); }
  }

  // ---------- unit propagation ----------

  /** All of c but its k-th literal is false. */
  ghost predicate UnitOn(assigns: seq<LBool>, c: seq<Lit>, k: int) {
    forall i :: 0 <= i < |c| && i != k ==> c[i].v < |assigns| && Value(assigns, c[i]) == LFalse
  }

  /** c is neither false nor unit: it has a true literal, or two unassigned ones. */
  ghost predicate Inert(assigns: seq<LBool>, c: seq<Lit>) {
    || (exists k :: 0 <= k < |c| && c[k].v < |assigns| && Value(assigns, c[k]) == LTrue)
    || (exists i, j :: 0 <= i < j < |c| && c[i].v < |assigns| && c[j].v < |assigns|
                       && assigns[c[i].v] == LUndef && assigns[c[j].v] == LUndef)
  }

  ghost predicate AllInert(ca: seq<ClauseRec>, assigns: seq<LBool>) {
    forall r :: 0 <= r < |ca| && !ca[r].deleted ==> Inert(assigns, ca[r].lits)
  }

  lemma FalseDoesNotHold(assigns: seq<LBool>, trail: seq<Lit>, p: Lit)
    requires RootOk(assigns, trail) && p.v < |assigns| && Value(assigns, p) == LFalse
    ensures Neg(p) in trail && forall a :: TrailHolds(a, trail) ==> !Holds(a, p)
  {
    assert Lit(p.v, assigns[p.v] == LFalse) == Neg(p);
  }

  lemma FalseIsOnTrail(assigns: seq<LBool>, trail: seq<Lit>, p: Lit)
    requires RootOk(assigns, trail) && p.v < |assigns| && Value(assigns, p) == LFalse
    ensures Neg(p) in trail
  {
  }

  lemma UnitFollows(a: Model, assigns: seq<LBool>, trail: seq<Lit>, c: seq<Lit>, k: int)
    requires RootOk(assigns, trail) && UnitOn(assigns, c, k) && TrailHolds(a, trail) && Satisfies(a, c)
    ensures 0 <= k < |c| && Holds(a, c[k])
  {
    var p :| p in c && Holds(a, p);
    var i :| 0 <= i < |c| && c[i] == p;
    if i != k { FalseDoesNotHold(assigns, trail, p); }
  }

  /** What a run of unit propagation from trail0 has established. */
  ghost predicate PropagatedFrom(ca: seq<ClauseRec>, trail0: seq<Lit>, assigns: seq<LBool>, trail: seq<Lit>) {
    && RootOk(assigns, trail) && trail0 <= trail
    && (forall a :: LiveHold(a, ca) && TrailHolds(a, trail0) ==> TrailHolds(a, trail))
    && (forall i :: |trail0| <= i < |trail| ==> exists r :: Live(ca, r) && Mentions(ca[r].lits, trail[i].v))
    && (forall s :: UnitClosed(ca, s) && LitSet(trail0) <= s ==> LitSet(trail) <= s)
  }

  /** A literal found by unit propagation belongs to every closed set. */
  lemma DerivedOne(ca: seq<ClauseRec>, trail0: seq<Lit>, assigns: seq<LBool>, trail: seq<Lit>, r: CRef, k: nat,
                   s: set<Lit>)
    requires PropagatedFrom(ca, trail0, assigns, trail) && Live(ca, r) && k < |ca[r].lits|
    requires UnitOn(assigns, ca[r].lits, k) && UnitClosed(ca, s) && LitSet(trail0) <= s
    ensures LitSet(trail + [ca[r].lits[k]]) <= s
  {
    var c := ca[r].lits;
    forall l | 0 <= l < |c| && l != k ensures Neg(c[l]) in s {
      FalseIsOnTrail(assigns, trail, c[l]);
      assert Neg(c[l]) in LitSet(trail);
    }
    assert Refuted(c, k, s);
    forall p | p in trail + [c[k]] ensures p in s {
      assert p in trail ==> p in LitSet(trail);
    }
  }

  lemma PropagateOne(ca: seq<ClauseRec>, trail0: seq<Lit>, assigns: seq<LBool>, trail: seq<Lit>, r: CRef, k: nat)
    requires PropagatedFrom(ca, trail0, assigns, trail) && Live(ca, r) && k < |ca[r].lits|
    requires UnitOn(assigns, ca[r].lits, k) && ca[r].lits[k].v < |assigns| && assigns[ca[r].lits[k].v] == LUndef
    ensures |trail| < |assigns|
    ensures PropagatedFrom(ca, trail0, assigns[ca[r].lits[k].v := Polarity(ca[r].lits[k])], trail + [ca[r].lits[k]])
  {
    var p := ca[r].lits[k];
    RootEnqueue(assigns, trail, p);
    forall a | LiveHold(a, ca) && TrailHolds(a, trail0) ensures TrailHolds(a, trail + [p]) {
      UnitFollows(a, assigns, trail, ca[r].lits, k);
    }
    forall i | |trail0| <= i < |trail + [p]|
      ensures exists s :: Live(ca, s) && Mentions(ca[s].lits, (trail + [p])[i].v)
    {
      if i == |trail| { assert Mentions(ca[r].lits, p.v); }
    }
    forall s | UnitClosed(ca, s) && LitSet(trail0) <= s ensures LitSet(trail + [p]) <= s {
      DerivedOne(ca, trail0, assigns, trail, r, k, s);
    }
  }

  lemma StartPropagation(ca: seq<ClauseRec>, assigns: seq<LBool>, trail: seq<Lit>)
    requires RootOk(assigns, trail)
    ensures PropagatedFrom(ca, trail, assigns, trail) && |trail| <= |assigns|
  {
    forall i | 0 <= i < |trail| ensures trail[i].v < |assigns| {
      assert trail[i] in trail;
    }
    DistinctFitsRange(trail, |assigns|);
  }

  lemma PropagatedMeaning(ca: seq<ClauseRec>, trail0: seq<Lit>, assigns: seq<LBool>, trail: seq<Lit>)
    requires PropagatedFrom(ca, trail0, assigns, trail)
    ensures RootOk(assigns, trail) && trail0 <= trail
    ensures forall a :: DbSat(a, ca, trail) <==> DbSat(a, ca, trail0)
  {
    forall a | TrailHolds(a, trail) ensures TrailHolds(a, trail0) {
      forall p | p in trail0 ensures p in trail {
        var i :| 0 <= i < |trail0| && trail0[i] == p;
        assert trail[i] == p;
      }
    }
  }

  lemma DerivedConflict(ca: seq<ClauseRec>, trail0: seq<Lit>, assigns: seq<LBool>, trail: seq<Lit>, r: CRef,
                        s: set<Lit>)
    requires PropagatedFrom(ca, trail0, assigns, trail) && Live(ca, r) && |ca[r].lits| > 0
    requires UnitOn(assigns, ca[r].lits, -1) && UnitClosed(ca, s) && LitSet(trail0) <= s
    ensures !Consistent(s)
  {
    var c := ca[r].lits;
    forall l | 0 <= l < |c| ensures Neg(c[l]) in s {
      FalseIsOnTrail(assigns, trail, c[l]);
      assert Neg(c[l]) in LitSet(trail);
    }
    FalseClauseConflicts(ca, r, s);
  }

  /** When no live clause is false or unit, the trail is the unit closure of the old one, and consistent. */
  lemma PropagatedIsClosure(ca: seq<ClauseRec>, trail0: seq<Lit>, assigns: seq<LBool>, trail: seq<Lit>)
    requires PropagatedFrom(ca, trail0, assigns, trail) && AllInert(ca, assigns)
    ensures IsClosure(ca, LitSet(trail0), LitSet(trail)) && !Conflicts(ca, LitSet(trail0))
  {
    forall r, k | 0 <= r < |ca| && !ca[r].deleted && 0 <= k < |ca[r].lits| && Refuted(ca[r].lits, k, LitSet(trail))
      ensures ca[r].lits[k] in LitSet(trail)
    {
      InertIsClosed(assigns, trail, ca[r].lits, k);
    }
    forall p | p in trail0 ensures p in trail { PrefixMember(trail0, trail, p); }
    assert Consistent(LitSet(trail));
  }

  lemma InertIsClosed(assigns: seq<LBool>, trail: seq<Lit>, c: seq<Lit>, k: nat)
    requires RootOk(assigns, trail) && Inert(assigns, c) && k < |c| && Refuted(c, k, LitSet(trail))
    ensures c[k] in trail
  {
    forall l | 0 <= l < |c| && l != k ensures c[l].v < |assigns| && Value(assigns, c[l]) == LFalse {
      assert Neg(c[l]) in LitSet(trail);
    }
    assert c[k].v < |assigns| && Value(assigns, c[k]) == LTrue;
    assert c[k] == Lit(c[k].v, assigns[c[k].v] == LFalse);
  }

  /** Propagation from trail0 conflicts, so the live clauses have no model with it. */
  ghost predicate Refutation(ca: seq<ClauseRec>, trail0: seq<Lit>) {
    Conflicts(ca, LitSet(trail0)) && forall a :: !(LiveHold(a, ca) && TrailHolds(a, trail0))
  }

  lemma RefutationMeans(ca: seq<ClauseRec>, trail0: seq<Lit>)
    requires Refutation(ca, trail0)
    ensures Conflicts(ca, LitSet(trail0)) && forall a :: !(LiveHold(a, ca) && TrailHolds(a, trail0))
  {
  }

  lemma PropagateConflict(ca: seq<ClauseRec>, trail0: seq<Lit>, assigns: seq<LBool>, trail: seq<Lit>, r: CRef)
    requires PropagatedFrom(ca, trail0, assigns, trail) && Live(ca, r) && UnitOn(assigns, ca[r].lits, -1)
    requires |ca[r].lits| > 0
    ensures Refutation(ca, trail0)
  {
    forall s | UnitClosed(ca, s) && LitSet(trail0) <= s ensures !Consistent(s) {
      DerivedConflict(ca, trail0, assigns, trail, r, s);
    }
    forall a ensures !(LiveHold(a, ca) && TrailHolds(a, trail0)) {
      if LiveHold(a, ca) && TrailHolds(a, trail0) {
        UnitFollows(a, assigns, trail, ca[r].lits, -1);
      }
    }
  }

  lemma PropagatedKeepsFree(ca: seq<ClauseRec>, trail0: seq<Lit>, assigns: seq<LBool>, trail: seq<Lit>, gone: set<Var>)
    requires PropagatedFrom(ca, trail0, assigns, trail) && Free(ca, trail0, gone)
    ensures Free(ca, trail, gone)
  {
    forall p | p in trail ensures p.v !in gone {
      var i :| 0 <= i < |trail| && trail[i] == p;
      if i < |trail0| {
        assert trail0[i] == p;
      } else {
        var r :| Live(ca, r) && Mentions(ca[r].lits, trail[i].v);
      }
    }
  }

  // ---------- what the steps mean for models ----------

  lemma StoreMeaning(a: Model, ca: seq<ClauseRec>, trail: seq<Lit>, c: seq<Lit>)
    ensures DbSat(a, ca + [ClauseRec(c, false, false)], trail) <==> DbSat(a, ca, trail) && Satisfies(a, c)
  {
    var ca' := ca + [ClauseRec(c, false, false)];
    assert ca'[|ca|].lits == c;
    if DbSat(a, ca', trail) {
      assert Satisfies(a, ca'[|ca|].lits);
      forall r | 0 <= r < |ca| && !ca[r].deleted ensures Satisfies(a, ca[r].lits) {
        assert ca'[r] == ca[r];
      }
    }
  }

  lemma RemoveMeaning(a: Model, ca: seq<ClauseRec>, trail: seq<Lit>, r: CRef)
    requires Live(ca, r)
    ensures DbSat(a, ca, trail) <==> DbSat(a, Removed(ca, r), trail) && Satisfies(a, ca[r].lits)
  {
    var ca' := Removed(ca, r);
    if DbSat(a, ca', trail) && Satisfies(a, ca[r].lits) {
      forall s | 0 <= s < |ca| && !ca[s].deleted ensures Satisfies(a, ca[s].lits) {
        assert s != r ==> ca'[s] == ca[s];
      }
    }
    if DbSat(a, ca, trail) {
      forall s | 0 <= s < |ca'| && !ca'[s].deleted ensures Satisfies(a, ca'[s].lits) {
        assert ca'[s] == ca[s];
      }
    }
  }

  /** Strengthening preserves models when the shorter clause follows. */
  lemma ShortenMeaning(a: Model, ca: seq<ClauseRec>, trail: seq<Lit>, r: CRef, l: Lit)
    requires Live(ca, r) && DistinctVars(ca[r].lits) && l in ca[r].lits
    requires DbSat(a, ca, trail) ==> exists q :: q in ca[r].lits && q != l && Holds(a, q)
    ensures DbSat(a, ca, trail) <==> DbSat(a, Shortened(ca, r, l), trail)
  {
    var ca' := Shortened(ca, r, l);
    WithoutLits(ca[r].lits, l);
    if DbSat(a, ca', trail) {
      forall s | 0 <= s < |ca| && !ca[s].deleted ensures Satisfies(a, ca[s].lits) {
        assert Satisfies(a, ca'[s].lits);
      }
    }
    if DbSat(a, ca, trail) {
      forall s | 0 <= s < |ca'| && !ca'[s].deleted ensures Satisfies(a, ca'[s].lits) {
        assert Satisfies(a, ca[s].lits);
        if s == r {
          var q :| q in ca[r].lits && q != l && Holds(a, q);
          assert q in ca'[r].lits;
        }
      }
    }
  }

  // ---------- adding a clause ----------

  lemma TrivialHolds(assigns: seq<LBool>, trail: seq<Lit>, ps: seq<Lit>)
    requires RootOk(assigns, trail) && InRange(ps, |assigns|)
    requires exists p :: p in ps && p.v < |assigns| && (Value(assigns, p) == LTrue || Neg(p) in ps)
    ensures forall a :: TrailHolds(a, trail) ==> Satisfies(a, ps)
  {
    var p :| p in ps && p.v < |assigns| && (Value(assigns, p) == LTrue || Neg(p) in ps);
    forall a | TrailHolds(a, trail) ensures Satisfies(a, ps) {
      if Value(assigns, p) == LTrue {
        assert Lit(p.v, assigns[p.v] == LFalse) == p;
      } else {
        assert Holds(a, p) || Holds(a, Neg(p));
      }
    }
  }

  lemma OutMeaning(assigns: seq<LBool>, trail: seq<Lit>, ps: seq<Lit>, out: seq<Lit>)
    requires RootOk(assigns, trail) && InRange(ps, |assigns|) && forall p :: p in ps ==> Value(assigns, p) != LTrue
    requires forall p :: p in out <==> p in ps && Value(assigns, p) == LUndef
    ensures forall a :: TrailHolds(a, trail) ==> (Satisfies(a, ps) <==> Satisfies(a, out))
    ensures VarSet(out) <= VarSet(ps) && InRange(out, |assigns|)
    ensures forall i :: 0 <= i < |out| ==> assigns[out[i].v] == LUndef
  {
    forall a | TrailHolds(a, trail) && Satisfies(a, ps) ensures Satisfies(a, out) {
      var p :| p in ps && Holds(a, p);
      var i :| 0 <= i < |ps| && ps[i] == p;
      if Value(assigns, p) == LFalse { FalseDoesNotHold(assigns, trail, p); }
    }
    forall i | 0 <= i < |out| ensures out[i].v in VarSet(ps) && out[i].v < |assigns| && assigns[out[i].v] == LUndef {
      assert out[i] in out;
      var k :| 0 <= k < |ps| && ps[k] == out[i];
    }
  }

  lemma EmptyMeaning()
    ensures forall a :: !Satisfies(a, [])
  {
  }

  lemma UnitMeaning(c: seq<Lit>)
    requires |c| == 1
    ensures forall a :: Satisfies(a, c) <==> Holds(a, c[0])
  {
    forall a ensures Satisfies(a, c) <==> Holds(a, c[0]) {
      assert c[0] in c;
    }
  }

  lemma EnqueueMeaning(a: Model, trail: seq<Lit>, p: Lit)
    ensures TrailHolds(a, trail + [p]) <==> TrailHolds(a, trail) && Holds(a, p)
  {
    assert (trail + [p])[|trail|] == p;
  }

  // ---------- strengthening a binary clause ----------

  /** If l is superfluous in a binary clause, the database is what it is without the clause and with q true. */
  lemma RestIsForced(ca: seq<ClauseRec>, trail: seq<Lit>, r: CRef, l: Lit, q: Lit)
    requires Live(ca, r) && q in ca[r].lits && forall p :: p in ca[r].lits && p != l ==> p == q
    requires forall a :: DbSat(a, ca, trail) ==> exists p :: p in ca[r].lits && p != l && Holds(a, p)
    ensures forall a :: DbSat(a, ca, trail) <==> DbSat(a, Removed(ca, r), trail) && Holds(a, q)
  {
    forall a ensures DbSat(a, ca, trail) <==> DbSat(a, Removed(ca, r), trail) && Holds(a, q) {
      RemoveMeaning(a, ca, trail, r);
    }
  }

  lemma RestIsFree(ca: seq<ClauseRec>, trail: seq<Lit>, gone: set<Var>, r: CRef, q: Lit, n: nat)
    requires Live(ca, r) && q in ca[r].lits && InRange(ca[r].lits, n) && Free(ca, trail, gone)
    ensures q.v < n && q.v !in gone
  {
    var k :| 0 <= k < |ca[r].lits| && ca[r].lits[k] == q;
    assert Mentions(ca[r].lits, q.v);
  }

  lemma DeadShortenMeaning(a: Model, ca: seq<ClauseRec>, trail: seq<Lit>, r: CRef, l: Lit)
    requires 0 <= r < |ca| && ca[r].deleted
    ensures DbSat(a, ca, trail) <==> DbSat(a, Shortened(ca, r, l), trail)
  {
    var ca' := Shortened(ca, r, l);
    forall s | 0 <= s < |ca| && !ca[s].deleted ensures ca'[s] == ca[s] {
    }
    if LiveHold(a, ca') {
      forall s | 0 <= s < |ca| && !ca[s].deleted ensures Satisfies(a, ca[s].lits) {
        assert ca'[s] == ca[s];
      }
    }
  }

  lemma RootValueMeaning(assigns: seq<LBool>, trail: seq<Lit>, q: Lit)
    requires RootOk(assigns, trail) && q.v < |assigns|
    ensures Value(assigns, q) == LTrue ==> q in trail
    ensures Value(assigns, q) == LFalse ==> Neg(q) in trail
    ensures forall a, ca :: Value(assigns, q) == LTrue && DbSat(a, ca, trail) ==> Holds(a, q)
    ensures forall a, ca :: Value(assigns, q) == LFalse && DbSat(a, ca, trail) ==> !Holds(a, q)
  {
    assert Value(assigns, q) == LTrue ==> Lit(q.v, assigns[q.v] == LFalse) == q;
    assert Value(assigns, q) == LFalse ==> Lit(q.v, assigns[q.v] == LFalse) == Neg(q);
  }

  // ---------- subsumption ----------

  lemma SubsumerHolds(a: Model, ca: seq<ClauseRec>, trail: seq<Lit>, c: seq<Lit>, r: CRef)
    requires if r == CREF_UNDEF then |c| == 1 && c[0] in trail else Live(ca, r) && ca[r].lits == c
    ensures DbSat(a, ca, trail) ==> Satisfies(a, c)
  {
    if r == CREF_UNDEF { assert c[0] in c; }
  }

  lemma SubsumedMeaning(a: Model, ca: seq<ClauseRec>, trail: seq<Lit>, c: seq<Lit>, r: CRef, s: CRef)
    requires if r == CREF_UNDEF then |c| == 1 && c[0] in trail else Live(ca, r) && ca[r].lits == c
    requires Live(ca, s) && s != r && Right(c, ca[s].lits, Subsumed)
    ensures DbSat(a, ca, trail) <==> DbSat(a, Removed(ca, s), trail)
  {
    RemoveMeaning(a, ca, trail, s);
    if DbSat(a, Removed(ca, s), trail) {
      SubsumerHolds(a, Removed(ca, s), trail, c, r);
      SubsumedIsImplied(a, c, ca[s].lits);
    }
  }

  lemma StrengthenedMeaning(a: Model, ca: seq<ClauseRec>, trail: seq<Lit>, c: seq<Lit>, d: seq<Lit>, p: Lit)
    requires DistinctVars(c) && Right(c, d, Strengthens(p)) && (DbSat(a, ca, trail) ==> Satisfies(a, c))
    requires exists s :: Live(ca, s) && ca[s].lits == d
    ensures DbSat(a, ca, trail) ==> exists q :: q in d && q != Neg(p) && Holds(a, q)
  {
    if DbSat(a, ca, trail) {
      var s :| Live(ca, s) && ca[s].lits == d;
      StrengthenedIsImplied(a, c, d, p);
    }
  }

  lemma FlippedIsThere(c: seq<Lit>, d: seq<Lit>, p: Lit)
    requires Right(c, d, Strengthens(p))
    ensures p in c && Neg(p) in d
  {
  }

  lemma PrefixMember(s: seq<Lit>, t: seq<Lit>, p: Lit)
    requires s <= t
    ensures p in s ==> p in t
  {
    if p in s {
      var i :| 0 <= i < |s| && s[i] == p;
      assert t[i] == p;
    }
  }

  // ---------- how much is left to simplify ----------

  ghost function Weight(rec: ClauseRec): nat { if rec.deleted then 0 else |rec.lits| }

  /** The number of literals in live clauses. */
  ghost function LiveLits(ca: seq<ClauseRec>): nat {
    if ca == [] then 0 else LiveLits(ca[..|ca| - 1]) + Weight(ca[|ca| - 1])
  }

  lemma {:induction false} LiveLitsUpdate(ca: seq<ClauseRec>, r: CRef, rec: ClauseRec)
    requires 0 <= r < |ca|
    ensures LiveLits(ca[r := rec]) + Weight(ca[r]) == LiveLits(ca) + Weight(rec)
  {
    var ca' := ca[r := rec];
    if r == |ca| - 1 {
      assert ca'[..r] == ca[..r];
    } else {
      assert ca'[..|ca| - 1] == ca[..|ca| - 1][r := rec];
      LiveLitsUpdate(ca[..|ca| - 1], r, rec);
    }
  }

  lemma RemovalShrinks(ca: seq<ClauseRec>, r: CRef)
    requires Live(ca, r) && |ca[r].lits| > 0
    ensures LiveLits(Removed(ca, r)) < LiveLits(ca)
  {
    LiveLitsUpdate(ca, r, ca[r].(deleted := true));
  }

  lemma ShorteningShrinks(ca: seq<ClauseRec>, r: CRef, l: Lit)
    requires 0 <= r < |ca| && DistinctVars(ca[r].lits) && l in ca[r].lits
    ensures LiveLits(Shortened(ca, r, l)) == LiveLits(ca) - if ca[r].deleted then 0 else 1
  {
    WithoutLits(ca[r].lits, l);
    LiveLitsUpdate(ca, r, ca[r].(lits := Without(ca[r].lits, l)));
  }

  /** A binary clause that loses a literal is gone, and its other literal is left. */
  lemma BinaryRest(c: seq<Lit>, l: Lit)
    requires |c| == 2 && DistinctVars(c) && l in c
    ensures |Without(c, l)| == 1 && Without(c, l)[0] in c && Without(c, l)[0] != l
    ensures forall q :: q in c && q != l ==> q == Without(c, l)[0]
  {
    WithoutLits(c, l);
    assert Without(c, l)[0] in Without(c, l);
  }

  // ---------- probing: propagation from a temporary assignment ----------

  /** trail' adds to trail the complements of some of the literals ds. */
  ghost predicate Probed(trail: seq<Lit>, trail': seq<Lit>, ds: set<Lit>) {
    trail <= trail' && forall i :: |trail| <= i < |trail'| ==> Neg(trail'[i]) in ds
  }

  ghost function Complements(ds: set<Lit>): set<Lit> { set p | p in ds :: Neg(p) }

  /** The probe adds exactly the complements of ds. */
  lemma ProbeBase(trail: seq<Lit>, trail1: seq<Lit>, ds: set<Lit>)
    requires Probed(trail, trail1, ds) && forall p :: p in ds ==> Neg(p) in trail1
    ensures LitSet(trail1) == LitSet(trail) + Complements(ds)
  {
    forall p | p in trail1 ensures p in trail || p in Complements(ds) {
      var i :| 0 <= i < |trail1| && trail1[i] == p;
      if i < |trail| {
        assert trail[i] == p;
      } else {
        assert Neg(p) in ds && Neg(Neg(p)) == p;
      }
    }
    forall p | p in trail ensures p in trail1 { PrefixMember(trail, trail1, p); }
  }

  /** If assuming the complements of ds leads to a conflict, every model of the database satisfies one of ds. */
  lemma ProbeConflict(ca: seq<ClauseRec>, trail: seq<Lit>, trail': seq<Lit>, ds: set<Lit>)
    requires Probed(trail, trail', ds) && forall a :: !(LiveHold(a, ca) && TrailHolds(a, trail'))
    ensures forall a :: DbSat(a, ca, trail) ==> exists q :: q in ds && Holds(a, q)
  {
    forall a | DbSat(a, ca, trail) ensures exists q :: q in ds && Holds(a, q) {
      OldPartHolds(a, trail, trail');
      var p :| p in trail' && !Holds(a, p);
      var i :| 0 <= i < |trail'| && trail'[i] == p;
      assert Neg(p) in ds && Holds(a, Neg(p));
    }
  }

  lemma OldPartHolds(a: Model, trail: seq<Lit>, trail': seq<Lit>)
    requires TrailHolds(a, trail) && trail <= trail'
    ensures forall i :: 0 <= i < |trail| ==> Holds(a, trail'[i])
  {
    forall i | 0 <= i < |trail| ensures Holds(a, trail'[i]) {
      assert trail[i] in trail;
    }
  }

  lemma ClearKeepsIndex(ca: seq<ClauseRec>, occurs: Occs, dirty: set<Var>, nOcc: map<Lit, int>, n: nat, trail: seq<Lit>,
                        gone: set<Var>, v: Var)
    requires IndexOk(ca, occurs, dirty, nOcc, n) && Free(ca, trail, gone) && v in gone && v < n
    ensures IndexOk(ca, occurs[v := []], dirty, nOcc, n)
  {
    forall u | 0 <= u < |occurs| ensures OccListOk(ca, occurs[v := []][u], u, u in dirty) {
      assert OccListOk(ca, occurs[u], u, u in dirty);
    }
  }

  /** A variable without clauses and without a root value can be declared gone. */
  lemma FreeOneMore(ca: seq<ClauseRec>, assigns: seq<LBool>, trail: seq<Lit>, gone: set<Var>, v: Var)
    requires RootOk(assigns, trail) && Free(ca, trail, gone) && v < |assigns| && assigns[v] == LUndef
    requires forall r :: Live(ca, r) ==> !Mentions(ca[r].lits, v)
    ensures Free(ca, trail, gone + {v}) && Free(ca, trail, {v})
  {
  }

  // ---------- a further variable ----------

  lemma NewVarKeepsIndex(ca: seq<ClauseRec>, occurs: Occs, dirty: set<Var>, nOcc: map<Lit, int>, n: nat)
    requires IndexOk(ca, occurs, dirty, nOcc, n)
    ensures IndexOk(ca, occurs + [[]], dirty, nOcc[Lit(n, false) := 0][Lit(n, true) := 0], n + 1)
  {
    forall r | 0 <= r < |ca|
      ensures !Mentions(ca[r].lits, n) && Lit(n, false) !in ca[r].lits && Lit(n, true) !in ca[r].lits
    {
      forall k | 0 <= k < |ca[r].lits| ensures ca[r].lits[k].v < n {
        assert InRange(ca[r].lits, n);
      }
    }
    assert OccsOk(ca, occurs + [[]], dirty) by {
      forall v | 0 <= v < |occurs + [[]]| ensures OccListOk(ca, (occurs + [[]])[v], v, v in dirty) {
        if v < n { assert OccListOk(ca, occurs[v], v, v in dirty); }
      }
    }
    assert Holders(ca, Lit(n, false)) == {} && Holders(ca, Lit(n, true)) == {};
  }

  lemma NewVarKeepsRoot(assigns: seq<LBool>, trail: seq<Lit>)
    requires RootOk(assigns, trail)
    ensures RootOk(assigns + [LUndef], trail)
  {
  }
}
