/** Adding clauses to and removing clauses from the watched database, on values. */
module Database {
  import opened SolverTypes
  import opened Trails
  import opened Watches
  import opened Propagation

  // ---------- attaching ----------

  function Attached(ws: Lists, c: seq<Lit>, r: CRef): Lists
    requires |c| >= 2 && Neg(c[0]) in ws && Neg(c[1]) in ws
  {
    var w := ws[Neg(c[0]) := ws[Neg(c[0])] + [Watcher(r, c[1])]];
    w[Neg(c[1]) := w[Neg(c[1])] + [Watcher(r, c[0])]]
  }

  lemma FreshIsNotWatched(ca: seq<ClauseRec>, q: Lit, l: seq<Watcher>)
    requires ListOk(ca, q, l)
    ensures !Watched(l, |ca|)
  {
    forall j | 0 <= j < |l| ensures l[j].cref != |ca| {
      assert EntryOk(ca, q, l[j]);
    }
  }

  lemma GrownKeepsList(ca: seq<ClauseRec>, q: Lit, l: seq<Watcher>, rec: ClauseRec)
    requires ListOk(ca, q, l)
    ensures ListOk(ca + [rec], q, l)
  {
    forall j | 0 <= j < |l| ensures EntryOk(ca + [rec], q, l[j]) {
      assert EntryOk(ca, q, l[j]);
    }
  }

  lemma AttachKeepsLists(ca: seq<ClauseRec>, ws: Lists, dirty: set<Lit>, n: nat, rec: ClauseRec)
    requires ListsOk(ca, ws, dirty, n)
    requires |rec.lits| >= 2 && InRange(rec.lits, n) && DistinctVars(rec.lits) && !rec.deleted
    ensures Neg(rec.lits[0]) in ws && Neg(rec.lits[1]) in ws
    ensures ListsOk(ca + [rec], Attached(ws, rec.lits, |ca|), dirty, n)
  {
    var c, ca', r := rec.lits, ca + [rec], |ca|;
    assert c[0].v != c[1].v;
    assert Neg(c[0]) in ws && Neg(c[1]) in ws;
    var ws': Lists := Attached(ws, c, r);
    forall q | q in ws' ensures ListOk(ca', q, ws'[q]) {
      AttachKeepsList(ca, ws, rec, q);
    }
    AttachKeepsWatched(ca, ws, rec);
    AttachKeepsClean(ca, ws, dirty, n, rec);
  }

  lemma AttachKeepsClean(ca: seq<ClauseRec>, ws: Lists, dirty: set<Lit>, n: nat, rec: ClauseRec)
    requires ListsOk(ca, ws, dirty, n) && !rec.deleted && |rec.lits| >= 2
    requires Neg(rec.lits[0]) in ws && Neg(rec.lits[1]) in ws
    ensures DirtyOk(ca + [rec], Attached(ws, rec.lits, |ca|), dirty)
  {
    var ca', ws': Lists := ca + [rec], Attached(ws, rec.lits, |ca|);
    forall q, j | q in ws' && 0 <= j < |ws'[q]| && q !in dirty && 0 <= ws'[q][j].cref < |ca'|
      ensures !ca'[ws'[q][j].cref].deleted
    {
      if j < |ws[q]| {
        assert ws'[q][j] == ws[q][j];
        assert ListOk(ca, q, ws[q]) && EntryOk(ca, q, ws[q][j]);
      }
    }
  }

  lemma AttachKeepsList(ca: seq<ClauseRec>, ws: Lists, rec: ClauseRec, q: Lit)
    requires |rec.lits| >= 2 && rec.lits[0].v != rec.lits[1].v && Neg(rec.lits[0]) in ws && Neg(rec.lits[1]) in ws
    requires q in ws && ListOk(ca, q, ws[q]) && !rec.deleted
    ensures ListOk(ca + [rec], q, Attached(ws, rec.lits, |ca|)[q])
  {
    var c, ca', r := rec.lits, ca + [rec], |ca|;
    assert ca'[r] == rec;
    GrownKeepsList(ca, q, ws[q], rec);
    FreshIsNotWatched(ca, q, ws[q]);
    if q == Neg(c[0]) {
      AddKeepsList(ca', q, ws[q], Watcher(r, c[1]));
    } else if q == Neg(c[1]) {
      AddKeepsList(ca', q, ws[q], Watcher(r, c[0]));
    }
  }

  lemma AttachKeepsWatched(ca: seq<ClauseRec>, ws: Lists, rec: ClauseRec)
    requires AllWatched(ca, ws) && |rec.lits| >= 2 && Neg(rec.lits[0]) in ws && Neg(rec.lits[1]) in ws
    requires rec.lits[0] != rec.lits[1]
    ensures AllWatched(ca + [rec], Attached(ws, rec.lits, |ca|))
  {
    var c, ca', r := rec.lits, ca + [rec], |ca|;
    var ws': Lists := Attached(ws, c, r);
    var q0, q1 := Neg(c[0]), Neg(c[1]);
    assert ws'[q0][|ws[q0]|].cref == r && ws'[q1][|ws[q1]|].cref == r;
    forall s, q | q in ws && Watched(ws[q], s) ensures Watched(ws'[q], s) {
      var x :| 0 <= x < |ws[q]| && ws[q][x].cref == s;
      assert ws'[q][x].cref == s;
    }
    forall s | 0 <= s < |ca'| && !ca'[s].deleted ensures ClauseWatched(ws', ca'[s].lits, s) {
      if s < r { assert ClauseWatched(ws, ca[s].lits, s); }
    }
  }

  /** A false watch is harmless if the other one is true no later. */
  ghost predicate WatchReady(t: Trail, c: seq<Lit>, m: nat) {
    && |c| >= 2
    && (IsFalse(t, c[0]) && Pos(t, c[0]) < m ==> IsTrue(t, c[1]) && Level(t, c[1]) <= Level(t, c[0]))
    && (IsFalse(t, c[1]) && Pos(t, c[1]) < m ==> IsTrue(t, c[0]) && Level(t, c[0]) <= Level(t, c[1]))
  }

  lemma AttachKeepsServed(t: Trail, ca: seq<ClauseRec>, ws: Lists, m: nat, rec: ClauseRec)
    requires TrailOk(t) && AllListsOk(ca, ws) && Served(t, ca, ws, m) && WatchReady(t, rec.lits, m)
    requires Neg(rec.lits[0]) in ws && Neg(rec.lits[1]) in ws && rec.lits[0].v != rec.lits[1].v
    ensures Served(t, ca + [rec], Attached(ws, rec.lits, |ca|), m)
  {
    var c, ca' := rec.lits, ca + [rec];
    var ws': Lists := Attached(ws, c, |ca|);
    forall i, j | 0 <= i < m && i < |t.lits| && t.lits[i] in ws' && 0 <= j < |ws'[t.lits[i]]|
      ensures EntryServed(t, ca', t.lits[i], ws'[t.lits[i]][j])
    {
      var q := t.lits[i];
      if j < |ws[q]| {
        assert ListOk(ca, q, ws[q]) && EntryOk(ca, q, ws[q][j]) && EntryServed(t, ca, q, ws[q][j]);
      }
    }
  }

  lemma GrownKeepsReasons(t: Trail, ca: seq<ClauseRec>, rec: ClauseRec)
    requires ReasonsOk(t, ca)
    ensures ReasonsOk(t, ca + [rec])
  {
    forall i | 0 <= i < |t.lits| ensures ReasonAt(t, ca + [rec], i) {
      assert ReasonAt(t, ca, i);
    }
  }

  /** A new clause without assigned literals. */
  lemma AttachKeepsIdle(t: Trail, ca: seq<ClauseRec>, ws: Lists, dirty: set<Lit>, q: nat, rec: ClauseRec)
    requires Idle(t, ca, ws, dirty, q)
    requires |rec.lits| >= 2 && InRange(rec.lits, |t.assigns|) && DistinctVars(rec.lits) && !rec.deleted
    requires forall i :: 0 <= i < |rec.lits| ==> t.assigns[rec.lits[i].v] == LUndef
    ensures Neg(rec.lits[0]) in ws && Neg(rec.lits[1]) in ws
    ensures Idle(t, ca + [rec], Attached(ws, rec.lits, |ca|), dirty, q)
  {
    hide AllWatched, DirtyOk, AllListsOk, LevelsOk;
    AttachKeepsLists(ca, ws, dirty, |t.assigns|, rec);
    GrownKeepsReasons(t, ca, rec);
    AttachKeepsServed(t, ca, ws, q, rec);
  }

  /** A learnt clause, which at once forces its first literal. */
  lemma LearnKeepsIdle(t: Trail, ca: seq<ClauseRec>, ws: Lists, dirty: set<Lit>, rec: ClauseRec)
    requires Idle(t, ca, ws, dirty, |t.lits|)
    requires |rec.lits| >= 2 && InRange(rec.lits, |t.assigns|) && DistinctVars(rec.lits) && !rec.deleted
    requires t.assigns[rec.lits[0].v] == LUndef && Level(t, rec.lits[1]) == |t.lim|
    requires forall i :: 1 <= i < |rec.lits| ==> IsFalse(t, rec.lits[i])
    ensures Neg(rec.lits[0]) in ws && Neg(rec.lits[1]) in ws
    ensures Idle(Enqueued(t, rec.lits[0], |ca|), ca + [rec], Attached(ws, rec.lits, |ca|), dirty, |t.lits|)
  {
    hide AllWatched, DirtyOk, AllListsOk, LevelsOk, Served;
    var t', ca' := Enqueued(t, rec.lits[0], |ca|), ca + [rec];
    AttachKeepsLists(ca, ws, dirty, |t.assigns|, rec);
    GrownKeepsReasons(t, ca, rec);
    EnqueueKeepsTrail(t, rec.lits[0], |ca|);
    EnqueueKeepsReasons(t, ca', rec.lits[0], |ca|);
    ExtendKeepsServed(t, t', ca, ws, |t.lits|);
    LearntIsReady(t, rec.lits, |ca|);
    AttachKeepsServed(t', ca, ws, |t.lits|, rec);
  }

  lemma LearntIsReady(t: Trail, c: seq<Lit>, r: CRef)
    requires TrailOk(t) && |c| >= 2 && c[0].v < |t.assigns| && t.assigns[c[0].v] == LUndef
    requires IsFalse(t, c[1]) && Level(t, c[1]) == |t.lim|
    ensures WatchReady(Enqueued(t, c[0], r), c, |t.lits|)
  {
  }

  /** A unit clause is not stored: its literal is enqueued at level 0, or at the start of a level. */
  lemma UnitKeepsIdle(t: Trail, ca: seq<ClauseRec>, ws: Lists, dirty: set<Lit>, q: nat, p: Lit)
    requires Idle(t, ca, ws, dirty, q) && p.v < |t.assigns| && t.assigns[p.v] == LUndef
    requires |t.lim| == 0 || t.lim[|t.lim| - 1] == |t.lits|
    ensures Idle(Enqueued(t, p, CREF_UNDEF), ca, ws, dirty, q)
  {
    hide AllWatched, DirtyOk, AllListsOk, LevelsOk, Served;
    EnqueueKeepsTrail(t, p, CREF_UNDEF);
    EnqueueKeepsReasons(t, ca, p, CREF_UNDEF);
    ExtendKeepsServed(t, Enqueued(t, p, CREF_UNDEF), ca, ws, q);
  }

  // ---------- removing ----------

  ghost predicate Locked(t: Trail, ca: seq<ClauseRec>, r: CRef) {
    0 <= r < |ca| && |ca[r].lits| > 0 && IsTrue(t, ca[r].lits[0]) && Reason(t, ca[r].lits[0]) == r
  }

  ghost function Unlocked(t: Trail, ca: seq<ClauseRec>, r: CRef): Trail
    requires 0 <= r < |ca|
  {
    if Locked(t, ca, r) && ca[r].lits[0].v < |t.vardata| then
      var v := ca[r].lits[0].v;
      t.(vardata := t.vardata[v := t.vardata[v].(reason := CREF_UNDEF)])
    else t
  }

  lemma ClauseInRange(t: Trail, ca: seq<ClauseRec>, ws: Lists, dirty: set<Lit>, q: nat, r: CRef)
    requires Idle(t, ca, ws, dirty, q) && 0 <= r < |ca|
    ensures TrailOk(t) && |ca[r].lits| >= 2 && InRange(ca[r].lits, |t.assigns|) && |t.assigns| == |t.vardata|
    ensures Neg(ca[r].lits[0]) in ws && Neg(ca[r].lits[1]) in ws
  {
  }

  /** The region with the clauses in gone marked. */
  function WithDeleted(ca: seq<ClauseRec>, gone: set<CRef>): (ca': seq<ClauseRec>)
    ensures |ca'| == |ca| && forall r :: 0 <= r < |ca| ==> ca'[r].lits == ca[r].lits && ca'[r].learnt == ca[r].learnt
  {
    seq(|ca|, r requires 0 <= r < |ca| => if r in gone then ca[r].(deleted := true) else ca[r])
  }

  lemma NoneDeleted(ca: seq<ClauseRec>)
    ensures WithDeleted(ca, {}) == ca
  {
  }

  /** One more deletion; whether r is locked does not depend on the marks. */
  lemma DeleteOne(t: Trail, ca: seq<ClauseRec>, gone: set<CRef>, r: CRef)
    requires 0 <= r < |ca|
    ensures WithDeleted(ca, gone + {r}) == Removed(WithDeleted(ca, gone), r)
    ensures Locked(t, WithDeleted(ca, gone), r) <==> Locked(t, ca, r)
    ensures !Locked(t, ca, r) ==> Unlocked(t, WithDeleted(ca, gone), r) == t
  {
  }

  lemma RemoveKeepsReasons(t: Trail, ca: seq<ClauseRec>, r: CRef)
    requires TrailOk(t) && ReasonsOk(t, ca) && 0 <= r < |ca| && (Locked(t, ca, r) ==> |t.lim| == 0)
    ensures TrailOk(Unlocked(t, ca, r)) && ReasonsOk(Unlocked(t, ca, r), Removed(ca, r))
  {
    var t', ca' := Unlocked(t, ca, r), Removed(ca, r);
    forall i | 0 <= i < |t'.lits| ensures LevelAt(t', i, Level(t', t'.lits[i])) {
      assert LevelAt(t, i, Level(t, t.lits[i]));
    }
    forall i | 0 <= i < |t'.lits| ensures ReasonAt(t', ca', i) {
      assert ReasonAt(t, ca, i);
      assert LevelAt(t, i, Level(t, t.lits[i]));
      assert IsTrue(t, t.lits[i]);
    }
  }

  lemma RemoveKeepsLists(ca: seq<ClauseRec>, ws: Lists, dirty: set<Lit>, n: nat, r: CRef)
    requires ListsOk(ca, ws, dirty, n) && 0 <= r < |ca| && |ca[r].lits| >= 2
    ensures ListsOk(Removed(ca, r), ws, dirty + {Neg(ca[r].lits[0]), Neg(ca[r].lits[1])}, n)
  {
    var ca' := Removed(ca, r);
    forall q | q in ws ensures ListOk(ca', q, ws[q]) {
      assert ListOk(ca, q, ws[q]);
      forall j | 0 <= j < |ws[q]| ensures EntryOk(ca', q, ws[q][j]) {
        assert EntryOk(ca, q, ws[q][j]);
      }
    }
    forall s | 0 <= s < |ca'| && !ca'[s].deleted ensures ClauseWatched(ws, ca'[s].lits, s) {
      assert ClauseWatched(ws, ca[s].lits, s);
    }
    forall q, j | q in ws && 0 <= j < |ws[q]| && q !in dirty && q != Neg(ca[r].lits[0]) && q != Neg(ca[r].lits[1])
        && 0 <= ws[q][j].cref < |ca'|
      ensures !ca'[ws[q][j].cref].deleted
    {
      assert ListOk(ca, q, ws[q]) && EntryOk(ca, q, ws[q][j]);
    }
  }

  lemma RemoveKeepsServed(t: Trail, ca: seq<ClauseRec>, ws: Lists, m: nat, r: CRef)
    requires TrailOk(t) && Served(t, ca, ws, m) && 0 <= r < |ca|
    ensures Served(Unlocked(t, ca, r), Removed(ca, r), ws, m)
  {
    var t', ca' := Unlocked(t, ca, r), Removed(ca, r);
    forall i, j | 0 <= i < m && i < |t'.lits| && t'.lits[i] in ws && 0 <= j < |ws[t'.lits[i]]|
      ensures EntryServed(t', ca', t'.lits[i], ws[t'.lits[i]][j])
    {
      assert EntryServed(t, ca, t.lits[i], ws[t.lits[i]][j]);
    }
  }

  lemma RemoveKeepsIdle(t: Trail, ca: seq<ClauseRec>, ws: Lists, dirty: set<Lit>, q: nat, r: CRef)
    requires Idle(t, ca, ws, dirty, q) && 0 <= r < |ca| && (Locked(t, ca, r) ==> |t.lim| == 0)
    ensures |ca[r].lits| >= 2
    ensures Idle(Unlocked(t, ca, r), Removed(ca, r), ws, dirty + {Neg(ca[r].lits[0]), Neg(ca[r].lits[1])}, q)
  {
    hide AllWatched, DirtyOk, AllListsOk, Served;
    RemoveKeepsReasons(t, ca, r);
    RemoveKeepsLists(ca, ws, dirty, |t.assigns|, r);
    RemoveKeepsServed(t, ca, ws, q, r);
  }
}
