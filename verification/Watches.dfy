/** Two-watched-literal lists with blockers: their structure, and what a processed watch guarantees. */
module Watches {
  import opened SolverTypes
  import opened Trails

  datatype Watcher = Watcher(cref: CRef, blocker: Lit)

  type Lists = map<Lit, seq<Watcher>>

  /** Watcher w sits in the list of q, which is scanned when q becomes true. */
  ghost predicate EntryOk(ca: seq<ClauseRec>, q: Lit, w: Watcher) {
    && 0 <= w.cref < |ca| && |ca[w.cref].lits| >= 2
    && (ca[w.cref].lits[0] == Neg(q) || ca[w.cref].lits[1] == Neg(q))
    && w.blocker in ca[w.cref].lits
  }

  ghost predicate ListOk(ca: seq<ClauseRec>, q: Lit, l: seq<Watcher>) {
    && (forall j :: 0 <= j < |l| ==> EntryOk(ca, q, l[j]))
    && (forall i, j :: 0 <= i < j < |l| ==> l[i].cref != l[j].cref)
  }

  ghost predicate Watched(l: seq<Watcher>, r: CRef) { exists j :: 0 <= j < |l| && l[j].cref == r }

  ghost predicate ClauseWatched(ws: Lists, c: seq<Lit>, r: CRef) {
    && |c| >= 2
    && Neg(c[0]) in ws && Watched(ws[Neg(c[0])], r)
    && Neg(c[1]) in ws && Watched(ws[Neg(c[1])], r)
  }

  /** The list of q may hold a deleted clause only while q is marked dirty. */
  ghost predicate DirtyOk(ca: seq<ClauseRec>, ws: Lists, dirty: set<Lit>) {
    forall q, j :: q in ws && 0 <= j < |ws[q]| && q !in dirty && 0 <= ws[q][j].cref < |ca| ==>
      !ca[ws[q][j].cref].deleted
  }

  ghost predicate AllListsOk(ca: seq<ClauseRec>, ws: Lists) { forall q :: q in ws ==> ListOk(ca, q, ws[q]) }

  ghost predicate AllWatched(ca: seq<ClauseRec>, ws: Lists) {
    forall r :: 0 <= r < |ca| && !ca[r].deleted ==> ClauseWatched(ws, ca[r].lits, r)
  }

  ghost predicate DomainOk(ws: Lists, n: nat) { forall q: Lit :: q in ws <==> q.v < n }

  /** Every live clause has exactly its two watchers: one in each of two lists, none anywhere else. */
  ghost predicate ListsOk(ca: seq<ClauseRec>, ws: Lists, dirty: set<Lit>, n: nat) {
    DomainOk(ws, n) && AllListsOk(ca, ws) && AllWatched(ca, ws) && DirtyOk(ca, ws, dirty)
  }

  function OtherWatch(c: seq<Lit>, q: Lit): Lit
    requires |c| >= 2
  {
    if c[0] == Neg(q) then c[1] else c[0]
  }

  /** The watch of ~q in clause c is false; c is then true no later than that: level-aware form. */
  ghost predicate EntryServed(t: Trail, ca: seq<ClauseRec>, q: Lit, w: Watcher) {
    || (IsTrue(t, w.blocker) && Level(t, w.blocker) <= Level(t, q))
    || (0 <= w.cref < |ca| && |ca[w.cref].lits| >= 2
        && IsTrue(t, OtherWatch(ca[w.cref].lits, q)) && Level(t, OtherWatch(ca[w.cref].lits, q)) <= Level(t, q))
  }

  /** The first m literals of the stack have been dequeued and their lists served. */
  ghost predicate Served(t: Trail, ca: seq<ClauseRec>, ws: Lists, m: nat) {
    forall i, j :: 0 <= i < m && i < |t.lits| && t.lits[i] in ws && 0 <= j < |ws[t.lits[i]]| ==>
      EntryServed(t, ca, t.lits[i], ws[t.lits[i]][j])
  }

  /** The part of the solver's invariant that propagation works on. */
  ghost predicate PropOk(t: Trail, ca: seq<ClauseRec>, ws: Lists, dirty: set<Lit>) {
    && TrailOk(t) && ReasonsOk(t, ca) && ClausesOk(ca, |t.assigns|) && ListsOk(ca, ws, dirty, |t.assigns|)
  }

  /** After propagation nothing is left to do: no live clause is false, or unit with its literal unassigned. */
  ghost predicate NoUnitOrFalse(t: Trail, ca: seq<ClauseRec>) {
    forall r :: 0 <= r < |ca| && !ca[r].deleted ==>
      || (exists k :: 0 <= k < |ca[r].lits| && IsTrue(t, ca[r].lits[k]))
      || (exists k, l :: 0 <= k < l < |ca[r].lits| && !IsFalse(t, ca[r].lits[k]) && !IsFalse(t, ca[r].lits[l]))
  }

  // ---------- the three moves of the inner loop ----------

  function SwapLits(ca: seq<ClauseRec>, r: CRef, i: nat, j: nat): seq<ClauseRec>
    requires 0 <= r < |ca| && i < |ca[r].lits| && j < |ca[r].lits|
  {
    var c := ca[r].lits;
    ca[r := ca[r].(lits := c[i := c[j]][j := c[i]])]
  }

  lemma SwapIsPermutation(c: seq<Lit>, i: nat, j: nat)
    requires i < |c| && j < |c|
    ensures var d := c[i := c[j]][j := c[i]];
      multiset(d) == multiset(c) && (forall p :: p in d <==> p in c) && (DistinctVars(c) ==> DistinctVars(d))
  {
    var d := c[i := c[j]][j := c[i]];
    if DistinctVars(c) { SwapKeepsDistinct(c, i, j); }
    hide DistinctVars;
    forall p ensures p in d <==> p in c {
      assert p in d <==> p in multiset(d);
      assert p in c <==> p in multiset(c);
    }
  }

  lemma SwapKeepsDistinct(c: seq<Lit>, i: nat, j: nat)
    requires i < |c| && j < |c| && DistinctVars(c)
    ensures DistinctVars(c[i := c[j]][j := c[i]])
  {
  }

  lemma SwapReorders(ca: seq<ClauseRec>, r: CRef, i: nat, j: nat, n: nat)
    requires 0 <= r < |ca| && i < |ca[r].lits| && j < |ca[r].lits| && ClausesOk(ca, n)
    ensures Reordered(ca, SwapLits(ca, r, i, j)) && ClausesOk(SwapLits(ca, r, i, j), n)
    ensures forall p :: p in SwapLits(ca, r, i, j)[r].lits <==> p in ca[r].lits
  {
    SwapIsPermutation(ca[r].lits, i, j);
  }

  /** A clause whose first literal is not true is nobody's reason, so it may be rearranged. */
  lemma SwapKeepsReasons(t: Trail, ca: seq<ClauseRec>, r: CRef, i: nat, j: nat)
    requires TrailOk(t) && ReasonsOk(t, ca)
    requires 0 <= r < |ca| && i < |ca[r].lits| && j < |ca[r].lits| && !IsTrue(t, ca[r].lits[0])
    ensures ReasonsOk(t, SwapLits(ca, r, i, j))
  {
    forall x | 0 <= x < |t.lits| ensures ReasonAt(t, SwapLits(ca, r, i, j), x) {
      assert ReasonAt(t, ca, x);
      assert IsTrue(t, t.lits[x]);
    }
  }

  /** Making the false literal c[1]. */
  lemma NormalizeKeepsLists(ca: seq<ClauseRec>, ws: Lists, dirty: set<Lit>, r: CRef, n: nat)
    requires ListsOk(ca, ws, dirty, n) && 0 <= r < |ca| && |ca[r].lits| >= 2
    ensures ListsOk(SwapLits(ca, r, 0, 1), ws, dirty, n)
  {
    var ca' := SwapLits(ca, r, 0, 1);
    SwapIsPermutation(ca[r].lits, 0, 1);
    forall q | q in ws ensures ListOk(ca', q, ws[q]) {
      assert ListOk(ca, q, ws[q]);
      forall j | 0 <= j < |ws[q]| ensures EntryOk(ca', q, ws[q][j]) {
        assert EntryOk(ca, q, ws[q][j]);
      }
    }
    forall s | 0 <= s < |ca'| && !ca'[s].deleted ensures ClauseWatched(ws, ca'[s].lits, s) {
      assert ClauseWatched(ws, ca[s].lits, s);
    }
  }

  lemma NormalizeKeepsServed(t: Trail, ca: seq<ClauseRec>, ws: Lists, r: CRef, m: nat)
    requires Served(t, ca, ws, m) && AllListsOk(ca, ws)
    requires 0 <= r < |ca| && |ca[r].lits| >= 2 && ca[r].lits[0] != ca[r].lits[1]
    ensures forall q, w :: EntryOk(ca, q, w) && EntryServed(t, ca, q, w) ==> EntryServed(t, SwapLits(ca, r, 0, 1), q, w)
    ensures Served(t, SwapLits(ca, r, 0, 1), ws, m)
  {
    var ca' := SwapLits(ca, r, 0, 1);
    forall q, w | EntryOk(ca, q, w) && EntryServed(t, ca, q, w) ensures EntryServed(t, ca', q, w) {
      assert OtherWatch(ca'[w.cref].lits, q) == OtherWatch(ca[w.cref].lits, q);
    }
    forall i, j | 0 <= i < m && i < |t.lits| && t.lits[i] in ws && 0 <= j < |ws[t.lits[i]]|
      ensures EntryServed(t, ca', t.lits[i], ws[t.lits[i]][j])
    {
      assert ListOk(ca, t.lits[i], ws[t.lits[i]]) && EntryServed(t, ca, t.lits[i], ws[t.lits[i]][j]);
    }
  }

  /** Replacing a blocker by another literal of the clause. */
  lemma BlockerKeepsList(ca: seq<ClauseRec>, p: Lit, l: seq<Watcher>, j: nat, b: Lit)
    requires ListOk(ca, p, l) && j < |l| && 0 <= l[j].cref < |ca| && b in ca[l[j].cref].lits
    ensures var l' := l[j := Watcher(l[j].cref, b)]; ListOk(ca, p, l') && forall r :: Watched(l, r) ==> Watched(l', r)
  {
    var l' := l[j := Watcher(l[j].cref, b)];
    forall r | Watched(l, r) ensures Watched(l', r) {
      var x :| 0 <= x < |l| && l[x].cref == r;
      assert l'[x].cref == r;
    }
  }

  lemma BlockerKeeps(ca: seq<ClauseRec>, ws: Lists, dirty: set<Lit>, n: nat, p: Lit, j: nat, b: Lit)
    requires ListsOk(ca, ws, dirty, n) && p in ws && j < |ws[p]| && 0 <= ws[p][j].cref < |ca|
    requires b in ca[ws[p][j].cref].lits
    ensures ListsOk(ca, ws[p := ws[p][j := Watcher(ws[p][j].cref, b)]], dirty, n)
  {
    var ws' := ws[p := ws[p][j := Watcher(ws[p][j].cref, b)]];
    BlockerKeepsList(ca, p, ws[p], j, b);
    forall r | 0 <= r < |ca| && !ca[r].deleted ensures ClauseWatched(ws', ca[r].lits, r) {
      assert ClauseWatched(ws, ca[r].lits, r);
    }
  }

  lemma RemoveKeepsList(ca: seq<ClauseRec>, p: Lit, l: seq<Watcher>, j: nat)
    requires ListOk(ca, p, l) && j < |l|
    ensures ListOk(ca, p, l[..j] + l[j + 1..]) && !Watched(l[..j] + l[j + 1..], l[j].cref)
    ensures forall r :: r != l[j].cref && Watched(l, r) ==> Watched(l[..j] + l[j + 1..], r)
  {
    var l' := l[..j] + l[j + 1..];
    assert forall x :: 0 <= x < |l'| ==> l'[x] == l[if x < j then x else x + 1];
    forall r | r != l[j].cref && Watched(l, r) ensures Watched(l', r) {
      var x :| 0 <= x < |l| && l[x].cref == r;
      assert l'[if x < j then x else x - 1].cref == r;
    }
  }

  lemma AddKeepsList(ca: seq<ClauseRec>, q: Lit, l: seq<Watcher>, w: Watcher)
    requires ListOk(ca, q, l) && EntryOk(ca, q, w) && !Watched(l, w.cref)
    ensures ListOk(ca, q, l + [w]) && Watched(l + [w], w.cref)
    ensures forall r :: Watched(l, r) ==> Watched(l + [w], r)
  {
    var l' := l + [w];
    assert l'[|l|] == w;
    forall r | Watched(l, r) ensures Watched(l', r) {
      var x :| 0 <= x < |l| && l[x].cref == r;
      assert l'[x].cref == r;
    }
  }

  /** The watch lists after clause r gives up watching ~p (entry j) for its k-th literal. */
  function Moved(ca: seq<ClauseRec>, ws: Lists, p: Lit, j: nat, k: nat): Lists
    requires p in ws && j < |ws[p]| && 0 <= ws[p][j].cref < |ca|
    requires k < |ca[ws[p][j].cref].lits| && Neg(ca[ws[p][j].cref].lits[k]) in ws
  {
    var c := ca[ws[p][j].cref].lits;
    var rest := ws[p := ws[p][..j] + ws[p][j + 1..]];
    rest[Neg(c[k]) := rest[Neg(c[k])] + [Watcher(ws[p][j].cref, c[0])]]
  }

  /** Exchanging c[1] with a later literal matters only to the list of ~c[1]. */
  lemma SwapKeepsList(ca: seq<ClauseRec>, r: CRef, k: nat, s: Lit, l: seq<Watcher>)
    requires ListOk(ca, s, l) && 0 <= r < |ca| && 2 <= k < |ca[r].lits|
    requires ca[r].lits[1] == Neg(s) ==> !Watched(l, r)
    ensures ListOk(SwapLits(ca, r, 1, k), s, l)
  {
    SwapIsPermutation(ca[r].lits, 1, k);
    forall x | 0 <= x < |l| ensures EntryOk(SwapLits(ca, r, 1, k), s, l[x]) {
      assert EntryOk(ca, s, l[x]);
    }
  }

  lemma NotYetWatched(ca: seq<ClauseRec>, q: Lit, l: seq<Watcher>, r: CRef)
    requires ListOk(ca, q, l) && 0 <= r < |ca| && |ca[r].lits| >= 2
    requires ca[r].lits[0] != Neg(q) && ca[r].lits[1] != Neg(q)
    ensures !Watched(l, r)
  {
  }

  lemma MoveKeepsLists(ca: seq<ClauseRec>, ws: Lists, n: nat, p: Lit, j: nat, k: nat)
    requires ListsOk(ca, ws, {}, n) && ClausesOk(ca, n)
    requires p in ws && j < |ws[p]| && 0 <= ws[p][j].cref < |ca|
    requires 2 <= k < |ca[ws[p][j].cref].lits| && ca[ws[p][j].cref].lits[1] == Neg(p)
    ensures Neg(ca[ws[p][j].cref].lits[k]) in ws
    ensures ListsOk(SwapLits(ca, ws[p][j].cref, 1, k), Moved(ca, ws, p, j, k), {}, n)
  {
    hide AllWatched, DirtyOk;
    var r := ws[p][j].cref;
    var c := ca[r].lits;
    var q := Neg(c[k]);
    assert c[0].v != c[k].v && c[1].v != c[k].v && c[0].v != c[1].v;
    var ca' := SwapLits(ca, r, 1, k);
    var ws': Lists := Moved(ca, ws, p, j, k);
    SwapIsPermutation(c, 1, k);
    RemoveKeepsList(ca, p, ws[p], j);
    NotYetWatched(ca, q, ws[q], r);
    forall s | s in ws && s != p ensures ListOk(ca', s, ws[s]) {
      SwapKeepsList(ca, r, k, s, ws[s]);
    }
    SwapKeepsList(ca, r, k, p, ws[p][..j] + ws[p][j + 1..]);
    AddKeepsList(ca', q, ws[q], Watcher(r, c[0]));
    MoveKeepsWatched(ca, ws, p, j, k);
    MoveKeepsClean(ca, ws, p, j, k);
  }

  lemma MoveKeepsWatched(ca: seq<ClauseRec>, ws: Lists, p: Lit, j: nat, k: nat)
    requires AllWatched(ca, ws)
    requires p in ws && j < |ws[p]| && 0 <= ws[p][j].cref < |ca|
    requires 2 <= k < |ca[ws[p][j].cref].lits| && ca[ws[p][j].cref].lits[1] == Neg(p)
    requires ca[ws[p][j].cref].lits[k] != Neg(p) && ca[ws[p][j].cref].lits[0] != Neg(p)
    requires Neg(ca[ws[p][j].cref].lits[k]) in ws
    requires ListOk(ca, p, ws[p])
    ensures AllWatched(SwapLits(ca, ws[p][j].cref, 1, k), Moved(ca, ws, p, j, k))
  {
    var r := ws[p][j].cref;
    var c := ca[r].lits;
    var q := Neg(c[k]);
    var ca' := SwapLits(ca, r, 1, k);
    var ws': Lists := Moved(ca, ws, p, j, k);
    RemoveKeepsList(ca, p, ws[p], j);
    assert ws'[q][|ws[q]|].cref == r;
    forall s | Watched(ws[q], s) ensures Watched(ws'[q], s) {
      var x :| 0 <= x < |ws[q]| && ws[q][x].cref == s;
      assert ws'[q][x].cref == s;
    }
    forall s | 0 <= s < |ca'| && !ca'[s].deleted ensures ClauseWatched(ws', ca'[s].lits, s) {
      assert ClauseWatched(ws, ca[s].lits, s);
    }
  }

  lemma MoveKeepsClean(ca: seq<ClauseRec>, ws: Lists, p: Lit, j: nat, k: nat)
    requires DirtyOk(ca, ws, {})
    requires p in ws && j < |ws[p]| && 0 <= ws[p][j].cref < |ca|
    requires 2 <= k < |ca[ws[p][j].cref].lits| && ca[ws[p][j].cref].lits[k] != Neg(p)
    requires Neg(ca[ws[p][j].cref].lits[k]) in ws
    ensures DirtyOk(SwapLits(ca, ws[p][j].cref, 1, k), Moved(ca, ws, p, j, k), {})
  {
    var ca' := SwapLits(ca, ws[p][j].cref, 1, k);
    var ws': Lists := Moved(ca, ws, p, j, k);
    assert !ca[ws[p][j].cref].deleted;
    forall s, x | s in ws' && 0 <= x < |ws'[s]| && 0 <= ws'[s][x].cref < |ca'| ensures !ca'[ws'[s][x].cref].deleted {
      if s == p {
        assert ws'[p][x] == ws[p][if x < j then x else x + 1];
      }
    }
  }

  lemma MoveKeepsServed(t: Trail, ca: seq<ClauseRec>, ws: Lists, m: nat, p: Lit, j: nat, k: nat)
    requires PropOk(t, ca, ws, {}) && Served(t, ca, ws, m) && IsTrue(t, p) && m <= Pos(t, p)
    requires p in ws && j < |ws[p]| && 0 <= ws[p][j].cref < |ca|
    requires 2 <= k < |ca[ws[p][j].cref].lits| && ca[ws[p][j].cref].lits[1] == Neg(p)
    requires !IsFalse(t, ca[ws[p][j].cref].lits[k]) && Neg(ca[ws[p][j].cref].lits[k]) in ws
    ensures Served(t, SwapLits(ca, ws[p][j].cref, 1, k), Moved(ca, ws, p, j, k), m)
    ensures forall q, w: Watcher :: w.cref != ws[p][j].cref && EntryServed(t, ca, q, w) ==>
      EntryServed(t, SwapLits(ca, ws[p][j].cref, 1, k), q, w)
  {
    var r := ws[p][j].cref;
    var ca' := SwapLits(ca, r, 1, k);
    var ws': Lists := Moved(ca, ws, p, j, k);
    forall i, x | 0 <= i < m && i < |t.lits| && t.lits[i] in ws' && 0 <= x < |ws'[t.lits[i]]|
      ensures EntryServed(t, ca', t.lits[i], ws'[t.lits[i]][x])
    {
      MoveKeepsEntryServed(t, ca, ws, m, p, j, k, i, x);
    }
    hide PropOk, Served, Moved;
  }

  lemma MoveKeepsEntryServed(t: Trail, ca: seq<ClauseRec>, ws: Lists, m: nat, p: Lit, j: nat, k: nat, i: nat, x: nat)
    requires PropOk(t, ca, ws, {}) && Served(t, ca, ws, m) && IsTrue(t, p) && m <= Pos(t, p)
    requires p in ws && j < |ws[p]| && 0 <= ws[p][j].cref < |ca|
    requires 2 <= k < |ca[ws[p][j].cref].lits| && ca[ws[p][j].cref].lits[1] == Neg(p)
    requires !IsFalse(t, ca[ws[p][j].cref].lits[k]) && Neg(ca[ws[p][j].cref].lits[k]) in ws
    requires i < m && i < |t.lits| && t.lits[i] in Moved(ca, ws, p, j, k) && x < |Moved(ca, ws, p, j, k)[t.lits[i]]|
    ensures EntryServed(t, SwapLits(ca, ws[p][j].cref, 1, k), t.lits[i], Moved(ca, ws, p, j, k)[t.lits[i]][x])
  {
    var c := ca[ws[p][j].cref].lits;
    var q := t.lits[i];
    assert q != p && q != Neg(c[k]);
    assert ListOk(ca, q, ws[q]) && EntryOk(ca, q, ws[q][x]) && EntryServed(t, ca, q, ws[q][x]);
  }

  // ---------- steps that leave the lists alone ----------

  /** t' continues t by literals that clauses force. */
  ghost predicate Propagated(t: Trail, t': Trail) {
    Extends(t, t') && forall i :: |t.lits| <= i < |t'.lits| ==> Reason(t', t'.lits[i]) != CREF_UNDEF
  }

  lemma PropagatedIsTransitive(t: Trail, t': Trail, t'': Trail)
    requires TrailOk(t) && TrailOk(t') && Propagated(t, t') && Propagated(t', t'')
    ensures Propagated(t, t'') && |t''.assigns| == |t'.assigns| == |t.assigns| && |t''.lits| >= |t'.lits|
  {
    forall i | |t.lits| <= i < |t''.lits| ensures Reason(t'', t''.lits[i]) != CREF_UNDEF {
      if i < |t'.lits| {
        assert t''.lits[i] == t'.lits[i];
      }
    }
    forall v | 0 <= v < |t.assigns| && t.assigns[v] != LUndef ensures t''.assigns[v] == t.assigns[v] {
      assert t'.assigns[v] == t.assigns[v];
    }
  }

  lemma ExtendKeepsServed(t: Trail, t': Trail, ca: seq<ClauseRec>, ws: Lists, m: nat)
    requires TrailOk(t) && TrailOk(t') && Extends(t, t')
    ensures forall q, w :: IsTrue(t, q) && EntryServed(t, ca, q, w) ==> EntryServed(t', ca, q, w)
    ensures Served(t, ca, ws, m) && m <= |t.lits| ==> Served(t', ca, ws, m)
  {
    if Served(t, ca, ws, m) && m <= |t.lits| {
      forall i, j | 0 <= i < m && i < |t'.lits| && t'.lits[i] in ws && 0 <= j < |ws[t'.lits[i]]|
        ensures EntryServed(t', ca, t'.lits[i], ws[t'.lits[i]][j])
      {
        assert EntryServed(t, ca, t.lits[i], ws[t.lits[i]][j]);
      }
    }
  }

  ghost predicate QueueOk(t: Trail, qhead: nat) { qhead <= |t.lits| && (|t.lim| > 0 ==> t.lim[|t.lim| - 1] <= qhead) }

  lemma LevelIsAtMostCurrent(t: Trail, p: Lit)
    requires TrailOk(t) && IsTrue(t, p)
    ensures Level(t, p) <= |t.lim|
  {
    TrueIsOnStack(t, p);
    assert LevelAt(t, Pos(t, p), Level(t, p));
  }

  // ---------- lazy deletion ----------

  /** Every dirty list is on the list of those to clean. */
  ghost predicate DirtiesListed(ws: Lists, dirty: set<Lit>, dirties: seq<Lit>) {
    forall q :: q in dirty ==> q in dirties && q in ws
  }

  predicate IsDeleted(ca: seq<ClauseRec>, r: CRef) { 0 <= r < |ca| && ca[r].deleted }

  /** The list without its deleted watchers, in order. */
  function Cleaned(ca: seq<ClauseRec>, l: seq<Watcher>): seq<Watcher> {
    if l == [] then []
    else Cleaned(ca, l[..|l| - 1]) + if IsDeleted(ca, l[|l| - 1].cref) then [] else [l[|l| - 1]]
  }

  lemma CleanedHasTheLive(ca: seq<ClauseRec>, l: seq<Watcher>, w: Watcher)
    ensures w in Cleaned(ca, l) <==> w in l && !IsDeleted(ca, w.cref)
  {
    if l != [] {
      CleanedHasTheLive(ca, l[..|l| - 1], w);
      assert l == l[..|l| - 1] + [l[|l| - 1]];
    }
  }

  lemma CleanedKeepsList(ca: seq<ClauseRec>, q: Lit, l: seq<Watcher>)
    requires ListOk(ca, q, l)
    ensures ListOk(ca, q, Cleaned(ca, l))
    ensures forall j :: 0 <= j < |Cleaned(ca, l)| ==> !ca[Cleaned(ca, l)[j].cref].deleted
    ensures forall r :: Watched(l, r) && !IsDeleted(ca, r) ==> Watched(Cleaned(ca, l), r)
  {
    var l' := Cleaned(ca, l);
    CleanedIsDistinct(ca, q, l);
    forall j | 0 <= j < |l'| ensures EntryOk(ca, q, l'[j]) && !ca[l'[j].cref].deleted {
      CleanedHasTheLive(ca, l, l'[j]);
    }
    forall r | Watched(l, r) && !IsDeleted(ca, r) ensures Watched(l', r) {
      var x :| 0 <= x < |l| && l[x].cref == r;
      CleanedHasTheLive(ca, l, l[x]);
    }
  }

  lemma CleanedIsDistinct(ca: seq<ClauseRec>, q: Lit, l: seq<Watcher>)
    requires ListOk(ca, q, l)
    ensures forall i, j :: 0 <= i < j < |Cleaned(ca, l)| ==> Cleaned(ca, l)[i].cref != Cleaned(ca, l)[j].cref
  {
    if l != [] {
      var f := l[..|l| - 1];
      CleanedIsDistinct(ca, q, f);
      forall i | 0 <= i < |Cleaned(ca, f)| ensures Cleaned(ca, f)[i].cref != l[|l| - 1].cref {
        CleanedHasTheLive(ca, f, Cleaned(ca, f)[i]);
        var x :| 0 <= x < |f| && f[x] == Cleaned(ca, f)[i];
        assert l[x] == f[x];
      }
    }
  }

  lemma CleanKeeps(t: Trail, ca: seq<ClauseRec>, ws: Lists, dirty: set<Lit>, n: nat, q: Lit)
    requires ListsOk(ca, ws, dirty, n) && q in ws
    ensures ListsOk(ca, ws[q := Cleaned(ca, ws[q])], dirty - {q}, n)
    ensures forall m: nat :: Served(t, ca, ws, m) ==> Served(t, ca, ws[q := Cleaned(ca, ws[q])], m)
  {
    var ws': Lists := ws[q := Cleaned(ca, ws[q])];
    CleanedKeepsList(ca, q, ws[q]);
    forall r | 0 <= r < |ca| && !ca[r].deleted ensures ClauseWatched(ws', ca[r].lits, r) {
      assert ClauseWatched(ws, ca[r].lits, r);
    }
    forall m: nat | Served(t, ca, ws, m) ensures Served(t, ca, ws', m) {
      forall i, j | 0 <= i < m && i < |t.lits| && t.lits[i] in ws' && 0 <= j < |ws'[t.lits[i]]|
        ensures EntryServed(t, ca, t.lits[i], ws'[t.lits[i]][j])
      {
        if t.lits[i] == q {
          CleanedHasTheLive(ca, ws[q], ws'[q][j]);
          var x :| 0 <= x < |ws[q]| && ws[q][x] == ws'[q][j];
          assert EntryServed(t, ca, q, ws[q][x]);
        }
      }
    }
  }
}
