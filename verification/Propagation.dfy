/** One step of the scan of a watch list, on values: what each outcome keeps. */
module Propagation {
  import opened SolverTypes
  import opened Trails
  import opened Watches

  /** The list of the literal p = t.lits[q - 1] is being scanned; its first j entries are served. */
  ghost predicate Scanning(t: Trail, ca: seq<ClauseRec>, ws: Lists, q: nat, p: Lit, j: nat) {
    && PropOk(t, ca, ws, {})
    && 0 < q <= |t.lits| && t.lits[q - 1] == p && p in ws && j <= |ws[p]|
    && (|t.lim| > 0 ==> t.lim[|t.lim| - 1] < q)
    && Served(t, ca, ws, q - 1)
    && forall x :: 0 <= x < j ==> EntryServed(t, ca, p, ws[p][x])
  }

  /** Between scans: the first q literals are served. */
  ghost predicate Idle(t: Trail, ca: seq<ClauseRec>, ws: Lists, dirty: set<Lit>, q: nat) {
    PropOk(t, ca, ws, dirty) && QueueOk(t, q) && Served(t, ca, ws, q)
  }

  /** After a conflict only the lower levels are known to be served. */
  ghost predicate Halted(t: Trail, ca: seq<ClauseRec>, ws: Lists) {
    PropOk(t, ca, ws, {}) && (|t.lim| > 0 ==> Served(t, ca, ws, t.lim[|t.lim| - 1]))
  }

  lemma StartScan(t: Trail, ca: seq<ClauseRec>, ws: Lists, q: nat)
    requires Idle(t, ca, ws, {}, q) && q < |t.lits|
    ensures Scanning(t, ca, ws, q + 1, t.lits[q], 0)
  {
  }

  lemma FinishScan(t: Trail, ca: seq<ClauseRec>, ws: Lists, q: nat, p: Lit, j: nat)
    requires Scanning(t, ca, ws, q, p, j)
    ensures Halted(t, ca, ws)
    ensures j == |ws[p]| ==> Idle(t, ca, ws, {}, q)
  {
    if j == |ws[p]| {
      forall i, x | 0 <= i < q && i < |t.lits| && t.lits[i] in ws && 0 <= x < |ws[t.lits[i]]|
        ensures EntryServed(t, ca, t.lits[i], ws[t.lits[i]][x])
      {
        if i == q - 1 { assert t.lits[i] == p; }
      }
    }
  }

  lemma CleanKeepsIdle(t: Trail, ca: seq<ClauseRec>, ws: Lists, dirty: set<Lit>, q: nat, s: Lit)
    requires Idle(t, ca, ws, dirty, q) && s in ws
    ensures Idle(t, ca, ws[s := Cleaned(ca, ws[s])], dirty - {s}, q)
  {
    CleanKeeps(t, ca, ws, dirty, |t.assigns|, s);
  }

  lemma ReorderedIsTransitive(ca: seq<ClauseRec>, ca': seq<ClauseRec>, ca'': seq<ClauseRec>)
    requires Reordered(ca, ca') && Reordered(ca', ca'')
    ensures Reordered(ca, ca'')
  {
  }

  lemma PropagatedIsReflexive(t: Trail, ca: seq<ClauseRec>)
    ensures Propagated(t, t) && Reordered(ca, ca)
  {
  }

  lemma TrailFits(t: Trail)
    requires TrailOk(t)
    ensures |t.lits| <= |t.assigns|
  {
    StackFits(t);
  }

  lemma IdleFits(t: Trail, ca: seq<ClauseRec>, ws: Lists, dirty: set<Lit>, q: nat)
    requires Idle(t, ca, ws, dirty, q)
    ensures q <= |t.lits| <= |t.assigns| && TrailOk(t) && ListsOk(ca, ws, dirty, |t.assigns|)
  {
    StackFits(t);
  }

  lemma ScanFits(t: Trail, ca: seq<ClauseRec>, ws: Lists, q: nat, p: Lit, j: nat)
    requires Scanning(t, ca, ws, q, p, j)
    ensures TrailOk(t) && q <= |t.lits| && p in ws && j <= |ws[p]|
  {
  }

  lemma ScannedIsCurrent(t: Trail, ca: seq<ClauseRec>, ws: Lists, q: nat, p: Lit, j: nat)
    requires Scanning(t, ca, ws, q, p, j)
    ensures IsTrue(t, p) && Level(t, p) == |t.lim| && Pos(t, p) == q - 1
  {
    assert LevelAt(t, q - 1, Level(t, p));
  }

  lemma EntryIsOk(t: Trail, ca: seq<ClauseRec>, ws: Lists, q: nat, p: Lit, j: nat)
    requires Scanning(t, ca, ws, q, p, j) && j < |ws[p]|
    ensures p in ws && |t.vardata| == |t.assigns| && |t.pos| == |t.assigns|
    ensures EntryOk(ca, p, ws[p][j]) && !ca[ws[p][j].cref].deleted
    ensures InRange(ca[ws[p][j].cref].lits, |t.assigns|) && ws[p][j].blocker.v < |t.assigns|
    ensures ca[ws[p][j].cref].lits[0].v != ca[ws[p][j].cref].lits[1].v
  {
    assert ListOk(ca, p, ws[p]);
  }

  lemma BlockerTrue(t: Trail, ca: seq<ClauseRec>, ws: Lists, q: nat, p: Lit, j: nat)
    requires Scanning(t, ca, ws, q, p, j) && j < |ws[p]| && IsTrue(t, ws[p][j].blocker)
    ensures Scanning(t, ca, ws, q, p, j + 1)
  {
    ScannedIsCurrent(t, ca, ws, q, p, j);
    LevelIsAtMostCurrent(t, ws[p][j].blocker);
  }

  lemma Normalize(t: Trail, ca: seq<ClauseRec>, ws: Lists, q: nat, p: Lit, j: nat)
    requires Scanning(t, ca, ws, q, p, j) && j < |ws[p]|
    requires EntryOk(ca, p, ws[p][j]) && ca[ws[p][j].cref].lits[0] == Neg(p)
    ensures Scanning(t, SwapLits(ca, ws[p][j].cref, 0, 1), ws, q, p, j)
    ensures Reordered(ca, SwapLits(ca, ws[p][j].cref, 0, 1))
  {
    ScannedIsCurrent(t, ca, ws, q, p, j);
    EntryIsOk(t, ca, ws, q, p, j);
    var r := ws[p][j].cref;
    var ca' := SwapLits(ca, r, 0, 1);
    SwapReorders(ca, r, 0, 1, |t.assigns|);
    SwapKeepsReasons(t, ca, r, 0, 1);
    NormalizeKeepsLists(ca, ws, {}, r, |t.assigns|);
    NormalizeKeepsServed(t, ca, ws, r, q - 1);
    forall x | 0 <= x < j ensures EntryServed(t, ca', p, ws[p][x]) {
      assert ListOk(ca, p, ws[p]) && EntryServed(t, ca, p, ws[p][x]);
    }
  }

  /** The clause keeps watching ~p, with a new blocker. */
  lemma Reblock(t: Trail, ca: seq<ClauseRec>, ws: Lists, q: nat, p: Lit, j: nat, b: Lit)
    requires Scanning(t, ca, ws, q, p, j) && j < |ws[p]|
    requires EntryOk(ca, p, ws[p][j]) && b in ca[ws[p][j].cref].lits
    ensures Scanning(t, ca, ws[p := ws[p][j := Watcher(ws[p][j].cref, b)]], q, p, j)
  {
    hide ReasonsOk, ClausesOk, ListsOk;
    ScannedIsCurrent(t, ca, ws, q, p, j);
    var ws': Lists := ws[p := ws[p][j := Watcher(ws[p][j].cref, b)]];
    BlockerKeeps(ca, ws, {}, |t.assigns|, p, j, b);
    forall i, x | 0 <= i < q - 1 && i < |t.lits| && t.lits[i] in ws' && 0 <= x < |ws'[t.lits[i]]|
      ensures EntryServed(t, ca, t.lits[i], ws'[t.lits[i]][x])
    {
      assert Pos(t, t.lits[i]) == i;
      assert EntryServed(t, ca, t.lits[i], ws[t.lits[i]][x]);
    }
    forall x | 0 <= x < j ensures EntryServed(t, ca, p, ws'[p][x]) {
      assert EntryServed(t, ca, p, ws[p][x]);
    }
  }

  lemma Move(t: Trail, ca: seq<ClauseRec>, ws: Lists, q: nat, p: Lit, j: nat, k: nat)
    requires Scanning(t, ca, ws, q, p, j) && j < |ws[p]|
    requires EntryOk(ca, p, ws[p][j]) && ca[ws[p][j].cref].lits[1] == Neg(p)
    requires 2 <= k < |ca[ws[p][j].cref].lits| && !IsFalse(t, ca[ws[p][j].cref].lits[k])
    requires !IsTrue(t, ca[ws[p][j].cref].lits[0])
    ensures Neg(ca[ws[p][j].cref].lits[k]) in ws && Neg(ca[ws[p][j].cref].lits[k]) != p
    ensures var ca' := SwapLits(ca, ws[p][j].cref, 1, k);
      Scanning(t, ca', Moved(ca, ws, p, j, k), q, p, j) && Reordered(ca, ca')
  {
    var r := ws[p][j].cref;
    ScannedIsCurrent(t, ca, ws, q, p, j);
    SwapReorders(ca, r, 1, k, |t.assigns|);
    SwapKeepsReasons(t, ca, r, 1, k);
    MoveKeepsLists(ca, ws, |t.assigns|, p, j, k);
    MoveKeepsServed(t, ca, ws, q - 1, p, j, k);
    var ca' := SwapLits(ca, r, 1, k);
    var ws': Lists := Moved(ca, ws, p, j, k);
    assert ListOk(ca, p, ws[p]);
    forall x | 0 <= x < j ensures EntryServed(t, ca', p, ws'[p][x]) {
      assert ws'[p][x] == ws[p][x] && ws[p][x].cref != r;
      assert EntryServed(t, ca, p, ws[p][x]);
    }
  }

  /** The clause is unit: its first literal is enqueued. */
  lemma Unit(t: Trail, ca: seq<ClauseRec>, ws: Lists, q: nat, p: Lit, j: nat)
    requires Scanning(t, ca, ws, q, p, j) && j < |ws[p]|
    requires EntryOk(ca, p, ws[p][j]) && !ca[ws[p][j].cref].deleted
    requires var c := ca[ws[p][j].cref].lits;
      && c[1] == Neg(p) && c[0].v < |t.assigns| && t.assigns[c[0].v] == LUndef
      && forall k :: 1 <= k < |c| ==> IsFalse(t, c[k])
    ensures var t' := Enqueued(t, ca[ws[p][j].cref].lits[0], ws[p][j].cref);
      Scanning(t', ca, ws, q, p, j + 1) && Propagated(t, t')
  {
    hide ListsOk, ReasonsOk, ClausesOk, TrailOk, Extends;
    EntryIsOk(t, ca, ws, q, p, j);
    var c := ca[ws[p][j].cref].lits;
    var t' := Enqueued(t, c[0], ws[p][j].cref);
    ScannedIsCurrent(t, ca, ws, q, p, j);
    EnqueueKeepsTrail(t, c[0], ws[p][j].cref);
    EnqueueKeepsReasons(t, ca, c[0], ws[p][j].cref);
    ExtendKeepsServed(t, t', ca, ws, q - 1);
    forall x | 0 <= x < j + 1 ensures EntryServed(t', ca, p, ws[p][x]) {
      if x < j {
        assert EntryServed(t, ca, p, ws[p][x]);
      } else {
        assert IsTrue(t', OtherWatch(c, p)) && Level(t', p) == |t.lim|;
      }
    }
  }

  /** The other watch is true already. */
  lemma OtherTrue(t: Trail, ca: seq<ClauseRec>, ws: Lists, q: nat, p: Lit, j: nat)
    requires Scanning(t, ca, ws, q, p, j) && j < |ws[p]| && EntryOk(ca, p, ws[p][j])
    requires ca[ws[p][j].cref].lits[1] == Neg(p) && IsTrue(t, ca[ws[p][j].cref].lits[0])
    ensures Scanning(t, ca, ws, q, p, j + 1)
  {
    ScannedIsCurrent(t, ca, ws, q, p, j);
    LevelIsAtMostCurrent(t, ca[ws[p][j].cref].lits[0]);
  }
}
