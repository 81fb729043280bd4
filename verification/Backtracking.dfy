/** cancelUntil, on values. */
module Backtracking {
  import opened SolverTypes
  import opened Trails
  import opened Watches
  import opened Propagation

  /** The trail with every level above l undone. */
  ghost function Cancelled(t: Trail, l: nat): Trail
    requires TrailOk(t)
  {
    if |t.lim| <= l then t
    else t.(assigns := seq(|t.assigns|, v requires 0 <= v < |t.assigns| =>
                         if t.assigns[v] != LUndef && v < |t.pos| && t.pos[v] >= t.lim[l]
                           then LUndef else t.assigns[v]),
            lits := t.lits[..t.lim[l]], lim := t.lim[..l])
  }

  /** The assignment once the stack is undone down to index c. */
  ghost function Undone(t: Trail, c: nat): seq<LBool> {
    seq(|t.assigns|, v requires 0 <= v < |t.assigns| =>
      if t.assigns[v] != LUndef && v < |t.pos| && t.pos[v] >= c then LUndef else t.assigns[v])
  }

  lemma StartUndo(t: Trail)
    requires TrailOk(t)
    ensures Undone(t, |t.lits|) == t.assigns
  {
  }

  lemma UndoOne(t: Trail, c: nat)
    requires TrailOk(t) && c < |t.lits|
    ensures t.lits[c].v < |t.assigns| && Undone(t, c) == Undone(t, c + 1)[t.lits[c].v := LUndef]
  {
  }

  lemma FinishUndo(t: Trail, l: nat)
    requires TrailOk(t) && l < |t.lim|
    ensures Cancelled(t, l) == t.(assigns := Undone(t, t.lim[l]), lits := t.lits[..t.lim[l]], lim := t.lim[..l])
  {
  }

  lemma KeepAll(t: Trail, l: nat)
    requires TrailOk(t) && |t.lim| <= l
    ensures Cancelled(t, l) == t
  {
  }

  /** Exactly the literals of levels up to l keep their value, level, reason and position. */
  lemma CancelKeepsLowLevels(t: Trail, l: nat, p: Lit)
    requires TrailOk(t) && p.v < |t.assigns| && l <= |t.lim|
    ensures IsTrue(Cancelled(t, l), p) <==> IsTrue(t, p) && Level(t, p) <= l
    ensures IsFalse(Cancelled(t, l), p) <==> IsFalse(t, p) && Level(t, p) <= l
    ensures Level(Cancelled(t, l), p) == Level(t, p) && Pos(Cancelled(t, l), p) == Pos(t, p)
    ensures Reason(Cancelled(t, l), p) == Reason(t, p)
  {
    if t.assigns[p.v] != LUndef {
      LevelFromPos(t, t.pos[p.v], l);
    }
  }

  lemma CancelKeepsTrail(t: Trail, l: nat)
    requires TrailOk(t)
    ensures TrailOk(Cancelled(t, l))
  {
    var t' := Cancelled(t, l);
    if |t.lim| > l {
      forall i | 0 <= i < |t'.lits| ensures LevelAt(t', i, Level(t', t'.lits[i])) {
        assert LevelAt(t, i, Level(t, t.lits[i]));
        LevelFromPos(t, i, l);
      }
    }
  }

  lemma CancelKeepsReasons(t: Trail, ca: seq<ClauseRec>, l: nat)
    requires TrailOk(t) && ReasonsOk(t, ca)
    ensures ReasonsOk(Cancelled(t, l), ca)
  {
    var t' := Cancelled(t, l);
    if |t.lim| > l {
      forall i | 0 <= i < |t'.lits| ensures ReasonAt(t', ca, i) {
        assert ReasonAt(t, ca, i) && t'.lits[i] == t.lits[i];
        LevelFromPos(t, i, l);
        var r := Reason(t, t.lits[i]);
        if r != CREF_UNDEF {
          forall k | 1 <= k < |ca[r].lits| ensures IsFalse(t', ca[r].lits[k]) {
            FalseIsOnStack(t, ca[r].lits[k]);
          }
        }
      }
    }
  }

  lemma CancelKeepsServed(t: Trail, ca: seq<ClauseRec>, ws: Lists, l: nat, m: nat)
    requires TrailOk(t) && l < |t.lim| && t.lim[l] <= m && Served(t, ca, ws, m)
    requires AllListsOk(ca, ws) && ClausesOk(ca, |t.assigns|)
    ensures Served(Cancelled(t, l), ca, ws, t.lim[l])
  {
    var t' := Cancelled(t, l);
    forall i, j | 0 <= i < t.lim[l] && t'.lits[i] in ws && 0 <= j < |ws[t'.lits[i]]|
      ensures EntryServed(t', ca, t'.lits[i], ws[t'.lits[i]][j])
    {
      var q := t.lits[i];
      var w := ws[q][j];
      assert ListOk(ca, q, ws[q]) && EntryOk(ca, q, w) && EntryServed(t, ca, q, w);
      LevelFromPos(t, i, l);
      CancelKeepsLowLevels(t, l, w.blocker);
      CancelKeepsLowLevels(t, l, OtherWatch(ca[w.cref].lits, q));
      CancelKeepsLowLevels(t, l, q);
    }
  }

  /** Undoing levels after a conflict restores the invariant, with the watch lists untouched. */
  lemma CancelRestoresIdle(t: Trail, ca: seq<ClauseRec>, ws: Lists, l: nat)
    requires Halted(t, ca, ws) && l < |t.lim|
    ensures Idle(Cancelled(t, l), ca, ws, {}, t.lim[l])
  {
    hide AllListsOk, AllWatched, ClausesOk, ReasonsOk, Served;
    CancelKeepsTrail(t, l);
    CancelKeepsReasons(t, ca, l);
    CancelKeepsServed(t, ca, ws, l, t.lim[|t.lim| - 1]);
  }

  lemma CancelKeepsIdle(t: Trail, ca: seq<ClauseRec>, ws: Lists, dirty: set<Lit>, l: nat, q: nat)
    requires Idle(t, ca, ws, dirty, q) && l < |t.lim|
    ensures Idle(Cancelled(t, l), ca, ws, dirty, t.lim[l])
  {
    hide AllListsOk, AllWatched, ClausesOk, ReasonsOk, Served;
    CancelKeepsTrail(t, l);
    CancelKeepsReasons(t, ca, l);
    CancelKeepsServed(t, ca, ws, l, q);
  }
}
