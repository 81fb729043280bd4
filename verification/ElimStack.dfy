/** The flat elimination stack: clauses as integers, each followed by its length; read backwards. */
module ElimStack {
  import opened SolverTypes
  import opened Elimination

  function Ints(c: seq<Lit>): seq<nat> { seq(|c|, i requires 0 <= i < |c| => ToInt(c[i])) }

  /** The flat form of a stack of entries. */
  ghost function Flat(recs: seq<seq<Lit>>): seq<nat> {
    if recs == [] then [] else Flat(recs[..|recs| - 1]) + Ints(recs[|recs| - 1]) + [|recs[|recs| - 1]|]
  }

  lemma FlatAppend(recs: seq<seq<Lit>>, c: seq<Lit>)
    ensures Flat(recs + [c]) == Flat(recs) + Ints(c) + [|c|]
  {
    assert (recs + [c])[..|recs|] == recs;
  }

  // ---------- undoing the stack on a solver model ----------

  function ModelValue(m: seq<LBool>, p: Lit): LBool { if p.v < |m| then LXor(m[p.v], p.sign) else LUndef }

  function ModelSet(m: seq<LBool>, p: Lit): seq<LBool>
  {
    if p.v < |m| then m[p.v := if p.sign then LFalse else LTrue] else m
  }

  ghost function FixedL(m: seq<LBool>, c: seq<Lit>): seq<LBool>
    requires |c| > 0
  {
    if exists k :: 1 <= k < |c| && ModelValue(m, c[k]) != LFalse then m else ModelSet(m, c[0])
  }

  ghost function ExtendedL(m: seq<LBool>, recs: seq<seq<Lit>>): seq<LBool>
    requires EntriesOk(recs)
    decreases |recs|
  {
    if recs == [] then m else ExtendedL(FixedL(m, recs[|recs| - 1]), recs[..|recs| - 1])
  }

  /** One entry, whose length is at index i0; i becomes the index of the length below, or -1. */
  method UndoEntry(elimclauses: seq<nat>, i0: nat, m0: seq<LBool>, ghost c: seq<Lit>, ghost f: nat)
      returns (m: seq<LBool>, i: int)
    requires |c| > 0 && i0 == f + |c| < |elimclauses| && elimclauses[i0] == |c|
    requires forall x :: 0 <= x < |c| ==> ToLit(elimclauses[f + x]) == c[x]
    ensures m == FixedL(m0, c) && i == f - 1
  {
    m := m0;
    var j: int := elimclauses[i0];
    i := i0 - 1;
    while j > 1 && ModelValue(m, ToLit(elimclauses[i])) == LFalse
      invariant 1 <= j <= |c| && i == f + j - 1
      invariant forall x :: j <= x < |c| ==> ModelValue(m, c[x]) == LFalse
    {
      assert ToLit(elimclauses[f + (j - 1)]) == c[j - 1];
      j, i := j - 1, i - 1;
    }
    if j <= 1 {
      assert ToLit(elimclauses[f + 0]) == c[0];
      m := ModelSet(m, ToLit(elimclauses[i]));
    } else {
      assert ToLit(elimclauses[f + (j - 1)]) == c[j - 1];
    }
    i := i - j;
  }

  /** extendModel: walk the flat stack backwards. */
  method ExtendModel(elimclauses: seq<nat>, m0: seq<LBool>, ghost recs: seq<seq<Lit>>) returns (m: seq<LBool>)
    requires EntriesOk(recs) && elimclauses == Flat(recs)
    ensures m == ExtendedL(m0, recs)
  {
    hide Flat, FixedL;
    m := m0;
    var i: int := |elimclauses| - 1;
    ghost var k := |recs|;
    assert recs[..k] == recs;
    while i > 0
      invariant 0 <= k <= |recs| && i == |Flat(recs[..k])| - 1 && Flat(recs[..k]) <= elimclauses
      invariant ExtendedL(m, recs[..k]) == ExtendedL(m0, recs)
      decreases k
    {
      if k == 0 { FlatIsEmpty(recs[..k]); }
      TopEntry(recs, k, elimclauses);
      m, i := UndoEntry(elimclauses, i, m, recs[k - 1], |Flat(recs[..k - 1])|);
      k := k - 1;
    }
    if k > 0 { FlatIsLong(recs[..k]); }
    assert k == 0;
  }

  lemma FlatIsEmpty(recs: seq<seq<Lit>>)
    requires recs == []
    ensures Flat(recs) == []
  {
  }

  lemma TopEntry(recs: seq<seq<Lit>>, k: nat, flat: seq<nat>)
    requires EntriesOk(recs) && 0 < k <= |recs| && Flat(recs[..k]) <= flat
    ensures var c, f := recs[k - 1], |Flat(recs[..k - 1])|;
      && recs[..k][..k - 1] == recs[..k - 1] && recs[..k][k - 1] == c && |c| > 0
      && |Flat(recs[..k])| == f + |c| + 1 && Flat(recs[..k - 1]) <= flat
      && flat[f + |c|] == |c| && forall x :: 0 <= x < |c| ==> ToLit(flat[f + x]) == c[x]
  {
    var c, g := recs[k - 1], Flat(recs[..k - 1]);
    assert recs[..k] == recs[..k - 1] + [c];
    FlatAppend(recs[..k - 1], c);
    var h := g + Ints(c) + [|c|];
    assert h[|g| + |c|] == |c|;
    assert forall x :: 0 <= x < |g| ==> g[x] == h[x] && h[x] == flat[x];
    forall x | 0 <= x < |c| ensures ToLit(flat[|g| + x]) == c[x] {
      assert h[|g| + x] == ToInt(c[x]);
      ToIntIsABijection(c[x], 0);
    }
  }

  lemma FlatIsLong(recs: seq<seq<Lit>>)
    requires EntriesOk(recs) && recs != []
    ensures |Flat(recs)| >= 2
  {
  }

  // ---------- what the solver model means ----------

  /** On the variables in known, the solver model is defined and as a. */
  ghost predicate AgreeOn(a: Model, m: seq<LBool>, known: set<Var>) {
    forall v :: v in known ==> v < |m| && m[v] != LUndef && (v in a <==> m[v] == LTrue)
  }

  ghost function UnitVars(recs: seq<seq<Lit>>): set<Var> {
    if recs == [] then {}
    else UnitVars(recs[..|recs| - 1]) + var c := recs[|recs| - 1]; if |c| == 1 then {c[0].v} else {}
  }

  /** From the top down, every entry but a default finds all its variables defined. */
  ghost predicate Grounded(recs: seq<seq<Lit>>, known: set<Var>) {
    recs == [] ||
    var c := recs[|recs| - 1];
    if |c| == 1 then Grounded(recs[..|recs| - 1], known + {c[0].v})
    else (forall k :: 0 <= k < |c| ==> c[k].v in known) && Grounded(recs[..|recs| - 1], known)
  }

  lemma {:induction false} ExtensionsAgree(a: Model, m: seq<LBool>, recs: seq<seq<Lit>>, known: set<Var>)
    requires EntriesOk(recs) && Grounded(recs, known) && AgreeOn(a, m, known)
    requires forall v :: v in UnitVars(recs) ==> v < |m|
    ensures |ExtendedL(m, recs)| == |m|
    ensures AgreeOn(Extended(a, recs), ExtendedL(m, recs), known + UnitVars(recs))
    decreases |recs|
  {
    if recs == [] {
      assert known + UnitVars(recs) == known;
    } else {
      var c, front := recs[|recs| - 1], recs[..|recs| - 1];
      var a', m' := Fixed(a, c), FixedL(m, c);
      assert UnitVars(front) <= UnitVars(recs);
      if |c| == 1 {
        ExtensionsAgree(a', m', front, known + {c[0].v});
        assert known + {c[0].v} + UnitVars(front) == known + UnitVars(recs);
      } else {
        forall k | 1 <= k < |c| ensures ModelValue(m, c[k]) != LFalse <==> Holds(a, c[k]) {
          assert c[k].v in known;
        }
        assert c[0].v in known;
        ExtensionsAgree(a', m', front, known);
        assert known + UnitVars(front) == known + UnitVars(recs);
      }
    }
  }

  /** Pushing the block of a further eliminated variable. */
  lemma {:induction false} BlockIsGrounded(recs: seq<seq<Lit>>, entries: seq<seq<Lit>>, p: Lit, known: set<Var>)
    requires Grounded(recs, known) && p.v in known
    requires forall i, k :: 0 <= i < |entries| && 0 <= k < |entries[i]| ==> entries[i][k].v in known
    ensures Grounded(recs + entries + [[p]], known - {p.v})
    ensures UnitVars(recs + entries + [[p]]) >= UnitVars(recs) + {p.v}
  {
    EntriesAreGrounded(recs, entries, known);
    var all := recs + entries + [[p]];
    assert all[..|all| - 1] == recs + entries;
    assert known - {p.v} + {p.v} == known;
  }

  lemma {:induction false} EntriesAreGrounded(recs: seq<seq<Lit>>, entries: seq<seq<Lit>>, known: set<Var>)
    requires Grounded(recs, known)
    requires forall i, k :: 0 <= i < |entries| && 0 <= k < |entries[i]| ==> entries[i][k].v in known
    ensures Grounded(recs + entries, known) && UnitVars(recs + entries) >= UnitVars(recs)
  {
    if entries == [] {
      assert recs + entries == recs;
    } else {
      var all, front := recs + entries, entries[..|entries| - 1];
      assert all[..|all| - 1] == recs + front;
      EntriesAreGrounded(recs, front, known);
      var c := entries[|entries| - 1];
      if |c| == 1 {
        assert c[0].v in known;
        assert known + {c[0].v} == known;
      }
    }
  }

  lemma SatisfiedInBoth(a: Model, b: Model, c: seq<Lit>)
    requires forall k :: 0 <= k < |c| ==> (Holds(a, c[k]) <==> Holds(b, c[k]))
    ensures Satisfies(a, c) <==> Satisfies(b, c)
  {
  }
}
