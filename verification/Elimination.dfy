/** Variable elimination and its inverse on models, on values. */
module Elimination {
  import opened SolverTypes

  // ---------- models ----------

  /** The model a with literal p made true. */
  ghost function MadeTrue(a: Model, p: Lit): Model {
    iset v | if v == p.v then !p.sign else v in a
  }

  /** One entry of the elimination stack: if nothing else makes the clause true, its first literal must. */
  ghost function Fixed(a: Model, c: seq<Lit>): Model
    requires |c| > 0
  {
    if exists k :: 1 <= k < |c| && Holds(a, c[k]) then a else MadeTrue(a, c[0])
  }

  ghost predicate EntriesOk(recs: seq<seq<Lit>>) { forall i :: 0 <= i < |recs| ==> |recs[i]| > 0 }

  /** The stack is undone from its top. */
  ghost function Extended(a: Model, recs: seq<seq<Lit>>): Model
    requires EntriesOk(recs)
  {
    if recs == [] then a else Extended(Fixed(a, recs[|recs| - 1]), recs[..|recs| - 1])
  }

  lemma {:induction false} ExtendedInTwo(a: Model, recs: seq<seq<Lit>>, more: seq<seq<Lit>>)
    requires EntriesOk(recs) && EntriesOk(more)
    ensures EntriesOk(recs + more) && Extended(a, recs + more) == Extended(Extended(a, more), recs)
  {
    if more == [] {
      assert recs + more == recs;
    } else {
      var b := Fixed(a, more[|more| - 1]);
      assert (recs + more)[..|recs + more| - 1] == recs + more[..|more| - 1];
      ExtendedInTwo(b, recs, more[..|more| - 1]);
    }
  }

  /** Only the first variables of entries change. */
  lemma {:induction false} ExtendedKeepsOthers(a: Model, recs: seq<seq<Lit>>, p: Lit)
    requires EntriesOk(recs) && forall i :: 0 <= i < |recs| ==> recs[i][0].v != p.v
    ensures Holds(Extended(a, recs), p) <==> Holds(a, p)
  {
    if recs != [] {
      ExtendedKeepsOthers(Fixed(a, recs[|recs| - 1]), recs[..|recs| - 1], p);
    }
  }

  // ---------- elimination of one variable ----------

  /** The clauses clash on a variable other than v. */
  predicate Clash(c: seq<Lit>, d: seq<Lit>, v: Var) { exists p :: p in c && p.v != v && Neg(p) in d }

  /** out is the resolvent of c and d on v: the literals of both, but for v. */
  ghost predicate IsResolvent(c: seq<Lit>, d: seq<Lit>, v: Var, out: seq<Lit>) {
    forall p :: p in out <==> p.v != v && (p in c || p in d)
  }

  /** All non-tautological resolvents hold. */
  ghost predicate ResolventsHold(a: Model, pos: seq<seq<Lit>>, neg: seq<seq<Lit>>, v: Var) {
    forall c, d :: c in pos && d in neg && !Clash(c, d, v) ==> OthersHold(a, c, v) || OthersHold(a, d, v)
  }

  /** Some literal of c other than those of v holds. */
  ghost predicate OthersHold(a: Model, c: seq<Lit>, v: Var) { exists p :: p in c && p.v != v && Holds(a, p) }

  lemma ResolventMeaning(a: Model, c: seq<Lit>, d: seq<Lit>, v: Var, out: seq<Lit>)
    requires IsResolvent(c, d, v, out)
    ensures Satisfies(a, out) <==> OthersHold(a, c, v) || OthersHold(a, d, v)
  {
  }

  ghost predicate AllHold(a: Model, cs: seq<seq<Lit>>) { forall c :: c in cs ==> Satisfies(a, c) }

  /** pos has p, neg has its complement. */
  ghost predicate Occurrences(pos: seq<seq<Lit>>, neg: seq<seq<Lit>>, p: Lit) {
    && (forall c :: c in pos ==> p in c && DistinctVars(c))
    && (forall d :: d in neg ==> Neg(p) in d && DistinctVars(d))
  }

  lemma OneLiteralOfAVariable(c: seq<Lit>, p: Lit, q: Lit)
    requires DistinctVars(c) && p in c && q in c && p.v == q.v
    ensures p == q
  {
    var i :| 0 <= i < |c| && c[i] == p;
    var j :| 0 <= j < |c| && c[j] == q;
    assert i == j;
  }

  /** Resolution is sound. */
  lemma ResolventsFollow(a: Model, pos: seq<seq<Lit>>, neg: seq<seq<Lit>>, p: Lit)
    requires Occurrences(pos, neg, p) && AllHold(a, pos) && AllHold(a, neg)
    ensures ResolventsHold(a, pos, neg, p.v)
  {
    forall c, d | c in pos && d in neg && !Clash(c, d, p.v) ensures OthersHold(a, c, p.v) || OthersHold(a, d, p.v) {
      assert Satisfies(a, c) && Satisfies(a, d);
      var x :| x in c && Holds(a, x);
      var y :| y in d && Holds(a, y);
      if x.v == p.v && y.v == p.v {
        OneLiteralOfAVariable(c, x, p);
        OneLiteralOfAVariable(d, y, Neg(p));
      }
    }
  }

  lemma ClashIsSymmetric(c: seq<Lit>, d: seq<Lit>, v: Var)
    ensures Clash(c, d, v) <==> Clash(d, c, v)
  {
    if p :| p in c && p.v != v && Neg(p) in d {
      assert Neg(Neg(p)) == p;
      assert Neg(p) in d && Neg(p).v != v && Neg(Neg(p)) in c;
    }
    if p :| p in d && p.v != v && Neg(p) in c {
      assert Neg(Neg(p)) == p;
      assert Neg(p) in c && Neg(p).v != v && Neg(Neg(p)) in d;
    }
  }

  lemma ResolventsAreSymmetric(a: Model, cs: seq<seq<Lit>>, ds: seq<seq<Lit>>, v: Var)
    ensures ResolventsHold(a, cs, ds, v) <==> ResolventsHold(a, ds, cs, v)
  {
    forall c, d ensures Clash(c, d, v) <==> Clash(d, c, v) {
      ClashIsSymmetric(c, d, v);
    }
    hide Clash, OthersHold;
  }

  /** The entries for the clauses of one sign, each with the literal of v first, and on top the default value. */
  ghost predicate IsBlock(block: seq<seq<Lit>>, cs: seq<seq<Lit>>, p: Lit) {
    && |block| == |cs| + 1 && block[|cs|] == [Neg(p)]
    && forall i :: 0 <= i < |cs| ==> |block[i]| > 0 && block[i][0] == p && multiset(block[i]) == multiset(cs[i])
  }

  /**
   * Undoing a block: v gets the default value that satisfies the clauses of the other sign, unless one of the stored
   * clauses has nothing else to make it true. All other variables keep their values.
   */
  lemma {:induction false} BlockDecides(a: Model, entries: seq<seq<Lit>>, p: Lit)
    requires forall i :: 0 <= i < |entries| ==> |entries[i]| > 0 && entries[i][0] == p && DistinctVars(entries[i])
    ensures EntriesOk(entries)
    ensures var b := Extended(a, entries);
      && (forall q: Lit :: q.v != p.v ==> (Holds(b, q) <==> Holds(a, q)))
      && (Holds(b, p) <==> Holds(a, p) || exists i :: 0 <= i < |entries| && !OthersHold(a, entries[i], p.v))
  {
    if entries != [] {
      var e, front := entries[|entries| - 1], entries[..|entries| - 1];
      var a' := Fixed(a, e);
      OthersAreTheTail(a, e);
      BlockDecides(a', front, p);
      forall i | 0 <= i < |front| ensures OthersHold(a', front[i], p.v) <==> OthersHold(a, front[i], p.v) {
        SameOthers(a, a', front[i], p.v);
      }
      assert forall i :: 0 <= i < |front| ==> front[i] == entries[i];
    }
  }

  lemma OthersAreTheTail(a: Model, e: seq<Lit>)
    requires |e| > 0 && DistinctVars(e)
    ensures OthersHold(a, e, e[0].v) <==> exists k :: 1 <= k < |e| && Holds(a, e[k])
  {
    if k :| 1 <= k < |e| && Holds(a, e[k]) {
      assert e[k] in e && e[k].v != e[0].v;
    }
  }

  lemma SameOthers(a: Model, b: Model, c: seq<Lit>, v: Var)
    requires forall q: Lit :: q.v != v ==> (Holds(b, q) <==> Holds(a, q))
    ensures OthersHold(a, c, v) <==> OthersHold(b, c, v)
  {
  }

  /** The inverse of elimination: a model of the resolvents becomes a model of the clauses they replaced. */
  lemma BlockRestores(a: Model, stored: seq<seq<Lit>>, others: seq<seq<Lit>>, p: Lit, block: seq<seq<Lit>>)
    requires IsBlock(block, stored, p)
    requires Occurrences(stored, others, p) && ResolventsHold(a, stored, others, p.v)
    ensures EntriesOk(block)
    ensures var b := Extended(a, block);
      && AllHold(b, stored) && AllHold(b, others)
      && (forall q: Lit :: q.v != p.v ==> (Holds(b, q) <==> Holds(a, q)))
  {
    var entries := block[..|stored|];
    assert block == entries + [[Neg(p)]];
    var a1 := MadeTrue(a, Neg(p));
    forall i | 0 <= i < |entries|
      ensures DistinctVars(entries[i]) && OthersHold(a1, entries[i], p.v) == OthersHold(a, stored[i], p.v)
    {
      PermutedEntry(entries[i], stored[i]);
      SameOthers(a, a1, stored[i], p.v);
    }
    ExtendedInTwo(a, entries, [[Neg(p)]]);
    assert Extended(a, [[Neg(p)]]) == a1 by {
      assert [[Neg(p)]][..0] == [];
      assert Fixed(a, [Neg(p)]) == a1;
    }
    BlockDecides(a1, entries, p);
    BlockSatisfiesStored(a, Extended(a1, entries), stored, p);
    BlockSatisfiesOthers(a, Extended(a1, entries), stored, others, p);
  }

  lemma BlockSatisfiesStored(a: Model, b: Model, stored: seq<seq<Lit>>, p: Lit)
    requires forall c :: c in stored ==> p in c
    requires forall q: Lit :: q.v != p.v ==> (Holds(b, q) <==> Holds(a, q))
    requires forall i :: 0 <= i < |stored| && !OthersHold(a, stored[i], p.v) ==> Holds(b, p)
    ensures AllHold(b, stored)
  {
    forall c | c in stored ensures Satisfies(b, c) {
      var i :| 0 <= i < |stored| && stored[i] == c;
      SameOthers(a, b, c, p.v);
    }
  }

  lemma BlockSatisfiesOthers(a: Model, b: Model, stored: seq<seq<Lit>>, others: seq<seq<Lit>>, p: Lit)
    requires forall d :: d in others ==> Neg(p) in d
    requires forall c, d :: c in stored && d in others && !Clash(c, d, p.v) ==>
      OthersHold(a, c, p.v) || OthersHold(a, d, p.v)
    requires forall q: Lit :: q.v != p.v ==> (Holds(b, q) <==> Holds(a, q))
    requires Holds(b, p) ==> exists i :: 0 <= i < |stored| && !OthersHold(a, stored[i], p.v)
    ensures AllHold(b, others)
  {
    forall d | d in others ensures Satisfies(b, d) {
      SameOthers(a, b, d, p.v);
      if Holds(b, p) {
        var i :| 0 <= i < |stored| && !OthersHold(a, stored[i], p.v);
        var c := stored[i];
        assert c in stored;
        if Clash(c, d, p.v) {
          var q :| q in c && q.v != p.v && Neg(q) in d;
          assert Holds(a, Neg(q)) && Neg(q).v != p.v;
        }
        assert OthersHold(a, d, p.v);
      } else {
        assert Holds(b, Neg(p));
      }
    }
  }

  lemma PermutedEntry(e: seq<Lit>, c: seq<Lit>)
    requires multiset(e) == multiset(c) && DistinctVars(c)
    ensures DistinctVars(e) && forall p :: p in e <==> p in c
  {
    forall p ensures p in e <==> p in c {
      assert p in e <==> p in multiset(e);
      assert p in c <==> p in multiset(c);
    }
    forall i, j | 0 <= i < j < |e| ensures e[i].v != e[j].v {
      if e[i].v == e[j].v {
        OneLiteralOfAVariable(c, e[i], e[j]);
        assert multiset(e)[e[i]] >= 2 by {
          assert e == e[..i] + [e[i]] + e[i + 1..j] + [e[j]] + e[j + 1..];
        }
        DistinctIsSimple(c, e[i]);
        assert false;
      }
    }
  }

  lemma {:induction false} DistinctIsSimple(c: seq<Lit>, p: Lit)
    requires DistinctVars(c)
    ensures multiset(c)[p] <= 1
  {
    if c != [] {
      var d := c[..|c| - 1];
      DistinctIsSimple(d, p);
      assert c == d + [c[|c| - 1]];
      if p == c[|c| - 1] { assert p !in d; }
    }
  }
}
