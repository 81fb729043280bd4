/** Writing the remaining problem of a solver as DIMACS text, and what reading that text gives. */
module DimacsWriter {
  import opened SolverTypes
  import opened Trails
  import opened Dimacs
  import Verdicts

  // ---------- what remains of the problem ----------

  predicate SatisfiedIn(assigns: seq<LBool>, c: seq<Lit>)
    requires InRange(c, |assigns|)
  {
    exists k :: 0 <= k < |c| && Value(assigns, c[k]) == LTrue
  }

  /** The literals of c that are not false. */
  function Kept(assigns: seq<LBool>, c: seq<Lit>): seq<Lit>
    requires InRange(c, |assigns|)
  {
    if c == [] then []
    else
      var p := c[|c| - 1];
      Kept(assigns, c[..|c| - 1]) + if Value(assigns, p) == LFalse then [] else [p]
  }

  lemma {:induction false} KeptLits(assigns: seq<LBool>, c: seq<Lit>)
    requires InRange(c, |assigns|)
    ensures forall p :: p in Kept(assigns, c) <==> p in c && p.v < |assigns| && Value(assigns, p) != LFalse
  {
    if c != [] {
      KeptLits(assigns, c[..|c| - 1]);
      assert c == c[..|c| - 1] + [c[|c| - 1]];
    }
  }

  predicate AllInRange(cs: seq<seq<Lit>>, n: nat) { forall i :: 0 <= i < |cs| ==> InRange(cs[i], n) }

  /** The clauses that are not satisfied, without their false literals. */
  function Remaining(assigns: seq<LBool>, cs: seq<seq<Lit>>): seq<seq<Lit>>
    requires AllInRange(cs, |assigns|)
  {
    if cs == [] then []
    else
      var c := cs[|cs| - 1];
      Remaining(assigns, cs[..|cs| - 1]) + if SatisfiedIn(assigns, c) then [] else [Kept(assigns, c)]
  }

  function Units(ps: seq<Lit>): seq<seq<Lit>> { seq(|ps|, i requires 0 <= i < |ps| => [ps[i]]) }

  ghost function Used(list: seq<seq<Lit>>): set<Var>
  {
    set i, k | 0 <= i < |list| && 0 <= k < |list[i]| :: list[i][k].v
  }

  // ---------- names ----------

  predicate Named(map_: seq<int>, x: Var) { x < |map_| && map_[x] >= 0 }

  /** Exactly the variables used have names, which are the numbers below max, each once. */
  ghost predicate NamesOk(map_: seq<int>, max: nat, used: set<Var>) {
    && (forall x: nat :: Named(map_, x) <==> x in used)
    && (forall x: nat :: x < |map_| ==> -1 <= map_[x] < max)
    && (forall x: nat, y: nat :: Named(map_, x) && Named(map_, y) && map_[x] == map_[y] ==> x == y)
    && (forall k: nat :: k < max ==> IsName(map_, k))
  }

  ghost predicate IsName(map_: seq<int>, k: nat) { exists x: nat :: Named(map_, x) && map_[x] == k }

  ghost predicate Grows(map_: seq<int>, map': seq<int>)
  {
    forall x: nat :: Named(map_, x) ==> Named(map', x) && map'[x] == map_[x]
  }

  ghost predicate AllNamed(map_: seq<int>, c: seq<Lit>) { forall k :: 0 <= k < |c| ==> Named(map_, c[k].v) }

  ghost function Rename(c: seq<Lit>, map_: seq<int>): (d: seq<Lit>)
    requires AllNamed(map_, c)
  {
    seq(|c|, k requires 0 <= k < |c| => Lit(map_[c[k].v], c[k].sign))
  }

  ghost predicate ListNamed(map_: seq<int>, list: seq<seq<Lit>>)
  {
    forall i :: 0 <= i < |list| ==> AllNamed(map_, list[i])
  }

  ghost function RenameAll(list: seq<seq<Lit>>, map_: seq<int>): seq<seq<Lit>>
    requires ListNamed(map_, list)
  {
    seq(|list|, i requires 0 <= i < |list| => Rename(list[i], map_))
  }

  lemma UsedAreNamed(map_: seq<int>, max: nat, used: set<Var>, list: seq<seq<Lit>>)
    requires NamesOk(map_, max, used) && Used(list) <= used
    ensures ListNamed(map_, list)
  {
    forall i, k | 0 <= i < |list| && 0 <= k < |list[i]| ensures Named(map_, list[i][k].v) {
      assert list[i][k].v in Used(list);
    }
  }

  lemma GrowsKeepsNames(map_: seq<int>, map': seq<int>, list: seq<seq<Lit>>)
    requires Grows(map_, map') && ListNamed(map_, list)
    ensures ListNamed(map', list) && RenameAll(list, map') == RenameAll(list, map_)
  {
    forall i | 0 <= i < |list| ensures AllNamed(map', list[i]) && Rename(list[i], map') == Rename(list[i], map_) {
      forall k | 0 <= k < |list[i]| ensures Named(map', list[i][k].v) && map'[list[i][k].v] == map_[list[i][k].v] {
        assert AllNamed(map_, list[i]);
      }
    }
  }

  lemma UsedAppend(list: seq<seq<Lit>>, c: seq<Lit>)
    ensures Used(list + [c]) == Used(list) + VarSet(c)
  {
    var l := list + [c];
    assert l[|list|] == c;
    forall v | v in Used(list) ensures v in Used(l) {
      var i, k :| 0 <= i < |list| && 0 <= k < |list[i]| && list[i][k].v == v;
      assert l[i][k].v == v;
    }
    forall v | v in VarSet(c) ensures v in Used(l) {
      var k :| 0 <= k < |c| && c[k].v == v;
      assert l[|list|][k].v == v;
    }
    forall v | v in Used(l) ensures v in Used(list) + VarSet(c) {
      var i, k :| 0 <= i < |l| && 0 <= k < |l[i]| && l[i][k].v == v;
      if i < |list| { assert list[i][k].v == v; }
    }
  }

  // ---------- text that grows at its end ----------

  lemma {:induction false} ClauseTextSplits(c: seq<Lit>)
    ensures ClauseText(c) == LitsText(c) + "0\n"
  {
    if c == [] {
      assert "" + "0\n" == "0\n";
    } else {
      ClauseTextSplits(c[1..]);
      assert LitText(c[0]) + (LitsText(c[1..]) + "0\n") == LitText(c[0]) + LitsText(c[1..]) + "0\n";
    }
  }

  function LitsText(c: seq<Lit>): string { if c == [] then "" else LitText(c[0]) + LitsText(c[1..]) }

  lemma {:induction false} LitsTextAppend(c: seq<Lit>, p: Lit)
    ensures LitsText(c + [p]) == LitsText(c) + LitText(p)
  {
    hide LitText;
    if c == [] {
      assert c + [p] == [p] && LitsText([p]) == LitText(p) + LitsText([]);
      assert LitText(p) + "" == "" + LitText(p);
    } else {
      assert (c + [p])[1..] == c[1..] + [p];
      LitsTextAppend(c[1..], p);
      assert LitText(c[0]) + (LitsText(c[1..]) + LitText(p)) == LitText(c[0]) + LitsText(c[1..]) + LitText(p);
    }
  }

  lemma {:induction false} LinesTextAppend(list: seq<seq<Lit>>, c: seq<Lit>)
    ensures LinesText(list + [c]) == LinesText(list) + ClauseText(c)
  {
    hide ClauseText;
    if list == [] {
      assert list + [c] == [c] && LinesText([c]) == ClauseText(c) + LinesText([]);
      assert ClauseText(c) + "" == "" + ClauseText(c);
    } else {
      assert (list + [c])[1..] == list[1..] + [c];
      LinesTextAppend(list[1..], c);
      assert ClauseText(list[0]) + (LinesText(list[1..]) + ClauseText(c)) ==
             ClauseText(list[0]) + LinesText(list[1..]) + ClauseText(c);
    }
  }

  // ---------- the writer ----------

  class Writer {
    var names: seq<int>
    var max: nat
    var out: string

    constructor ()
      ensures names == [] && max == 0 && out == ""
    {
      names, max, out := [], 0, "";
    }

    /** mapVar: the name of x, a new one if it has none. */
    method MapVar(x: Var, ghost used: set<Var>) returns (name: nat)
      requires NamesOk(names, max, used)
      modifies `names, `max
      ensures NamesOk(names, max, used + {x}) && Grows(old(names), names) && Named(names, x) && name == names[x]
      ensures if x in used then names == old(names) && max == old(max) else max == old(max) + 1
    {
      if |names| <= x || names[x] == -1 {
        assert x !in used;
        if |names| <= x { names := names + seq(x + 1 - |names|, _ => -1); }
        names := names[x := max];
        NewName(old(names), names, max, used, x);
        max := max + 1;
      } else {
        assert used + {x} == used;
      }
      name := names[x];
    }

    static lemma NewName(map_: seq<int>, map': seq<int>, max: nat, used: set<Var>, x: Var)
      requires NamesOk(map_, max, used) && x !in used
      requires x < |map'| && |map'| >= |map_| && map'[x] == max
      requires forall y :: 0 <= y < |map'| && y != x ==> map'[y] == if y < |map_| then map_[y] else -1
      ensures NamesOk(map', max + 1, used + {x}) && Grows(map_, map')
    {
      forall k: nat | k < max + 1 ensures IsName(map', k) {
        if k == max {
          assert Named(map', x);
        } else {
          assert IsName(map_, k);
          var y: nat :| Named(map_, y) && map_[y] == k;
          assert Named(map', y);
        }
      }
    }

    /** Name the variables of a clause that will be written. */
    method NameClause(assigns: seq<LBool>, c: seq<Lit>, ghost used: set<Var>)
      requires NamesOk(names, max, used) && InRange(c, |assigns|)
      modifies `names, `max
      ensures NamesOk(names, max, used + VarSet(Kept(assigns, c)))
    {
      assert used + VarSet(Kept(assigns, c[..0])) == used;
      hide *;
      var j := 0;
      while j < |c|
        invariant 0 <= j <= |c| && NamesOk(names, max, used + VarSet(Kept(assigns, c[..j])))
      {
        KeptNext(assigns, c, j, used);
        if Value(assigns, c[j]) != LFalse {
          var name := MapVar(c[j].v, used + VarSet(Kept(assigns, c[..j])));
        }
        j := j + 1;
      }
      assert c[..j] == c;
    }

    static lemma KeptNext(assigns: seq<LBool>, c: seq<Lit>, j: nat, used: set<Var>)
      requires InRange(c, |assigns|) && j < |c|
      ensures c[j].v < |assigns| && InRange(c[..j], |assigns|) && InRange(c[..j + 1], |assigns|)
      ensures used + VarSet(Kept(assigns, c[..j + 1])) ==
        used + VarSet(Kept(assigns, c[..j])) + if Value(assigns, c[j]) != LFalse then {c[j].v} else {}
    {
      KeptPrefix(assigns, c, j);
      hide Kept, VarSet;
      if Value(assigns, c[j]) != LFalse { VarSetAppend(Kept(assigns, c[..j]), c[j]); }
    }

    /** Count the clauses that are not satisfied, and name their variables. */
    method NameRemaining(assigns: seq<LBool>, cs: seq<seq<Lit>>) returns (cnt: nat)
      requires AllInRange(cs, |assigns|) && NamesOk(names, max, {})
      modifies `names, `max
      ensures cnt == |Remaining(assigns, cs)| && NamesOk(names, max, Used(Remaining(assigns, cs)))
    {
      assert Remaining(assigns, cs[..0]) == [] && Used([]) == {};
      hide SatisfiedIn, Kept, Remaining, Used, NamesOk, Named;
      cnt := 0;
      var i := 0;
      while i < |cs|
        invariant 0 <= i <= |cs| && cnt == |Remaining(assigns, cs[..i])|
        invariant NamesOk(names, max, Used(Remaining(assigns, cs[..i])))
      {
        RemainingPrefix(assigns, cs, i);
        if !SatisfiedIn(assigns, cs[i]) {
          cnt := cnt + 1;
          NameClause(assigns, cs[i], Used(Remaining(assigns, cs[..i])));
          UsedAppend(Remaining(assigns, cs[..i]), Kept(assigns, cs[i]));
        }
        i := i + 1;
      }
      assert cs[..i] == cs;
    }

    /** The assumptions as unit clauses, which may bring new names. */
    method WriteAssumptions(ps: seq<Lit>, ghost used: set<Var>)
      requires NamesOk(names, max, used)
      modifies `names, `max, `out
      ensures NamesOk(names, max, used + VarSet(ps)) && Grows(old(names), names) && ListNamed(names, Units(ps))
      ensures out == old(out) + LinesText(RenameAll(Units(ps), names))
      ensures old(max) <= max && (max == old(max) <==> VarSet(ps) <= used)
    {
      NoUnitWritten(names, max, out, used, ps[..0]);
      hide *;
      var i := 0;
      while i < |ps|
        invariant 0 <= i <= |ps|
        invariant UnitsWritten(old(names), names, old(max), max, old(out), out, used, ps[..i])
      {
        ghost var names0, max0 := names, max;
        UnitsAreNamed(old(names), names, old(max), max, old(out), out, used, ps[..i]);
        var name := MapVar(ps[i].v, used + VarSet(ps[..i]));
        OneMoreWritten(old(names), names0, names, old(max), max0, max, old(out), out, used, ps, i, name);
        out := out + LitText(Lit(name, ps[i].sign)) + "0\n";
        i := i + 1;
      }
      assert ps[..i] == ps;
      UnitsAreNamed(old(names), names, old(max), max, old(out), out, used, ps);
    }

    /** What has been written of the assumptions, and which names were given. */
    static ghost predicate UnitsWritten(names0: seq<int>, names: seq<int>, max0: nat, max: nat, out0: string,
                                        out: string, used: set<Var>, ps: seq<Lit>) {
      && NamesOk(names, max, used + VarSet(ps)) && Grows(names0, names) && ListNamed(names, Units(ps))
      && out == out0 + LinesText(RenameAll(Units(ps), names))
      && max0 <= max && (max == max0 <==> VarSet(ps) <= used)
    }

    static lemma UnitsAreNamed(names0: seq<int>, names: seq<int>, max0: nat, max: nat, out0: string, out: string,
                               used: set<Var>, ps: seq<Lit>)
      requires UnitsWritten(names0, names, max0, max, out0, out, used, ps)
      ensures NamesOk(names, max, used + VarSet(ps)) && Grows(names0, names) && ListNamed(names, Units(ps))
      ensures out == out0 + LinesText(RenameAll(Units(ps), names))
      ensures max0 <= max && (max == max0 <==> VarSet(ps) <= used)
    {
    }

    static lemma NoUnitWritten(names: seq<int>, max: nat, out: string, used: set<Var>, ps: seq<Lit>)
      requires NamesOk(names, max, used) && ps == []
      ensures UnitsWritten(names, names, max, max, out, out, used, ps)
    {
      assert used + VarSet(ps) == used && Units(ps) == [] && RenameAll([], names) == [] && LinesText([]) == "";
      NoText(out);
    }

    static lemma OneMoreWritten(names0: seq<int>, names1: seq<int>, names: seq<int>, max0: nat, max1: nat, max: nat,
                                out0: string, out: string, used: set<Var>, ps: seq<Lit>, i: nat, name: nat)
      requires i < |ps| && UnitsWritten(names0, names1, max0, max1, out0, out, used, ps[..i])
      requires NamesOk(names, max, used + VarSet(ps[..i]) + {ps[i].v}) && Grows(names1, names)
      requires Named(names, ps[i].v) && name == names[ps[i].v]
      requires if ps[i].v in used + VarSet(ps[..i]) then names == names1 && max == max1 else max == max1 + 1
      ensures UnitsWritten(names0, names, max0, max, out0,
                           out + LitText(Lit(name, ps[i].sign)) + "0\n", used, ps[..i + 1])
    {
      var before, p := ps[..i], ps[i];
      hide NamesOk, LinesText, LitText, Named, VarSet, Units, RenameAll, ListNamed, Grows;
      assert ps[..i + 1] == before + [p];
      VarSetAppend(before, p);
      assert used + VarSet(before) + {p.v} == used + VarSet(before + [p]);
      GrowsTwice(names0, names1, names);
      GrowsKeepsNames(names1, names, Units(before));
      OneMoreUnit(before, p, names);
      Assoc(out, LitText(Lit(name, p.sign)), "0\n");
      Assoc(out0, LinesText(RenameAll(Units(before), names)), LitText(Lit(name, p.sign)) + "0\n");
    }

    static lemma GrowsTwice(map_: seq<int>, map': seq<int>, map'': seq<int>)
      requires Grows(map_, map') && Grows(map', map'')
      ensures Grows(map_, map'')
    {
    }

    static lemma OneMoreUnit(ps: seq<Lit>, p: Lit, map_: seq<int>)
      requires ListNamed(map_, Units(ps)) && Named(map_, p.v)
      ensures ListNamed(map_, Units(ps + [p]))
      ensures LinesText(RenameAll(Units(ps + [p]), map_)) ==
        LinesText(RenameAll(Units(ps), map_)) + (LitText(Lit(map_[p.v], p.sign)) + "0\n")
    {
      var us, q := Units(ps), Lit(map_[p.v], p.sign);
      assert Units(ps + [p]) == us + [[p]];
      assert AllNamed(map_, [p]) && Rename([p], map_) == [q];
      assert RenameAll(us + [[p]], map_) == RenameAll(us, map_) + [[q]];
      LinesTextAppend(RenameAll(us, map_), [q]);
      hide LitText;
      assert ClauseText([q]) == LitText(q) + ClauseText([q][1..]);
    }

    /** toDimacs for a clause: nothing if it is satisfied. All names are there already. */
    method WriteClause(assigns: seq<LBool>, c: seq<Lit>, ghost used: set<Var>)
      requires InRange(c, |assigns|) && NamesOk(names, max, used)
      requires !SatisfiedIn(assigns, c) ==> AllNamed(names, Kept(assigns, c))
      modifies `names, `max, `out
      ensures names == old(names) && max == old(max)
      ensures out == old(out) + if SatisfiedIn(assigns, c) then "" else ClauseText(Rename(Kept(assigns, c), names))
    {
      NoText(out);
      if SatisfiedIn(assigns, c) { return; }
      NothingKept(assigns, c, names);
      hide *;
      var i := 0;
      while i < |c|
        invariant 0 <= i <= |c| && names == old(names) && max == old(max)
        invariant AllNamed(names, Kept(assigns, c[..i]))
        invariant out == old(out) + LitsText(Rename(Kept(assigns, c[..i]), names))
      {
        WriteLit(assigns, c, i, used);
        OneMoreLit(assigns, c, i, names, max, used, old(out));
        i := i + 1;
      }
      assert c[..i] == c;
      out := out + "0\n";
      ClauseTextSplits(Rename(Kept(assigns, c), names));
      Assoc(old(out), LitsText(Rename(Kept(assigns, c), names)), "0\n");
    }

    /** The i-th literal, unless it is false. */
    method WriteLit(assigns: seq<LBool>, c: seq<Lit>, i: nat, ghost used: set<Var>)
      requires InRange(c, |assigns|) && NamesOk(names, max, used) && i < |c| && AllNamed(names, Kept(assigns, c))
      modifies `names, `max, `out
      ensures names == old(names) && max == old(max) && (Value(assigns, c[i]) != LFalse ==> Named(names, c[i].v))
      ensures out == old(out) + if Value(assigns, c[i]) == LFalse then "" else LitText(Lit(names[c[i].v], c[i].sign))
    {
      KeptIsNamed(assigns, c, i, names, max, used);
      NoText(out);
      hide SatisfiedIn, Kept, NamesOk, AllNamed, LitText;
      if Value(assigns, c[i]) != LFalse {
        assert used + {c[i].v} == used;
        var name := MapVar(c[i].v, used);
        out := out + LitText(Lit(name, c[i].sign));
      }
    }

    static lemma OneMoreLit(assigns: seq<LBool>, c: seq<Lit>, i: nat, names: seq<int>, max: nat, used: set<Var>,
                            out: string)
      requires InRange(c, |assigns|) && NamesOk(names, max, used) && i < |c| && AllNamed(names, Kept(assigns, c))
      ensures AllNamed(names, Kept(assigns, c[..i])) && AllNamed(names, Kept(assigns, c[..i + 1]))
      ensures Value(assigns, c[i]) != LFalse ==> Named(names, c[i].v)
      ensures out + LitsText(Rename(Kept(assigns, c[..i + 1]), names)) ==
              out + LitsText(Rename(Kept(assigns, c[..i]), names)) +
        if Value(assigns, c[i]) == LFalse then "" else LitText(Lit(names[c[i].v], c[i].sign))
    {
      KeptIsNamed(assigns, c, i, names, max, used);
      KeptPrefix(assigns, c, i);
      var e := Kept(assigns, c[..i]);
      PrefixNamed(names, e, Kept(assigns, c));
      NoText(out + LitsText(Rename(e, names)));
      hide SatisfiedIn, Kept, NamesOk, AllNamed, LitsText, LitText;
      if Value(assigns, c[i]) != LFalse {
        var q := Lit(names[c[i].v], c[i].sign);
        RenameAppend(e, c[i], names);
        LitsTextAppend(Rename(e, names), q);
        Assoc(out, LitsText(Rename(e, names)), LitText(q));
      }
    }

    static lemma NothingKept(assigns: seq<LBool>, c: seq<Lit>, map_: seq<int>)
      requires InRange(c, |assigns|)
      ensures Kept(assigns, c[..0]) == [] && AllNamed(map_, []) && LitsText(Rename([], map_)) == ""
    {
      assert Rename([], map_) == [];
    }

    static lemma KeptIsNamed(assigns: seq<LBool>, c: seq<Lit>, i: nat, map_: seq<int>, max: nat, used: set<Var>)
      requires InRange(c, |assigns|) && i < |c| && AllNamed(map_, Kept(assigns, c)) && NamesOk(map_, max, used)
      ensures AllNamed(map_, Kept(assigns, c[..i + 1]))
      ensures Value(assigns, c[i]) != LFalse ==> Named(map_, c[i].v) && c[i].v in used
    {
      hide SatisfiedIn, Kept, NamesOk, AllNamed, Rename, LitsText, ClauseText;
      KeptPrefix(assigns, c, i);
      PrefixNamed(map_, Kept(assigns, c[..i + 1]), Kept(assigns, c));
      if Value(assigns, c[i]) != LFalse { LastNamed(map_, max, used, Kept(assigns, c[..i]), c[i]); }
    }

    static lemma PrefixNamed(map_: seq<int>, e: seq<Lit>, d: seq<Lit>)
      requires e <= d && AllNamed(map_, d)
      ensures AllNamed(map_, e)
    {
      assert forall k :: 0 <= k < |e| ==> e[k] == d[k];
    }

    static lemma LastNamed(map_: seq<int>, max: nat, used: set<Var>, e: seq<Lit>, p: Lit)
      requires AllNamed(map_, e + [p]) && NamesOk(map_, max, used)
      ensures Named(map_, p.v) && p.v in used
    {
      assert (e + [p])[|e|] == p;
    }

    static lemma RenameAppend(c: seq<Lit>, p: Lit, map_: seq<int>)
      requires AllNamed(map_, c) && Named(map_, p.v)
      ensures AllNamed(map_, c + [p]) && Rename(c + [p], map_) == Rename(c, map_) + [Lit(map_[p.v], p.sign)]
    {
    }

    static lemma {:induction false} KeptPrefix(assigns: seq<LBool>, c: seq<Lit>, i: nat)
      requires InRange(c, |assigns|) && i < |c|
      ensures Kept(assigns, c[..i + 1]) ==
              if Value(assigns, c[i]) == LFalse then Kept(assigns, c[..i]) else Kept(assigns, c[..i]) + [c[i]]
      ensures Kept(assigns, c[..i + 1]) <= Kept(assigns, c)
      decreases |c| - i
    {
      assert c[..i + 1][..i] == c[..i] && c[..i + 1][i] == c[i];
      hide Value;
      assert Kept(assigns, c[..i + 1]) == Kept(assigns, c[..i]) + if Value(assigns, c[i]) == LFalse then [] else [c[i]];
      hide Kept;
      if i + 1 < |c| { KeptPrefix(assigns, c, i + 1); } else { assert c[..i + 1] == c; }
    }

    method WriteRemaining(assigns: seq<LBool>, cs: seq<seq<Lit>>, ghost used: set<Var>)
      requires AllInRange(cs, |assigns|) && NamesOk(names, max, used) && ListNamed(names, Remaining(assigns, cs))
      modifies `names, `max, `out
      ensures names == old(names) && max == old(max)
      ensures out == old(out) + LinesText(RenameAll(Remaining(assigns, cs), names))
    {
      hide NamesOk, ClauseText, Kept, SatisfiedIn, AllNamed, Rename, LinesText, RenameAll, ListNamed;
      var i := 0;
      NoText(out);
      NothingWritten(names);
      while i < |cs|
        invariant 0 <= i <= |cs| && names == old(names) && max == old(max) && NamesOk(names, max, used)
        invariant ListNamed(names, Remaining(assigns, cs[..i]))
        invariant out == old(out) + LinesText(RenameAll(Remaining(assigns, cs[..i]), names))
      {
        RemainingPrefix(assigns, cs, i);
        ghost var list := Remaining(assigns, cs[..i]);
        ListNamedPrefix(names, Remaining(assigns, cs[..i + 1]), Remaining(assigns, cs));
        if !SatisfiedIn(assigns, cs[i]) {
          OneMoreLine(list, Kept(assigns, cs[i]), names);
          Assoc(old(out), LinesText(RenameAll(list, names)), ClauseText(Rename(Kept(assigns, cs[i]), names)));
        }
        NoText(out);
        WriteClause(assigns, cs[i], used);
        i := i + 1;
      }
      assert cs[..i] == cs;
    }

    static lemma NothingWritten(map_: seq<int>)
      ensures ListNamed(map_, []) && LinesText(RenameAll([], map_)) == ""
    {
      assert RenameAll([], map_) == [];
    }

    static lemma ListNamedPrefix(map_: seq<int>, list: seq<seq<Lit>>, all: seq<seq<Lit>>)
      requires ListNamed(map_, all) && list <= all
      ensures ListNamed(map_, list)
    {
      hide AllNamed;
      forall i | 0 <= i < |list| ensures AllNamed(map_, list[i]) {
        assert list[i] == all[i];
      }
    }

    static lemma OneMoreLine(list: seq<seq<Lit>>, d: seq<Lit>, map_: seq<int>)
      requires ListNamed(map_, list + [d])
      ensures ListNamed(map_, list) && AllNamed(map_, d)
      ensures LinesText(RenameAll(list + [d], map_)) == LinesText(RenameAll(list, map_)) + ClauseText(Rename(d, map_))
    {
      hide AllNamed;
      assert (list + [d])[|list|] == d;
      ListNamedPrefix(map_, list, list + [d]);
      assert RenameAll(list + [d], map_) == RenameAll(list, map_) + [Rename(d, map_)];
      LinesTextAppend(RenameAll(list, map_), Rename(d, map_));
    }

    static lemma {:induction false} RemainingPrefix(assigns: seq<LBool>, cs: seq<seq<Lit>>, i: nat)
      requires AllInRange(cs, |assigns|) && i < |cs|
      ensures var list := Remaining(assigns, cs[..i]);
        Remaining(assigns, cs[..i + 1]) == if SatisfiedIn(assigns, cs[i]) then list else list + [Kept(assigns, cs[i])]
      ensures Remaining(assigns, cs[..i + 1]) <= Remaining(assigns, cs)
      decreases |cs| - i
    {
      hide Kept, SatisfiedIn;
      assert cs[..i + 1][..i] == cs[..i];
      if i + 1 < |cs| { RemainingPrefix(assigns, cs, i + 1); } else { assert cs[..i + 1] == cs; }
    }

    /**
     * toDimacs. The header announces the variables of the remaining clauses only, so its number is right exactly if the
     * assumptions are on such variables.
     */
    method ToDimacs(ok: bool, assigns: seq<LBool>, cs: seq<seq<Lit>>, assumptions: seq<Lit>) returns (ghost vars: nat)
      requires names == [] && max == 0 && out == ""
      requires AllInRange(cs, |assigns|) && InRange(assumptions, |assigns|)
      requires forall i :: 0 <= i < |assumptions| ==> Value(assigns, assumptions[i]) != LFalse
      modifies `names, `max, `out
      ensures !ok ==> vars == 1 && out == HeaderText(1, 2) + LinesText([[Lit(0, false)], [Lit(0, true)]])
      ensures ok ==>
        var rest := Remaining(assigns, cs);
        var all := Units(assumptions) + rest;
        && NamesOk(names, max, Used(rest) + VarSet(assumptions)) && ListNamed(names, all)
        && out == HeaderText(vars, |all|) + LinesText(RenameAll(all, names))
        && (vars == max <==> VarSet(assumptions) <= Used(rest))
        && exists before :: NamesOk(before, vars, Used(rest))
    {
      if !ok {
        Contradiction();
        out := "p cnf 1 2\n1 0\n-1 0\n";
        return 1;
      }
      assert NamesOk(names, max, {});
      hide ClauseText, LitText, Kept, SatisfiedIn, Used, Decimal, NamesOk, Remaining, LinesText, RenameAll, ListNamed;
      hide Grows, VarSet;
      var cnt := NameRemaining(assigns, cs);
      ghost var before := names;
      ghost var rest, us := Remaining(assigns, cs), Units(assumptions);
      vars := max;
      cnt := cnt + |assumptions|;
      out := HEADER + " " + Decimal(max) + " " + Decimal(cnt) + "\n";
      ghost var header := out;
      WriteAssumptions(assumptions, Used(rest));
      ghost var used := Used(rest) + VarSet(assumptions);
      UsedAreNamed(names, max, used, rest);
      WriteRemaining(assigns, cs, used);
      LinesTextConcat(us, rest, names);
      Assoc(header, LinesText(RenameAll(us, names)), LinesText(RenameAll(rest, names)));
    }

    static lemma Contradiction()
      ensures "p cnf 1 2\n1 0\n-1 0\n" == HeaderText(1, 2) + LinesText([[Lit(0, false)], [Lit(0, true)]])
    {
      assert Decimal(1) == "1" && Decimal(2) == "2";
      hide Decimal;
      assert HeaderText(1, 2) == "p cnf 1 2\n";
      assert LitText(Lit(0, false)) == "1 " && LitText(Lit(0, true)) == "-1 ";
      hide LitText, HeaderText;
      assert ClauseText([Lit(0, false)]) == "1 0\n" && ClauseText([Lit(0, true)]) == "-1 0\n";
      hide ClauseText;
      assert LinesText([[Lit(0, false)], [Lit(0, true)]]) == "1 0\n" + "-1 0\n";
    }

    static lemma LinesTextConcat(list: seq<seq<Lit>>, more: seq<seq<Lit>>, map_: seq<int>)
      requires ListNamed(map_, list) && ListNamed(map_, more)
      ensures ListNamed(map_, list + more)
      ensures LinesText(RenameAll(list + more, map_)) ==
              LinesText(RenameAll(list, map_)) + LinesText(RenameAll(more, map_))
    {
      hide AllNamed, LinesText, Rename;
      assert RenameAll(list + more, map_) == RenameAll(list, map_) + RenameAll(more, map_);
      LinesConcat(RenameAll(list, map_), RenameAll(more, map_));
    }

    static lemma {:induction false} LinesConcat(list: seq<seq<Lit>>, more: seq<seq<Lit>>)
      ensures LinesText(list + more) == LinesText(list) + LinesText(more)
    {
      hide ClauseText;
      if list == [] {
        assert list + more == more && "" + LinesText(more) == LinesText(more);
      } else {
        assert (list + more)[1..] == list[1..] + more;
        LinesConcat(list[1..], more);
        Assoc(ClauseText(list[0]), LinesText(list[1..]), LinesText(more));
      }
    }
  }

  // ---------- the round trip ----------

  lemma {:induction false} VarsOfBounds(list: seq<seq<Lit>>, n: nat)
    ensures var m := VarsOf(list, n);
      && m >= n && (forall i :: 0 <= i < |list| ==> InRange(list[i], m))
      && (m == n || exists i, k :: 0 <= i < |list| && 0 <= k < |list[i]| && list[i][k].v + 1 == m)
  {
    if list != [] {
      var g := GrownBy(list[0], n);
      GrownByBounds(list[0], n);
      hide GrownBy;
      VarsOfBounds(list[1..], g);
      var m := VarsOf(list, n);
      forall i | 0 <= i < |list| ensures InRange(list[i], m) {
        if i > 0 { assert list[i] == list[1..][i - 1]; }
      }
      if m != g {
        var i, k :| 0 <= i < |list[1..]| && 0 <= k < |list[1..][i]| && list[1..][i][k].v + 1 == m;
        assert list[i + 1][k].v + 1 == m;
      } else if m != n {
        var k :| 0 <= k < |list[0]| && list[0][k].v + 1 == g;
        assert list[0][k].v + 1 == m;
      }
    }
  }

  /** The new variables are exactly those below max. */
  lemma RenamedVars(all: seq<seq<Lit>>, map_: seq<int>, max: nat)
    requires NamesOk(map_, max, Used(all)) && ListNamed(map_, all)
    ensures VarsOf(RenameAll(all, map_), 0) == max
  {
    var list := RenameAll(all, map_);
    VarsOfBounds(list, 0);
    var m := VarsOf(list, 0);
    if m > 0 {
      var i, k :| 0 <= i < |list| && 0 <= k < |list[i]| && list[i][k].v + 1 == m;
      assert AllNamed(map_, all[i]) && Named(map_, all[i][k].v);
    }
    if max > 0 {
      assert IsName(map_, max - 1);
      var x: nat :| Named(map_, x) && map_[x] == max - 1;
      var i, k :| 0 <= i < |all| && 0 <= k < |all[i]| && all[i][k].v == x;
      assert list[i][k].v == max - 1;
      assert InRange(list[i], m);
    }
  }

  /**
   * Reading what toDimacs wrote gives the assumption units and the remaining clauses, renamed, over variables 0 to
   * max - 1.
   */
  lemma WrittenIsRead(all: seq<seq<Lit>>, map_: seq<int>, max: nat, vars: nat)
    requires NamesOk(map_, max, Used(all)) && ListNamed(map_, all)
    ensures FileOf(HeaderText(vars, |all|) + LinesText(RenameAll(all, map_)), NOTHING) ==
      Ok(Parsed(vars, |all|, max, RenameAll(all, map_)))
  {
    ReadBack(vars, |all|, RenameAll(all, map_));
    RenamedVars(all, map_, max);
  }

  ghost predicate AllSat(a: Model, list: seq<seq<Lit>>) { forall i :: 0 <= i < |list| ==> Satisfies(a, list[i]) }

  ghost predicate NameIn(a: Model, map_: seq<int>, k: nat) { exists x: nat :: Named(map_, x) && map_[x] == k && x in a }

  /** The model a under the new names. */
  ghost function Image(a: Model, map_: seq<int>): Model {
    iset k: Var | NameIn(a, map_, k)
  }

  ghost function Preimage(b: Model, map_: seq<int>): Model { iset x: Var | Named(map_, x) && map_[x] in b }

  lemma RenamedSatisfies(a: Model, b: Model, map_: seq<int>, c: seq<Lit>)
    requires AllNamed(map_, c) && forall x: nat :: Named(map_, x) ==> (x in a <==> map_[x] in b)
    ensures Satisfies(a, c) <==> Satisfies(b, Rename(c, map_))
  {
    var d := Rename(c, map_);
    forall k | 0 <= k < |c| ensures Holds(a, c[k]) <==> Holds(b, d[k]) {
      assert Named(map_, c[k].v);
    }
    if Satisfies(a, c) {
      var p :| p in c && Holds(a, p);
      var k :| 0 <= k < |c| && c[k] == p;
      assert d[k] in d;
    }
    if Satisfies(b, d) {
      var q :| q in d && Holds(b, q);
      var k :| 0 <= k < |d| && d[k] == q;
      assert c[k] in c;
    }
  }

  lemma RenamingKeepsSatisfiability(all: seq<seq<Lit>>, map_: seq<int>, max: nat, used: set<Var>)
    requires NamesOk(map_, max, used) && ListNamed(map_, all)
    ensures (exists a :: AllSat(a, all)) <==> (exists b :: AllSat(b, RenameAll(all, map_)))
  {
    hide Satisfies;
    if a :| AllSat(a, all) {
      var b := Image(a, map_);
      forall i | 0 <= i < |all| ensures Satisfies(b, Rename(all[i], map_)) {
        assert AllNamed(map_, all[i]);
        RenamedSatisfies(a, b, map_, all[i]);
      }
      assert AllSat(b, RenameAll(all, map_));
    }
    if b :| AllSat(b, RenameAll(all, map_)) {
      var a := Preimage(b, map_);
      forall i | 0 <= i < |all| ensures Satisfies(a, all[i]) {
        assert AllNamed(map_, all[i]) && Satisfies(b, RenameAll(all, map_)[i]);
        RenamedSatisfies(a, b, map_, all[i]);
      }
      assert AllSat(a, all);
    }
  }

  lemma ValueUnder(a: Model, assigns: seq<LBool>, p: Lit)
    requires Verdicts.Agrees(a, assigns) && p.v < |assigns|
    ensures Value(assigns, p) == LTrue ==> Holds(a, p)
    ensures Value(assigns, p) == LFalse ==> !Holds(a, p)
  {
  }

  lemma KeptMeaning(a: Model, assigns: seq<LBool>, c: seq<Lit>)
    requires InRange(c, |assigns|) && Verdicts.Agrees(a, assigns)
    ensures Satisfies(a, c) <==> SatisfiedIn(assigns, c) || Satisfies(a, Kept(assigns, c))
  {
    KeptLits(assigns, c);
    hide Kept;
    if Satisfies(a, c) {
      var p :| p in c && Holds(a, p);
      var k :| 0 <= k < |c| && c[k] == p;
      ValueUnder(a, assigns, p);
      assert p in Kept(assigns, c);
    }
    if SatisfiedIn(assigns, c) {
      var k :| 0 <= k < |c| && Value(assigns, c[k]) == LTrue;
      ValueUnder(a, assigns, c[k]);
      assert c[k] in c;
    }
  }

  /** Under the root assignment, the remaining clauses say what all clauses say. */
  lemma {:induction false} RemainingMeaning(a: Model, assigns: seq<LBool>, cs: seq<seq<Lit>>)
    requires AllInRange(cs, |assigns|) && Verdicts.Agrees(a, assigns)
    ensures AllSat(a, cs) <==> AllSat(a, Remaining(assigns, cs))
  {
    if cs != [] {
      var c, front := cs[|cs| - 1], cs[..|cs| - 1];
      RemainingMeaning(a, assigns, front);
      KeptMeaning(a, assigns, c);
      hide Satisfies, Kept, SatisfiedIn;
      assert cs == front + [c];
      AllSatAppend(a, front, c);
      AllSatAppend(a, Remaining(assigns, front), Kept(assigns, c));
      assert Remaining(assigns, front) + [] == Remaining(assigns, front);
    }
  }

  lemma AllSatAppend(a: Model, list: seq<seq<Lit>>, c: seq<Lit>)
    ensures AllSat(a, list + [c]) <==> AllSat(a, list) && Satisfies(a, c)
  {
    var l := list + [c];
    hide Satisfies;
    assert l[|list|] == c && forall i :: 0 <= i < |list| ==> l[i] == list[i];
  }

  /** In a remaining clause, no variable is assigned. */
  lemma {:induction false} RemainingIsUnassigned(assigns: seq<LBool>, cs: seq<seq<Lit>>)
    requires AllInRange(cs, |assigns|)
    ensures forall i, p :: 0 <= i < |Remaining(assigns, cs)| && p in Remaining(assigns, cs)[i] ==>
      p.v < |assigns| && assigns[p.v] == LUndef
  {
    if cs != [] {
      var c, front := cs[|cs| - 1], cs[..|cs| - 1];
      RemainingIsUnassigned(assigns, front);
      KeptLits(assigns, c);
      hide Kept;
      forall p | !SatisfiedIn(assigns, c) && p in Kept(assigns, c) ensures p.v < |assigns| && assigns[p.v] == LUndef {
        var k :| 0 <= k < |c| && c[k] == p;
      }
    }
  }

  /** The model a, corrected where the root assignment says otherwise. */
  ghost function Corrected(a: Model, assigns: seq<LBool>): Model {
    iset v: Var | if v < |assigns| && assigns[v] != LUndef then assigns[v] == LTrue else v in a
  }

  /**
   * The written problem can be satisfied exactly if the clauses can, together with the root assignment and the
   * assumptions, none of which is false at the root.
   */
  lemma FileMeaning(assigns: seq<LBool>, cs: seq<seq<Lit>>, ps: seq<Lit>)
    requires AllInRange(cs, |assigns|) && InRange(ps, |assigns|)
    requires forall i :: 0 <= i < |ps| ==> Value(assigns, ps[i]) != LFalse
    ensures (exists a :: AllSat(a, Units(ps) + Remaining(assigns, cs))) <==>
      (exists a :: Verdicts.Agrees(a, assigns) && AllSat(a, cs) && AllHold(a, ps))
  {
    var rest, us := Remaining(assigns, cs), Units(ps);
    hide Remaining;
    if a :| AllSat(a, us + rest) {
      var b := Corrected(a, assigns);
      SplitSat(a, us, rest);
      RemainingIsUnassigned(assigns, cs);
      forall i | 0 <= i < |rest| ensures Satisfies(b, rest[i]) {
        assert Satisfies(a, rest[i]);
        var p :| p in rest[i] && Holds(a, p);
        assert Holds(b, p);
      }
      forall i | 0 <= i < |ps| ensures Holds(b, ps[i]) {
        assert Satisfies(a, us[i]) && us[i] == [ps[i]];
      }
      RemainingMeaning(b, assigns, cs);
    }
    if a :| Verdicts.Agrees(a, assigns) && AllSat(a, cs) && AllHold(a, ps) {
      RemainingMeaning(a, assigns, cs);
      forall i | 0 <= i < |us| ensures Satisfies(a, us[i]) {
        assert ps[i] in us[i];
      }
      SplitSat(a, us, rest);
    }
  }

  ghost predicate AllHold(a: Model, ps: seq<Lit>) { forall i :: 0 <= i < |ps| ==> Holds(a, ps[i]) }

  lemma SplitSat(a: Model, list: seq<seq<Lit>>, more: seq<seq<Lit>>)
    ensures AllSat(a, list + more) <==> AllSat(a, list) && AllSat(a, more)
  {
    hide Satisfies;
    var l := list + more;
    assert forall i :: 0 <= i < |list| ==> l[i] == list[i];
    assert forall i :: 0 <= i < |more| ==> l[|list| + i] == more[i];
    if AllSat(a, list) && AllSat(a, more) {
      forall i | 0 <= i < |l| ensures Satisfies(a, l[i]) {
        if i >= |list| { assert l[i] == more[i - |list|]; }
      }
    }
  }

  /** Variables that only assumptions name are missing from the count in the header. */
  lemma NewAssumption()
    ensures Remaining([LUndef], []) == [] && Used([]) == {} && VarSet([Lit(0, false)]) == {0}
    ensures Units([Lit(0, false)]) == [[Lit(0, false)]]
  {
    assert [Lit(0, false)][0].v in VarSet([Lit(0, false)]);
  }

  lemma SomeName(map_: seq<int>, max: nat, used: set<Var>)
    requires NamesOk(map_, max, used) && max > 0
    ensures used != {}
  {
    assert IsName(map_, 0);
  }

  lemma TwoNames(map_: seq<int>, max: nat, used: set<Var>)
    requires NamesOk(map_, max, used) && max > 1
    ensures exists x, y :: x in used && y in used && x != y
  {
    assert IsName(map_, 0) && IsName(map_, 1);
    var x: nat :| Named(map_, x) && map_[x] == 0;
    var y: nat :| Named(map_, y) && map_[y] == 1;
    assert x in used && y in used && x != y;
  }

  lemma OneName(map_: seq<int>, max: nat)
    requires NamesOk(map_, max, {0})
    ensures max == 1 && Named(map_, 0) && map_[0] == 0
  {
    assert 0 in {0} && Named(map_, 0);
    if max > 1 { TwoNames(map_, max, {0}); }
  }

  /**
   * An input on which the header is wrong: no clause and one assumption give one variable, and the header says
   * none.
   */
  method HeaderCountsTooFew() returns (w: Writer)
    ensures w.max == 1 && w.out == HeaderText(0, 1) + LinesText([[Lit(0, false)]])
  {
    w := new Writer();
    NewAssumption();
    ghost var vars := w.ToDimacs(true, [LUndef], [], [Lit(0, false)]);
    ghost var before :| NamesOk(before, vars, {});
    if vars > 0 { SomeName(before, vars, {}); }
    OneName(w.names, w.max);
    assert RenameAll([[Lit(0, false)]], w.names) == [[Lit(0, false)]] by {
      assert Rename([Lit(0, false)], w.names) == [Lit(0, false)];
    }
    assert Units([Lit(0, false)]) + [] == [[Lit(0, false)]];
  }
}
