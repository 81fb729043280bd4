/** The order in which learnt clauses are considered for removal. */
module Reduction {
  import opened SolverTypes
  import opened Trails
  import opened Database
  import opened Soundness
  import opened Watches
  import opened Propagation
  import Sort

  type Activity = map<CRef, real>

  function ActivityOf(act: Activity, r: CRef): real { if r in act then act[r] else 0.0 }

  function Size(ca: seq<ClauseRec>, r: CRef): nat { if 0 <= r < |ca| && |ca[r].lits| >= 2 then |ca[r].lits| else 2 }

  /** reduceDB_lt: long clauses by activity, then the binary ones. */
  function Less(ca: seq<ClauseRec>, act: Activity): (CRef, CRef) -> bool {
    (x, y) => Size(ca, x) > 2 && (Size(ca, y) == 2 || ActivityOf(act, x) < ActivityOf(act, y))
  }

  lemma LessIsStrictWeak(ca: seq<ClauseRec>, act: Activity)
    ensures Sort.StrictWeak(Less(ca, act))
  {
  }

  /** Long clauses first, those of less activity before those of more; binary clauses last. */
  ghost predicate ByActivity(ca: seq<ClauseRec>, act: Activity, order: seq<CRef>) {
    forall i, j :: 0 <= i < j < |order| && Size(ca, order[j]) > 2 ==>
      Size(ca, order[i]) > 2 && ActivityOf(act, order[i]) <= ActivityOf(act, order[j])
  }

  lemma SortedIsByActivity(ca: seq<ClauseRec>, act: Activity, order: seq<CRef>)
    ensures Sort.Sorted(order, Less(ca, act)) <==> ByActivity(ca, act, order)
  {
    hide ActivityOf;
    var lt := Less(ca, act);
    forall i, j | 0 <= i < j < |order|
      ensures !lt(order[j], order[i]) <==>
              (Size(ca, order[j]) > 2 ==>
                Size(ca, order[i]) > 2 && ActivityOf(act, order[i]) <= ActivityOf(act, order[j]))
    {
    }
  }

  method SortRefs(rs: seq<CRef>, ca: seq<ClauseRec>, act: Activity) returns (out: seq<CRef>)
    ensures ByActivity(ca, act, out) && multiset(out) == multiset(rs)
  {
    LessIsStrictWeak(ca, act);
    var a := new CRef[|rs|](i requires 0 <= i < |rs| => rs[i]);
    assert a[..] == rs;
    Sort.Sort(a, 0, a.Length, Less(ca, act));
    out := a[..];
    assert out == out[0..a.Length] && rs == rs[0..a.Length];
    SortedIsByActivity(ca, act, out);
  }

  /** What reduceDB drops: neither binary nor locked, and in the first half or of low activity. */
  ghost predicate Dropped(t: Trail, ca: seq<ClauseRec>, act: Activity, lim: real, order: seq<CRef>, i: nat)
    requires i < |order|
  {
    Size(ca, order[i]) > 2 && !Locked(t, ca, order[i]) && (i < |order| / 2 || ActivityOf(act, order[i]) < lim)
  }

  lemma {:induction false} OnceInMultiset(s: seq<CRef>, x: CRef)
    requires NoRepeats(s)
    ensures multiset(s)[x] <= 1
  {
    if s != [] {
      var last := |s| - 1;
      OnceInMultiset(s[..last], x);
      assert s == s[..last] + [s[last]];
      if s[last] == x { assert x !in s[..last]; }
    }
  }

  lemma PermutedHasNoRepeats(s: seq<CRef>, s': seq<CRef>)
    requires NoRepeats(s) && multiset(s') == multiset(s)
    ensures NoRepeats(s') && forall r :: r in s' <==> r in s
  {
    forall r ensures r in s' <==> r in s {
      assert r in s' <==> r in multiset(s');
      assert r in s <==> r in multiset(s);
    }
    forall i, j | 0 <= i < j < |s'| ensures s'[i] != s'[j] {
      OnceInMultiset(s, s'[i]);
      assert s' == s'[..i] + [s'[i]] + s'[i + 1..j] + [s'[j]] + s'[j + 1..];
    }
  }

  lemma PermuteLearnts(f: set<seq<Lit>>, t: Trail, ca: seq<ClauseRec>, ws: Lists, dirty: set<Lit>, dirties: seq<Lit>,
                       q: nat, clauses: seq<CRef>, learnts: seq<CRef>, learnts': seq<CRef>)
    requires DatabaseOk(f, t, ca, ws, dirty, dirties, q, clauses, learnts) && multiset(learnts') == multiset(learnts)
    ensures DatabaseOk(f, t, ca, ws, dirty, dirties, q, clauses, learnts') && NoRepeats(learnts')
    ensures forall r :: r in learnts' <==> r in learnts
  {
    hide Idle, Sound, Complete, DirtiesListed;
    PermutedHasNoRepeats(learnts, learnts');
  }

  /** The first i of order are split into those kept and those dropped. */
  ghost predicate SplitUpTo(t: Trail, ca: seq<ClauseRec>, act: Activity, lim: real, order: seq<CRef>, i: nat,
                            kept: seq<CRef>, gone: set<CRef>)
    requires i <= |order|
  {
    && (forall j :: 0 <= j < i ==> (order[j] in gone <==> Dropped(t, ca, act, lim, order, j)))
    && (forall r :: r in gone ==> r in order[..i])
    && (forall r :: r in kept <==> (r in order[..i] && r !in gone))
  }

  lemma SplitNext(t: Trail, ca: seq<ClauseRec>, act: Activity, lim: real, order: seq<CRef>, i: nat, kept: seq<CRef>,
                  gone: set<CRef>)
    requires i < |order| && NoRepeats(order) && SplitUpTo(t, ca, act, lim, order, i, kept, gone)
    ensures if Dropped(t, ca, act, lim, order, i) then SplitUpTo(t, ca, act, lim, order, i + 1, kept, gone + {order[i]})
            else SplitUpTo(t, ca, act, lim, order, i + 1, kept + [order[i]], gone)
  {
    hide Dropped;
    assert order[..i + 1] == order[..i] + [order[i]];
    assert order[i] !in order[..i];
    assert forall j :: 0 <= j < i ==> order[j] in order[..i];
  }
}
