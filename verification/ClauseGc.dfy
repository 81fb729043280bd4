/** The clause region and its copying collector: an integer-addressed memory with forwarding pointers. */
module ClauseGc {
  import opened SolverTypes
  import opened Subsumption

  type Ref = nat
  const REF_UNDEF: Ref := 0xFFFF_FFFF

  /** One 32-bit word: a clause header, or one of the members of the union that follows it. */
  datatype Word =
    | Header(mark: nat, learnt: bool, hasExtra: bool, reloced: bool, size: nat)
    | LitWord(lit: Lit)
    | ActWord(act: real)
    | AbsWord(abs: bv32)
    | RelWord(rel: Ref)

  type Memory = seq<Word>

  /** clauseWord32Size. */
  function WordSize(size: nat, extra: bool): nat { 1 + size + if extra then 1 else 0 }

  /** A clause as its words say; act is the activity of a learnt clause. */
  datatype Clause = Clause(lits: seq<Lit>, learnt: bool, mark: nat, act: real, hasExtra: bool) {
    function Extent(): nat { WordSize(|lits|, hasExtra) }
  }

  function ExtraWord(c: Clause): Word { if c.learnt then ActWord(c.act) else AbsWord(Abstraction(c.lits)) }

  /** The words of c stand at address r. */
  ghost predicate Stands(mem: Memory, r: Ref, c: Clause) {
    && |c.lits| > 0 && (c.learnt ==> c.hasExtra) && r + c.Extent() <= |mem|
    && mem[r] == Header(c.mark, c.learnt, c.hasExtra, false, |c.lits|)
    && (forall i :: 0 <= i < |c.lits| ==> mem[r + 1 + i] == LitWord(c.lits[i]))
    && (c.hasExtra ==> mem[r + 1 + |c.lits|] == ExtraWord(c))
  }

  /** The clauses that references point to; they may not overlap, but there can be gaps. */
  type Heap = map<Ref, Clause>

  ghost predicate Disjoint(heap: Heap) {
    forall r, s :: r in heap && s in heap && r < s ==> r + heap[r].Extent() <= s
  }

  ghost predicate RegionOk(mem: Memory, heap: Heap) {
    Disjoint(heap) && forall r :: r in heap ==> Stands(mem, r, heap[r])
  }

  /** A copied clause keeps all but the room for an extra word, which learnt clauses always have. */
  function Copy(c: Clause, extra: bool): Clause
  {
    c.(hasExtra := c.learnt || extra, act := if c.learnt then c.act else 0.0)
  }

  /** Clause r has been moved to address fwd[r], and its first words say so. */
  ghost predicate Forwarded(mem: Memory, r: Ref, target: Ref) {
    r + 1 < |mem| && mem[r].Header? && mem[r].reloced && mem[r + 1] == RelWord(target)
  }

  /** In the middle of a collection: the clauses in fwd are copied and forwarded, the others still in place. */
  ghost predicate Moving(heap: Heap, mem: Memory, to: Memory, extra: bool, fwd: map<Ref, Ref>) {
    Disjoint(heap) && InPlace(heap, mem, fwd) && Copied(heap, mem, to, extra, fwd) && Apart(heap, extra, fwd)
  }

  ghost predicate InPlace(heap: Heap, mem: Memory, fwd: map<Ref, Ref>) {
    forall r :: r in heap && r !in fwd ==> Stands(mem, r, heap[r])
  }

  ghost predicate Copied(heap: Heap, mem: Memory, to: Memory, extra: bool, fwd: map<Ref, Ref>) {
    forall r :: r in fwd ==> r in heap && Forwarded(mem, r, fwd[r]) && Stands(to, fwd[r], Copy(heap[r], extra))
  }

  /** No two copies overlap; in particular, different clauses have different copies. */
  ghost predicate Apart(heap: Heap, extra: bool, fwd: map<Ref, Ref>) {
    forall r, s :: r in fwd && s in fwd && r in heap && s in heap && r != s ==>
      fwd[r] + Copy(heap[r], extra).Extent() <= fwd[s] || fwd[s] + Copy(heap[s], extra).Extent() <= fwd[r]
  }

  lemma ApartExtends(heap: Heap, to: Memory, extra: bool, fwd: map<Ref, Ref>, r: Ref)
    requires Apart(heap, extra, fwd) && r in heap
    requires forall s :: s in fwd ==> s in heap && fwd[s] + Copy(heap[s], extra).Extent() <= |to|
    ensures Apart(heap, extra, fwd[r := |to|])
  {
    hide Copy;
  }

  /** The references new are the references old, forwarded. */
  ghost predicate Moved(fwd: map<Ref, Ref>, old_: seq<Ref>, new_: seq<Ref>) {
    |new_| == |old_| && forall i :: 0 <= i < |old_| ==> old_[i] in fwd && new_[i] == fwd[old_[i]]
  }

  ghost predicate Grown(fwd: map<Ref, Ref>, fwd': map<Ref, Ref>)
  {
    forall r :: r in fwd ==> r in fwd' && fwd'[r] == fwd[r]
  }

  lemma GrownByOne(fwd: map<Ref, Ref>, r: Ref, target: Ref)
    requires r !in fwd
    ensures Grown(fwd, fwd) && Grown(fwd, fwd[r := target])
  {
  }

  lemma MovedGrows(fwd: map<Ref, Ref>, fwd': map<Ref, Ref>, old_: seq<Ref>, new_: seq<Ref>)
    requires Moved(fwd, old_, new_) && Grown(fwd, fwd')
    ensures Moved(fwd', old_, new_)
  {
  }

  lemma AppendKeeps(mem: Memory, more: Memory, r: Ref, c: Clause)
    requires Stands(mem, r, c)
    ensures Stands(mem + more, r, c)
  {
  }

  /** Overwriting the first two words of clause r leaves the other clauses alone. */
  lemma ForwardKeepsOthers(mem: Memory, heap: Heap, r: Ref, s: Ref, target: Ref)
    requires Disjoint(heap) && r in heap && s in heap && r != s && Stands(mem, r, heap[r]) && Stands(mem, s, heap[s])
    ensures Stands(Relocated(mem, r, target), s, heap[s])
  {
  }

  lemma ForwardKeepsForwarded(mem: Memory, heap: Heap, r: Ref, s: Ref, target: Ref, t: Ref)
    requires Disjoint(heap) && r in heap && s in heap && r != s && Stands(mem, r, heap[r]) && |heap[s].lits| > 0
    requires Forwarded(mem, s, t)
    ensures Forwarded(Relocated(mem, r, target), s, t)
  {
  }

  /** relocate: the header is marked, and the first literal gives way to the new address. */
  function Relocated(mem: Memory, r: Ref, target: Ref): (mem': Memory)
    requires r + 1 < |mem| && mem[r].Header?
    ensures |mem'| == |mem|
  {
    mem[r := mem[r].(reloced := true)][r + 1 := RelWord(target)]
  }

  lemma RelocStep(heap: Heap, mem: Memory, to: Memory, extra: bool, fwd: map<Ref, Ref>, r: Ref, more: Memory)
    requires Moving(heap, mem, to, extra, fwd) && r in heap && r !in fwd
    requires Stands(to + more, |to|, Copy(heap[r], extra))
    requires forall s :: s in heap ==> |heap[s].lits| > 0
    ensures r + 1 < |mem| && mem[r].Header?
    ensures Moving(heap, Relocated(mem, r, |to|), to + more, extra, fwd[r := |to|])
  {
    assert Stands(mem, r, heap[r]);
    var mem' := Relocated(mem, r, |to|);
    forall s | s in fwd
      ensures s in heap && fwd[s] + Copy(heap[s], extra).Extent() <= |to|
      ensures Forwarded(mem', s, fwd[s]) && Stands(to + more, fwd[s], Copy(heap[s], extra))
    {
      OtherForward(heap, mem, to, extra, fwd, r, s, more);
    }
    assert Forwarded(mem', r, |to|);
    OneMoreCopied(heap, mem', to + more, extra, fwd, r, |to|);
    ApartExtends(heap, to, extra, fwd, r);
    hide Apart, Copied;
    forall s | s in heap && s !in fwd && s != r ensures Stands(mem', s, heap[s]) {
      ForwardKeepsOthers(mem, heap, r, s, |to|);
    }
  }

  lemma OneMoreCopied(heap: Heap, mem: Memory, to: Memory, extra: bool, fwd: map<Ref, Ref>, r: Ref, target: Ref)
    requires Copied(heap, mem, to, extra, fwd) && r in heap
    requires Forwarded(mem, r, target) && Stands(to, target, Copy(heap[r], extra))
    ensures Copied(heap, mem, to, extra, fwd[r := target])
  {
    hide Forwarded, Stands, Copy;
    var fwd' := fwd[r := target];
    forall s | s in fwd' ensures s in heap && Forwarded(mem, s, fwd'[s]) && Stands(to, fwd'[s], Copy(heap[s], extra)) {
      if s != r { assert s in fwd; }
    }
  }

  lemma OtherForward(heap: Heap, mem: Memory, to: Memory, extra: bool, fwd: map<Ref, Ref>, r: Ref, s: Ref, more: Memory)
    requires Moving(heap, mem, to, extra, fwd) && r in heap && r !in fwd && s in fwd && |heap[s].lits| > 0
    ensures r + 1 < |mem| && mem[r].Header? && fwd[s] + Copy(heap[s], extra).Extent() <= |to|
    ensures Forwarded(Relocated(mem, r, |to|), s, fwd[s]) && Stands(to + more, fwd[s], Copy(heap[s], extra))
  {
    ForwardKeepsForwarded(mem, heap, r, s, |to|, fwd[s]);
    AppendKeeps(to, more, fwd[s], Copy(heap[s], extra));
  }

  // ---------- the copies fit ----------

  /** The addresses from r on, n of them. */
  ghost function Interval(r: nat, n: nat): (s: set<nat>)
    ensures |s| == n && forall i: nat :: i in s <==> r <= i < r + n
  {
    if n == 0 then {} else Interval(r, n - 1) + {r + n - 1}
  }

  lemma {:induction false} BelowSize(s: set<nat>, n: nat)
    requires forall x :: x in s ==> x < n
    ensures |s| <= n
  {
    if n > 0 { BelowSize(s - {n - 1}, n - 1); } else { assert s == {}; }
  }

  /** Address x belongs to clause r. */
  ghost predicate Within(heap: Heap, r: Ref, x: nat) { r in heap && r <= x < r + heap[r].Extent() }

  /** s holds no address outside the clauses that have been moved. */
  ghost predicate Vacated(heap: Heap, fwd: map<Ref, Ref>, s: set<nat>) {
    forall x :: x in s ==> exists r :: r in fwd && Within(heap, r, x)
  }

  /** Moving one more clause vacates its words, which nothing else did. */
  lemma VacateOne(heap: Heap, fwd: map<Ref, Ref>, s: set<nat>, r: Ref, target: Ref)
    requires Disjoint(heap) && Vacated(heap, fwd, s) && r in heap && r !in fwd
    ensures Vacated(heap, fwd[r := target], s + Interval(r, heap[r].Extent()))
    ensures |s + Interval(r, heap[r].Extent())| == |s| + heap[r].Extent()
  {
    var t, fwd' := Interval(r, heap[r].Extent()), fwd[r := target];
    forall x | x in t ensures Within(heap, r, x) {
    }
    forall x | x in s ensures x !in t {
      VacatedElsewhere(heap, fwd, s, r, x);
    }
    hide Disjoint, Interval, Within;
    DisjointSize(s, t);
    forall x | x in s + t ensures exists q :: q in fwd' && Within(heap, q, x) {
      if x in s {
        var q :| q in fwd && Within(heap, q, x);
        assert q in fwd';
      } else {
        assert r in fwd';
      }
    }
  }

  lemma DisjointSize(s: set<nat>, t: set<nat>)
    requires forall x :: x in s ==> x !in t
    ensures |s + t| == |s| + |t|
  {
    assert s !! t;
  }

  lemma VacatedElsewhere(heap: Heap, fwd: map<Ref, Ref>, s: set<nat>, r: Ref, x: nat)
    requires Disjoint(heap) && Vacated(heap, fwd, s) && r in heap && r !in fwd && x in s
    ensures !Within(heap, r, x)
  {
    var q :| q in fwd && Within(heap, q, x);
    assert q != r;
  }

  /** The state of a collection from mem to the region to, which has not become larger than what was vacated. */
  ghost predicate CollectOk(heap: Heap, mem: Memory, to: Memory, extra: bool, fwd: map<Ref, Ref>, vacated: set<nat>) {
    && Moving(heap, mem, to, extra, fwd) && Vacated(heap, fwd, vacated) && |to| <= |vacated|
    && (forall r :: r in heap ==> |heap[r].lits| > 0 && r + heap[r].Extent() <= |mem|)
    && (forall r :: r in heap && (heap[r].learnt || extra) ==> heap[r].hasExtra)
  }

  lemma MovingIsDisjoint(heap: Heap, mem: Memory, to: Memory, extra: bool, fwd: map<Ref, Ref>)
    requires Moving(heap, mem, to, extra, fwd)
    ensures Disjoint(heap)
  {
  }

  lemma CopyIsNoLonger(c: Clause, extra: bool)
    requires c.learnt || extra ==> c.hasExtra
    ensures Copy(c, extra).Extent() <= c.Extent()
  {
  }

  lemma TailAppended(s: Memory, t: Memory)
    requires s <= t
    ensures s + t[|s|..] == t
  {
  }

  lemma CollectStep(heap: Heap, mem: Memory, to: Memory, extra: bool, fwd: map<Ref, Ref>, vacated: set<nat>, r: Ref,
                    to': Memory)
    requires CollectOk(heap, mem, to, extra, fwd, vacated) && r in heap && r !in fwd
    requires to <= to' && |to'| == |to| + Copy(heap[r], extra).Extent() && Stands(to', |to|, Copy(heap[r], extra))
    ensures r + 1 < |mem| && mem[r].Header?
    ensures CollectOk(heap,
                      Relocated(mem, r, |to|), to', extra, fwd[r := |to|], vacated + Interval(r, heap[r].Extent()))
  {
    hide Stands, Forwarded, Vacated, Relocated, Interval;
    CopyIsNoLonger(heap[r], extra);
    hide Copy, WordSize;
    MovingIsDisjoint(heap, mem, to, extra, fwd);
    hide Moving, Disjoint;
    TailAppended(to, to');
    RelocStep(heap, mem, to, extra, fwd, r, to'[|to|..]);
    VacateOne(heap, fwd, vacated, r, |to|);
  }

  /** A reference is followed if it is forwarded, and still good if not. */
  lemma LookAt(heap: Heap, mem: Memory, to: Memory, extra: bool, fwd: map<Ref, Ref>, vacated: set<nat>, r: Ref)
    requires CollectOk(heap, mem, to, extra, fwd, vacated) && r in heap
    ensures r + 1 < |mem| && mem[r].Header? && (mem[r].reloced <==> r in fwd)
    ensures if r in fwd then mem[r + 1] == RelWord(fwd[r]) else Stands(mem, r, heap[r])
  {
    if r in fwd { assert Forwarded(mem, r, fwd[r]); } else { assert Stands(mem, r, heap[r]); }
  }

  /** The collected region is no larger than the old one. */
  lemma CopiesFit(heap: Heap, mem: Memory, to: Memory, extra: bool, fwd: map<Ref, Ref>, vacated: set<nat>)
    requires CollectOk(heap, mem, to, extra, fwd, vacated)
    ensures |to| <= |mem|
  {
    forall x | x in vacated ensures x < |mem| {
      var r :| r in fwd && Within(heap, r, x);
    }
    BelowSize(vacated, |mem|);
  }

  // ---------- the allocator ----------

  class ClauseAllocator {
    var memory: Memory
    var wasted: nat
    var extraClauseField: bool

    constructor ()
      ensures memory == [] && wasted == 0 && !extraClauseField
    {
      memory, wasted, extraClauseField := [], 0, false;
    }

    /** alloc: the new clause at the end of the region. */
    method Alloc(lits: seq<Lit>, learnt: bool) returns (cid: Ref)
      requires |lits| > 0
      modifies `memory
      ensures cid == |old(memory)| && old(memory) <= memory
      ensures |memory| == |old(memory)| + WordSize(|lits|, learnt || extraClauseField)
      ensures Stands(memory, cid, Clause(lits, learnt, 0, 0.0, learnt || extraClauseField))
    {
      var useExtra := learnt || extraClauseField;
      cid := |memory|;
      var words := [Header(0, learnt, useExtra, false, |lits|)] +
                   seq(|lits|, i requires 0 <= i < |lits| => LitWord(lits[i]));
      if useExtra {
        if learnt {
          words := words + [ActWord(0.0)];
        } else {
          var abs := CalcAbstraction(lits);
          words := words + [AbsWord(abs)];
        }
      }
      memory := memory + words;
    }

    /** free: the words are only counted. */
    method Free(cid: Ref)
      requires cid < |memory| && memory[cid].Header?
      modifies `wasted
      ensures wasted == old(wasted) + WordSize(memory[cid].size, memory[cid].hasExtra)
    {
      wasted := wasted + WordSize(memory[cid].size, memory[cid].hasExtra);
    }

    method ReadLits(r: Ref, ghost c: Clause) returns (lits: seq<Lit>)
      requires Stands(memory, r, c)
      ensures lits == c.lits
    {
      lits := [];
      var i := 0;
      while i < memory[r].size
        invariant 0 <= i <= |c.lits| && lits == c.lits[..i]
      {
        assert memory[r + 1 + i] == LitWord(c.lits[i]);
        lits := lits + [memory[r + 1 + i].lit];
        i := i + 1;
      }
    }

    /** Copy clause r of this region to the end of the other one. */
    method CopyOut(r: Ref, to: ClauseAllocator, ghost c: Clause) returns (cr: Ref)
      requires Stands(memory, r, c) && to != this
      modifies to`memory
      ensures cr == |old(to.memory)| && old(to.memory) <= to.memory
      ensures Stands(to.memory, cr, Copy(c, to.extraClauseField))
      ensures |to.memory| == |old(to.memory)| + Copy(c, to.extraClauseField).Extent()
    {
      var lits := ReadLits(r, c);
      cr := to.Alloc(lits, memory[r].learnt);
      to.memory := to.memory[cr := to.memory[cr].(mark := memory[r].mark)];
      var size := to.memory[cr].size;
      if to.memory[cr].learnt {
        to.memory := to.memory[cr + 1 + size := memory[r + 1 + size]];
      } else if to.memory[cr].hasExtra {
        var abs := CalcAbstraction(lits);
        to.memory := to.memory[cr + 1 + size := AbsWord(abs)];
      }
    }

    ghost predicate Collecting(heap: Heap, to: ClauseAllocator, fwd: map<Ref, Ref>, vacated: set<nat>)
      reads this, to
    {
      to != this && CollectOk(heap, memory, to.memory, to.extraClauseField, fwd, vacated)
    }

    /** reloc: follow the forwarding pointer, or copy and leave one. */
    method Reloc(r: Ref, to: ClauseAllocator, ghost heap: Heap, ghost fwd: map<Ref, Ref>, ghost vacated: set<nat>)
        returns (cr: Ref, ghost fwd': map<Ref, Ref>, ghost vacated': set<nat>)
      requires Collecting(heap, to, fwd, vacated) && r in heap
      modifies `memory, to`memory
      ensures Collecting(heap, to, fwd', vacated') && Grown(fwd, fwd') && r in fwd' && cr == fwd'[r]
      ensures forall s :: s in fwd' ==> s in fwd || s == r
      ensures |memory| == |old(memory)|
    {
      LookAt(heap, memory, to.memory, to.extraClauseField, fwd, vacated, r);
      fwd', vacated' := fwd, vacated;
      if memory[r].reloced { return memory[r + 1].rel, fwd', vacated'; }
      GrownByOne(fwd, r, |to.memory|);
      hide CollectOk, Stands, Relocated, Copy, Interval, Grown;
      ghost var to0 := to.memory;
      cr := CopyOut(r, to, heap[r]);
      CollectStep(heap, memory, to0, to.extraClauseField, fwd, vacated, r, to.memory);
      memory := Relocated(memory, r, cr);
      fwd', vacated' := fwd[r := cr], vacated + Interval(r, heap[r].Extent());
    }

    /** moveTo: the other allocator takes over this region. */
    method MoveTo(to: ClauseAllocator)
      requires to != this
      modifies this, to
      ensures to.memory == old(memory) && to.wasted == old(wasted) && to.extraClauseField == old(extraClauseField)
      ensures memory == [] && wasted == 0
    {
      to.extraClauseField, to.memory, to.wasted := extraClauseField, memory, wasted;
      memory, wasted := [], 0;
    }
  }

  // ---------- all references ----------

  datatype Watcher = Watcher(cref: Ref, blocker: Lit)

  ghost predicate RefsIn(refs: seq<Ref>, heap: Heap) { forall i :: 0 <= i < |refs| ==> refs[i] in heap }

  ghost predicate WatchersIn(ws: seq<Watcher>, heap: Heap) { forall i :: 0 <= i < |ws| ==> ws[i].cref in heap }

  ghost predicate WatchersMoved(fwd: map<Ref, Ref>, ws: seq<Watcher>, ws': seq<Watcher>) {
    |ws'| == |ws| &&
    forall i :: 0 <= i < |ws| ==> ws[i].cref in fwd && ws'[i] == Watcher(fwd[ws[i].cref], ws[i].blocker)
  }

  ghost predicate ListsMoved(fwd: map<Ref, Ref>, lists: seq<seq<Watcher>>, lists': seq<seq<Watcher>>) {
    |lists'| == |lists| && forall i :: 0 <= i < |lists| ==> WatchersMoved(fwd, lists[i], lists'[i])
  }

  /** The reasons of the variables on the stack are forwarded; all other entries stay. */
  ghost predicate ReasonsMoved(fwd: map<Ref, Ref>, trail: seq<Lit>, n: nat, reasons: seq<Ref>, reasons': seq<Ref>) {
    && |reasons'| == |reasons| && n <= |trail|
    && (forall i :: 0 <= i < |trail| && trail[i].v < |reasons| ==>
          var r, r' := reasons[trail[i].v], reasons'[trail[i].v];
          if i < n && r != REF_UNDEF then r in fwd && r' == fwd[r] else r' == r)
    && forall v :: 0 <= v < |reasons| && (forall i :: 0 <= i < |trail| ==> trail[i].v != v) ==>
         reasons'[v] == reasons[v]
  }

  /** What the solver guarantees of its reasons: the clause has the literal that it implied first. */
  ghost predicate ReasonsIn(trail: seq<Lit>, assigns: seq<LBool>, reasons: seq<Ref>, heap: Heap) {
    && |assigns| == |reasons| && DistinctVars(trail) && InRange(trail, |assigns|)
    && forall i :: 0 <= i < |trail| ==> var r := reasons[trail[i].v];
         assigns[trail[i].v] == Polarity(trail[i]) &&
         (r != REF_UNDEF ==> r in heap && |heap[r].lits| > 0 && heap[r].lits[0] == trail[i])
  }

  /** heap' are the clauses at their new addresses. */
  ghost predicate NewHeap(heap: Heap, extra: bool, fwd: map<Ref, Ref>, heap': Heap) {
    && (forall r :: r in fwd ==> r in heap && fwd[r] in heap' && heap'[fwd[r]] == Copy(heap[r], extra))
    && (forall t :: t in heap' ==> exists r :: r in fwd && fwd[r] == t)
  }

  lemma MakeNewHeap(heap: Heap, extra: bool, fwd: map<Ref, Ref>) returns (heap': Heap)
    requires Apart(heap, extra, fwd) && forall r :: r in fwd ==> r in heap
    ensures NewHeap(heap, extra, fwd, heap')
  {
    hide Copy;
    var todo := fwd.Keys;
    heap' := map[];
    while todo != {}
      invariant todo <= fwd.Keys
      invariant forall r :: r in fwd && r !in todo ==> fwd[r] in heap' && heap'[fwd[r]] == Copy(heap[r], extra)
      invariant forall t :: t in heap' ==> exists r :: r in fwd && r !in todo && fwd[r] == t
    {
      var r :| r in todo;
      var heap0, todo0 := heap', todo;
      heap', todo := heap'[fwd[r] := Copy(heap[r], extra)], todo - {r};
      forall s | s in fwd && s !in todo ensures fwd[s] in heap' && heap'[fwd[s]] == Copy(heap[s], extra) {
        if s != r { DifferentTargets(heap, extra, fwd, r, s); }
      }
      forall t | t in heap' ensures exists q :: q in fwd && q !in todo && fwd[q] == t {
        if t in heap0 {
          var q :| q in fwd && q !in todo0 && fwd[q] == t;
        } else {
          assert fwd[r] == t;
        }
      }
    }
  }

  lemma DifferentTargets(heap: Heap, extra: bool, fwd: map<Ref, Ref>, r: Ref, s: Ref)
    requires Apart(heap, extra, fwd) && r in fwd && s in fwd && r in heap && s in heap
    ensures fwd[r] == fwd[s] <==> r == s
  {
  }

  lemma NewRegion(heap: Heap, mem: Memory, to: Memory, extra: bool, fwd: map<Ref, Ref>, heap': Heap)
    requires Copied(heap, mem, to, extra, fwd) && Apart(heap, extra, fwd) && NewHeap(heap, extra, fwd, heap')
    ensures RegionOk(to, heap')
  {
    hide Stands, Copy, Forwarded;
    forall t | t in heap' ensures Stands(to, t, heap'[t]) {
      var r :| r in fwd && fwd[r] == t;
    }
    forall t, u | t in heap' && u in heap' && t < u ensures t + heap'[t].Extent() <= u {
      var r :| r in fwd && fwd[r] == t;
      var s :| s in fwd && fwd[s] == u;
    }
  }

  /** Nothing but what s holds has been moved since fwd. */
  ghost predicate Only(fwd: map<Ref, Ref>, fwd': map<Ref, Ref>, s: set<Ref>)
  {
    forall r :: r in fwd' ==> r in fwd || r in s
  }

  lemma OnlyTwice(fwd: map<Ref, Ref>, fwd': map<Ref, Ref>, fwd'': map<Ref, Ref>, s: set<Ref>, t: set<Ref>)
    requires Only(fwd, fwd', s) && Only(fwd', fwd'', t)
    ensures Only(fwd, fwd'', s + t)
  {
  }

  ghost function RefSet(refs: seq<Ref>): set<Ref> { set r | r in refs }

  ghost function WatcherSet(ws: seq<Watcher>): set<Ref> { set w | w in ws :: w.cref }

  ghost function ListSet(lists: seq<seq<Watcher>>): set<Ref>
  {
    set i, j | 0 <= i < |lists| && 0 <= j < |lists[i]| :: lists[i][j].cref
  }

  ghost function ReasonSet(trail: seq<Lit>, reasons: seq<Ref>): set<Ref> {
    set i | 0 <= i < |trail| && trail[i].v < |reasons| && reasons[trail[i].v] != REF_UNDEF :: reasons[trail[i].v]
  }

  class ClauseRefs {
    var ca: ClauseAllocator
    var watches: seq<seq<Watcher>>
    var trail: seq<Lit>
    var assigns: seq<LBool>
    var reasons: seq<Ref>
    var learnts: seq<Ref>
    var clauses: seq<Ref>

    constructor (ca: ClauseAllocator)
      ensures this.ca == ca && watches == [] && trail == [] && assigns == []
      ensures reasons == [] && learnts == [] && clauses == []
    {
      this.ca := ca;
      watches, trail, assigns, reasons, learnts, clauses := [], [], [], [], [], [];
    }

    static method RelocRefs(ca: ClauseAllocator, to: ClauseAllocator, refs: seq<Ref>, ghost heap: Heap,
                            ghost fwd: map<Ref, Ref>, ghost vacated: set<nat>)
        returns (refs': seq<Ref>, ghost fwd': map<Ref, Ref>, ghost vacated': set<nat>)
      requires ca.Collecting(heap, to, fwd, vacated) && RefsIn(refs, heap)
      modifies ca`memory, to`memory
      ensures ca.Collecting(heap, to, fwd', vacated') && Grown(fwd, fwd')
      ensures Moved(fwd', refs, refs') && |ca.memory| == |old(ca.memory)|
      ensures Only(fwd, fwd', RefSet(refs))
    {
      refs', fwd', vacated' := [], fwd, vacated;
      hide CollectOk;
      var i := 0;
      while i < |refs|
        invariant 0 <= i <= |refs| && ca.Collecting(heap, to, fwd', vacated')
        invariant Grown(fwd, fwd') && Moved(fwd', refs[..i], refs')
        invariant Only(fwd, fwd', RefSet(refs))
        invariant |ca.memory| == |old(ca.memory)|
      {
        var r;
        ghost var fwd0 := fwd';
        r, fwd', vacated' := ca.Reloc(refs[i], to, heap, fwd', vacated');
        MovedGrows(fwd0, fwd', refs[..i], refs');
        refs' := refs' + [r];
        i := i + 1;
      }
      assert refs[..i] == refs;
    }

    static method RelocWatchers(ca: ClauseAllocator, to: ClauseAllocator, ws: seq<Watcher>, ghost heap: Heap,
                                ghost fwd: map<Ref, Ref>, ghost vacated: set<nat>)
        returns (ws': seq<Watcher>, ghost fwd': map<Ref, Ref>, ghost vacated': set<nat>)
      requires ca.Collecting(heap, to, fwd, vacated) && WatchersIn(ws, heap)
      modifies ca`memory, to`memory
      ensures ca.Collecting(heap, to, fwd', vacated') && Grown(fwd, fwd')
      ensures WatchersMoved(fwd', ws, ws') && |ca.memory| == |old(ca.memory)|
      ensures Only(fwd, fwd', WatcherSet(ws))
    {
      ws', fwd', vacated' := [], fwd, vacated;
      hide CollectOk;
      var j := 0;
      while j < |ws|
        invariant 0 <= j <= |ws| && ca.Collecting(heap, to, fwd', vacated')
        invariant Grown(fwd, fwd') && WatchersMoved(fwd', ws[..j], ws')
        invariant Only(fwd, fwd', WatcherSet(ws))
        invariant |ca.memory| == |old(ca.memory)|
      {
        var r;
        ghost var fwd0 := fwd';
        assert ws[j] in ws;
        r, fwd', vacated' := ca.Reloc(ws[j].cref, to, heap, fwd', vacated');
        WatchersMovedGrows(fwd0, fwd', ws[..j], ws');
        ws' := ws' + [Watcher(r, ws[j].blocker)];
        j := j + 1;
      }
      assert ws[..j] == ws;
    }

    /** The watcher lists, after cleaning. */
    method RelocLists(to: ClauseAllocator, ghost heap: Heap, ghost fwd: map<Ref, Ref>, ghost vacated: set<nat>)
        returns (ghost fwd': map<Ref, Ref>, ghost vacated': set<nat>)
      requires ca.Collecting(heap, to, fwd, vacated) && forall i :: 0 <= i < |watches| ==> WatchersIn(watches[i], heap)
      modifies `watches, ca`memory, to`memory
      ensures ca.Collecting(heap, to, fwd', vacated') && Grown(fwd, fwd') && ListsMoved(fwd', old(watches), watches)
      ensures |ca.memory| == |old(ca.memory)| && Only(fwd, fwd', ListSet(old(watches)))
    {
      fwd', vacated' := fwd, vacated;
      hide CollectOk, WatchersMoved, WatchersIn;
      var i := 0;
      while i < |watches|
        invariant 0 <= i <= |watches| == |old(watches)| && ca.Collecting(heap, to, fwd', vacated') && Grown(fwd, fwd')
        invariant forall x :: 0 <= x < i ==> WatchersMoved(fwd', old(watches)[x], watches[x])
        invariant forall x :: i <= x < |watches| ==> watches[x] == old(watches)[x]
        invariant |ca.memory| == |old(ca.memory)| && Only(fwd, fwd', ListSet(old(watches)))
      {
        var ws;
        ghost var fwd0 := fwd';
        ws, fwd', vacated' := RelocWatchers(ca, to, watches[i], heap, fwd', vacated');
        forall x | 0 <= x < i ensures WatchersMoved(fwd', old(watches)[x], watches[x]) {
          WatchersMovedGrows(fwd0, fwd', old(watches)[x], watches[x]);
        }
        OneListOnly(fwd, fwd0, fwd', old(watches), i);
        watches := watches[i := ws];
        i := i + 1;
      }
    }

    /** locked, for a clause that has not been moved. */
    method Locked(r: Ref, ghost c: Clause) returns (b: bool)
      requires Stands(ca.memory, r, c) && c.lits[0].v < |assigns| == |reasons|
      ensures b <==>
        assigns[c.lits[0].v] == Polarity(c.lits[0]) && reasons[c.lits[0].v] != REF_UNDEF && reasons[c.lits[0].v] == r
    {
      assert ca.memory[r + 1 + 0] == LitWord(c.lits[0]);
      var p := ca.memory[r + 1].lit;
      b := assigns[p.v] == Polarity(p) && reasons[p.v] != REF_UNDEF && reasons[p.v] == r;
    }

    /** The reasons of assigned variables; all of them turn out to be moved or locked. */
    method RelocReasons(to: ClauseAllocator, ghost heap: Heap, ghost fwd: map<Ref, Ref>, ghost vacated: set<nat>)
        returns (ghost fwd': map<Ref, Ref>, ghost vacated': set<nat>)
      requires ca.Collecting(heap, to, fwd, vacated) && ReasonsIn(trail, assigns, reasons, heap)
      modifies `reasons, ca`memory, to`memory
      ensures ca.Collecting(heap, to, fwd', vacated') && Grown(fwd, fwd')
      ensures ReasonsMoved(fwd', trail, |trail|, old(reasons), reasons)
      ensures |ca.memory| == |old(ca.memory)| && Only(fwd, fwd', ReasonSet(trail, old(reasons)))
    {
      fwd', vacated' := fwd, vacated;
      hide CollectOk, ReasonsMoved;
      NoReasonMoved(fwd, trail, reasons);
      var i := 0;
      while i < |trail|
        invariant 0 <= i <= |trail| && ca.Collecting(heap, to, fwd', vacated') && Grown(fwd, fwd')
        invariant |reasons| == |old(reasons)| && ReasonsMoved(fwd', trail, i, old(reasons), reasons)
        invariant |ca.memory| == |old(ca.memory)| && Only(fwd, fwd', ReasonSet(trail, old(reasons)))
      {
        var v := trail[i].v;
        ReasonOf(fwd', trail, i, old(reasons), reasons);
        ghost var fwd0, reasons0 := fwd', reasons;
        if reasons[v] != REF_UNDEF {
          var r := reasons[v];
          LookAt(heap, ca.memory, to.memory, to.extraClauseField, fwd', vacated', r);
          var goOn := ca.memory[r].reloced;
          if !goOn { goOn := Locked(r, heap[r]); }
          if goOn {
            r, fwd', vacated' := ca.Reloc(r, to, heap, fwd', vacated');
            reasons := reasons[v := r];
          }
        }
        NextReasonMoved(fwd0, fwd', trail, i, old(reasons), reasons0, reasons);
        i := i + 1;
      }
    }

    /** relocAll, after the watcher lists have been cleaned. */
    method RelocAll(to: ClauseAllocator, ghost heap: Heap) returns (ghost fwd: map<Ref, Ref>, ghost vacated: set<nat>)
      requires ca.Collecting(heap, to, map[], {}) && RefsIn(learnts, heap) && RefsIn(clauses, heap)
      requires ReasonsIn(trail, assigns, reasons, heap)
      requires forall i :: 0 <= i < |watches| ==> WatchersIn(watches[i], heap)
      modifies `watches, `reasons, `learnts, `clauses, ca`memory, to`memory
      ensures ca.Collecting(heap, to, fwd, vacated) && |ca.memory| == |old(ca.memory)|
      ensures ListsMoved(fwd, old(watches), watches) && ReasonsMoved(fwd, trail, |trail|, old(reasons), reasons)
      ensures Moved(fwd, old(learnts), learnts) && Moved(fwd, old(clauses), clauses)
      ensures Only(map[], fwd, ListSet(old(watches)) + ReasonSet(trail, old(reasons)) +
                                RefSet(old(learnts)) + RefSet(old(clauses)))
    {
      hide Only, ListSet, ReasonSet, RefSet;
      hide CollectOk, ListsMoved, ReasonsMoved, Moved, ReasonsIn, RefsIn, Grown;
      var fwd1, vac1 := RelocLists(to, heap, map[], {});
      var fwd2, vac2 := RelocReasons(to, heap, fwd1, vac1);
      var ls, fwd3, vac3 := RelocRefs(ca, to, learnts, heap, fwd2, vac2);
      learnts := ls;
      var cs, fwd4, vac4 := RelocRefs(ca, to, clauses, heap, fwd3, vac3);
      clauses := cs;
      fwd, vacated := fwd4, vac4;
      OnlyTwice(map[], fwd1, fwd2, ListSet(old(watches)), ReasonSet(trail, old(reasons)));
      OnlyTwice(map[], fwd2, fwd3, ListSet(old(watches)) + ReasonSet(trail, old(reasons)), RefSet(old(learnts)));
      OnlyTwice(map[], fwd3, fwd4, ListSet(old(watches)) + ReasonSet(trail, old(reasons)) + RefSet(old(learnts)),
                RefSet(old(clauses)));
      ListsMovedGrows(fwd1, fwd2, old(watches), watches);
      ListsMovedGrows(fwd2, fwd3, old(watches), watches);
      ListsMovedGrows(fwd3, fwd4, old(watches), watches);
      ReasonsMovedGrows(fwd2, fwd3, trail, old(reasons), reasons);
      ReasonsMovedGrows(fwd3, fwd4, trail, old(reasons), reasons);
      MovedGrows(fwd3, fwd4, old(learnts), learnts);
    }

    /**
     * garbageCollect: afterwards every reference points to a copy of the clause it pointed to, equal references stay
     * equal and different ones different, nothing but what is referenced was copied, no two copies overlap, and the
     * region has not grown, also if it drops an extra field that the clauses were stored with.
     */
    method GarbageCollect(ghost heap: Heap) returns (ghost fwd: map<Ref, Ref>, ghost heap': Heap)
      requires RegionOk(ca.memory, heap) && RefsIn(learnts, heap) && RefsIn(clauses, heap)
      requires ca.extraClauseField ==> forall r :: r in heap ==> heap[r].hasExtra
      requires ReasonsIn(trail, assigns, reasons, heap)
      requires forall i :: 0 <= i < |watches| ==> WatchersIn(watches[i], heap)
      modifies `watches, `reasons, `learnts, `clauses, ca
      ensures ListsMoved(fwd, old(watches), watches) && ReasonsMoved(fwd, trail, |trail|, old(reasons), reasons)
      ensures Moved(fwd, old(learnts), learnts) && Moved(fwd, old(clauses), clauses)
      ensures Only(map[], fwd, ListSet(old(watches)) + ReasonSet(trail, old(reasons)) +
                                RefSet(old(learnts)) + RefSet(old(clauses)))
      ensures RegionOk(ca.memory, heap') && NewHeap(heap, ca.extraClauseField, fwd, heap')
      ensures forall r, s :: r in fwd && s in fwd ==> (fwd[r] == fwd[s] <==> r == s)
      ensures |ca.memory| <= |old(ca.memory)| && ca.extraClauseField == old(ca.extraClauseField) && ca == old(ca)
    {
      var to := new ClauseAllocator();
      to.extraClauseField := ca.extraClauseField;
      StartCollection(heap, ca.memory, to.extraClauseField);
      hide Only, ListSet, ReasonSet, RefSet, RegionOk, ListsMoved, ReasonsMoved, Moved, ReasonsIn, RefsIn, WatchersIn;
      hide CollectOk, Stands, NewHeap;
      ghost var vacated;
      fwd, vacated := RelocAll(to, heap);
      heap' := CollectionDone(heap, ca.memory, to.memory, to.extraClauseField, fwd, vacated);
      to.MoveTo(ca);
    }
  }

  lemma OneListOnly(fwd: map<Ref, Ref>, fwd': map<Ref, Ref>, fwd'': map<Ref, Ref>, lists: seq<seq<Watcher>>, i: nat)
    requires i < |lists| && Only(fwd, fwd', ListSet(lists)) && Only(fwd', fwd'', WatcherSet(lists[i]))
    ensures Only(fwd, fwd'', ListSet(lists))
  {
    forall r | r in WatcherSet(lists[i]) ensures r in ListSet(lists) {
      var w :| w in lists[i] && w.cref == r;
      var j :| 0 <= j < |lists[i]| && lists[i][j] == w;
    }
  }

  lemma StartCollection(heap: Heap, mem: Memory, extra: bool)
    requires RegionOk(mem, heap) && (extra ==> forall r :: r in heap ==> heap[r].hasExtra)
    ensures CollectOk(heap, mem, [], extra, map[], {})
  {
  }

  lemma CollectionDone(heap: Heap, mem: Memory, to: Memory, extra: bool, fwd: map<Ref, Ref>, vacated: set<nat>)
      returns (heap': Heap)
    requires CollectOk(heap, mem, to, extra, fwd, vacated)
    ensures RegionOk(to, heap') && NewHeap(heap, extra, fwd, heap') && |to| <= |mem|
    ensures forall r, s :: r in fwd && s in fwd ==> (fwd[r] == fwd[s] <==> r == s)
  {
    CopiesFit(heap, mem, to, extra, fwd, vacated);
    hide Stands, Forwarded;
    assert forall r :: r in fwd ==> r in heap;
    forall r, s | r in fwd && s in fwd ensures fwd[r] == fwd[s] <==> r == s {
      DifferentTargets(heap, extra, fwd, r, s);
    }
    heap' := MakeNewHeap(heap, extra, fwd);
    NewRegion(heap, mem, to, extra, fwd, heap');
  }

  lemma WatchersMovedGrows(fwd: map<Ref, Ref>, fwd': map<Ref, Ref>, ws: seq<Watcher>, ws': seq<Watcher>)
    requires WatchersMoved(fwd, ws, ws') && Grown(fwd, fwd')
    ensures WatchersMoved(fwd', ws, ws')
  {
  }

  lemma ListsMovedGrows(fwd: map<Ref, Ref>, fwd': map<Ref, Ref>, lists: seq<seq<Watcher>>, lists': seq<seq<Watcher>>)
    requires ListsMoved(fwd, lists, lists') && Grown(fwd, fwd')
    ensures ListsMoved(fwd', lists, lists')
  {
    hide Grown, WatchersMoved;
    forall i | 0 <= i < |lists| ensures WatchersMoved(fwd', lists[i], lists'[i]) {
      WatchersMovedGrows(fwd, fwd', lists[i], lists'[i]);
    }
  }

  lemma ReasonsMovedGrows(fwd: map<Ref, Ref>, fwd': map<Ref, Ref>, trail: seq<Lit>, reasons: seq<Ref>,
                          reasons': seq<Ref>)
    requires ReasonsMoved(fwd, trail, |trail|, reasons, reasons') && Grown(fwd, fwd')
    ensures ReasonsMoved(fwd', trail, |trail|, reasons, reasons')
  {
  }

  lemma NoReasonMoved(fwd: map<Ref, Ref>, trail: seq<Lit>, reasons: seq<Ref>)
    ensures ReasonsMoved(fwd, trail, 0, reasons, reasons)
  {
  }

  lemma ReasonOf(fwd: map<Ref, Ref>, trail: seq<Lit>, i: nat, reasons: seq<Ref>, reasons': seq<Ref>)
    requires ReasonsMoved(fwd, trail, i, reasons, reasons') && i < |trail| && trail[i].v < |reasons|
    ensures |reasons'| == |reasons| && reasons'[trail[i].v] == reasons[trail[i].v]
  {
  }

  lemma NextReasonMoved(fwd: map<Ref, Ref>, fwd': map<Ref, Ref>, trail: seq<Lit>, i: nat, reasons: seq<Ref>,
                        now: seq<Ref>, next: seq<Ref>)
    requires ReasonsMoved(fwd, trail, i, reasons, now) && Grown(fwd, fwd')
    requires i < |trail| && trail[i].v < |reasons| && DistinctVars(trail)
    requires var v := trail[i].v;
      if reasons[v] == REF_UNDEF then next == now else reasons[v] in fwd' && next == now[v := fwd'[reasons[v]]]
    ensures ReasonsMoved(fwd', trail, i + 1, reasons, next)
  {
  }
}
