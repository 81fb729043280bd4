/** The restart limits of solve_, and why they outgrow every bound. */
module Restarts {
  function RealPow(y: real, e: nat): real { if e == 0 then 1.0 else y * RealPow(y, e - 1) }

  /** The finite subsequences of the Luby sequence, as exponents: each one twice, then its own number. */
  function LubySeq(k: nat): (s: seq<nat>)
    ensures |s| > k && s[|s| - 1] == k
  {
    if k == 0 then [0] else LubySeq(k - 1) + LubySeq(k - 1) + [k]
  }

  /** Each subsequence starts the next. */
  lemma {:induction false} LubyPrefix(k: nat, j: nat, x: nat)
    requires k <= j && x < |LubySeq(k)|
    ensures x < |LubySeq(j)| && LubySeq(j)[x] == LubySeq(k)[x]
    decreases j - k
  {
    if k < j {
      assert LubySeq(k + 1)[x] == LubySeq(k)[x];
      LubyPrefix(k + 1, j, x);
    }
  }

  /** An index before the last of a subsequence points into one of its two halves. */
  lemma LubyHalf(k: nat, x: nat)
    requires k > 0 && x < |LubySeq(k)| - 1
    ensures x % |LubySeq(k - 1)| < |LubySeq(k - 1)| && LubySeq(k)[x] == LubySeq(k - 1)[x % |LubySeq(k - 1)|]
  {
    var half := LubySeq(k - 1);
    assert LubySeq(k) == half + half + [k] && x < 2 * |half|;
    hide LubySeq;
    ModOnce(x, |half|);
    assert (half + half + [k])[x] == if x < |half| then half[x] else half[x - |half|];
  }

  lemma ModOnce(x: nat, n: nat)
    requires x < 2 * n
    ensures x % n == if x < n then x else x - n
  {
  }

  /** luby: find the subsequence that holds index x, then descend into halves until x is its last index. */
  method Luby(y: real, x0: nat) returns (r: real)
    ensures forall k :: x0 < |LubySeq(k)| ==> r == RealPow(y, LubySeq(k)[x0])
  {
    var size: nat, k: nat, x: nat := 1, 0, x0;
    while size < x + 1
      invariant size == |LubySeq(k)|
      decreases x - size
    {
      k, size := k + 1, 2 * size + 1;
    }
    ghost var top := k;
    while size - 1 != x
      invariant size == |LubySeq(k)| && x < size && LubySeq(k)[x] == LubySeq(top)[x0]
      decreases k
    {
      LubyHalf(k, x);
      k, size := k - 1, (size - 1) / 2;
      x := x % size;
    }
    r := RealPow(y, k);
    forall j | x0 < |LubySeq(j)| ensures LubySeq(j)[x0] == k {
      if j <= top { LubyPrefix(j, top, x0); } else { LubyPrefix(top, j, x0); }
    }
  }

  /** The conflict limit of the i-th search. */
  function Limit(luby: bool, inc: real, first: nat, i: nat): int {
    (RealPow(inc, if luby then LubySeq(i)[i] else i) * first as real).Floor
  }

  lemma LimitIs(luby: bool, inc: real, first: nat, i: nat, base: real)
    requires if luby then forall k :: i < |LubySeq(k)| ==>
      base == RealPow(inc, LubySeq(k)[i]) else base == RealPow(inc, i)
    ensures (base * first as real).Floor == Limit(luby, inc, first, i)
  {
  }

  lemma {:induction false} PowerGrows(y: real, e: nat)
    requires y >= 1.0
    ensures RealPow(y, e) >= 1.0 + (e as real) * (y - 1.0)
  {
    if e > 0 {
      PowerGrows(y, e - 1);
      BernoulliStep(y - 1.0, RealPow(y, e - 1), (e - 1) as real);
    }
  }

  lemma BernoulliStep(d: real, p: real, q: real)
    requires d >= 0.0 && q >= 0.0 && p >= 1.0 + q * d
    ensures (1.0 + d) * p >= 1.0 + (q + 1.0) * d
  {
    var t := q * d;
    Scale(q, d, 0.0);
    Scale(1.0 + d, p, 1.0 + t);
    Scale(d, t, 0.0);
    assert (1.0 + d) * (1.0 + t) == 1.0 + t + d + d * t;
    assert (q + 1.0) * d == t + d;
  }

  lemma Scale(y: real, a: real, b: real)
    requires y >= 0.0 && a >= b
    ensures y * a >= y * b
  {
  }

  /** Some search, by either scheme, has a limit above the bound. */
  lemma LimitsGrow(luby: bool, inc: real, first: nat, bound: nat) returns (n: nat)
    requires inc > 1.0 && first >= 1
    ensures Limit(luby, inc, first, n) > bound
  {
    var e := PowerExceeds(inc, first as real, bound as real);
    hide RealPow;
    FloorAbove(RealPow(inc, e) * first as real, bound);
    if luby {
      n := |LubySeq(e)| - 1;
      LubyPrefix(e, n, n);
      assert LubySeq(n)[n] == e;
    } else {
      n := e;
    }
  }

  lemma PowerExceeds(inc: real, first: real, bound: real) returns (e: nat)
    requires inc > 1.0 && first >= 1.0 && bound >= 0.0
    ensures RealPow(inc, e) * first >= 1.0 + bound
  {
    hide RealPow;
    e := EnoughSteps(inc - 1.0, bound);
    PowerGrows(inc, e);
    Scale(RealPow(inc, e), first, 1.0);
  }

  lemma FloorAbove(r: real, b: int)
    requires r >= 1.0 + b as real
    ensures r.Floor > b
  {
  }

  lemma EnoughSteps(d: real, a: real) returns (e: nat)
    requires d > 0.0 && a >= 0.0
    ensures (e as real) * d >= a
  {
    e := (a / d).Floor + 1;
    Scale(d, e as real, a / d);
  }
}
