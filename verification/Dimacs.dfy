/** Writing the remaining problem as DIMACS text, and reading such text. */
module Dimacs {
  import opened SolverTypes

  datatype Result<T> = Ok(value: T) | ParseError

  // ---------- characters and numbers ----------

  predicate IsSpace(c: char) { 9 <= c as int <= 13 || c == ' ' }

  predicate IsDigit(c: char) { '0' <= c <= '9' }

  predicate AllDigits(s: string) { forall i :: 0 <= i < |s| ==> IsDigit(s[i]) }

  function DigitValue(c: char): nat
    requires IsDigit(c)
  {
    c as int - '0' as int
  }

  function DigitChar(d: nat): (c: char)
    requires d < 10
    ensures IsDigit(c) && DigitValue(c) == d
  {
    ('0' as int + d) as char
  }

  function SkipSpace(s: string): (t: string)
    ensures |t| <= |s|
  {
    if s != "" && IsSpace(s[0]) then SkipSpace(s[1..]) else s
  }

  /** The length of the digits at the front. */
  function DigitRun(s: string): (n: nat)
    ensures n <= |s| && AllDigits(s[..n]) && (n < |s| ==> !IsDigit(s[n]))
  {
    if s != "" && IsDigit(s[0]) then
      var n := DigitRun(s[1..]);
      assert forall i :: 1 <= i < n + 1 ==> s[i] == s[1..][..n][i - 1];
      n + 1
    else 0
  }

  /** The value of a string of digits. */
  function ValueOf(s: string): nat
    requires AllDigits(s)
  {
    if s == "" then 0 else 10 * ValueOf(s[..|s| - 1]) + DigitValue(s[|s| - 1])
  }

  /** %d for a number that is not negative. */
  function Decimal(n: nat): (s: string)
    ensures |s| > 0 && AllDigits(s)
  {
    if n < 10 then [DigitChar(n)] else Decimal(n / 10) + [DigitChar(n % 10)]
  }

  lemma {:induction false} DecimalValue(n: nat)
    ensures ValueOf(Decimal(n)) == n
  {
    if n < 10 {
      assert Decimal(n)[..0] == "";
    } else {
      DecimalValue(n / 10);
      var s := Decimal(n);
      assert s[..|s| - 1] == Decimal(n / 10);
    }
  }

  lemma {:induction false} DigitsAreTheRun(d: string, rest: string)
    requires AllDigits(d)
    requires rest != "" ==> !IsDigit(rest[0])
    ensures DigitRun(d + rest) == |d|
  {
    if d == "" {
      assert d + rest == rest;
    } else {
      assert (d + rest)[1..] == d[1..] + rest;
      DigitsAreTheRun(d[1..], rest);
    }
  }

  // ---------- reading, as functions of the remaining text ----------

  /** parseInt: a number, and the text behind it. */
  function IntOf(s: string): (r: Result<(int, string)>)
    ensures r.Ok? ==> |r.value.1| < |s|
  {
    var t := SkipSpace(s);
    var neg := t != "" && t[0] == '-';
    var u := if neg || (t != "" && t[0] == '+') then t[1..] else t;
    UnsignedOf(u, neg)
  }

  /** The number behind the sign. */
  function UnsignedOf(u: string, neg: bool): (r: Result<(int, string)>)
    ensures r.Ok? ==> |r.value.1| < |u|
  {
    var n := DigitRun(u);
    if n == 0 then ParseError
    else
      var val: int := ValueOf(u[..n]);
      Ok((if neg then -val else val, u[n..]))
  }

  function LitOf(k: int): Lit
    requires k != 0
  {
    Lit((if k < 0 then -k else k) - 1, k < 0)
  }

  /** readClause: the literals up to the 0, and the text behind it. */
  function ClauseOf(s: string): (r: Result<(seq<Lit>, string)>)
    ensures r.Ok? ==> |r.value.1| < |s|
    decreases |s|
  {
    match IntOf(s)
    case ParseError => ParseError
    case Ok((k, t)) =>
      if k == 0 then Ok(([], t))
      else
        match ClauseOf(t)
        case ParseError => ParseError
        case Ok((c, u)) => Ok(([LitOf(k)] + c, u))
  }

  /** One more than the largest variable of c, or n if that is more. */
  function GrownBy(c: seq<Lit>, n: nat): nat {
    if c == [] then n else GrownBy(c[1..], if c[0].v >= n then c[0].v + 1 else n)
  }

  lemma {:induction false} GrownByBounds(c: seq<Lit>, n: nat)
    ensures var m := GrownBy(c, n); m >= n && InRange(c, m) && (m == n || exists i :: 0 <= i < |c| && c[i].v + 1 == m)
  {
    if c != [] {
      var k, m := if c[0].v >= n then c[0].v + 1 else n, GrownBy(c, n);
      GrownByBounds(c[1..], k);
      assert forall i :: 1 <= i < |c| ==> c[i] == c[1..][i - 1];
      if m != k {
        var i :| 0 <= i < |c[1..]| && c[1..][i].v + 1 == m;
        assert c[i + 1].v + 1 == m;
      } else if m != n {
        assert c[0].v + 1 == m;
      }
    }
  }

  /** The numbers of the header, the variables and the clauses read. */
  datatype Parsed = Parsed(vars: int, clauses: int, nVars: nat, list: seq<seq<Lit>>)

  const HEADER: string := "p cnf"

  /** The length of the common prefix with the header word. */
  function Matched(s: string, w: string): (n: nat)
    ensures n <= |w| && n <= |s| && (n == |w| <==> w <= s)
  {
    if w != "" && s != "" && s[0] == w[0] then
      assert w[1..] <= s[1..] <==> w <= s by {
        if w[1..] <= s[1..] { assert w == [w[0]] + w[1..] && s == [s[0]] + s[1..]; }
      }
      1 + Matched(s[1..], w[1..])
    else 0
  }

  function AfterLine(s: string): (t: string)
    ensures |t| <= |s| && (s != "" ==> |t| < |s|)
  {
    if s == "" then "" else if s[0] == '\n' then s[1..] else AfterLine(s[1..])
  }

  /** parse_DIMACS_main. */
  function FileOf(s: string, st: Parsed): Result<Parsed>
    decreases |s|
  {
    var t := SkipSpace(s);
    if t == "" then Ok(st)
    else if t[0] == 'p' then
      if HEADER <= t then
        match IntOf(t[|HEADER|..])
        case ParseError => ParseError
        case Ok((vars, u)) =>
          match IntOf(u)
          case ParseError => ParseError
          case Ok((clauses, v)) => FileOf(v, st.(vars := vars, clauses := clauses))
      else ParseError
    else if t[0] == 'c' then FileOf(AfterLine(t), st)
    else
      match ClauseOf(t)
      case ParseError => ParseError
      case Ok((c, u)) => FileOf(u, st.(nVars := GrownBy(c, st.nVars), list := st.list + [c]))
  }

  const NOTHING := Parsed(0, 0, 0, [])

  // ---------- reading, as loops over a stream ----------

  class Reader {
    /** What is still to be read; the end of the file is where nothing is. */
    var rest: string
    var nVars: nat
    var added: seq<seq<Lit>>

    constructor (text: string)
      ensures rest == text && nVars == 0 && added == []
    {
      rest, nVars, added := text, 0, [];
    }

    method SkipWhitespace()
      modifies `rest
      ensures rest == SkipSpace(old(rest))
    {
      while rest != "" && IsSpace(rest[0])
        invariant SkipSpace(rest) == SkipSpace(old(rest))
        decreases |rest|
      {
        rest := rest[1..];
      }
    }

    method SkipLine()
      modifies `rest
      ensures rest == AfterLine(old(rest))
    {
      while true
        invariant AfterLine(rest) == AfterLine(old(rest))
        decreases |rest|
      {
        if rest == "" { return; }
        if rest[0] == '\n' {
          rest := rest[1..];
          return;
        }
        rest := rest[1..];
      }
    }

    method EagerMatch(w: string) returns (b: bool)
      modifies `rest
      ensures b <==> w <= old(rest)
      ensures rest == old(rest)[Matched(old(rest), w)..]
    {
      var i := 0;
      while i < |w|
        invariant 0 <= i <= |w| && i <= |old(rest)| && rest == old(rest)[i..]
        invariant Matched(old(rest), w) == i + Matched(rest, w[i..])
        decreases |w| - i
      {
        if rest == "" || rest[0] != w[i] { return false; }
        assert w[i..][1..] == w[i + 1..];
        rest := rest[1..];
        i := i + 1;
      }
      b := true;
    }

    method ReadDigits() returns (val: nat)
      modifies `rest
      ensures var n := DigitRun(old(rest)); val == ValueOf(old(rest)[..n]) && rest == old(rest)[n..]
    {
      val := 0;
      ghost var u, i := rest, 0;
      while rest != "" && IsDigit(rest[0])
        invariant 0 <= i <= |u| && rest == u[i..] && DigitRun(u) == i + DigitRun(rest)
        invariant val == ValueOf(u[..i])
        decreases |rest|
      {
        assert u[..i + 1][..i] == u[..i];
        val := val * 10 + DigitValue(rest[0]);
        rest := rest[1..];
        i := i + 1;
      }
    }

    method ParseInt() returns (r: Result<int>)
      modifies `rest
      ensures match IntOf(old(rest)) case ParseError => r == ParseError case Ok((k, t)) => r == Ok(k) && rest == t
    {
      var neg := false;
      SkipWhitespace();
      if rest != "" && rest[0] == '-' {
        neg, rest := true, rest[1..];
      } else if rest != "" && rest[0] == '+' {
        rest := rest[1..];
      }
      if rest == "" || !IsDigit(rest[0]) { return ParseError; }
      var val: int := ReadDigits();
      r := Ok(if neg then -val else val);
    }

    /** Make variables until v is one. */
    method MakeVars(v: nat)
      modifies `nVars
      ensures nVars == if v >= old(nVars) then v + 1 else old(nVars)
    {
      while v >= nVars
        invariant nVars <= v + 1 || nVars == old(nVars)
        invariant nVars >= old(nVars)
      {
        nVars := nVars + 1;
      }
    }

    static lemma LitFrom(parsed: int, v: Var)
      requires parsed != 0 && v == (if parsed < 0 then -parsed else parsed) - 1
      ensures LitOf(parsed) == if parsed > 0 then Lit(v, false) else Neg(Lit(v, false))
    {
    }

    /** readClause: variables are made as they are met. */
    method ReadClause() returns (r: Result<seq<Lit>>)
      modifies `rest, `nVars
      ensures match ClauseOf(old(rest))
        case ParseError => r == ParseError
        case Ok((c, t)) => r == Ok(c) && rest == t && nVars == GrownBy(c, old(nVars))
    {
      var lits := [];
      assert Ahead(rest, nVars, rest, nVars, []);
      hide *;
      while true
        invariant Ahead(old(rest), old(nVars), rest, nVars, lits)
        decreases |rest|
      {
        ghost var s := rest;
        var k := ParseInt();
        if k == ParseError {
          AheadFails(old(rest), old(nVars), s, nVars, lits);
          return ParseError;
        }
        var parsed := k.value;
        if parsed == 0 {
          AheadEnds(old(rest), old(nVars), s, nVars, lits, rest);
          break;
        }
        AheadNext(old(rest), old(nVars), s, nVars, lits, parsed, rest);
        var v := (if parsed < 0 then -parsed else parsed) - 1;
        LitFrom(parsed, v);
        MakeVars(v);
        lits := lits + [if parsed > 0 then Lit(v, false) else Neg(Lit(v, false))];
      }
      r := Ok(lits);
    }

    /** parse_DIMACS_main, with the numbers that the header announced. */
    method ParseMain() returns (r: Result<Parsed>)
      requires nVars == 0 && added == []
      modifies `rest, `nVars, `added
      ensures r == FileOf(old(rest), NOTHING)
      ensures r.Ok? ==> r.value.nVars == nVars && r.value.list == added
    {
      var vars, clauses := 0, 0;
      hide IntOf, ClauseOf, GrownBy, Matched, FileOf;
      while true
        invariant FileOf(rest, Parsed(vars, clauses, nVars, added)) == FileOf(old(rest), NOTHING)
        decreases |rest|
      {
        FileStep(rest, Parsed(vars, clauses, nVars, added));
        SkipWhitespace();
        if rest == "" {
          break;
        } else if rest[0] == 'p' {
          var b := EagerMatch(HEADER);
          if !b { return ParseError; }
          var k := ParseInt();
          if k == ParseError { return ParseError; }
          vars := k.value;
          k := ParseInt();
          if k == ParseError { return ParseError; }
          clauses := k.value;
        } else if rest[0] == 'c' || rest[0] == 'p' {
          SkipLine();
        } else {
          var c := ReadClause();
          if c == ParseError { return ParseError; }
          added := added + [c.value];
        }
      }
      r := Ok(Parsed(vars, clauses, nVars, added));
    }
  }

  /** Reading a clause from s with n variables has come to t with m variables, and the literals so far. */
  ghost predicate Ahead(s: string, n: nat, t: string, m: nat, lits: seq<Lit>) {
    match ClauseOf(s)
    case ParseError => ClauseOf(t) == ParseError
    case Ok((c, u)) => match ClauseOf(t)
      case ParseError => false
      case Ok((d, v)) => u == v && c == lits + d && GrownBy(c, n) == GrownBy(d, m)
  }

  lemma AheadFails(s: string, n: nat, t: string, m: nat, lits: seq<Lit>)
    requires Ahead(s, n, t, m, lits) && IntOf(t) == ParseError
    ensures ClauseOf(s) == ParseError
  {
  }

  lemma AheadEnds(s: string, n: nat, t: string, m: nat, lits: seq<Lit>, u: string)
    requires Ahead(s, n, t, m, lits) && IntOf(t) == Ok((0, u))
    ensures ClauseOf(s) == Ok((lits, u)) && GrownBy(lits, n) == m
  {
    assert lits + [] == lits;
  }

  lemma AheadNext(s: string, n: nat, t: string, m: nat, lits: seq<Lit>, k: int, u: string)
    requires Ahead(s, n, t, m, lits) && IntOf(t) == Ok((k, u)) && k != 0
    ensures Ahead(s, n, u, if LitOf(k).v >= m then LitOf(k).v + 1 else m, lits + [LitOf(k)])
  {
    hide IntOf;
    if ClauseOf(u).Ok? {
      var d := ClauseOf(u).value.0;
      assert ([LitOf(k)] + d)[1..] == d;
      Moved(lits, LitOf(k), d);
    }
  }

  lemma Moved<T>(a: seq<T>, x: T, b: seq<T>)
    ensures a + ([x] + b) == a + [x] + b
  {
  }

  lemma FileStep(s: string, st: Parsed)
    ensures var t := SkipSpace(s);
      && |t| <= |s|
      && (t == "" ==> FileOf(s, st) == Ok(st))
      && (t != "" && t[0] == 'p' && !(HEADER <= t) ==> FileOf(s, st) == ParseError)
      && (t != "" && t[0] == 'c' ==> |AfterLine(t)| < |s| && FileOf(s, st) == FileOf(AfterLine(t), st))
      && (t != "" && t[0] != 'c' && t[0] != 'p' ==>
            match ClauseOf(t)
            case ParseError => FileOf(s, st) == ParseError
            case Ok((c, u)) =>
              |u| < |s| && FileOf(s, st) == FileOf(u, st.(nVars := GrownBy(c, st.nVars), list := st.list + [c])))
    ensures var t := SkipSpace(s);
      t != "" && t[0] == 'p' && HEADER <= t ==>
        Matched(t, HEADER) == |HEADER| &&
        match IntOf(t[|HEADER|..])
        case ParseError => FileOf(s, st) == ParseError
        case Ok((vars, u)) =>
          match IntOf(u)
          case ParseError => FileOf(s, st) == ParseError
          case Ok((clauses, v)) => |v| < |s| && FileOf(s, st) == FileOf(v, st.(vars := vars, clauses := clauses))
  {
    hide IntOf, ClauseOf, GrownBy, Matched;
  }

  // ---------- writing ----------

  function LitText(p: Lit): string { (if p.sign then "-" else "") + Decimal(p.v + 1) + " " }

  function ClauseText(c: seq<Lit>): string { if c == [] then "0\n" else LitText(c[0]) + ClauseText(c[1..]) }

  function LinesText(list: seq<seq<Lit>>): string {
    if list == [] then "" else ClauseText(list[0]) + LinesText(list[1..])
  }

  function HeaderText(vars: nat, clauses: nat): string { HEADER + " " + Decimal(vars) + " " + Decimal(clauses) + "\n" }

  // ---------- reading what was written ----------

  lemma Assoc(a: string, b: string, c: string)
    ensures a + b + c == a + (b + c)
  {
  }

  lemma NoText(a: string)
    ensures a + "" == a
  {
  }

  lemma ReadDigitsBack(d: string, rest: string, neg: bool)
    requires d != "" && AllDigits(d) && (rest != "" ==> !IsDigit(rest[0]))
    ensures UnsignedOf(d + rest, neg) == Ok((if neg then 0 - ValueOf(d) else ValueOf(d), rest))
  {
    hide AllDigits;
    DigitsAreTheRun(d, rest);
    var s := d + rest;
    assert s[..|d|] == d && s[|d|..] == rest;
    hide DigitRun, ValueOf, AllDigits, IsDigit;
  }

  lemma NoSpace(s: string)
    requires s != "" && !IsSpace(s[0])
    ensures SkipSpace(s) == s
  {
  }

  lemma UnsignedInt(d: string, rest: string)
    requires d != "" && AllDigits(d) && (rest != "" ==> !IsDigit(rest[0]))
    ensures IntOf(d + rest) == Ok((ValueOf(d), rest))
  {
    ReadDigitsBack(d, rest, false);
    var s := d + rest;
    assert s[0] == d[0] && IsDigit(s[0]);
    NoSpace(s);
    hide UnsignedOf, SkipSpace, ValueOf;
  }

  lemma NegativeOf(u: string)
    ensures IntOf("-" + u) == UnsignedOf(u, true)
  {
    hide UnsignedOf;
    assert ("-" + u)[1..] == u;
    NoSpace("-" + u);
  }

  lemma NegativeInt(d: string, rest: string)
    requires d != "" && AllDigits(d) && (rest != "" ==> !IsDigit(rest[0]))
    ensures IntOf("-" + d + rest) == Ok((0 - ValueOf(d), rest))
  {
    ReadDigitsBack(d, rest, true);
    hide *;
    NegativeOf(d + rest);
    Assoc("-", d, rest);
  }

  lemma SpacedInt(s: string)
    ensures IntOf(" " + s) == IntOf(s)
  {
    assert (" " + s)[1..] == s;
    assert SkipSpace(" " + s) == SkipSpace(s);
  }

  lemma LitTextParts(p: Lit, d: string, rest: string)
    requires d == Decimal(p.v + 1)
    ensures LitText(p) + rest == if p.sign then "-" + d + (" " + rest) else d + (" " + rest)
    ensures var c := (LitText(p) + rest)[0]; c == '-' || IsDigit(c)
  {
    hide Decimal;
    if p.sign {
      assert LitText(p) + rest == "-" + d + (" " + rest);
    } else {
      assert LitText(p) + rest == d + (" " + rest);
      assert IsDigit(d[0]);
    }
  }

  /** A literal as written, with more text behind it. */
  lemma ReadLit(p: Lit, rest: string)
    ensures IntOf(LitText(p) + rest) == Ok((if p.sign then 0 - (p.v + 1) else p.v + 1, " " + rest))
  {
    var d := Decimal(p.v + 1);
    DecimalValue(p.v + 1);
    LitTextParts(p, d, rest);
    hide Decimal, IntOf, LitText, ValueOf;
    if p.sign { NegativeInt(d, " " + rest); } else { UnsignedInt(d, " " + rest); }
  }

  lemma SpacedClause(s: string)
    ensures ClauseOf(" " + s) == ClauseOf(s)
  {
    SpacedInt(s);
  }

  lemma ReadZero(rest: string)
    ensures ClauseOf("0\n" + rest) == Ok(([], "\n" + rest))
  {
    UnsignedInt("0", "\n" + rest);
    assert "0\n" + rest == "0" + ("\n" + rest);
    assert ValueOf("0") == 0 by { assert "0"[..0] == ""; }
  }

  lemma ClauseStep(s: string, k: int, t: string)
    requires IntOf(s) == Ok((k, t)) && k != 0 && ClauseOf(t).Ok?
    ensures ClauseOf(s) == Ok(([LitOf(k)] + ClauseOf(t).value.0, ClauseOf(t).value.1))
  {
  }

  lemma {:induction false} ReadClauseText(c: seq<Lit>, rest: string)
    ensures ClauseOf(ClauseText(c) + rest) == Ok((c, "\n" + rest))
    ensures var s := ClauseText(c) + rest; s != "" && !IsSpace(s[0]) && s[0] != 'p' && s[0] != 'c'
  {
    hide ClauseOf, IntOf, LitText, Decimal;
    var s := ClauseText(c) + rest;
    if c == [] {
      ReadZero(rest);
    } else {
      var p, more := c[0], ClauseText(c[1..]) + rest;
      assert s == LitText(p) + more;
      LitTextParts(p, Decimal(p.v + 1), more);
      ReadLit(p, more);
      ReadClauseText(c[1..], rest);
      SpacedClause(more);
      ClauseStep(s, if p.sign then 0 - (p.v + 1) else p.v + 1, " " + more);
      assert [p] + c[1..] == c;
    }
  }

  lemma NewlineSkipped(s: string, st: Parsed)
    ensures FileOf("\n" + s, st) == FileOf(s, st)
  {
    assert ("\n" + s)[1..] == s;
    assert SkipSpace("\n" + s) == SkipSpace(s);
  }

  /** The variables that reading the list makes. */
  function VarsOf(list: seq<seq<Lit>>, n: nat): nat { if list == [] then n else VarsOf(list[1..], GrownBy(list[0], n)) }

  lemma ReadLine(c: seq<Lit>, more: string, st: Parsed)
    ensures FileOf(ClauseText(c) + more, st) == FileOf(more, st.(nVars := GrownBy(c, st.nVars), list := st.list + [c]))
  {
    hide FileOf, ClauseOf, ClauseText, GrownBy;
    var s := ClauseText(c) + more;
    ReadClauseText(c, more);
    FileStep(s, st);
    NoSpace(s);
    NewlineSkipped(more, st.(nVars := GrownBy(c, st.nVars), list := st.list + [c]));
  }

  lemma {:induction false} ReadLines(list: seq<seq<Lit>>, st: Parsed)
    ensures FileOf(LinesText(list), st) == Ok(st.(nVars := VarsOf(list, st.nVars), list := st.list + list))
  {
    if list == [] {
      assert st.list + [] == st.list;
    } else {
      hide FileOf, ClauseOf, ClauseText, GrownBy;
      var st' := st.(nVars := GrownBy(list[0], st.nVars), list := st.list + [list[0]]);
      ReadLine(list[0], LinesText(list[1..]), st);
      ReadLines(list[1..], st');
      MoveOver(st.list, list);
    }
  }

  lemma MoveOver<T>(a: seq<T>, b: seq<T>)
    requires b != []
    ensures a + [b[0]] + b[1..] == a + b
  {
  }

  /** The round trip, for any list of clauses: what was written is read, with the numbers of the header. */
  lemma ReadBack(vars: nat, clauses: nat, list: seq<seq<Lit>>)
    ensures FileOf(HeaderText(vars, clauses) + LinesText(list), NOTHING) ==
              Ok(Parsed(vars, clauses, VarsOf(list, 0), list))
  {
    var s := HeaderText(vars, clauses) + LinesText(list);
    var dv, dc, lines := Decimal(vars), Decimal(clauses), LinesText(list);
    DecimalValue(vars);
    DecimalValue(clauses);
    hide Decimal, IntOf, ClauseOf;
    var u := dc + ("\n" + lines);
    UnsignedInt(dv, " " + u);
    UnsignedInt(dc, "\n" + lines);
    var t := dv + (" " + u);
    SpacedInt(t);
    SpacedInt(u);
    assert s == HEADER + (" " + t);
    assert s[..|HEADER|] == HEADER && s[|HEADER|..] == " " + t;
    FileStep(s, NOTHING);
    assert SkipSpace(s) == s;
    var st := Parsed(vars, clauses, 0, []);
    NewlineSkipped(lines, st);
    ReadLines(list, st);
    assert [] + list == list;
  }
}
