/** Which texts the DIMACS reader accepts, and what they mean. */
module DimacsText {
  import opened SolverTypes
  import opened Dimacs

  // ---------- the texts ----------

  datatype Sign = NoSign | Plus | Minus

  /** A number with the white space before it. */
  datatype Num = Num(space: string, sign: Sign, digits: string)

  /** A comment line, a header, or a clause with the zero at its end. */
  datatype Item = Comment(space: string, text: string) | Header(space: string, vars: Num, clauses: Num)
    | Clause(nums: seq<Num>)

  /** The end of the file: white space, and perhaps a comment that no newline ends. */
  datatype Tail = Blank(space: string) | LastComment(space: string, text: string)

  predicate AllSpace(s: string) { forall i :: 0 <= i < |s| ==> IsSpace(s[i]) }

  /** A number before s ends where s begins. */
  predicate NoDigit(s: string) { s == "" || !IsDigit(s[0]) }

  predicate NoNewline(s: string) { '\n' !in s }

  predicate NumOk(n: Num) { AllSpace(n.space) && n.digits != "" && AllDigits(n.digits) }

  function SignText(sign: Sign): string { if sign == Minus then "-" else if sign == Plus then "+" else "" }

  function NumText(n: Num): string { n.space + (SignText(n.sign) + n.digits) }

  function NumValue(n: Num): int
    requires NumOk(n)
  {
    if n.sign == Minus then 0 - ValueOf(n.digits) else ValueOf(n.digits)
  }

  /** Numbers that can be told apart, none of them zero but the last. */
  predicate NumsOk(nums: seq<Num>) {
    nums != [] && NumOk(nums[0]) &&
    if |nums| == 1 then NumValue(nums[0]) == 0
    else NumValue(nums[0]) != 0 && NoDigit(NumText(nums[1])) && NumsOk(nums[1..])
  }

  function NumsText(nums: seq<Num>): string {
    if nums == [] then "" else NumText(nums[0]) + NumsText(nums[1..])
  }

  function LitsOf(nums: seq<Num>): seq<Lit>
    requires NumsOk(nums)
  {
    if |nums| == 1 then [] else [LitOf(NumValue(nums[0]))] + LitsOf(nums[1..])
  }

  predicate ItemOk(i: Item) {
    match i
    case Comment(space, text) => AllSpace(space) && NoNewline(text)
    case Header(space, vars, clauses) =>
      AllSpace(space) && NumOk(vars) && NumOk(clauses) && NoDigit(NumText(clauses))
    case Clause(nums) => NumsOk(nums)
  }

  function ItemText(i: Item): string {
    match i
    case Comment(space, text) => space + ("c" + text + "\n")
    case Header(space, vars, clauses) => space + (HEADER + (NumText(vars) + NumText(clauses)))
    case Clause(nums) => NumsText(nums)
  }

  /** What an item does to what was read so far: a comment nothing. */
  function Apply(i: Item, st: Parsed): Parsed
    requires ItemOk(i)
  {
    match i
    case Comment(space, text) => st
    case Header(space, vars, clauses) => st.(vars := NumValue(vars), clauses := NumValue(clauses))
    case Clause(nums) =>
      st.(nVars := GrownBy(LitsOf(nums), st.nVars), list := st.list + [LitsOf(nums)])
  }

  predicate TailOk(tail: Tail) {
    AllSpace(tail.space) && (tail.LastComment? ==> NoNewline(tail.text))
  }

  function TailText(tail: Tail): string {
    match tail
    case Blank(space) => space
    case LastComment(space, text) => space + ("c" + text)
  }

  function FileText(items: seq<Item>, tail: Tail): string {
    if items == [] then TailText(tail) else ItemText(items[0]) + FileText(items[1..], tail)
  }

  /** Items in any order; a header or a clause is followed by anything but a digit. */
  predicate FileOk(items: seq<Item>, tail: Tail) {
    if items == [] then TailOk(tail)
    else
      && ItemOk(items[0]) && FileOk(items[1..], tail)
      && (!items[0].Comment? ==> NoDigit(FileText(items[1..], tail)))
  }

  function ApplyAll(items: seq<Item>, tail: Tail, st: Parsed): Parsed
    requires FileOk(items, tail)
  {
    if items == [] then st else ApplyAll(items[1..], tail, Apply(items[0], st))
  }

  // ---------- they are read ----------

  lemma {:induction false} SpaceSkipped(space: string, s: string)
    requires AllSpace(space) && (s == "" || !IsSpace(s[0]))
    ensures SkipSpace(space + s) == s
  {
    if space == "" {
      assert space + s == s;
    } else {
      assert (space + s)[1..] == space[1..] + s;
      SpaceSkipped(space[1..], s);
    }
  }

  /** The reader steps over the white space before looking at what comes. */
  lemma IntAfterSpace(s: string)
    ensures IntOf(SkipSpace(s)) == IntOf(s)
  {
    SkipTwice(s);
    hide UnsignedOf;
  }

  lemma {:induction false} SkipTwice(s: string)
    ensures SkipSpace(SkipSpace(s)) == SkipSpace(s)
    ensures SkipSpace(s) != "" ==> !IsSpace(SkipSpace(s)[0])
  {
    if s != "" && IsSpace(s[0]) { SkipTwice(s[1..]); }
  }

  /** A number begins with a sign or a digit. */
  lemma NumBegins(n: Num, rest: string)
    requires NumOk(n)
    ensures var u := SignText(n.sign) + n.digits + rest;
      && u != "" && !IsSpace(u[0]) && (u[0] == '-' || u[0] == '+' || IsDigit(u[0]))
      && NumText(n) + rest == n.space + u
      && SkipSpace(NumText(n) + rest) == u
  {
    var u := SignText(n.sign) + n.digits + rest;
    assert NumText(n) + rest == n.space + u;
    if n.sign == NoSign { assert u[0] == n.digits[0]; }
    SpaceSkipped(n.space, u);
  }

  lemma ReadNum(n: Num, rest: string)
    requires NumOk(n) && NoDigit(rest)
    ensures IntOf(NumText(n) + rest) == Ok((NumValue(n), rest))
  {
    var s, u := NumText(n) + rest, SignText(n.sign) + n.digits + rest;
    NumBegins(n, rest);
    ReadDigitsBack(n.digits, rest, n.sign == Minus);
    if n.sign == NoSign {
      assert u == n.digits + rest && u[0] == n.digits[0];
    } else {
      assert u[1..] == n.digits + rest;
    }
    hide SkipSpace, UnsignedOf, ValueOf, NumText;
  }

  lemma {:induction false} ReadNums(nums: seq<Num>, rest: string)
    requires NumsOk(nums) && NoDigit(rest)
    ensures ClauseOf(NumsText(nums) + rest) == Ok((LitsOf(nums), rest))
  {
    hide IntOf, NumText, NumValue;
    var more := NumsText(nums[1..]) + rest;
    assert NumsText(nums) + rest == NumText(nums[0]) + more;
    if |nums| == 1 {
      assert more == rest;
      ReadNum(nums[0], rest);
    } else {
      NextNum(nums[1..], rest);
      ReadNum(nums[0], more);
      ReadNums(nums[1..], rest);
    }
  }

  lemma NextNum(nums: seq<Num>, rest: string)
    requires NumsOk(nums) && NoDigit(NumText(nums[0]))
    ensures NoDigit(NumsText(nums) + rest)
  {
  }

  lemma {:induction false} LineSkipped(text: string, rest: string)
    requires NoNewline(text)
    ensures AfterLine(text + ("\n" + rest)) == rest && AfterLine(text) == ""
  {
    if text == "" {
      assert text + ("\n" + rest) == "\n" + rest;
      assert ("\n" + rest)[1..] == rest;
    } else {
      assert (text + ("\n" + rest))[1..] == text[1..] + ("\n" + rest);
      LineSkipped(text[1..], rest);
    }
  }

  /** A comment line, whatever it says, is as if it were not there. */
  lemma CommentSkipped(space: string, text: string, rest: string, st: Parsed)
    requires AllSpace(space) && NoNewline(text)
    ensures FileOf(space + ("c" + text + "\n") + rest, st) == FileOf(rest, st)
    ensures FileOf(space + ("c" + text), st) == Ok(st)
  {
    hide IntOf, ClauseOf;
    var u, last := "c" + text + ("\n" + rest), "c" + text;
    assert space + ("c" + text + "\n") + rest == space + u;
    SpaceSkipped(space, u);
    SpaceSkipped(space, last);
    LineSkipped(last, rest);
    assert SkipSpace("") == "";
  }

  lemma HeaderRead(space: string, vars: Num, clauses: Num, rest: string, st: Parsed)
    requires ItemOk(Header(space, vars, clauses)) && NoDigit(rest)
    ensures FileOf(ItemText(Header(space, vars, clauses)) + rest, st) ==
            FileOf(rest, st.(vars := NumValue(vars), clauses := NumValue(clauses)))
  {
    hide IntOf, ClauseOf, NumText, NumValue;
    var x, y := NumText(vars) + (NumText(clauses) + rest), NumText(clauses) + rest;
    var s, u := ItemText(Header(space, vars, clauses)) + rest, HEADER + x;
    assert s == space + u;
    SpaceSkipped(space, u);
    assert u[..|HEADER|] == HEADER && u[|HEADER|..] == x;
    assert NoDigit(y) by { NumIsThere(clauses); }
    ReadNum(vars, y);
    ReadNum(clauses, rest);
    FileStep(s, st);
  }

  lemma NumIsThere(n: Num)
    requires NumOk(n)
    ensures NumText(n) != ""
  {
  }

  lemma ClauseRead(nums: seq<Num>, rest: string, st: Parsed)
    requires NumsOk(nums) && NoDigit(rest)
    ensures FileOf(NumsText(nums) + rest, st) == FileOf(rest, Apply(Clause(nums), st))
  {
    hide IntOf, ClauseOf, GrownBy, FileOf, LitsOf;
    var s := NumsText(nums) + rest;
    ReadNums(nums, rest);
    assert s == NumText(nums[0]) + (NumsText(nums[1..]) + rest);
    NumBegins(nums[0], NumsText(nums[1..]) + rest);
    ClauseAfterSpace(s);
    FileStep(s, st);
  }

  lemma ClauseAfterSpace(s: string)
    ensures ClauseOf(SkipSpace(s)) == ClauseOf(s)
  {
    IntAfterSpace(s);
    hide IntOf, SkipSpace;
  }

  lemma ItemRead(i: Item, rest: string, st: Parsed)
    requires ItemOk(i) && (i.Comment? || NoDigit(rest))
    ensures FileOf(ItemText(i) + rest, st) == FileOf(rest, Apply(i, st))
  {
    hide FileOf, NumsOk, NumOk, NumValue, LitsOf, NumsText, AllSpace, NoNewline;
    match i
    case Comment(space, text) => CommentSkipped(space, text, rest, st);
    case Header(space, vars, clauses) => HeaderRead(space, vars, clauses, rest, st);
    case Clause(nums) => ClauseRead(nums, rest, st);
  }

  lemma {:induction false} FileRead(items: seq<Item>, tail: Tail, st: Parsed)
    requires FileOk(items, tail)
    ensures FileOf(FileText(items, tail), st) == Ok(ApplyAll(items, tail, st))
  {
    hide FileOf, ItemOk, ItemText, Apply;
    if items == [] {
      match tail
      case Blank(space) => BlankRead(space, st);
      case LastComment(space, text) => CommentSkipped(space, text, "", st);
    } else {
      ItemRead(items[0], FileText(items[1..], tail), st);
      FileRead(items[1..], tail, Apply(items[0], st));
    }
  }

  lemma BlankRead(space: string, st: Parsed)
    requires AllSpace(space)
    ensures FileOf(space, st) == Ok(st)
  {
    SpaceSkipped(space, "");
    assert space + "" == space;
  }

  // ---------- and nothing else is ----------

  lemma {:induction false} SpaceBefore(s: string) returns (space: string)
    ensures AllSpace(space) && s == space + SkipSpace(s)
  {
    if s != "" && IsSpace(s[0]) {
      var more := SpaceBefore(s[1..]);
      space := [s[0]] + more;
      assert s == [s[0]] + s[1..];
    } else {
      space := "";
    }
  }

  lemma NumberThere(s: string) returns (n: Num)
    requires IntOf(s).Ok?
    ensures NumOk(n) && s == NumText(n) + IntOf(s).value.1
    ensures NumValue(n) == IntOf(s).value.0 && NoDigit(IntOf(s).value.1)
  {
    hide AllSpace, AllDigits, IntOf, SkipSpace, UnsignedOf, ValueOf, SignText;
    var space := SpaceBefore(s);
    var sign, u := SignThere(s);
    var digits, rest := DigitsThere(u, sign == Minus);
    n := Num(space, sign, digits);
    Parts(space, SignText(sign), digits, rest);
  }

  lemma Parts(a: string, b: string, c: string, d: string)
    ensures a + (b + (c + d)) == a + (b + c) + d
  {
  }

  lemma SignThere(s: string) returns (sign: Sign, u: string)
    ensures SkipSpace(s) == SignText(sign) + u && IntOf(s) == UnsignedOf(u, sign == Minus)
  {
    hide SkipSpace, UnsignedOf;
    var t := SkipSpace(s);
    if t != "" && t[0] == '-' {
      sign, u := Minus, t[1..];
    } else if t != "" && t[0] == '+' {
      sign, u := Plus, t[1..];
    } else {
      sign, u := NoSign, t;
    }
  }

  lemma DigitsThere(u: string, neg: bool) returns (digits: string, rest: string)
    requires UnsignedOf(u, neg).Ok?
    ensures u == digits + rest && digits != "" && AllDigits(digits) && NoDigit(rest)
    ensures UnsignedOf(u, neg) == Ok((if neg then 0 - ValueOf(digits) else ValueOf(digits), rest))
  {
    hide ValueOf;
    var k := DigitRun(u);
    digits, rest := u[..k], u[k..];
  }

  lemma {:induction false} NumbersThere(s: string) returns (nums: seq<Num>)
    requires ClauseOf(s).Ok?
    ensures NumsOk(nums) && s == NumsText(nums) + ClauseOf(s).value.1
    ensures LitsOf(nums) == ClauseOf(s).value.0 && NoDigit(ClauseOf(s).value.1)
    decreases |s|
  {
    hide NumText, NumValue, IntOf;
    var n := NumberThere(s);
    var t := IntOf(s).value.1;
    if IntOf(s).value.0 == 0 {
      nums := [n];
      assert NumsText([]) == "";
      assert NumsText(nums) == NumText(n);
    } else {
      var more := NumbersThere(t);
      nums := [n] + more;
      assert nums[1..] == more;
      FirstNum(more, ClauseOf(t).value.1);
    }
  }

  lemma FirstNum(nums: seq<Num>, rest: string)
    requires NumsOk(nums) && NoDigit(NumsText(nums) + rest)
    ensures NoDigit(NumText(nums[0]))
  {
    assert NumsText(nums) + rest == NumText(nums[0]) + (NumsText(nums[1..]) + rest);
    NumIsThere(nums[0]);
    hide NumText;
  }

  lemma {:induction false} LineThere(s: string) returns (text: string, ended: bool)
    ensures NoNewline(text) && s == if ended then text + ("\n" + AfterLine(s)) else text
    ensures !ended ==> AfterLine(s) == ""
  {
    if s == "" {
      text, ended := "", false;
    } else if s[0] == '\n' {
      text, ended := "", true;
    } else {
      var more;
      more, ended := LineThere(s[1..]);
      text := [s[0]] + more;
      assert s == [s[0]] + s[1..];
    }
  }

  lemma {:induction false} FileThere(s: string, st: Parsed) returns (items: seq<Item>, tail: Tail)
    requires FileOf(s, st).Ok?
    ensures FileOk(items, tail) && FileText(items, tail) == s && ApplyAll(items, tail, st) == FileOf(s, st).value
    decreases |s|
  {
    hide IntOf, ClauseOf, NumText, NumValue, AfterLine, SkipSpace, GrownBy, NumsOk, NumsText, LitsOf;
    var space := SpaceBefore(s);
    var t := SkipSpace(s);
    FileStep(s, st);
    if t == "" {
      return [], Blank(space);
    }
    var i, rest := Comment(space, ""), "";
    if t[0] == 'p' {
      i, rest := HeaderThere(s, space, t, st);
    } else if t[0] == 'c' {
      var text, ended := LineThere(t);
      TextOfComment(text, t, ended);
      if !ended {
        EmptyFile(st);
        return [], LastComment(space, text[1..]);
      }
      i, rest := Comment(space, text[1..]), AfterLine(t);
      assert s == ItemText(i) + rest;
    } else {
      var nums := NumbersThere(t);
      i, rest := Clause(nums), ClauseOf(t).value.1;
      i := SpacedNums(space, nums, rest);
    }
    var more;
    more, tail := FileThere(rest, Apply(i, st));
    items := [i] + more;
    assert items[1..] == more;
  }

  lemma EmptyFile(st: Parsed)
    ensures FileOf("", st) == Ok(st)
  {
  }

  lemma TextOfComment(text: string, t: string, ended: bool)
    requires t != "" && t[0] == 'c' && NoNewline(text)
    requires t == if ended then text + ("\n" + AfterLine(t)) else text
    ensures text != "" && text == "c" + text[1..] && NoNewline(text[1..])
  {
    assert ("" + ("\n" + AfterLine(t)))[0] == '\n';
  }

  lemma HeaderThere(s: string, space: string, t: string, st: Parsed) returns (i: Item, rest: string)
    requires FileOf(s, st).Ok? && AllSpace(space) && s == space + t && t == SkipSpace(s) && t != "" && t[0] == 'p'
    ensures i.Header? && ItemOk(i) && s == ItemText(i) + rest && NoDigit(rest) && |rest| < |s|
    ensures FileOf(rest, Apply(i, st)) == FileOf(s, st)
  {
    hide IntOf, ClauseOf, NumText, NumValue, SkipSpace;
    FileStep(s, st);
    var x := t[|HEADER|..];
    assert t == HEADER + x;
    var vars := NumberThere(x);
    var u := IntOf(x).value.1;
    var clauses := NumberThere(u);
    rest := IntOf(u).value.1;
    i := Header(space, vars, clauses);
    NumIsThere(clauses);
    assert u == NumText(clauses) + rest;
    assert s == ItemText(i) + rest;
  }

  /** White space before a clause is white space before its first number. */
  lemma SpacedNums(space: string, nums: seq<Num>, rest: string) returns (i: Item)
    requires AllSpace(space) && NumsOk(nums)
    ensures i.Clause? && ItemOk(i) && LitsOf(i.nums) == LitsOf(nums)
    ensures space + (NumsText(nums) + rest) == ItemText(i) + rest
  {
    var n := nums[0].(space := space + nums[0].space);
    i := Clause([n] + nums[1..]);
    assert i.nums[0] == n && i.nums[1..] == nums[1..];
    assert |nums| > 1 ==> i.nums[1] == nums[1];
    SpacedNum(space, nums[0]);
    hide NumText, NumValue, NumOk;
    var a, b := NumText(nums[0]), NumsText(nums[1..]);
    assert NumsText(i.nums) == space + a + b && NumsText(nums) == a + b;
    hide *;
    Parts(space, a, b, rest);
    assert space + (a + b) == space + a + b;
    assert space + (a + b + rest) == space + (a + b) + rest;
  }

  lemma SpacedNum(space: string, n: Num)
    requires AllSpace(space) && NumOk(n)
    ensures var m := n.(space := space + n.space);
      NumOk(m) && NumValue(m) == NumValue(n) && NumText(m) == space + NumText(n)
  {
  }

  /** The reader accepts exactly these texts, and reads them as they mean. */
  lemma AcceptedTexts(s: string, st: Parsed, r: Parsed)
    ensures FileOf(s, st) == Ok(r) <==>
      exists items, tail :: FileOk(items, tail) && FileText(items, tail) == s && ApplyAll(items, tail, st) == r
  {
    hide FileOf, FileText, ApplyAll, FileOk;
    if FileOf(s, st) == Ok(r) {
      var items, tail := FileThere(s, st);
    }
    forall items, tail | FileOk(items, tail) && FileText(items, tail) == s && ApplyAll(items, tail, st) == r
      ensures FileOf(s, st) == Ok(r)
    {
      FileRead(items, tail, st);
    }
  }
}
