/** Goto programs over scalar variables: expressions, instructions, and their concrete meaning. */
module GotoPrograms {

  type Var = string

  datatype Value = VBool(b: bool) | VInt(i: int)

  /** Nondet(k) reads the k-th input of the step; Op applies an operator whose meaning is a parameter. */
  datatype Expr =
    | Const(val: Value)
    | Symbol(id: Var)
    | Nondet(k: nat)
    | Not(arg: Expr)
    | Op(name: string, args: seq<Expr>)

  type Env = Var -> Value
  type Inputs = nat -> Value
  type Meaning = (string, seq<Value>) -> Value

  function Eval(e: Expr, env: Env, inp: Inputs, m: Meaning): Value {
    match e
    case Const(val) => val
    case Symbol(id) => env(id)
    case Nondet(k) => inp(k)
    case Not(arg) => VBool(Eval(arg, env, inp, m) != VBool(true))
    case Op(name, args) => m(name, seq(|args|, i requires 0 <= i < |args| => Eval(args[i], env, inp, m)))
  }

  predicate Truth(v: Value) { v == VBool(true) }

  const TRUE_EXPR := Const(VBool(true))
  const FALSE_EXPR := Const(VBool(false))

  datatype Instr =
    | Decl(v: Var)
    | Dead(v: Var)
    | Assign(v: Var, rhs: Expr)
    | Assume(guard: Expr)
    | Assert(guard: Expr)
    | Goto(guard: Expr, target: nat)
    | Skip

  type Program = seq<Instr>

  /** Gotos stay inside the program. */
  predicate WellFormed(p: Program) { forall l :: 0 <= l < |p| && p[l].Goto? ==> p[l].target < |p| }

  /** get_successors: a goto with the guard true does not fall through, an assume with the guard false stops. */
  function Successors(p: Program, l: nat): (ts: seq<nat>)
    requires l < |p|
  {
    var next := if l + 1 < |p| then [l + 1] else [];
    match p[l]
    case Goto(guard, target) => [target] + if guard == TRUE_EXPR then [] else next
    case Assume(guard) => if guard == FALSE_EXPR then [] else next
    case _ => next
  }

  lemma SuccessorsInRange(p: Program, l: nat)
    requires WellFormed(p) && l < |p|
    ensures forall i :: 0 <= i < |Successors(p, l)| ==> Successors(p, l)[i] < |p|
  {
  }

  // ---------- runs ----------

  datatype State = State(loc: nat, env: Env)

  /** env' is env but for v, which may have any value. */
  ghost predicate SameBut(env: Env, env': Env, v: Var) { forall x :: x != v ==> env'(x) == env(x) }

  /** One step of the program with the given inputs. Location |p| is the end. */
  ghost predicate Step(p: Program, m: Meaning, s: State, s': State, inp: Inputs) {
    s.loc < |p| &&
    match p[s.loc]
    case Decl(v) => s'.loc == s.loc + 1 && SameBut(s.env, s'.env, v)
    case Dead(v) => s'.loc == s.loc + 1 && SameBut(s.env, s'.env, v)
    case Assign(v, rhs) => s'.loc == s.loc + 1 && SameBut(s.env, s'.env, v) && s'.env(v) == Eval(rhs, s.env, inp, m)
    case Assume(guard) => s'.loc == s.loc + 1 && Truth(Eval(guard, s.env, inp, m)) && s'.env == s.env
    case Assert(guard) => s'.loc == s.loc + 1 && s'.env == s.env
    case Goto(guard, target) =>
      s'.loc == (if Truth(Eval(guard, s.env, inp, m)) then target else s.loc + 1) && s'.env == s.env
    case Skip => s'.loc == s.loc + 1 && s'.env == s.env
  }

  /** The states of a run from location 0 in any environment, and the inputs of each step. */
  ghost predicate Run(p: Program, m: Meaning, states: seq<State>, inputs: seq<Inputs>) {
    && |states| == |inputs| + 1 && states[0].loc == 0
    && forall i :: 0 <= i < |inputs| ==> Step(p, m, states[i], states[i + 1], inputs[i])
  }
}
