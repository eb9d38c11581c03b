/// The tree-walking interpreter (src/Interpreter.java).
///
/// `Evaluate` and `EvaluateCondition` are the source's evaluators: pure
/// functions of a node and the symbol table. `Exec`, `ExecBlock` and `Loop`
/// specify what running a statement does to the state (the symbol table and
/// the printed lines) and how it ends. The `Interpreter` class is the source's
/// object: its methods update the table and the output in place and are proved
/// to agree with the specification.
///
/// A `while` loop need not terminate, so execution carries a fuel bound: each
/// execution of a `while` statement may run at most `fuel` iterations, and a
/// loop that wants more ends with `OutOfFuel`. Any other outcome is the outcome
/// of the unbounded program (see ExecFuelMonotone).

module Interpreting {
  import opened Errors
  import opened JavaInt
  import opened Ast

  /// The symbol table: variable names and their `int` values.
  type Env = map<string, int32>

  /// The names an expression reads.
  function VariablesOf(e: Node): set<string>
  {
    match e
    case Variable(x) => {x}
    case BinaryOp(left, _, right) => VariablesOf(left) + VariablesOf(right)
    case _ => {}
  }

  /// The six comparisons, on Java `int` values.
  function Compare(op: string, a: int32, b: int32): bool
    requires IsComparison(op)
  {
    match op
    case "<=" => a <= b
    case ">=" => a >= b
    case "<" => a < b
    case ">" => a > b
    case "==" => a == b
    case _ => a != b
  }

  /// The six comparisons relate as on integers: each of `<=`, `>=`, `==` is the
  /// negation of `>`, `<`, `!=`, the strict ones are the non-strict ones minus
  /// equality, and swapping the operands swaps `<` with `>`.
  lemma CompareLaws(a: int32, b: int32)
    ensures Compare("<=", a, b) == !Compare(">", a, b)
    ensures Compare(">=", a, b) == !Compare("<", a, b)
    ensures Compare("==", a, b) == !Compare("!=", a, b)
    ensures Compare("<", a, b) == (Compare("<=", a, b) && !Compare("==", a, b))
    ensures Compare(">", a, b) == (Compare(">=", a, b) && !Compare("==", a, b))
    ensures Compare("<", a, b) == Compare(">", b, a) && Compare("==", a, b) == Compare("==", b, a)
  {
  }

  /// The `switch` of evaluate: Java `int` arithmetic, comparisons as 1 or 0,
  /// and an error for any other operator.
  function Apply(op: string, a: int32, b: int32): (r: Result<int32>)
    ensures r.Err? <==>
      !(IsAdditive(op) || IsMultiplicative(op) || IsComparison(op)) || ((op == "/" || op == "%") && b == 0)
    ensures r.Err? ==> r.error == if IsMultiplicative(op) then DivideByZero else UnknownOperator(op)
    ensures IsComparison(op) ==> r.Ok? && (r.value == 0 || r.value == 1) && (r.value == 1 <==> Compare(op, a, b))
  {
    match op
    case "+" => Ok(Add(a, b))
    case "-" => Ok(Sub(a, b))
    case "*" => Ok(Mul(a, b))
    case "/" => Div(a, b)
    case "%" => Rem(a, b)
    case _ =>
      if IsComparison(op) then Ok(if Compare(op, a, b) then 1 else 0)
      else Err(UnknownOperator(op))
  }

  /// `+ - *` follow Java `int` rules: the exact result wrapped around modulo 2^32.
  lemma ApplyWraps(a: int32, b: int32)
    ensures Apply("+", a, b).Ok? && (a + b - Apply("+", a, b).value) % MODULUS == 0
    ensures Apply("-", a, b).Ok? && (a - b - Apply("-", a, b).value) % MODULUS == 0
    ensures Apply("*", a, b).Ok? && (a * b - Apply("*", a, b).value) % MODULUS == 0
  {
    assert Apply("+", a, b) == Ok(Wrap(a + b));
    assert Apply("-", a, b) == Ok(Wrap(a - b));
    assert Apply("*", a, b) == Ok(Wrap(a * b));
  }

  /// `/` truncates toward zero (overflowing only for INT_MIN / -1) and `%` is
  /// the remainder that goes with it.
  lemma ApplyTruncates(a: int32, b: int32)
    requires b != 0
    ensures !(a == INT_MIN && b == -1) ==> Apply("/", a, b) == Ok(TruncDiv(a, b))
    ensures Apply("%", a, b) == Ok(a - TruncDiv(a, b) * b)
  {
    assert Apply("/", a, b) == Div(a, b);
    assert Apply("%", a, b) == Rem(a, b);
  }

  /// evaluate: the value of an expression node under the symbol table. Both
  /// operands are evaluated, left first, before the operator is looked at.
  function Evaluate(node: Node, env: Env): (r: Result<int32>)
    ensures r.Ok? ==> VariablesOf(node) <= env.Keys
  {
    match node
    case Number(v) => Ok(v)
    case Variable(x) => if x in env then Ok(env[x]) else Err(VariableNotDeclared(x))
    case BinaryOp(left, op, right) =>
      (match Evaluate(left, env)
       case Err(e) => Err(e)
       case Ok(a) =>
         match Evaluate(right, env)
         case Err(e) => Err(e)
         case Ok(b) => Apply(op, a, b))
    case _ => Err(UnknownNodeType)
  }

  /// evaluateCondition: only a comparison node is a condition.
  function EvaluateCondition(node: Node, env: Env): (r: Result<bool>)
    ensures !node.BinaryOp? ==> r == Err(CannotEvaluateCondition)
    ensures r.Ok? ==> node.BinaryOp? && IsComparison(node.operator) && VariablesOf(node) <= env.Keys
  {
    match node
    case BinaryOp(left, op, right) =>
      (match Evaluate(left, env)
       case Err(e) => Err(e)
       case Ok(a) =>
         match Evaluate(right, env)
         case Err(e) => Err(e)
         case Ok(b) => if IsComparison(op) then Ok(Compare(op, a, b)) else Err(UnknownComparisonOperator(op)))
    case _ => Err(CannotEvaluateCondition)
  }

  /// Two tables that agree on the names in `names`.
  predicate AgreeOn(names: set<string>, env1: Env, env2: Env)
  {
    forall x :: x in names ==> (x in env1 <==> x in env2) && (x in env1 ==> env1[x] == env2[x])
  }

  /// The value of an expression depends only on the variables it reads.
  lemma {:induction false} EvaluateFrame(node: Node, env1: Env, env2: Env)
    requires AgreeOn(VariablesOf(node), env1, env2)
    ensures Evaluate(node, env1) == Evaluate(node, env2)
  {
    match node
    case BinaryOp(left, _, right) =>
      EvaluateFrame(left, env1, env2);
      EvaluateFrame(right, env1, env2);
    case _ =>
  }

  /// Reading a name that is not in the table fails with "Variable not declared";
  /// an operator outside the twelve fails after both operands are evaluated.
  lemma EvaluateErrors(x: string, left: Node, op: string, right: Node, env: Env)
    ensures x !in env ==> Evaluate(Variable(x), env) == Err(VariableNotDeclared(x))
    ensures Evaluate(left, env).Err? ==> Evaluate(BinaryOp(left, op, right), env) == Evaluate(left, env)
    ensures Evaluate(left, env).Ok? && Evaluate(right, env).Err? ==>
      Evaluate(BinaryOp(left, op, right), env) == Evaluate(right, env)
    ensures (Evaluate(left, env).Ok? && Evaluate(right, env).Ok? &&
             !(IsAdditive(op) || IsMultiplicative(op) || IsComparison(op))) ==>
      Evaluate(BinaryOp(left, op, right), env) == Err(UnknownOperator(op))
  {
  }

  /// On a comparison node, evaluateCondition and evaluate agree: the
  /// condition holds exactly when evaluate gives 1, and fails exactly when
  /// evaluate fails, with the same error.
  lemma ConditionAgreesWithEvaluate(node: Node, env: Env)
    requires node.BinaryOp? && IsComparison(node.operator)
    ensures EvaluateCondition(node, env).Ok? <==> Evaluate(node, env).Ok?
    ensures EvaluateCondition(node, env).Ok? ==>
      (EvaluateCondition(node, env).value <==> Evaluate(node, env).value == 1)
    ensures EvaluateCondition(node, env).Err? ==>
      EvaluateCondition(node, env).error == Evaluate(node, env).error
  {
  }

  /// An arithmetic node whose operands evaluate is not a condition.
  lemma ArithmeticIsNoCondition(node: Node, env: Env)
    requires node.BinaryOp? && (IsAdditive(node.operator) || IsMultiplicative(node.operator))
    requires Evaluate(node.left, env).Ok? && Evaluate(node.right, env).Ok?
    ensures EvaluateCondition(node, env) == Err(UnknownComparisonOperator(node.operator))
  {
  }

  // ---------------------------------------------------------------------------
  // Printing

  /// The line a print statement writes: `false` for 0, `true` for 1, and the
  /// decimal value otherwise.
  function PrintLine(v: int32): (line: string)
    ensures line == "false" <==> v == 0
    ensures line == "true" <==> v == 1
    ensures v != 0 && v != 1 ==> ParseInt(line) == Ok(v)
  {
    if v == 0 then "false"
    else if v == 1 then "true"
    else
      ParseIntOfDecimal(v);
      NotAWord(v);
      ToDecimal(v)
  }

  /// A decimal numeral starts with a digit or a minus sign, never a letter.
  lemma NotAWord(v: int32)
    ensures ToDecimal(v) != "false" && ToDecimal(v) != "true"
  {
    var s := ToDecimal(v);
    var digits := DecimalDigits(Abs(v));
    assert IsDigit(digits[0]);
    assert s[0] == '-' || s[0] == digits[0];
  }

  /// Different values print differently: no line is ambiguous.
  lemma PrintLineInjective(a: int32, b: int32)
    requires PrintLine(a) == PrintLine(b)
    ensures a == b
  {
    if a != 0 && a != 1 {
      assert ParseInt(PrintLine(a)) == Ok(b);
    }
  }

  // ---------------------------------------------------------------------------
  // Statements

  /// What execution can see and change: the symbol table and the printed lines.
  datatype State = State(vars: Env, out: seq<string>)

  /// How executing a statement ends: normally, by a `break` on its way to the
  /// innermost loop, by an exception, or by a loop that used up its fuel.
  datatype Outcome = Normal | BreakSignal | Failure(error: Error) | OutOfFuel

  datatype Executed = Executed(outcome: Outcome, state: State)

  /// Execution never removes a variable and never takes back a printed line.
  predicate Grows(s: State, t: State)
  {
    s.vars.Keys <= t.vars.Keys && s.out <= t.out
  }

  /// A declaration or an assignment: evaluate, then bind the name.
  function Bind(x: string, e: Node, s: State): (r: Executed)
    ensures r.outcome == Normal ==>
      x in r.state.vars && Evaluate(e, s.vars) == Ok(r.state.vars[x]) && r.state.out == s.out &&
      forall y :: y != x ==> (y in r.state.vars <==> y in s.vars) && (y in s.vars ==> r.state.vars[y] == s.vars[y])
    ensures r.outcome != Normal ==> Evaluate(e, s.vars).Err? && r == Executed(Failure(Evaluate(e, s.vars).error), s)
  {
    match Evaluate(e, s.vars)
    case Err(error) => Executed(Failure(error), s)
    case Ok(v) => Executed(Normal, s.(vars := s.vars[x := v]))
  }

  /// execute, for one node.
  function Exec(node: Node, s: State, fuel: nat): (r: Executed)
    ensures Grows(s, r.state)
    decreases NodeSize(node), 0, 0
  {
    match node
    case VarDeclaration(x, e) => Bind(x, e, s)
    case Assignment(x, e) => Bind(x, e, s)
    case Print(e) =>
      (match Evaluate(e, s.vars)
       case Err(error) => Executed(Failure(error), s)
       case Ok(v) => Executed(Normal, s.(out := s.out + [PrintLine(v)])))
    case While(c, body) => Loop(c, body, s, fuel, fuel)
    case If(c, thenBranch) =>
      (match EvaluateCondition(c, s.vars)
       case Err(error) => Executed(Failure(error), s)
       case Ok(holds) => if holds then ExecBlock(thenBranch, s, fuel) else Executed(Normal, s))
    case Break => Executed(BreakSignal, s)
    case _ => Executed(Normal, s)
  }

  /// The statements of a block in order, up to the first one that does not end normally.
  function ExecBlock(b: seq<Node>, s: State, fuel: nat): (r: Executed)
    ensures Grows(s, r.state)
    decreases BlockSize(b), 0, 0
  {
    if b == [] then Executed(Normal, s)
    else
      var first := Exec(b[0], s, fuel);
      if first.outcome != Normal then first else ExecBlock(b[1..], first.state, fuel)
  }

  /// A `while` loop with at most `k` more iterations. The condition is checked
  /// before every iteration; a `break` in the body ends the loop normally and
  /// keeps what the body did before it.
  function Loop(c: Node, body: seq<Node>, s: State, fuel: nat, k: nat): (r: Executed)
    ensures Grows(s, r.state)
    ensures r.outcome != BreakSignal
    decreases BlockSize(body), 1, k
  {
    match EvaluateCondition(c, s.vars)
    case Err(error) => Executed(Failure(error), s)
    case Ok(holds) =>
      if !holds then Executed(Normal, s)
      else if k == 0 then Executed(OutOfFuel, s)
      else
        var pass := ExecBlock(body, s, fuel);
        match pass.outcome
        case Normal => Loop(c, body, pass.state, fuel, k - 1)
        case BreakSignal => Executed(Normal, pass.state)
        case _ => pass
  }

  // ---------------------------------------------------------------------------
  // Facts about execution

  /// More fuel changes nothing once a run did not run out: the fuel bound only
  /// cuts off loops, it never alters what a finished run did.
  lemma {:induction false} ExecFuelMonotone(node: Node, s: State, f: nat, g: nat)
    requires f <= g && Exec(node, s, f).outcome != OutOfFuel
    ensures Exec(node, s, g) == Exec(node, s, f)
    decreases NodeSize(node), 0, 0
  {
    match node
    case While(c, body) => LoopFuelMonotone(c, body, s, f, g, f, g);
    case If(c, thenBranch) =>
      if EvaluateCondition(c, s.vars) == Ok(true) {
        BlockFuelMonotone(thenBranch, s, f, g);
      }
    case _ =>
  }

  lemma {:induction false} BlockFuelMonotone(b: seq<Node>, s: State, f: nat, g: nat)
    requires f <= g && ExecBlock(b, s, f).outcome != OutOfFuel
    ensures ExecBlock(b, s, g) == ExecBlock(b, s, f)
    decreases BlockSize(b), 0, 0
  {
    if b != [] {
      var first := Exec(b[0], s, f);
      ExecFuelMonotone(b[0], s, f, g);
      if first.outcome == Normal {
        BlockFuelMonotone(b[1..], first.state, f, g);
      }
    }
  }

  lemma {:induction false} LoopFuelMonotone(c: Node, body: seq<Node>, s: State, f: nat, g: nat, k: nat, l: nat)
    requires f <= g && k <= l && Loop(c, body, s, f, k).outcome != OutOfFuel
    ensures Loop(c, body, s, g, l) == Loop(c, body, s, f, k)
    decreases BlockSize(body), 1, k
  {
    if EvaluateCondition(c, s.vars) == Ok(true) {
      var pass := ExecBlock(body, s, f);
      BlockFuelMonotone(body, s, f, g);
      if pass.outcome == Normal {
        LoopFuelMonotone(c, body, pass.state, f, g, k - 1, l - 1);
      }
    }
  }

  /// The unrolling law of `while`: when the condition holds and the body ends
  /// normally, the loop continues as the same loop from the body's final state.
  lemma WhileUnrolls(c: Node, body: seq<Node>, s: State, fuel: nat)
    requires EvaluateCondition(c, s.vars) == Ok(true)
    requires ExecBlock(body, s, fuel).outcome == Normal
    requires Exec(While(c, body), s, fuel).outcome != OutOfFuel
    ensures Exec(While(c, body), s, fuel) == Exec(While(c, body), ExecBlock(body, s, fuel).state, fuel)
  {
    var next := ExecBlock(body, s, fuel).state;
    LoopFuelMonotone(c, body, next, fuel, fuel, fuel - 1, fuel);
  }

  /// A `break` ends the innermost loop normally and keeps the effects of the
  /// statements before it.
  lemma BreakLeavesLoop(c: Node, body: seq<Node>, s: State, fuel: nat)
    requires EvaluateCondition(c, s.vars) == Ok(true) && fuel > 0
    requires ExecBlock(body, s, fuel).outcome == BreakSignal
    ensures Exec(While(c, body), s, fuel) == Executed(Normal, ExecBlock(body, s, fuel).state)
  {
  }

  /// A `break` inside an `if` whose condition holds stops the enclosing block
  /// at once, with the effects of the statements before it.
  lemma BreakInsideIf(c: Node, before: seq<Node>, after: seq<Node>, s: State, fuel: nat)
    requires EvaluateCondition(c, ExecBlock(before, s, fuel).state.vars) == Ok(true)
    requires ExecBlock(before, s, fuel).outcome == Normal
    ensures ExecBlock(before + [If(c, [Break])] + after, s, fuel) == Executed(BreakSignal, ExecBlock(before, s, fuel).state)
  {
    var rest := [If(c, [Break])] + after;
    assert before + [If(c, [Break])] + after == before + rest;
    BlockConcat(before, rest, s, fuel);
    var mid := ExecBlock(before, s, fuel).state;
    assert rest[0] == If(c, [Break]);
    assert ExecBlock([Break], mid, fuel) == Executed(BreakSignal, mid);
    assert Exec(If(c, [Break]), mid, fuel) == Executed(BreakSignal, mid);
  }

  /// Running `a + b` runs `a`, then `b` if `a` ended normally.
  lemma {:induction false} BlockConcat(a: seq<Node>, b: seq<Node>, s: State, fuel: nat)
    ensures ExecBlock(a + b, s, fuel) ==
      var r := ExecBlock(a, s, fuel); if r.outcome == Normal then ExecBlock(b, r.state, fuel) else r
    decreases |a|
  {
    if a == [] {
      assert a + b == b;
    } else {
      assert (a + b)[0] == a[0];
      assert (a + b)[1..] == a[1..] + b;
      var first := Exec(a[0], s, fuel);
      if first.outcome == Normal {
        BlockConcat(a[1..], b, first.state, fuel);
      }
    }
  }

  /// An `if` whose condition is false changes nothing; one whose condition
  /// holds runs its branch in order.
  lemma IfRunsBranchOnlyWhenTrue(c: Node, thenBranch: seq<Node>, s: State, fuel: nat)
    ensures EvaluateCondition(c, s.vars) == Ok(false) ==> Exec(If(c, thenBranch), s, fuel) == Executed(Normal, s)
    ensures EvaluateCondition(c, s.vars) == Ok(true) ==> Exec(If(c, thenBranch), s, fuel) == ExecBlock(thenBranch, s, fuel)
  {
  }

  /// A `while` whose condition is false at the start changes nothing, and a
  /// loop never lets a `break` escape.
  lemma WhileFalseAndBreak(c: Node, body: seq<Node>, s: State, fuel: nat)
    ensures EvaluateCondition(c, s.vars) == Ok(false) ==> Exec(While(c, body), s, fuel) == Executed(Normal, s)
    ensures Exec(While(c, body), s, fuel).outcome != BreakSignal
  {
  }

  /// A print statement adds exactly one line and leaves the table alone.
  lemma PrintAddsOneLine(e: Node, s: State, fuel: nat)
    requires Evaluate(e, s.vars).Ok?
    ensures Exec(Print(e), s, fuel) == Executed(Normal, State(s.vars, s.out + [PrintLine(Evaluate(e, s.vars).value)]))
  {
  }

  // ---------------------------------------------------------------------------
  // The interpreter object

  class Interpreter {
    var symbolTable: Env
    var output: seq<string>

    constructor ()
      ensures symbolTable == map[] && output == []
    {
      symbolTable := map[];
      output := [];
    }

    function Snapshot(): State
      reads this
    {
      State(symbolTable, output)
    }

    method Execute(node: Node, fuel: nat) returns (outcome: Outcome)
      modifies this
      ensures Executed(outcome, Snapshot()) == Exec(node, old(Snapshot()), fuel)
      decreases NodeSize(node), 0, 0
    {
      match node
      case VarDeclaration(x, e) =>
        var value := Evaluate(e, symbolTable);
        if value.Err? {
          return Failure(value.error);
        }
        symbolTable := symbolTable[x := value.value];
        return Normal;
      case Assignment(x, e) =>
        var value := Evaluate(e, symbolTable);
        if value.Err? {
          return Failure(value.error);
        }
        symbolTable := symbolTable[x := value.value];
        return Normal;
      case Print(e) =>
        var result := Evaluate(e, symbolTable);
        if result.Err? {
          return Failure(result.error);
        }
        if result.value == 0 {
          output := output + ["false"];
        } else if result.value == 1 {
          output := output + ["true"];
        } else {
          output := output + [ToDecimal(result.value)];
        }
        return Normal;
      case While(c, body) =>
        outcome := ExecuteWhile(c, body, fuel);
      case If(c, thenBranch) =>
        var holds := EvaluateCondition(c, symbolTable);
        if holds.Err? {
          return Failure(holds.error);
        }
        if holds.value {
          outcome := ExecuteBlock(thenBranch, fuel);
        } else {
          outcome := Normal;
        }
      case Break =>
        return BreakSignal;
      case _ =>
        return Normal;
    }

    /// The `for` loop over the statements of a body or a branch.
    method ExecuteBlock(b: seq<Node>, fuel: nat) returns (outcome: Outcome)
      modifies this
      ensures Executed(outcome, Snapshot()) == ExecBlock(b, old(Snapshot()), fuel)
      decreases BlockSize(b), 0, 0
    {
      var i := 0;
      while i < |b|
        invariant 0 <= i <= |b|
        invariant ExecBlock(b, old(Snapshot()), fuel) == ExecBlock(b[i..], Snapshot(), fuel)
      {
        ElementSmaller(b, i);
        assert b[i..][0] == b[i] && b[i..][1..] == b[i + 1..];
        outcome := Execute(b[i], fuel);
        if outcome != Normal {
          return;
        }
        i := i + 1;
      }
      return Normal;
    }

    /// The `while` statement: the condition is re-checked before every
    /// iteration, and a `break` from the body is caught here.
    method ExecuteWhile(c: Node, body: seq<Node>, fuel: nat) returns (outcome: Outcome)
      modifies this
      ensures Executed(outcome, Snapshot()) == Loop(c, body, old(Snapshot()), fuel, fuel)
      decreases BlockSize(body), 1, 0
    {
      var k := fuel;
      while true
        invariant Loop(c, body, old(Snapshot()), fuel, fuel) == Loop(c, body, Snapshot(), fuel, k)
        decreases k
      {
        var holds := EvaluateCondition(c, symbolTable);
        if holds.Err? {
          return Failure(holds.error);
        }
        if !holds.value {
          return Normal;
        }
        if k == 0 {
          return OutOfFuel;
        }
        var pass := ExecuteBlock(body, fuel);
        if pass == BreakSignal {
          return Normal;
        }
        if pass != Normal {
          return pass;
        }
        k := k - 1;
      }
    }
  }
}
