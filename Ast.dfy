/// The abstract syntax tree the parser builds and the interpreter walks
/// (src/NumberNode.java, src/VariableNode.java, src/BinaryOpNode.java,
/// src/VarDeclarationNode.java, src/AssignmentNode.java, src/PrintNode.java,
/// src/IfNode.java, src/WhileNode.java and the break node).

module Ast {
  import opened JavaInt

  /// Expressions and statements share one node type, as they share the base class `Node`.
  datatype Node =
    | Number(value: int32)
    | Variable(name: string)
    | BinaryOp(left: Node, operator: string, right: Node)
    | VarDeclaration(variableName: string, initializer: Node)
    | Assignment(variable: string, expression: Node)
    | Print(expression: Node)
    | If(condition: Node, thenBranch: seq<Node>)
    | While(condition: Node, body: seq<Node>)
    | Break

  /// The six comparison operators; evaluation turns them into 1 or 0.
  predicate IsComparison(op: string)
  {
    op == "<=" || op == ">=" || op == "<" || op == ">" || op == "==" || op == "!="
  }

  predicate IsAdditive(op: string) { op == "+" || op == "-" }

  predicate IsMultiplicative(op: string) { op == "*" || op == "/" || op == "%" }

  /// Nodes the parser returns from parseStatement.
  predicate IsStatement(n: Node)
  {
    n.VarDeclaration? || n.Assignment? || n.Print? || n.If? || n.While? || n.Break?
  }

  /// Expression trees built from literals, variables and arithmetic operators only.
  predicate IsArithmetic(e: Node)
  {
    match e
    case Number(_) => true
    case Variable(_) => true
    case BinaryOp(l, op, r) => (IsAdditive(op) || IsMultiplicative(op)) && IsArithmetic(l) && IsArithmetic(r)
    case _ => false
  }

  /// Size measures used to show that the tree walk terminates.
  function NodeSize(n: Node): (k: nat)
    ensures k >= 1
  {
    match n
    case Number(_) => 1
    case Variable(_) => 1
    case BinaryOp(l, _, r) => 1 + NodeSize(l) + NodeSize(r)
    case VarDeclaration(_, e) => 1 + NodeSize(e)
    case Assignment(_, e) => 1 + NodeSize(e)
    case Print(e) => 1 + NodeSize(e)
    case If(c, b) => 1 + NodeSize(c) + BlockSize(b)
    case While(c, b) => 1 + NodeSize(c) + BlockSize(b)
    case Break => 1
  }

  function BlockSize(b: seq<Node>): (k: nat)
    ensures k >= 1
  {
    if b == [] then 1 else NodeSize(b[0]) + BlockSize(b[1..])
  }

  lemma {:induction false} ElementSmaller(b: seq<Node>, i: nat)
    requires i < |b|
    ensures NodeSize(b[i]) < BlockSize(b)
    ensures BlockSize(b[i + 1..]) < BlockSize(b[i..])
  {
    if i > 0 {
      assert b[1..][i - 1] == b[i];
      assert b[1..][i..] == b[i + 1..];
      assert b[1..][i - 1..] == b[i..];
      ElementSmaller(b[1..], i - 1);
    } else {
      assert b[1..] == b[i + 1..];
    }
  }
}
