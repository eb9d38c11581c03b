/// The recursive-descent parser (src/Parser.java).
///
/// The functions below are the specification: each reads the token list `ts`
/// from position `p` and returns the node it builds together with the position
/// after it, or the error the source throws. The `*Rest` functions are the
/// `while` loops that fold operators left-associatively. The `Parser` class is
/// the source's object, whose methods move `pos` forward and are proved to
/// compute these functions.

module Parsing {
  import opened Tokens
  import opened Errors
  import opened JavaInt
  import opened Ast

  /// A parsed value and the position of the first token after it.
  datatype Parsed<+T> = Parsed(value: T, next: nat)

  /// `currentToken()`: the token at `p`, or a synthesised EOF past the end.
  function Current(ts: seq<Token>, p: nat): Token
  {
    if p < |ts| then ts[p] else EofToken
  }

  /// `peek()`: the token after the current one, or a synthesised EOF.
  function Following(ts: seq<Token>, p: nat): Token
  {
    if p + 1 < |ts| then ts[p + 1] else EofToken
  }

  /// A condition as parseCondition builds it: an arithmetic expression, or a
  /// comparison whose left side is again a condition and whose right side is arithmetic.
  predicate IsCondition(e: Node)
  {
    IsArithmetic(e) ||
    (e.BinaryOp? && IsComparison(e.operator) && IsCondition(e.left) && IsArithmetic(e.right))
  }

  /// A statement as parseStatement builds it: right-hand sides and print
  /// arguments are arithmetic, conditions are conditions, blocks hold statements.
  predicate IsParsedStatement(n: Node)
  {
    match n
    case VarDeclaration(_, e) => IsArithmetic(e)
    case Assignment(_, e) => IsArithmetic(e)
    case Print(e) => IsArithmetic(e)
    case If(c, b) => IsCondition(c) && forall i :: 0 <= i < |b| ==> IsParsedStatement(b[i])
    case While(c, b) => IsCondition(c) && forall i :: 0 <= i < |b| ==> IsParsedStatement(b[i])
    case Break => true
    case _ => false
  }

  // ---------------------------------------------------------------------------
  // Expressions: factor, term (* / %), expression (+ -)

  function Factor(ts: seq<Token>, p: nat): (r: Result<Parsed<Node>>)
    requires p <= |ts|
    ensures r.Ok? ==> p < r.value.next <= |ts| && IsArithmetic(r.value.value)
    decreases |ts| - p, 0
  {
    var t := Current(ts, p);
    if t.kind == NUMBER then
      match ParseInt(t.text)
      case Ok(v) => Ok(Parsed(Number(v), p + 1))
      case Err(e) => Err(e)
    else if t.kind == IDENTIFIER then
      Ok(Parsed(Variable(t.text), p + 1))
    else if t.text == "(" then
      match Expression(ts, p + 1)
      case Err(e) => Err(e)
      case Ok(Parsed(e, q)) =>
        if Current(ts, q).text != ")" then Err(ExpectedRParen) else Ok(Parsed(e, q + 1))
    else
      Err(UnexpectedTokenInFactor(t.text))
  }

  /// The loop of parseTerm: `left` is what has been folded so far.
  function TermRest(ts: seq<Token>, left: Node, p: nat): (r: Result<Parsed<Node>>)
    requires p <= |ts| && IsArithmetic(left)
    ensures r.Ok? ==> p <= r.value.next <= |ts| && IsArithmetic(r.value.value)
    decreases |ts| - p, 1
  {
    var op := Current(ts, p).text;
    if IsMultiplicative(op) then
      match Factor(ts, p + 1)
      case Err(e) => Err(e)
      case Ok(Parsed(right, q)) => TermRest(ts, BinaryOp(left, op, right), q)
    else
      Ok(Parsed(left, p))
  }

  function Term(ts: seq<Token>, p: nat): (r: Result<Parsed<Node>>)
    requires p <= |ts|
    ensures r.Ok? ==> p < r.value.next <= |ts| && IsArithmetic(r.value.value)
    decreases |ts| - p, 2
  {
    match Factor(ts, p)
    case Err(e) => Err(e)
    case Ok(Parsed(f, q)) => TermRest(ts, f, q)
  }

  /// The loop of parseExpression: `left` is what has been folded so far.
  function ExpressionRest(ts: seq<Token>, left: Node, p: nat): (r: Result<Parsed<Node>>)
    requires p <= |ts| && IsArithmetic(left)
    ensures r.Ok? ==> p <= r.value.next <= |ts| && IsArithmetic(r.value.value)
    decreases |ts| - p, 3
  {
    var op := Current(ts, p).text;
    if IsAdditive(op) then
      match Term(ts, p + 1)
      case Err(e) => Err(e)
      case Ok(Parsed(right, q)) => ExpressionRest(ts, BinaryOp(left, op, right), q)
    else
      Ok(Parsed(left, p))
  }

  function Expression(ts: seq<Token>, p: nat): (r: Result<Parsed<Node>>)
    requires p <= |ts|
    ensures r.Ok? ==> p < r.value.next <= |ts| && IsArithmetic(r.value.value)
    decreases |ts| - p, 4
  {
    match Term(ts, p)
    case Err(e) => Err(e)
    case Ok(Parsed(t, q)) => ExpressionRest(ts, t, q)
  }

  // ---------------------------------------------------------------------------
  // Conditions: a chain of comparisons between expressions

  /// The loop of parseCondition: any number of comparisons, folded to the left.
  function ConditionRest(ts: seq<Token>, left: Node, p: nat): (r: Result<Parsed<Node>>)
    requires p <= |ts| && IsCondition(left)
    ensures r.Ok? ==> p <= r.value.next <= |ts| && IsCondition(r.value.value)
    decreases |ts| - p
  {
    var op := Current(ts, p).text;
    if IsComparison(op) then
      match Expression(ts, p + 1)
      case Err(e) => Err(e)
      case Ok(Parsed(right, q)) => ConditionRest(ts, BinaryOp(left, op, right), q)
    else
      Ok(Parsed(left, p))
  }

  function Condition(ts: seq<Token>, p: nat): (r: Result<Parsed<Node>>)
    requires p <= |ts|
    ensures r.Ok? ==> p < r.value.next <= |ts| && IsCondition(r.value.value)
  {
    match Expression(ts, p)
    case Err(e) => Err(e)
    case Ok(Parsed(e, q)) => ConditionRest(ts, e, q)
  }

  // ---------------------------------------------------------------------------
  // Statements and blocks

  /// parseStatement: the current token alone decides which statement follows,
  /// tested in this order: `var`, `while`, `if`, `print`, an identifier followed
  /// by `=`, `break`.
  function Statement(ts: seq<Token>, p: nat): (r: Result<Parsed<Node>>)
    requires p <= |ts|
    ensures r.Ok? ==> p < r.value.next <= |ts| && IsParsedStatement(r.value.value)
    decreases |ts| - p, 1
  {
    var t := Current(ts, p);
    if t.kind == KEYWORD && t.text == "var" then VarStatement(ts, p)
    else if t.kind == KEYWORD && (t.text == "while" || t.text == "if") then GuardedStatement(ts, p)
    else if t.kind == IDENTIFIER && t.text == "print" then PrintStatement(ts, p)
    else if t.kind == IDENTIFIER && Following(ts, p).text == "=" then AssignmentStatement(ts, p)
    else if t.kind == BREAK then Ok(Parsed(Break, p + 1))
    else Err(UnexpectedStatement(t, p))
  }

  /// `var` IDENTIFIER `=` expression, from the `var` keyword at `p`.
  function VarStatement(ts: seq<Token>, p: nat): (r: Result<Parsed<Node>>)
    requires p < |ts|
    ensures r.Ok? ==> p < r.value.next <= |ts| && IsParsedStatement(r.value.value)
    ensures r.Ok? <==>
      Current(ts, p + 1).kind == IDENTIFIER && Current(ts, p + 2).text == "=" && Expression(ts, p + 3).Ok?
    ensures r.Ok? ==> var e := Expression(ts, p + 3).value;
      r.value == Parsed(VarDeclaration(Current(ts, p + 1).text, e.value), e.next)
  {
    var name := Current(ts, p + 1);
    if name.kind != IDENTIFIER then Err(ExpectedIdentifierAfterVar)
    else if Current(ts, p + 2).text != "=" then Err(ExpectedEqAfterVariableName)
    else
      match Expression(ts, p + 3)
      case Err(e) => Err(e)
      case Ok(Parsed(e, q)) => Ok(Parsed(VarDeclaration(name.text, e), q))
  }

  /// `while` or `if`, then a condition, `{`, and a block, from the keyword at `p`.
  function GuardedStatement(ts: seq<Token>, p: nat): (r: Result<Parsed<Node>>)
    requires p < |ts|
    ensures r.Ok? ==> p < r.value.next <= |ts| && IsParsedStatement(r.value.value)
    ensures r.Ok? <==>
      Condition(ts, p + 1).Ok? && Current(ts, Condition(ts, p + 1).value.next).text == "{" &&
      Block(ts, Condition(ts, p + 1).value.next + 1).Ok?
    ensures r.Ok? ==> var c := Condition(ts, p + 1).value; var b := Block(ts, c.next + 1).value;
      r.value == Parsed(if Current(ts, p).text == "while" then While(c.value, b.value) else If(c.value, b.value), b.next)
    decreases |ts| - p, 0
  {
    var isWhile := Current(ts, p).text == "while";
    match Condition(ts, p + 1)
    case Err(e) => Err(e)
    case Ok(Parsed(c, q)) =>
      if Current(ts, q).text != "{" then
        Err(if isWhile then ExpectedLBraceAfterWhile else ExpectedLBraceAfterIf)
      else
        match Block(ts, q + 1)
        case Err(e) => Err(e)
        case Ok(Parsed(b, q')) => Ok(Parsed(if isWhile then While(c, b) else If(c, b), q'))
  }

  /// `print` `(` expression `)`, from the `print` identifier at `p`.
  function PrintStatement(ts: seq<Token>, p: nat): (r: Result<Parsed<Node>>)
    requires p < |ts|
    ensures r.Ok? ==> p < r.value.next <= |ts| && IsParsedStatement(r.value.value)
    ensures r.Ok? <==>
      Current(ts, p + 1).text == "(" && Expression(ts, p + 2).Ok? &&
      Current(ts, Expression(ts, p + 2).value.next).text == ")"
    ensures r.Ok? ==> var e := Expression(ts, p + 2).value;
      r.value == Parsed(Print(e.value), e.next + 1)
  {
    if Current(ts, p + 1).text != "(" then Err(ExpectedLParenAfterPrint)
    else
      match Expression(ts, p + 2)
      case Err(e) => Err(e)
      case Ok(Parsed(e, q)) =>
        if Current(ts, q).text != ")" then Err(ExpectedRParenAfterPrint)
        else Ok(Parsed(Print(e), q + 1))
  }

  /// IDENTIFIER `=` expression, from the identifier at `p`.
  function AssignmentStatement(ts: seq<Token>, p: nat): (r: Result<Parsed<Node>>)
    requires p + 1 < |ts|
    ensures r.Ok? ==> p < r.value.next <= |ts| && IsParsedStatement(r.value.value)
    ensures r.Ok? <==> Expression(ts, p + 2).Ok?
    ensures r.Ok? ==> var e := Expression(ts, p + 2).value;
      r.value == Parsed(Assignment(ts[p].text, e.value), e.next)
  {
    match Expression(ts, p + 2)
    case Err(e) => Err(e)
    case Ok(Parsed(e, q)) => Ok(Parsed(Assignment(Current(ts, p).text, e), q))
  }

  /// The statements up to the closing `}`, which is consumed.
  function Block(ts: seq<Token>, p: nat): (r: Result<Parsed<seq<Node>>>)
    requires p <= |ts|
    ensures r.Ok? ==> p < r.value.next <= |ts|
    ensures r.Ok? ==> forall i :: 0 <= i < |r.value.value| ==> IsParsedStatement(r.value.value[i])
    decreases |ts| - p, 2
  {
    var t := Current(ts, p);
    if t.text == "}" then Ok(Parsed([], p + 1))
    else if t.kind == EOF then Err(MissingRBrace)
    else
      match Statement(ts, p)
      case Err(e) => Err(e)
      case Ok(Parsed(s, q)) =>
        match Block(ts, q)
        case Err(e) => Err(e)
        case Ok(Parsed(rest, q')) => Ok(Parsed([s] + rest, q'))
  }

  // ---------------------------------------------------------------------------
  // The parser object

  /// A method's result agrees with a specification function: same node and the
  /// position moved to where the function says, or the same error.
  ghost predicate Agrees<T>(r: Result<T>, pos: nat, spec: Result<Parsed<T>>)
  {
    match spec
    case Ok(Parsed(v, q)) => r == Ok(v) && pos == q
    case Err(e) => r == Err(e)
  }

  /// Puts already collected statements in front of the rest of a block.
  function PrependStatements(ss: seq<Node>, r: Result<Parsed<seq<Node>>>): Result<Parsed<seq<Node>>>
  {
    if r.Ok? then Ok(Parsed(ss + r.value.value, r.value.next)) else r
  }

  lemma PrependNoStatements(r: Result<Parsed<seq<Node>>>)
    ensures PrependStatements([], r) == r
  {
    if r.Ok? { assert [] + r.value.value == r.value.value; }
  }

  lemma PrependStatementsTwice(a: seq<Node>, b: seq<Node>, r: Result<Parsed<seq<Node>>>)
    ensures PrependStatements(a, PrependStatements(b, r)) == PrependStatements(a + b, r)
  {
    if r.Ok? { assert a + (b + r.value.value) == (a + b) + r.value.value; }
  }

  class Parser {
    const tokens: seq<Token>
    var pos: nat

    ghost predicate Valid()
      reads this
    {
      pos <= |tokens|
    }

    constructor (tokens: seq<Token>)
      ensures this.tokens == tokens && pos == 0 && Valid()
    {
      this.tokens := tokens;
      pos := 0;
    }

    /// The token at `pos`, or an EOF token with empty text past the end.
    function CurrentToken(): (t: Token)
      reads this
      ensures pos < |tokens| ==> t == tokens[pos]
      ensures pos >= |tokens| ==> t == Token(EOF, "")
    {
      Current(tokens, pos)
    }

    /// Moves to the next token, but never past the end of the list.
    method Advance()
      requires Valid()
      modifies this`pos
      ensures Valid()
      ensures old(pos) < |tokens| ==> pos == old(pos) + 1
      ensures old(pos) == |tokens| ==> pos == old(pos)
    {
      if pos < |tokens| {
        pos := pos + 1;
      }
    }

    /// The token after the current one, or an EOF token with empty text.
    function PeekToken(): (t: Token)
      reads this
      ensures pos + 1 < |tokens| ==> t == tokens[pos + 1]
      ensures pos + 1 >= |tokens| ==> t == Token(EOF, "")
    {
      Following(tokens, pos)
    }

    method ParseFactor() returns (r: Result<Node>)
      requires Valid()
      modifies this`pos
      ensures Valid() && Agrees(r, pos, Factor(tokens, old(pos)))
      decreases |tokens| - pos, 0
    {
      var token := CurrentToken();
      if token.kind == NUMBER {
        Advance();
        var value := ParseInt(token.text);
        if value.Err? {
          return Err(value.error);
        }
        return Ok(Number(value.value));
      } else if token.kind == IDENTIFIER {
        var variableName := token.text;
        Advance();
        return Ok(Variable(variableName));
      } else if token.text == "(" {
        Advance();
        var expression := ParseExpression();
        if expression.Err? {
          return expression;
        }
        if CurrentToken().text != ")" {
          return Err(ExpectedRParen);
        }
        Advance();
        return expression;
      }
      return Err(UnexpectedTokenInFactor(token.text));
    }

    method ParseTerm() returns (r: Result<Node>)
      requires Valid()
      modifies this`pos
      ensures Valid() && Agrees(r, pos, Term(tokens, old(pos)))
      decreases |tokens| - pos, 2
    {
      ghost var p0 := pos;
      var first := ParseFactor();
      if first.Err? {
        return first;
      }
      var node := first.value;
      while IsMultiplicative(CurrentToken().text)
        invariant Valid() && p0 < pos
        invariant IsArithmetic(node) && Term(tokens, p0) == TermRest(tokens, node, pos)
        decreases |tokens| - pos
      {
        var operator := CurrentToken().text;
        Advance();
        var right := ParseFactor();
        if right.Err? {
          return right;
        }
        node := BinaryOp(node, operator, right.value);
      }
      return Ok(node);
    }

    method ParseCondition() returns (r: Result<Node>)
      requires Valid()
      modifies this`pos
      ensures Valid() && Agrees(r, pos, Condition(tokens, old(pos)))
      decreases |tokens| - pos, 5
    {
      ghost var p0 := pos;
      var first := ParseExpression();
      if first.Err? {
        return first;
      }
      var node := first.value;
      while IsComparison(CurrentToken().text)
        invariant Valid() && p0 < pos
        invariant IsCondition(node) && Condition(tokens, p0) == ConditionRest(tokens, node, pos)
        decreases |tokens| - pos
      {
        var operator := CurrentToken().text;
        Advance();
        var right := ParseExpression();
        if right.Err? {
          return right;
        }
        node := BinaryOp(node, operator, right.value);
      }
      return Ok(node);
    }

    method ParseExpression() returns (r: Result<Node>)
      requires Valid()
      modifies this`pos
      ensures Valid() && Agrees(r, pos, Expression(tokens, old(pos)))
      decreases |tokens| - pos, 4
    {
      ghost var p0 := pos;
      var first := ParseTerm();
      if first.Err? {
        return first;
      }
      var node := first.value;
      while IsAdditive(CurrentToken().text)
        invariant Valid() && p0 < pos
        invariant IsArithmetic(node) && Expression(tokens, p0) == ExpressionRest(tokens, node, pos)
        decreases |tokens| - pos
      {
        var operator := CurrentToken().text;
        Advance();
        var right := ParseTerm();
        if right.Err? {
          return right;
        }
        node := BinaryOp(node, operator, right.value);
      }
      return Ok(node);
    }

    method ParseStatement() returns (r: Result<Node>)
      requires Valid()
      modifies this`pos
      ensures Valid() && Agrees(r, pos, Statement(tokens, old(pos)))
      decreases |tokens| - pos, 8
    {
      if CurrentToken().kind == KEYWORD && CurrentToken().text == "var" {
        r := ParseVarDeclaration();
      } else if CurrentToken().kind == KEYWORD && CurrentToken().text == "while" {
        r := ParseGuarded();
      } else if CurrentToken().kind == KEYWORD && CurrentToken().text == "if" {
        r := ParseGuarded();
      } else if CurrentToken().kind == IDENTIFIER && CurrentToken().text == "print" {
        r := ParsePrint();
      } else if CurrentToken().kind == IDENTIFIER && PeekToken().text == "=" {
        var variableName := CurrentToken().text;
        Advance();
        Advance();
        var expression := ParseExpression();
        if expression.Err? {
          return expression;
        }
        return Ok(Assignment(variableName, expression.value));
      } else if CurrentToken().kind == BREAK {
        Advance();
        return Ok(Break);
      } else {
        return Err(UnexpectedStatement(CurrentToken(), pos));
      }
    }

    method ParseVarDeclaration() returns (r: Result<Node>)
      requires Valid() && pos < |tokens|
      modifies this`pos
      ensures Valid() && Agrees(r, pos, VarStatement(tokens, old(pos)))
      decreases |tokens| - pos, 6
    {
      Advance();
      if CurrentToken().kind != IDENTIFIER {
        return Err(ExpectedIdentifierAfterVar);
      }
      var variableName := CurrentToken().text;
      Advance();
      if CurrentToken().text != "=" {
        return Err(ExpectedEqAfterVariableName);
      }
      Advance();
      var initializer := ParseExpression();
      if initializer.Err? {
        return initializer;
      }
      return Ok(VarDeclaration(variableName, initializer.value));
    }

    /// The `while` and `if` branches of parseStatement, which differ only in
    /// the node they build and the message of a missing `{`.
    method ParseGuarded() returns (r: Result<Node>)
      requires Valid() && pos < |tokens|
      modifies this`pos
      ensures Valid() && Agrees(r, pos, GuardedStatement(tokens, old(pos)))
      decreases |tokens| - pos, 7
    {
      var isWhile := CurrentToken().text == "while";
      Advance();
      var condition := ParseCondition();
      if condition.Err? {
        return condition;
      }
      if CurrentToken().text != "{" {
        return Err(if isWhile then ExpectedLBraceAfterWhile else ExpectedLBraceAfterIf);
      }
      Advance();
      var block := ParseBlock();
      if block.Err? {
        return Err(block.error);
      }
      return Ok(if isWhile then While(condition.value, block.value) else If(condition.value, block.value));
    }

    method ParsePrint() returns (r: Result<Node>)
      requires Valid() && pos < |tokens|
      modifies this`pos
      ensures Valid() && Agrees(r, pos, PrintStatement(tokens, old(pos)))
      decreases |tokens| - pos, 6
    {
      Advance();
      if CurrentToken().text != "(" {
        return Err(ExpectedLParenAfterPrint);
      }
      Advance();
      var expression := ParseExpression();
      if expression.Err? {
        return expression;
      }
      if CurrentToken().text != ")" {
        return Err(ExpectedRParenAfterPrint);
      }
      Advance();
      return Ok(Print(expression.value));
    }

    method ParseBlock() returns (r: Result<seq<Node>>)
      requires Valid()
      modifies this`pos
      ensures Valid() && Agrees(r, pos, Block(tokens, old(pos)))
      decreases |tokens| - pos, 9
    {
      ghost var p0 := pos;
      var statements: seq<Node> := [];
      PrependNoStatements(Block(tokens, p0));
      while CurrentToken().text != "}"
        invariant Valid() && p0 <= pos
        invariant Block(tokens, p0) == PrependStatements(statements, Block(tokens, pos))
        decreases |tokens| - pos
      {
        if CurrentToken().kind == EOF {
          return Err(MissingRBrace);
        }
        ghost var before := pos;
        var statement := ParseStatement();
        if statement.Err? {
          return Err(statement.error);
        }
        assert Block(tokens, before) == PrependStatements([statement.value], Block(tokens, pos));
        PrependStatementsTwice(statements, [statement.value], Block(tokens, pos));
        statements := statements + [statement.value];
      }
      Advance();
      assert statements + [] == statements;
      return Ok(statements);
    }
  }
}
