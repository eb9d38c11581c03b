/// Properties of the parser specification in module Parsing: where each level
/// stops, precedence and left associativity, how a statement's first token
/// decides its form, the error cases, and a printer that the expression parser inverts.

module ParserFacts {
  import opened Tokens
  import opened Errors
  import opened JavaInt
  import opened Ast
  import opened Parsing
  import Lexing

  // ---------------------------------------------------------------------------
  // Each level consumes every operator of its own kind

  lemma {:induction false} TermRestStops(ts: seq<Token>, left: Node, p: nat)
    requires p <= |ts| && IsArithmetic(left) && TermRest(ts, left, p).Ok?
    ensures !IsMultiplicative(Current(ts, TermRest(ts, left, p).value.next).text)
    decreases |ts| - p
  {
    var op := Current(ts, p).text;
    if IsMultiplicative(op) {
      var right := Factor(ts, p + 1).value;
      TermRestStops(ts, BinaryOp(left, op, right.value), right.next);
    }
  }

  /// A term stops only at a token that is not `*`, `/` or `%`.
  lemma TermStops(ts: seq<Token>, p: nat)
    requires p <= |ts| && Term(ts, p).Ok?
    ensures !IsMultiplicative(Current(ts, Term(ts, p).value.next).text)
  {
    var f := Factor(ts, p).value;
    TermRestStops(ts, f.value, f.next);
  }

  lemma {:induction false} ExpressionRestStops(ts: seq<Token>, left: Node, p: nat)
    requires p <= |ts| && IsArithmetic(left) && !IsMultiplicative(Current(ts, p).text)
    requires ExpressionRest(ts, left, p).Ok?
    ensures var q := ExpressionRest(ts, left, p).value.next;
      !IsAdditive(Current(ts, q).text) && !IsMultiplicative(Current(ts, q).text)
    decreases |ts| - p
  {
    var op := Current(ts, p).text;
    if IsAdditive(op) {
      var right := Term(ts, p + 1).value;
      TermStops(ts, p + 1);
      ExpressionRestStops(ts, BinaryOp(left, op, right.value), right.next);
    }
  }

  /// An expression stops only at a token that is no arithmetic operator; in
  /// particular parseExpression never consumes a comparison.
  lemma ExpressionStops(ts: seq<Token>, p: nat)
    requires p <= |ts| && Expression(ts, p).Ok?
    ensures var q := Expression(ts, p).value.next;
      !IsAdditive(Current(ts, q).text) && !IsMultiplicative(Current(ts, q).text)
  {
    var t := Term(ts, p).value;
    TermStops(ts, p);
    ExpressionRestStops(ts, t.value, t.next);
  }

  lemma {:induction false} ConditionRestStops(ts: seq<Token>, left: Node, p: nat)
    requires p <= |ts| && IsCondition(left)
    requires !IsAdditive(Current(ts, p).text) && !IsMultiplicative(Current(ts, p).text)
    requires ConditionRest(ts, left, p).Ok?
    ensures var q := ConditionRest(ts, left, p).value.next;
      !IsComparison(Current(ts, q).text) && !IsAdditive(Current(ts, q).text) && !IsMultiplicative(Current(ts, q).text)
    decreases |ts| - p
  {
    var op := Current(ts, p).text;
    if IsComparison(op) {
      var right := Expression(ts, p + 1).value;
      ExpressionStops(ts, p + 1);
      ConditionRestStops(ts, BinaryOp(left, op, right.value), right.next);
    }
  }

  /// A condition takes every comparison that follows, however many: the chain
  /// `a < b < c` is one condition.
  lemma ConditionStops(ts: seq<Token>, p: nat)
    requires p <= |ts| && Condition(ts, p).Ok?
    ensures var q := Condition(ts, p).value.next;
      !IsComparison(Current(ts, q).text) && !IsAdditive(Current(ts, q).text) && !IsMultiplicative(Current(ts, q).text)
  {
    var e := Expression(ts, p).value;
    ExpressionStops(ts, p);
    ConditionRestStops(ts, e.value, e.next);
  }

  // ---------------------------------------------------------------------------
  // Precedence and associativity

  /// Two additive operators fold to the left: `x - y - z` is `(x - y) - z`.
  lemma AdditiveLeftAssociative(ts: seq<Token>, p: nat, x: Node, y: Node, z: Node, q1: nat, q2: nat, q3: nat)
    requires p <= |ts| && Term(ts, p) == Ok(Parsed(x, q1)) && IsAdditive(Current(ts, q1).text)
    requires q1 < |ts| && Term(ts, q1 + 1) == Ok(Parsed(y, q2)) && IsAdditive(Current(ts, q2).text)
    requires q2 < |ts| && Term(ts, q2 + 1) == Ok(Parsed(z, q3)) && !IsAdditive(Current(ts, q3).text)
    ensures Expression(ts, p) ==
      Ok(Parsed(BinaryOp(BinaryOp(x, Current(ts, q1).text, y), Current(ts, q2).text, z), q3))
  {
    var xy := BinaryOp(x, Current(ts, q1).text, y);
    assert ExpressionRest(ts, xy, q2) == ExpressionRest(ts, BinaryOp(xy, Current(ts, q2).text, z), q3);
  }

  /// Two multiplicative operators fold to the left: `x / y * z` is `(x / y) * z`.
  lemma MultiplicativeLeftAssociative(ts: seq<Token>, p: nat, x: Node, y: Node, z: Node, q1: nat, q2: nat, q3: nat)
    requires p <= |ts| && Factor(ts, p) == Ok(Parsed(x, q1)) && IsMultiplicative(Current(ts, q1).text)
    requires q1 < |ts| && Factor(ts, q1 + 1) == Ok(Parsed(y, q2)) && IsMultiplicative(Current(ts, q2).text)
    requires q2 < |ts| && Factor(ts, q2 + 1) == Ok(Parsed(z, q3)) && !IsMultiplicative(Current(ts, q3).text)
    ensures Term(ts, p) ==
      Ok(Parsed(BinaryOp(BinaryOp(x, Current(ts, q1).text, y), Current(ts, q2).text, z), q3))
  {
    var xy := BinaryOp(x, Current(ts, q1).text, y);
    assert TermRest(ts, xy, q2) == TermRest(ts, BinaryOp(xy, Current(ts, q2).text, z), q3);
  }

  /// `*`, `/` and `%` bind tighter than `+` and `-` on either side:
  /// `x + y * z` is `x + (y * z)`.
  lemma MultiplicativeBindsTighterRight(ts: seq<Token>, p: nat, x: Node, y: Node, z: Node, q1: nat, q2: nat, q3: nat)
    requires p <= |ts| && Factor(ts, p) == Ok(Parsed(x, q1)) && IsAdditive(Current(ts, q1).text)
    requires q1 < |ts| && Factor(ts, q1 + 1) == Ok(Parsed(y, q2)) && IsMultiplicative(Current(ts, q2).text)
    requires q2 < |ts| && Factor(ts, q2 + 1) == Ok(Parsed(z, q3))
    requires !IsMultiplicative(Current(ts, q3).text) && !IsAdditive(Current(ts, q3).text)
    ensures Expression(ts, p) ==
      Ok(Parsed(BinaryOp(x, Current(ts, q1).text, BinaryOp(y, Current(ts, q2).text, z)), q3))
  {
    var op1, op2 := Current(ts, q1).text, Current(ts, q2).text;
    var yz := BinaryOp(y, op2, z);
    assert !IsMultiplicative(op1);
    assert TermRest(ts, x, q1) == Ok(Parsed(x, q1));
    assert Term(ts, p) == Ok(Parsed(x, q1));
    assert TermRest(ts, yz, q3) == Ok(Parsed(yz, q3));
    assert TermRest(ts, y, q2) == Ok(Parsed(yz, q3));
    assert Term(ts, q1 + 1) == Ok(Parsed(yz, q3));
    assert ExpressionRest(ts, BinaryOp(x, op1, yz), q3) == Ok(Parsed(BinaryOp(x, op1, yz), q3));
    assert ExpressionRest(ts, x, q1) == Ok(Parsed(BinaryOp(x, op1, yz), q3));
  }

  /// ... and `x * y + z` is `(x * y) + z`.
  lemma MultiplicativeBindsTighterLeft(ts: seq<Token>, p: nat, x: Node, y: Node, z: Node, q1: nat, q2: nat, q3: nat)
    requires p <= |ts| && Factor(ts, p) == Ok(Parsed(x, q1)) && IsMultiplicative(Current(ts, q1).text)
    requires q1 < |ts| && Factor(ts, q1 + 1) == Ok(Parsed(y, q2)) && IsAdditive(Current(ts, q2).text)
    requires q2 < |ts| && Factor(ts, q2 + 1) == Ok(Parsed(z, q3))
    requires !IsMultiplicative(Current(ts, q3).text) && !IsAdditive(Current(ts, q3).text)
    ensures Expression(ts, p) ==
      Ok(Parsed(BinaryOp(BinaryOp(x, Current(ts, q1).text, y), Current(ts, q2).text, z), q3))
  {
    var op1, op2 := Current(ts, q1).text, Current(ts, q2).text;
    var xy := BinaryOp(x, op1, y);
    assert !IsMultiplicative(op2);
    assert TermRest(ts, xy, q2) == Ok(Parsed(xy, q2));
    assert TermRest(ts, x, q1) == Ok(Parsed(xy, q2));
    assert Term(ts, p) == Ok(Parsed(xy, q2));
    assert TermRest(ts, z, q3) == Ok(Parsed(z, q3));
    assert Term(ts, q2 + 1) == Ok(Parsed(z, q3));
    var whole := BinaryOp(xy, op2, z);
    assert ExpressionRest(ts, whole, q3) == Ok(Parsed(whole, q3));
    assert ExpressionRest(ts, xy, q2) == Ok(Parsed(whole, q3));
  }

  /// The tokens of `a - b - c` parse as `(a - b) - c`.
  lemma SubtractionExample()
    ensures var ts := [Token(IDENTIFIER, "a"), Token(MINUS, "-"), Token(IDENTIFIER, "b"),
                       Token(MINUS, "-"), Token(IDENTIFIER, "c"), EofToken];
      Expression(ts, 0) ==
        Ok(Parsed(BinaryOp(BinaryOp(Variable("a"), "-", Variable("b")), "-", Variable("c")), 5))
  {
    var ts := [Token(IDENTIFIER, "a"), Token(MINUS, "-"), Token(IDENTIFIER, "b"),
               Token(MINUS, "-"), Token(IDENTIFIER, "c"), EofToken];
    assert Term(ts, 0) == Ok(Parsed(Variable("a"), 1));
    assert Term(ts, 2) == Ok(Parsed(Variable("b"), 3));
    assert Term(ts, 4) == Ok(Parsed(Variable("c"), 5));
    AdditiveLeftAssociative(ts, 0, Variable("a"), Variable("b"), Variable("c"), 1, 3, 5);
  }

  // ---------------------------------------------------------------------------
  // Statements

  /// The token that starts a statement: `var`, `while` or `if` keywords, the
  /// identifier `print`, an identifier followed by `=`, or `break`.
  predicate StartsStatement(ts: seq<Token>, p: nat)
  {
    var t := Current(ts, p);
    (t.kind == KEYWORD && (t.text == "var" || t.text == "while" || t.text == "if")) ||
    (t.kind == IDENTIFIER && (t.text == "print" || Following(ts, p).text == "=")) ||
    t.kind == BREAK
  }

  /// Anything else is rejected as an unexpected statement at that token.
  lemma UnexpectedStatementError(ts: seq<Token>, p: nat)
    requires p <= |ts| && !StartsStatement(ts, p)
    ensures Statement(ts, p) == Err(UnexpectedStatement(Current(ts, p), p))
  {
  }

  /// The first token alone decides which statement a successful parse returns;
  /// `print` is tested before assignment, so `print` never becomes an assignment target.
  lemma StatementDispatch(ts: seq<Token>, p: nat)
    requires p <= |ts| && Statement(ts, p).Ok?
    ensures var n := Statement(ts, p).value.value; var t := Current(ts, p);
      (n.VarDeclaration? <==> t.kind == KEYWORD && t.text == "var") &&
      (n.While? <==> t.kind == KEYWORD && t.text == "while") &&
      (n.If? <==> t.kind == KEYWORD && t.text == "if") &&
      (n.Print? <==> t.kind == IDENTIFIER && t.text == "print") &&
      (n.Assignment? <==> t.kind == IDENTIFIER && t.text != "print" && Following(ts, p).text == "=") &&
      (n.Break? <==> t.kind == BREAK)
  {
    var t := Current(ts, p);
    if t.kind == KEYWORD && (t.text == "while" || t.text == "if") {
      var r := GuardedStatement(ts, p);
      assert r.Ok?;
      var c := Condition(ts, p + 1).value;
      var b := Block(ts, c.next + 1).value;
      assert r.value.value == if t.text == "while" then While(c.value, b.value) else If(c.value, b.value);
    }
  }

  /// `var` must be followed by an identifier and `=`.
  lemma VarDeclarationErrors(ts: seq<Token>, p: nat)
    requires p < |ts| && Current(ts, p) == Token(KEYWORD, "var")
    ensures Current(ts, p + 1).kind != IDENTIFIER ==> Statement(ts, p) == Err(ExpectedIdentifierAfterVar)
    ensures Current(ts, p + 1).kind == IDENTIFIER && Current(ts, p + 2).text != "=" ==>
      Statement(ts, p) == Err(ExpectedEqAfterVariableName)
  {
  }

  /// `if` and `while` need `{` right after the condition.
  lemma GuardNeedsBrace(ts: seq<Token>, p: nat)
    requires p < |ts| && Current(ts, p).kind == KEYWORD && (Current(ts, p).text == "while" || Current(ts, p).text == "if")
    requires Condition(ts, p + 1).Ok? && Current(ts, Condition(ts, p + 1).value.next).text != "{"
    ensures Statement(ts, p) ==
      Err(if Current(ts, p).text == "while" then ExpectedLBraceAfterWhile else ExpectedLBraceAfterIf)
  {
  }

  /// `print(x == 1)` is a parse error: the argument is an expression, which
  /// stops in front of `==`, and `)` is expected there.
  lemma PrintOfComparisonFails()
    ensures var ts := [Token(IDENTIFIER, "print"), Token(LPAREN, "("), Token(IDENTIFIER, "x"),
                       Token(EQUAL_EQUAL, "=="), Token(NUMBER, "1"), Token(RPAREN, ")"), EofToken];
      Statement(ts, 0) == Err(ExpectedRParenAfterPrint)
  {
    var ts := [Token(IDENTIFIER, "print"), Token(LPAREN, "("), Token(IDENTIFIER, "x"),
               Token(EQUAL_EQUAL, "=="), Token(NUMBER, "1"), Token(RPAREN, ")"), EofToken];
    assert Term(ts, 2) == Ok(Parsed(Variable("x"), 3));
    assert Expression(ts, 2) == Ok(Parsed(Variable("x"), 3));
  }

  /// Any comparison after a print argument is rejected the same way.
  lemma PrintStopsAtComparison(ts: seq<Token>, p: nat)
    requires p + 1 < |ts| && Current(ts, p) == Token(IDENTIFIER, "print") && Current(ts, p + 1).text == "("
    requires Expression(ts, p + 2).Ok? && IsComparison(Current(ts, Expression(ts, p + 2).value.next).text)
    ensures Statement(ts, p) == Err(ExpectedRParenAfterPrint)
  {
  }

  /// parseFactor's errors: a NUMBER that parseInt rejects, a group whose
  /// expression fails or is not closed by `)`, and any token that starts no factor.
  lemma FactorErrors(ts: seq<Token>, p: nat)
    requires p <= |ts|
    ensures var t := Current(ts, p);
      t.kind == NUMBER && ParseInt(t.text).Err? ==> Factor(ts, p) == Err(NumberFormat(t.text))
    ensures var t := Current(ts, p);
      t.kind != NUMBER && t.kind != IDENTIFIER && t.text == "(" && Expression(ts, p + 1).Err? ==>
        Factor(ts, p) == Expression(ts, p + 1)
    ensures var t := Current(ts, p);
      t.kind != NUMBER && t.kind != IDENTIFIER && t.text == "(" && Expression(ts, p + 1).Ok? &&
      Current(ts, Expression(ts, p + 1).value.next).text != ")" ==>
        Factor(ts, p) == Err(ExpectedRParen)
    ensures var t := Current(ts, p);
      t.kind != NUMBER && t.kind != IDENTIFIER && t.text != "(" ==>
        Factor(ts, p) == Err(UnexpectedTokenInFactor(t.text))
  {
  }

  /// `print` must be followed by `(`, whatever comes after it.
  lemma PrintNeedsParen(ts: seq<Token>, p: nat)
    requires p < |ts| && Current(ts, p) == Token(IDENTIFIER, "print") && Current(ts, p + 1).text != "("
    ensures Statement(ts, p) == Err(ExpectedLParenAfterPrint)
  {
  }

  /// `print = 5` is not an assignment: the `print` test comes first and wants `(`.
  lemma PrintIsNeverAssigned()
    ensures var ts := [Token(IDENTIFIER, "print"), Token(EQ, "="), Token(NUMBER, "5"), EofToken];
      Statement(ts, 0) == Err(ExpectedLParenAfterPrint)
  {
  }

  /// A block ends with the `}` it consumed: a token list with no `}` from `p`
  /// on never yields a block.
  lemma {:induction false} BlockConsumesBrace(ts: seq<Token>, p: nat)
    requires p <= |ts| && Block(ts, p).Ok?
    ensures var q := Block(ts, p).value.next; p < q <= |ts| && ts[q - 1].text == "}"
    decreases |ts| - p
  {
    if Current(ts, p).text != "}" {
      BlockStep(ts, p);
      BlockConsumesBrace(ts, Statement(ts, p).value.next);
    } else {
      BlockEnd(ts, p);
    }
  }

  /// A block that goes on past a statement ends where the rest of it ends.
  lemma BlockStep(ts: seq<Token>, p: nat)
    requires p <= |ts| && Block(ts, p).Ok? && Current(ts, p).text != "}"
    ensures Statement(ts, p).Ok? && Block(ts, Statement(ts, p).value.next).Ok?
    ensures Block(ts, p).value.next == Block(ts, Statement(ts, p).value.next).value.next
  {
  }

  /// A block that starts at `}` ends right after it.
  lemma BlockEnd(ts: seq<Token>, p: nat)
    requires p <= |ts| && Current(ts, p).text == "}"
    ensures p < |ts| && ts[p].text == "}" && Block(ts, p) == Ok(Parsed([], p + 1))
  {
  }

  /// Reaching the end of the input inside a block is the "missing '}'" error.
  lemma BlockAtEof(ts: seq<Token>, p: nat)
    requires p <= |ts| && Current(ts, p) == EofToken
    ensures Block(ts, p) == Err(MissingRBrace)
  {
  }
  // ---------------------------------------------------------------------------
  // A printer the expression parser inverts

  /// The token that spells an arithmetic operator.
  function OperatorToken(op: string): (t: Token)
    requires IsAdditive(op) || IsMultiplicative(op)
    ensures t.text == op && t.kind != EOF
  {
    match op
    case "+" => Token(PLUS, "+")
    case "-" => Token(MINUS, "-")
    case "*" => Token(STAR, "*")
    case "/" => Token(SLASH, "/")
    case "%" => Token(PERCENT, "%")
  }

  /// Writes an arithmetic expression as tokens, every operation in parentheses.
  function Unparse(e: Node): (ts: seq<Token>)
    requires IsArithmetic(e)
    ensures 0 < |ts|
  {
    match e
    case Number(v) => [Token(NUMBER, ToDecimal(v))]
    case Variable(x) => [Token(IDENTIFIER, x)]
    case BinaryOp(l, op, r) => Parenthesized(Unparse(l), OperatorToken(op), Unparse(r))
  }

  function Parenthesized(u: seq<Token>, o: Token, v: seq<Token>): (ts: seq<Token>)
    ensures |ts| == |u| + |v| + 3
  {
    [Token(LPAREN, "(")] + u + [o] + v + [Token(RPAREN, ")")]
  }

  /// `( l op r )` is one factor when `l` and `r` are factors.
  /// An expression between `(` and `)` is a factor.
  lemma GroupFactor(ts: seq<Token>, p: nat, e: Node, c: nat)
    requires p < |ts| && ts[p] == Token(LPAREN, "(")
    requires Expression(ts, p + 1) == Ok(Parsed(e, c)) && c < |ts| && ts[c] == Token(RPAREN, ")")
    ensures Factor(ts, p) == Ok(Parsed(e, c + 1))
  {
    assert Current(ts, p).text == "(" && Current(ts, c).text == ")";
  }

  lemma ProductExpression(ts: seq<Token>, p: nat, l: Node, op: string, r: Node, b: nat, c: nat)
    requires IsArithmetic(BinaryOp(l, op, r)) && IsMultiplicative(op) && p <= |ts|
    requires Factor(ts, p) == Ok(Parsed(l, b)) && b < |ts| && ts[b] == OperatorToken(op)
    requires Factor(ts, b + 1) == Ok(Parsed(r, c)) && c < |ts| && ts[c] == Token(RPAREN, ")")
    ensures Expression(ts, p) == Ok(Parsed(BinaryOp(l, op, r), c))
  {
    var e := BinaryOp(l, op, r);
    assert Current(ts, c).text == ")";
    assert TermRest(ts, e, c) == Ok(Parsed(e, c));
    assert TermRest(ts, l, b) == Ok(Parsed(e, c));
    assert ExpressionRest(ts, e, c) == Ok(Parsed(e, c));
  }

  lemma SumExpression(ts: seq<Token>, p: nat, l: Node, op: string, r: Node, b: nat, c: nat)
    requires IsArithmetic(BinaryOp(l, op, r)) && IsAdditive(op) && p <= |ts|
    requires Factor(ts, p) == Ok(Parsed(l, b)) && b < |ts| && ts[b] == OperatorToken(op)
    requires Factor(ts, b + 1) == Ok(Parsed(r, c)) && c < |ts| && ts[c] == Token(RPAREN, ")")
    ensures Expression(ts, p) == Ok(Parsed(BinaryOp(l, op, r), c))
  {
    var e := BinaryOp(l, op, r);
    assert Current(ts, c).text == ")";
    assert !IsMultiplicative(op);
    assert TermRest(ts, l, b) == Ok(Parsed(l, b));
    assert TermRest(ts, r, c) == Ok(Parsed(r, c));
    assert ExpressionRest(ts, e, c) == Ok(Parsed(e, c));
    assert ExpressionRest(ts, l, b) == Ok(Parsed(e, c));
  }

  /// A factor followed by a token that is no arithmetic operator is a whole expression.
  lemma FactorIsExpression(ts: seq<Token>, p: nat, e: Node, q: nat)
    requires p <= |ts| && Factor(ts, p) == Ok(Parsed(e, q))
    requires !IsMultiplicative(Current(ts, q).text) && !IsAdditive(Current(ts, q).text)
    ensures Expression(ts, p) == Ok(Parsed(e, q))
  {
    assert TermRest(ts, e, q) == Ok(Parsed(e, q));
    assert ExpressionRest(ts, e, q) == Ok(Parsed(e, q));
  }

  /// A NUMBER token whose text parseInt accepts is read as that number.
  lemma LiteralFactor(ts: seq<Token>, p: nat, text: string, v: int32)
    requires p < |ts| && ts[p] == Token(NUMBER, text) && ParseInt(text) == Ok(v)
    ensures Factor(ts, p) == Ok(Parsed(Number(v), p + 1))
  {
  }

  /// The printed literal of any 32-bit value is read back as that value.
  lemma NumberFactor(ts: seq<Token>, p: nat, v: int32)
    requires p < |ts| && ts[p] == Token(NUMBER, ToDecimal(v))
    ensures Factor(ts, p) == Ok(Parsed(Number(v), p + 1))
  {
    ParseIntOfDecimal(v);
  }

  /// `u` occurs in `ts` at position `p`.
  predicate Occurs(ts: seq<Token>, p: nat, u: seq<Token>)
  {
    p + |u| <= |ts| && forall i :: 0 <= i < |u| ==> ts[p + i] == u[i]
  }

  /// Wherever the printed tokens of `e` occur, parseFactor reads back exactly
  /// `e` and stops at `q`, right after them.
  lemma {:induction false} FactorUnparse(e: Node, ts: seq<Token>, p: nat, q: nat)
    requires IsArithmetic(e) && Occurs(ts, p, Unparse(e)) && q == p + |Unparse(e)|
    ensures Factor(ts, p) == Ok(Parsed(e, q))
    decreases e, 2
  {
    assert ts[p + 0] == Unparse(e)[0];
    match e
    case Number(v) => NumberFactor(ts, p, v);
    case Variable(_) =>
    case BinaryOp(_, _, _) => OperationUnparse(e, ts, p, q);
  }

  lemma {:induction false} OperationUnparse(e: Node, ts: seq<Token>, p: nat, q: nat)
    requires e.BinaryOp? && IsArithmetic(e) && Occurs(ts, p, Unparse(e)) && q == p + |Unparse(e)|
    ensures Factor(ts, p) == Ok(Parsed(e, q))
    decreases e, 1
  {
    var b := p + 1 + |Unparse(e.left)|;
    var c := b + 1 + |Unparse(e.right)|;
    OperationPieces(e, ts, p, b, c);
    FactorUnparse(e.left, ts, p + 1, b);
    OperandsUnparse(e, ts, p, b, c);
  }

  /// Where the operands, the operator and the parentheses of a printed operation sit.
  lemma OperationPieces(e: Node, ts: seq<Token>, p: nat, b: nat, c: nat)
    requires e.BinaryOp? && IsArithmetic(e) && Occurs(ts, p, Unparse(e))
    requires b == p + 1 + |Unparse(e.left)| && c == b + 1 + |Unparse(e.right)|
    ensures c < |ts| && ts[p] == Token(LPAREN, "(") && ts[b] == OperatorToken(e.operator) && ts[c] == Token(RPAREN, ")")
    ensures Occurs(ts, p + 1, Unparse(e.left)) && Occurs(ts, b + 1, Unparse(e.right))
  {
    assert Unparse(e) == Parenthesized(Unparse(e.left), OperatorToken(e.operator), Unparse(e.right));
    PiecesOccur(ts, p, Unparse(e.left), OperatorToken(e.operator), Unparse(e.right), b, c);
  }

  /// When the left operand has been read back and the right operand's printed
  /// tokens sit between the operator and `)`, the whole group is read back as the operation.
  lemma {:induction false} OperandsUnparse(e: Node, ts: seq<Token>, p: nat, b: nat, c: nat)
    requires e.BinaryOp? && IsArithmetic(e) && p < b < c < |ts|
    requires ts[p] == Token(LPAREN, "(") && ts[b] == OperatorToken(e.operator) && ts[c] == Token(RPAREN, ")")
    requires Factor(ts, p + 1) == Ok(Parsed(e.left, b))
    requires Occurs(ts, b + 1, Unparse(e.right)) && c == b + 1 + |Unparse(e.right)|
    ensures Factor(ts, p) == Ok(Parsed(e, c + 1))
    decreases e, 0
  {
    FactorUnparse(e.right, ts, b + 1, c);
    OperationOfOperands(ts, p, e, b, c);
  }

  /// `( l op r )` is a factor when its operands are.
  lemma OperationOfOperands(ts: seq<Token>, p: nat, e: Node, b: nat, c: nat)
    requires e.BinaryOp? && IsArithmetic(e) && p < b < c < |ts|
    requires ts[p] == Token(LPAREN, "(") && ts[b] == OperatorToken(e.operator) && ts[c] == Token(RPAREN, ")")
    requires Factor(ts, p + 1) == Ok(Parsed(e.left, b)) && Factor(ts, b + 1) == Ok(Parsed(e.right, c))
    ensures Factor(ts, p) == Ok(Parsed(e, c + 1))
  {
    if IsMultiplicative(e.operator) {
      ProductExpression(ts, p + 1, e.left, e.operator, e.right, b, c);
    } else {
      SumExpression(ts, p + 1, e.left, e.operator, e.right, b, c);
    }
    GroupFactor(ts, p, e, c);
  }

  /// Where the pieces of a parenthesized operation sit when it occurs at `p`.
  lemma PiecesOccur(ts: seq<Token>, p: nat, u: seq<Token>, o: Token, v: seq<Token>, b: nat, c: nat)
    requires Occurs(ts, p, Parenthesized(u, o, v)) && b == p + 1 + |u| && c == b + 1 + |v|
    ensures c < |ts| && ts[p] == Token(LPAREN, "(") && ts[b] == o && ts[c] == Token(RPAREN, ")")
    ensures Occurs(ts, p + 1, u) && Occurs(ts, b + 1, v)
  {
    var w := Parenthesized(u, o, v);
    assert ts[p + 0] == w[0];
    assert ts[p + (1 + |u|)] == w[1 + |u|];
    assert ts[p + (2 + |u| + |v|)] == w[2 + |u| + |v|];
    forall i | 0 <= i < |u| ensures ts[p + 1 + i] == u[i] {
      assert ts[p + (1 + i)] == w[1 + i];
    }
    forall i | 0 <= i < |v| ensures ts[p + 2 + |u| + i] == v[i] {
      assert ts[p + (2 + |u| + i)] == w[2 + |u| + i];
    }
  }

  /// Parsing the printed tokens of an arithmetic expression gives the expression
  /// back and consumes every printed token. This is a round trip over token
  /// lists: a negative literal is printed as one NUMBER token such as `-5`, which
  /// the lexer never produces. The round trip through source text, for trees
  /// whose literals are not negative, is Driver.RunPrintedProgram.
  lemma ExpressionUnparse(e: Node)
    requires IsArithmetic(e)
    ensures var ts := Unparse(e) + [EofToken]; Expression(ts, 0) == Ok(Parsed(e, |ts| - 1))
  {
    EofAfter(Unparse(e));
    UnparseBeforeEof(e, Unparse(e) + [EofToken], |Unparse(e)|);
  }

  /// A token list occurs at the start of itself followed by EOF, right in front of the EOF.
  lemma EofAfter(u: seq<Token>)
    ensures Occurs(u + [EofToken], 0, u) && |u| < |u + [EofToken]| && (u + [EofToken])[|u|] == EofToken
  {
    OccursAtStart(u, [EofToken]);
  }

  /// A token list occurs at the start of any list it begins.
  lemma OccursAtStart(u: seq<Token>, v: seq<Token>)
    ensures Occurs(u + v, 0, u)
  {
    var ts := u + v;
    forall i | 0 <= i < |u| ensures ts[0 + i] == u[i] {
    }
  }

  /// The printed tokens of `e`, followed by the end of input, parse back as an
  /// expression that stops at the end marker.
  lemma UnparseBeforeEof(e: Node, ts: seq<Token>, n: nat)
    requires IsArithmetic(e) && Occurs(ts, 0, Unparse(e)) && n == |Unparse(e)|
    requires n < |ts| && ts[n] == EofToken
    ensures Expression(ts, 0) == Ok(Parsed(e, n))
  {
    FactorUnparse(e, ts, 0, n);
    FactorIsExpression(ts, 0, e, n);
  }

  // ---------------------------------------------------------------------------
  // A printer for statements that parseStatement inverts

  /// A name the lexer reads back as one IDENTIFIER token: a word that starts
  /// with a letter and is neither a keyword nor `break`.
  predicate IsName(x: string)
  {
    x != [] && Lexing.IsLetter(x[0]) && Lexing.IsWord(x) && Lexing.WordKind(x) == IDENTIFIER
  }

  /// The leaves of trees built from lexed source: a NUMBER token is a digit run,
  /// so no literal is negative, and every variable is a name.
  predicate SourceLeaves(e: Node)
  {
    match e
    case Number(v) => v >= 0
    case Variable(x) => IsName(x)
    case BinaryOp(l, _, r) => SourceLeaves(l) && SourceLeaves(r)
    case _ => true
  }

  /// The names and leaves of a statement as they come from lexed source. An
  /// assignment to `print` is excluded: parseStatement reads it as a print statement.
  predicate SourceStatement(n: Node)
  {
    match n
    case VarDeclaration(x, e) => IsName(x) && SourceLeaves(e)
    case Assignment(x, e) => IsName(x) && x != "print" && SourceLeaves(e)
    case Print(e) => SourceLeaves(e)
    case If(c, b) => SourceLeaves(c) && forall i :: 0 <= i < |b| ==> SourceStatement(b[i])
    case While(c, b) => SourceLeaves(c) && forall i :: 0 <= i < |b| ==> SourceStatement(b[i])
    case _ => true
  }

  /// The statements the printer below writes out and the parser reads back.
  predicate Printable(n: Node)
  {
    IsParsedStatement(n) && SourceStatement(n)
  }

  predicate AllPrintable(b: seq<Node>)
  {
    forall i :: 0 <= i < |b| ==> Printable(b[i])
  }

  /// The token that spells a comparison operator.
  function ComparisonToken(op: string): (t: Token)
    requires IsComparison(op)
    ensures t.text == op
  {
    match op
    case "<=" => Token(LESS_EQUAL, "<=")
    case ">=" => Token(GREATER_EQUAL, ">=")
    case "<" => Token(LESS_THAN, "<")
    case ">" => Token(GREATER_THAN, ">")
    case "==" => Token(EQUAL_EQUAL, "==")
    case "!=" => Token(BANG_EQUAL, "!=")
  }

  /// Writes a condition: its comparison chain without parentheses, as it is
  /// folded to the left anyway, each operand printed by Unparse.
  function UnparseCondition(c: Node): (ts: seq<Token>)
    requires IsCondition(c)
    ensures 0 < |ts|
  {
    if IsArithmetic(c) then Unparse(c)
    else UnparseCondition(c.left) + [ComparisonToken(c.operator)] + Unparse(c.right)
  }

  /// Writes a statement as the tokens parseStatement expects.
  function UnparseStatement(n: Node): (ts: seq<Token>)
    requires IsParsedStatement(n)
    ensures 0 < |ts|
    decreases NodeSize(n)
  {
    match n
    case VarDeclaration(x, e) => [Token(KEYWORD, "var"), Token(IDENTIFIER, x), Token(EQ, "=")] + Unparse(e)
    case Assignment(x, e) => [Token(IDENTIFIER, x), Token(EQ, "=")] + Unparse(e)
    case Print(e) => [Token(IDENTIFIER, "print"), Token(LPAREN, "(")] + Unparse(e) + [Token(RPAREN, ")")]
    case If(c, b) => Guarded(Token(KEYWORD, "if"), UnparseCondition(c), UnparseBlock(b))
    case While(c, b) => Guarded(Token(KEYWORD, "while"), UnparseCondition(c), UnparseBlock(b))
    case _ => [Token(BREAK, "break")]
  }

  /// The statements of a block one after the other, without the braces.
  function UnparseBlock(b: seq<Node>): (ts: seq<Token>)
    requires forall i :: 0 <= i < |b| ==> IsParsedStatement(b[i])
    decreases BlockSize(b)
  {
    if b == [] then [] else UnparseStatement(b[0]) + UnparseBlock(b[1..])
  }

  function Guarded(keyword: Token, c: seq<Token>, body: seq<Token>): (ts: seq<Token>)
    ensures |ts| == |c| + |body| + 3
  {
    [keyword] + c + [Token(LBRACE, "{")] + body + [Token(RBRACE, "}")]
  }

  /// A token that ends an expression: no arithmetic operator follows it.
  predicate EndsExpression(t: Token)
  {
    !IsAdditive(t.text) && !IsMultiplicative(t.text)
  }

  /// The first printed token of a statement ends the expression before it, is
  /// neither `}` nor EOF, and so tells the block and run loops to go on.
  lemma StatementStart(n: Node)
    requires Printable(n)
    ensures var t := UnparseStatement(n)[0]; EndsExpression(t) && t.text != "}" && t.kind != EOF
  {
    if n.Assignment? {
      var x := n.variable;
      assert x[0] == UnparseStatement(n)[0].text[0];
      assert Lexing.IsLetter(x[0]);
    }
  }

  lemma BlockStart(b: seq<Node>)
    requires AllPrintable(b) && b != []
    ensures 0 < |UnparseBlock(b)| && UnparseBlock(b)[0] == UnparseStatement(b[0])[0]
  {
  }

  /// `u + v` occurs at `p` when `u` does and `v` follows it.
  lemma OccursSplit(ts: seq<Token>, p: nat, u: seq<Token>, v: seq<Token>)
    requires Occurs(ts, p, u + v)
    ensures Occurs(ts, p, u) && Occurs(ts, p + |u|, v)
  {
    forall i | 0 <= i < |u| ensures ts[p + i] == u[i] {
      assert (u + v)[i] == u[i];
    }
    forall i | 0 <= i < |v| ensures ts[p + |u| + i] == v[i] {
      assert ts[p + (|u| + i)] == (u + v)[|u| + i];
    }
  }

  lemma OccursOne(ts: seq<Token>, p: nat, t: Token)
    requires Occurs(ts, p, [t])
    ensures p < |ts| && ts[p] == t && Current(ts, p) == t
  {
    assert ts[p + 0] == [t][0];
  }

  /// Wherever the printed tokens of an arithmetic tree occur in front of a token
  /// that ends an expression, parseExpression reads back exactly that tree.
  lemma ExpressionUnparseAt(e: Node, ts: seq<Token>, p: nat, q: nat)
    requires IsArithmetic(e) && Occurs(ts, p, Unparse(e)) && q == p + |Unparse(e)|
    requires EndsExpression(Current(ts, q))
    ensures Expression(ts, p) == Ok(Parsed(e, q))
  {
    FactorUnparse(e, ts, p, q);
    FactorIsExpression(ts, p, e, q);
  }

  /// Wherever the printed tokens of a condition occur in front of a token that
  /// ends an expression, parseCondition has read exactly that condition and its
  /// comparison loop goes on from right after it.
  lemma {:induction false} ConditionUnparseAt(c: Node, ts: seq<Token>, p: nat, q: nat)
    requires IsCondition(c) && Occurs(ts, p, UnparseCondition(c)) && q == p + |UnparseCondition(c)|
    requires EndsExpression(Current(ts, q))
    ensures Condition(ts, p) == ConditionRest(ts, c, q)
  {
    if IsArithmetic(c) {
      ExpressionUnparseAt(c, ts, p, q);
    } else {
      var l, op, r := c.left, c.operator, c.right;
      var u := UnparseCondition(l);
      var m := p + |u|;
      ComparisonPieces(ts, p, u, op, Unparse(r), m);
      ConditionUnparseAt(l, ts, p, m);
      ExpressionUnparseAt(r, ts, m + 1, q);
      ComparisonStep(ts, l, op, r, m, q);
      assert BinaryOp(l, op, r) == c;
    }
  }

  /// Where the pieces of a printed comparison sit when it occurs at `p`.
  lemma ComparisonPieces(ts: seq<Token>, p: nat, u: seq<Token>, op: string, v: seq<Token>, m: nat)
    requires IsComparison(op) && Occurs(ts, p, u + [ComparisonToken(op)] + v) && m == p + |u|
    ensures m < |ts| && Current(ts, m).text == op && EndsExpression(Current(ts, m))
    ensures Occurs(ts, p, u) && Occurs(ts, m + 1, v)
  {
    var o := ComparisonToken(op);
    OccursSplit(ts, p, u + [o], v);
    OccursSplit(ts, p, u, [o]);
    OccursOne(ts, m, o);
  }

  /// One turn of the comparison loop.
  lemma ComparisonStep(ts: seq<Token>, l: Node, op: string, r: Node, m: nat, q: nat)
    requires IsCondition(l) && IsComparison(op) && IsArithmetic(r) && m < |ts| && Current(ts, m).text == op
    requires Expression(ts, m + 1) == Ok(Parsed(r, q))
    ensures ConditionRest(ts, l, m) == ConditionRest(ts, BinaryOp(l, op, r), q)
  {
  }

  /// Wherever the printed tokens of a statement occur in front of a token that
  /// ends an expression, parseStatement reads back exactly that statement and
  /// stops right after its tokens.
  lemma {:induction false} StatementUnparseAt(n: Node, ts: seq<Token>, p: nat, q: nat)
    requires Printable(n) && Occurs(ts, p, UnparseStatement(n)) && q == p + |UnparseStatement(n)|
    requires EndsExpression(Current(ts, q))
    ensures Statement(ts, p) == Ok(Parsed(n, q))
    decreases NodeSize(n), 1
  {
    match n
    case VarDeclaration(x, e) =>
      VarUnparseAt(x, e, ts, p, q);
    case Assignment(x, e) =>
      AssignmentUnparseAt(x, e, ts, p, q);
    case Print(e) =>
      assert UnparseStatement(n) == [Token(IDENTIFIER, "print"), Token(LPAREN, "(")] + Unparse(e) + [Token(RPAREN, ")")];
      PrintPieces(ts, p, Unparse(e), q);
      PrintUnparseAt(e, ts, p, q - 1);
    case If(c, b) =>
      assert UnparseStatement(n) == Guarded(Token(KEYWORD, "if"), UnparseCondition(c), UnparseBlock(b));
      assert AllPrintable(b);
      GuardedOccursAt(Token(KEYWORD, "if"), c, b, ts, p, q);
    case While(c, b) =>
      assert UnparseStatement(n) == Guarded(Token(KEYWORD, "while"), UnparseCondition(c), UnparseBlock(b));
      assert AllPrintable(b);
      GuardedOccursAt(Token(KEYWORD, "while"), c, b, ts, p, q);
    case Break =>
      OccursOne(ts, p, Token(BREAK, "break"));
  }

  lemma VarUnparseAt(x: string, e: Node, ts: seq<Token>, p: nat, q: nat)
    requires IsArithmetic(e) && Occurs(ts, p, UnparseStatement(VarDeclaration(x, e)))
    requires q == p + |UnparseStatement(VarDeclaration(x, e))| && EndsExpression(Current(ts, q))
    ensures Statement(ts, p) == Ok(Parsed(VarDeclaration(x, e), q))
  {
    var head := [Token(KEYWORD, "var"), Token(IDENTIFIER, x), Token(EQ, "=")];
    assert UnparseStatement(VarDeclaration(x, e)) == head + Unparse(e);
    OccursSplit(ts, p, head, Unparse(e));
    assert ts[p + 0] == head[0] && ts[p + 1] == head[1] && ts[p + 2] == head[2];
    ExpressionUnparseAt(e, ts, p + 3, q);
    VarParsed(ts, p, x, e, q);
  }

  lemma AssignmentUnparseAt(x: string, e: Node, ts: seq<Token>, p: nat, q: nat)
    requires IsArithmetic(e) && x != "print" && Occurs(ts, p, UnparseStatement(Assignment(x, e)))
    requires q == p + |UnparseStatement(Assignment(x, e))| && EndsExpression(Current(ts, q))
    ensures Statement(ts, p) == Ok(Parsed(Assignment(x, e), q))
  {
    var head := [Token(IDENTIFIER, x), Token(EQ, "=")];
    assert UnparseStatement(Assignment(x, e)) == head + Unparse(e);
    OccursSplit(ts, p, head, Unparse(e));
    assert ts[p + 0] == head[0] && ts[p + 1] == head[1];
    ExpressionUnparseAt(e, ts, p + 2, q);
    AssignmentParsed(ts, p, x, e, q);
  }

  /// `print` `(` then the printed tokens of `e` then `)` parse as `print(e)`.
  lemma PrintUnparseAt(e: Node, ts: seq<Token>, p: nat, k: nat)
    requires IsArithmetic(e) && k == p + 2 + |Unparse(e)| && k < |ts|
    requires ts[p] == Token(IDENTIFIER, "print") && ts[p + 1] == Token(LPAREN, "(")
    requires ts[k] == Token(RPAREN, ")") && Occurs(ts, p + 2, Unparse(e))
    ensures Statement(ts, p) == Ok(Parsed(Print(e), k + 1))
  {
    assert Current(ts, k) == ts[k];
    ExpressionUnparseAt(e, ts, p + 2, k);
    PrintParsed(ts, p, e, k);
  }

  /// Where the pieces of a printed `print` statement sit when it occurs at `p`.
  lemma PrintPieces(ts: seq<Token>, p: nat, u: seq<Token>, q: nat)
    requires Occurs(ts, p, [Token(IDENTIFIER, "print"), Token(LPAREN, "(")] + u + [Token(RPAREN, ")")])
    requires q == p + |u| + 3
    ensures q - 1 < |ts| && ts[p] == Token(IDENTIFIER, "print") && ts[p + 1] == Token(LPAREN, "(")
    ensures ts[q - 1] == Token(RPAREN, ")") && Occurs(ts, p + 2, u)
  {
    var head := [Token(IDENTIFIER, "print"), Token(LPAREN, "(")];
    var rparen := Token(RPAREN, ")");
    OccursSplit(ts, p, head + u, [rparen]);
    OccursSplit(ts, p, head, u);
    assert ts[p + 0] == head[0] && ts[p + 1] == head[1];
    OccursOne(ts, q - 1, rparen);
  }

  lemma VarParsed(ts: seq<Token>, p: nat, x: string, e: Node, q: nat)
    requires p + 2 < |ts| && ts[p] == Token(KEYWORD, "var") && ts[p + 1] == Token(IDENTIFIER, x) && ts[p + 2].text == "="
    requires Expression(ts, p + 3) == Ok(Parsed(e, q))
    ensures Statement(ts, p) == Ok(Parsed(VarDeclaration(x, e), q))
  {
    assert Current(ts, p + 1) == ts[p + 1] && Current(ts, p + 2) == ts[p + 2];
  }

  lemma AssignmentParsed(ts: seq<Token>, p: nat, x: string, e: Node, q: nat)
    requires p + 1 < |ts| && ts[p] == Token(IDENTIFIER, x) && x != "print" && ts[p + 1].text == "="
    requires Expression(ts, p + 2) == Ok(Parsed(e, q))
    ensures Statement(ts, p) == Ok(Parsed(Assignment(x, e), q))
  {
    assert Following(ts, p) == ts[p + 1];
  }

  lemma PrintParsed(ts: seq<Token>, p: nat, e: Node, q: nat)
    requires p + 1 < |ts| && ts[p] == Token(IDENTIFIER, "print") && ts[p + 1].text == "("
    requires Expression(ts, p + 2) == Ok(Parsed(e, q)) && q < |ts| && ts[q].text == ")"
    ensures Statement(ts, p) == Ok(Parsed(Print(e), q + 1))
  {
    assert Current(ts, p + 1) == ts[p + 1] && Current(ts, q) == ts[q];
  }

  /// A printed `if` or `while` occurring at `p` parses back to itself.
  lemma {:induction false} GuardedOccursAt(keyword: Token, c: Node, b: seq<Node>, ts: seq<Token>, p: nat, q: nat)
    requires keyword == Token(KEYWORD, "if") || keyword == Token(KEYWORD, "while")
    requires IsCondition(c) && SourceLeaves(c) && AllPrintable(b)
    requires Occurs(ts, p, Guarded(keyword, UnparseCondition(c), UnparseBlock(b)))
    requires q == p + |Guarded(keyword, UnparseCondition(c), UnparseBlock(b))|
    ensures Statement(ts, p) == Ok(Parsed(if keyword.text == "if" then If(c, b) else While(c, b), q))
    decreases BlockSize(b), 4
  {
    var uc, ub := UnparseCondition(c), UnparseBlock(b);
    var m := p + 1 + |uc|;
    GuardedPieces(ts, p, keyword, uc, ub, m, q - 1);
    ConditionUnparseAt(c, ts, p + 1, m);
    ConditionBeforeBrace(ts, c, m);
    GuardedUnparseAt(keyword, c, b, ts, p, m, q - 1);
  }

  lemma {:induction false} GuardedUnparseAt(keyword: Token, c: Node, b: seq<Node>, ts: seq<Token>, p: nat, m: nat, k: nat)
    requires keyword == Token(KEYWORD, "if") || keyword == Token(KEYWORD, "while")
    requires IsCondition(c) && AllPrintable(b) && p < m && k == m + 1 + |UnparseBlock(b)|
    requires k < |ts| && ts[p] == keyword && ts[m] == Token(LBRACE, "{") && ts[k] == Token(RBRACE, "}")
    requires Condition(ts, p + 1) == Ok(Parsed(c, m)) && Occurs(ts, m + 1, UnparseBlock(b))
    ensures Statement(ts, p) == Ok(Parsed(if keyword.text == "if" then If(c, b) else While(c, b), k + 1))
    decreases BlockSize(b), 3
  {
    BlockUnparseAt(b, ts, m + 1, k);
    GuardedParsed(ts, p, c, b, m, k);
  }

  /// A condition followed by `{` is complete.
  lemma ConditionBeforeBrace(ts: seq<Token>, c: Node, m: nat)
    requires m < |ts| && ts[m] == Token(LBRACE, "{") && IsCondition(c)
    ensures ConditionRest(ts, c, m) == Ok(Parsed(c, m))
  {
    assert Current(ts, m) == ts[m];
  }

  /// Where the pieces of a printed `if` or `while` sit when it occurs at `p`.
  lemma GuardedPieces(ts: seq<Token>, p: nat, keyword: Token, uc: seq<Token>, ub: seq<Token>, m: nat, k: nat)
    requires Occurs(ts, p, Guarded(keyword, uc, ub)) && m == p + 1 + |uc| && k == m + 1 + |ub|
    ensures k < |ts| && ts[p] == keyword && ts[m] == Token(LBRACE, "{") && ts[k] == Token(RBRACE, "}")
    ensures Occurs(ts, p + 1, uc) && Occurs(ts, m + 1, ub)
  {
    var lbrace, rbrace := Token(LBRACE, "{"), Token(RBRACE, "}");
    OccursSplit(ts, p, [keyword] + uc + [lbrace] + ub, [rbrace]);
    OccursSplit(ts, p, [keyword] + uc + [lbrace], ub);
    OccursSplit(ts, p, [keyword] + uc, [lbrace]);
    OccursSplit(ts, p, [keyword], uc);
    OccursOne(ts, p, keyword);
    OccursOne(ts, m, lbrace);
    OccursOne(ts, k, rbrace);
  }

  lemma GuardedParsed(ts: seq<Token>, p: nat, c: Node, b: seq<Node>, m: nat, k: nat)
    requires p < m < k < |ts| && ts[p].kind == KEYWORD && (ts[p].text == "if" || ts[p].text == "while")
    requires IsCondition(c) && Condition(ts, p + 1) == Ok(Parsed(c, m))
    requires ts[m] == Token(LBRACE, "{") && Block(ts, m + 1) == Ok(Parsed(b, k + 1))
    ensures Statement(ts, p) == Ok(Parsed(if ts[p].text == "if" then If(c, b) else While(c, b), k + 1))
  {
    assert Current(ts, m) == ts[m];
    assert GuardedStatement(ts, p) == Ok(Parsed(if ts[p].text == "if" then If(c, b) else While(c, b), k + 1));
    StatementIsGuarded(ts, p);
  }

  lemma StatementIsGuarded(ts: seq<Token>, p: nat)
    requires p < |ts| && ts[p].kind == KEYWORD && (ts[p].text == "if" || ts[p].text == "while")
    ensures Statement(ts, p) == GuardedStatement(ts, p)
  {
  }

  /// Wherever the printed statements of a block occur in front of `}`,
  /// parseBlock reads back exactly those statements and consumes the `}`.
  lemma {:induction false} BlockUnparseAt(b: seq<Node>, ts: seq<Token>, p: nat, k: nat)
    requires AllPrintable(b) && Occurs(ts, p, UnparseBlock(b)) && k == p + |UnparseBlock(b)|
    requires k < |ts| && ts[k] == Token(RBRACE, "}")
    ensures Block(ts, p) == Ok(Parsed(b, k + 1))
    decreases BlockSize(b), 2
  {
    if b == [] {
      assert Current(ts, p).text == "}";
    } else {
      var m := p + |UnparseStatement(b[0])|;
      BlockOccursSplit(b, ts, p);
      BlockPiecesStart(b, ts, p, m, k);
      assert NodeSize(b[0]) < BlockSize(b);
      StatementUnparseAt(b[0], ts, p, m);
      BlockUnparseAt(b[1..], ts, m, k);
      BlockCons(ts, p, b, m, k + 1);
    }
  }

  /// The tokens at the two ends of a block's first printed statement.
  lemma BlockPiecesStart(b: seq<Node>, ts: seq<Token>, p: nat, m: nat, k: nat)
    requires b != [] && AllPrintable(b) && m == p + |UnparseStatement(b[0])|
    requires Occurs(ts, p, UnparseStatement(b[0])) && Occurs(ts, m, UnparseBlock(b[1..]))
    requires k == m + |UnparseBlock(b[1..])| && k < |ts| && ts[k] == Token(RBRACE, "}")
    ensures Printable(b[0]) && AllPrintable(b[1..]) && EndsExpression(Current(ts, m))
    ensures Current(ts, p).text != "}" && Current(ts, p).kind != EOF
  {
    StatementStartsAt(b[0], ts, p);
    AllPrintableTail(b);
    BlockStartsAt(b[1..], ts, m, k);
  }

  /// A printed block that occurs at `p` is its first statement's tokens followed by the rest's.
  lemma BlockOccursSplit(b: seq<Node>, ts: seq<Token>, p: nat)
    requires b != [] && AllPrintable(b) && Occurs(ts, p, UnparseBlock(b))
    ensures Occurs(ts, p, UnparseStatement(b[0]))
    ensures Occurs(ts, p + |UnparseStatement(b[0])|, UnparseBlock(b[1..]))
    ensures |UnparseBlock(b)| == |UnparseStatement(b[0])| + |UnparseBlock(b[1..])|
  {
    assert UnparseBlock(b) == UnparseStatement(b[0]) + UnparseBlock(b[1..]);
    OccursSplit(ts, p, UnparseStatement(b[0]), UnparseBlock(b[1..]));
  }

  /// The first token of a printed statement, wherever it occurs, is neither `}` nor EOF.
  lemma StatementStartsAt(n: Node, ts: seq<Token>, p: nat)
    requires Printable(n) && Occurs(ts, p, UnparseStatement(n))
    ensures Current(ts, p).text != "}" && Current(ts, p).kind != EOF && EndsExpression(Current(ts, p))
  {
    StatementStart(n);
    assert ts[p + 0] == UnparseStatement(n)[0];
  }

  /// A printed block in front of `}` starts with a token that ends an expression.
  lemma BlockStartsAt(b: seq<Node>, ts: seq<Token>, m: nat, k: nat)
    requires AllPrintable(b) && Occurs(ts, m, UnparseBlock(b)) && k == m + |UnparseBlock(b)|
    requires k < |ts| && ts[k] == Token(RBRACE, "}")
    ensures EndsExpression(Current(ts, m))
  {
    if b == [] {
      assert Current(ts, m) == ts[k];
    } else {
      BlockStart(b);
      StatementStart(b[0]);
      assert ts[m + 0] == UnparseBlock(b)[0];
    }
  }

  lemma AllPrintableTail(b: seq<Node>)
    requires b != [] && AllPrintable(b)
    ensures Printable(b[0]) && AllPrintable(b[1..])
  {
    forall i | 0 <= i < |b[1..]| ensures Printable(b[1..][i]) {
      assert b[1..][i] == b[i + 1];
    }
  }

  /// A statement that is not `}` followed by the rest of a block is a longer block.
  lemma BlockCons(ts: seq<Token>, p: nat, b: seq<Node>, m: nat, j: nat)
    requires b != [] && p <= |ts| && Current(ts, p).text != "}" && Current(ts, p).kind != EOF
    requires Statement(ts, p) == Ok(Parsed(b[0], m)) && Block(ts, m) == Ok(Parsed(b[1..], j))
    ensures Block(ts, p) == Ok(Parsed(b, j))
  {
    assert [b[0]] + b[1..] == b;
  }

  /// Parsing the printed tokens of a statement, followed by EOF, gives the
  /// statement back and consumes every printed token.
  lemma StatementUnparse(n: Node)
    requires Printable(n)
    ensures var ts := UnparseStatement(n) + [EofToken]; Statement(ts, 0) == Ok(Parsed(n, |ts| - 1))
  {
    var u := UnparseStatement(n);
    var ts := u + [EofToken];
    assert Occurs(ts, 0, u) by {
      forall i | 0 <= i < |u| ensures ts[0 + i] == u[i] {
      }
    }
    StatementUnparseAt(n, ts, 0, |u|);
  }
}
