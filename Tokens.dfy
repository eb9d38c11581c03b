/// Lexical categories and tokens (src/TokenType.kt, src/Token.java), and the
/// failures every stage of the pipeline can raise.

module Tokens {

  /// The closed set of lexical categories, in the order the enum declares them.
  datatype TokenType =
    | NUMBER | IDENTIFIER
    | PLUS | MINUS | STAR | SLASH | PERCENT
    | EQ | LPAREN | RPAREN | LBRACE | RBRACE
    | KEYWORD | BREAK | EOF
    | LESS_EQUAL | GREATER_EQUAL | LESS_THAN | GREATER_THAN | EQUAL_EQUAL | BANG_EQUAL

  /// A token is an immutable (kind, literal text) pair.
  datatype Token = Token(kind: TokenType, text: string)

  /// The end-of-input marker: the lexer appends it, and the parser synthesises it
  /// when asked for a token past the end of its list.
  const EofToken: Token := Token(EOF, "")
}

module Errors {
  import opened Tokens

  /// One variant per exception the pipeline throws; the payload is what the
  /// exception message reports.
  datatype Error =
      // lexer
    | UnexpectedCharacter(c: char)
      // parser
    | NumberFormat(text: string)
    | ExpectedRParen
    | UnexpectedTokenInFactor(text: string)
    | ExpectedIdentifierAfterVar
    | ExpectedEqAfterVariableName
    | ExpectedLBraceAfterWhile
    | ExpectedLBraceAfterIf
    | ExpectedLParenAfterPrint
    | ExpectedRParenAfterPrint
    | UnexpectedStatement(token: Token, pos: nat)
    | MissingRBrace
      // interpreter
    | VariableNotDeclared(name: string)
    | DivideByZero
    | UnknownOperator(op: string)
    | UnknownNodeType
    | UnknownComparisonOperator(op: string)
    | CannotEvaluateCondition
      // driver: a break that no loop caught
    | UncaughtBreak

  /// The value of a computation that either succeeds or throws.
  datatype Result<+T> = Ok(value: T) | Err(error: Error)
}
