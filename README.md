# A verified model of the mini-interpreter pipeline

The system is a small interpreter for a scripting language with Java `int`
arithmetic, `var` declarations, assignments, `print`, `if`, `while` and
`break`. A program goes through three stages:

- **Lexer** (`src/Lexer.java`): turns the source text into a list of
  (kind, text) tokens that ends with one EOF token.
- **Recursive-descent parser** (`src/Parser.java`): turns the tokens into
  statement trees, one statement at a time.
- **Tree-walking interpreter** (`src/Interpreter.java`): runs each statement
  against one flat symbol table and prints lines.

The driver loop (`src/SimpleInterpreter.java:23-26`) parses and executes
statements until the current token is EOF.

The Dafny project follows the same structure.

- `Tokens.dfy`: token kinds, tokens and the error values that stand for the
  exceptions the pipeline throws.
- `JavaInt.dfy`: Java `int` arithmetic, including:
  - wrap-around;
  - division and remainder that truncate toward zero;
  - `Integer.parseInt`;
  - the decimal text `println(int)` writes.
- `Ast.dfy`: the node datatype.
- `Lexer.dfy`:
  - `Lex`, a function that specifies the scan one iteration at a time;
  - the `Lexer` class with `input` and `position`, whose `Tokenize`
    `while` loop is proved to compute `Lex`.
  - `LexerFacts.dfy` proves properties of `Lex`.
- `Parser.dfy`:
  - one specification function per parsing procedure, over a token list and
    a position;
  - the `Parser` class with `tokens` and `pos`, whose methods are proved to
    agree with those functions: same tree and same final position, or the
    same error.
  - `ParserFacts.dfy` proves precedence, associativity, where each level
    stops, the statement dispatch and its errors, and that the expression,
    statement and block parsers invert a printer.
- `Interpreter.dfy`:
  - `Evaluate` and `EvaluateCondition`, which are pure, as in the source;
  - `Exec`, `ExecBlock` and `Loop`, which specify statement execution over a
    state made of the symbol table and the printed lines;
  - the `Interpreter` class, which updates `symbolTable` and `output` in
    place and is proved to agree with `Exec`.

  `break` is an explicit outcome, not an exception.
- `Driver.dfy`:
  - `Run`, the driver loop over the three objects, proved equal to the
    function `RunProgram`;
  - `RunExecutesProgram`: a run executes, as one block, exactly the
    statements the parser reads up to EOF;
  - `RunPrintedProgram`: printing statements as source text and running that
    text runs those statements.

Where the code departs from the intended design of the language, the model
follows the code:

- **Comparison chains.** `parseCondition` folds any number of comparisons,
  left-associatively (`src/Parser.java:80-86`), so `a < b < c` parses. See
  `ParserFacts.ConditionStops`.
- **`print(x == 1)` is a parse error.** A print argument and the right-hand
  side of `var` or `=` go through `parseExpression`, which never consumes a
  comparison. The statement `print(x == 1)` therefore fails with "Expected
  ')' after print argument" (`ParserFacts.PrintOfComparisonFails`).
- **Literals outside the `int` range are rejected.** A NUMBER token is
  converted by `Integer.parseInt`, so parsing a value outside the `int`
  range fails with a number-format error (`JavaInt.ParseIntOfDigits`).
- **Conditions must be comparisons.** A condition that is a bare expression
  parses, but executing it fails:
  - a literal or variable gives "Cannot evaluate condition";
  - an arithmetic operation gives "Unknown comparison operator".
- **Expression statements do nothing.** Executing a node that is not a
  statement falls through every branch of `execute` and does nothing.
- **A stray `break` ends the run.** A `break` outside any loop escapes to
  the driver, which ends the run with it (`Driver.StrayBreak`).

## Model

| member | source | states |
|---|---|---|
| JavaInt.Wrap | src/Interpreter.java:96-98 | the result is the one `int` congruent to the exact value modulo 2^32, and equals it when it is in range |
| JavaInt.ArithmeticWraps | src/Interpreter.java:96-98 | `+`, `-` and `*` on `int`s give a result congruent to the exact one modulo 2^32, equal to it when it is in range, and no other `int` is congruent to it |
| JavaInt.TruncDiv | src/Interpreter.java:99 | the quotient rounds toward zero: its magnitude times the divisor's is at most the dividend's and within one divisor of it; a nonzero quotient is negative exactly when the operand signs differ |
| JavaInt.TruncRem | src/Interpreter.java:100 | dividend = quotient * divisor + remainder, the remainder is smaller than the divisor in magnitude and takes the dividend's sign |
| JavaInt.Div | src/Interpreter.java:99 | fails exactly when the divisor is zero, with the divide-by-zero error; otherwise it is the truncated quotient, except that INT_MIN / -1 wraps to INT_MIN |
| JavaInt.TruncDivRange | src/Interpreter.java:99 | the truncated quotient of two `int`s is an `int` unless it is INT_MIN / -1 |
| JavaInt.Rem | src/Interpreter.java:100 | fails exactly when the divisor is zero; otherwise smaller than the divisor in magnitude, with the dividend's sign |
| JavaInt.DecimalDigits | src/Interpreter.java:36 | the decimal form of a natural is a non-empty digit string with no leading zero |
| JavaInt.DecimalForm | src/Interpreter.java:36 | the text `println(int)` writes starts with `-` exactly for a negative value, and the rest is a non-empty digit string, with no leading zero, whose value is the magnitude |
| JavaInt.DecimalValueOfDigits | src/Parser.java:43 | reading decimal text succeeds exactly on all-digit strings and gives their value |
| JavaInt.ParseInt | src/Parser.java:43 | every failure of parseInt is the number-format error for that text |
| JavaInt.ParseIntOfDigits | src/Parser.java:43 | on a digit run, parseInt succeeds exactly when the value is at most INT_MAX, and returns that value |
| JavaInt.ParseIntShape | src/Parser.java:43 | parseInt accepts only an optional sign followed by at least one digit |
| JavaInt.DigitsRoundTrip | src/Interpreter.java:36 | the value of the decimal digits of n is n |
| JavaInt.ParseIntOfDecimal | src/Interpreter.java:36 | the decimal text of every `int` is read back by parseInt as the same value |
| JavaInt.ParseIntExamples | src/Parser.java:43 | signs and leading zeros are accepted; empty, sign-only, mixed and doubly signed text is rejected |
| JavaInt.JavaArithmeticExamples | src/Interpreter.java:96-100 | INT_MAX + 1 wraps to INT_MIN, -7 / 2 is -3, -7 % 2 is -1, INT_MIN / -1 is INT_MIN, 5 / 0 fails |
| Lexing.DigitRun | src/Lexer.java:49-51 | the length of the longest all-digit prefix: the prefix is digits and the next character is not |
| Lexing.WordRun | src/Lexer.java:57-59 | the length of the longest letter-or-digit prefix: the prefix qualifies and the next character does not |
| Lexing.ScanOne | src/Lexer.java:45-143 | one scan step emits a non-EOF token whose text is exactly the first width > 0 characters, skips exactly when the first character is whitespace, or rejects the first character |
| Lexing.Lex | src/Lexer.java:41-148 | a successful scan ends with exactly one EOF token and no earlier token is EOF |
| Lexing.Lexer.constructor | src/Lexer.java:12-14 | a new lexer holds the input at position 0 |
| Lexing.Lexer.Peek | src/Lexer.java:17-22 | the character at the position, or NUL past the end |
| Lexing.Lexer.PeekNext | src/Lexer.java:25-30 | the character after the position, or NUL past the end |
| Lexing.Lexer.Advance | src/Lexer.java:33-37 | returns what Peek returned and moves the position by one |
| Lexing.Lexer.Tokenize | src/Lexer.java:41-148 | the scan loop returns exactly `Lex` of the input from the start position, and on success stops at the end of the input |
| Lexing.Lexer.ScanToken | src/Lexer.java:45-143 | one loop iteration computes `ScanOne` of the rest of the input and moves the position past the emitted width, or by one on whitespace |
| Lexing.Lexer.ReadRun | src/Lexer.java:48-60 | the inner loop reads exactly the maximal digit run, or letter-or-digit run, and stops after it |
| LexerFacts.NumberToken | src/Lexer.java:47-52 | a maximal digit run becomes one NUMBER token spelling exactly those digits |
| LexerFacts.WordToken | src/Lexer.java:55-73 | a maximal letter-initial word becomes one token of kind `Lexing.WordKind` of the word: KEYWORD exactly for var, while and if, BREAK exactly for break, IDENTIFIER for every other word, `print` included |
| LexerFacts.PrintIsIdentifier | src/Lexer.java:66-67 | `print` is lexed as an IDENTIFIER |
| LexerFacts.OperatorTokens | src/Lexer.java:95-135 | `==`, `!=`, `<=`, `>=` take two characters via lookahead; a lone `=`, `<`, `>` is EQ, LESS_THAN, GREATER_THAN; a lone `!` is an unexpected character |
| LexerFacts.SingleCharToken | src/Lexer.java:75-93 | each operator or brace character is one token of its kind, spelled by that character |
| LexerFacts.WhitespaceSkipped | src/Lexer.java:137-139 | a character that `Lexing.IsWhitespace` accepts (space, tab to carriage return, U+001C to U+001F, as `Character.isWhitespace` on ASCII) emits no token, and the scan goes on with the rest |
| LexerFacts.UnexpectedCharacterStops | src/Lexer.java:140-143 | any other character fails the scan, reporting that character |
| LexerFacts.LexWellFormed | src/Lexer.java:44-144 | every token before EOF is well formed: digits for NUMBER, a classified word for words, the fixed spelling for operators |
| LexerFacts.LexSpellsInput | src/Lexer.java:44-146 | on success, the token texts concatenated are the input with its whitespace removed |
| LexerFacts.LexUnlex | src/Lexer.java:44-146 | writing well-formed tokens separated by spaces and lexing gives the same tokens back, followed by EOF |
| LexerFacts.PrintCallExample | src/Lexer.java:55-93 | `print(7)` and `print(x)` are five tokens: the word, `(`, the literal or name, `)`, EOF |
| LexerFacts.IncrementExample | src/Lexer.java:44-146 | `var x = 10 x = x + 1 print(x)` is thirteen tokens and EOF; spaces only end words and numbers |
| LexerFacts.LexTen | src/Lexer.java:47-52 | `10` is one NUMBER token |
| LexerFacts.LexLessEqualTen | src/Lexer.java:115-119 | `<=10` is LESS_EQUAL then NUMBER |
| LexerFacts.ComparisonExample | src/Lexer.java:55-119 | `x<=10` is three tokens: no whitespace is needed around an operator |
| LexerFacts.LoneBangExample | src/Lexer.java:105-113 | `a !b` fails at the `!` |
| Parsing.Factor | src/Parser.java:38-62 | a factor consumes at least one token and is an arithmetic tree; its errors are stated by `ParserFacts.FactorErrors` |
| Parsing.TermRest | src/Parser.java:68-72 | the `* / %` loop never moves back and keeps the tree arithmetic |
| Parsing.Term | src/Parser.java:65-74 | a term consumes at least one token and is an arithmetic tree |
| Parsing.ExpressionRest | src/Parser.java:94-98 | the `+ -` loop never moves back and keeps the tree arithmetic |
| Parsing.Expression | src/Parser.java:91-100 | an expression consumes at least one token and is an arithmetic tree (never a comparison) |
| Parsing.ConditionRest | src/Parser.java:80-86 | the comparison loop never moves back and yields a condition |
| Parsing.Condition | src/Parser.java:77-88 | a condition consumes at least one token; it is arithmetic or a left-folded chain of comparisons of arithmetic operands |
| Parsing.Statement | src/Parser.java:103-173 | every successful statement consumes at least one token and is a well-shaped statement |
| Parsing.VarStatement | src/Parser.java:105-118 | succeeds exactly when an IDENTIFIER and `=` follow `var` and an expression parses after them; it then yields the declaration of that identifier's text with the parsed expression, ending where the expression ends |
| Parsing.GuardedStatement | src/Parser.java:120-140 | succeeds exactly when a condition parses after the keyword, `{` follows it and a block parses after the `{`; it then yields While (for `while`) or If (for `if`) of the parsed condition and block, ending after the block's `}` |
| Parsing.PrintStatement | src/Parser.java:142-154 | succeeds exactly when `(` follows `print`, an expression parses after it and `)` follows the expression; it then yields Print of that expression, ending after the `)` |
| Parsing.AssignmentStatement | src/Parser.java:156-162 | succeeds exactly when an expression parses after the `=`; it then yields the assignment to the identifier's text of the parsed expression, ending where the expression ends |
| Parsing.Block | src/Parser.java:176-187 | a block consumes at least its `}` and holds only well-shaped statements |
| Parsing.Parser.constructor | src/Parser.java:13-15 | a new parser holds the tokens at position 0 |
| Parsing.Parser.CurrentToken | src/Parser.java:18-20 | the token at pos, or an EOF token with empty text past the end |
| Parsing.Parser.Advance | src/Parser.java:23-27 | moves pos by one, never past the end of the list |
| Parsing.Parser.PeekToken | src/Parser.java:30-35 | the token after pos, or an EOF token with empty text |
| Parsing.Parser.ParseFactor | src/Parser.java:38-62 | returns the tree and moves pos exactly as `Factor` says, or fails with its error |
| Parsing.Parser.ParseTerm | src/Parser.java:65-74 | agrees with `Term` (the left fold loop) |
| Parsing.Parser.ParseCondition | src/Parser.java:77-88 | agrees with `Condition` (the comparison loop) |
| Parsing.Parser.ParseExpression | src/Parser.java:91-100 | agrees with `Expression` (the `+ -` loop) |
| Parsing.Parser.ParseStatement | src/Parser.java:103-173 | agrees with `Statement`, including each error |
| Parsing.Parser.ParseVarDeclaration | src/Parser.java:105-118 | agrees with `VarStatement` |
| Parsing.Parser.ParseGuarded | src/Parser.java:120-140 | agrees with `GuardedStatement` |
| Parsing.Parser.ParsePrint | src/Parser.java:142-154 | agrees with `PrintStatement` |
| Parsing.Parser.ParseBlock | src/Parser.java:176-187 | agrees with `Block` (the statement loop up to `}`) |
| ParserFacts.TermStops | src/Parser.java:68 | a term stops only in front of a token that is not `*`, `/` or `%` |
| ParserFacts.ExpressionStops | src/Parser.java:94 | an expression stops only in front of a token that is no arithmetic operator, so it never consumes a comparison |
| ParserFacts.ConditionStops | src/Parser.java:80-86 | a condition consumes every comparison that follows, so chains are accepted |
| ParserFacts.AdditiveLeftAssociative | src/Parser.java:94-98 | `x op y op z` with additive operators is `(x op y) op z` |
| ParserFacts.MultiplicativeLeftAssociative | src/Parser.java:68-72 | `x op y op z` with multiplicative operators is `(x op y) op z` |
| ParserFacts.MultiplicativeBindsTighterRight | src/Parser.java:91-100 | `x + y * z` is `x + (y * z)` |
| ParserFacts.MultiplicativeBindsTighterLeft | src/Parser.java:91-100 | `x * y + z` is `(x * y) + z` |
| ParserFacts.SubtractionExample | src/Parser.java:94-98 | `a - b - c` is `(a - b) - c` |
| ParserFacts.UnexpectedStatementError | src/Parser.java:169-172 | a token that starts no statement gives the unexpected-statement error with that token and position |
| ParserFacts.StatementDispatch | src/Parser.java:103-167 | the kind of statement returned is decided by the first token (and the next one for assignment), in both directions, with `print` never an assignment |
| ParserFacts.VarDeclarationErrors | src/Parser.java:105-115 | `var` without an identifier, or without `=` after it, gives the matching error |
| ParserFacts.FactorErrors | src/Parser.java:38-62 | a NUMBER that parseInt rejects gives the number-format error for its text; after `(`, a failing expression's error is the result and a missing `)` gives "Expected ')'"; any other token gives the unexpected-token error with its text |
| ParserFacts.GuardNeedsBrace | src/Parser.java:120-136 | `while` or `if` without `{` after the condition gives the matching error |
| ParserFacts.PrintOfComparisonFails | src/Parser.java:148-151 | `print(x == 1)` fails with "Expected ')' after print argument" |
| ParserFacts.PrintStopsAtComparison | src/Parser.java:148-151 | any comparison after a print argument fails the same way |
| ParserFacts.PrintIsNeverAssigned | src/Parser.java:142-146 | `print = 5` is a print statement missing its `(` |
| ParserFacts.PrintNeedsParen | src/Parser.java:142-146 | `print` followed by anything but `(` fails with "Expected '(' after 'print'", on every token list |
| ParserFacts.BlockConsumesBrace | src/Parser.java:179-185 | a successful block ends right after a `}` |
| ParserFacts.BlockAtEof | src/Parser.java:179-182 | reaching EOF inside a block gives the missing-`}` error |
| ParserFacts.GroupFactor | src/Parser.java:52-59 | an expression between `(` and `)` is a factor ending after the `)` |
| ParserFacts.NumberFactor | src/Parser.java:41-44 | the decimal literal of any `int` is parsed back to that value |
| ParserFacts.FactorUnparse | src/Parser.java:38-62 | wherever the fully parenthesized tokens of an arithmetic tree occur, parseFactor reads back exactly that tree and stops right after them |
| ParserFacts.ExpressionUnparse | src/Parser.java:91-100 | parsing the printed tokens of any arithmetic tree, followed by EOF, gives the same tree; a round trip over token lists, since a negative literal prints as one NUMBER token the lexer never produces |
| ParserFacts.ExpressionUnparseAt | src/Parser.java:91-100 | wherever the printed tokens of a tree occur in front of a token that ends an expression, parseExpression reads back exactly that tree and stops right after them |
| ParserFacts.ConditionUnparseAt | src/Parser.java:77-88 | wherever the printed tokens of a comparison chain occur, parseCondition reads back exactly that chain and its loop goes on right after them |
| ParserFacts.StatementUnparseAt | src/Parser.java:103-167 | wherever the printed tokens of a statement occur in front of a token that ends an expression, parseStatement reads back exactly that statement and stops right after them |
| ParserFacts.BlockUnparseAt | src/Parser.java:176-187 | wherever the printed statements of a block occur in front of `}`, parseBlock reads back exactly those statements and consumes the `}` |
| ParserFacts.StatementUnparse | src/Parser.java:103-167 | parsing the printed tokens of any printable statement, followed by EOF, gives the same statement and consumes every printed token |

| Interpreting.Apply | src/Interpreter.java:95-109 | fails exactly for an unknown operator or a zero divisor, with the matching error; a comparison gives exactly 1 or 0, and 1 exactly when it holds |
| Interpreting.CompareLaws | src/Interpreter.java:102-107 | the six comparisons relate as on integers: `<=`, `>=` and `==` negate `>`, `<` and `!=`, a strict one is its non-strict one without equality, and swapping the operands swaps `<` and `>` |
| Interpreting.ApplyWraps | src/Interpreter.java:96-98 | `+ - *` give the exact result modulo 2^32 |
| Interpreting.ApplyTruncates | src/Interpreter.java:99-100 | `/` truncates toward zero except for INT_MIN / -1, and `%` is the matching remainder |
| Interpreting.Evaluate | src/Interpreter.java:74-112 | a successful evaluation read only declared variables |
| Interpreting.EvaluateFrame | src/Interpreter.java:74-112 | the value depends only on the variables the expression reads |
| Interpreting.EvaluateErrors | src/Interpreter.java:80-108 | an undeclared name fails with "Variable not declared"; a failing operand's error is the result, left first; an unknown operator fails after both operands |
| Interpreting.EvaluateCondition | src/Interpreter.java:117-135 | any node that is not a binary operation is "Cannot evaluate condition"; success needs a comparison over declared variables |
| Interpreting.ConditionAgreesWithEvaluate | src/Interpreter.java:117-132 | on a comparison, the condition holds exactly when evaluate gives 1, and both fail with the same error |
| Interpreting.ArithmeticIsNoCondition | src/Interpreter.java:124-131 | an arithmetic operator used as a condition gives "Unknown comparison operator" |
| Interpreting.PrintLine | src/Interpreter.java:31-37 | the line is `false` exactly for 0, `true` exactly for 1, and otherwise decimal text that parseInt reads back as the value |
| Interpreting.PrintLineInjective | src/Interpreter.java:31-37 | different values print different lines |
| Interpreting.Bind | src/Interpreter.java:13-25 | on success the name is bound to the value of the expression, every other binding and the output are unchanged; on failure nothing changes |
| Interpreting.Exec | src/Interpreter.java:11-69 | executing a statement never removes a variable and never takes back a printed line |
| Interpreting.ExecBlock | src/Interpreter.java:46-48 | running statements in order keeps the same growth property |
| Interpreting.Loop | src/Interpreter.java:42-52 | a loop keeps the growth property and never lets a `break` escape |
| Interpreting.ExecFuelMonotone | src/Interpreter.java:44-49 | once a run does not run out of fuel, more fuel gives the same outcome and state |
| Interpreting.WhileUnrolls | src/Interpreter.java:44-49 | when the condition holds and the body ends normally, the loop goes on as the same loop from the body's final state |
| Interpreting.BreakLeavesLoop | src/Interpreter.java:42-52 | a `break` in the body ends the loop normally, keeping the effects before it |
| Interpreting.BreakInsideIf | src/Interpreter.java:55-68 | a `break` inside a taken `if` stops the enclosing block at once, with the effects of the statements before it |
| Interpreting.BlockConcat | src/Interpreter.java:46-48 | running `a + b` is running `a`, then `b` if `a` ended normally |
| Interpreting.IfRunsBranchOnlyWhenTrue | src/Interpreter.java:55-63 | a false condition changes nothing; a true one runs the branch |
| Interpreting.WhileFalseAndBreak | src/Interpreter.java:40-53 | a loop whose condition is false at the start changes nothing, and no loop lets a `break` escape |
| Interpreting.PrintAddsOneLine | src/Interpreter.java:27-38 | print appends exactly one line and leaves the table alone |
| Interpreting.Interpreter.constructor | src/Interpreter.java:7 | a new interpreter has an empty table and no output |
| Interpreting.Interpreter.Execute | src/Interpreter.java:11-69 | the outcome and the new table and output are exactly those of `Exec` |
| Interpreting.Interpreter.ExecuteBlock | src/Interpreter.java:46-48 | the `for` loop over a body gives exactly `ExecBlock` |
| Interpreting.Interpreter.ExecuteWhile | src/Interpreter.java:40-53 | the `while` loop with its `break` catch gives exactly `Loop` |
| Driver.Program | src/SimpleInterpreter.java:23-24 | the statements the run loop parses up to EOF are all well-shaped statements |
| Driver.RunFrom | src/SimpleInterpreter.java:23-26 | the output only grows, and a run completes only when every statement up to EOF parses |
| Driver.RunExecutesProgram | src/SimpleInterpreter.java:23-26 | when the statements up to EOF parse, the run ends exactly as executing them as one block does: normally gives Completed, an uncaught `break` or an error gives Threw, lack of fuel gives Exhausted, with the same output |
| Driver.RunFuelMonotone | src/SimpleInterpreter.java:23-26 | once a run does not run out of fuel, more fuel gives the same result |
| Driver.ProgramUnparseAt | src/SimpleInterpreter.java:23-24 | wherever the printed statements of a program occur in front of EOF, the run loop parses exactly those statements |
| Driver.RunPrintedProgram | src/SimpleInterpreter.java:15-26 | writing printable statements as source text and running it gives what executing those statements from an empty table gives |
| Driver.RunProgram | src/SimpleInterpreter.java:15-26 | a lexer error ends the run before any output |
| Driver.Run | src/SimpleInterpreter.java:15-26 | the loop over the lexer, parser and interpreter objects computes `RunProgram` |
| Driver.StrayBreak | src/Interpreter.java:65-68 | a `break` outside any loop ends the run uncaught |
| Driver.PrintSeven | src/SimpleInterpreter.java:15-26 | running the source text `print(7)` prints the single line `7` and completes |
| Driver.IncrementRun | src/SimpleInterpreter.java:15-26 | running `var x = 10 x = x + 1 print(x)` prints the single line `11` and completes |

## Left out

- Character classes are ASCII: `Character.isDigit`, `isLetter` and
  `isWhitespace` are modelled on ASCII only. The whitespace set is space,
  tab through carriage return, and U+001C to U+001F.
- Console output is modelled as a sequence of printed lines. The banners and
  code listings the demo driver prints around each program
  (`src/SimpleInterpreter.java:10-13`) and its sample programs are not part
  of this model.
- Exceptions are modelled as error values that carry the data their messages
  report. The message text itself is not reproduced. Java's own failures
  beyond those (stack overflow on deep nesting, out of memory) are not
  modelled.
- Interpreting.Exec, Interpreting.Interpreter.Execute and Driver.Run take a
  fuel bound, because a `while` need not terminate. Each execution of a
  `while` statement may run at most `fuel` iterations; a loop that wants more
  ends with the OutOfFuel outcome, which the driver reports as Exhausted.
  Non-terminating runs are therefore not modelled. Every other outcome is
  the same for any larger fuel: for a statement by
  `Interpreting.ExecFuelMonotone`, for a whole run by `Driver.RunFuelMonotone`.
- Interpreting.Evaluate is a function, so that `evaluate` never modifies the
  symbol table holds by construction rather than as a stated contract.
- `break` is an outcome instead of a thrown exception; the exception class
  behind it is not part of this model.
- The NUL character that `peek` and `peekNext` return at the end of the
  input is modelled by `Peek` and `PeekNext`. The scan itself tests for the
  end of the input directly; a NUL inside the input is rejected as an
  unexpected character, as in the Java code.
- JavaInt.ParseInt models `Integer.parseInt` in radix 10 on arbitrary text
  (with an optional sign), although the lexer only ever hands it digit runs.
- The other files of the repository (the string-splitting and regex-based
  prototypes, the `StringTokenizer` lexer, the unused token type with
  line/column fields, the empty main class and the debug utility) are not
  part of this model: they are not connected to this pipeline.
