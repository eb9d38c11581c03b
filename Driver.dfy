/// The top-level loop of the pipeline (src/SimpleInterpreter.java:15-26): lex
/// the whole source, then parse one statement at a time and execute it at once,
/// until the current token is EOF. The first exception ends the run; a `break`
/// outside any loop escapes as an exception too.

module Driver {
  import opened Tokens
  import opened Errors
  import opened Ast
  import opened Lexing
  import opened Parsing
  import opened Interpreting
  import LexerFacts
  import ParserFacts

  /// How a run ends: all statements done, an exception, or a loop out of fuel.
  datatype Status = Completed | Threw(error: Error) | Exhausted

  /// The lines printed before the run ended, and how it ended.
  datatype RunResult = RunResult(output: seq<string>, status: Status)

  /// How a run ends once a statement, or the statements run as one block,
  /// ended with `x`: normally, or with an exception (a `break` no loop caught
  /// included), or out of fuel.
  function Finish(x: Executed): RunResult
  {
    match x.outcome
    case Normal => RunResult(x.state.out, Completed)
    case BreakSignal => RunResult(x.state.out, Threw(UncaughtBreak))
    case Failure(e) => RunResult(x.state.out, Threw(e))
    case OutOfFuel => RunResult(x.state.out, Exhausted)
  }

  /// The statements from `p` up to EOF, parsed one after the other as the run
  /// loop parses them, but not run.
  function Program(ts: seq<Token>, p: nat): (r: Result<seq<Node>>)
    requires p <= |ts|
    ensures r.Ok? ==> forall i :: 0 <= i < |r.value| ==> IsParsedStatement(r.value[i])
    decreases |ts| - p
  {
    if Current(ts, p).kind == EOF then Ok([])
    else
      match Statement(ts, p)
      case Err(e) => Err(e)
      case Ok(Parsed(n, q)) =>
        match Program(ts, q)
        case Err(e) => Err(e)
        case Ok(rest) =>
          assert forall i :: 0 < i < |[n] + rest| ==> ([n] + rest)[i] == rest[i - 1];
          Ok([n] + rest)
  }

  /// The statements from position `p` on, each executed right after it is parsed,
  /// in state `s`.
  function RunFrom(ts: seq<Token>, p: nat, s: State, fuel: nat): (r: RunResult)
    requires p <= |ts|
    ensures s.out <= r.output
    ensures r.status == Completed ==> Program(ts, p).Ok?
    decreases |ts| - p
  {
    if Current(ts, p).kind == EOF then RunResult(s.out, Completed)
    else
      match Statement(ts, p)
      case Err(e) => RunResult(s.out, Threw(e))
      case Ok(Parsed(n, q)) =>
        var x := Exec(n, s, fuel);
        if x.outcome == Normal then RunFrom(ts, q, x.state, fuel) else Finish(x)
  }

  /// A whole run, from the source text and an empty symbol table.
  function RunProgram(source: string, fuel: nat): (r: RunResult)
    ensures Lex(source).Err? ==> r == RunResult([], Threw(Lex(source).error))
  {
    match Lex(source)
    case Err(e) => RunResult([], Threw(e))
    case Ok(ts) => RunFrom(ts, 0, State(map[], []), fuel)
  }

  /// The run loop with the lexer, parser and interpreter objects.
  method Run(source: string, fuel: nat) returns (result: RunResult)
    ensures result == RunProgram(source, fuel)
  {
    var lexer := new Lexer(source);
    assert lexer.input[0..] == source;
    var tokens := lexer.Tokenize();
    if tokens.Err? {
      return RunResult([], Threw(tokens.error));
    }
    var parser := new Parser(tokens.value);
    var interpreter := new Interpreter();
    while parser.CurrentToken().kind != EOF
      invariant parser.Valid() && parser.tokens == tokens.value
      invariant RunProgram(source, fuel) == RunFrom(parser.tokens, parser.pos, interpreter.Snapshot(), fuel)
      decreases |parser.tokens| - parser.pos
    {
      var statement := parser.ParseStatement();
      if statement.Err? {
        return RunResult(interpreter.output, Threw(statement.error));
      }
      var outcome := interpreter.Execute(statement.value, fuel);
      match outcome
      case Normal =>
      case BreakSignal =>
        return RunResult(interpreter.output, Threw(UncaughtBreak));
      case Failure(e) =>
        return RunResult(interpreter.output, Threw(e));
      case OutOfFuel =>
        return RunResult(interpreter.output, Exhausted);
    }
    return RunResult(interpreter.output, Completed);
  }

  /// A `break` outside any loop is not caught: the run ends with it.
  lemma StrayBreak(s: State, fuel: nat)
    ensures RunFrom([Token(BREAK, "break"), EofToken], 0, s, fuel) == RunResult(s.out, Threw(UncaughtBreak))
  {
    var ts := [Token(BREAK, "break"), EofToken];
    assert Statement(ts, 0) == Ok(Parsed(Break, 1));
  }

  /// `print(7)` prints one line, `7`, and the run completes.
  lemma PrintSeven(fuel: nat)
    ensures RunProgram("print(7)", fuel) == RunResult(["7"], Completed)
  {
    assert Lex("print(7)") == Lex("print(" + ['7'] + ")") by {
      assert "print(" + ['7'] + ")" == "print(7)";
    }
    LexerFacts.PrintCallExample('7');
    PrintSevenTokens(fuel);
  }

  lemma PrintSevenTokens(fuel: nat)
    ensures RunFrom([Token(IDENTIFIER, "print"), Token(LPAREN, "("), Token(NUMBER, "7"), Token(RPAREN, ")"), EofToken],
                    0, State(map[], []), fuel) == RunResult(["7"], Completed)
  {
    var ts := [Token(IDENTIFIER, "print"), Token(LPAREN, "("), Token(NUMBER, "7"), Token(RPAREN, ")"), EofToken];
    JavaInt.ParseIntOfDigits("7");
    assert Factor(ts, 2) == Ok(Parsed(Number(7), 3));
    ParserFacts.FactorIsExpression(ts, 2, Number(7), 3);
    ParserFacts.PrintParsed(ts, 0, Number(7), 3);
    assert PrintLine(7) == "7";
  }

  /// `var x = 10 x = x + 1 print(x)` prints `11`: a declaration, an assignment
  /// that reads the variable it writes, and a print, with no separators.
  lemma IncrementRun(fuel: nat)
    ensures RunProgram("var x = 10 x = x + 1 print(x)", fuel) == RunResult(["11"], Completed)
  {
    LexerFacts.IncrementExample();
    var ts := IncrementTokens();
    IncrementParses();
    RunExecutesProgram(ts, 0, State(map[], []), fuel);
    IncrementExecutes(fuel);
  }

  function IncrementTokens(): seq<Token>
  {
    [Token(KEYWORD, "var"), Token(IDENTIFIER, "x"), Token(EQ, "="), Token(NUMBER, "10"),
     Token(IDENTIFIER, "x"), Token(EQ, "="), Token(IDENTIFIER, "x"), Token(PLUS, "+"), Token(NUMBER, "1"),
     Token(IDENTIFIER, "print"), Token(LPAREN, "("), Token(IDENTIFIER, "x"), Token(RPAREN, ")"), EofToken]
  }

  function IncrementStatements(): seq<Node>
  {
    [VarDeclaration("x", Number(10)), Assignment("x", BinaryOp(Variable("x"), "+", Number(1))), Print(Variable("x"))]
  }

  lemma IncrementParses()
    ensures Program(IncrementTokens(), 0) == Ok(IncrementStatements())
  {
    var ss := IncrementStatements();
    DeclarationParses();
    AssignmentParses();
    PrintParses();
    ThreeStatements(IncrementTokens(), ss[0], 4, ss[1], 9, ss[2], 13);
  }

  /// Three statements one after the other, then EOF, are the whole program.
  lemma {:induction false} ThreeStatements(ts: seq<Token>, n0: Node, p1: nat, n1: Node, p2: nat, n2: Node, p3: nat)
    requires 0 < |ts| && Current(ts, 0).kind != EOF && Statement(ts, 0) == Ok(Parsed(n0, p1))
    requires p1 <= |ts| && Current(ts, p1).kind != EOF && Statement(ts, p1) == Ok(Parsed(n1, p2))
    requires p2 <= |ts| && Current(ts, p2).kind != EOF && Statement(ts, p2) == Ok(Parsed(n2, p3))
    requires p3 <= |ts| && Current(ts, p3).kind == EOF
    ensures Program(ts, 0) == Ok([n0, n1, n2])
  {
    assert Program(ts, p3) == Ok([]);
    ProgramCons(ts, p2, n2, p3, []);
    assert [n2] + [] == [n2];
    ProgramCons(ts, p1, n1, p2, [n2]);
    assert [n1] + [n2] == [n1, n2];
    ProgramCons(ts, 0, n0, p1, [n1, n2]);
    assert [n0] + [n1, n2] == [n0, n1, n2];
  }

  lemma {:induction false} ProgramCons(ts: seq<Token>, p: nat, n: Node, q: nat, rest: seq<Node>)
    requires p <= |ts| && Current(ts, p).kind != EOF
    requires Statement(ts, p) == Ok(Parsed(n, q)) && Program(ts, q) == Ok(rest)
    ensures Program(ts, p) == Ok([n] + rest)
  {
  }

  lemma DeclarationParses()
    ensures Statement(IncrementTokens(), 0) == Ok(Parsed(VarDeclaration("x", Number(10)), 4))
  {
    var ts := IncrementTokens();
    TenParses();
    ParserFacts.FactorIsExpression(ts, 3, Number(10), 4);
    ParserFacts.VarParsed(ts, 0, "x", Number(10), 4);
  }

  /// The literal `10` in the first statement is read as the number 10.
  lemma TenParses()
    ensures Factor(IncrementTokens(), 3) == Ok(Parsed(Number(10), 4))
  {
    TenValue();
    assert IncrementTokens()[3] == Token(NUMBER, "10");
    ParserFacts.LiteralFactor(IncrementTokens(), 3, "10", 10);
  }

  /// parseInt reads "10" as 10.
  lemma TenValue()
    ensures JavaInt.ParseInt("10") == Ok(10)
  {
    JavaInt.ParseIntOfDigits("10");
  }

  lemma AssignmentParses()
    ensures Statement(IncrementTokens(), 4) == Ok(Parsed(Assignment("x", BinaryOp(Variable("x"), "+", Number(1))), 9))
  {
    var sum := BinaryOp(Variable("x"), "+", Number(1));
    SumParses();
    ParserFacts.AssignmentParsed(IncrementTokens(), 4, "x", sum, 9);
  }

  /// `x + 1` in the second statement is read as one sum.
  lemma SumParses()
    ensures Expression(IncrementTokens(), 6) == Ok(Parsed(BinaryOp(Variable("x"), "+", Number(1)), 9))
  {
    var ts := IncrementTokens();
    var sum := BinaryOp(Variable("x"), "+", Number(1));
    OneParses();
    assert Term(ts, 8) == Ok(Parsed(Number(1), 9));
    assert Term(ts, 6) == Ok(Parsed(Variable("x"), 7));
    assert ExpressionRest(ts, sum, 9) == Ok(Parsed(sum, 9));
  }

  /// The literal `1` in the second statement is read as the number 1.
  lemma OneParses()
    ensures Factor(IncrementTokens(), 8) == Ok(Parsed(Number(1), 9))
  {
    OneValue();
    assert IncrementTokens()[8] == Token(NUMBER, "1");
    ParserFacts.LiteralFactor(IncrementTokens(), 8, "1", 1);
  }

  /// parseInt reads "1" as 1.
  lemma OneValue()
    ensures JavaInt.ParseInt("1") == Ok(1)
  {
    JavaInt.ParseIntOfDigits("1");
  }

  lemma PrintParses()
    ensures Statement(IncrementTokens(), 9) == Ok(Parsed(Print(Variable("x")), 13))
  {
    var ts := IncrementTokens();
    assert Factor(ts, 11) == Ok(Parsed(Variable("x"), 12));
    ParserFacts.FactorIsExpression(ts, 11, Variable("x"), 12);
    ParserFacts.PrintParsed(ts, 9, Variable("x"), 12);
  }

  lemma IncrementExecutes(fuel: nat)
    ensures Finish(ExecBlock(IncrementStatements(), State(map[], []), fuel)) == RunResult(["11"], Completed)
  {
    var ss := IncrementStatements();
    var s1 := State(map["x" := 10], []);
    var s2 := State(s1.vars["x" := 11], []);
    assert Exec(ss[0], State(map[], []), fuel) == Executed(Normal, s1);
    assert JavaInt.Add(10, 1) == 11;
    assert Exec(ss[1], s1, fuel) == Executed(Normal, s2);
    assert PrintLine(11) == "11";
    assert Exec(ss[2], s2, fuel) == Executed(Normal, s2.(out := ["11"]));
    assert ss[1..][1..][1..] == [];
    assert ExecBlock(ss[2..], s2, fuel) == Executed(Normal, s2.(out := ["11"]));
  }

  /// A run is the program it parses, run as one block: the run loop executes
  /// each statement right after parsing it, and the first one that does not end
  /// normally ends the run with the output so far.
  lemma {:induction false} RunExecutesProgram(ts: seq<Token>, p: nat, s: State, fuel: nat)
    requires p <= |ts| && Program(ts, p).Ok?
    ensures RunFrom(ts, p, s, fuel) == Finish(ExecBlock(Program(ts, p).value, s, fuel))
    decreases |ts| - p
  {
    if Current(ts, p).kind != EOF {
      var st := Statement(ts, p).value;
      var rest := Program(ts, st.next).value;
      var ss := Program(ts, p).value;
      assert ss == [st.value] + rest;
      assert ss[0] == st.value && ss[1..] == rest;
      var x := Exec(st.value, s, fuel);
      if x.outcome == Normal {
        RunExecutesProgram(ts, st.next, x.state, fuel);
      }
    }
  }

  /// More fuel changes nothing once a run did not run out of it.
  lemma {:induction false} RunFuelMonotone(ts: seq<Token>, p: nat, s: State, f: nat, g: nat)
    requires p <= |ts| && f <= g && RunFrom(ts, p, s, f).status != Exhausted
    ensures RunFrom(ts, p, s, g) == RunFrom(ts, p, s, f)
    decreases |ts| - p
  {
    if Current(ts, p).kind != EOF && Statement(ts, p).Ok? {
      var st := Statement(ts, p).value;
      var x := Exec(st.value, s, f);
      assert x.outcome != OutOfFuel;
      ExecFuelMonotone(st.value, s, f, g);
      if x.outcome == Normal {
        RunFuelMonotone(ts, st.next, x.state, f, g);
      }
    }
  }

  // ---------------------------------------------------------------------------
  // Printed programs: from statements to source text and back to a run

  /// Tokens the lexer can produce before its final EOF.
  predicate AllWellFormed(ts: seq<Token>)
  {
    forall i :: 0 <= i < |ts| ==> LexerFacts.WellFormed(ts[i])
  }

  lemma WellFormedConcat(a: seq<Token>, b: seq<Token>)
    requires AllWellFormed(a) && AllWellFormed(b)
    ensures AllWellFormed(a + b)
  {
    forall i | 0 <= i < |a + b| ensures LexerFacts.WellFormed((a + b)[i]) {
      if i >= |a| {
        assert (a + b)[i] == b[i - |a|];
      }
    }
  }

  lemma {:induction false} ExpressionWellFormed(e: Node)
    requires IsArithmetic(e) && ParserFacts.SourceLeaves(e)
    ensures AllWellFormed(ParserFacts.Unparse(e))
  {
    match e
    case Number(v) =>
      assert ParserFacts.Unparse(e) == [Token(NUMBER, JavaInt.DecimalDigits(v))];
    case Variable(x) =>
      assert ParserFacts.Unparse(e) == [Token(IDENTIFIER, x)];
    case BinaryOp(l, op, r) =>
      var o := ParserFacts.OperatorToken(op);
      ExpressionWellFormed(l);
      ExpressionWellFormed(r);
      assert LexerFacts.WellFormed(o);
      WellFormedConcat([Token(LPAREN, "(")], ParserFacts.Unparse(l));
      WellFormedConcat([Token(LPAREN, "(")] + ParserFacts.Unparse(l), [o]);
      WellFormedConcat([Token(LPAREN, "(")] + ParserFacts.Unparse(l) + [o], ParserFacts.Unparse(r));
      WellFormedConcat([Token(LPAREN, "(")] + ParserFacts.Unparse(l) + [o] + ParserFacts.Unparse(r), [Token(RPAREN, ")")]);
  }

  lemma {:induction false} ConditionWellFormed(c: Node)
    requires IsCondition(c) && ParserFacts.SourceLeaves(c)
    ensures AllWellFormed(ParserFacts.UnparseCondition(c))
  {
    if IsArithmetic(c) {
      ExpressionWellFormed(c);
    } else {
      var u := ParserFacts.UnparseCondition(c.left);
      var o := ParserFacts.ComparisonToken(c.operator);
      ConditionWellFormed(c.left);
      ExpressionWellFormed(c.right);
      assert LexerFacts.WellFormed(o);
      WellFormedConcat(u, [o]);
      WellFormedConcat(u + [o], ParserFacts.Unparse(c.right));
    }
  }

  lemma {:induction false} StatementWellFormed(n: Node)
    requires ParserFacts.Printable(n)
    ensures AllWellFormed(ParserFacts.UnparseStatement(n))
    decreases NodeSize(n), 1
  {
    if n.If? || n.While? {
      BranchingWellFormed(n);
    } else {
      SimpleStatementWellFormed(n);
    }
  }

  lemma SimpleStatementWellFormed(n: Node)
    requires ParserFacts.Printable(n) && !n.If? && !n.While?
    ensures AllWellFormed(ParserFacts.UnparseStatement(n))
  {
    match n
    case VarDeclaration(x, e) => DeclarationWellFormed(x, e);
    case Assignment(x, e) => AssignmentWellFormed(x, e);
    case Print(e) => PrintWellFormed(e);
    case Break =>
  }

  lemma DeclarationWellFormed(x: string, e: Node)
    requires ParserFacts.IsName(x) && IsArithmetic(e) && ParserFacts.SourceLeaves(e)
    ensures AllWellFormed(ParserFacts.UnparseStatement(VarDeclaration(x, e)))
  {
    var head := [Token(KEYWORD, "var"), Token(IDENTIFIER, x), Token(EQ, "=")];
    SimpleWellFormed(head, e, []);
    assert ParserFacts.UnparseStatement(VarDeclaration(x, e)) == head + ParserFacts.Unparse(e) + [];
  }

  lemma AssignmentWellFormed(x: string, e: Node)
    requires ParserFacts.IsName(x) && IsArithmetic(e) && ParserFacts.SourceLeaves(e)
    ensures AllWellFormed(ParserFacts.UnparseStatement(Assignment(x, e)))
  {
    var head := [Token(IDENTIFIER, x), Token(EQ, "=")];
    SimpleWellFormed(head, e, []);
    assert ParserFacts.UnparseStatement(Assignment(x, e)) == head + ParserFacts.Unparse(e) + [];
  }

  lemma PrintWellFormed(e: Node)
    requires IsArithmetic(e) && ParserFacts.SourceLeaves(e)
    ensures AllWellFormed(ParserFacts.UnparseStatement(Print(e)))
  {
    var head, tail := [Token(IDENTIFIER, "print"), Token(LPAREN, "(")], [Token(RPAREN, ")")];
    PrintTokensWellFormed();
    SimpleWellFormed(head, e, tail);
    assert ParserFacts.UnparseStatement(Print(e)) == head + ParserFacts.Unparse(e) + tail;
  }

  /// The tokens a print statement puts around its argument are ones the lexer produces.
  lemma PrintTokensWellFormed()
    ensures AllWellFormed([Token(IDENTIFIER, "print"), Token(LPAREN, "(")]) && AllWellFormed([Token(RPAREN, ")")])
  {
    assert LexerFacts.WellFormed(Token(IDENTIFIER, "print"));
  }

  lemma {:induction false} BranchingWellFormed(n: Node)
    requires ParserFacts.Printable(n) && (n.If? || n.While?)
    ensures AllWellFormed(ParserFacts.UnparseStatement(n))
    decreases NodeSize(n), 0
  {
    match n
    case If(c, b) =>
      assert ParserFacts.AllPrintable(b);
      GuardedWellFormed(Token(KEYWORD, "if"), c, b);
    case While(c, b) =>
      assert ParserFacts.AllPrintable(b);
      GuardedWellFormed(Token(KEYWORD, "while"), c, b);
  }

  /// An expression printed between well-formed tokens.
  lemma SimpleWellFormed(head: seq<Token>, e: Node, tail: seq<Token>)
    requires AllWellFormed(head) && AllWellFormed(tail) && IsArithmetic(e) && ParserFacts.SourceLeaves(e)
    ensures AllWellFormed(head + ParserFacts.Unparse(e) + tail)
  {
    ExpressionWellFormed(e);
    WellFormedConcat(head, ParserFacts.Unparse(e));
    WellFormedConcat(head + ParserFacts.Unparse(e), tail);
  }

  lemma {:induction false} GuardedWellFormed(keyword: Token, c: Node, b: seq<Node>)
    requires keyword == Token(KEYWORD, "if") || keyword == Token(KEYWORD, "while")
    requires IsCondition(c) && ParserFacts.SourceLeaves(c) && ParserFacts.AllPrintable(b)
    ensures AllWellFormed(ParserFacts.Guarded(keyword, ParserFacts.UnparseCondition(c), ParserFacts.UnparseBlock(b)))
    decreases BlockSize(b), 3
  {
    var uc, ub := ParserFacts.UnparseCondition(c), ParserFacts.UnparseBlock(b);
    var lbrace, rbrace := Token(LBRACE, "{"), Token(RBRACE, "}");
    ConditionWellFormed(c);
    BlockWellFormed(b);
    WellFormedConcat([keyword], uc);
    WellFormedConcat([keyword] + uc, [lbrace]);
    WellFormedConcat([keyword] + uc + [lbrace], ub);
    WellFormedConcat([keyword] + uc + [lbrace] + ub, [rbrace]);
  }

  lemma {:induction false} BlockWellFormed(b: seq<Node>)
    requires ParserFacts.AllPrintable(b)
    ensures AllWellFormed(ParserFacts.UnparseBlock(b))
    decreases BlockSize(b), 2
  {
    if b != [] {
      assert ParserFacts.AllPrintable(b[1..]) by {
        forall i | 0 <= i < |b[1..]| ensures ParserFacts.Printable(b[1..][i]) {
          assert b[1..][i] == b[i + 1];
        }
      }
      StatementWellFormed(b[0]);
      BlockWellFormed(b[1..]);
      WellFormedConcat(ParserFacts.UnparseStatement(b[0]), ParserFacts.UnparseBlock(b[1..]));
    }
  }

  /// Wherever the printed statements of a program occur in front of EOF, the
  /// run loop's parsing reads back exactly those statements.
  lemma {:induction false} ProgramUnparseAt(ss: seq<Node>, ts: seq<Token>, p: nat, k: nat)
    requires ParserFacts.AllPrintable(ss) && ParserFacts.Occurs(ts, p, ParserFacts.UnparseBlock(ss))
    requires k == p + |ParserFacts.UnparseBlock(ss)| && k < |ts| && ts[k] == EofToken
    ensures Program(ts, p) == Ok(ss)
    decreases |ss|
  {
    if ss != [] {
      var u := ParserFacts.UnparseStatement(ss[0]);
      var m := p + |u|;
      ParserFacts.OccursSplit(ts, p, u, ParserFacts.UnparseBlock(ss[1..]));
      ParserFacts.StatementStart(ss[0]);
      assert ts[p + 0] == u[0];
      if ss[1..] == [] {
        assert Current(ts, m) == ts[k];
      } else {
        ParserFacts.BlockStart(ss[1..]);
        ParserFacts.StatementStart(ss[1..][0]);
        assert ts[m + 0] == ParserFacts.UnparseBlock(ss[1..])[0];
      }
      assert ParserFacts.AllPrintable(ss[1..]) by {
        forall i | 0 <= i < |ss[1..]| ensures ParserFacts.Printable(ss[1..][i]) {
          assert ss[1..][i] == ss[i + 1];
        }
      }
      ParserFacts.StatementUnparseAt(ss[0], ts, p, m);
      ProgramUnparseAt(ss[1..], ts, m, k);
      assert [ss[0]] + ss[1..] == ss;
    }
  }

  /// Printing a program as source text and running that text runs the program:
  /// the lexer, the parser and the run loop together execute exactly the printed
  /// statements, in order, from an empty symbol table.
  lemma RunPrintedProgram(ss: seq<Node>, fuel: nat)
    requires ParserFacts.AllPrintable(ss)
    ensures RunProgram(LexerFacts.Unlex(ParserFacts.UnparseBlock(ss)), fuel) ==
      Finish(ExecBlock(ss, State(map[], []), fuel))
  {
    var u := ParserFacts.UnparseBlock(ss);
    var ts := u + [EofToken];
    BlockWellFormed(ss);
    LexerFacts.LexUnlex(u);
    assert ParserFacts.Occurs(ts, 0, u) by {
      forall i | 0 <= i < |u| ensures ts[0 + i] == u[i] {
      }
    }
    ProgramUnparseAt(ss, ts, 0, |u|);
    RunExecutesProgram(ts, 0, State(map[], []), fuel);
  }
}
