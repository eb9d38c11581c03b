/// Properties of the lexer specification `Lexing.Lex`: the shape of the token
/// list, what each kind of token looks like, that the token texts spell out the
/// input without its whitespace, and that lexing inverts printing tokens
/// separated by spaces.

module LexerFacts {
  import opened Tokens
  import opened Errors
  import opened JavaInt
  import opened Lexing

  /// The fixed spelling of each operator and punctuation kind.
  function Spelling(kind: TokenType): string
  {
    match kind
    case PLUS => "+"
    case MINUS => "-"
    case STAR => "*"
    case SLASH => "/"
    case PERCENT => "%"
    case EQ => "="
    case LPAREN => "("
    case RPAREN => ")"
    case LBRACE => "{"
    case RBRACE => "}"
    case LESS_EQUAL => "<="
    case GREATER_EQUAL => ">="
    case LESS_THAN => "<"
    case GREATER_THAN => ">"
    case EQUAL_EQUAL => "=="
    case BANG_EQUAL => "!="
    case _ => ""
  }

  /// A token the lexer can produce before the final EOF: a digit run for NUMBER,
  /// a classified word for IDENTIFIER, KEYWORD and BREAK, the operator's own
  /// spelling otherwise.
  predicate WellFormed(t: Token)
  {
    match t.kind
    case NUMBER => t.text != [] && AllDigits(t.text)
    case IDENTIFIER => t.text != [] && IsLetter(t.text[0]) && IsWord(t.text) && WordKind(t.text) == IDENTIFIER
    case KEYWORD => t.text == "var" || t.text == "while" || t.text == "if"
    case BREAK => t.text == "break"
    case EOF => false
    case _ => t.text == Spelling(t.kind)
  }

  predicate HasNoWhitespace(s: string) { forall i :: 0 <= i < |s| ==> !IsWhitespace(s[i]) }

  /// `s` with every whitespace character removed.
  function StripWhitespace(s: string): (r: string)
    ensures |r| <= |s|
  {
    if s == [] then []
    else (if IsWhitespace(s[0]) then [] else [s[0]]) + StripWhitespace(s[1..])
  }

  /// The texts of `ts`, concatenated.
  function Spell(ts: seq<Token>): string
  {
    if ts == [] then [] else ts[0].text + Spell(ts[1..])
  }

  /// The texts of `ts`, each followed by one space.
  function Unlex(ts: seq<Token>): string
  {
    if ts == [] then [] else ts[0].text + " " + Unlex(ts[1..])
  }

  // ---------------------------------------------------------------------------
  // Runs

  /// A maximal digit run: DigitRun finds exactly the run that stops at a non-digit.
  lemma {:induction false} DigitRunExact(s: string, n: nat)
    requires n <= |s| && AllDigits(s[..n]) && (n < |s| ==> !IsDigit(s[n]))
    ensures DigitRun(s) == n
  {
    if n > 0 {
      assert s[1..][..n - 1] == s[1..n];
      DigitRunExact(s[1..], n - 1);
    }
  }

  lemma {:induction false} WordRunExact(s: string, n: nat)
    requires n <= |s| && IsWord(s[..n]) && (n < |s| ==> !IsLetterOrDigit(s[n]))
    ensures WordRun(s) == n
  {
    if n > 0 {
      assert s[1..][..n - 1] == s[1..n];
      WordRunExact(s[1..], n - 1);
    }
  }

  /// A maximal run of digits becomes exactly one NUMBER token spelling those digits.
  lemma NumberToken(s: string, n: nat)
    requires 0 < n <= |s| && AllDigits(s[..n]) && (n < |s| ==> !IsDigit(s[n]))
    ensures Lex(s) == Prepend([Token(NUMBER, s[..n])], Lex(s[n..]))
  {
    DigitRunExact(s, n);
  }

  /// A maximal letter-initial run of letters and digits becomes one token:
  /// KEYWORD for `var`, `while` and `if`, BREAK for `break`, IDENTIFIER otherwise.
  lemma WordToken(s: string, n: nat)
    requires 0 < n <= |s| && IsLetter(s[0]) && IsWord(s[..n]) && (n < |s| ==> !IsLetterOrDigit(s[n]))
    ensures var w := s[..n];
      Lex(s) == Prepend([Token(WordKind(w), w)], Lex(s[n..])) &&
      (WordKind(w) == KEYWORD <==> (w == "var" || w == "while" || w == "if")) &&
      (WordKind(w) == BREAK <==> w == "break") &&
      (WordKind(w) == IDENTIFIER <==> !(w == "var" || w == "while" || w == "if" || w == "break"))
  {
    WordRunExact(s, n);
  }

  /// `==`, `!=`, `<=` and `>=` are read with one character of lookahead and take
  /// two characters; a lone `=`, `<` or `>` is a token of its own, a lone `!` is rejected.
  lemma OperatorTokens(c: char, rest: string)
    requires c == '=' || c == '!' || c == '<' || c == '>'
    ensures Lex([c, '='] + rest) ==
      Prepend([Token(if c == '=' then EQUAL_EQUAL else if c == '!' then BANG_EQUAL
                     else if c == '<' then LESS_EQUAL else GREATER_EQUAL, [c, '='])], Lex(rest))
    ensures rest == [] || rest[0] != '=' ==>
      Lex([c] + rest) ==
        if c == '!' then Err(UnexpectedCharacter('!'))
        else Prepend([Token(if c == '=' then EQ else if c == '<' then LESS_THAN else GREATER_THAN, [c])], Lex(rest))
  {
    TwoCharOperator(c, rest);
    if rest == [] || rest[0] != '=' {
      OneCharOperator(c, rest);
    }
  }

  lemma TwoCharOperator(c: char, rest: string)
    requires c == '=' || c == '!' || c == '<' || c == '>'
    ensures Lex([c, '='] + rest) ==
      Prepend([Token(if c == '=' then EQUAL_EQUAL else if c == '!' then BANG_EQUAL
                     else if c == '<' then LESS_EQUAL else GREATER_EQUAL, [c, '='])], Lex(rest))
  {
    assert ([c, '='] + rest)[2..] == rest;
  }

  lemma OneCharOperator(c: char, rest: string)
    requires c == '=' || c == '!' || c == '<' || c == '>'
    requires rest == [] || rest[0] != '='
    ensures Lex([c] + rest) ==
        if c == '!' then Err(UnexpectedCharacter('!'))
        else Prepend([Token(if c == '=' then EQ else if c == '<' then LESS_THAN else GREATER_THAN, [c])], Lex(rest))
  {
    var s := [c] + rest;
    assert s[0] == c && s[1..] == rest;
    assert !(|s| > 1 && s[1] == '=');
    if c == '!' {
      assert ScanOne(s) == Reject('!');
    } else {
      var kind := if c == '=' then EQ else if c == '<' then LESS_THAN else GREATER_THAN;
      assert ScanOne(s) == Emit(Token(kind, [c]), 1);
    }
  }

  /// Each operator or brace character is a token of its own, spelled by that character.
  lemma SingleCharToken(c: char, rest: string)
    requires IsSingleChar(c)
    ensures Lex([c] + rest) == Prepend([Token(SingleCharKind(c), [c])], Lex(rest))
    ensures Spelling(SingleCharKind(c)) == [c]
  {
    var s := [c] + rest;
    assert s[0] == c && s[1..] == rest;
  }

  /// A whitespace character emits nothing.
  lemma WhitespaceSkipped(c: char, rest: string)
    requires IsWhitespace(c)
    ensures Lex([c] + rest) == Lex(rest)
  {
    var s := [c] + rest;
    assert s[0] == c && s[1..] == rest;
  }

  /// A character that starts no token and is not whitespace stops the scan.
  lemma UnexpectedCharacterStops(c: char, rest: string)
    requires !IsDigit(c) && !IsLetter(c) && !IsSingleChar(c) && !IsWhitespace(c)
    requires c != '=' && c != '!' && c != '<' && c != '>'
    ensures Lex([c] + rest) == Err(UnexpectedCharacter(c))
  {
    var s := [c] + rest;
    assert s[0] == c;
  }

  // ---------------------------------------------------------------------------
  // Whole-scan properties

  /// Every token before the final EOF is well formed.
  lemma {:induction false} LexWellFormed(s: string)
    requires Lex(s).Ok?
    ensures var ts := Lex(s).value; forall i :: 0 <= i < |ts| - 1 ==> WellFormed(ts[i])
    decreases |s|
  {
    if s != [] {
      match ScanOne(s)
      case Emit(t, n) =>
        LexWellFormed(s[n..]);
        EmittedWellFormed(s);
        var ts := Lex(s).value;
        assert ts == [t] + Lex(s[n..]).value;
        forall i | 0 <= i < |ts| - 1 ensures WellFormed(ts[i]) {
          if i > 0 { assert ts[i] == Lex(s[n..]).value[i - 1]; }
        }
      case Skip =>
        LexWellFormed(s[1..]);
      case Reject(_) =>
    }
  }

  lemma EmittedWellFormed(s: string)
    requires s != [] && ScanOne(s).Emit?
    ensures WellFormed(ScanOne(s).token) && HasNoWhitespace(ScanOne(s).token.text)
  {
    var c := s[0];
    if IsDigit(c) {
      assert DigitRun(s) > 0;
    } else if IsLetter(c) {
      var n := WordRun(s);
      assert n > 0 && s[..n][0] == c;
    }
  }

  lemma {:induction false} StripAppend(a: string, b: string)
    ensures StripWhitespace(a + b) == StripWhitespace(a) + StripWhitespace(b)
  {
    if a != [] {
      assert (a + b)[1..] == a[1..] + b;
      StripAppend(a[1..], b);
    } else {
      assert a + b == b;
    }
  }

  lemma {:induction false} StripNoWhitespace(a: string)
    requires HasNoWhitespace(a)
    ensures StripWhitespace(a) == a
  {
    if a != [] {
      StripNoWhitespace(a[1..]);
    }
  }

  /// On success the token texts, read in order, are the input without its
  /// whitespace: whitespace emits nothing and nothing else is dropped or changed.
  lemma {:induction false} LexSpellsInput(s: string)
    requires Lex(s).Ok?
    ensures Spell(Lex(s).value) == StripWhitespace(s)
    decreases |s|
  {
    if s == [] {
      assert Spell([EofToken]) == "";
    } else {
      match ScanOne(s)
      case Emit(t, n) =>
        LexSpellsInput(s[n..]);
        EmittedSpelling(s, t, n);
      case Skip =>
        LexSpellsInput(s[1..]);
        assert StripWhitespace(s) == StripWhitespace(s[1..]);
      case Reject(_) =>
    }
  }

  /// One emitted token spells the characters it was scanned from.
  lemma EmittedSpelling(s: string, t: Token, n: nat)
    requires s != [] && ScanOne(s) == Emit(t, n) && Lex(s).Ok?
    requires Spell(Lex(s[n..]).value) == StripWhitespace(s[n..])
    ensures Spell(Lex(s).value) == StripWhitespace(s)
  {
    LexEmitted(s, t, n);
    SpellCons(t, Lex(s[n..]).value);
    EmittedWellFormed(s);
    StripPrefix(s, n);
  }

  lemma LexEmitted(s: string, t: Token, n: nat)
    requires s != [] && ScanOne(s) == Emit(t, n) && Lex(s).Ok?
    ensures Lex(s[n..]).Ok? && Lex(s).value == [t] + Lex(s[n..]).value
  {
  }

  lemma SpellCons(t: Token, rest: seq<Token>)
    ensures Spell([t] + rest) == t.text + Spell(rest)
  {
    assert ([t] + rest)[1..] == rest;
  }

  lemma StripPrefix(s: string, n: nat)
    requires n <= |s| && HasNoWhitespace(s[..n])
    ensures StripWhitespace(s) == s[..n] + StripWhitespace(s[n..])
  {
    assert s == s[..n] + s[n..];
    StripAppend(s[..n], s[n..]);
    StripNoWhitespace(s[..n]);
  }

  /// Lexing a well-formed token written out and followed by a space gives that token back.
  lemma ScanWellFormed(t: Token, rest: string)
    requires WellFormed(t)
    ensures var s := t.text + " " + rest;
      s != [] && ScanOne(s) == Emit(t, |t.text|) && s[|t.text|..] == " " + rest
  {
    var s := t.text + " " + rest;
    var n := |t.text|;
    assert s[..n] == t.text;
    assert s[n..] == " " + rest;
    match t.kind
    case NUMBER =>
      DigitRunExact(s, n);
    case IDENTIFIER =>
      WordRunExact(s, n);
    case KEYWORD =>
      WordRunExact(s, n);
    case BREAK =>
      WordRunExact(s, n);
    case _ =>
      ScanPunctuation(t, s);
  }

  /// An operator or brace followed by a space is scanned as exactly itself.
  lemma ScanPunctuation(t: Token, s: string)
    requires WellFormed(t) && !(t.kind in {NUMBER, IDENTIFIER, KEYWORD, BREAK})
    requires |t.text| < |s| && s[..|t.text|] == t.text && s[|t.text|] == ' '
    ensures ScanOne(s) == Emit(t, |t.text|)
  {
    assert s[0] == t.text[0];
  }

  /// Lexing inverts writing tokens out separated by spaces: every list of
  /// well-formed tokens comes back, followed by EOF.
  lemma {:induction false} LexUnlex(ts: seq<Token>)
    requires forall i :: 0 <= i < |ts| ==> WellFormed(ts[i])
    ensures Lex(Unlex(ts)) == Ok(ts + [EofToken])
  {
    if ts == [] {
      assert ts + [EofToken] == [EofToken];
    } else {
      var t := ts[0];
      var rest := Unlex(ts[1..]);
      var s := t.text + " " + rest;
      assert Unlex(ts) == s;
      ScanWellFormed(t, rest);
      assert (" " + rest)[1..] == rest;
      LexUnlex(ts[1..]);
      assert ts + [EofToken] == [t] + (ts[1..] + [EofToken]);
    }
  }

  /// The same in front of any further text: the printed tokens come first.
  lemma {:induction false} LexUnlexThen(ts: seq<Token>, rest: string)
    requires forall i :: 0 <= i < |ts| ==> WellFormed(ts[i])
    ensures Lex(Unlex(ts) + rest) == Prepend(ts, Lex(rest))
  {
    if ts == [] {
      assert Unlex(ts) + rest == rest;
      if Lex(rest).Ok? {
        assert ts + Lex(rest).value == Lex(rest).value;
      }
    } else {
      var t := ts[0];
      var tail := Unlex(ts[1..]) + rest;
      var s := t.text + " " + tail;
      assert Unlex(ts) + rest == s;
      ScanWellFormed(t, tail);
      assert (" " + tail)[1..] == tail;
      LexUnlexThen(ts[1..], rest);
      PrependPrepend([t], ts[1..], Lex(rest));
      assert [t] + ts[1..] == ts;
    }
  }

  /// `print` is lexed as an identifier, not as a keyword.
  lemma PrintIsIdentifier()
    ensures Lex("print") == Ok([Token(IDENTIFIER, "print"), EofToken])
  {
    var s := "print";
    var e: string := [];
    assert s[..5] == s && s[5..] == e;
    assert IsWord(s[..5]);
    WordToken(s, 5);
    assert WordKind(s) == IDENTIFIER;
    assert Lex(s[5..]) == Lex(e) == Ok([EofToken]);
    assert [Token(IDENTIFIER, s)] + [EofToken] == [Token(IDENTIFIER, s), EofToken];
  }

  lemma LexTen()
    ensures Lex("10") == Ok([Token(NUMBER, "10"), EofToken])
  {
    var e: string := [];
    var ten := "10";
    assert ten[..2] == ten && ten[2..] == e;
    assert AllDigits(ten[..2]);
    NumberToken(ten, 2);
    assert Lex(ten[2..]) == Lex(e) == Ok([EofToken]);
    assert [Token(NUMBER, ten)] + [EofToken] == [Token(NUMBER, ten), EofToken];
  }

  lemma LexLessEqualTen()
    ensures Lex("<=10") == Ok([Token(LESS_EQUAL, "<="), Token(NUMBER, "10"), EofToken])
  {
    var ten := "10";
    LexTen();
    var cmp := "<=10";
    assert cmp == ['<', '='] + ten;
    OperatorTokens('<', ten);
    assert Lex(cmp) == Prepend([Token(LESS_EQUAL, "<=")], Lex(ten));
    var le, number, eof := Token(LESS_EQUAL, "<="), Token(NUMBER, "10"), EofToken;
    assert [le] + [number, eof] == [le, number, eof];
  }

  /// `x<=10` is three tokens: no whitespace is needed around an operator.
  lemma ComparisonExample()
    ensures Lex("x<=10") == Ok([Token(IDENTIFIER, "x"), Token(LESS_EQUAL, "<="), Token(NUMBER, "10"), EofToken])
  {
    LexLessEqualTen();
    IdentifierBeforeOperator();
    PrependToThree(Token(IDENTIFIER, "x"), Token(LESS_EQUAL, "<="), Token(NUMBER, "10"), EofToken);
  }

  lemma PrependToThree(t0: Token, t1: Token, t2: Token, t3: Token)
    ensures Prepend([t0], Ok([t1, t2, t3])) == Ok([t0, t1, t2, t3])
  {
    assert [t0] + [t1, t2, t3] == [t0, t1, t2, t3];
  }

  /// The word `x` ends where the operator `<=` starts.
  lemma IdentifierBeforeOperator()
    ensures Lex("x<=10") == Prepend([Token(IDENTIFIER, "x")], Lex("<=10"))
  {
    var s := "x<=10";
    assert s[..1] == "x" && s[1..] == "<=10";
    assert IsWord(s[..1]);
    WordToken(s, 1);
    assert WordKind("x") == IDENTIFIER;
  }

  /// `print(7)` and `print(x)`: a call of `print` on one digit or one letter is five tokens.
  lemma PrintCallExample(a: char)
    requires IsDigit(a) || IsLetter(a)
    ensures Lex("print(" + [a] + ")") ==
      Ok([Token(IDENTIFIER, "print"), Token(LPAREN, "("), Token(if IsDigit(a) then NUMBER else IDENTIFIER, [a]),
          Token(RPAREN, ")"), EofToken])
  {
    assert Lex("print(" + [a] + ")") == Lex("print" + (['('] + ([a] + ")"))) by {
      assert "print(" + [a] + ")" == "print" + (['('] + ([a] + ")"));
    }
    PrintCallPieces(a);
  }

  lemma PrintCallPieces(a: char)
    requires IsDigit(a) || IsLetter(a)
    ensures Lex("print" + (['('] + ([a] + ")"))) ==
      Ok([Token(IDENTIFIER, "print"), Token(LPAREN, "("), Token(if IsDigit(a) then NUMBER else IDENTIFIER, [a]),
          Token(RPAREN, ")"), EofToken])
  {
    var callee, lp, x, rp := Token(IDENTIFIER, "print"), Token(LPAREN, "("),
      Token(if IsDigit(a) then NUMBER else IDENTIFIER, [a]), Token(RPAREN, ")");
    var arg := [a] + ")";
    ArgumentThenClose(a);
    SingleCharToken('(', arg);
    assert SingleCharKind('(') == LPAREN;
    var call := ['('] + arg;
    PrintWordThen(call);
    PrependThree([callee], [lp], [x, rp, EofToken]);
    assert [callee] + [lp] + [x, rp, EofToken] == [callee, lp, x, rp, EofToken];
  }

  /// The word `print` ends at a following `(`.
  lemma PrintWordThen(rest: string)
    requires rest != [] && rest[0] == '('
    ensures Lex("print" + rest) == Prepend([Token(IDENTIFIER, "print")], Lex(rest))
  {
    var s := "print" + rest;
    assert s[..5] == "print" && s[5..] == rest;
    assert IsWord(s[..5]);
    WordToken(s, 5);
    assert WordKind("print") == IDENTIFIER;
  }

  lemma ArgumentThenClose(a: char)
    requires IsDigit(a) || IsLetter(a)
    ensures Lex([a] + ")") == Ok([Token(if IsDigit(a) then NUMBER else IDENTIFIER, [a]), Token(RPAREN, ")"), EofToken])
  {
    var e: string := [];
    var close := [')'] + e;
    var arg := [a] + close;
    assert arg[..1] == [a] && arg[1..] == close;
    var x := Token(if IsDigit(a) then NUMBER else IDENTIFIER, [a]);
    if IsDigit(a) {
      NumberToken(arg, 1);
    } else {
      assert IsWord(arg[..1]);
      WordToken(arg, 1);
      assert WordKind([a]) == IDENTIFIER;
    }
    assert Lex(arg) == Prepend([x], Lex(close));
    SingleCharToken(')', e);
    assert SingleCharKind(')') == RPAREN;
    assert Lex(e) == Ok([EofToken]);
    assert [Token(RPAREN, ")")] + [EofToken] == [Token(RPAREN, ")"), EofToken];
    assert Lex(close) == Ok([Token(RPAREN, ")"), EofToken]);
    assert [x] + [Token(RPAREN, ")"), EofToken] == [x, Token(RPAREN, ")"), EofToken];
  }

  /// `var x = 10 x = x + 1 print(x)`: statements need no separator, and the
  /// spaces only end the words and numbers.
  lemma IncrementExample()
    ensures Lex("var x = 10 x = x + 1 print(x)") ==
      Ok([Token(KEYWORD, "var"), Token(IDENTIFIER, "x"), Token(EQ, "="), Token(NUMBER, "10"),
          Token(IDENTIFIER, "x"), Token(EQ, "="), Token(IDENTIFIER, "x"), Token(PLUS, "+"), Token(NUMBER, "1"),
          Token(IDENTIFIER, "print"), Token(LPAREN, "("), Token(IDENTIFIER, "x"), Token(RPAREN, ")"), EofToken])
  {
    IncrementPieces();
    PrependThree([Token(KEYWORD, "var"), Token(IDENTIFIER, "x"), Token(EQ, "="), Token(NUMBER, "10")],
      [Token(IDENTIFIER, "x"), Token(EQ, "="), Token(IDENTIFIER, "x"), Token(PLUS, "+"), Token(NUMBER, "1")],
      [Token(IDENTIFIER, "print"), Token(LPAREN, "("), Token(IDENTIFIER, "x"), Token(RPAREN, ")"), EofToken]);
    IncrementTokens();
  }

  /// The three statements of the example, lexed one after the other.
  lemma IncrementPieces()
    ensures Lex("var x = 10 x = x + 1 print(x)") ==
      Prepend([Token(KEYWORD, "var"), Token(IDENTIFIER, "x"), Token(EQ, "="), Token(NUMBER, "10")],
        Prepend([Token(IDENTIFIER, "x"), Token(EQ, "="), Token(IDENTIFIER, "x"), Token(PLUS, "+"), Token(NUMBER, "1")],
          Ok([Token(IDENTIFIER, "print"), Token(LPAREN, "("), Token(IDENTIFIER, "x"), Token(RPAREN, ")"), EofToken])))
  {
    DeclarationLexes();
    AssignmentLexes();
    PrintXLexes();
  }

  lemma PrependThree(a: seq<Token>, b: seq<Token>, c: seq<Token>)
    ensures Prepend(a, Prepend(b, Ok(c))) == Ok(a + b + c)
  {
    PrependPrepend(a, b, Ok(c));
  }

  lemma IncrementTokens()
    ensures [Token(KEYWORD, "var"), Token(IDENTIFIER, "x"), Token(EQ, "="), Token(NUMBER, "10")] +
        [Token(IDENTIFIER, "x"), Token(EQ, "="), Token(IDENTIFIER, "x"), Token(PLUS, "+"), Token(NUMBER, "1")] +
        [Token(IDENTIFIER, "print"), Token(LPAREN, "("), Token(IDENTIFIER, "x"), Token(RPAREN, ")"), EofToken] ==
      [Token(KEYWORD, "var"), Token(IDENTIFIER, "x"), Token(EQ, "="), Token(NUMBER, "10"),
       Token(IDENTIFIER, "x"), Token(EQ, "="), Token(IDENTIFIER, "x"), Token(PLUS, "+"), Token(NUMBER, "1"),
       Token(IDENTIFIER, "print"), Token(LPAREN, "("), Token(IDENTIFIER, "x"), Token(RPAREN, ")"), EofToken]
  {
  }

  lemma PrintXLexes()
    ensures Lex("print(x)") ==
      Ok([Token(IDENTIFIER, "print"), Token(LPAREN, "("), Token(IDENTIFIER, "x"), Token(RPAREN, ")"), EofToken])
  {
    assert Lex("print(x)") == Lex("print(" + ['x'] + ")") by {
      assert "print(" + ['x'] + ")" == "print(x)";
    }
    PrintCallExample('x');
  }

  lemma DeclarationLexes()
    ensures Lex("var x = 10 x = x + 1 print(x)") ==
      Prepend([Token(KEYWORD, "var"), Token(IDENTIFIER, "x"), Token(EQ, "="), Token(NUMBER, "10")],
              Lex("x = x + 1 print(x)"))
  {
    assert Lex("var x = 10 x = x + 1 print(x)") == Lex("var x = 10 " + "x = x + 1 print(x)") by {
      assert "var x = 10 " + "x = x + 1 print(x)" == "var x = 10 x = x + 1 print(x)";
    }
    DeclarationText("x = x + 1 print(x)");
  }

  lemma AssignmentLexes()
    ensures Lex("x = x + 1 print(x)") ==
      Prepend([Token(IDENTIFIER, "x"), Token(EQ, "="), Token(IDENTIFIER, "x"), Token(PLUS, "+"), Token(NUMBER, "1")],
              Lex("print(x)"))
  {
    assert Lex("x = x + 1 print(x)") == Lex("x = x + 1 " + "print(x)") by {
      assert "x = x + 1 " + "print(x)" == "x = x + 1 print(x)";
    }
    AssignmentText("print(x)");
  }

  lemma DeclarationText(rest: string)
    ensures Lex("var x = 10 " + rest) ==
      Prepend([Token(KEYWORD, "var"), Token(IDENTIFIER, "x"), Token(EQ, "="), Token(NUMBER, "10")], Lex(rest))
  {
    var ts := [Token(KEYWORD, "var"), Token(IDENTIFIER, "x"), Token(EQ, "="), Token(NUMBER, "10")];
    assert IsWord("x") && WordKind("x") == IDENTIFIER && AllDigits("10");
    UnlexFour(ts[0], ts[1], ts[2], ts[3]);
    assert Unlex(ts) == "var x = 10 ";
    LexUnlexThen(ts, rest);
  }

  lemma AssignmentText(rest: string)
    ensures Lex("x = x + 1 " + rest) ==
      Prepend([Token(IDENTIFIER, "x"), Token(EQ, "="), Token(IDENTIFIER, "x"), Token(PLUS, "+"), Token(NUMBER, "1")], Lex(rest))
  {
    var ts := [Token(IDENTIFIER, "x"), Token(EQ, "="), Token(IDENTIFIER, "x"), Token(PLUS, "+"), Token(NUMBER, "1")];
    assert IsWord("x") && WordKind("x") == IDENTIFIER && AllDigits("1");
    UnlexFour(ts[1], ts[2], ts[3], ts[4]);
    assert ts[1..] == [ts[1], ts[2], ts[3], ts[4]];
    assert Unlex(ts) == "x = x + 1 ";
    LexUnlexThen(ts, rest);
  }

  lemma UnlexFour(a: Token, b: Token, c: Token, d: Token)
    ensures Unlex([a, b, c, d]) == a.text + " " + b.text + " " + c.text + " " + d.text + " "
  {
    assert [d][1..] == [] && Unlex([d]) == d.text + " ";
    assert [c, d][1..] == [d] && Unlex([c, d]) == c.text + " " + Unlex([d]);
    assert [b, c, d][1..] == [c, d] && Unlex([b, c, d]) == b.text + " " + Unlex([c, d]);
    assert [a, b, c, d][1..] == [b, c, d];
  }

  /// A `!` that is not followed by `=` stops the scan.
  lemma LoneBangExample()
    ensures Lex("a !b") == Err(UnexpectedCharacter('!'))
  {
    var bang := "!b";
    assert bang == ['!'] + "b";
    OperatorTokens('!', "b");
    var s := "a !b";
    assert s[..1] == "a" && s[1..] == " !b" && " !b"[1..] == bang;
    assert Lex(" !b") == Lex(bang);
    assert IsWord(s[..1]);
    WordToken(s, 1);
  }
}
