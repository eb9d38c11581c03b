/// The lexer (src/Lexer.java): one left-to-right scan with one character of
/// lookahead, turning source text into tokens that end with one EOF token.
///
/// `Lex` is the specification: it reads a string from its first character and
/// says what tokens the rest of the scan produces. `Lexer.Tokenize` is the scan
/// as the source writes it, proved to compute `Lex`.

module Lexing {
  import opened Tokens
  import opened Errors
  import opened JavaInt

  // Character classes, restricted to ASCII (see README).

  predicate IsLetter(c: char) { 'a' <= c <= 'z' || 'A' <= c <= 'Z' }

  predicate IsLetterOrDigit(c: char) { IsLetter(c) || IsDigit(c) }

  /// `Character.isWhitespace` on ASCII: space, tab, line feed, vertical tab, form
  /// feed, carriage return and the four separators U+001C..U+001F.
  predicate IsWhitespace(c: char)
  {
    c == ' ' || '\t' <= c <= '\r' || '\U{1C}' <= c <= '\U{1F}'
  }

  /// The characters that make a token of their own.
  predicate IsSingleChar(c: char)
  {
    c == '+' || c == '-' || c == '*' || c == '/' || c == '%' ||
    c == '(' || c == ')' || c == '{' || c == '}'
  }

  function SingleCharKind(c: char): TokenType
    requires IsSingleChar(c)
  {
    match c
    case '+' => PLUS
    case '-' => MINUS
    case '*' => STAR
    case '/' => SLASH
    case '%' => PERCENT
    case '(' => LPAREN
    case ')' => RPAREN
    case '{' => LBRACE
    case '}' => RBRACE
  }

  /// `var`, `while` and `if` are keywords and `break` has its own kind; every
  /// other word, `print` included, is an identifier.
  function WordKind(word: string): TokenType
  {
    if word == "var" || word == "while" || word == "if" then KEYWORD
    else if word == "break" then BREAK
    else IDENTIFIER
  }

  /// Length of the longest prefix of `s` made of digits.
  function DigitRun(s: string): (n: nat)
    ensures n <= |s| && AllDigits(s[..n])
    ensures n < |s| ==> !IsDigit(s[n])
  {
    if s != [] && IsDigit(s[0]) then
      var n := 1 + DigitRun(s[1..]);
      assert s[..n] == [s[0]] + s[1..][..n - 1];
      n
    else 0
  }

  predicate IsWord(s: string) { forall i :: 0 <= i < |s| ==> IsLetterOrDigit(s[i]) }

  /// Length of the longest prefix of `s` made of letters and digits.
  function WordRun(s: string): (n: nat)
    ensures n <= |s| && IsWord(s[..n])
    ensures n < |s| ==> !IsLetterOrDigit(s[n])
  {
    if s != [] && IsLetterOrDigit(s[0]) then
      var n := 1 + WordRun(s[1..]);
      assert s[..n] == [s[0]] + s[1..][..n - 1];
      n
    else 0
  }

  /// Puts `ts` in front of the tokens of a successful scan; a failure stays a failure.
  function Prepend(ts: seq<Token>, r: Result<seq<Token>>): Result<seq<Token>>
  {
    if r.Ok? then Ok(ts + r.value) else r
  }

  lemma PrependPrepend(a: seq<Token>, b: seq<Token>, r: Result<seq<Token>>)
    ensures Prepend(a, Prepend(b, r)) == Prepend(a + b, r)
  {
    if r.Ok? { assert a + (b + r.value) == (a + b) + r.value; }
  }

  lemma PrependNothing(r: Result<seq<Token>>)
    ensures Prepend([], r) == r
  {
    if r.Ok? { assert [] + r.value == r.value; }
  }

  predicate EndsWithSingleEof(ts: seq<Token>)
  {
    |ts| > 0 && ts[|ts| - 1] == EofToken && forall i :: 0 <= i < |ts| - 1 ==> ts[i].kind != EOF
  }

  /// What one iteration of the scan does with the characters in front of it:
  /// emit a token that spelled out the first `width` characters, skip one
  /// whitespace character, or reject the first character.
  datatype Scanned = Emit(token: Token, width: nat) | Skip | Reject(c: char)

  /// One iteration of the scan over the non-empty rest `s` of the input.
  function ScanOne(s: string): (r: Scanned)
    requires s != []
    ensures r.Emit? ==> 0 < r.width <= |s| && r.token.text == s[..r.width] && r.token.kind != EOF
    ensures r.Skip? <==> IsWhitespace(s[0])
    ensures r.Reject? ==> r.c == s[0]
  {
    var c := s[0];
    var twoChar := |s| > 1 && s[1] == '=';
    if IsDigit(c) then
      var n := DigitRun(s);
      Emit(Token(NUMBER, s[..n]), n)
    else if IsLetter(c) then
      var n := WordRun(s);
      Emit(Token(WordKind(s[..n]), s[..n]), n)
    else if IsSingleChar(c) then
      Emit(Token(SingleCharKind(c), [c]), 1)
    else if c == '=' then
      if twoChar then Emit(Token(EQUAL_EQUAL, "=="), 2) else Emit(Token(EQ, "="), 1)
    else if c == '!' then
      if twoChar then Emit(Token(BANG_EQUAL, "!="), 2) else Reject(c)
    else if c == '<' then
      if twoChar then Emit(Token(LESS_EQUAL, "<="), 2) else Emit(Token(LESS_THAN, "<"), 1)
    else if c == '>' then
      if twoChar then Emit(Token(GREATER_EQUAL, ">="), 2) else Emit(Token(GREATER_THAN, ">"), 1)
    else if IsWhitespace(c) then
      Skip
    else
      Reject(c)
  }

  /// The tokens of `s`, or the first character the scan cannot accept.
  function Lex(s: string): (r: Result<seq<Token>>)
    ensures r.Ok? ==> EndsWithSingleEof(r.value)
    decreases |s|
  {
    if s == [] then Ok([EofToken])
    else
      match ScanOne(s)
      case Emit(t, n) => Prepend([t], Lex(s[n..]))
      case Skip => Lex(s[1..])
      case Reject(c) => Err(UnexpectedCharacter(c))
  }

  class Lexer {
    const input: string
    var position: nat

    ghost predicate Valid()
      reads this
    {
      position <= |input|
    }

    constructor (input: string)
      ensures this.input == input && position == 0 && Valid()
    {
      this.input := input;
      position := 0;
    }

    /// The current character, or '\0' past the end of the input.
    function Peek(): (c: char)
      reads this
      ensures position < |input| ==> c == input[position]
      ensures position >= |input| ==> c == '\0'
    {
      if position < |input| then input[position] else '\0'
    }

    /// The character after the current one, or '\0' past the end of the input.
    function PeekNext(): (c: char)
      reads this
      ensures position + 1 < |input| ==> c == input[position + 1]
      ensures position + 1 >= |input| ==> c == '\0'
    {
      if position + 1 < |input| then input[position + 1] else '\0'
    }

    method Advance() returns (c: char)
      modifies this
      ensures c == old(Peek()) && position == old(position) + 1
    {
      c := Peek();
      position := position + 1;
    }

    /// Scans the input from the current position to its end.
    method Tokenize() returns (r: Result<seq<Token>>)
      requires Valid()
      modifies this
      ensures r == Lex(input[old(position)..])
      ensures r.Ok? ==> position == |input|
    {
      var tokens: seq<Token> := [];
      ghost var p0 := position;
      PrependNothing(Lex(input[p0..]));
      while position < |input|
        invariant p0 <= position <= |input|
        invariant Lex(input[p0..]) == Prepend(tokens, Lex(input[position..]))
        decreases |input| - position
      {
        ghost var rest := input[position..];
        var scanned := ScanToken();
        match scanned
        case Reject(c) =>
          return Err(UnexpectedCharacter(c));
        case Skip =>
          assert input[position..] == rest[1..];
        case Emit(token, width) =>
          assert input[position..] == rest[width..];
          PrependPrepend(tokens, [token], Lex(input[position..]));
          tokens := tokens + [token];
      }
      r := Ok(tokens + [EofToken]);
    }

    /// The body of the scanning loop: classifies the current character and
    /// consumes the characters of the token it starts.
    method ScanToken() returns (scanned: Scanned)
      requires position < |input|
      modifies this
      ensures scanned == ScanOne(input[old(position)..])
      ensures scanned.Emit? ==> position == old(position) + scanned.width
      ensures scanned.Skip? ==> position == old(position) + 1
    {
      ghost var rest := input[position..];
      var currentChar := Peek();
      if IsDigit(currentChar) {
        var number := ReadRun(true);
        assert number == rest[..|number|];
        scanned := Emit(Token(NUMBER, number), |number|);
      } else if IsLetter(currentChar) {
        var identifier := ReadRun(false);
        assert identifier == rest[..|identifier|];
        scanned := Emit(Token(WordKind(identifier), identifier), |identifier|);
      } else if IsSingleChar(currentChar) {
        var c := Advance();
        scanned := Emit(Token(SingleCharKind(c), [c]), 1);
      } else if currentChar == '=' {
        if PeekNext() == '=' {
          scanned := Emit(Token(EQUAL_EQUAL, "=="), 2);
          var _ := Advance();
          var _ := Advance();
        } else {
          var c := Advance();
          scanned := Emit(Token(EQ, [c]), 1);
        }
      } else if currentChar == '!' {
        if PeekNext() == '=' {
          scanned := Emit(Token(BANG_EQUAL, "!="), 2);
          var _ := Advance();
          var _ := Advance();
        } else {
          scanned := Reject(currentChar);
        }
      } else if currentChar == '<' {
        if PeekNext() == '=' {
          scanned := Emit(Token(LESS_EQUAL, "<="), 2);
          var _ := Advance();
          var _ := Advance();
        } else {
          scanned := Emit(Token(LESS_THAN, "<"), 1);
          var _ := Advance();
        }
      } else if currentChar == '>' {
        if PeekNext() == '=' {
          scanned := Emit(Token(GREATER_EQUAL, ">="), 2);
          var _ := Advance();
          var _ := Advance();
        } else {
          scanned := Emit(Token(GREATER_THAN, ">"), 1);
          var _ := Advance();
        }
      } else if IsWhitespace(currentChar) {
        var _ := Advance();
        scanned := Skip;
      } else {
        scanned := Reject(currentChar);
      }
    }

    /// The `StringBuilder` loops: consumes the longest run of digits (`digits`)
    /// or of letters and digits (otherwise) starting at the current position.
    method ReadRun(digits: bool) returns (run: string)
      requires position <= |input|
      modifies this
      ensures old(position) <= position <= |input|
      ensures run == input[old(position)..position]
      ensures |run| == if digits then DigitRun(input[old(position)..]) else WordRun(input[old(position)..])
    {
      ghost var start := position;
      ghost var rest := input[position..];
      run := "";
      while if digits then IsDigit(Peek()) else IsLetterOrDigit(Peek())
        invariant start <= position <= |input|
        invariant run == input[start..position]
        invariant digits ==> DigitRun(rest) == (position - start) + DigitRun(input[position..])
        invariant !digits ==> WordRun(rest) == (position - start) + WordRun(input[position..])
        decreases |input| - position
      {
        var c := Advance();
        run := run + [c];
      }
    }
  }
}
