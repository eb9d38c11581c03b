/// Java `int` arithmetic and the two conversions between `int` and decimal text
/// the pipeline relies on: `Integer.parseInt` (src/Parser.java:43) and the decimal
/// form `System.out.println(int)` writes (src/Interpreter.java:36).

module JavaInt {
  import opened Errors

  const INT_MIN: int := -0x8000_0000
  const INT_MAX: int := 0x7fff_ffff
  const MODULUS: int := 0x1_0000_0000

  /// The values of a Java `int`.
  type int32 = x: int | INT_MIN <= x <= INT_MAX

  function Abs(x: int): nat { if x < 0 then -x else x }

  /// Two's-complement wrap-around: the unique `int` congruent to `x` modulo 2^32.
  function Wrap(x: int): (r: int32)
    ensures (x - r) % MODULUS == 0
    ensures INT_MIN <= x <= INT_MAX ==> r == x
  {
    var m := x % MODULUS;
    if m <= INT_MAX then m else m - MODULUS
  }

  /// Integer division rounding toward zero, as Java's `/` does (Dafny's `/` is Euclidean).
  function TruncDiv(a: int, b: int): (q: int)
    requires b != 0
    ensures Abs(q) * Abs(b) <= Abs(a) < Abs(q) * Abs(b) + Abs(b)
    ensures q == 0 || ((q < 0) <==> ((a < 0) != (b < 0)))
  {
    var m := Abs(a) / Abs(b);
    DivisionBounds(Abs(a), Abs(b));
    if (a < 0) == (b < 0) then m else -m
  }

  /// Euclidean division of naturals: the quotient times the divisor is at most
  /// the dividend, and less than one more divisor away from it.
  lemma DivisionBounds(n: nat, k: nat)
    requires k > 0
    ensures (n / k) * k <= n < (n / k) * k + k
  {
    assert n == (n / k) * k + n % k;
  }

  /// The remainder that goes with TruncDiv: it takes the sign of the dividend.
  function TruncRem(a: int, b: int): (r: int)
    requires b != 0
    ensures a == TruncDiv(a, b) * b + r
    ensures Abs(r) < Abs(b)
    ensures r == 0 || ((r < 0) <==> (a < 0))
  {
    var q := TruncDiv(a, b);
    assert Abs(q * b) == Abs(q) * Abs(b) by { AbsMul(q, b); }
    a - q * b
  }

  lemma AbsMul(x: int, y: int)
    ensures Abs(x * y) == Abs(x) * Abs(y)
  {
    if x < 0 && y < 0 {
      assert x * y == (-x) * (-y);
    } else if x < 0 {
      assert -(x * y) == (-x) * y;
    } else if y < 0 {
      assert -(x * y) == x * (-y);
    }
  }

  /// Any two `int`s congruent modulo 2^32 are equal: Wrap picks the only candidate.
  lemma WrapUnique(x: int, r: int32)
    requires (x - r) % MODULUS == 0
    ensures r == Wrap(x)
  {
    var w := Wrap(x);
    var d := r - w;
    assert d % MODULUS == 0 by {
      assert (x - w) % MODULUS == 0;
      assert d == (x - w) - (x - r);
      SameRemainder(x - w, x - r);
    }
    assert -MODULUS < d < MODULUS;
  }

  /// The difference of two multiples of MODULUS is a multiple of MODULUS.
  lemma SameRemainder(u: int, v: int)
    requires u % MODULUS == 0 && v % MODULUS == 0
    ensures (u - v) % MODULUS == 0
  {
    assert u == (u / MODULUS) * MODULUS && v == (v / MODULUS) * MODULUS;
    assert u - v == (u / MODULUS - v / MODULUS) * MODULUS;
  }

  /// Java `a + b`, `a - b` and `a * b` on `int`.
  function Add(a: int32, b: int32): int32 { Wrap(a + b) }
  function Sub(a: int32, b: int32): int32 { Wrap(a - b) }
  function Mul(a: int32, b: int32): int32 { Wrap(a * b) }

  /// `+`, `-` and `*` give the exact result when it fits in an `int`, and
  /// otherwise the one `int` that differs from it by a multiple of 2^32.
  lemma ArithmeticWraps(a: int32, b: int32, r: int32)
    ensures (a + b - Add(a, b)) % MODULUS == 0 && (INT_MIN <= a + b <= INT_MAX ==> Add(a, b) == a + b)
    ensures (a - b - Sub(a, b)) % MODULUS == 0 && (INT_MIN <= a - b <= INT_MAX ==> Sub(a, b) == a - b)
    ensures (a * b - Mul(a, b)) % MODULUS == 0 && (INT_MIN <= a * b <= INT_MAX ==> Mul(a, b) == a * b)
    ensures (a + b - r) % MODULUS == 0 ==> r == Add(a, b)
    ensures (a - b - r) % MODULUS == 0 ==> r == Sub(a, b)
    ensures (a * b - r) % MODULUS == 0 ==> r == Mul(a, b)
  {
    if (a + b - r) % MODULUS == 0 { WrapUnique(a + b, r); }
    if (a - b - r) % MODULUS == 0 { WrapUnique(a - b, r); }
    if (a * b - r) % MODULUS == 0 { WrapUnique(a * b, r); }
  }

  /// Java `a / b` on `int`: throws on a zero divisor, and only INT_MIN / -1 overflows.
  function Div(a: int32, b: int32): (r: Result<int32>)
    ensures b == 0 <==> r.Err?
    ensures r.Err? ==> r.error == DivideByZero
    ensures r.Ok? && !(a == INT_MIN && b == -1) ==> r.value == TruncDiv(a, b)
    ensures a == INT_MIN && b == -1 ==> r == Ok(INT_MIN)
  {
    if b == 0 then Err(DivideByZero)
    else
      TruncDivRange(a, b);
      Ok(Wrap(TruncDiv(a, b)))
  }

  /// The quotient of two `int`s fits in an `int` except for INT_MIN / -1.
  lemma TruncDivRange(a: int32, b: int32)
    requires b != 0
    ensures !(a == INT_MIN && b == -1) ==> INT_MIN <= TruncDiv(a, b) <= INT_MAX
  {
    var m := Abs(a) / Abs(b);
    assert m * Abs(b) <= Abs(a);
    assert m <= Abs(a) by { MulAtLeastOne(m, Abs(b)); }
    if m == -INT_MIN && Abs(b) >= 2 {
      MulAtLeastTwo(m, Abs(b));
    }
  }

  lemma MulAtLeastOne(m: nat, k: nat)
    requires k >= 1
    ensures m <= m * k
  {
  }

  lemma MulAtLeastTwo(m: nat, k: nat)
    requires k >= 2
    ensures m + m <= m * k
  {
    assert m * k == m * (k - 2) + m + m;
  }

  /// Java `a % b` on `int`: throws on a zero divisor; the result never overflows.
  function Rem(a: int32, b: int32): (r: Result<int32>)
    ensures b == 0 <==> r.Err?
    ensures r.Err? ==> r.error == DivideByZero
    ensures r.Ok? ==> Abs(r.value) < Abs(b) && (r.value == 0 || ((r.value < 0) <==> (a < 0)))
  {
    if b == 0 then Err(DivideByZero) else Ok(TruncRem(a, b))
  }

  // ---------------------------------------------------------------------------
  // Decimal text

  predicate IsDigit(c: char) { '0' <= c <= '9' }

  predicate AllDigits(s: string) { forall i :: 0 <= i < |s| ==> IsDigit(s[i]) }

  function DigitChar(d: int): (c: char)
    requires 0 <= d < 10
    ensures IsDigit(c)
  {
    ('0' as int + d) as char
  }

  function DigitValue(c: char): (d: nat)
    requires IsDigit(c)
    ensures d < 10
  {
    c as int - '0' as int
  }

  /// The value of a run of decimal digits, read most significant digit first.
  function DigitsValue(s: string): nat
    requires AllDigits(s)
  {
    if s == [] then 0 else 10 * DigitsValue(s[..|s| - 1]) + DigitValue(s[|s| - 1])
  }

  /// The shortest decimal digit string of a natural number.
  function DecimalDigits(n: nat): (s: string)
    ensures |s| > 0 && AllDigits(s)
    ensures |s| > 1 ==> s[0] != '0'
  {
    if n < 10 then [DigitChar(n)] else DecimalDigits(n / 10) + [DigitChar(n % 10)]
  }

  /// Java's `Integer.toString(n)`: a minus sign for negative values, then the digits.
  function ToDecimal(n: int): string
  {
    if n < 0 then "-" + DecimalDigits(-n) else DecimalDigits(n)
  }

  /// The text of `n` has a minus sign exactly when `n` is negative, followed by
  /// the shortest run of digits whose value is the magnitude of `n`.
  lemma DecimalForm(n: int)
    ensures var s := ToDecimal(n); s != [] && (s[0] == '-' <==> n < 0)
    ensures var s := ToDecimal(n); var digits := if n < 0 then s[1..] else s;
      digits != [] && AllDigits(digits) && DigitsValue(digits) == Abs(n) &&
      (|digits| > 1 ==> digits[0] != '0')
  {
    DigitsRoundTrip(Abs(n));
    if n < 0 {
      assert ToDecimal(n)[1..] == DecimalDigits(-n);
    }
  }

  datatype Option<+T> = None | Some(value: T)

  /// The value of `s` read as decimal digits, or None when some character is
  /// not a digit (the empty string reads as 0).
  function DecimalValue(s: string): Option<nat>
  {
    if s == [] then Some(0)
    else
      match DecimalValue(s[..|s| - 1])
      case None => None
      case Some(m) => if IsDigit(s[|s| - 1]) then Some(10 * m + DigitValue(s[|s| - 1])) else None
  }

  lemma {:induction false} DecimalValueOfDigits(s: string)
    ensures DecimalValue(s).Some? <==> AllDigits(s)
    ensures DecimalValue(s).Some? ==> DecimalValue(s).value == DigitsValue(s)
  {
    if s != [] {
      var init := s[..|s| - 1];
      DecimalValueOfDigits(init);
      assert AllDigits(s) ==> AllDigits(init) by {
        if AllDigits(s) {
          forall i | 0 <= i < |init| ensures IsDigit(init[i]) {
            assert init[i] == s[i];
          }
        }
      }
      assert AllDigits(init) && IsDigit(s[|s| - 1]) ==> AllDigits(s) by {
        if AllDigits(init) && IsDigit(s[|s| - 1]) {
          forall i | 0 <= i < |s| ensures IsDigit(s[i]) {
            if i < |s| - 1 { assert s[i] == init[i]; }
          }
        }
      }
    }
  }

  /// Java's `Integer.parseInt(s)` (radix 10): an optional sign, at least one digit,
  /// nothing else, and a value inside the `int` range; anything else throws
  /// NumberFormatException.
  function ParseInt(s: string): (r: Result<int32>)
    ensures r.Err? ==> r.error == NumberFormat(s)
  {
    if s == [] then Err(NumberFormat(s))
    else
      var body := if s[0] == '-' || s[0] == '+' then s[1..] else s;
      if body == [] then Err(NumberFormat(s))
      else
        match DecimalValue(body)
        case None => Err(NumberFormat(s))
        case Some(magnitude) =>
          var v: int := if s[0] == '-' then -(magnitude as int) else magnitude;
          if INT_MIN <= v <= INT_MAX then Ok(v) else Err(NumberFormat(s))
  }

  /// On a non-empty string of digits, parseInt succeeds exactly when the value
  /// fits in an `int`, and then returns that value.
  lemma ParseIntOfDigits(s: string)
    requires s != [] && AllDigits(s)
    ensures ParseInt(s).Ok? <==> DigitsValue(s) <= INT_MAX
    ensures ParseInt(s).Ok? ==> ParseInt(s).value == DigitsValue(s)
  {
    DecimalValueOfDigits(s);
    assert IsDigit(s[0]);
  }

  /// parseInt accepts only an optional sign followed by one or more digits.
  lemma ParseIntShape(s: string)
    requires ParseInt(s).Ok?
    ensures s != [] && var body := if s[0] == '-' || s[0] == '+' then s[1..] else s;
      body != [] && AllDigits(body)
  {
    var body := if s[0] == '-' || s[0] == '+' then s[1..] else s;
    DecimalValueOfDigits(body);
  }

  lemma {:induction false} DigitsRoundTrip(n: nat)
    ensures DigitsValue(DecimalDigits(n)) == n
  {
    if n >= 10 {
      var s := DecimalDigits(n);
      assert s[..|s| - 1] == DecimalDigits(n / 10);
      DigitsRoundTrip(n / 10);
    }
  }

  /// The decimal text a print statement writes is read back by `Integer.parseInt`
  /// as the same value, for every `int`.
  lemma ParseIntOfDecimal(n: int32)
    ensures ParseInt(ToDecimal(n)) == Ok(n)
  {
    var s := ToDecimal(n);
    var digits := DecimalDigits(Abs(n));
    DigitsRoundTrip(Abs(n));
    DecimalValueOfDigits(digits);
    if n < 0 {
      assert s[1..] == digits;
    }
  }

  /// Examples of what parseInt accepts and rejects.
  lemma ParseIntExamples()
    ensures ParseInt("+7") == Ok(7) && ParseInt("-7") == Ok(-7) && ParseInt("007") == Ok(7)
    ensures ParseInt("") == Err(NumberFormat("")) && ParseInt("-") == Err(NumberFormat("-"))
    ensures ParseInt("1a") == Err(NumberFormat("1a")) && ParseInt("--1") == Err(NumberFormat("--1"))
  {
    assert "+7"[1..] == "7" && "-7"[1..] == "7" && "--1"[1..] == "-1";
    assert "7"[..0] == "" && DecimalValue("7") == Some(7);
    assert "0"[..0] == "" && DecimalValue("0") == Some(0);
    assert "00"[..1] == "0" && DecimalValue("00") == Some(0);
    assert "007"[..2] == "00" && DecimalValue("007") == Some(7);
    assert "1a"[..1] == "1" && DecimalValue("1a") == None;
    assert "-1"[..1] == "-" && DecimalValue("-1") == None;
  }

  /// Java's wrap-around at the edges of the range, and truncating division.
  lemma JavaArithmeticExamples()
    ensures Add(INT_MAX as int32, 1) == INT_MIN
    ensures Sub(INT_MIN as int32, 1) == INT_MAX
    ensures Mul(0x10000, 0x10000) == 0
    ensures Div(7, 2) == Ok(3) && Div(-7, 2) == Ok(-3)
    ensures Rem(-7, 2) == Ok(-1) && Rem(7, -2) == Ok(1)
    ensures Div(INT_MIN as int32, -1) == Ok(INT_MIN as int32)
    ensures Rem(INT_MIN as int32, -1) == Ok(0)
    ensures Div(5, 0) == Err(DivideByZero)
  {
  }
}
