/** Decimal numerals: Python's `int()` restricted to ASCII digit strings, and
    the zero-padded rendering `strftime` uses for years, months and days. */
module Numeric {
  import opened Wrappers

  /** A JSON field that may arrive either as a number or as a string. */
  datatype Scalar = Int(n: int) | Str(s: string)

  predicate IsDigit(c: char) {
    '0' <= c <= '9'
  }

  predicate IsDigits(s: string) {
    forall i :: 0 <= i < |s| ==> IsDigit(s[i])
  }

  function DigitValue(c: char): nat
    requires IsDigit(c)
  {
    c as int - '0' as int
  }

  function DigitChar(d: nat): (c: char)
    requires d < 10
    ensures IsDigit(c) && DigitValue(c) == d
  {
    ('0' as int + d) as char
  }

  /** The number a digit string denotes (leading zeros allowed, as in `int("007")`). */
  function Value(s: string): nat
    requires IsDigits(s)
    decreases |s|
  {
    if |s| == 0 then 0 else Value(s[..|s| - 1]) * 10 + DigitValue(s[|s| - 1])
  }

  function Pow10(n: nat): (r: nat)
    ensures r >= 1
  {
    if n == 0 then 1 else 10 * Pow10(n - 1)
  }

  /** `int(s)` on a string: a non-empty run of ASCII digits, or ValueError. */
  function ParseInt(s: string): (r: Result<int>)
    ensures r.Success? <==> |s| > 0 && IsDigits(s)
    ensures r.Success? ==> r.value >= 0
    ensures r.Failure? ==> r.error == ValueError
  {
    if |s| > 0 && IsDigits(s) then Success(Value(s)) else Failure(ValueError)
  }

  /** `int(x)` on a field that is a number or a string. */
  function PyInt(x: Scalar): Result<int> {
    match x
    case Int(n) => Success(n)
    case Str(s) => ParseInt(s)
  }

  /** The canonical decimal numeral of `n`: no leading zero except for 0 itself. */
  function Render(n: nat): (r: string)
    ensures |r| > 0 && IsDigits(r)
    ensures r[0] == '0' ==> r == "0"
    ensures Value(r) == n
    decreases n
  {
    if n < 10 then [DigitChar(n)]
    else
      var r := Render(n / 10) + [DigitChar(n % 10)];
      assert r[..|r| - 1] == Render(n / 10);
      r
  }

  function Zeros(k: nat): (r: string)
    ensures |r| == k && IsDigits(r) && Value(r) == 0
  {
    if k == 0 then [] else
      var r := Zeros(k - 1) + ['0'];
      assert r[..|r| - 1] == Zeros(k - 1);
      r
  }

  /** `n` rendered with zeros on the left up to `width` digits, like `%04d`. */
  function Padded(n: nat, width: nat): (r: string)
    ensures |r| == (if |Render(n)| < width then width else |Render(n)|) && IsDigits(r)
    ensures Value(r) == n
  {
    var d := Render(n);
    var r := Zeros(if |d| < width then width - |d| else 0) + d;
    ValueAppend(Zeros(if |d| < width then width - |d| else 0), d);
    r
  }

  /** Appending digits multiplies the value of the prefix by a power of ten. */
  lemma {:induction false} ValueAppend(a: string, b: string)
    requires IsDigits(a) && IsDigits(b)
    ensures IsDigits(a + b)
    ensures Value(a + b) == Value(a) * Pow10(|b|) + Value(b)
    decreases |b|
  {
    if |b| == 0 {
      assert a + b == a;
    } else {
      var b' := b[..|b| - 1];
      ValueAppend(a, b');
      assert (a + b)[..|a + b| - 1] == a + b';
      ShiftDigit(Value(a), Pow10(|b'|), Value(b'), DigitValue(b[|b| - 1]));
    }
  }

  lemma ShiftDigit(v: int, p: int, w: int, d: int)
    ensures (v * p + w) * 10 + d == v * (p * 10) + (w * 10 + d)
  {
  }

  /** `int()` reads back every canonical numeral. */
  lemma ParseRender(n: nat)
    ensures ParseInt(Render(n)) == Success(n)
  {
  }

  /** A numeral that does not start with 0 denotes a positive number. */
  lemma {:induction false} LeadingDigitPositive(s: string)
    requires |s| > 0 && IsDigits(s) && s[0] != '0'
    ensures Value(s) > 0
    decreases |s|
  {
    if |s| == 1 {
      assert s[..0] == [];
    } else {
      LeadingDigitPositive(s[..|s| - 1]);
    }
  }

  lemma DivMod10(a: nat, d: nat)
    requires d < 10
    ensures (a * 10 + d) / 10 == a && (a * 10 + d) % 10 == d
  {
  }

  /** Rendering is the inverse of reading on canonical numerals. */
  lemma {:induction false} RenderValue(s: string)
    requires |s| > 0 && IsDigits(s)
    requires s[0] == '0' ==> s == "0"
    ensures Render(Value(s)) == s
    decreases |s|
  {
    if |s| > 1 {
      var s', c := s[..|s| - 1], s[|s| - 1];
      RenderValue(s');
      LeadingDigitPositive(s');
      DivMod10(Value(s'), DigitValue(c));
      assert s == s' + [c];
    }
  }
}
