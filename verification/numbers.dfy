/** Integer text in both directions, the numeric-literal grammar of expression
    tokens, and Python's floored remainder. */
module Numbers {

  predicate IsDigit(c: char) {
    '0' <= c <= '9'
  }

  predicate AllDigits(s: string) {
    forall i :: 0 <= i < |s| ==> IsDigit(s[i])
  }

  /** The regular expression `\d+` over ASCII digits. */
  predicate IsDigitRun(s: string) {
    s != [] && AllDigits(s)
  }

  function DigitValue(c: char): nat
    requires IsDigit(c)
  {
    c as int - '0' as int
  }

  function DigitChar(d: nat): (c: char)
    requires d < 10
    ensures IsDigit(c) && DigitValue(c) == d
  {
    ('0' as int + d) as char
  }

  /** The value of a run of decimal digits, most significant first. */
  function DigitsValue(s: string): nat
    requires AllDigits(s)
  {
    if s == [] then 0 else 10 * DigitsValue(s[..|s| - 1]) + DigitValue(s[|s| - 1])
  }

  /** The token without its leading minus sign, if it has one. */
  function Unsigned(t: string): string {
    if |t| > 0 && t[0] == '-' then t[1..] else t
  }

  /** `-?\d+`: the literals the evaluator reads with `int(token)`. */
  predicate IsIntLiteral(t: string) {
    IsDigitRun(Unsigned(t))
  }

  /** `\d+\.\d+` */
  predicate IsDecimalFraction(u: string) {
    exists i :: 0 < i < |u| - 1 && u[i] == '.' && IsDigitRun(u[..i]) && IsDigitRun(u[i + 1..])
  }

  /** `^-?\d+(\.\d+)?$`: the numeric literals of the expression language. */
  predicate IsNumericLiteral(t: string) {
    IsIntLiteral(t) || IsDecimalFraction(Unsigned(t))
  }

  /** The evaluator decides between `float(token)` and `int(token)` by looking
      for a `.`; on a numeric literal that test is exactly "not an integer
      literal", so `int(token)` is only ever applied to `-?\d+`. */
  lemma DotSeparatesLiterals(t: string)
    requires IsNumericLiteral(t)
    ensures '.' in t <==> !IsIntLiteral(t)
  {
    var u := Unsigned(t);
    assert t == u || t == "-" + u;
    if IsIntLiteral(t) {
      assert '.' !in u by {
        forall i | 0 <= i < |u| ensures u[i] != '.' {
          assert IsDigit(u[i]);
        }
      }
    } else {
      var i :| 0 < i < |u| - 1 && u[i] == '.' && IsDigitRun(u[..i]) && IsDigitRun(u[i + 1..]);
      assert '.' in u;
    }
  }

  /** `int(token)` for a token matching `-?\d+`. */
  function ParseInt(t: string): int
    requires IsIntLiteral(t)
  {
    if t[0] == '-' then -(DigitsValue(t[1..]) as int) else DigitsValue(t)
  }

  /** Decimal text of a natural number, without leading zeros. */
  function NatText(n: nat): (r: string)
    ensures IsDigitRun(r) && DigitsValue(r) == n
    ensures r[0] == '0' ==> r == "0"
  {
    if n < 10 then [DigitChar(n)]
    else
      var r := NatText(n / 10) + [DigitChar(n % 10)];
      assert r[..|r| - 1] == NatText(n / 10);
      r
  }

  /** Python's `str(n)` for an integer. Its text is an integer literal that
      reads back as `n`, and it carries no leading zeros. */
  function IntToString(n: int): (r: string)
    ensures IsIntLiteral(r) && ParseInt(r) == n
    ensures '.' !in r
    ensures r[0] != '-' <==> n >= 0
    ensures Unsigned(r)[0] == '0' ==> r == "0"
  {
    if n < 0 then
      var r := "-" + NatText(-n);
      assert r[1..] == NatText(-n);
      r
    else NatText(n)
  }

  /** `str(n)` is written with digits only, after an optional leading minus
      sign, and ends in a digit. */
  lemma IntTextChars(n: int)
    ensures var t := IntToString(n);
      && (forall i :: 0 <= i < |t| ==> IsDigit(t[i]) || (i == 0 && t[i] == '-'))
      && IsDigit(t[|t| - 1])
  {
    var t := IntToString(n);
    var u := Unsigned(t);
    assert IsDigitRun(u);
    if t[0] == '-' {
      assert forall i :: 1 <= i < |t| ==> t[i] == u[i - 1];
    }
  }

  /** Python's `a // b`: the quotient rounded towards minus infinity. */
  function FloorDiv(a: int, b: int): int
    requires b != 0
  {
    if b < 0 && a % b != 0 then a / b - 1 else a / b
  }

  /** Python's `a % b` on integers: the remainder takes the sign of the
      divisor (Dafny's own `%` is Euclidean and never negative). The range
      and the division identity single out that remainder. */
  function FloorMod(a: int, b: int): (r: int)
    requires b != 0
    ensures b > 0 ==> 0 <= r < b
    ensures b < 0 ==> b < r <= 0
    ensures a == b * FloorDiv(a, b) + r
  {
    var e := a % b;
    var q := a / b;
    assert a == b * q + e;
    if b < 0 && e != 0 then
      assert b * (q - 1) == b * q - b;
      e + b
    else e
  }
}
