/**
 * Java `int` arithmetic as the expression parser performs it: 32-bit
 * two's-complement wrap-around for + - * and unary minus, division and
 * remainder truncating toward zero, `(int) Math.pow(a, b)` for integer
 * arguments, and Integer.parseInt / Integer.toString on ASCII digits.
 */
module JavaInt {
  import opened Wrappers
  import opened JavaText

  const IntMin: int := -0x8000_0000
  const IntMax: int := 0x7FFF_FFFF
  const Modulus: int := 0x1_0000_0000

  predicate InRange(x: int) { IntMin <= x <= IntMax }

  /** The int that a Java operation yields when its exact result is `x`. */
  function Wrap(x: int): (r: int)
    ensures InRange(r)
    ensures InRange(x) ==> r == x
  {
    (x - IntMin) % Modulus + IntMin
  }

  /** Wrap(x) is the one int congruent to x modulo 2^32. */
  lemma WrapCongruent(x: int)
    ensures (x - Wrap(x)) % Modulus == 0
  {
  }

  /** Java `a * b` on ints: the exact product, wrapped. */
  function Mul(a: int, b: int): (r: int)
    ensures InRange(r)
    ensures InRange(a * b) ==> r == a * b
  {
    Wrap(a * b)
  }

  /**
   * Java `a / b` on ints: the quotient truncated toward zero (TruncQuotientSpec),
   * wrapped, so that IntMin / -1 == IntMin.
   */
  function Div(a: int, b: int): (r: int)
    requires b != 0
    ensures InRange(r)
    ensures a == IntMin && b == -1 ==> r == IntMin
  {
    Wrap(TruncQuotient(a, b))
  }

  /** The exact quotient of a by b rounded toward zero. */
  function TruncQuotient(a: int, b: int): int
    requires b != 0
  {
    if (a >= 0) == (b > 0) then Abs(a) / Abs(b) else -(Abs(a) / Abs(b))
  }

  lemma NatDivMod(n: nat, d: nat)
    requires d > 0
    ensures n == (n / d) * d + n % d && 0 <= n % d < d && n / d >= 0 && (n / d) * d >= 0
  {
  }

  lemma MulSigns(x: int, y: int)
    ensures (-x) * (-y) == x * y && (-x) * y == -(x * y) && x * (-y) == -(x * y)
  {
  }

  /**
   * The defining property of Java's integer division (JLS 15.17.2): the
   * remainder a - q*b is smaller than the divisor in magnitude and has the
   * sign of the dividend.
   */
  lemma TruncQuotientSpec(a: int, b: int)
    requires b != 0
    ensures var r := a - TruncQuotient(a, b) * b;
      Abs(r) < Abs(b) && Abs(r) <= Abs(a) && (r == 0 || (r > 0 <==> a > 0))
  {
    var n: int, d: int := Abs(a), Abs(b);
    NatDivMod(n, d);
    var q0: int, m: int := n / d, n % d;
    var p := q0 * d;
    assert n == p + m && 0 <= m < d && p >= 0;
    var q := TruncQuotient(a, b);
    MulSigns(q0, d);
    if a >= 0 && b > 0 {
      assert q * b == p;
    } else if a >= 0 {
      assert q == -q0 && b == -d;
      assert q * b == p;
    } else if b > 0 {
      assert q == -q0 && b == d;
      assert q * b == -p;
    } else {
      assert q == q0 && b == -d;
      assert q * b == -p;
    }
  }

  /** Java `a % b` on ints: the remainder has the sign of the dividend. */
  function Rem(a: int, b: int): (r: int)
    requires b != 0
    ensures InRange(a) ==> InRange(r)
    ensures Abs(r) < Abs(b)
    ensures r == 0 || (r > 0 <==> a > 0)
  {
    TruncQuotientSpec(a, b);
    a - TruncQuotient(a, b) * b
  }

  function Abs(x: int): nat { if x < 0 then -x else x }

  /** The exact power base^exp. */
  function Power(base: int, exp: nat): int
    decreases exp
  {
    if exp == 0 then 1 else base * Power(base, exp - 1)
  }

  /** The narrowing conversion `(int)` of a double holding an integral value: it saturates. */
  function Saturate(x: int): (r: int)
    ensures InRange(r)
    ensures InRange(x) ==> r == x
    ensures x > IntMax ==> r == IntMax
    ensures x < IntMin ==> r == IntMin
  {
    if x > IntMax then IntMax else if x < IntMin then IntMin else x
  }

  /**
   * `(int) Math.pow(base, exp)` for int arguments. A non-negative exponent gives
   * the exact power (Math.pow is exact whenever the result fits a double exactly,
   * and a larger result is beyond int range either way), saturated by the cast.
   * A negative exponent gives 1/base^|exp|: +Infinity for base 0 (cast to
   * IntMax), +-1 for base +-1, and a fraction that truncates to 0 otherwise.
   */
  function Pow(base: int, exp: int): (r: int)
    ensures InRange(r)
  {
    if exp >= 0 then Saturate(Power(base, exp))
    else if base == 0 then IntMax
    else if base == 1 then 1
    else if base == -1 then (if exp % 2 == 0 then 1 else -1)
    else 0
  }

  /**
   * An exact power that fits an int is returned as is; a negative exponent
   * gives 0 for every base other than 0, 1 and -1.
   */
  lemma PowSpec(base: int, exp: int)
    ensures exp >= 0 && InRange(Power(base, exp)) ==> Pow(base, exp) == Power(base, exp)
    ensures exp < 0 && Abs(base) >= 2 ==> Pow(base, exp) == 0
  {
  }

  function DigitValue(c: char): nat
    requires IsDigit(c)
  {
    c as int - '0' as int
  }

  predicate AllDigits(s: string) {
    forall i :: 0 <= i < |s| ==> IsDigit(s[i])
  }

  /** The value of a string of decimal digits, most significant first. */
  function DigitsValue(s: string): nat
    requires AllDigits(s)
    decreases |s|
  {
    if |s| == 0 then 0 else DigitsValue(s[..|s| - 1]) * 10 + DigitValue(s[|s| - 1])
  }

  /**
   * Integer.parseInt: an optional sign and at least one digit, and the value
   * must fit an int; anything else raises NumberFormatException (None here).
   */
  function ParseInt(s: string): (r: Option<int>)
    ensures r.Some? ==> InRange(r.value)
    ensures r.Some? ==> |s| > 0 && (IsDigit(s[0]) || s[0] == '-' || s[0] == '+')
    ensures r.Some? ==> forall i :: 1 <= i < |s| ==> IsDigit(s[i])
  {
    if |s| == 0 then None
    else
      var negative := s[0] == '-';
      var body := if s[0] == '-' || s[0] == '+' then s[1..] else s;
      if |body| == 0 || !AllDigits(body) then None
      else
        var magnitude := DigitsValue(body);
        var v := if negative then 0 - magnitude else magnitude;
        if InRange(v) then Some(v) else None
  }

  function DigitChar(d: nat): (c: char)
    requires d < 10
    ensures IsDigit(c) && DigitValue(c) == d
  {
    ('0' as int + d) as char
  }

  /** The decimal digits of n, most significant first, without leading zeros. */
  function NatToString(n: nat): (s: string)
    ensures |s| > 0 && AllDigits(s)
    ensures |s| > 1 ==> s[0] != '0'
    decreases n
  {
    if n < 10 then [DigitChar(n)] else NatToString(n / 10) + [DigitChar(n % 10)]
  }

  /** Integer.toString. */
  function IntToString(i: int): (s: string)
    ensures |s| > 0
  {
    if i < 0 then "-" + NatToString(-i) else NatToString(i)
  }

  lemma {:induction false} NatToStringValue(n: nat)
    ensures DigitsValue(NatToString(n)) == n
    decreases n
  {
    if n >= 10 {
      NatToStringValue(n / 10);
      var s := NatToString(n);
      assert s[..|s| - 1] == NatToString(n / 10);
    }
  }

  /** Integer.parseInt(Integer.toString(i)) == i for every int. */
  lemma IntToStringRoundTrip(i: int)
    requires InRange(i)
    ensures ParseInt(IntToString(i)) == Some(i)
  {
    var s := IntToString(i);
    if i < 0 {
      NatToStringValue(-i);
      assert s[1..] == NatToString(-i);
    } else {
      NatToStringValue(i);
    }
  }
}
