/** Python's `Decimal(s)` constructor on the strings the amount normalisers
    hand it: an optional sign, then digits with at most one decimal point and
    at least one digit.  The value is an exact rational (`real`); the 28-digit
    context precision is not modelled.  A string `Decimal` rejects is `None`. */
module Decimals {
  import opened Wrappers
  import opened Strings

  function DigitValue(c: char): nat
    requires IsDigit(c)
  {
    (c as int) - ('0' as int)
  }

  predicate AllDigits(s: string) {
    forall i :: 0 <= i < |s| ==> IsDigit(s[i])
  }

  function Pow10(n: nat): (r: nat)
    ensures r >= 1
  {
    if n == 0 then 1 else 10 * Pow10(n - 1)
  }

  /** The natural number a digit string denotes. */
  function Num(s: string): (n: nat)
    requires AllDigits(s)
    ensures n < Pow10(|s|)
  {
    if s == [] then 0 else 10 * Num(s[..|s| - 1]) + DigitValue(s[|s| - 1])
  }

  lemma {:induction false} NumAppend(a: string, b: string)
    requires AllDigits(a) && AllDigits(b)
    ensures AllDigits(a + b) && Num(a + b) == Num(a) * Pow10(|b|) + Num(b)
    decreases |b|
  {
    if b != [] {
      var init := b[..|b| - 1];
      InitOfAppend(a, b);
      NumAppend(a, init);
      var x, y, p, d := Num(a), Num(init), Pow10(|init|), DigitValue(b[|b| - 1]);
      assert Num(a + b) == 10 * Num(a + init) + d;
      Regroup(x, y, p, d);
    } else {
      assert a + b == a;
    }
  }

  lemma InitOfAppend<T>(a: seq<T>, b: seq<T>)
    requires b != []
    ensures (a + b)[..|a + b| - 1] == a + b[..|b| - 1]
    ensures (a + b)[|a + b| - 1] == b[|b| - 1]
  {
  }

  lemma Regroup(x: int, y: int, p: int, d: int)
    ensures 10 * (x * p + y) + d == x * (10 * p) + (10 * y + d)
  {
  }

  function DigitChar(d: nat): (c: char)
    requires d < 10
    ensures IsDigit(c) && DigitValue(c) == d
  {
    ('0' as int + d) as char
  }

  /** The decimal digits of `n`, without leading zeros (`str(n)`). */
  function NatDigits(n: nat): (r: string)
    ensures |r| > 0 && AllDigits(r) && Num(r) == n
    decreases n
  {
    if n < 10 then [DigitChar(n)]
    else
      var r := NatDigits(n / 10) + [DigitChar(n % 10)];
      assert r[..|r| - 1] == NatDigits(n / 10);
      r
  }

  /** `n` written with exactly `w` digits, zero-padded on the left. */
  function PadDigits(n: nat, w: nat): (r: string)
    requires n < Pow10(w)
    ensures |r| == w && AllDigits(r) && Num(r) == n
  {
    if w == 0 then []
    else
      var r := PadDigits(n / 10, w - 1) + [DigitChar(n % 10)];
      assert r[..|r| - 1] == PadDigits(n / 10, w - 1);
      r
  }

  /** The position of the first `'.'` in `s`, or `|s|` when there is none. */
  function FirstDot(s: string): (k: nat)
    ensures k <= |s| && (k < |s| ==> s[k] == '.')
    ensures forall i :: 0 <= i < k ==> s[i] != '.'
  {
    if s == [] then 0 else if s[0] == '.' then 0 else 1 + FirstDot(s[1..])
  }

  /** An unsigned decimal numeral: `digits`, `digits.`, `.digits` or
      `digits.digits`. */
  function Unsigned(s: string): Option<real> {
    var k := FirstDot(s);
    var whole := s[..k];
    var frac := if k < |s| then s[k + 1..] else [];
    if AllDigits(whole) && AllDigits(frac) && |whole| + |frac| > 0
    then Some(NumeralValue(whole, frac))
    else None
  }

  /** The value of the numeral `whole.frac`. */
  function NumeralValue(whole: string, frac: string): (v: real)
    requires AllDigits(whole) && AllDigits(frac)
    ensures v >= 0.0
  {
    Num(whole) as real + Scaled(Num(frac) as real, |frac|)
  }

  /** `x / 10^k`, one decimal place at a time. */
  function Scaled(x: real, k: nat): (r: real)
    ensures r * Pow10(k) as real == x
    ensures x >= 0.0 ==> r >= 0.0
  {
    if k == 0 then x else Scaled(x, k - 1) / 10.0
  }

  /** `Decimal(s)` for a string made of digits, `'.'`, `'+'` and `'-'`. */
  function DecimalLiteral(s: string): Option<real> {
    if s != [] && (s[0] == '-' || s[0] == '+') then
      match Unsigned(s[1..])
      case None => None
      case Some(v) => Some(if s[0] == '-' then -v else v)
    else Unsigned(s)
  }

  lemma UnsignedOfParts(whole: string, frac: string)
    requires AllDigits(whole) && AllDigits(frac) && whole != []
    ensures Unsigned(whole + "." + frac) == Some(NumeralValue(whole, frac))
  {
    var u := whole + "." + frac;
    assert FirstDot(u) == |whole| by {
      FirstDotOfDigits(whole, "." + frac);
      assert u == whole + ("." + frac);
    }
    assert u[..|whole|] == whole;
    assert u[|whole| + 1..] == frac;
  }

  /** A numeral `whole.frac` denotes `whole + frac / 10^|frac|`. */
  lemma PlainLiteral(whole: string, frac: string)
    requires AllDigits(whole) && AllDigits(frac) && whole != []
    ensures DecimalLiteral(whole + "." + frac) == Some(NumeralValue(whole, frac))
  {
    UnsignedOfParts(whole, frac);
    assert (whole + "." + frac)[0] == whole[0];
  }

  /** A numeral `-whole.frac` denotes `-(whole + frac / 10^|frac|)`. */
  lemma NegativeLiteral(whole: string, frac: string)
    requires AllDigits(whole) && AllDigits(frac) && whole != []
    ensures DecimalLiteral("-" + whole + "." + frac) == Some(-NumeralValue(whole, frac))
  {
    var u := whole + "." + frac;
    UnsignedOfParts(whole, frac);
    SignedLiteral('-', u, NumeralValue(whole, frac));
    SignInFront(whole, frac);
  }

  lemma SignInFront(whole: string, frac: string)
    ensures "-" + whole + "." + frac == ['-'] + (whole + "." + frac)
  {
  }

  /** A sign in front of an unsigned numeral. */
  lemma SignedLiteral(sign: char, u: string, v: real)
    requires sign == '-' || sign == '+'
    requires Unsigned(u) == Some(v)
    ensures DecimalLiteral([sign] + u) == Some(if sign == '-' then -v else v)
  {
    assert ([sign] + u)[1..] == u;
  }

  lemma {:induction false} FirstDotOfDigits(a: string, b: string)
    requires AllDigits(a) && b != [] && b[0] == '.'
    ensures FirstDot(a + b) == |a|
  {
    if a != [] {
      assert (a + b)[1..] == a[1..] + b;
      FirstDotOfDigits(a[1..], b);
    } else {
      assert a + b == b;
    }
  }

  /** A numeral with two decimal points is rejected, whatever its digits. */
  lemma TwoPointsRejected(a: string, b: string, c: string)
    requires AllDigits(a) && AllDigits(b) && AllDigits(c)
    ensures DecimalLiteral(a + "." + b + "." + c) == None
  {
    TwoPointsShape(a, b, c);
    UnsignedTwoPoints(a, b + "." + c);
    UnsignedStart(a, "." + (b + "." + c));
  }

  lemma TwoPointsShape(a: string, b: string, c: string)
    ensures a + "." + b + "." + c == a + ("." + (b + "." + c))
    ensures '.' in b + "." + c
  {
    assert (b + "." + c)[|b|] == '.';
  }

  lemma UnsignedTwoPoints(a: string, rest: string)
    requires AllDigits(a) && '.' in rest
    ensures Unsigned(a + ("." + rest)) == None
  {
    var s := a + ("." + rest);
    FirstDotOfDigits(a, "." + rest);
    assert s[|a| + 1..] == rest;
  }

  /** Without a leading sign `Decimal` reads an unsigned numeral. */
  lemma UnsignedStart(a: string, t: string)
    requires AllDigits(a) && t != [] && t[0] == '.'
    ensures DecimalLiteral(a + t) == Unsigned(a + t)
  {
    assert (a + t)[0] == if a == [] then '.' else a[0];
  }

  /** Strings `Decimal` rejects: a second decimal point, a bare sign, nothing. */
  lemma RejectedLiterals()
    ensures DecimalLiteral("1.2.3") == None
    ensures DecimalLiteral("-") == None
    ensures DecimalLiteral("") == None
    ensures DecimalLiteral(".") == None
  {
    assert FirstDot("1.2.3") == 1 by {
      assert "1.2.3"[1..] == ".2.3";
    }
    assert "1.2.3"[2..] == "2.3";
    assert !AllDigits("2.3") by {
      assert "2.3"[1] == '.';
    }
    assert "-"[1..] == "";
    assert FirstDot(".") == 0;
    assert "."[1..] == "";
  }
}
