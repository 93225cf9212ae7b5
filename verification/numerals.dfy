/** Number texts on the keypad side: the decimal literals Python's `float()`
    accepts, read as exact reals, and the text `str()` gives an integer. */
module Numerals {
  import opened Base

  predicate IsDigit(c: char)
  {
    '0' <= c <= '9'
  }

  predicate AllDigits(s: string)
  {
    forall i | 0 <= i < |s| :: IsDigit(s[i])
  }

  function DigitValue(c: char): nat
    requires IsDigit(c)
  {
    c as int - '0' as int
  }

  function DigitOf(d: nat): (c: char)
    requires d < 10
    ensures IsDigit(c) && DigitValue(c) == d
  {
    ('0' as int + d) as char
  }

  /** The value of a string of decimal digits, most significant first. */
  function DigitsValue(s: string): nat
    requires AllDigits(s)
  {
    if s == [] then 0 else 10 * DigitsValue(s[..|s| - 1]) + DigitValue(s[|s| - 1])
  }

  /** 10 raised to an integer power. */
  function Pow10(e: int): (r: real)
    ensures r > 0.0
    decreases if e < 0 then -e else e
  {
    if e == 0 then 1.0
    else if e > 0 then 10.0 * Pow10(e - 1)
    else Pow10(e + 1) / 10.0
  }

  /** The number of decimal points in a text. */
  function Dots(s: string): nat
  {
    multiset(s)['.']
  }

  /** The first position whose character `isMark` picks out, or `|s|`. */
  function FirstWhere(s: string, isMark: char -> bool): (k: nat)
    ensures k <= |s|
    ensures k < |s| ==> isMark(s[k])
    ensures forall i | 0 <= i < k :: !isMark(s[i])
  {
    if s == [] then 0
    else if isMark(s[0]) then 0
    else 1 + FirstWhere(s[1..], isMark)
  }

  predicate IsPoint(c: char)
  {
    c == '.'
  }

  predicate IsExponentMark(c: char)
  {
    c == 'e' || c == 'E'
  }

  predicate IsSign(c: char)
  {
    c == '-' || c == '+'
  }

  /** `digits [. digits]` with at least one digit in all. */
  function ParseMantissa(s: string): Option<real>
  {
    var k := FirstWhere(s, IsPoint);
    var whole := s[..k];
    var frac := if k < |s| then s[k + 1..] else [];
    if AllDigits(whole) && AllDigits(frac) && |whole| + |frac| > 0 then
      Some(DigitsValue(whole) as real + DigitsValue(frac) as real / Pow10(|frac|))
    else None
  }

  /** `[sign] digits` as an integer. */
  function ParseExponent(s: string): Option<int>
  {
    var neg := s != [] && s[0] == '-';
    var digits := if s != [] && IsSign(s[0]) then s[1..] else s;
    if digits != [] && AllDigits(digits) then
      Some(if neg then -(DigitsValue(digits) as int) else DigitsValue(digits))
    else None
  }

  /** A literal without its leading sign: mantissa, then an optional
      exponent introduced by `e` or `E`. */
  function ParseUnsigned(s: string): Option<real>
  {
    var k := FirstWhere(s, IsExponentMark);
    if k == |s| then ParseMantissa(s)
    else
      match (ParseMantissa(s[..k]), ParseExponent(s[k + 1..]))
      case (Some(m), Some(e)) => Some(m * Pow10(e))
      case _ => None
  }

  /** Python's `float(text)` restricted to decimal literals: an optional
      sign, then an unsigned literal. `None` is the `ValueError`. */
  function ParseFloat(s: string): Option<real>
  {
    if s != [] && IsSign(s[0]) then
      match ParseUnsigned(s[1..])
      case None => None
      case Some(v) => Some(if s[0] == '-' then -v else v)
    else
      ParseUnsigned(s)
  }

  /** A text with at most one sign, at its head. */
  predicate SingleSigned(s: string)
  {
    !(|s| >= 2 && IsSign(s[0]) && IsSign(s[1]))
  }

  /** Every text `float()` accepts is non-empty, has at most one decimal
      point and at most one leading sign. */
  lemma ParsedShape(s: string)
    requires ParseFloat(s).Some?
    ensures s != [] && Dots(s) <= 1 && SingleSigned(s)
  {
    if s != [] && IsSign(s[0]) {
      UnsignedShape(s[1..]);
      assert s == [s[0]] + s[1..];
    } else {
      UnsignedShape(s);
    }
  }

  lemma UnsignedShape(s: string)
    requires ParseUnsigned(s).Some?
    ensures s != [] && Dots(s) <= 1 && !IsSign(s[0])
  {
    var k := FirstWhere(s, IsExponentMark);
    if k == |s| {
      MantissaShape(s);
    } else {
      MantissaShape(s[..k]);
      ExponentShape(s[k + 1..]);
      assert s == s[..k] + [s[k]] + s[k + 1..];
      assert s[..k][0] == s[0];
    }
  }

  lemma MantissaShape(s: string)
    requires ParseMantissa(s).Some?
    ensures s != [] && Dots(s) <= 1 && !IsSign(s[0])
  {
    var k := FirstWhere(s, IsPoint);
    if k < |s| {
      var whole, frac := s[..k], s[k + 1..];
      DigitsHaveNoPoint(whole);
      DigitsHaveNoPoint(frac);
      assert s == whole + [s[k]] + frac;
      DotsSplit(whole, s[k], frac);
      assert k == 0 ==> s[0] == '.';
      assert k > 0 ==> s[0] == whole[0];
    } else {
      assert s[..k] == s;
      DigitsHaveNoPoint(s);
      assert IsDigit(s[0]);
    }
  }

  lemma DotsSplit(a: string, c: char, b: string)
    ensures Dots(a + [c] + b) == Dots(a) + Dots([c]) + Dots(b)
  {
    assert multiset(a + [c] + b) == multiset(a) + multiset([c]) + multiset(b);
  }

  lemma ExponentShape(s: string)
    requires ParseExponent(s).Some?
    ensures Dots(s) == 0
  {
    var digits := if s != [] && IsSign(s[0]) then s[1..] else s;
    DigitsHaveNoPoint(digits);
    if s != [] && IsSign(s[0]) {
      assert s == [s[0]] + digits;
    }
  }

  lemma DigitsHaveNoPoint(s: string)
    requires AllDigits(s)
    ensures Dots(s) == 0
  {
    assert forall i | 0 <= i < |s| :: s[i] != '.';
    assert '.' !in s;
  }

  /** Digits contain no point and no exponent mark. */
  lemma DigitsAreUnmarked(s: string)
    requires AllDigits(s)
    ensures FirstWhere(s, IsPoint) == |s|
    ensures FirstWhere(s, IsExponentMark) == |s|
  {
  }

  /** A digit string reads as its value. */
  lemma ParseDigits(s: string)
    requires s != [] && AllDigits(s)
    ensures ParseFloat(s) == Some(DigitsValue(s) as real)
  {
    DigitsAreUnmarked(s);
    assert s[..|s|] == s;
  }

  /** Putting a minus sign in front of an unsigned literal negates it, and
      taking it away again restores the literal. */
  lemma ParseNegated(s: string)
    requires s != [] && !IsSign(s[0])
    ensures ParseFloat(['-'] + s) ==
              (match ParseFloat(s) case None => None case Some(v) => Some(-v))
  {
    assert (['-'] + s)[1..] == s;
  }

  // ---------------------------------------------------------------------
  // str(int)
  // ---------------------------------------------------------------------

  /** The decimal digits of a natural number, without leading zeros. */
  function NatText(n: nat): (t: string)
    ensures t != [] && AllDigits(t)
    ensures DigitsValue(t) == n
    ensures |t| > 1 ==> t[0] != '0'
  {
    if n < 10 then [DigitOf(n)]
    else
      var t := NatText(n / 10) + [DigitOf(n % 10)];
      assert t[..|t| - 1] == NatText(n / 10);
      t
  }

  /** Python's `str(n)` for an integer. */
  function IntText(n: int): string
  {
    if n < 0 then ['-'] + NatText(-n) else NatText(n)
  }

  /** An integer's text reads back as that integer. */
  lemma {:induction false} ParseIntText(n: int)
    ensures ParseFloat(IntText(n)) == Some(n as real)
  {
    if n < 0 {
      ParseDigits(NatText(-n));
      ParseNegated(NatText(-n));
    } else {
      ParseDigits(NatText(n));
    }
  }
}
