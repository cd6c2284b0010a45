/** The three number readers the log parser relies on, each restricted to a
    stated subset of what Python accepts:
    - `ParseHex`   : `int(s, 16)`, an optional `0x`/`0X` prefix then hex digits;
    - `ParseInt`   : `int(s)`, an optional sign then decimal digits;
    - `ParseFloat` : `float(s)`, an optional sign then `ddd`, `ddd.`, `.ddd`
                     or `ddd.ddd`, read exactly as a `real`.
    The two integer readers each have a formatter as partner, and round-trip
    lemmas tie each pair together; `ParseFloat` is specified by the value it
    reads from `[sign]a.b` and from integer text. */
module Numerals {
  import opened Options
  import opened Text

  predicate IsDecDigit(c: char) {
    '0' <= c <= '9'
  }

  predicate IsHexDigit(c: char) {
    IsDecDigit(c) || 'a' <= c <= 'f' || 'A' <= c <= 'F'
  }

  predicate AllDec(s: string) {
    forall k :: 0 <= k < |s| ==> IsDecDigit(s[k])
  }

  predicate AllHex(s: string) {
    forall k :: 0 <= k < |s| ==> IsHexDigit(s[k])
  }

  function DigitValue(c: char): (d: nat)
    requires IsHexDigit(c)
    ensures d < 16
    ensures IsDecDigit(c) ==> d < 10
  {
    if IsDecDigit(c) then c as int - '0' as int
    else if 'a' <= c <= 'f' then c as int - 'a' as int + 10
    else c as int - 'A' as int + 10
  }

  /** The lower-case digit of value `d`; inverse of `DigitValue`. */
  function DigitChar(d: nat): (c: char)
    requires d < 16
    ensures IsHexDigit(c) && DigitValue(c) == d
    ensures d < 10 ==> IsDecDigit(c)
  {
    if d < 10 then ('0' as int + d) as char else ('a' as int + d - 10) as char
  }

  function Pow10(e: nat): (p: nat)
    ensures p >= 1
  {
    if e == 0 then 1 else 10 * Pow10(e - 1)
  }

  /** The two number bases the script reads. */
  datatype Radix = Decimal | Hexadecimal

  /** Value of a digit string, most significant digit first. */
  function Value(s: string, radix: Radix): nat
    requires AllHex(s)
    decreases |s|
  {
    if |s| == 0 then 0
    else
      var high := Value(s[..|s| - 1], radix);
      var low := DigitValue(s[|s| - 1]);
      match radix
      case Decimal => high * 10 + low
      case Hexadecimal => high * 16 + low
  }

  /** The digits of `n`, without leading zeros; partner of `Value`. */
  function Digits(n: nat, radix: Radix): (s: string)
    ensures |s| > 0 && AllHex(s)
    ensures radix == Decimal ==> AllDec(s)
    decreases n
  {
    match radix
    case Decimal => (if n < 10 then "" else Digits(n / 10, radix)) + [DigitChar(n % 10)]
    case Hexadecimal => (if n < 16 then "" else Digits(n / 16, radix)) + [DigitChar(n % 16)]
  }

  /** The base-16 text Python's `int(s, 16)` reads without the prefix. */
  function HexBody(s: string): string {
    if |s| >= 2 && s[0] == '0' && (s[1] == 'x' || s[1] == 'X') then s[2..] else s
  }

  /** `int(s, 16)`: `None` where Python raises `ValueError`. */
  function ParseHex(s: string): Option<nat> {
    var body := HexBody(s);
    if |body| > 0 && AllHex(body) then Some(Value(body, Hexadecimal)) else None
  }

  /** `int(s)` in base 10: `None` where Python raises `ValueError`. */
  function ParseInt(s: string): Option<int> {
    if |s| > 0 && (s[0] == '+' || s[0] == '-') then
      var mag := s[1..];
      if |mag| > 0 && AllDec(mag) then
        var v: int := Value(mag, Decimal);
        Some(if s[0] == '-' then -v else v)
      else None
    else if |s| > 0 && AllDec(s) then Some(Value(s, Decimal))
    else None
  }

  /** The decimal text of `i`, as Python's `str(i)` writes it. */
  function FormatInt(i: int): (s: string)
    ensures |s| > 0
  {
    if i < 0 then "-" + Digits(-i, Decimal) else Digits(i, Decimal)
  }

  /** The value of the digits after a decimal point: `digits` over ten to its length. */
  function Fraction(digits: string): (f: real)
    requires AllDec(digits)
    ensures f >= 0.0
  {
    var num := Value(digits, Decimal) as real;
    var den := Pow10(|digits|) as real;
    assert den > 0.0;
    num / den
  }

  /** An unsigned decimal: `ddd`, `ddd.`, `.ddd` or `ddd.ddd`. */
  function ParseUnsignedDecimal(s: string): Option<real> {
    var parts := SplitOn(s, '.');
    if |parts| == 1 then
      if |s| > 0 && AllDec(s) then Some(Value(s, Decimal) as real) else None
    else if |parts| == 2 && AllDec(parts[0]) && AllDec(parts[1]) && |parts[0]| + |parts[1]| > 0 then
      Some(Value(parts[0], Decimal) as real + Fraction(parts[1]))
    else None
  }

  /** `float(s)` on the decimal subset: `None` where the model rejects. */
  function ParseFloat(s: string): Option<real> {
    if |s| > 0 && (s[0] == '+' || s[0] == '-') then
      match ParseUnsignedDecimal(s[1..])
      case None => None
      case Some(x) => Some(if s[0] == '-' then -x else x)
    else ParseUnsignedDecimal(s)
  }

  // ---------------------------------------------------------------------
  // What each reader accepts

  /** `int(s, 16)` accepts exactly the hex digit strings, bare or behind a
      `0x`/`0X` prefix. */
  lemma {:induction false} ParseHexAccepts(s: string)
    ensures ParseHex(s).Some? <==>
              || (|s| > 0 && AllHex(s))
              || (|s| > 2 && s[0] == '0' && (s[1] == 'x' || s[1] == 'X') && AllHex(s[2..]))
  {
    if |s| >= 2 && s[0] == '0' && (s[1] == 'x' || s[1] == 'X') {
      assert !IsHexDigit(s[1]);
    }
  }

  /** `int(s)` accepts exactly the decimal digit strings with at most one
      leading sign, and only a minus sign gives a negative number. */
  lemma {:induction false} ParseIntAccepts(s: string)
    ensures ParseInt(s).Some? <==>
              || (|s| > 0 && AllDec(s))
              || (|s| > 1 && (s[0] == '+' || s[0] == '-') && AllDec(s[1..]))
    ensures ParseInt(s).Some? && ParseInt(s).value < 0 ==> s[0] == '-'
  {
    if |s| > 0 && (s[0] == '+' || s[0] == '-') {
      assert !IsDecDigit(s[0]);
    }
  }

  /** An unsigned decimal holds only digits and the point, and is never negative. */
  lemma {:induction false} UnsignedDecimalAlphabet(s: string)
    requires ParseUnsignedDecimal(s).Some?
    ensures ParseUnsignedDecimal(s).value >= 0.0
    ensures |s| > 0 && forall k :: 0 <= k < |s| ==> IsDecDigit(s[k]) || s[k] == '.'
  {
    var parts := SplitOn(s, '.');
    if |parts| == 2 {
      assert s == parts[0] + ['.'] + parts[1] by {
        assert JoinWith(parts[1..], '.') == parts[1];
      }
    }
  }

  /** Text `float(s)` accepts in the model holds only digits, the point and
      a sign, and without a minus sign its value is not negative. */
  lemma {:induction false} ParseFloatAlphabet(s: string)
    requires ParseFloat(s).Some?
    ensures |s| > 0
    ensures forall k :: 0 <= k < |s| ==> IsDecDigit(s[k]) || s[k] in ".+-"
    ensures s[0] != '-' ==> ParseFloat(s).value >= 0.0
  {
    if |s| > 0 && (s[0] == '+' || s[0] == '-') {
      UnsignedDecimalAlphabet(s[1..]);
      assert forall k :: 1 <= k < |s| ==> s[k] == s[1..][k - 1];
    } else {
      UnsignedDecimalAlphabet(s);
    }
  }

  // ---------------------------------------------------------------------
  // Round trips

  /** Formatting a number and reading it back gives the number. */
  lemma {:induction false} ValueOfDigits(n: nat, radix: Radix)
    ensures Value(Digits(n, radix), radix) == n
    decreases n
  {
    var s := Digits(n, radix);
    match radix
    case Decimal =>
      var init := if n < 10 then "" else Digits(n / 10, radix);
      assert s == init + [DigitChar(n % 10)];
      assert s[..|s| - 1] == init;
      if n >= 10 {
        ValueOfDigits(n / 10, radix);
      }
    case Hexadecimal =>
      var init := if n < 16 then "" else Digits(n / 16, radix);
      assert s == init + [DigitChar(n % 16)];
      assert s[..|s| - 1] == init;
      if n >= 16 {
        ValueOfDigits(n / 16, radix);
      }
  }

  /** The hexadecimal text of `n`, with or without the `0x` prefix, reads back as `n`. */
  lemma {:induction false} HexRoundTrip(n: nat)
    ensures ParseHex(Digits(n, Hexadecimal)) == Some(n)
    ensures ParseHex("0x" + Digits(n, Hexadecimal)) == Some(n)
    ensures ParseHex("0X" + Digits(n, Hexadecimal)) == Some(n)
  {
    var d := Digits(n, Hexadecimal);
    ValueOfDigits(n, Hexadecimal);
    assert HexBody(d) == d by {
      if |d| >= 2 {
        assert IsHexDigit(d[1]);
      }
    }
    assert ("0x" + d)[2..] == d;
    assert ("0X" + d)[2..] == d;
    assert HexBody("0x" + d) == d;
    assert HexBody("0X" + d) == d;
  }

  /** A string of `0` characters. */
  predicate AllZero(z: string) {
    forall k :: 0 <= k < |z| ==> z[k] == '0'
  }

  lemma {:induction false} ZerosValue(z: string, radix: Radix)
    requires AllZero(z)
    ensures AllHex(z) && Value(z, radix) == 0
    decreases |z|
  {
    assert AllHex(z) by {
      forall k | 0 <= k < |z|
        ensures IsHexDigit(z[k])
      {
        assert z[k] == '0';
      }
    }
    if |z| > 0 {
      var pre := z[..|z| - 1];
      assert AllZero(pre) by {
        forall k | 0 <= k < |pre|
          ensures pre[k] == '0'
        {
          assert pre[k] == z[k];
        }
      }
      ZerosValue(pre, radix);
    }
  }

  /** Leading zeros do not change the value of a digit string. */
  lemma {:induction false} LeadingZeros(z: string, s: string, radix: Radix)
    requires AllZero(z) && AllHex(s)
    ensures AllHex(z + s) && Value(z + s, radix) == Value(s, radix)
    decreases |s|
  {
    ZerosValue(z, radix);
    var zs := z + s;
    assert AllHex(zs) by {
      forall k | 0 <= k < |zs|
        ensures IsHexDigit(zs[k])
      {
        if k < |z| {
          assert zs[k] == z[k];
        } else {
          assert zs[k] == s[k - |z|];
        }
      }
    }
    if |s| == 0 {
      assert zs == z;
    } else {
      var pre := s[..|s| - 1];
      assert AllHex(pre) by {
        forall k | 0 <= k < |pre|
          ensures IsHexDigit(pre[k])
        {
          assert pre[k] == s[k];
        }
      }
      LeadingZeros(z, pre, radix);
      assert zs[..|zs| - 1] == z + pre;
      assert zs[|zs| - 1] == s[|s| - 1];
    }
  }

  /** Two digit strings whose digits have the same values, such as `ff`
      and `FF`, have the same value. */
  lemma {:induction false} SameDigitValues(s: string, t: string, radix: Radix)
    requires AllHex(s) && AllHex(t) && |s| == |t|
    requires forall k :: 0 <= k < |s| ==> DigitValue(s[k]) == DigitValue(t[k])
    ensures Value(s, radix) == Value(t, radix)
    decreases |s|
  {
    if |s| > 0 {
      var n := |s| - 1;
      var s0 := s[..n];
      var t0 := t[..n];
      assert AllHex(s0) && AllHex(t0) by {
        assert forall k :: 0 <= k < n ==> s0[k] == s[k] && t0[k] == t[k];
      }
      assert forall k :: 0 <= k < n ==> DigitValue(s0[k]) == DigitValue(t0[k]) by {
        assert forall k :: 0 <= k < n ==> s0[k] == s[k] && t0[k] == t[k];
      }
      SameDigitValues(s0, t0, radix);
    }
  }

  /** Any hex text of `n`: zero padding, then the digits of `n` in either
      case, bare or behind either prefix, reads back as `n`. */
  lemma {:induction false} PaddedHexRoundTrip(z: string, t: string, n: nat)
    requires AllZero(z) && AllHex(t) && |t| == |Digits(n, Hexadecimal)|
    requires forall k :: 0 <= k < |t| ==> DigitValue(t[k]) == DigitValue(Digits(n, Hexadecimal)[k])
    ensures ParseHex(z + t) == Some(n)
    ensures ParseHex("0x" + z + t) == Some(n)
    ensures ParseHex("0X" + z + t) == Some(n)
  {
    var d := Digits(n, Hexadecimal);
    ValueOfDigits(n, Hexadecimal);
    PaddedHexValue(z, t, d, n);
    PaddedHexConcat(z, t, n);
  }

  lemma {:induction false} PaddedHexConcat(z: string, t: string, n: nat)
    requires |z + t| > 0 && AllHex(z + t) && Value(z + t, Hexadecimal) == n
    ensures ParseHex(z + t) == Some(n)
    ensures ParseHex("0x" + z + t) == Some(n)
    ensures ParseHex("0X" + z + t) == Some(n)
  {
    var body := z + t;
    PaddedHexBody(body, n);
    assert "0x" + z + t == "0x" + body;
    assert "0X" + z + t == "0X" + body;
  }

  lemma {:induction false} PaddedHexValue(z: string, t: string, d: string, n: nat)
    requires AllZero(z) && AllHex(t) && AllHex(d) && |t| == |d| > 0
    requires forall k :: 0 <= k < |t| ==> DigitValue(t[k]) == DigitValue(d[k])
    requires Value(d, Hexadecimal) == n
    ensures |z + t| > 0 && AllHex(z + t) && Value(z + t, Hexadecimal) == n
  {
    SameDigitValues(t, d, Hexadecimal);
    LeadingZeros(z, t, Hexadecimal);
  }

  lemma {:induction false} PaddedHexBody(body: string, n: nat)
    requires |body| > 0 && AllHex(body) && Value(body, Hexadecimal) == n
    ensures ParseHex(body) == Some(n)
    ensures ParseHex("0x" + body) == Some(n)
    ensures ParseHex("0X" + body) == Some(n)
  {
    assert HexBody(body) == body by {
      if |body| >= 2 {
        assert IsHexDigit(body[1]);
      }
    }
    assert ("0x" + body)[2..] == body;
    assert ("0X" + body)[2..] == body;
    assert HexBody("0x" + body) == body;
    assert HexBody("0X" + body) == body;
  }

  /** Any decimal text of `n`: zero padding then the digits of `n`, bare or
      behind a sign, reads back as `n` or, after `-`, as `-n`. */
  lemma {:induction false} PaddedIntRoundTrip(z: string, n: nat)
    requires AllZero(z)
    ensures ParseInt(z + Digits(n, Decimal)) == Some(n)
    ensures ParseInt("+" + z + Digits(n, Decimal)) == Some(n)
    ensures ParseInt("-" + z + Digits(n, Decimal)) == Some(0 - n)
  {
    var d := Digits(n, Decimal);
    ValueOfDigits(n, Decimal);
    LeadingZeros(z, d, Decimal);
    var body := z + d;
    assert AllDec(body) by {
      forall k | 0 <= k < |body|
        ensures IsDecDigit(body[k])
      {
        if k < |z| {
          assert body[k] == z[k];
        } else {
          assert body[k] == d[k - |z|];
        }
      }
    }
    PaddedIntBody(body, n);
    assert "+" + z + d == "+" + body;
    assert "-" + z + d == "-" + body;
  }

  lemma {:induction false} PaddedIntBody(body: string, n: nat)
    requires |body| > 0 && AllHex(body) && Value(body, Decimal) == n
    requires AllDec(body)
    ensures ParseInt(body) == Some(n)
    ensures ParseInt("+" + body) == Some(n)
    ensures ParseInt("-" + body) == Some(0 - n)
  {
    assert IsDecDigit(body[0]);
    assert ("+" + body)[1..] == body;
    assert ("-" + body)[1..] == body;
  }

  /** Zero padding: `0x00000064` is 100. */
  lemma PaddedHexSample()
    ensures ParseHex("0x00000064") == Some(100)
  {
    assert Digits(6, Hexadecimal) == "6";
    assert Digits(100, Hexadecimal) == "64";
    assert "0x00000064" == "0x" + "000000" + "64";
    PaddedHexRoundTrip("000000", "64", 100);
  }

  /** Upper-case digits: `0XFF` is 255. */
  lemma UpperHexSample()
    ensures ParseHex("0XFF") == Some(255)
  {
    assert Digits(15, Hexadecimal) == "f";
    assert Digits(255, Hexadecimal) == "ff";
    assert "0XFF" == "0X" + "" + "FF";
    PaddedHexRoundTrip("", "FF", 255);
  }

  /** A plus sign and zero padding: `+12` is 12 and `0120` is 120. */
  lemma SignedIntSamples()
    ensures ParseInt("+12") == Some(12)
    ensures ParseInt("0120") == Some(120)
  {
    assert Digits(1, Decimal) == "1";
    assert Digits(12, Decimal) == "12";
    assert "+12" == "+" + "" + "12";
    PaddedIntRoundTrip("", 12);
    assert Digits(120, Decimal) == "120";
    assert "0120" == "0" + "120";
    PaddedIntRoundTrip("0", 120);
  }

  /** Digits read as themselves; a leading minus negates them. */
  lemma {:induction false} ParseIntOfDigits(d: string)
    requires |d| > 0 && AllDec(d)
    ensures ParseInt(d) == Some(Value(d, Decimal))
    ensures ParseInt("-" + d) == Some(0 - Value(d, Decimal))
  {
    assert IsDecDigit(d[0]);
    assert ("-" + d)[1..] == d;
  }

  /** Every integer's decimal text reads back as that integer. */
  lemma {:induction false} IntRoundTrip(i: int)
    ensures ParseInt(FormatInt(i)) == Some(i)
  {
    if i < 0 {
      var n: nat := -i;
      ValueOfDigits(n, Decimal);
      ParseIntOfDigits(Digits(n, Decimal));
    } else {
      ValueOfDigits(i, Decimal);
      ParseIntOfDigits(Digits(i, Decimal));
    }
  }

  /** On integer text the float reader agrees with the integer reader. */
  lemma {:induction false} FloatOfInt(s: string)
    requires ParseInt(s).Some?
    ensures ParseFloat(s) == Some(ParseInt(s).value as real)
  {
    var body := if s[0] == '+' || s[0] == '-' then s[1..] else s;
    assert '.' !in body by {
      assert AllDec(body);
      assert forall k :: 0 <= k < |body| ==> body[k] != '.';
    }
    SplitOnWithoutSep(body, '.');
  }

  /** A digit string contains no decimal point. */
  lemma {:induction false} NoPointInDigits(a: string)
    requires AllDec(a)
    ensures '.' !in a
  {
    assert forall k :: 0 <= k < |a| ==> a[k] != '.';
  }

  /** `a.b` reads as the integer part `a` plus the fraction `b` over ten to its length. */
  lemma {:induction false} FloatOfFraction(a: string, b: string)
    requires AllDec(a) && AllDec(b) && |a| + |b| > 0
    ensures ParseFloat(a + "." + b)
              == Some(Value(a, Decimal) as real + Fraction(b))
  {
    var s := a + "." + b;
    assert s[0] != '+' && s[0] != '-' by {
      if |a| > 0 {
        assert s[0] == a[0];
      } else {
        assert s[0] == '.';
      }
    }
    UnsignedFraction(a, b);
  }

  /** A sign before `a.b` negates the value for `-` and keeps it for `+`. */
  lemma {:induction false} SignedFloatOfFraction(sign: char, a: string, b: string)
    requires sign == '+' || sign == '-'
    requires AllDec(a) && AllDec(b) && |a| + |b| > 0
    ensures ParseFloat([sign] + a + "." + b)
              == Some(if sign == '-' then -(Value(a, Decimal) as real + Fraction(b))
                      else Value(a, Decimal) as real + Fraction(b))
  {
    var s := [sign] + a + "." + b;
    assert s[0] == sign;
    assert s[1..] == a + "." + b;
    UnsignedFraction(a, b);
  }

  lemma {:induction false} UnsignedFraction(a: string, b: string)
    requires AllDec(a) && AllDec(b) && |a| + |b| > 0
    ensures ParseUnsignedDecimal(a + "." + b)
              == Some(Value(a, Decimal) as real + Fraction(b))
  {
    var s := a + "." + b;
    assert s == JoinWith([a, b], '.') by {
      assert JoinWith([a, b][1..], '.') == b;
    }
    NoPointInDigits(a);
    NoPointInDigits(b);
    SplitOnJoin([a, b], '.');
    assert SplitOn(s, '.') == [a, b];
    UnsignedDecimalOfParts(s, a, b);
  }

  lemma {:induction false} UnsignedDecimalOfParts(s: string, a: string, b: string)
    requires SplitOn(s, '.') == [a, b] && AllDec(a) && AllDec(b) && |a| + |b| > 0
    ensures ParseUnsignedDecimal(s) == Some(Value(a, Decimal) as real + Fraction(b))
  {
    var parts := SplitOn(s, '.');
    assert |parts| == 2 && parts[0] == a && parts[1] == b;
  }
}
