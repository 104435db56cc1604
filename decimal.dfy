/**
 * The part of `java.math.BigDecimal` the patient income relies on: a value is `unscaled × 10^-scale`;
 * text is parsed without exponents; `stripTrailingZeros`, `toPlainString` and `compareTo`.
 */
module Decimal {
  import opened Wrappers
  import opened JavaString

  datatype Decimal = Decimal(unscaled: int, scale: int)

  function Abs(n: int): nat {
    if n < 0 then -n else n
  }

  /** Position of the first '.' in `s`, or `|s|` when there is none. */
  function DotIndex(s: string): (i: nat)
    ensures i <= |s|
    ensures forall j :: 0 <= j < i ==> s[j] != '.'
    ensures i < |s| ==> s[i] == '.'
  {
    if s == [] || s[0] == '.' then 0 else 1 + DotIndex(s[1..])
  }

  /**
   * Unsigned decimal text: integer digits and an optional '.' with fraction digits, with at least
   * one digit in all. The value is the digits read as one integer; the scale is the number of
   * fraction digits.
   */
  function ParseUnsigned(body: string): (r: Option<Decimal>)
    ensures r.Some? ==> r.value.scale >= 0 && r.value.unscaled >= 0
    ensures r.Some? ==> body != [] && (IsAsciiDigit(body[0]) || body[0] == '.')
  {
    var intPart, fracPart := IntPart(body), FracPart(body);
    if |intPart| + |fracPart| == 0 || !AllDigits(intPart) || !AllDigits(fracPart) then None
    else
      DigitsValueConcat(intPart, fracPart);
      Some(Decimal(DigitsValue(intPart + fracPart), |fracPart|))
  }

  /** The text before the first '.'. */
  function IntPart(body: string): (r: string)
    ensures r == body[..DotIndex(body)]
  {
    body[..DotIndex(body)]
  }

  /** The text after the first '.', empty when there is no '.'. */
  function FracPart(body: string): (r: string)
    ensures DotIndex(body) < |body| ==> r == body[DotIndex(body) + 1..]
    ensures DotIndex(body) == |body| ==> r == []
  {
    if DotIndex(body) < |body| then body[DotIndex(body) + 1..] else []
  }

  /**
   * `new BigDecimal(s)` for text without an exponent: an optional sign before unsigned decimal
   * text. `None` stands for the `NumberFormatException`.
   */
  function Parse(s: string): (r: Option<Decimal>)
    ensures r.Some? ==> r.value.scale >= 0
    ensures r.Some? ==> s != [] && (IsAsciiDigit(s[0]) || s[0] == '+' || s[0] == '-' || s[0] == '.')
  {
    if s != [] && s[0] == '-' then
      match ParseUnsigned(s[1..])
      case None => None
      case Some(d) => Some(Decimal(-d.unscaled, d.scale))
    else if s != [] && s[0] == '+' then ParseUnsigned(s[1..])
    else ParseUnsigned(s)
  }

  /** The unscaled value of `d` rewritten over the finer scale `k`. */
  function Scaled(d: Decimal, k: int): int
    requires k >= d.scale
  {
    d.unscaled * Pow10(k - d.scale)
  }

  function Max(a: int, b: int): int {
    if a < b then b else a
  }

  /** The sign of `n`: -1, 0 or 1. */
  function Sign(n: int): (s: int)
    ensures -1 <= s <= 1
    ensures (s < 0 <==> n < 0) && (s == 0 <==> n == 0) && (s > 0 <==> n > 0)
  {
    if n < 0 then -1 else if n == 0 then 0 else 1
  }

  /** `compareTo`: the sign of `a - b`, comparing both at the finer of their two scales. */
  function CompareTo(a: Decimal, b: Decimal): (c: int)
    ensures -1 <= c <= 1
    ensures var k := Max(a.scale, b.scale); c == Sign(Scaled(a, k) - Scaled(b, k))
  {
    var k := Max(a.scale, b.scale);
    if Scaled(a, k) < Scaled(b, k) then -1 else if Scaled(a, k) == Scaled(b, k) then 0 else 1
  }

  /** `compareTo(b) == 0`: the two decimals denote the same number, whatever their scales. */
  predicate NumEq(a: Decimal, b: Decimal) {
    CompareTo(a, b) == 0
  }

  /** A decimal without trailing zeros in its unscaled value; zero is written with scale 0. */
  predicate Canonical(d: Decimal) {
    if d.unscaled == 0 then d.scale == 0 else d.unscaled % 10 != 0
  }

  /** `stripTrailingZeros`: drop factors of ten from the unscaled value; zero becomes `0` at scale 0. */
  function StripTrailingZeros(d: Decimal): (r: Decimal)
    ensures Canonical(r)
    ensures r.scale <= d.scale || d.unscaled == 0
    decreases Abs(d.unscaled)
  {
    if d.unscaled == 0 then Decimal(0, 0)
    else if d.unscaled % 10 == 0 then StripTrailingZeros(Decimal(d.unscaled / 10, d.scale - 1))
    else d
  }

  /** `toPlainString`: the number written out in full, with no exponent. */
  function ToPlainString(d: Decimal): (s: string)
    ensures s != [] && IsAsciiDigit(s[|s| - 1])
    ensures d.unscaled >= 0 ==> IsAsciiDigit(s[0])
    ensures d.unscaled < 0 ==> s[0] == '-'
  {
    var digits := NatToDigits(Abs(d.unscaled));
    var magnitude :=
      if d.scale <= 0 then digits + Zeros(-d.scale)
      else if |digits| > d.scale then digits[..|digits| - d.scale] + "." + digits[|digits| - d.scale..]
      else "0." + Zeros(d.scale - |digits|) + digits;
    assert IsAsciiDigit(magnitude[|magnitude| - 1]);
    if d.unscaled < 0 then "-" + magnitude else magnitude
  }

  lemma {:induction false} Pow10Add(a: nat, b: nat)
    ensures Pow10(a + b) == Pow10(a) * Pow10(b)
    decreases b
  {
    if b > 0 {
      Pow10Add(a, b - 1);
      assert Pow10(a + b) == 10 * Pow10(a + b - 1);
    }
  }

  /** Scaling further out multiplies by the matching power of ten. */
  lemma ScaledFurther(d: Decimal, k: int, j: nat)
    requires k >= d.scale
    ensures Scaled(d, k + j) == Scaled(d, k) * Pow10(j)
  {
    Pow10Add(k - d.scale, j);
    calc {
      Scaled(d, k + j);
      d.unscaled * Pow10(k - d.scale + j);
      d.unscaled * (Pow10(k - d.scale) * Pow10(j));
      { MultiplyAssociative(d.unscaled, Pow10(k - d.scale), Pow10(j)); }
      Scaled(d, k) * Pow10(j);
    }
  }

  lemma MultiplyAssociative(x: int, y: int, z: int)
    ensures x * (y * z) == (x * y) * z
  {
  }

  /** Two decimals denote the same number at one common scale exactly when they do at every finer one. */
  lemma NumEqAt(a: Decimal, b: Decimal, k: int)
    requires k >= a.scale && k >= b.scale
    ensures NumEq(a, b) <==> Scaled(a, k) == Scaled(b, k)
  {
    var m := Max(a.scale, b.scale);
    ScaledFurther(a, m, k - m);
    ScaledFurther(b, m, k - m);
    var p := Pow10(k - m);
    assert Scaled(a, k) == Scaled(a, m) * p && Scaled(b, k) == Scaled(b, m) * p;
    assert Scaled(a, m) == Scaled(b, m) <==> Scaled(a, m) * p == Scaled(b, m) * p by {
      if Scaled(a, m) * p == Scaled(b, m) * p {
        MultiplyCancel(Scaled(a, m), Scaled(b, m), p);
      }
    }
  }

  /**
   * The comparison does not depend on the common scale: at every scale fine enough for both
   * decimals, it is the sign of the difference of their rescaled values.
   */
  lemma CompareAtAnyScale(a: Decimal, b: Decimal, k: int)
    requires k >= a.scale && k >= b.scale
    ensures CompareTo(a, b) == Sign(Scaled(a, k) - Scaled(b, k))
  {
    var m := Max(a.scale, b.scale);
    ScaledFurther(a, m, k - m);
    ScaledFurther(b, m, k - m);
    var p := Pow10(k - m);
    assert Scaled(a, k) - Scaled(b, k) == (Scaled(a, m) - Scaled(b, m)) * p;
    SignOfMultiple(Scaled(a, m) - Scaled(b, m), p);
  }

  /** Multiplying by a positive number keeps the sign. */
  lemma SignOfMultiple(n: int, p: int)
    requires p > 0
    ensures Sign(n * p) == Sign(n)
  {
    if n > 0 {
      assert n * p >= 1 * p;
    } else if n < 0 {
      assert n * p <= -1 * p;
    }
  }

  /** Swapping the operands negates the comparison. */
  lemma CompareAntisymmetric(a: Decimal, b: Decimal)
    ensures CompareTo(b, a) == -CompareTo(a, b)
  {
    assert Max(a.scale, b.scale) == Max(b.scale, a.scale);
  }

  /** The comparison is transitive: a below b below c puts a below c. */
  lemma CompareTransitive(a: Decimal, b: Decimal, c: Decimal)
    requires CompareTo(a, b) < 0 && CompareTo(b, c) < 0
    ensures CompareTo(a, c) < 0
  {
    var k := Max(Max(a.scale, b.scale), c.scale);
    CompareAtAnyScale(a, b, k);
    CompareAtAnyScale(b, c, k);
    CompareAtAnyScale(a, c, k);
  }

  lemma MultiplyCancel(x: int, y: int, p: int)
    requires p > 0 && x * p == y * p
    ensures x == y
  {
    assert (x - y) * p == 0;
  }

  /** Numeric equality is an equivalence relation. */
  lemma NumEqIsEquivalence(a: Decimal, b: Decimal, c: Decimal)
    ensures NumEq(a, a)
    ensures NumEq(a, b) ==> NumEq(b, a)
    ensures NumEq(a, b) && NumEq(b, c) ==> NumEq(a, c)
  {
    var k := Max(Max(a.scale, b.scale), c.scale);
    NumEqAt(a, b, k);
    NumEqAt(b, c, k);
    NumEqAt(a, c, k);
  }

  /** Stripping trailing zeros keeps the number. */
  lemma {:induction false} StripKeepsValue(d: Decimal)
    ensures NumEq(StripTrailingZeros(d), d)
    decreases Abs(d.unscaled)
  {
    if d.unscaled == 0 {
      NumEqAt(Decimal(0, 0), d, Max(0, d.scale));
    } else if d.unscaled % 10 == 0 {
      var e := Decimal(d.unscaled / 10, d.scale - 1);
      StripKeepsValue(e);
      assert Scaled(e, d.scale) == Scaled(d, d.scale) by {
        assert Scaled(e, d.scale) == (d.unscaled / 10) * 10;
      }
      NumEqAt(e, d, d.scale);
      NumEqIsEquivalence(StripTrailingZeros(d), e, d);
    } else {
      NumEqIsEquivalence(d, d, d);
    }
  }

  /** A canonical decimal is left as it is. */
  lemma StripCanonical(d: Decimal)
    requires Canonical(d)
    ensures StripTrailingZeros(d) == d
  {
  }

  /** A power of ten above one is a multiple of ten. */
  lemma Pow10Multiple(k: nat)
    requires k >= 1
    ensures Pow10(k) % 10 == 0
  {
    var p := Pow10(k - 1);
    assert Pow10(k) == 10 * p;
  }

  lemma MultipleOfTen(x: int, p: nat)
    requires p % 10 == 0
    ensures (x * p) % 10 == 0
  {
    var q := p / 10;
    assert p == 10 * q;
    assert x * p == 10 * (x * q);
  }

  /** A decimal rewritten over a strictly finer scale has an unscaled value that is a multiple of ten. */
  lemma FinerScaleMultipleOfTen(a: Decimal, k: int)
    requires k > a.scale
    ensures Scaled(a, k) % 10 == 0
  {
    Pow10Multiple(k - a.scale);
    MultipleOfTen(a.unscaled, Pow10(k - a.scale));
  }

  lemma ZeroProduct(x: int, p: int)
    requires p >= 1 && x * p == 0
    ensures x == 0
  {
    MultiplyCancel(x, 0, p);
  }

  /** A canonical decimal equals no canonical decimal of a strictly finer scale. */
  lemma CanonicalScalesAgree(a: Decimal, b: Decimal)
    requires Canonical(a) && Canonical(b) && NumEq(a, b)
    ensures a.scale >= b.scale
  {
    if a.scale < b.scale {
      NumEqAt(a, b, b.scale);
      assert Scaled(b, b.scale) == b.unscaled;
      FinerScaleMultipleOfTen(a, b.scale);
      assert b.unscaled == 0;
      ZeroProduct(a.unscaled, Pow10(b.scale - a.scale));
    }
  }

  /** Each number has exactly one canonical decimal. */
  lemma CanonicalUnique(a: Decimal, b: Decimal)
    requires Canonical(a) && Canonical(b) && NumEq(a, b)
    ensures a == b
  {
    NumEqIsEquivalence(a, b, b);
    CanonicalScalesAgree(a, b);
    CanonicalScalesAgree(b, a);
    NumEqAt(a, b, a.scale);
    assert Scaled(a, a.scale) == a.unscaled && Scaled(b, a.scale) == b.unscaled;
  }

  /** Two decimals denote the same number exactly when they strip to the same decimal. */
  lemma NumEqIffSameStripped(a: Decimal, b: Decimal)
    ensures NumEq(a, b) <==> StripTrailingZeros(a) == StripTrailingZeros(b)
  {
    var sa, sb := StripTrailingZeros(a), StripTrailingZeros(b);
    StripKeepsValue(a);
    StripKeepsValue(b);
    NumEqIsEquivalence(sa, a, b);
    NumEqIsEquivalence(sa, b, sb);
    NumEqIsEquivalence(sb, b, b);
    NumEqIsEquivalence(a, sa, sb);
    NumEqIsEquivalence(a, sb, b);
    if NumEq(a, b) {
      NumEqIsEquivalence(sa, b, sb);
      NumEqIsEquivalence(sb, sb, sb);
      CanonicalUnique(sa, sb);
    }
  }

  lemma DigitsHaveNoDot(s: string)
    requires AllDigits(s)
    ensures DotIndex(s) == |s|
  {
    if s != [] {
      DigitsHaveNoDot(s[1..]);
    }
  }

  lemma DotAfterDigits(a: string, b: string)
    requires AllDigits(a)
    ensures DotIndex(a + "." + b) == |a|
  {
    if a != [] {
      assert (a + "." + b)[1..] == a[1..] + "." + b;
      DotAfterDigits(a[1..], b);
    }
  }

  /** Plain text of a non-negative integer-valued canonical decimal: its digits, then `-scale` zeros. */
  lemma PlainIntegerRoundTrip(d: Decimal)
    requires Canonical(d) && d.unscaled >= 0 && d.scale <= 0
    ensures Parse(ToPlainString(d)) == Some(Decimal(d.unscaled * Pow10(-d.scale), 0))
  {
    var digits := NatToDigits(d.unscaled);
    var z := Zeros(-d.scale);
    var s := ToPlainString(d);
    assert s == digits + z;
    assert AllDigits(s) && DigitsValue(s) == d.unscaled * Pow10(-d.scale) by {
      NatToDigitsValue(d.unscaled);
      DigitsValueConcat(digits, z);
      ZerosValue(-d.scale);
    }
    ParseDigits(s);
  }

  /** A non-empty string of digits parses as the integer it denotes. */
  lemma ParseDigits(s: string)
    requires s != [] && AllDigits(s)
    ensures Parse(s) == Some(Decimal(DigitsValue(s), 0))
  {
    DigitsHaveNoDot(s);
    assert IntPart(s) == s by { assert s[..|s|] == s; }
    assert FracPart(s) == [];
    assert s + [] == s;
    assert s[0] != '-' && s[0] != '+';
  }

  /** Unsigned text with a point reads as all its digits over the fraction's length. */
  lemma ParsePointed(ip: string, fp: string)
    requires ip != [] && AllDigits(ip) && AllDigits(fp)
    ensures AllDigits(ip + fp)
    ensures Parse(ip + "." + fp) == Some(Decimal(DigitsValue(ip + fp), |fp|))
  {
    var s := ip + "." + fp;
    DotAfterDigits(ip, fp);
    assert s[0] == ip[0];
    assert s[..|ip|] == ip;
    assert s[|ip| + 1..] == fp;
    DigitsValueConcat(ip, fp);
  }

  /** Plain text with the point inside the digits splits back into the same digits and scale. */
  lemma PlainInnerPointRoundTrip(d: Decimal)
    requires d.unscaled >= 0 && d.scale > 0 && |NatToDigits(d.unscaled)| > d.scale
    ensures Parse(ToPlainString(d)) == Some(d)
  {
    var digits := NatToDigits(d.unscaled);
    NatToDigitsValue(d.unscaled);
    var n := |digits| - d.scale;
    var ip, fp := digits[..n], digits[n..];
    assert ToPlainString(d) == ip + "." + fp;
    assert ip + fp == digits;
    ParsePointed(ip, fp);
    assert |fp| == d.scale;
  }

  /** The digits of a decimal below one: zeros up to the scale, then the digits of the unscaled value. */
  function FractionDigits(d: Decimal): (fp: string)
    requires d.unscaled >= 0 && d.scale > 0 && |NatToDigits(d.unscaled)| <= d.scale
    ensures |fp| == d.scale && AllDigits(fp)
  {
    Zeros(d.scale - |NatToDigits(d.unscaled)|) + NatToDigits(d.unscaled)
  }

  lemma PlainFractionText(d: Decimal)
    requires d.unscaled >= 0 && d.scale > 0 && |NatToDigits(d.unscaled)| <= d.scale
    ensures ToPlainString(d) == "0" + "." + FractionDigits(d)
  {
    var digits := NatToDigits(d.unscaled);
    var z := Zeros(d.scale - |digits|);
    assert ToPlainString(d) == "0." + z + digits;
  }

  lemma FractionDigitsValue(d: Decimal)
    requires d.unscaled >= 0 && d.scale > 0 && |NatToDigits(d.unscaled)| <= d.scale
    ensures AllDigits("0" + FractionDigits(d)) && DigitsValue("0" + FractionDigits(d)) == d.unscaled
  {
    var digits := NatToDigits(d.unscaled);
    var z := Zeros(d.scale - |digits|);
    NatToDigitsValue(d.unscaled);
    ZerosPrefixValue(d.scale - |digits|, digits);
    assert Zeros(1) == "0";
    ZerosPrefixValue(1, z + digits);
  }

  /** Plain text below one, "0." then zeros then the digits, reads back with the same digits and scale. */
  lemma PlainFractionRoundTrip(d: Decimal)
    requires d.unscaled >= 0 && d.scale > 0 && |NatToDigits(d.unscaled)| <= d.scale
    ensures Parse(ToPlainString(d)) == Some(d)
  {
    PlainFractionText(d);
    FractionDigitsValue(d);
    ParsePointed("0", FractionDigits(d));
  }

  /** Reading back the plain text of a non-negative canonical decimal gives the same number. */
  lemma PlainStringRoundTrip(d: Decimal)
    requires Canonical(d) && d.unscaled >= 0
    ensures Parse(ToPlainString(d)).Some?
    ensures StripTrailingZeros(Parse(ToPlainString(d)).value) == d
  {
    if d.scale <= 0 {
      PlainIntegerRoundTrip(d);
      var p := Decimal(d.unscaled * Pow10(-d.scale), 0);
      NumEqAt(p, d, 0);
      StripKeepsValue(p);
      NumEqIsEquivalence(StripTrailingZeros(p), p, d);
      CanonicalUnique(StripTrailingZeros(p), d);
    } else if |NatToDigits(d.unscaled)| > d.scale {
      PlainInnerPointRoundTrip(d);
    } else {
      PlainFractionRoundTrip(d);
    }
  }

  lemma UnsignedCharacters(body: string, j: nat)
    requires ParseUnsigned(body).Some? && j < |body|
    ensures IsAsciiDigit(body[j]) || body[j] == '.'
  {
    var dot := DotIndex(body);
    if j < dot {
      assert body[j] == body[..dot][j];
    } else if j > dot {
      assert body[j] == body[dot + 1..][j - dot - 1];
    }
  }

  /** Only digits, one point and a leading sign can occur in text that reads as a decimal. */
  lemma ParsedCharacters(t: string, i: nat)
    requires Parse(t).Some? && i < |t|
    ensures IsAsciiDigit(t[i]) || t[i] == '.' || (i == 0 && (t[i] == '+' || t[i] == '-'))
  {
    if t[0] == '+' || t[0] == '-' {
      if i > 0 {
        UnsignedCharacters(t[1..], i - 1);
      }
    } else {
      UnsignedCharacters(t, i);
    }
  }

  /** Text with a leading '-' never reads as a positive number. */
  lemma ParsedMinusNotPositive(t: string)
    requires Parse(t).Some? && t[0] == '-'
    ensures Parse(t).value.unscaled <= 0
  {
  }

  /** A leading '+' changes nothing. */
  lemma ParsePlusSign(t: string)
    requires t != [] && t[0] != '+' && t[0] != '-'
    ensures Parse("+" + t) == Parse(t)
  {
    assert ("+" + t)[1..] == t;
  }

  lemma {:induction false} DotIndexAfterDigits(z: string, t: string)
    requires AllDigits(z)
    ensures DotIndex(z + t) == |z| + DotIndex(t)
    decreases |z|
  {
    if z == [] {
      assert z + t == t;
    } else {
      assert (z + t)[1..] == z[1..] + t;
      DotIndexAfterDigits(z[1..], t);
    }
  }

  /** Leading zeros change nothing in unsigned text that reads as a decimal. */
  lemma UnsignedLeadingZeros(k: nat, t: string)
    requires ParseUnsigned(t).Some?
    ensures ParseUnsigned(Zeros(k) + t) == ParseUnsigned(t)
  {
    var z := Zeros(k);
    var ip, fp := IntPart(t), FracPart(t);
    ZerosShiftParts(z, t);
    DigitsValueConcat(ip, fp);
    ZerosPrefixValue(k, ip);
    ZerosPrefixValue(k, ip + fp);
    ConcatAssociative(z, ip, fp);
    assert ParseUnsigned(z + t) == Some(Decimal(DigitsValue(z + ip + fp), |fp|));
  }

  lemma ConcatAssociative(a: string, b: string, c: string)
    ensures a + b + c == a + (b + c)
  {
  }

  lemma ZerosShiftParts(z: string, t: string)
    requires AllDigits(z)
    ensures IntPart(z + t) == z + IntPart(t) && FracPart(z + t) == FracPart(t)
  {
    DotIndexAfterDigits(z, t);
    var dot := DotIndex(t);
    assert (z + t)[..|z| + dot] == z + t[..dot];
    if dot < |t| {
      assert (z + t)[|z| + dot + 1..] == t[dot + 1..];
    }
  }

  lemma ParseLeadingZeros(k: nat, t: string)
    requires t != [] && t[0] != '+' && t[0] != '-' && Parse(t).Some?
    ensures Parse(Zeros(k) + t) == Parse(t)
  {
    UnsignedLeadingZeros(k, t);
    var u := Zeros(k) + t;
    if k > 0 {
      assert u[0] == '0';
    } else {
      assert u == t;
    }
  }

  /** A point with nothing after it changes nothing: "1000." reads as "1000". */
  lemma ParseTrailingPoint(ip: string)
    requires ip != [] && AllDigits(ip)
    ensures Parse(ip + ".") == Parse(ip)
  {
    ParsePointed(ip, []);
    assert ip + "." + [] == ip + ".";
    assert ip + [] == ip;
    DigitsHaveNoDot(ip);
    assert ip[..|ip|] == ip;
  }

  /** Trailing fraction zeros keep the number and only raise the scale. */
  /** Zeros after a digit string multiply its value by a power of ten. */
  lemma ZerosTimesTen(s: string, k: nat)
    requires AllDigits(s)
    ensures AllDigits(s + Zeros(k)) && DigitsValue(s + Zeros(k)) == DigitsValue(s) * Pow10(k)
  {
    DigitsValueConcat(s, Zeros(k));
    ZerosValue(k);
  }

  lemma ParseFractionZeros(ip: string, fp: string, k: nat)
    requires ip != [] && AllDigits(ip) && AllDigits(fp)
    ensures Parse(ip + "." + (fp + Zeros(k))).Some? && Parse(ip + "." + fp).Some?
    ensures NumEq(Parse(ip + "." + (fp + Zeros(k))).value, Parse(ip + "." + fp).value)
  {
    var z := Zeros(k);
    ParsePointed(ip, fp + z);
    ParsePointed(ip, fp);
    var a := Parse(ip + "." + (fp + z)).value;
    var b := Parse(ip + "." + fp).value;
    assert a.unscaled == b.unscaled * Pow10(k) by {
      ConcatAssociative(ip, fp, z);
      ZerosTimesTen(ip + fp, k);
    }
    assert a == Decimal(b.unscaled * Pow10(k), b.scale + k);
    ShiftedNumEq(b, k);
  }

  /** Multiplying the unscaled value by 10^k and adding k to the scale keeps the number. */
  lemma ShiftedNumEq(b: Decimal, k: nat)
    ensures NumEq(Decimal(b.unscaled * Pow10(k), b.scale + k), b)
  {
    var a := Decimal(b.unscaled * Pow10(k), b.scale + k);
    assert Scaled(a, a.scale) == a.unscaled * Pow10(0);
    assert Scaled(b, a.scale) == b.unscaled * Pow10(k);
    NumEqAt(a, b, a.scale);
  }
}
