/** A patient's income: an exact non-negative decimal, kept without trailing zeros and compared numerically. */
module PatientIncome {
  import opened Wrappers
  import opened JavaString
  import opened Decimal

  /**
   * `Income.isValidIncome`: the trimmed text is not empty, reads as a decimal, and is not
   * below zero (`compareTo(BigDecimal.ZERO) >= 0`).
   */
  predicate IsValidIncome(s: string) {
    var t := Trim(s);
    t != [] && Parse(t).Some? && CompareTo(Parse(t).value, Decimal(0, 0)) >= 0
  }

  /** `Income`: the decimal `value` as the constructor left it. */
  datatype Income = Income(value: Decimal)

  /** `new Income(s)`: parse the trimmed text and strip its trailing zeros. */
  function MakeIncome(s: string): (i: Income)
    requires IsValidIncome(s)
    ensures Canonical(i.value) && i.value.unscaled >= 0
    ensures NumEq(i.value, Parse(Trim(s)).value)
  {
    var d := Parse(Trim(s)).value;
    StripKeepsValue(d);
    StripSign(d);
    Income(StripTrailingZeros(d))
  }

  /** `Income.toString`: the plain text of the stripped value. */
  function ToString(i: Income): string {
    ToPlainString(StripTrailingZeros(i.value))
  }

  /** `Income.equals`: the two values compare equal. */
  predicate Equal(a: Income, b: Income) {
    CompareTo(a.value, b.value) == 0
  }

  /**
   * `Income.hashCode`: the hash of the stripped value. `BigDecimal.hashCode` combines the hash of
   * the unscaled value with the scale; the exact 32-bit arithmetic is not modelled.
   */
  function HashCode(i: Income): int {
    var d := StripTrailingZeros(i.value);
    31 * d.unscaled + d.scale
  }

  /** Stripping does not change the sign of the unscaled value. */
  lemma StripSign(d: Decimal)
    ensures (StripTrailingZeros(d).unscaled >= 0) == (d.unscaled >= 0)
  {
    StripKeepsValue(d);
    var r := StripTrailingZeros(d);
    var k := Max(r.scale, d.scale);
    NumEqAt(r, d, k);
    SignOfScaled(r, k);
    SignOfScaled(d, k);
  }

  lemma SignOfScaled(d: Decimal, k: int)
    requires k >= d.scale
    ensures (Scaled(d, k) >= 0) == (d.unscaled >= 0)
  {
    var p := Pow10(k - d.scale);
    if d.unscaled < 0 {
      assert d.unscaled * p <= d.unscaled * 1;
    }
  }

  /** A valid income text reads as a decimal whose unscaled value is not negative. */
  lemma ValidMeansNonNegative(s: string)
    ensures IsValidIncome(s) <==> Trim(s) != [] && Parse(Trim(s)).Some? && Parse(Trim(s)).value.unscaled >= 0
  {
    var t := Trim(s);
    if Parse(t).Some? {
      var d := Parse(t).value;
      NumEqAt(d, Decimal(0, 0), Max(d.scale, 0));
      SignOfScaled(d, Max(d.scale, 0));
      assert Scaled(Decimal(0, 0), Max(d.scale, 0)) == 0;
    }
  }

  /** Equality is numeric and agrees with equality of the stored canonical values. */
  lemma EqualIffSameValue(a: Income, b: Income)
    requires Canonical(a.value) && Canonical(b.value)
    ensures Equal(a, b) <==> a == b
  {
    NumEqIffSameStripped(a.value, b.value);
    StripCanonical(a.value);
    StripCanonical(b.value);
  }

  /** Texts that denote the same number build equal incomes, whatever their trailing zeros. */
  lemma SameNumberSameIncome(s: string, t: string)
    requires IsValidIncome(s) && IsValidIncome(t)
    ensures Equal(MakeIncome(s), MakeIncome(t)) <==> NumEq(Parse(Trim(s)).value, Parse(Trim(t)).value)
    ensures Equal(MakeIncome(s), MakeIncome(t)) <==> MakeIncome(s) == MakeIncome(t)
  {
    var a, b := Parse(Trim(s)).value, Parse(Trim(t)).value;
    NumEqIffSameStripped(a, b);
    EqualIffSameValue(MakeIncome(s), MakeIncome(t));
  }

  /** Equal incomes have equal hashes. */
  lemma HashConsistent(a: Income, b: Income)
    ensures Equal(a, b) ==> HashCode(a) == HashCode(b)
  {
    NumEqIffSameStripped(a.value, b.value);
  }

  /** The printed form is valid and rebuilds the same income. */
  lemma ToStringRoundTrip(s: string)
    requires IsValidIncome(s)
    ensures IsValidIncome(ToString(MakeIncome(s)))
    ensures MakeIncome(ToString(MakeIncome(s))) == MakeIncome(s)
  {
    CanonicalRoundTrip(MakeIncome(s));
  }

  /** Every income the constructor can build prints to a valid text that rebuilds it exactly. */
  lemma CanonicalRoundTrip(i: Income)
    requires Canonical(i.value) && i.value.unscaled >= 0
    ensures IsValidIncome(ToString(i)) && MakeIncome(ToString(i)) == i
  {
    StripCanonical(i.value);
    var text := ToString(i);
    assert text == ToPlainString(i.value);
    TrimFixpoint(text);
    PlainStringRoundTrip(i.value);
    ValidMeansNonNegative(text);
    var p := Parse(text).value;
    StripSign(p);
  }

  /** Blank text is refused: "" and " ". */
  lemma BlankRefused(s: string)
    requires Trim(s) == []
    ensures !IsValidIncome(s)
  {
  }

  /** A character other than a digit, a point or a leading sign is refused: "1,000", "$1000", "abc". */
  lemma ForeignCharacterRefused(s: string, i: nat)
    requires i < |Trim(s)|
    requires !IsAsciiDigit(Trim(s)[i]) && Trim(s)[i] != '.' && Trim(s)[i] != '+' && Trim(s)[i] != '-'
    ensures !IsValidIncome(s)
  {
    if Parse(Trim(s)).Some? {
      ParsedCharacters(Trim(s), i);
    }
  }

  /** A negative number is refused, as "-1"; only a negative zero such as "-0" gets through. */
  lemma NegativeRefused(s: string)
    requires IsValidIncome(s) && Trim(s)[0] == '-'
    ensures Parse(Trim(s)).value.unscaled == 0
  {
    ValidMeansNonNegative(s);
    ParsedMinusNotPositive(Trim(s));
  }

  /** Text that is its own trim: not empty, and neither end at or below U+0020. */
  predicate Trimmed(t: string) {
    t != [] && !IsTrimmable(t[0]) && !IsTrimmable(t[|t| - 1])
  }

  /** Two trimmed texts that read as the same number give the same income. */
  lemma SameParse(s: string, t: string)
    requires Trimmed(s) && Trimmed(t) && Parse(s).Some? && Parse(t).Some?
    requires NumEq(Parse(s).value, Parse(t).value)
    ensures IsValidIncome(s) <==> IsValidIncome(t)
    ensures IsValidIncome(s) ==> MakeIncome(s) == MakeIncome(t)
  {
    TrimFixpoint(s);
    TrimFixpoint(t);
    ValidMeansNonNegative(s);
    ValidMeansNonNegative(t);
    var a, b := Parse(s).value, Parse(t).value;
    NumEqIffSameStripped(a, b);
    StripSign(a);
    StripSign(b);
  }

  /** A leading '+' is accepted and ignored: "+2.5" is the income 2.5. */
  lemma PlusSignIgnored(t: string)
    requires Trimmed(t) && t[0] != '+' && t[0] != '-'
    ensures IsValidIncome("+" + t) <==> IsValidIncome(t)
    ensures IsValidIncome(t) ==> MakeIncome("+" + t) == MakeIncome(t)
  {
    ParsePlusSign(t);
    var u := "+" + t;
    assert u[|u| - 1] == t[|t| - 1];
    TrimFixpoint(u);
    TrimFixpoint(t);
    if Parse(t).Some? {
      NumEqIsEquivalence(Parse(t).value, Parse(t).value, Parse(t).value);
      SameParse(u, t);
    }
  }

  /** Leading zeros are accepted and ignored: "00123" is the income 123 and "000.50" is 0.50. */
  lemma LeadingZerosIgnored(k: nat, t: string)
    requires Trimmed(t) && t[0] != '+' && t[0] != '-' && IsValidIncome(t)
    ensures IsValidIncome(Zeros(k) + t) && MakeIncome(Zeros(k) + t) == MakeIncome(t)
  {
    TrimFixpoint(t);
    ParseLeadingZeros(k, t);
    var u := Zeros(k) + t;
    assert u[|u| - 1] == t[|t| - 1];
    if k > 0 {
      assert u[0] == '0';
    } else {
      assert u == t;
    }
    NumEqIsEquivalence(Parse(t).value, Parse(t).value, Parse(t).value);
    SameParse(u, t);
  }

  /** Trailing fraction zeros are ignored: "1000.5000" is the income 1000.5 and "1000.0" is 1000. */
  lemma FractionZerosIgnored(ip: string, fp: string, k: nat)
    requires ip != [] && AllDigits(ip) && AllDigits(fp)
    ensures IsValidIncome(ip + "." + (fp + Zeros(k))) && IsValidIncome(ip + "." + fp)
    ensures MakeIncome(ip + "." + (fp + Zeros(k))) == MakeIncome(ip + "." + fp)
  {
    var s, t := ip + "." + (fp + Zeros(k)), ip + "." + fp;
    ParseFractionZeros(ip, fp, k);
    assert s[0] == ip[0] && t[0] == ip[0];
    assert s[|s| - 1] == '.' || IsAsciiDigit(s[|s| - 1]);
    assert t[|t| - 1] == '.' || IsAsciiDigit(t[|t| - 1]);
    TrimFixpoint(t);
    ValidMeansNonNegative(t);
    SameParse(s, t);
  }

  /** A point with no fraction is ignored: "1000." is the income 1000. */
  lemma TrailingPointIgnored(ip: string)
    requires ip != [] && AllDigits(ip)
    ensures IsValidIncome(ip + ".") && IsValidIncome(ip) && MakeIncome(ip + ".") == MakeIncome(ip)
  {
    ParseTrailingPoint(ip);
    var u := ip + ".";
    assert u[0] == ip[0];
    DigitsHaveNoDot(ip);
    assert ip[..|ip|] == ip;
    TrimFixpoint(ip);
    ValidMeansNonNegative(ip);
    NumEqIsEquivalence(Parse(ip).value, Parse(ip).value, Parse(ip).value);
    SameParse(u, ip);
  }
}
