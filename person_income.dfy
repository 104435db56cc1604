/** A person's income: a non-empty string of decimal digits, kept verbatim. */
module PersonIncome {
  import opened JavaString

  /** `Income.isValidIncome`: the whole string matches `\d+`. */
  predicate IsValidIncome(s: string) {
    s != [] && AllDigits(s)
  }

  /** `Income`: the text is stored as given; equality and hash are those of the raw string. */
  datatype Income = Income(value: string)

  function MakeIncome(s: string): (i: Income)
    requires IsValidIncome(s)
    ensures i.value == s
  {
    Income(s)
  }

  /** `Income.toString` gives back the stored text. */
  function ToString(i: Income): (s: string)
    ensures s == i.value
  {
    i.value
  }

  /** Every constructed income prints as a valid income that rebuilds the same value. */
  lemma ToStringRoundTrip(s: string)
    requires IsValidIncome(s)
    ensures IsValidIncome(ToString(MakeIncome(s))) && MakeIncome(ToString(MakeIncome(s))) == MakeIncome(s)
  {
  }

  /** A sign, a decimal point, a comma or a currency symbol makes the text invalid. */
  lemma NonDigitRefused(s: string, i: nat)
    requires i < |s| && (s[i] == '-' || s[i] == '+' || s[i] == '.' || s[i] == ',' || s[i] == '$')
    ensures !IsValidIncome(s)
  {
  }

  /** Equality is textual, so leading zeros matter: "01" and "1" are different incomes. */
  lemma LeadingZerosMatter()
    ensures MakeIncome("01") != MakeIncome("1")
  {
    assert MakeIncome("01").value != MakeIncome("1").value;
  }
}
