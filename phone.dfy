/** A person's phone number: the phone regex, the 20-digit cap and exact equality. */
module Phone {
  import opened JavaString

  /** `\d{3,17}`: the subscriber number. */
  predicate Subscriber(s: string) {
    3 <= |s| <= 17 && AllDigits(s)
  }

  /** `\+\d{k}\s?` followed by the subscriber number, for a country code of `k` digits. */
  predicate PlusForm(s: string, k: nat)
    requires 1 <= k <= 3
  {
    |s| > k + 1 && s[0] == '+' && AllDigits(s[1..k + 1])
    && (Subscriber(s[k + 1..]) || (IsRegexSpace(s[k + 1]) && Subscriber(s[k + 2..])))
  }

  /** `\d{k}\s` followed by the subscriber number. */
  predicate BareForm(s: string, k: nat)
    requires 1 <= k <= 3
  {
    |s| > k && AllDigits(s[..k]) && IsRegexSpace(s[k]) && Subscriber(s[k + 1..])
  }

  /** The whole string matches `(\+\d{1,3}\s?|\d{1,3}\s)?\d{3,17}`. */
  predicate MatchesPhoneRegex(s: string) {
    Subscriber(s)
    || PlusForm(s, 1) || PlusForm(s, 2) || PlusForm(s, 3)
    || BareForm(s, 1) || BareForm(s, 2) || BareForm(s, 3)
  }

  /** `replaceAll("[\\s+]", "")`: drop every `\s` character and every '+'. */
  function StripSpaceAndPlus(s: string): (r: string)
    ensures |r| <= |s|
    ensures forall i :: 0 <= i < |r| ==> !IsRegexSpace(r[i]) && r[i] != '+'
  {
    if s == [] then []
    else if IsRegexSpace(s[0]) || s[0] == '+' then StripSpaceAndPlus(s[1..])
    else [s[0]] + StripSpaceAndPlus(s[1..])
  }

  /** `Phone.isValidPhone`: the regex matches and at most 20 characters remain after stripping. */
  predicate IsValidPhone(s: string) {
    MatchesPhoneRegex(s) && |StripSpaceAndPlus(s)| <= 20
  }

  /** `Phone`: the number is kept verbatim; equality and hash are those of the raw string. */
  datatype Phone = Phone(value: string)

  function MakePhone(s: string): (p: Phone)
    requires IsValidPhone(s)
    ensures p.value == s && IsValidPhone(p.value)
  {
    Phone(s)
  }

  lemma {:induction false} StripConcat(a: string, b: string)
    ensures StripSpaceAndPlus(a + b) == StripSpaceAndPlus(a) + StripSpaceAndPlus(b)
    decreases |a|
  {
    if a == [] {
      assert a + b == b;
    } else {
      assert (a + b)[1..] == a[1..] + b;
      StripConcat(a[1..], b);
    }
  }

  lemma {:induction false} StripDigits(s: string)
    requires AllDigits(s)
    ensures StripSpaceAndPlus(s) == s
    decreases |s|
  {
    if s != [] {
      StripDigits(s[1..]);
    }
  }

  /** Stripping keeps only the digits of the country code and of the subscriber number. */
  lemma StripPlusForm(s: string, k: nat)
    requires 1 <= k <= 3 && PlusForm(s, k)
    ensures |StripSpaceAndPlus(s)| <= k + 17
  {
    var code := s[1..k + 1];
    var rest := s[k + 1..];
    assert s == [s[0]] + code + rest;
    StripConcat([s[0]] + code, rest);
    StripConcat([s[0]], code);
    StripDigits(code);
    if Subscriber(rest) {
      StripDigits(rest);
    } else {
      assert rest == [rest[0]] + rest[1..];
      StripConcat([rest[0]], rest[1..]);
      StripDigits(rest[1..]);
    }
  }

  lemma StripBareForm(s: string, k: nat)
    requires 1 <= k <= 3 && BareForm(s, k)
    ensures |StripSpaceAndPlus(s)| <= k + 17
  {
    var code := s[..k];
    var rest := s[k + 1..];
    assert s == code + [s[k]] + rest;
    StripConcat(code + [s[k]], rest);
    StripConcat(code, [s[k]]);
    StripDigits(code);
    StripDigits(rest);
  }

  /**
   * A regex match has at most 3 code digits and 17 subscriber digits, so the 20-character cap
   * never rejects a string the regex accepts.
   */
  lemma LengthCapRedundant(s: string)
    ensures IsValidPhone(s) <==> MatchesPhoneRegex(s)
  {
    if MatchesPhoneRegex(s) {
      if Subscriber(s) {
        StripDigits(s);
      } else if PlusForm(s, 1) {
        StripPlusForm(s, 1);
      } else if PlusForm(s, 2) {
        StripPlusForm(s, 2);
      } else if PlusForm(s, 3) {
        StripPlusForm(s, 3);
      } else if BareForm(s, 1) {
        StripBareForm(s, 1);
      } else if BareForm(s, 2) {
        StripBareForm(s, 2);
      } else {
        StripBareForm(s, 3);
      }
    }
  }

  /** A number made only of digits is valid exactly when it has 3 to 17 of them. */
  lemma BareDigits(s: string)
    requires AllDigits(s)
    ensures IsValidPhone(s) <==> 3 <= |s| <= 17
  {
    LengthCapRedundant(s);
    if |s| > 3 {
      assert !IsRegexSpace(s[1]) && !IsRegexSpace(s[2]) && !IsRegexSpace(s[3]);
    }
  }

  /**
   * "91" is too short, "911" is long enough, seventeen digits are accepted and eighteen refused,
   * and a space inside the subscriber number is refused.
   */
  lemma Boundaries()
    ensures !IsValidPhone("91") && IsValidPhone("911")
    ensures IsValidPhone(Zeros(17)) && !IsValidPhone(Zeros(18))
    ensures !IsValidPhone("9312 1534")
  {
    assert !IsValidPhone("91") by { BareDigits("91"); }
    assert IsValidPhone("911") by { BareDigits("911"); }
    BareDigits(Zeros(17));
    BareDigits(Zeros(18));
    SpacedSubscriberRefused();
  }

  /** A space after four digits fits neither a country code nor the subscriber number. */
  lemma SpacedSubscriberRefused()
    ensures !IsValidPhone("9312 1534")
  {
    var t := "9312 1534";
    assert t[0] == '9' && t[1] == '3' && t[2] == '1' && t[3] == '2' && t[4] == ' ';
    assert !AllDigits(t) by { assert !IsAsciiDigit(t[4]); }
    assert !IsRegexSpace(t[1]) && !IsRegexSpace(t[2]) && !IsRegexSpace(t[3]);
    assert !MatchesPhoneRegex(t);
  }

  /** The widest accepted number: a 3-digit code with '+' and 17 subscriber digits, 20 digits in all. */
  lemma WidestNumber()
    ensures IsValidPhone("+999 12345678901234567")
  {
    var s := "+999 12345678901234567";
    assert s[1..4] == "999" && s[5..] == "12345678901234567";
    assert PlusForm(s, 3);
    LengthCapRedundant(s);
  }
}
