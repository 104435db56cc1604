/** A patient's medical information: text whose first character is not whitespace, kept verbatim. */
module MedicalInfo {
  import opened JavaString

  /**
   * `MedicalInfo.isValidMedicalInfo`: the whole string matches `[^\s].*`. The first character
   * must not be `\s`; `.` matches any character except a line terminator; `[^\s]` does match one.
   */
  predicate IsValidMedicalInfo(s: string) {
    |s| >= 1 && !IsRegexSpace(s[0]) && forall i :: 1 <= i < |s| ==> !IsLineTerminator(s[i])
  }

  /** `MedicalInfo`: the text is stored as given; equality and hash are those of the raw string. */
  datatype MedicalInfo = MedicalInfo(medicalInfo: string)

  function MakeMedicalInfo(s: string): (m: MedicalInfo)
    requires IsValidMedicalInfo(s)
    ensures m.medicalInfo == s
  {
    MedicalInfo(s)
  }

  /** `MedicalInfo.toString` gives back the stored text. */
  function ToString(m: MedicalInfo): (s: string)
    ensures s == m.medicalInfo
  {
    m.medicalInfo
  }

  /** The placeholder used when medical information is absent. */
  const Placeholder: string := "-"

  lemma PlaceholderValid()
    ensures IsValidMedicalInfo(Placeholder)
  {
  }

  /** Blank text is refused and so is text that starts with whitespace. */
  lemma BlankRefused(s: string)
    requires s == [] || IsRegexSpace(s[0])
    ensures !IsValidMedicalInfo(s)
  {
  }

  /** Text with a line break after its first character is refused. */
  lemma MultiLineRefused(s: string, i: nat)
    requires 1 <= i < |s| && (s[i] == '\n' || s[i] == '\r')
    ensures !IsValidMedicalInfo(s)
  {
  }

  /** Spaces after the first character are accepted, as in "diabetes type 2". */
  lemma InnerSpacesAccepted(w: string, rest: string)
    requires w != [] && !IsRegexSpace(w[0])
    requires forall i :: 0 <= i < |w| ==> !IsLineTerminator(w[i])
    requires forall i :: 0 <= i < |rest| ==> !IsLineTerminator(rest[i])
    ensures IsValidMedicalInfo(w + " " + rest)
  {
    var s := w + " " + rest;
    forall i | 1 <= i < |s| ensures !IsLineTerminator(s[i]) {
      if i < |w| {
        assert s[i] == w[i];
      } else if i > |w| {
        assert s[i] == rest[i - |w| - 1];
      }
    }
  }

  /** Valid text may still be blank after trimming when it starts with a control character. */
  lemma ControlCharacterAccepted()
    ensures IsValidMedicalInfo([1 as char]) && Trim([1 as char]) == []
  {
  }
}
