/**
 * The parse errors, and the field parsers every command parser shares. `ParserUtil` is not part
 * of this model's sources; each field parser trims its text, validates it and builds the value,
 * as the parser tests require.
 */
module ParserUtil {
  import opened Wrappers
  import opened JavaString
  import opened Arguments
  import opened Indices
  import Name
  import Phone
  import PersonIncome
  import MedicalInfo
  import opened Notes

  /** `NOTE_STRING` and `PATIENT_STRING`: the sub-command words of `edit` and `delete`. */
  const NoteString: string := "note"
  const PatientString: string := "patient"

  /** The fields whose types report their own constraint message. */
  datatype Field = NameField | PhoneField | EmailField | AddressField | IncomeField | MedicalInfoField | TagField | NoteField

  /** `getSimpleName()` of the field's class, as the storage messages print it. */
  function ClassName(f: Field): (s: string)
    ensures s != []
    ensures f == NameField ==> s == "Name"
    ensures f == PhoneField ==> s == "Phone"
    ensures f == EmailField ==> s == "Email"
    ensures f == AddressField ==> s == "Address"
    ensures f == IncomeField ==> s == "Income"
    ensures f == MedicalInfoField ==> s == "MedicalInfo"
    ensures f == TagField ==> s == "Tag"
    ensures f == NoteField ==> s == "Note"
  {
    match f
    case NameField => "Name"
    case PhoneField => "Phone"
    case EmailField => "Email"
    case AddressField => "Address"
    case IncomeField => "Income"
    case MedicalInfoField => "MedicalInfo"
    case TagField => "Tag"
    case NoteField => "Note"
  }

  /** Distinct fields have distinct class names, so a message naming the class names the field. */
  lemma ClassNameInjective(f: Field, g: Field)
    ensures ClassName(f) == ClassName(g) <==> f == g
  {
  }

  /** The usage text a format error carries. */
  datatype Usage =
    | HelpUsage | AddUsage | EditUsage | EditNoteUsage | NoteUsage
    | DeleteNoteUsage | DeletePatientUsage | DeleteFormat | ViewDetailsUsage | FindUsage

  /** `ParseException`, by the message it carries. */
  datatype ParseError =
    | InvalidFormat(usage: Usage)            // MESSAGE_INVALID_COMMAND_FORMAT with a usage text
    | UnknownCommand                         // MESSAGE_UNKNOWN_COMMAND
    | DuplicatePrefixes(prefixes: set<string>)  // the single-valued prefixes given more than once
    | Constraint(field: Field)               // the field type's MESSAGE_CONSTRAINTS
    | InvalidIndex                           // MESSAGE_INVALID_INDEX
    | NotEdited                              // MESSAGE_NOT_EDITED
    | WithUsage(cause: ParseError, usage: Usage)  // a cause's message, a line break, then a usage text

  /** `verifyNoDuplicatePrefixesFor`: fails naming every prefix of `ps` given more than once. */
  function VerifyNoDuplicates(m: ArgMap, ps: seq<string>): (r: Result<(), ParseError>)
    ensures r.Ok? <==> forall p :: p in ps ==> |GetAllValues(m, p)| <= 1
    ensures r.Err? ==> r.error == DuplicatePrefixes(DuplicatedPrefixes(m, ps)) && r.error.prefixes != {}
  {
    var d := DuplicatedPrefixes(m, ps);
    if d == {} then Ok(()) else Err(DuplicatePrefixes(d))
  }

  /**
   * A parse whose `ParseException` is caught and replaced by a format error carrying `usage`
   * (the caught exception becomes the cause, which the message does not show).
   */
  function AsFormatError<T>(r: Result<T, ParseError>, usage: Usage): (w: Result<T, ParseError>)
    ensures w.Ok? <==> r.Ok?
    ensures w.Ok? ==> w.value == r.value
    ensures w.Err? ==> w.error == InvalidFormat(usage)
  {
    if r.Ok? then Ok(r.value) else Err(InvalidFormat(usage))
  }

  /** `StringUtil.isNonZeroUnsignedInteger`: ASCII digits only, no sign, in 1 ..= `Integer.MAX_VALUE`. */
  predicate IsNonZeroUnsignedInteger(s: string) {
    s != [] && AllDigits(s) && 1 <= DigitsValue(s) <= 0x7FFF_FFFF
  }

  /** `parseIndex`: the trimmed text as a one-based index. */
  function ParseIndex(s: string): (r: Result<Index, ParseError>)
    ensures r.Ok? <==> IsNonZeroUnsignedInteger(Trim(s))
    ensures r.Ok? ==> GetOneBased(r.value) == DigitsValue(Trim(s))
    ensures r.Err? ==> r.error == InvalidIndex
  {
    var t := Trim(s);
    if !IsNonZeroUnsignedInteger(t) then Err(InvalidIndex) else Ok(Index(DigitsValue(t) - 1))
  }

  /** Printing a one-based position in decimal and parsing it back gives the same index. */
  lemma ParseIndexRoundTrip(k: nat)
    requires 1 <= k <= 0x7FFF_FFFF
    ensures ParseIndex(NatToDigits(k)) == Ok(Index(k - 1))
  {
    var s := NatToDigits(k);
    TrimFixpoint(s);
    NatToDigitsValue(k);
  }

  /** A sign, even on a positive number, and zero are refused: "+1", "-5", "0", "00". */
  lemma SignedOrZeroRefused(s: string)
    requires Trim(s) != [] && (Trim(s)[0] == '+' || Trim(s)[0] == '-' || (AllDigits(Trim(s)) && DigitsValue(Trim(s)) == 0))
    ensures ParseIndex(s) == Err(InvalidIndex)
  {
  }

  /** `parseName`: the trimmed text must be a valid name. */
  function ParseName(s: string): (r: Result<Name.Name, ParseError>)
    ensures r.Ok? <==> Name.IsValidName(Trim(s))
    ensures r.Ok? ==> r.value.fullName == Trim(s)
    ensures r.Err? ==> r.error == Constraint(NameField)
  {
    var t := Trim(s);
    if !Name.IsValidName(t) then Err(Constraint(NameField)) else Ok(Name.MakeName(t))
  }

  /** `parsePhone`: the trimmed text must be a valid phone number. */
  function ParsePhone(s: string): (r: Result<Phone.Phone, ParseError>)
    ensures r.Ok? <==> Phone.IsValidPhone(Trim(s))
    ensures r.Ok? ==> r.value.value == Trim(s)
    ensures r.Err? ==> r.error == Constraint(PhoneField)
  {
    var t := Trim(s);
    if !Phone.IsValidPhone(t) then Err(Constraint(PhoneField)) else Ok(Phone.MakePhone(t))
  }

  /** `parseEmail`: the trimmed text must pass the e-mail validator. */
  function ParseEmail(env: Env, s: string): (r: Result<string, ParseError>)
    ensures r.Ok? <==> env.isValidEmail(Trim(s))
    ensures r.Ok? ==> r.value == Trim(s)
    ensures r.Err? ==> r.error == Constraint(EmailField)
  {
    var t := Trim(s);
    if !env.isValidEmail(t) then Err(Constraint(EmailField)) else Ok(t)
  }

  /** `parseAddress`: the trimmed text must pass the address validator. */
  function ParseAddress(env: Env, s: string): (r: Result<string, ParseError>)
    ensures r.Ok? <==> env.isValidAddress(Trim(s))
    ensures r.Ok? ==> r.value == Trim(s)
    ensures r.Err? ==> r.error == Constraint(AddressField)
  {
    var t := Trim(s);
    if !env.isValidAddress(t) then Err(Constraint(AddressField)) else Ok(t)
  }

  /** `parseIncome`: the trimmed text must be a valid (digits-only) income. */
  function ParseIncome(s: string): (r: Result<PersonIncome.Income, ParseError>)
    ensures r.Ok? <==> PersonIncome.IsValidIncome(Trim(s))
    ensures r.Ok? ==> r.value.value == Trim(s)
    ensures r.Err? ==> r.error == Constraint(IncomeField)
  {
    var t := Trim(s);
    if !PersonIncome.IsValidIncome(t) then Err(Constraint(IncomeField)) else Ok(PersonIncome.MakeIncome(t))
  }

  /** `parseMedicalInfo`: the trimmed text must be valid medical information. */
  function ParseMedicalInfo(s: string): (r: Result<MedicalInfo.MedicalInfo, ParseError>)
    ensures r.Ok? <==> MedicalInfo.IsValidMedicalInfo(Trim(s))
    ensures r.Ok? ==> r.value.medicalInfo == Trim(s)
    ensures r.Err? ==> r.error == Constraint(MedicalInfoField)
  {
    var t := Trim(s);
    if !MedicalInfo.IsValidMedicalInfo(t) then Err(Constraint(MedicalInfoField))
    else Ok(MedicalInfo.MakeMedicalInfo(t))
  }

  /** `parseNote`: the text must hold something besides whitespace; the note keeps it trimmed. */
  function ParseNote(s: string): (r: Result<Note, ParseError>)
    ensures r.Ok? <==> IsValidNote(s)
    ensures r.Ok? ==> r.value == MakeNote(s)
    ensures r.Err? ==> r.error == Constraint(NoteField)
  {
    var t := Trim(s);
    TrimIdempotent(s);
    if !IsValidNote(t) then Err(Constraint(NoteField)) else Ok(MakeNote(t))
  }

  /** `parseTag`: the trimmed text must be a valid tag name. */
  function ParseTag(env: Env, s: string): (r: Result<string, ParseError>)
    ensures r.Ok? <==> env.isValidTag(Trim(s))
    ensures r.Ok? ==> r.value == Trim(s)
    ensures r.Err? ==> r.error == Constraint(TagField)
  {
    var t := Trim(s);
    if !env.isValidTag(t) then Err(Constraint(TagField)) else Ok(t)
  }

  /** `parseTags`: every text must be a valid tag; the result is the set of trimmed names. */
  function ParseTags(env: Env, tags: seq<string>): (r: Result<set<string>, ParseError>)
    ensures r.Ok? <==> forall i :: 0 <= i < |tags| ==> env.isValidTag(Trim(tags[i]))
    ensures r.Ok? ==> r.value == set i | 0 <= i < |tags| :: Trim(tags[i])
    ensures r.Err? ==> r.error == Constraint(TagField)
    decreases |tags|
  {
    if tags == [] then Ok({})
    else
      var t :- ParseTag(env, tags[0]);
      var rest :- ParseTags(env, tags[1..]);
      TagSetSplit(tags);
      Ok({t} + rest)
  }

  lemma TagSetSplit(tags: seq<string>)
    requires tags != []
    ensures (set i | 0 <= i < |tags| :: Trim(tags[i])) == {Trim(tags[0])} + set i | 0 <= i < |tags[1..]| :: Trim(tags[1..][i])
  {
    var a := set i | 0 <= i < |tags| :: Trim(tags[i]);
    var b := set i | 0 <= i < |tags[1..]| :: Trim(tags[1..][i]);
    forall x | x in a
      ensures x in {Trim(tags[0])} + b
    {
      var i :| 0 <= i < |tags| && x == Trim(tags[i]);
      if i > 0 {
        assert tags[1..][i - 1] == tags[i];
      }
    }
    forall x | x in b
      ensures x in a
    {
      var i :| 0 <= i < |tags[1..]| && x == Trim(tags[1..][i]);
      assert tags[1..][i] == tags[i + 1];
    }
  }

  /** A tag given again, even with different surrounding spaces, changes nothing: tags form a set. */
  lemma RepeatedTagCollapses(env: Env, tags: seq<string>, j: nat, u: string)
    requires j < |tags| && Trim(u) == Trim(tags[j])
    ensures ParseTags(env, tags + [u]) == ParseTags(env, tags)
  {
    SameValidity(env, tags, j, u);
    SameNames(tags, j, u);
  }

  lemma SameValidity(env: Env, tags: seq<string>, j: nat, u: string)
    requires j < |tags| && Trim(u) == Trim(tags[j])
    ensures (forall i :: 0 <= i < |tags + [u]| ==> env.isValidTag(Trim((tags + [u])[i])))
        <==> (forall i :: 0 <= i < |tags| ==> env.isValidTag(Trim(tags[i])))
  {
    var more := tags + [u];
    if forall i :: 0 <= i < |tags| ==> env.isValidTag(Trim(tags[i])) {
      forall i | 0 <= i < |more|
        ensures env.isValidTag(Trim(more[i]))
      {
        if i < |tags| {
          assert more[i] == tags[i];
        } else {
          assert Trim(more[i]) == Trim(tags[j]);
        }
      }
    }
    if forall i :: 0 <= i < |more| ==> env.isValidTag(Trim(more[i])) {
      forall i | 0 <= i < |tags|
        ensures env.isValidTag(Trim(tags[i]))
      {
        assert more[i] == tags[i];
      }
    }
  }

  lemma SameNames(tags: seq<string>, j: nat, u: string)
    requires j < |tags| && Trim(u) == Trim(tags[j])
    ensures (set i | 0 <= i < |tags + [u]| :: Trim((tags + [u])[i])) == set i | 0 <= i < |tags| :: Trim(tags[i])
  {
    var more := tags + [u];
    var a := set i | 0 <= i < |more| :: Trim(more[i]);
    var b := set i | 0 <= i < |tags| :: Trim(tags[i]);
    forall x | x in a
      ensures x in b
    {
      var i :| 0 <= i < |more| && x == Trim(more[i]);
      if i == |tags| {
        assert x == Trim(tags[j]);
      } else {
        assert more[i] == tags[i];
      }
    }
    forall x | x in b
      ensures x in a
    {
      var i :| 0 <= i < |tags| && x == Trim(tags[i]);
      assert more[i] == tags[i];
    }
  }
}
