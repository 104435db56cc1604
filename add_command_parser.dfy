/**
 * `AddCommandParser`: the format check, then the duplicate check over the single-valued
 * prefixes, then the fields in a fixed order; the first failure is the one reported.
 */
module AddCommandParser {
  import opened Wrappers
  import opened JavaString
  import opened Arguments
  import opened ParserUtil
  import Name
  import Phone
  import PersonIncome
  import MedicalInfo
  import Persons
  import opened Commands

  /** The prefixes handed to the tokenizer. */
  const Prefixes: seq<string> := [PrefixName, PrefixPhone, PrefixEmail, PrefixAddress, PrefixIncome, PrefixMedicalInfo, PrefixTag]
  /** The prefixes that must be present. */
  const Required: seq<string> := [PrefixName, PrefixAddress, PrefixPhone, PrefixEmail, PrefixIncome]
  /** The prefixes that may be given at most once; tags may repeat. */
  const SingleValued: seq<string> := [PrefixName, PrefixPhone, PrefixEmail, PrefixAddress, PrefixIncome, PrefixMedicalInfo]

  /** The format check: the required prefixes are present and nothing precedes the first prefix. */
  predicate FormatOk(m: ArgMap) {
    ArePrefixesPresent(m, Required) && m.preamble == []
  }

  predicate NoDuplicates(m: ArgMap) {
    DuplicatedPrefixes(m, SingleValued) == {}
  }

  /** The medical information, or the placeholder "-" when m/ is absent. */
  function MedicalInfoOrPlaceholder(m: ArgMap): (r: Result<MedicalInfo.MedicalInfo, ParseError>)
    ensures GetValue(m, PrefixMedicalInfo).None? ==> r == Ok(MedicalInfo.MedicalInfo(MedicalInfo.Placeholder))
    ensures GetValue(m, PrefixMedicalInfo).Some? ==> r == ParseMedicalInfo(Value(m, PrefixMedicalInfo))
  {
    if GetValue(m, PrefixMedicalInfo).Some? then ParseMedicalInfo(Value(m, PrefixMedicalInfo))
    else
      MedicalInfo.PlaceholderValid();
      Ok(MedicalInfo.MakeMedicalInfo(MedicalInfo.Placeholder))
  }

  /**
   * `parse` on the tokenised arguments. It succeeds exactly when the format is right, no
   * single-valued prefix repeats and every field parses; the person then holds the trimmed texts,
   * the placeholder medical information when m/ is absent, the set of tag names and no notes.
   */
  function ParseArgs(env: Env, m: ArgMap): (r: Result<Command, ParseError>)
    ensures r.Ok? <==>
      FormatOk(m) && NoDuplicates(m)
      && ParseName(Value(m, PrefixName)).Ok? && ParsePhone(Value(m, PrefixPhone)).Ok?
      && ParseEmail(env, Value(m, PrefixEmail)).Ok? && ParseAddress(env, Value(m, PrefixAddress)).Ok?
      && ParseIncome(Value(m, PrefixIncome)).Ok? && MedicalInfoOrPlaceholder(m).Ok?
      && ParseTags(env, GetAllValues(m, PrefixTag)).Ok?
    ensures r.Ok? ==>
      r.value.Add? && r.value.person.notes == []
      && r.value.person.name.fullName == Trim(Value(m, PrefixName))
      && r.value.person.phone.value == Trim(Value(m, PrefixPhone))
      && r.value.person.email == Trim(Value(m, PrefixEmail))
      && r.value.person.address == Trim(Value(m, PrefixAddress))
      && r.value.person.income.value == Trim(Value(m, PrefixIncome))
      && r.value.person.medicalInfo.medicalInfo
         == (if GetValue(m, PrefixMedicalInfo).Some? then Trim(Value(m, PrefixMedicalInfo)) else MedicalInfo.Placeholder)
      && r.value.person.tags == set i | 0 <= i < |GetAllValues(m, PrefixTag)| :: Trim(GetAllValues(m, PrefixTag)[i])
  {
    if !FormatOk(m) then Err(InvalidFormat(AddUsage))
    else
      var ok :- VerifyNoDuplicates(m, SingleValued);
      var name :- ParseName(Value(m, PrefixName));
      var phone :- ParsePhone(Value(m, PrefixPhone));
      var email :- ParseEmail(env, Value(m, PrefixEmail));
      var address :- ParseAddress(env, Value(m, PrefixAddress));
      var income :- ParseIncome(Value(m, PrefixIncome));
      var medicalInfo :- MedicalInfoOrPlaceholder(m);
      var tags :- ParseTags(env, GetAllValues(m, PrefixTag));
      Ok(Add(Persons.NewPerson(name, phone, email, address, income, medicalInfo, tags)))
  }

  /** `AddCommandParser.parse`: tokenise, then decide. */
  function Parse(env: Env, args: string): (r: Result<Command, ParseError>)
    ensures r.Ok? ==> r.value.Add? && r.value.person.notes == []
  {
    ParseArgs(env, env.tokenize(args, Prefixes))
  }

  /**
   * The order of the checks: a format error comes before anything else, a duplicate error before
   * any field, and a field error names the first field whose text does not parse, in the order
   * name, phone, e-mail, address, income, medical information, tags.
   */
  lemma ErrorOrder(env: Env, m: ArgMap)
    ensures !FormatOk(m) ==> ParseArgs(env, m) == Err(InvalidFormat(AddUsage))
    ensures FormatOk(m) && !NoDuplicates(m)
        ==> ParseArgs(env, m) == Err(DuplicatePrefixes(DuplicatedPrefixes(m, SingleValued)))
    ensures FormatOk(m) && NoDuplicates(m) ==>
      var name, phone := ParseName(Value(m, PrefixName)), ParsePhone(Value(m, PrefixPhone));
      var email, address := ParseEmail(env, Value(m, PrefixEmail)), ParseAddress(env, Value(m, PrefixAddress));
      var income, medical := ParseIncome(Value(m, PrefixIncome)), MedicalInfoOrPlaceholder(m);
      var tags := ParseTags(env, GetAllValues(m, PrefixTag));
      (name.Err? ==> ParseArgs(env, m) == Err(Constraint(NameField)))
      && (name.Ok? && phone.Err? ==> ParseArgs(env, m) == Err(Constraint(PhoneField)))
      && (name.Ok? && phone.Ok? && email.Err? ==> ParseArgs(env, m) == Err(Constraint(EmailField)))
      && (name.Ok? && phone.Ok? && email.Ok? && address.Err? ==> ParseArgs(env, m) == Err(Constraint(AddressField)))
      && (name.Ok? && phone.Ok? && email.Ok? && address.Ok? && income.Err?
          ==> ParseArgs(env, m) == Err(Constraint(IncomeField)))
      && (name.Ok? && phone.Ok? && email.Ok? && address.Ok? && income.Ok? && medical.Err?
          ==> ParseArgs(env, m) == Err(Constraint(MedicalInfoField)))
      && (name.Ok? && phone.Ok? && email.Ok? && address.Ok? && income.Ok? && medical.Ok? && tags.Err?
          ==> ParseArgs(env, m) == Err(Constraint(TagField)))
  {
  }

  /** Tags may repeat: only the six single-valued prefixes take part in the duplicate check. */
  lemma RepeatedTagsAllowed(env: Env, m: ArgMap)
    requires FormatOk(m) && |GetAllValues(m, PrefixTag)| > 1
    requires forall p :: p in SingleValued ==> |GetAllValues(m, p)| <= 1
    ensures ParseArgs(env, m).Ok? || ParseArgs(env, m).error.Constraint?
  {
    assert DuplicatedPrefixes(m, SingleValued) == {};
  }
}
