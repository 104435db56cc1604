/**
 * `EditPatientCommandParser`: the index first, then the duplicate check, then the descriptor,
 * one field per present prefix, and finally the "nothing edited" check.
 */
module EditPatientCommandParser {
  import opened Wrappers
  import opened JavaString
  import opened Arguments
  import opened ParserUtil
  import opened Commands
  import Name
  import Phone
  import PersonIncome
  import MedicalInfo

  /** The prefixes handed to the tokenizer. */
  const Prefixes: seq<string> := [PrefixName, PrefixPhone, PrefixEmail, PrefixAddress, PrefixIncome, PrefixMedicalInfo, PrefixTag]
  /** The prefixes that may be given at most once. */
  const SingleValued: seq<string> := [PrefixName, PrefixPhone, PrefixEmail, PrefixAddress, PrefixIncome, PrefixMedicalInfo]

  /**
   * `parseTagsForEdit`: no t/ at all leaves the tags unedited, a single empty t/ clears them,
   * and anything else must be a list of valid tags.
   */
  function ParseTagsForEdit(env: Env, tags: seq<string>): (r: Result<Option<set<string>>, ParseError>)
    ensures tags == [] ==> r == Ok(None)
    ensures tags == [""] ==> r == Ok(Some({}))
    ensures tags != [] && tags != [""] ==>
      (r.Ok? <==> forall i :: 0 <= i < |tags| ==> env.isValidTag(Trim(tags[i])))
      && (r.Ok? ==> r.value == Some(set i | 0 <= i < |tags| :: Trim(tags[i])))
      && (r.Err? ==> r.error == Constraint(TagField))
  {
    if tags == [] then Ok(None)
    else if |tags| == 1 && tags[0] == "" then Ok(Some({}))
    else
      var s :- ParseTags(env, tags);
      Ok(Some(s))
  }

  /** The name setter's value: none when n/ is absent, else the parsed name. */
  function NameEdit(m: ArgMap): (r: Result<Option<Name.Name>, ParseError>)
    ensures r.Ok? <==> (GetValue(m, PrefixName).Some? ==> Name.IsValidName(Trim(Value(m, PrefixName))))
    ensures r.Ok? ==> (r.value.Some? <==> GetValue(m, PrefixName).Some?)
    ensures r.Ok? && r.value.Some? ==> r.value.value.fullName == Trim(Value(m, PrefixName))
    ensures r.Err? ==> r.error == Constraint(NameField)
  {
    if GetValue(m, PrefixName).None? then Ok(None)
    else var x :- ParseName(Value(m, PrefixName)); Ok(Some(x))
  }

  /** The phone setter's value. */
  function PhoneEdit(m: ArgMap): (r: Result<Option<Phone.Phone>, ParseError>)
    ensures r.Ok? <==> (GetValue(m, PrefixPhone).Some? ==> Phone.IsValidPhone(Trim(Value(m, PrefixPhone))))
    ensures r.Ok? ==> (r.value.Some? <==> GetValue(m, PrefixPhone).Some?)
    ensures r.Ok? && r.value.Some? ==> r.value.value.value == Trim(Value(m, PrefixPhone))
    ensures r.Err? ==> r.error == Constraint(PhoneField)
  {
    if GetValue(m, PrefixPhone).None? then Ok(None)
    else var x :- ParsePhone(Value(m, PrefixPhone)); Ok(Some(x))
  }

  /** The e-mail setter's value. */
  function EmailEdit(env: Env, m: ArgMap): (r: Result<Option<string>, ParseError>)
    ensures r.Ok? <==> (GetValue(m, PrefixEmail).Some? ==> env.isValidEmail(Trim(Value(m, PrefixEmail))))
    ensures r.Ok? ==> (r.value.Some? <==> GetValue(m, PrefixEmail).Some?)
    ensures r.Ok? && r.value.Some? ==> r.value.value == Trim(Value(m, PrefixEmail))
    ensures r.Err? ==> r.error == Constraint(EmailField)
  {
    if GetValue(m, PrefixEmail).None? then Ok(None)
    else var x :- ParseEmail(env, Value(m, PrefixEmail)); Ok(Some(x))
  }

  /** The address setter's value. */
  function AddressEdit(env: Env, m: ArgMap): (r: Result<Option<string>, ParseError>)
    ensures r.Ok? <==> (GetValue(m, PrefixAddress).Some? ==> env.isValidAddress(Trim(Value(m, PrefixAddress))))
    ensures r.Ok? ==> (r.value.Some? <==> GetValue(m, PrefixAddress).Some?)
    ensures r.Ok? && r.value.Some? ==> r.value.value == Trim(Value(m, PrefixAddress))
    ensures r.Err? ==> r.error == Constraint(AddressField)
  {
    if GetValue(m, PrefixAddress).None? then Ok(None)
    else var x :- ParseAddress(env, Value(m, PrefixAddress)); Ok(Some(x))
  }

  /** The income setter's value; a parser that does not read i/ never sets it. */
  function IncomeEdit(m: ArgMap, withIncome: bool): (r: Result<Option<PersonIncome.Income>, ParseError>)
    ensures r.Ok? <==> (withIncome && GetValue(m, PrefixIncome).Some? ==> PersonIncome.IsValidIncome(Trim(Value(m, PrefixIncome))))
    ensures r.Ok? ==> (r.value.Some? <==> withIncome && GetValue(m, PrefixIncome).Some?)
    ensures r.Ok? && r.value.Some? ==> r.value.value.value == Trim(Value(m, PrefixIncome))
    ensures r.Err? ==> r.error == Constraint(IncomeField)
  {
    if !withIncome || GetValue(m, PrefixIncome).None? then Ok(None)
    else var x :- ParseIncome(Value(m, PrefixIncome)); Ok(Some(x))
  }

  /** The medical-information setter's value. */
  function MedicalInfoEdit(m: ArgMap): (r: Result<Option<MedicalInfo.MedicalInfo>, ParseError>)
    ensures r.Ok? <==> (GetValue(m, PrefixMedicalInfo).Some? ==> MedicalInfo.IsValidMedicalInfo(Trim(Value(m, PrefixMedicalInfo))))
    ensures r.Ok? ==> (r.value.Some? <==> GetValue(m, PrefixMedicalInfo).Some?)
    ensures r.Ok? && r.value.Some? ==> r.value.value.medicalInfo == Trim(Value(m, PrefixMedicalInfo))
    ensures r.Err? ==> r.error == Constraint(MedicalInfoField)
  {
    if GetValue(m, PrefixMedicalInfo).None? then Ok(None)
    else var x :- ParseMedicalInfo(Value(m, PrefixMedicalInfo)); Ok(Some(x))
  }

  /**
   * The descriptor the setters build: the fields in the order name, phone, e-mail, address,
   * income, medical information, tags; the first text that does not parse is the error, and
   * otherwise every field holds its setter's value.
   */
  function Fill(env: Env, m: ArgMap, withIncome: bool): (r: Result<EditDescriptor, ParseError>)
    ensures r.Ok? <==>
      NameEdit(m).Ok? && PhoneEdit(m).Ok? && EmailEdit(env, m).Ok? && AddressEdit(env, m).Ok?
      && IncomeEdit(m, withIncome).Ok? && MedicalInfoEdit(m).Ok? && ParseTagsForEdit(env, GetAllValues(m, PrefixTag)).Ok?
    ensures r.Ok? ==>
      r.value.name == NameEdit(m).value && r.value.phone == PhoneEdit(m).value
      && r.value.email == EmailEdit(env, m).value && r.value.address == AddressEdit(env, m).value
      && r.value.income == IncomeEdit(m, withIncome).value && r.value.medicalInfo == MedicalInfoEdit(m).value
      && r.value.tags == ParseTagsForEdit(env, GetAllValues(m, PrefixTag)).value
    ensures r.Err? ==> r.error.Constraint?
  {
    var name :- NameEdit(m);
    var phone :- PhoneEdit(m);
    var email :- EmailEdit(env, m);
    var address :- AddressEdit(env, m);
    var income :- IncomeEdit(m, withIncome);
    var medicalInfo :- MedicalInfoEdit(m);
    var tags :- ParseTagsForEdit(env, GetAllValues(m, PrefixTag));
    Ok(EditDescriptor(name, phone, email, address, income, medicalInfo, tags))
  }

  /**
   * The first field that does not parse, in the setters' order, is the one reported.
   */
  lemma FillErrorOrder(env: Env, m: ArgMap, withIncome: bool)
    ensures NameEdit(m).Err? ==> Fill(env, m, withIncome) == Err(Constraint(NameField))
    ensures NameEdit(m).Ok? && PhoneEdit(m).Err? ==> Fill(env, m, withIncome) == Err(Constraint(PhoneField))
    ensures (NameEdit(m).Ok? && PhoneEdit(m).Ok? && EmailEdit(env, m).Err?) ==>
      Fill(env, m, withIncome) == Err(Constraint(EmailField))
    ensures (NameEdit(m).Ok? && PhoneEdit(m).Ok? && EmailEdit(env, m).Ok? && AddressEdit(env, m).Err?) ==>
      Fill(env, m, withIncome) == Err(Constraint(AddressField))
    ensures (NameEdit(m).Ok? && PhoneEdit(m).Ok? && EmailEdit(env, m).Ok? && AddressEdit(env, m).Ok?
             && IncomeEdit(m, withIncome).Err?) ==>
      Fill(env, m, withIncome) == Err(Constraint(IncomeField))
    ensures (NameEdit(m).Ok? && PhoneEdit(m).Ok? && EmailEdit(env, m).Ok? && AddressEdit(env, m).Ok?
             && IncomeEdit(m, withIncome).Ok? && MedicalInfoEdit(m).Err?) ==>
      Fill(env, m, withIncome) == Err(Constraint(MedicalInfoField))
    ensures (NameEdit(m).Ok? && PhoneEdit(m).Ok? && EmailEdit(env, m).Ok? && AddressEdit(env, m).Ok?
             && IncomeEdit(m, withIncome).Ok? && MedicalInfoEdit(m).Ok?
             && ParseTagsForEdit(env, GetAllValues(m, PrefixTag)).Err?) ==>
      Fill(env, m, withIncome) == Err(Constraint(TagField))
  {
  }

  /**
   * `fillEditPersonDescriptor`: starts from the empty descriptor and calls one setter per present
   * prefix, stopping at the first text that does not parse.
   */
  method FillEditPersonDescriptor(env: Env, m: ArgMap, withIncome: bool) returns (r: Result<EditDescriptor, ParseError>)
    ensures r == Fill(env, m, withIncome)
  {
    // One variable per descriptor field, each set at most once, as the setters do.
    var name, phone, email, address, income, medicalInfo := None, None, None, None, None, None;
    if GetValue(m, PrefixName).Some? {
      var x := ParseName(Value(m, PrefixName));
      if x.Err? {
        assert Fill(env, m, withIncome) == Err(Constraint(NameField)) by { FillErrorOrder(env, m, withIncome); }
        return Err(x.error);
      }
      name := Some(x.value);
    }
    assert NameEdit(m) == Ok(name);
    if GetValue(m, PrefixPhone).Some? {
      var x := ParsePhone(Value(m, PrefixPhone));
      if x.Err? {
        assert Fill(env, m, withIncome) == Err(Constraint(PhoneField)) by { FillErrorOrder(env, m, withIncome); }
        return Err(x.error);
      }
      phone := Some(x.value);
    }
    assert PhoneEdit(m) == Ok(phone);
    if GetValue(m, PrefixEmail).Some? {
      var x := ParseEmail(env, Value(m, PrefixEmail));
      if x.Err? {
        assert Fill(env, m, withIncome) == Err(Constraint(EmailField)) by { FillErrorOrder(env, m, withIncome); }
        return Err(x.error);
      }
      email := Some(x.value);
    }
    assert EmailEdit(env, m) == Ok(email);
    if GetValue(m, PrefixAddress).Some? {
      var x := ParseAddress(env, Value(m, PrefixAddress));
      if x.Err? {
        assert Fill(env, m, withIncome) == Err(Constraint(AddressField)) by { FillErrorOrder(env, m, withIncome); }
        return Err(x.error);
      }
      address := Some(x.value);
    }
    assert AddressEdit(env, m) == Ok(address);
    if withIncome && GetValue(m, PrefixIncome).Some? {
      var x := ParseIncome(Value(m, PrefixIncome));
      if x.Err? {
        assert Fill(env, m, withIncome) == Err(Constraint(IncomeField)) by { FillErrorOrder(env, m, withIncome); }
        return Err(x.error);
      }
      income := Some(x.value);
    }
    assert IncomeEdit(m, withIncome) == Ok(income);
    if GetValue(m, PrefixMedicalInfo).Some? {
      var x := ParseMedicalInfo(Value(m, PrefixMedicalInfo));
      if x.Err? {
        assert Fill(env, m, withIncome) == Err(Constraint(MedicalInfoField)) by { FillErrorOrder(env, m, withIncome); }
        return Err(x.error);
      }
      medicalInfo := Some(x.value);
    }
    assert MedicalInfoEdit(m) == Ok(medicalInfo);
    var tags := ParseTagsForEdit(env, GetAllValues(m, PrefixTag));
    if tags.Err? {
      assert Fill(env, m, withIncome) == Err(Constraint(TagField)) by { FillErrorOrder(env, m, withIncome); }
      return Err(tags.error);
    }
    r := Ok(EditDescriptor(name, phone, email, address, income, medicalInfo, tags.value));
  }

  /** `parse` on the tokenised arguments. */
  function ParseArgs(env: Env, m: ArgMap): (r: Result<Command, ParseError>)
    ensures ParseIndex(m.preamble).Err? ==> r == Err(InvalidFormat(EditUsage))
    ensures ParseIndex(m.preamble).Ok? && DuplicatedPrefixes(m, SingleValued) != {} ==>
      r == Err(DuplicatePrefixes(DuplicatedPrefixes(m, SingleValued)))
    ensures ParseIndex(m.preamble).Ok? && DuplicatedPrefixes(m, SingleValued) == {} && Fill(env, m, true).Err? ==>
      r == Err(Fill(env, m, true).error)
    ensures r.Ok? <==>
      ParseIndex(m.preamble).Ok? && DuplicatedPrefixes(m, SingleValued) == {}
      && Fill(env, m, true).Ok? && IsAnyFieldEdited(Fill(env, m, true).value)
    ensures r.Ok? ==> r.value == Edit(ParseIndex(m.preamble).value, Fill(env, m, true).value)
  {
    var index :- AsFormatError(ParseIndex(m.preamble), EditUsage);
    var ok :- VerifyNoDuplicates(m, SingleValued);
    var descriptor :- Fill(env, m, true);
    if !IsAnyFieldEdited(descriptor) then Err(NotEdited) else Ok(Edit(index, descriptor))
  }

  /** `EditPatientCommandParser.parse`: tokenise, then decide. */
  function Parse(env: Env, args: string): (r: Result<Command, ParseError>)
    ensures r.Ok? ==> r.value.Edit? && IsAnyFieldEdited(r.value.descriptor)
  {
    ParseArgs(env, env.tokenize(args, Prefixes))
  }

  /** No prefix of `ps` has a value. */
  predicate NoneGiven(m: ArgMap, ps: seq<string>) {
    forall p :: p in ps ==> GetAllValues(m, p) == []
  }

  /** The prefixes every edit parser reads besides i/. */
  const PrefixesBesidesIncome: seq<string> := [PrefixName, PrefixPhone, PrefixEmail, PrefixAddress, PrefixMedicalInfo, PrefixTag]

  /** The descriptor is left empty exactly when no prefix the setters read has a value. */
  lemma FillEmptyExactly(env: Env, m: ArgMap, withIncome: bool)
    ensures Fill(env, m, withIncome).Ok? && !IsAnyFieldEdited(Fill(env, m, withIncome).value) <==>
      NoneGiven(m, PrefixesBesidesIncome) && (withIncome ==> GetAllValues(m, PrefixIncome) == [])
  {
    if NoneGiven(m, PrefixesBesidesIncome) {
      assert GetAllValues(m, PrefixName) == [] && GetAllValues(m, PrefixPhone) == [];
      assert GetAllValues(m, PrefixEmail) == [] && GetAllValues(m, PrefixAddress) == [];
      assert GetAllValues(m, PrefixMedicalInfo) == [] && GetAllValues(m, PrefixTag) == [];
    }
  }

  /**
   * "Nothing edited" is reported exactly when the index parses and no prefix the parser reads
   * has a value; it comes after the index check, so a bad index with no fields is a format error.
   */
  lemma NotEditedExactly(env: Env, m: ArgMap)
    ensures ParseArgs(env, m) == Err(NotEdited) <==> ParseIndex(m.preamble).Ok? && NoneGiven(m, Prefixes)
  {
    FillEmptyExactly(env, m, true);
    assert NoneGiven(m, Prefixes) <==> NoneGiven(m, PrefixesBesidesIncome) && GetAllValues(m, PrefixIncome) == [];
    if NoneGiven(m, Prefixes) {
      assert DuplicatedPrefixes(m, SingleValued) == {};
    }
  }

  /** A single empty t/ clears the tags even though the empty text is not a valid tag name. */
  lemma EmptyTagClears(env: Env, m: ArgMap)
    requires GetAllValues(m, PrefixTag) == [""]
    ensures Fill(env, m, true).Ok? ==> Fill(env, m, true).value.tags == Some({})
  {
  }

  /** An empty t/ given beside other tags is not a reset: it must be a valid tag itself. */
  lemma EmptyTagAmongOthers(env: Env, m: ArgMap, j: nat)
    requires |GetAllValues(m, PrefixTag)| > 1 && j < |GetAllValues(m, PrefixTag)|
    requires !env.isValidTag(Trim(GetAllValues(m, PrefixTag)[j]))
    ensures ParseTagsForEdit(env, GetAllValues(m, PrefixTag)) == Err(Constraint(TagField))
  {
  }
}
