/**
 * `EditCommandParser`: trimmed arguments that start with "note " edit a note; anything else
 * edits a person's details. The person branch does not read i/, so it never edits the income.
 */
module EditCommandParser {
  import opened Wrappers
  import opened JavaString
  import opened Arguments
  import opened ParserUtil
  import opened Indices
  import opened Notes
  import opened Commands
  import EditNoteCommandParser
  import EditPatientCommandParser

  /** The prefixes the person branch hands to the tokenizer. */
  const PersonPrefixes: seq<string> := EditPatientCommandParser.PrefixesBesidesIncome
  /** The prefixes the person branch allows at most once. */
  const PersonSingleValued: seq<string> := [PrefixName, PrefixPhone, PrefixEmail, PrefixAddress, PrefixMedicalInfo]
  /** The prefix the note branch hands to the tokenizer. */
  const NotePrefixes: seq<string> := [PrefixNoteText]

  /** The text that selects the note branch: `NOTE_STRING` and one space. */
  const NoteKeyword: string := NoteString + " "

  /**
   * `parseEditNoteCommand` on the tokenised remainder: two index tokens and a note text, else a
   * format error; then both indices, a failure of either being a format error; the note last.
   * Unlike the stand-alone note parser it does not refuse a repeated t/: the last value wins.
   */
  function ParseEditNoteArgs(m: ArgMap): (r: Result<Command, ParseError>)
    ensures !EditNoteCommandParser.ShapeOk(m) ==> r == Err(InvalidFormat(EditNoteUsage))
    ensures r.Ok? <==>
      EditNoteCommandParser.ShapeOk(m)
      && ParseIndex(EditNoteCommandParser.IndexTokens(m)[0]).Ok?
      && ParseIndex(EditNoteCommandParser.IndexTokens(m)[1]).Ok?
      && IsValidNote(Value(m, PrefixNoteText))
    ensures r.Err? ==> r.error == InvalidFormat(EditNoteUsage) || r.error == Constraint(NoteField)
    ensures r.Ok? ==>
      r.value.EditNote?
      && GetOneBased(r.value.personIndex) == DigitsValue(Trim(EditNoteCommandParser.IndexTokens(m)[0]))
      && GetOneBased(r.value.noteIndex) == DigitsValue(Trim(EditNoteCommandParser.IndexTokens(m)[1]))
      && r.value.newNote == MakeNote(Value(m, PrefixNoteText))
  {
    var parts := EditNoteCommandParser.IndexTokens(m);
    if |parts| != 2 then Err(InvalidFormat(EditNoteUsage))
    else if GetValue(m, PrefixNoteText).None? then Err(InvalidFormat(EditNoteUsage))
    else
      var personIndex :- AsFormatError(ParseIndex(parts[0]), EditNoteUsage);
      var noteIndex :- AsFormatError(ParseIndex(parts[1]), EditNoteUsage);
      var newNote :- ParseNote(Value(m, PrefixNoteText));
      Ok(EditNote(personIndex, noteIndex, newNote))
  }

  /**
   * `parseEditPersonCommand` on the tokenised arguments: the index, then the duplicate check over
   * five prefixes, then the setters without income, then the "nothing edited" check.
   */
  function ParseEditPersonArgs(env: Env, m: ArgMap): (r: Result<Command, ParseError>)
    ensures ParseIndex(m.preamble).Err? ==> r == Err(InvalidFormat(EditUsage))
    ensures ParseIndex(m.preamble).Ok? && DuplicatedPrefixes(m, PersonSingleValued) != {} ==>
      r == Err(DuplicatePrefixes(DuplicatedPrefixes(m, PersonSingleValued)))
    ensures r.Ok? <==>
      ParseIndex(m.preamble).Ok? && DuplicatedPrefixes(m, PersonSingleValued) == {}
      && EditPatientCommandParser.Fill(env, m, false).Ok?
      && IsAnyFieldEdited(EditPatientCommandParser.Fill(env, m, false).value)
    ensures r.Ok? ==>
      r.value.Edit? && r.value.descriptor.income.None?
      && r.value.index == ParseIndex(m.preamble).value
      && r.value.descriptor == EditPatientCommandParser.Fill(env, m, false).value
  {
    var index :- AsFormatError(ParseIndex(m.preamble), EditUsage);
    var ok :- VerifyNoDuplicates(m, PersonSingleValued);
    var descriptor :- EditPatientCommandParser.Fill(env, m, false);
    if !IsAnyFieldEdited(descriptor) then Err(NotEdited) else Ok(Edit(index, descriptor))
  }

  /** `parse`: trim, then choose the branch by the leading "note ". */
  function Parse(env: Env, args: string): (r: Result<Command, ParseError>)
    ensures StartsWith(Trim(args), NoteKeyword) ==>
      r == ParseEditNoteArgs(env.tokenize(" " + Trim(Trim(args)[|NoteKeyword|..]), NotePrefixes))
    ensures !StartsWith(Trim(args), NoteKeyword) ==> r == ParseEditPersonArgs(env, env.tokenize(Trim(args), PersonPrefixes))
    ensures r.Ok? ==> r.value.EditNote? || r.value.Edit?
  {
    var trimmed := Trim(args);
    if StartsWith(trimmed, NoteKeyword) then
      var remaining := Trim(trimmed[|NoteKeyword|..]);
      ParseEditNoteArgs(env.tokenize(" " + remaining, NotePrefixes))
    else
      ParseEditPersonArgs(env, env.tokenize(trimmed, PersonPrefixes))
  }

  /**
   * "Nothing edited" is reported exactly when the index parses and none of the six prefixes has
   * a value, whatever was given for i/.
   */
  lemma NotEditedExactly(env: Env, m: ArgMap)
    ensures ParseEditPersonArgs(env, m) == Err(NotEdited) <==>
      ParseIndex(m.preamble).Ok? && EditPatientCommandParser.NoneGiven(m, PersonPrefixes)
  {
    EditPatientCommandParser.FillEmptyExactly(env, m, false);
    var fill := EditPatientCommandParser.Fill(env, m, false);
    if ParseEditPersonArgs(env, m) == Err(NotEdited) {
      assert ParseIndex(m.preamble).Ok? && DuplicatedPrefixes(m, PersonSingleValued) == {};
      assert fill.Ok? && !IsAnyFieldEdited(fill.value);
    }
    if EditPatientCommandParser.NoneGiven(m, PersonPrefixes) {
      assert GetAllValues(m, PrefixName) == [] && GetAllValues(m, PrefixPhone) == [];
      assert GetAllValues(m, PrefixEmail) == [] && GetAllValues(m, PrefixAddress) == [];
      assert GetAllValues(m, PrefixMedicalInfo) == [];
      assert DuplicatedPrefixes(m, PersonSingleValued) == {};
    }
  }

  /** Without i/ the person branch and the patient edit parser decide alike. */
  lemma AgreesWithPatientParser(env: Env, m: ArgMap)
    requires GetAllValues(m, PrefixIncome) == []
    ensures ParseEditPersonArgs(env, m) == EditPatientCommandParser.ParseArgs(env, m)
  {
    assert DuplicatedPrefixes(m, PersonSingleValued) == DuplicatedPrefixes(m, EditPatientCommandParser.SingleValued);
    assert EditPatientCommandParser.IncomeEdit(m, false) == EditPatientCommandParser.IncomeEdit(m, true);
  }

  /**
   * With at most one t/ the note branch and the stand-alone note parser decide alike; with more,
   * the stand-alone parser refuses the repetition while the note branch keeps the last text.
   */
  lemma NoteBranchAgrees(m: ArgMap)
    ensures |GetAllValues(m, PrefixNoteText)| <= 1 ==> ParseEditNoteArgs(m) == EditNoteCommandParser.ParseArgs(m)
    ensures EditNoteCommandParser.ShapeOk(m) && |GetAllValues(m, PrefixNoteText)| > 1 ==>
      EditNoteCommandParser.ParseArgs(m) == Err(DuplicatePrefixes({PrefixNoteText}))
      && (ParseEditNoteArgs(m).Ok? ==> ParseEditNoteArgs(m).value.newNote == MakeNote(Value(m, PrefixNoteText)))
  {
    DuplicatedSingle(m, PrefixNoteText);
  }
}
