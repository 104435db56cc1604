/**
 * `EditNoteCommandParser`: the preamble must be two indices and the note text must be present,
 * then t/ must not repeat, then both indices must parse, and the note text is parsed last.
 */
module EditNoteCommandParser {
  import opened Wrappers
  import opened JavaString
  import opened Arguments
  import opened ParserUtil
  import opened Indices
  import opened Notes
  import opened Commands

  /** The only prefix handed to the tokenizer. */
  const Prefixes: seq<string> := [PrefixNoteText]

  /** `EXPECTED_INDICES_COUNT`. */
  const ExpectedIndicesCount: nat := 2

  /** The preamble split at runs of `\s` after trimming. */
  function IndexTokens(m: ArgMap): seq<string> {
    Split(Trim(m.preamble))
  }

  /** The two checks before the duplicate check: two tokens, and a note text. */
  predicate ShapeOk(m: ArgMap) {
    |IndexTokens(m)| == ExpectedIndicesCount && GetValue(m, PrefixNoteText).Some?
  }

  /** `parse` on the tokenised arguments. */
  function ParseArgs(m: ArgMap): (r: Result<Command, ParseError>)
    ensures !ShapeOk(m) ==> r == Err(InvalidFormat(EditNoteUsage))
    ensures ShapeOk(m) && |GetAllValues(m, PrefixNoteText)| > 1 ==> r == Err(DuplicatePrefixes({PrefixNoteText}))
    ensures ShapeOk(m) && |GetAllValues(m, PrefixNoteText)| == 1 ==>
      (ParseIndex(IndexTokens(m)[0]).Err? || ParseIndex(IndexTokens(m)[1]).Err? ==> r == Err(InvalidFormat(EditNoteUsage)))
    ensures r.Ok? <==>
      ShapeOk(m) && |GetAllValues(m, PrefixNoteText)| == 1
      && ParseIndex(IndexTokens(m)[0]).Ok? && ParseIndex(IndexTokens(m)[1]).Ok?
      && IsValidNote(Value(m, PrefixNoteText))
    ensures r.Err? && !(r.error.InvalidFormat? || r.error.DuplicatePrefixes?) ==> r.error == Constraint(NoteField)
    ensures r.Ok? ==>
      r.value.EditNote?
      && GetOneBased(r.value.personIndex) == DigitsValue(Trim(IndexTokens(m)[0]))
      && GetOneBased(r.value.noteIndex) == DigitsValue(Trim(IndexTokens(m)[1]))
      && r.value.newNote == MakeNote(Value(m, PrefixNoteText))
  {
    var parts := IndexTokens(m);
    if |parts| != ExpectedIndicesCount then Err(InvalidFormat(EditNoteUsage))
    else if GetValue(m, PrefixNoteText).None? then Err(InvalidFormat(EditNoteUsage))
    else
      DuplicatedSingle(m, PrefixNoteText);
      var ok :- VerifyNoDuplicates(m, [PrefixNoteText]);
      var patientIndex :- AsFormatError(ParseIndex(parts[0]), EditNoteUsage);
      var noteIndex :- AsFormatError(ParseIndex(parts[1]), EditNoteUsage);
      var newNote :- ParseNote(Value(m, PrefixNoteText));
      Ok(EditNote(patientIndex, noteIndex, newNote))
  }

  /** `EditNoteCommandParser.parse`: a space is put in front so that a leading t/ is recognised. */
  function Parse(env: Env, args: string): (r: Result<Command, ParseError>)
    ensures r.Ok? ==> r.value.EditNote? && r.value.newNote.value != []
  {
    ParseArgs(env.tokenize(" " + args, Prefixes))
  }

  /**
   * Printing the two one-based positions separated by a space, with one note text, parses back
   * to the command holding those positions and the note.
   */
  lemma RoundTrip(i: nat, j: nat, text: string, m: ArgMap)
    requires 1 <= i <= 0x7FFF_FFFF && 1 <= j <= 0x7FFF_FFFF && IsValidNote(text)
    requires m.preamble == NatToDigits(i) + " " + NatToDigits(j) && GetAllValues(m, PrefixNoteText) == [text]
    ensures ParseArgs(m) == Ok(EditNote(Index(i - 1), Index(j - 1), MakeNote(text)))
  {
    var a, b := NatToDigits(i), NatToDigits(j);
    DigitsAreWord(a);
    DigitsAreWord(b);
    SplitTwoWords(a, b);
    assert IndexTokens(m) == [a, b];
    ParseIndexRoundTrip(i);
    ParseIndexRoundTrip(j);
    assert Value(m, PrefixNoteText) == text;
    DuplicatedSingle(m, PrefixNoteText);
  }
}
