/**
 * `NoteCommandParser`: the note text is required and parsed first; the patient is then named
 * either by n/ and p/ together (with nothing before them) or by an index in the preamble.
 */
module NoteCommandParser {
  import opened Wrappers
  import opened JavaString
  import opened Arguments
  import opened ParserUtil
  import opened Indices
  import opened Notes
  import opened Commands

  /** The prefixes handed to the tokenizer. */
  const Prefixes: seq<string> := [PrefixName, PrefixPhone, PrefixNoteText]

  /** Both n/ and p/ are given: the name-and-phone form is chosen. */
  predicate ByNameAndPhone(m: ArgMap) {
    GetValue(m, PrefixName).Some? && GetValue(m, PrefixPhone).Some?
  }

  /** `parse` on the tokenised arguments. */
  function ParseArgs(m: ArgMap): (r: Result<Command, ParseError>)
    ensures GetValue(m, PrefixNoteText).None? ==> r == Err(InvalidFormat(NoteUsage))
    ensures GetValue(m, PrefixNoteText).Some? && !IsValidNote(Value(m, PrefixNoteText)) ==> r == Err(Constraint(NoteField))
    ensures r.Ok? ==> r.value.AddNote? && r.value.note == MakeNote(Value(m, PrefixNoteText))
    ensures r.Ok? ==> (r.value.noteTarget.None? <==> ByNameAndPhone(m))
    // the name-and-phone form
    ensures ByNameAndPhone(m) ==>
      (r.Ok? <==>
        GetValue(m, PrefixNoteText).Some? && IsValidNote(Value(m, PrefixNoteText))
        && m.preamble == [] && DuplicatedPrefixes(m, Prefixes) == {}
        && ParseName(Value(m, PrefixName)).Ok? && ParsePhone(Value(m, PrefixPhone)).Ok?)
    ensures ByNameAndPhone(m) && r.Ok? ==>
      r.value == NoteByNameAndPhone(ParseName(Value(m, PrefixName)).value, ParsePhone(Value(m, PrefixPhone)).value,
                                    MakeNote(Value(m, PrefixNoteText)))
    ensures ByNameAndPhone(m) && GetValue(m, PrefixNoteText).Some? && IsValidNote(Value(m, PrefixNoteText)) ==>
      (m.preamble != [] ==> r == Err(InvalidFormat(NoteUsage)))
      && (m.preamble == [] && DuplicatedPrefixes(m, Prefixes) != {} ==>
            r == Err(DuplicatePrefixes(DuplicatedPrefixes(m, Prefixes))))
    // the index form
    ensures !ByNameAndPhone(m) ==>
      (r.Ok? <==>
        GetValue(m, PrefixNoteText).Some? && IsValidNote(Value(m, PrefixNoteText))
        && m.preamble != [] && ParseIndex(m.preamble).Ok?)
    ensures !ByNameAndPhone(m) && r.Ok? ==>
      r.value == NoteByIndex(ParseIndex(m.preamble).value, MakeNote(Value(m, PrefixNoteText)))
    ensures !ByNameAndPhone(m) && r.Err? && r.error != Constraint(NoteField) ==> r.error == InvalidFormat(NoteUsage)
  {
    if GetValue(m, PrefixNoteText).None? then Err(InvalidFormat(NoteUsage))
    else
      var note :- ParseNote(Value(m, PrefixNoteText));
      if ByNameAndPhone(m) then
        if m.preamble != [] then Err(InvalidFormat(NoteUsage))
        else
          var ok :- VerifyNoDuplicates(m, Prefixes);
          var name :- ParseName(Value(m, PrefixName));
          var phone :- ParsePhone(Value(m, PrefixPhone));
          Ok(NoteByNameAndPhone(name, phone, note))
      else if m.preamble != [] then
        var index :- AsFormatError(ParseIndex(m.preamble), NoteUsage);
        Ok(NoteByIndex(index, note))
      else
        Err(InvalidFormat(NoteUsage))
  }

  /** `NoteCommandParser.parse`: tokenise, then decide. */
  function Parse(env: Env, args: string): (r: Result<Command, ParseError>)
    ensures r.Ok? ==> r.value.AddNote? && r.value.note.value != []
  {
    ParseArgs(env.tokenize(args, Prefixes))
  }

  /**
   * The index form does not look for repeated prefixes: a repeated t/ or a lone n/ or p/ given
   * twice is accepted, and the last note text wins.
   */
  lemma IndexFormIgnoresRepeats(m: ArgMap, k: nat)
    requires 1 <= k <= 0x7FFF_FFFF && m.preamble == NatToDigits(k)
    requires GetValue(m, PrefixPhone).None? && |GetAllValues(m, PrefixNoteText)| > 1
    requires IsValidNote(Value(m, PrefixNoteText))
    ensures DuplicatedPrefixes(m, Prefixes) != {}
    ensures ParseArgs(m) == Ok(NoteByIndex(Index(k - 1), MakeNote(Value(m, PrefixNoteText))))
  {
    assert PrefixNoteText in DuplicatedPrefixes(m, Prefixes);
    ParseIndexRoundTrip(k);
  }

  /** The index form parses back what printing a one-based position gives. */
  lemma IndexFormRoundTrip(m: ArgMap, k: nat, text: string)
    requires 1 <= k <= 0x7FFF_FFFF && m.preamble == NatToDigits(k) && IsValidNote(text)
    requires GetAllValues(m, PrefixNoteText) == [text] && GetValue(m, PrefixName).None?
    ensures ParseArgs(m) == Ok(NoteByIndex(Index(k - 1), MakeNote(text)))
  {
    ParseIndexRoundTrip(k);
  }

  /** Giving both an index and a name with phone is refused, even when each would parse alone. */
  lemma BothFormsRefused(m: ArgMap)
    requires ByNameAndPhone(m) && m.preamble != []
    ensures ParseArgs(m).Err?
  {
  }
}
