/**
 * `DeletePatientCommandParser`: the trimmed arguments must start with the word "patient"; what
 * follows it, trimmed, must be a valid index. Unlike the delete parser's patient branch, no space
 * is required after the word and the text after it is not split.
 */
module DeletePatientCommandParser {
  import opened Wrappers
  import opened JavaString
  import opened ParserUtil
  import opened Indices
  import opened Commands
  import DeleteCommandParser

  /** `parse`, through `parseIndexArg`. */
  function Parse(args: string): (r: Result<Command, ParseError>)
    ensures !StartsWith(Trim(args), PatientString) ==> r == Err(InvalidFormat(DeletePatientUsage))
    ensures r.Ok? <==> StartsWith(Trim(args), PatientString) && ParseIndex(Trim(args)[|PatientString|..]).Ok?
    ensures StartsWith(Trim(args), PatientString) && r.Err? ==> r.error == InvalidIndex
    ensures r.Ok? ==>
      r.value.DeletePatient? && GetOneBased(r.value.targetIndex) == DigitsValue(Trim(Trim(args)[|PatientString|..]))
  {
    var trimmed := Trim(args);
    if |trimmed| < 1 then Err(InvalidFormat(DeletePatientUsage))
    else if !StartsWith(trimmed, PatientString) then Err(InvalidFormat(DeletePatientUsage))
    else
      var candidate := Trim(trimmed[|PatientString|..]);
      TrimIdempotent(trimmed[|PatientString|..]);
      var index :- ParseIndex(candidate);
      Ok(DeletePatient(index))
  }

  /** Text whose trimmed form holds the word and then a valid index deletes that patient. */
  lemma Accepts(t: string)
    requires StartsWith(Trim(t), PatientString) && ParseIndex(Trim(t)[|PatientString|..]).Ok?
    ensures Parse(t) == Ok(DeletePatient(ParseIndex(Trim(t)[|PatientString|..]).value))
  {
  }

  /** "patient k", with or without the space, parses to the command deleting patient k. */
  lemma RoundTrip(k: nat, space: bool)
    requires 1 <= k <= 0x7FFF_FFFF
    ensures Parse(PatientString + (if space then " " else "") + NatToDigits(k)) == Ok(DeletePatient(Index(k - 1)))
  {
    var a := NatToDigits(k);
    var gap := if space then " " else "";
    DigitsAreWord(a);
    TrimFixpoint(a);
    WordGapText(PatientString, gap, a);
    ParseIndexRoundTrip(k);
    assert ParseIndex(gap + a) == ParseIndex(a);
    Accepts(PatientString + gap + a);
  }

  /** Where the delete parser's patient branch accepts trimmed text, this parser gives the same command. */
  lemma AgreesWithDeleteParser(t: string)
    requires Trim(t) == t && StartsWith(t, DeleteCommandParser.PatientKeyword)
    requires DeleteCommandParser.ParseDeletePatient(t).Ok?
    ensures Parse(t) == DeleteCommandParser.ParseDeletePatient(t)
  {
    var rest := DeleteCommandParser.RemoveCommandPrefix(t, PatientString);
    OnePieceIsWhole(rest);
    assert t[..|PatientString|] == PatientString;
    var tail := t[|PatientString| + 1..];
    assert t[|PatientString|..] == " " + tail;
    TrimLeadingSpace(tail);
    assert ParseIndex(t[|PatientString|..]) == ParseIndex(rest);
    Accepts(t);
  }

  /** Trimmed text that starts with "p" and has no space after the word selects no branch of the delete parser. */
  lemma DeleteParserRefuses(s: string)
    requires Trim(s) == s && |s| > |PatientString| && s[0] == 'p' && s[|PatientString|] != ' '
    ensures DeleteCommandParser.Parse(s) == Err(InvalidFormat(DeleteFormat))
  {
    assert !StartsWith(s, DeleteCommandParser.NoteKeyword) by { assert s[0] != DeleteCommandParser.NoteKeyword[0]; }
    assert !StartsWith(s, DeleteCommandParser.PatientKeyword) by {
      if |s| >= |DeleteCommandParser.PatientKeyword| {
        assert s[..|DeleteCommandParser.PatientKeyword|][|PatientString|] != DeleteCommandParser.PatientKeyword[|PatientString|];
      }
    }
  }

  /** The word without a space in front of the index is accepted here but refused by the delete parser. */
  lemma NoSpaceAccepted(k: nat)
    requires 1 <= k <= 0x7FFF_FFFF
    ensures Parse(PatientString + NatToDigits(k)) == Ok(DeletePatient(Index(k - 1)))
    ensures DeleteCommandParser.Parse(PatientString + NatToDigits(k)) == Err(InvalidFormat(DeleteFormat))
  {
    var a := NatToDigits(k);
    assert PatientString + "" + a == PatientString + a;
    RoundTrip(k, false);
    NoSpaceRefused(a);
  }

  lemma NoSpaceRefused(a: string)
    requires a != [] && AllDigits(a)
    ensures DeleteCommandParser.Parse(PatientString + a) == Err(InvalidFormat(DeleteFormat))
  {
    var s := PatientString + a;
    DigitsAreWord(a);
    TrimFixpoint(a);
    assert PatientString + "" + a == s;
    WordGapText(PatientString, "", a);
    assert s[|PatientString|] == a[0];
    DeleteParserRefuses(s);
  }
}
