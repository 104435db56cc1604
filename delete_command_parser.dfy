/**
 * `DeleteCommandParser`: the trimmed arguments must start with "note " or "patient "; the rest,
 * trimmed and split at runs of whitespace, must be two indices or one.
 */
module DeleteCommandParser {
  import opened Wrappers
  import opened JavaString
  import opened ParserUtil
  import opened Indices
  import opened Commands

  /** The texts that select a branch: a sub-command word and one space. */
  const NoteKeyword: string := NoteString + " "
  const PatientKeyword: string := PatientString + " "

  /** `removeCommandPrefix`: drop the word and the space after it, then trim. */
  function RemoveCommandPrefix(trimmed: string, word: string): (r: string)
    requires |word| + 1 <= |trimmed|
    ensures Trim(r) == r && |r| <= |trimmed| - |word| - 1
  {
    TrimIdempotent(trimmed[|word| + 1..]);
    Trim(trimmed[|word| + 1..])
  }

  /** `parseDeleteNoteCommand`: exactly two tokens, each a valid index; index errors are not wrapped. */
  function ParseDeleteNote(trimmed: string): (r: Result<Command, ParseError>)
    requires StartsWith(trimmed, NoteKeyword)
    ensures var parts := Split(RemoveCommandPrefix(trimmed, NoteString));
      (|parts| != 2 ==> r == Err(InvalidFormat(DeleteNoteUsage)))
      && (|parts| == 2 ==>
            (r.Ok? <==> ParseIndex(parts[0]).Ok? && ParseIndex(parts[1]).Ok?)
            && (r.Err? ==> r.error == InvalidIndex)
            && (r.Ok? ==> r == Ok(DeleteNote(ParseIndex(parts[0]).value, ParseIndex(parts[1]).value))))
  {
    var parts := Split(RemoveCommandPrefix(trimmed, NoteString));
    if |parts| != 2 then Err(InvalidFormat(DeleteNoteUsage))
    else
      var personIndex :- ParseIndex(parts[0]);
      var noteIndex :- ParseIndex(parts[1]);
      Ok(DeleteNote(personIndex, noteIndex))
  }

  /** `parseDeletePatientCommand`: exactly one token, a valid index. */
  function ParseDeletePatient(trimmed: string): (r: Result<Command, ParseError>)
    requires StartsWith(trimmed, PatientKeyword)
    ensures var parts := Split(RemoveCommandPrefix(trimmed, PatientString));
      (|parts| != 1 ==> r == Err(InvalidFormat(DeletePatientUsage)))
      && (|parts| == 1 ==>
            (r.Ok? <==> ParseIndex(parts[0]).Ok?)
            && (r.Err? ==> r.error == InvalidIndex)
            && (r.Ok? ==> r == Ok(DeletePatient(ParseIndex(parts[0]).value))))
  {
    var parts := Split(RemoveCommandPrefix(trimmed, PatientString));
    if |parts| != 1 then Err(InvalidFormat(DeletePatientUsage))
    else
      var index :- ParseIndex(parts[0]);
      Ok(DeletePatient(index))
  }

  /** `parse`: choose the branch by the leading sub-command word. */
  function Parse(args: string): (r: Result<Command, ParseError>)
    ensures !StartsWith(Trim(args), NoteKeyword) && !StartsWith(Trim(args), PatientKeyword) ==>
      r == Err(InvalidFormat(DeleteFormat))
    ensures r.Ok? && r.value.DeleteNote? ==> StartsWith(Trim(args), NoteKeyword)
    ensures r.Ok? && r.value.DeletePatient? ==> StartsWith(Trim(args), PatientKeyword)
    ensures r.Ok? ==> r.value.DeleteNote? || r.value.DeletePatient?
  {
    var trimmed := Trim(args);
    if StartsWith(trimmed, NoteKeyword) then ParseDeleteNote(trimmed)
    else if StartsWith(trimmed, PatientKeyword) then ParseDeletePatient(trimmed)
    else Err(InvalidFormat(DeleteFormat))
  }

  /** "note a b", for two runs of digits, splits into exactly the tokens `a` and `b`. */
  lemma NoteTokens(a: string, b: string)
    requires a != [] && AllDigits(a) && b != [] && AllDigits(b)
    ensures StartsWith(NoteKeyword + a + " " + b, NoteKeyword) && Trim(NoteKeyword + a + " " + b) == NoteKeyword + a + " " + b
    ensures Split(RemoveCommandPrefix(NoteKeyword + a + " " + b, NoteString)) == [a, b]
  {
    var s := NoteKeyword + a + " " + b;
    DigitsAreWord(a);
    DigitsAreWord(b);
    SplitTwoWords(a, b);
    assert s[0] == 'n' && s[|s| - 1] == b[|b| - 1];
    TrimFixpoint(s);
    assert s[..|NoteKeyword|] == NoteKeyword;
    assert s[|NoteString| + 1..] == a + " " + b;
  }

  /** Trimmed text in the note form is parsed by the note branch. */
  lemma NoteBranch(s: string)
    requires Trim(s) == s && StartsWith(s, NoteKeyword)
    ensures Parse(s) == ParseDeleteNote(s)
  {
  }

  /** A note-form remainder that splits into two valid indices deletes that note. */
  lemma NoteOfTokens(s: string, a: string, b: string)
    requires StartsWith(s, NoteKeyword) && Split(RemoveCommandPrefix(s, NoteString)) == [a, b]
    requires ParseIndex(a).Ok? && ParseIndex(b).Ok?
    ensures ParseDeleteNote(s) == Ok(DeleteNote(ParseIndex(a).value, ParseIndex(b).value))
  {
  }

  /** "note i j" with two printed one-based positions parses to the command deleting note j of patient i. */
  lemma NoteRoundTrip(i: nat, j: nat)
    requires 1 <= i <= 0x7FFF_FFFF && 1 <= j <= 0x7FFF_FFFF
    ensures Parse(NoteKeyword + NatToDigits(i) + " " + NatToDigits(j)) == Ok(DeleteNote(Index(i - 1), Index(j - 1)))
  {
    var a, b := NatToDigits(i), NatToDigits(j);
    NoteTokens(a, b);
    ParseIndexRoundTrip(i);
    ParseIndexRoundTrip(j);
    NoteBranch(NoteKeyword + a + " " + b);
    NoteOfTokens(NoteKeyword + a + " " + b, a, b);
  }

  /** "patient k" with a printed one-based position parses to the command deleting patient k. */
  lemma PatientRoundTrip(k: nat)
    requires 1 <= k <= 0x7FFF_FFFF
    ensures Parse(PatientKeyword + NatToDigits(k)) == Ok(DeletePatient(Index(k - 1)))
  {
    var a := NatToDigits(k);
    var s := PatientKeyword + a;
    DigitsAreWord(a);
    assert IsPlainWord(a);
    UnwordsRoundTrip([a]);
    assert s[0] == 'p' && s[|s| - 1] == a[|a| - 1];
    TrimFixpoint(s);
    assert !StartsWith(s, NoteKeyword) by { assert s[0] != NoteKeyword[0]; }
    assert StartsWith(s, PatientKeyword);
    assert s[|PatientString| + 1..] == a;
    ParseIndexRoundTrip(k);
  }

  /** Only the exact lower-case words select a branch: "Note 1 2" and "patient" alone are format errors. */
  lemma SubcommandExact(args: string)
    requires Trim(args) == "Note 1 2" || Trim(args) == "patient"
    ensures Parse(args) == Err(InvalidFormat(DeleteFormat))
  {
    assert !StartsWith(Trim(args), NoteKeyword) by { assert Trim(args)[0] != 'n'; }
    if Trim(args) == "patient" {
      assert !StartsWith(Trim(args), PatientKeyword) by { assert |Trim(args)| < |PatientKeyword|; }
    } else {
      assert !StartsWith(Trim(args), PatientKeyword) by { assert Trim(args)[0] != 'p'; }
    }
  }
}
