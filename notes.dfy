/**
 * A case note. `Note` itself is not part of this model's sources; its behaviour is the one its
 * tests pin down: the text is trimmed, and blank text is refused.
 */
module Notes {
  import opened JavaString

  /** `Note.isValidNote`: something other than characters at or below U+0020 remains after trimming. */
  predicate IsValidNote(s: string) {
    Trim(s) != []
  }

  /** `Note`: the trimmed text. Equality and hash are those of the stored text. */
  datatype Note = Note(value: string)

  /** `new Note(s)`: refuses blank text and keeps the trimmed text. */
  function MakeNote(s: string): (n: Note)
    requires IsValidNote(s)
    ensures n.value != [] && Trim(n.value) == n.value
    ensures n.value == Trim(s)
  {
    TrimIdempotent(s);
    Note(Trim(s))
  }

  /** A stored note text rebuilds the same note, so saving and loading keeps a note as it is. */
  lemma ValueRoundTrip(s: string)
    requires IsValidNote(s)
    ensures IsValidNote(MakeNote(s).value) && MakeNote(MakeNote(s).value) == MakeNote(s)
  {
    TrimIdempotent(s);
  }

  /** Surrounding whitespace is ignored: "  text  " and "text" give equal notes. */
  lemma SurroundingSpaceIgnored(s: string)
    requires IsValidNote(s)
    ensures IsValidNote(Trim(s)) && MakeNote(Trim(s)) == MakeNote(s)
  {
    TrimIdempotent(s);
  }

  /** Text made only of `\s` characters is refused: "", " ", "\t", "\n". */
  lemma BlankRefused(s: string)
    requires AllRegexSpace(s)
    ensures !IsValidNote(s)
  {
    var a := TrimSlice(s);
    if Trim(s) != [] {
      RegexSpaceIsTrimmable(s[a]);
    }
  }
}
