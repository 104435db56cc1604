/**
 * What the parsers receive from collaborators that are not part of this model's sources: the
 * tokenised argument map, and the validators of e-mail addresses, street addresses, tags and
 * the name search.
 */
module Arguments {
  import opened Wrappers
  import Patients

  /**
   * The prefixes of the command syntax. `CliSyntax` declares no note-text prefix, although the
   * note parsers import one; it is spelled "t/", as the tag prefix is, because that is what the
   * usage texts of the note-editing commands show.
   */
  const PrefixName: string := "n/"
  const PrefixPhone: string := "p/"
  const PrefixEmail: string := "e/"
  const PrefixAddress: string := "a/"
  const PrefixTag: string := "t/"
  const PrefixIncome: string := "i/"
  const PrefixMedicalInfo: string := "m/"
  const PrefixNoteText: string := "t/"

  /** `ArgumentMultimap`: the preamble, and every value given for each prefix, in order. */
  datatype ArgMap = ArgMap(preamble: string, values: map<string, seq<string>>)

  /** `getAllValues`: the values given for `p`, or none. */
  function GetAllValues(m: ArgMap, p: string): (r: seq<string>)
    ensures r == [] || p in m.values
  {
    if p in m.values then m.values[p] else []
  }

  /** `getValue`: the last value given for `p`, if any. */
  function GetValue(m: ArgMap, p: string): (r: Option<string>)
    ensures r.Some? <==> GetAllValues(m, p) != []
    ensures r.Some? ==> r.value == GetAllValues(m, p)[|GetAllValues(m, p)| - 1]
  {
    var vs := GetAllValues(m, p);
    if vs == [] then None else Some(vs[|vs| - 1])
  }

  /** `getValue(p).get()`: the last value, for a prefix known to be present. */
  function Value(m: ArgMap, p: string): (r: string)
    requires GetValue(m, p).Some?
    ensures r == GetAllValues(m, p)[|GetAllValues(m, p)| - 1]
  {
    GetValue(m, p).value
  }

  /** `arePrefixesPresent`: every prefix of `ps` has a value. */
  predicate ArePrefixesPresent(m: ArgMap, ps: seq<string>) {
    forall p :: p in ps ==> GetValue(m, p).Some?
  }

  /** The prefixes among `ps` that were given more than once. */
  function DuplicatedPrefixes(m: ArgMap, ps: seq<string>): (r: set<string>)
    ensures forall p :: p in r <==> p in ps && |GetAllValues(m, p)| > 1
  {
    set p | p in ps && |GetAllValues(m, p)| > 1
  }

  /** For a single prefix, the duplicates are that prefix exactly when it has two or more values. */
  lemma DuplicatedSingle(m: ArgMap, p: string)
    ensures DuplicatedPrefixes(m, [p]) == if |GetAllValues(m, p)| > 1 then {p} else {}
  {
    if |GetAllValues(m, p)| > 1 {
      assert p in DuplicatedPrefixes(m, [p]);
    }
  }

  /**
   * The collaborators taken as parameters: `ArgumentTokenizer.tokenize`, `Email.isValidEmail`,
   * `Address.isValidAddress`, `Tag.isValidTagName` and `NameContainsKeywordsPredicate.test`.
   */
  datatype Env = Env(
    tokenize: (string, seq<string>) -> ArgMap,
    isValidEmail: string -> bool,
    isValidAddress: string -> bool,
    isValidTag: string -> bool,
    nameTest: (seq<string>, Patients.Patient) -> bool)
}
