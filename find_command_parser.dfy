/**
 * `FindCommandParser`: the trimmed arguments are split at runs of whitespace; the first piece,
 * lowercased, chooses the field to search and the remaining pieces are the keywords.
 */
module FindCommandParser {
  import opened Wrappers
  import opened JavaString
  import opened ParserUtil
  import opened Keywords
  import opened Commands

  /** The sub-command words. */
  const NameWord: string := "name"
  const NumberWord: string := "number"
  const EmailWord: string := "email"

  /** `subcommand`: the predicate chosen by the search type, holding the keywords as given. */
  function Subcommand(searchType: string, keywords: seq<string>): (r: Result<KeywordPredicate, ParseError>)
    ensures searchType == NameWord <==> r == Ok(NameKeywords(keywords))
    ensures searchType == NumberWord <==> r == Ok(PhoneKeywords(keywords))
    ensures searchType == EmailWord <==> r == Ok(EmailKeywords(keywords))
    ensures r.Ok? || r == Err(InvalidFormat(FindUsage))
  {
    if searchType == NameWord then Ok(NameKeywords(keywords))
    else if searchType == NumberWord then Ok(PhoneKeywords(keywords))
    else if searchType == EmailWord then Ok(EmailKeywords(keywords))
    else Err(InvalidFormat(FindUsage))
  }

  /** The pieces of the trimmed arguments. */
  function Parts(args: string): (parts: seq<string>)
    ensures Trim(args) != [] ==> parts == Words(Trim(args))
    ensures Trim(args) != [] ==> forall k :: 0 <= k < |parts| ==> parts[k] != [] && NoRegexSpace(parts[k])
  {
    TrimIdempotent(args);
    SplitTrimmed(Trim(args));
    Split(Trim(args))
  }

  /** `parse`. */
  function Parse(args: string): (r: Result<Command, ParseError>)
    ensures Trim(args) == [] || |Parts(args)| < 2 ==> r == Err(InvalidFormat(FindUsage))
    ensures r.Ok? <==>
      Trim(args) != [] && |Parts(args)| >= 2 && ToLower(Parts(args)[0]) in {NameWord, NumberWord, EmailWord}
    ensures r.Err? ==> r.error == InvalidFormat(FindUsage)
    ensures r.Ok? ==>
      r.value.Find? && r.value.pred == Subcommand(ToLower(Parts(args)[0]), Parts(args)[1..]).value
      && r.value.pred.keywords != []
      && forall k :: 0 <= k < |r.value.pred.keywords| ==>
           r.value.pred.keywords[k] != [] && NoRegexSpace(r.value.pred.keywords[k])
  {
    var trimmedArgs := Trim(args);
    if trimmedArgs == [] then Err(InvalidFormat(FindUsage))
    else
      var argParts := Parts(args);
      if |argParts| < 2 then Err(InvalidFormat(FindUsage))
      else
        var searchType := ToLower(argParts[0]);
        var keywords := argParts[1..];
        assert forall k :: 0 <= k < |keywords| ==> keywords[k] == argParts[k + 1];
        var pred :- Subcommand(searchType, keywords);
        Ok(Find(pred))
  }

  /** Arguments whose pieces are a sub-command word and some keywords parse to that word's predicate. */
  lemma ParseOfPieces(args: string, word: string, keywords: seq<string>)
    requires Trim(args) != [] && Parts(args) == [word] + keywords && keywords != []
    requires ToLower(word) in {NameWord, NumberWord, EmailWord}
    ensures Parse(args) == Ok(Find(Subcommand(ToLower(word), keywords).value))
  {
    assert Parts(args)[1..] == keywords;
  }

  /**
   * A sub-command word in any letter case, then plain keywords, each separated by one space (and
   * with any spaces in front, as the command dispatcher leaves them) parses to the predicate of
   * that sub-command holding exactly those keywords.
   */
  lemma RoundTrip(lead: string, word: string, keywords: seq<string>)
    requires forall i :: 0 <= i < |lead| ==> lead[i] == ' '
    requires IsPlainWord(word) && ToLower(word) in {NameWord, NumberWord, EmailWord}
    requires keywords != [] && forall k :: 0 <= k < |keywords| ==> IsPlainWord(keywords[k])
    ensures Parse(lead + Unwords([word] + keywords)) == Ok(Find(Subcommand(ToLower(word), keywords).value))
  {
    var ws := [word] + keywords;
    assert forall k :: 0 <= k < |ws| ==> IsPlainWord(ws[k]) by {
      forall k | 0 <= k < |ws| ensures IsPlainWord(ws[k]) {
        if k > 0 { assert ws[k] == keywords[k - 1]; }
      }
    }
    var t := Unwords(ws);
    UnwordsRoundTrip(ws);
    LeadingSpaces(lead, t);
    assert Parts(lead + t) == ws;
    ParseOfPieces(lead + t, word, keywords);
  }

  /** The sub-command word ignores letter case, while the keywords are kept exactly as typed. */
  lemma CaseOfWordIgnored(args: string, other: string)
    requires Trim(args) != [] && Trim(other) != [] && |Parts(args)| >= 2
    requires |Parts(other)| == |Parts(args)| && Parts(other)[1..] == Parts(args)[1..]
    requires ToLower(Parts(other)[0]) == ToLower(Parts(args)[0])
    ensures Parse(other) == Parse(args)
  {
  }

  /** A single piece, even a valid sub-command word, is a format error: keywords are required. */
  lemma WordAloneRefused(args: string)
    requires Trim(args) != [] && NoRegexSpace(Trim(args))
    ensures Parse(args) == Err(InvalidFormat(FindUsage))
  {
    var t := Trim(args);
    TrimFixpoint(t);
    TrimIdempotent(args);
    assert t + [] == t;
    WordsOfWordThenRest(t, []);
  }
}
