/**
 * The `FindCommandParser` of the package the tracker was forked from: the same splitting, but the
 * only sub-command is "name" and the predicate is always the name predicate.
 */
module LegacyFindCommandParser {
  import opened Wrappers
  import opened JavaString
  import opened ParserUtil
  import opened Keywords
  import opened Commands
  import FindCommandParser

  /** `parse`. */
  function Parse(args: string): (r: Result<Command, ParseError>)
    ensures r.Ok? <==>
      Trim(args) != [] && |FindCommandParser.Parts(args)| >= 2
      && ToLower(FindCommandParser.Parts(args)[0]) == FindCommandParser.NameWord
    ensures r.Err? ==> r.error == InvalidFormat(FindUsage)
    ensures r.Ok? ==> r == Ok(Find(NameKeywords(FindCommandParser.Parts(args)[1..])))
  {
    var trimmedArgs := Trim(args);
    if trimmedArgs == [] then Err(InvalidFormat(FindUsage))
    else
      var argParts := FindCommandParser.Parts(args);
      if |argParts| < 2 then Err(InvalidFormat(FindUsage))
      else
        var searchType := ToLower(argParts[0]);
        var keywords := argParts[1..];
        if searchType != FindCommandParser.NameWord then Err(InvalidFormat(FindUsage))
        else Ok(Find(NameKeywords(keywords)))
  }

  /**
   * The tracker's parser extends this one: whatever this one accepts, the tracker's parser accepts
   * with the same command, and it refuses exactly where this one refuses or the word is "number" or
   * "email".
   */
  lemma ExtendedByTracker(args: string)
    ensures Parse(args).Ok? ==> FindCommandParser.Parse(args) == Parse(args)
    ensures Parse(args).Err? ==>
      (FindCommandParser.Parse(args).Ok? <==>
        Trim(args) != [] && |FindCommandParser.Parts(args)| >= 2
        && ToLower(FindCommandParser.Parts(args)[0]) in {FindCommandParser.NumberWord, FindCommandParser.EmailWord})
  {
  }
}
