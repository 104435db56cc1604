/**
 * `ViewDetailsCommandParser`: the arguments as given must be non-empty and a valid index; an
 * index failure is reported with the view usage appended.
 */
module ViewDetailsCommandParser {
  import opened Wrappers
  import opened JavaString
  import opened ParserUtil
  import opened Indices
  import opened Commands

  /**
   * `parse`. The emptiness check is a reference comparison with the literal `""`; it is modelled
   * as the comparison of the texts. Text made only of blanks is therefore not a format error: it
   * reaches `parseIndex` and is refused there.
   */
  function Parse(args: string): (r: Result<Command, ParseError>)
    ensures args == [] ==> r == Err(InvalidFormat(ViewDetailsUsage))
    ensures r.Ok? <==> args != [] && IsNonZeroUnsignedInteger(Trim(args))
    ensures args != [] && r.Err? ==> r.error == WithUsage(InvalidIndex, ViewDetailsUsage)
    ensures r.Ok? ==> r.value.ViewDetails? && GetOneBased(r.value.targetIndex) == DigitsValue(Trim(args))
  {
    if args == "" then Err(InvalidFormat(ViewDetailsUsage))
    else
      match ParseIndex(args)
      case Ok(index) => Ok(ViewDetails(index))
      case Err(cause) => Err(WithUsage(cause, ViewDetailsUsage))
  }

  /** A printed one-based position, alone or after a space, parses to the command viewing that patient. */
  lemma RoundTrip(k: nat, space: bool)
    requires 1 <= k <= 0x7FFF_FFFF
    ensures Parse((if space then " " else "") + NatToDigits(k)) == Ok(ViewDetails(Index(k - 1)))
  {
    var a := NatToDigits(k);
    DigitsAreWord(a);
    TrimFixpoint(a);
    if space {
      TrimLeadingSpace(a);
    } else {
      assert "" + a == a;
    }
    ParseIndexRoundTrip(k);
  }

  /** Blank but non-empty arguments are an index error with the usage, not a format error. */
  lemma BlankIsIndexError(args: string)
    requires args != [] && forall i :: 0 <= i < |args| ==> IsTrimmable(args[i])
    ensures Parse(args) == Err(WithUsage(InvalidIndex, ViewDetailsUsage))
  {
    if Trim(args) != [] {
      var a := TrimSlice(args);
      assert false;
    }
  }
}
