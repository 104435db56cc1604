/**
 * `AddressBookParser`: the trimmed input is cut into a command word and the arguments after it,
 * and the command word alone, compared exactly, chooses the parser that reads the arguments.
 */
module AddressBookParser {
  import opened Wrappers
  import opened JavaString
  import opened Arguments
  import opened ParserUtil
  import opened Indices
  import opened Commands
  import AddCommandParser
  import EditCommandParser
  import DeleteCommandParser
  import NoteCommandParser
  import FindCommandParser
  import ViewDetailsCommandParser

  /** The `COMMAND_WORD` of each command. */
  const AddWord: string := "add"
  const EditWord: string := "edit"
  const DeleteWord: string := "delete"
  const NoteWord: string := "note"
  const ClearWord: string := "clear"
  const SearchWord: string := "search"
  const ListWord: string := "list"
  const ExitWord: string := "exit"
  const HelpWord: string := "help"
  const ViewWord: string := "view"

  /** The words the dispatcher recognises. */
  const CommandWords: set<string> :=
    {AddWord, EditWord, DeleteWord, NoteWord, ClearWord, SearchWord, ListWord, ExitWord, HelpWord}

  /** The command word that produces each kind of command. */
  function WordOf(c: Command): string {
    match c
    case Add(_) => AddWord
    case Edit(_, _) => EditWord
    case EditNote(_, _, _) => EditWord
    case AddNote(_, _, _, _) => NoteWord
    case DeleteNote(_, _) => DeleteWord
    case DeletePatient(_) => DeleteWord
    case ViewDetails(_) => ViewWord
    case Find(_) => SearchWord
    case Clear => ClearWord
    case List => ListWord
    case Exit => ExitWord
    case Help => HelpWord
  }

  /**
   * Whether `(?<commandWord>\S+)(?<arguments>.*)` matches the whole trimmed text. The greedy
   * `\S+` takes the leading run of non-`\s` characters; giving some of it back cannot help `.*`,
   * which refuses line terminators, so the text matches exactly when it is non-empty and no line
   * terminator follows that run.
   */
  predicate Matches(t: string) {
    t != [] && forall i :: TokenLength(t) <= i < |t| ==> !IsLineTerminator(t[i])
  }

  /** The `commandWord` group. */
  function CommandWord(t: string): (w: string)
    ensures w == t[..TokenLength(t)] && NoRegexSpace(w)
  {
    t[..TokenLength(t)]
  }

  /** The `arguments` group: everything after the command word. */
  function ArgumentsOf(t: string): (a: string)
    ensures CommandWord(t) + a == t
    ensures a == [] || IsRegexSpace(a[0])
  {
    t[TokenLength(t)..]
  }

  /** The words whose commands read their arguments, and those whose commands ignore them. */
  const ParsedWords: set<string> := {AddWord, EditWord, DeleteWord, NoteWord, SearchWord}
  const FixedWords: set<string> := {ClearWord, ListWord, ExitWord, HelpWord}

  /** The `add` case of the `switch`: the arguments go to the add parser. */
  function AddCase(env: Env, arguments: string): (r: Result<Command, ParseError>)
    ensures r.Ok? ==> WordOf(r.value) == AddWord
  {
    AddCommandParser.Parse(env, arguments)
  }

  /** The `edit` case: the arguments go to the edit parser. */
  function EditCase(env: Env, arguments: string): (r: Result<Command, ParseError>)
    ensures r.Ok? ==> WordOf(r.value) == EditWord
  {
    EditCommandParser.Parse(env, arguments)
  }

  /** The `delete` case: the arguments go to the delete parser. */
  function DeleteCase(arguments: string): (r: Result<Command, ParseError>)
    ensures r.Ok? ==> WordOf(r.value) == DeleteWord
  {
    DeleteCommandParser.Parse(arguments)
  }

  /** The `note` case: the arguments go to the note parser. */
  function NoteCase(env: Env, arguments: string): (r: Result<Command, ParseError>)
    ensures r.Ok? ==> WordOf(r.value) == NoteWord
  {
    NoteCommandParser.Parse(env, arguments)
  }

  /** The `search` case: the arguments go to the search parser. */
  function SearchCase(arguments: string): (r: Result<Command, ParseError>)
    ensures r.Ok? ==> WordOf(r.value) == SearchWord
  {
    FindCommandParser.Parse(arguments)
  }

  /** The cases of the `switch` that hand the arguments to a sub-parser. */
  function DispatchParsed(env: Env, word: string, arguments: string): (r: Result<Command, ParseError>)
    requires word == AddWord || word == EditWord || word == DeleteWord || word == NoteWord || word == SearchWord
    ensures r.Ok? ==> WordOf(r.value) == word
  {
    if word == AddWord then AddCase(env, arguments)
    else if word == EditWord then EditCase(env, arguments)
    else if word == DeleteWord then DeleteCase(arguments)
    else if word == NoteWord then NoteCase(env, arguments)
    else SearchCase(arguments)
  }

  /** The cases of the `switch` that build a command without looking at the arguments. */
  function DispatchFixed(word: string): (c: Command)
    requires word in FixedWords
    ensures WordOf(c) == word
  {
    if word == ClearWord then Clear
    else if word == ListWord then List
    else if word == ExitWord then Exit
    else Help
  }

  /** The `switch` on the command word. */
  function Dispatch(env: Env, word: string, arguments: string): (r: Result<Command, ParseError>)
    ensures word !in CommandWords ==> r == Err(UnknownCommand)
    ensures r.Ok? ==> WordOf(r.value) == word
  {
    assert CommandWords == ParsedWords + FixedWords;
    if word in ParsedWords then DispatchParsed(env, word, arguments)
    else if word in FixedWords then Ok(DispatchFixed(word))
    else Err(UnknownCommand)
  }

  /**
   * `parseCommand`. Input that does not match the pattern is a format error carrying the help
   * text; a word outside the recognised ones is an unknown command; a command that is built is
   * always one of the kind its word names.
   */
  function ParseCommand(env: Env, userInput: string): (r: Result<Command, ParseError>)
    ensures !Matches(Trim(userInput)) ==> r == Err(InvalidFormat(HelpUsage))
    ensures Matches(Trim(userInput)) && CommandWord(Trim(userInput)) !in CommandWords ==> r == Err(UnknownCommand)
    ensures r.Ok? ==> Matches(Trim(userInput)) && WordOf(r.value) == CommandWord(Trim(userInput))
    ensures r.Ok? ==> !r.value.ViewDetails?
  {
    var t := Trim(userInput);
    if !Matches(t) then Err(InvalidFormat(HelpUsage))
    else Dispatch(env, CommandWord(t), ArgumentsOf(t))
  }

  /**
   * A word of non-blank characters followed by nothing, or by arguments that open with whitespace,
   * end in a non-blank character and hold no line terminator, is split into exactly that word and
   * those arguments.
   */
  lemma SplitsAtWord(word: string, arguments: string)
    requires word != [] && NoRegexSpace(word) && !IsTrimmable(word[0])
    requires arguments == [] || (IsRegexSpace(arguments[0]) && !IsTrimmable(arguments[|arguments| - 1]))
    requires forall i :: 0 <= i < |arguments| ==> !IsLineTerminator(arguments[i])
    requires arguments == [] ==> !IsTrimmable(word[|word| - 1])
    ensures Trim(word + arguments) == word + arguments && Matches(word + arguments)
    ensures CommandWord(word + arguments) == word && ArgumentsOf(word + arguments) == arguments
  {
    var t := word + arguments;
    assert t[0] == word[0];
    if arguments == [] {
      assert t == word;
    } else {
      assert t[|t| - 1] == arguments[|arguments| - 1];
    }
    TrimFixpoint(t);
    TokenLengthOfWord(word, arguments);
    assert t[..|word|] == word;
    assert t[|word|..] == arguments;
  }

  /** Input that is empty after trimming is a format error. */
  lemma BlankIsFormatError(env: Env, userInput: string)
    requires Trim(userInput) == []
    ensures ParseCommand(env, userInput) == Err(InvalidFormat(HelpUsage))
  {
  }

  /** A line terminator after the command word makes the input a format error, whatever the word. */
  lemma LineTerminatorRefused(env: Env, userInput: string, i: nat)
    requires TokenLength(Trim(userInput)) <= i < |Trim(userInput)| && IsLineTerminator(Trim(userInput)[i])
    ensures ParseCommand(env, userInput) == Err(InvalidFormat(HelpUsage))
  {
  }

  /** The arguments reach the sub-parser of the command word unchanged, leading whitespace included. */
  lemma ArgumentsPassedOn(env: Env, word: string, arguments: string)
    requires word != [] && NoRegexSpace(word) && !IsTrimmable(word[0])
    requires arguments == [] || (IsRegexSpace(arguments[0]) && !IsTrimmable(arguments[|arguments| - 1]))
    requires forall i :: 0 <= i < |arguments| ==> !IsLineTerminator(arguments[i])
    requires arguments == [] ==> !IsTrimmable(word[|word| - 1])
    ensures ParseCommand(env, word + arguments) == Dispatch(env, word, arguments)
  {
    SplitsAtWord(word, arguments);
  }

  /** `clear`, `list`, `exit` and `help` ignore whatever follows them. */
  lemma ArgumentsIgnored(env: Env, userInput: string)
    requires Matches(Trim(userInput)) && CommandWord(Trim(userInput)) in FixedWords
    ensures ParseCommand(env, userInput).Ok?
    ensures ParseCommand(env, userInput).value == DispatchFixed(CommandWord(Trim(userInput)))
  {
    var t := Trim(userInput);
    FixedNotParsed(CommandWord(t));
    assert ParseCommand(env, userInput) == Dispatch(env, CommandWord(t), ArgumentsOf(t));
  }

  /** The words that ignore their arguments are none of the words that read them. */
  lemma FixedNotParsed(w: string)
    requires w in FixedWords
    ensures w !in ParsedWords
  {
    assert w == ClearWord || w == ListWord || w == ExitWord || w == HelpWord;
    assert w[0] in {'c', 'l', 'e', 'h'};
    if w == ExitWord {
      assert w[1] == 'x';
    }
  }

  /** The word is compared exactly: a word differing from every command word, such as "LIST", is unknown. */
  lemma WordIsCaseSensitive(env: Env, userInput: string)
    requires Matches(Trim(userInput)) && CommandWord(Trim(userInput)) != [] && CommandWord(Trim(userInput))[0] == 'L'
    ensures ParseCommand(env, userInput) == Err(UnknownCommand)
  {
    var w := CommandWord(Trim(userInput));
    assert w[0] !in {'a', 'e', 'd', 'n', 'c', 's', 'l', 'h'};
    assert w !in CommandWords;
  }

  /** "view" is not among the words dispatched: "view k" is an unknown command. */
  lemma ViewIsUnknown(env: Env, k: nat)
    requires 1 <= k <= 0x7FFF_FFFF
    ensures ParseCommand(env, ViewWord + " " + NatToDigits(k)) == Err(UnknownCommand)
  {
    var a := NatToDigits(k);
    DigitsAreWord(a);
    assert (" " + a)[|" " + a| - 1] == a[|a| - 1];
    assert ViewWord + " " + a == ViewWord + (" " + a);
    SplitsAtWord(ViewWord, " " + a);
    assert ViewWord !in CommandWords by {
      assert ViewWord[0] !in {'a', 'e', 'd', 'n', 'c', 's', 'l', 'h'};
    }
    assert ParseCommand(env, ViewWord + " " + a) == Dispatch(env, ViewWord, " " + a);
  }

  /** `parseCommand` with "view" dispatched to the view-details parser, as the commands intend. */
  function ParseCommandWithView(env: Env, userInput: string): (r: Result<Command, ParseError>)
    ensures !Matches(Trim(userInput)) ==> r == Err(InvalidFormat(HelpUsage))
    ensures Matches(Trim(userInput)) && CommandWord(Trim(userInput)) !in CommandWords + {ViewWord} ==>
      r == Err(UnknownCommand)
    ensures r.Ok? ==> Matches(Trim(userInput)) && WordOf(r.value) == CommandWord(Trim(userInput))
    ensures Matches(Trim(userInput)) && CommandWord(Trim(userInput)) != ViewWord ==> r == ParseCommand(env, userInput)
  {
    var t := Trim(userInput);
    if !Matches(t) then Err(InvalidFormat(HelpUsage))
    else if CommandWord(t) == ViewWord then ViewDetailsCommandParser.Parse(ArgumentsOf(t))
    else Dispatch(env, CommandWord(t), ArgumentsOf(t))
  }

  /** With "view" dispatched, "view k" views the patient at one-based position k. */
  lemma ViewDispatched(env: Env, k: nat)
    requires 1 <= k <= 0x7FFF_FFFF
    ensures ParseCommandWithView(env, ViewWord + " " + NatToDigits(k)) == Ok(ViewDetails(Index(k - 1)))
  {
    var a := NatToDigits(k);
    DigitsAreWord(a);
    assert (" " + a)[|" " + a| - 1] == a[|a| - 1];
    assert ViewWord + " " + a == ViewWord + (" " + a);
    SplitsAtWord(ViewWord, " " + a);
    ViewDetailsCommandParser.RoundTrip(k, true);
  }
}
