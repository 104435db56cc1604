# casetrack, modelled in Dafny

casetrack is a command-line case tracker for social workers. It keeps a list of patients, each with
a name, phone number, e-mail, address, income, tags and an ordered list of case notes. This project
models the part of casetrack that turns a typed line into a command, runs the commands that touch
patients and their notes, and converts patients to and from their stored JSON form. It then proves
what that code promises.

The model follows the program's own structure, one module per component:

- **Values.** `Indices` (a one-based index shown to the user); `Name`, `Phone`, `PersonIncome`,
  `PatientIncome` (a decimal income, built on `Decimal`, a part of `java.math.BigDecimal`),
  `MedicalInfo`, `Notes`. There are two records: `Patients` (the patient, with its note
  operations) and `Persons` (the person record built by the add parser and the person storage
  adapter).
- **Parsing.** `Arguments` holds the tokenised argument map and the validators that are not part
  of this model's sources. `ParserUtil` holds the field parsers. `Commands` holds the parsed
  commands. Then come the command parsers (`AddCommandParser`, `EditCommandParser`,
  `EditPatientCommandParser`, `EditNoteCommandParser`, `NoteCommandParser`, `DeleteCommandParser`,
  `DeletePatientCommandParser`, `ViewDetailsCommandParser`, `FindCommandParser`,
  `LegacyFindCommandParser`) and the top-level `AddressBookParser`.
- **Searching.** `Keywords` holds the keyword predicates of the search command.
- **Executing.** `CommandResults` holds `CommandResult` and `DetailPanelInstruction`. `ModelState`
  holds a `Model` class with the stored patient list and the filter behind the displayed list.
  Each command's `execute` is a method on it.
- **Storage.** `JsonStorage` holds the shared field, tag and note checks. `JsonPatient` and
  `JsonPerson` hold the two storage adapters.
- **Helpers.** `Wrappers` holds `Option` and `Result`. `JavaString` holds the `String` operations
  the code relies on: `trim`, `toLowerCase`, `split("\\s+")` and `contains`.

Every parser and every loader is a total function that returns a `Result`. Each exception the Java
code throws is an `Err` value naming the message it would carry. User-facing messages are kept as
the message constant together with its arguments, not as formatted text.

Where the source disagrees with itself, or with the written description of the program, the model
follows the code. Those places are:

- The search command's usage text lists the fields `name, number, email, tag`. The description
  speaks of name, phone, e-mail and tag. The parser accepts only `name`, `number` and `email`, so
  the model does too (`FindCommandParser.Subcommand`).
- `PhoneTest` expects phone numbers that differ only in spacing to be equal. `Phone.equals`
  compares the raw text, so the model uses datatype equality.
- `DeletePatientCommand` and `ClearCommand` build a `CommandResult` from a message and a
  `DetailPanelInstruction`, but `CommandResult.java` declares no such constructor. The model
  gives `CommandResult` an optional instruction and adds that constructor
  (`CommandResults.WithInstruction`). `CommandResult.equals` does not look at the instruction.
- Some commands work on the filtered person list and some on the filtered patient list. The
  model has one record list, of `Patients.Patient`. The delete, view and edit-note commands keep
  their own error messages (the invalid *person* index).
- `EditNoteCommand` calls an `editNote` method that `Patient.java` does not declare. It is
  modelled as replacing the note at that position (`Patients.EditNote`).
- `CliSyntax.java:8-16` declares no `PREFIX_NOTE_TEXT`, yet `EditCommandParser.java:8` and
  `NoteCommandParser.java:5` import it. The model spells it "t/", the prefix the usage texts at
  `EditNoteCommand.java:22` and `EditCommandParser.java:34` show (`Arguments.PrefixNoteText`).
- `JsonAdaptedPerson` prints the person income with `toPlainString`, which `Income` does not
  declare. It is modelled as `toString`, the stored digits.

## Model

| member | source | states |
|---|---|---|
| Indices.FromZeroBased | src/main/java/casetrack/app/commons/core/index/Index.java:20-46 | succeeds exactly for a non-negative position, and the stored zero-based value is that position |
| Indices.FromOneBased | src/main/java/casetrack/app/commons/core/index/Index.java:51-53 | succeeds exactly for k >= 1; the zero-based value is k - 1 and the one-based value is k |
| Indices.GetZeroBased | src/main/java/casetrack/app/commons/core/index/Index.java:29-32 | the zero-based value is never negative |
| Indices.GetOneBased | src/main/java/casetrack/app/commons/core/index/Index.java:34-39 | the one-based value is positive and exactly one more than the zero-based value |
| Indices.RoundTrips | src/main/java/casetrack/app/commons/core/index/Index.java:29-53 | building in one base and reading in the other shifts the number by exactly one, in both directions |
| Indices.EqualsIsIdentity | src/main/java/casetrack/app/commons/core/index/Index.java:56-68 | two indices are equal exactly when they are the same value, and fromOneBased(k) equals fromZeroBased(k - 1) |
| Indices.Equals | src/main/java/casetrack/app/commons/core/index/Index.java:56-68 | defines index equality as equality of the zero-based values; Indices.EqualsIsIdentity states that it is identity |
| Name.MakeName | src/main/java/casetrack/app/model/person/Name.java:29-33 | a valid name is stored verbatim, not normalised |
| Name.IsValidName | src/main/java/casetrack/app/model/person/Name.java:16-40 | defines validity as a match of the name pattern: an ASCII letter or digit, then name characters (letters, digits, space, point, apostrophe, hyphen), lower-case "s/o" or "d/o", or upper-case "S/O " or "D/O " with its space; its consequences are stated by Name.ValidNameNotBlank, Name.BlankNamesInvalid and Name.HonorificCase |
| Name.ValidNameNotBlank | src/main/java/casetrack/app/model/person/Name.java:12-20 | a valid name is non-empty and starts with a character that is neither whitespace nor trimmed away |
| Name.BlankNamesInvalid | src/main/java/casetrack/app/model/person/Name.java:38-40 | the empty name, a lone space and a name with a leading space are refused |
| Name.NoTrailingUpperHonorific | src/main/java/casetrack/app/model/person/Name.java:20 | text ending in upper-case "S/O" or "D/O" never matches the tail of the pattern, which wants a space after it |
| Name.HonorificCase | src/main/java/casetrack/app/model/person/Name.java:20 | after a valid name, " s/o" and " d/o" are accepted and " S/O" and " D/O" are refused |
| Name.NormalizedIdempotent | src/main/java/casetrack/app/model/person/Name.java:71-73 | normalising twice gives the same text as normalising once |
| Name.Normalized | src/main/java/casetrack/app/model/person/Name.java:68-73 | defines the normal form: lower case, every whitespace run replaced by one space, then trimmed; Name.NormalizedIdempotent, Name.CaseIgnored and Name.SpacingIgnored state its properties |
| Name.Equal | src/main/java/casetrack/app/model/person/Name.java:48-61 | defines name equality as equality of the normal forms; Name.EqualIsEquivalence, Name.CaseIgnored, Name.SpacingIgnored and Name.LowerWordsDistinguished state its properties |
| Name.EqualIsEquivalence | src/main/java/casetrack/app/model/person/Name.java:48-66 | name equality is reflexive, symmetric and transitive, and equal names have equal hashes |
| Name.CaseIgnored | src/main/java/casetrack/app/model/person/Name.java:60 | a name equals its lower-cased form |
| Name.SpacingIgnored | src/main/java/casetrack/app/model/person/Name.java:71-73 | two words separated by any run of whitespace equal the same two words separated by one space |
| Name.LowerWordsDistinguished | src/main/java/casetrack/app/model/person/Name.java:60 | lower-case names without trimmable characters are equal exactly when their texts are identical |
| Phone.StripSpaceAndPlus | src/main/java/casetrack/app/model/person/Phone.java:38 | the result is no longer than the input and holds no whitespace and no '+' |
| Phone.MakePhone | src/main/java/casetrack/app/model/person/Phone.java:24-28 | a valid number is stored verbatim |
| Phone.IsValidPhone | src/main/java/casetrack/app/model/person/Phone.java:16-41 | defines validity: the number matches the phone pattern and at most 20 characters remain once whitespace and '+' are removed; Phone.LengthCapRedundant, Phone.BareDigits and Phone.Boundaries state its consequences |
| Phone.LengthCapRedundant | src/main/java/casetrack/app/model/person/Phone.java:33-41 | a number is valid exactly when it matches the pattern: the 20-digit cap never refuses a match |
| Phone.BareDigits | src/main/java/casetrack/app/model/person/Phone.java:16 | a number made only of digits is valid exactly when it has 3 to 17 of them |
| Phone.Boundaries | src/main/java/casetrack/app/model/person/Phone.java:16 | "91" and a run of 18 digits are refused; "911" and a run of 17 digits are accepted; "9312 1534" is refused |
| Phone.WidestNumber | src/main/java/casetrack/app/model/person/Phone.java:33-41 | a '+', a 3-digit country code, a space and 17 digits is accepted |
| PersonIncome.MakeIncome | src/main/java/casetrack/app/model/person/Income.java:27-31 | a valid income is stored verbatim |
| PersonIncome.IsValidIncome | src/main/java/casetrack/app/model/person/Income.java:18-38 | defines validity as a non-empty run of ASCII digits; PersonIncome.NonDigitRefused and PersonIncome.ToStringRoundTrip state its consequences |
| PersonIncome.ToStringRoundTrip | src/main/java/casetrack/app/model/person/Income.java:27-43 | printing an income gives back its stored text, which is valid and rebuilds the same income |
| PersonIncome.NonDigitRefused | src/main/java/casetrack/app/model/person/Income.java:18 | text holding a sign, a point, a comma or a dollar sign is refused |
| PersonIncome.LeadingZerosMatter | src/main/java/casetrack/app/model/person/Income.java:45-55 | "01" and "1" are different incomes, since equality is textual |
| Decimal.Parse | src/main/java/casetrack/app/model/patient/Income.java:40 | a parsed decimal has a non-negative scale, and the text starts with a digit, a sign or a point |
| Decimal.ParseUnsigned | src/main/java/casetrack/app/model/patient/Income.java:40 | unsigned text parses only when it starts with a digit or a point, giving a non-negative unscaled value and a non-negative scale |
| Decimal.ParseDigits | src/main/java/casetrack/app/model/patient/Income.java:40 | a non-empty run of digits parses as the integer it denotes, at scale 0 |
| Decimal.ParsePointed | src/main/java/casetrack/app/model/patient/Income.java:40 | digits, a point and digits parse as all the digits read as one integer, at a scale equal to the number of fraction digits |
| Decimal.CompareTo | src/main/java/casetrack/app/model/patient/Income.java:41 | the comparison is -1, 0 or 1 as the value of a, rescaled to the finer of the two scales, is below, equal to or above that of b |
| Decimal.CompareAtAnyScale | src/main/java/casetrack/app/model/patient/Income.java:41 | the comparison does not depend on the common scale: at every scale fine enough for both it is the sign of the difference |
| Decimal.CompareAntisymmetric | src/main/java/casetrack/app/model/patient/Income.java:41 | swapping the operands negates the comparison |
| Decimal.CompareTransitive | src/main/java/casetrack/app/model/patient/Income.java:41 | a below b and b below c puts a below c |
| Decimal.StripTrailingZeros | src/main/java/casetrack/app/model/patient/Income.java:26 | the result is canonical (no trailing zero in the unscaled value) and its scale never grows unless the value is zero |
| Decimal.StripKeepsValue | src/main/java/casetrack/app/model/patient/Income.java:26 | stripping trailing zeros keeps the numeric value |
| Decimal.NumEqIsEquivalence | src/main/java/casetrack/app/model/patient/Income.java:67 | numeric equality is reflexive, symmetric and transitive |
| Decimal.CanonicalUnique | src/main/java/casetrack/app/model/patient/Income.java:26 | two canonical decimals with the same value are identical |
| Decimal.NumEqIffSameStripped | src/main/java/casetrack/app/model/patient/Income.java:67-73 | two decimals are numerically equal exactly when they strip to the same decimal |
| Decimal.ToPlainString | src/main/java/casetrack/app/model/patient/Income.java:55 | the text is non-empty, ends in a digit, and starts with a digit or, for a negative value, '-' |
| Decimal.PlainStringRoundTrip | src/main/java/casetrack/app/model/patient/Income.java:51-56 | the plain text of a canonical non-negative decimal parses and strips back to that decimal |
| PatientIncome.ValidMeansNonNegative | src/main/java/casetrack/app/model/patient/Income.java:33-45 | text is valid exactly when its trimmed form is non-empty and parses to a value that is not negative |
| PatientIncome.MakeIncome | src/main/java/casetrack/app/model/patient/Income.java:23-27 | the stored value is canonical, non-negative and numerically equal to the parsed trimmed text |
| PatientIncome.IsValidIncome | src/main/java/casetrack/app/model/patient/Income.java:33-45 | defines validity: the trimmed text is non-empty, parses as a decimal and compares at least zero; PatientIncome.ValidMeansNonNegative states it as a sign condition |
| PatientIncome.Equal | src/main/java/casetrack/app/model/patient/Income.java:58-68 | defines income equality as a comparison of 0; PatientIncome.EqualIffSameValue and PatientIncome.SameNumberSameIncome state its meaning |
| PatientIncome.EqualIffSameValue | src/main/java/casetrack/app/model/patient/Income.java:58-68 | two canonical incomes are equal exactly when they hold the same decimal |
| PatientIncome.SameNumberSameIncome | src/main/java/casetrack/app/model/patient/Income.java:23-68 | two incomes built from text are equal exactly when the texts read as the same number, and then they are identical |
| PatientIncome.HashConsistent | src/main/java/casetrack/app/model/patient/Income.java:70-74 | equal incomes have equal hashes |
| PatientIncome.ToStringRoundTrip | src/main/java/casetrack/app/model/patient/Income.java:51-56 | a printed income is valid and rebuilds the same income |
| PatientIncome.ToString | src/main/java/casetrack/app/model/patient/Income.java:51-56 | defines printing as the plain text of the stripped value; PatientIncome.ToStringRoundTrip and PatientIncome.CanonicalRoundTrip state that it rebuilds the income |
| PatientIncome.CanonicalRoundTrip | src/main/java/casetrack/app/model/patient/Income.java:51-56 | every income the constructor can produce prints as text that rebuilds it |
| PatientIncome.BlankRefused | src/main/java/casetrack/app/model/patient/Income.java:35-38 | text that is blank after trimming is refused |
| PatientIncome.ForeignCharacterRefused | src/main/java/casetrack/app/model/patient/Income.java:39-44 | the model's parser refuses text holding a character other than an ASCII digit, a point or a sign; BigDecimal itself also reads exponents and non-ASCII digits (see Left out) |
| PatientIncome.NegativeRefused | src/main/java/casetrack/app/model/patient/Income.java:41 | valid text starting with '-' can only be a zero |
| PatientIncome.SameParse | src/main/java/casetrack/app/model/patient/Income.java:26 | trimmed texts that read as the same number are valid together and give the same income |
| PatientIncome.PlusSignIgnored | src/main/java/casetrack/app/model/patient/Income.java:40 | a leading '+' changes neither validity nor the income |
| PatientIncome.LeadingZerosIgnored | src/main/java/casetrack/app/model/patient/Income.java:26 | leading zeros change neither validity nor the income |
| PatientIncome.FractionZerosIgnored | src/main/java/casetrack/app/model/patient/Income.java:26 | trailing zeros after the point do not change the income |
| PatientIncome.TrailingPointIgnored | src/main/java/casetrack/app/model/patient/Income.java:26 | "n." is valid and gives the same income as "n" |
| MedicalInfo.MakeMedicalInfo | src/main/java/casetrack/app/model/patient/MedicalInfo.java:29-33 | valid text is stored verbatim |
| MedicalInfo.IsValidMedicalInfo | src/main/java/casetrack/app/model/patient/MedicalInfo.java:20-40 | defines validity as a match of `[^\s].*`: a first character that is not whitespace, then no line terminator; the MedicalInfo lemmas below state its consequences |
| MedicalInfo.PlaceholderValid | src/main/java/casetrack/app/logic/parser/AddCommandParser.java:55 | the placeholder "-" satisfies the constraint, so building it never fails |
| MedicalInfo.BlankRefused | src/main/java/casetrack/app/model/patient/MedicalInfo.java:20 | empty text and text starting with whitespace are refused |
| MedicalInfo.MultiLineRefused | src/main/java/casetrack/app/model/patient/MedicalInfo.java:20 | a line break after the first character makes the text invalid |
| MedicalInfo.InnerSpacesAccepted | src/main/java/casetrack/app/model/patient/MedicalInfo.java:20 | spaces after a visible first character are accepted |
| MedicalInfo.ControlCharacterAccepted | src/main/java/casetrack/app/model/patient/MedicalInfo.java:20 | a control character alone is valid although it trims to nothing |
| Notes.MakeNote | src/test/java/casetrack/app/model/note/NoteTest.java:25-40 | the note holds the trimmed text, which is non-empty and already trimmed |
| Notes.IsValidNote | src/test/java/casetrack/app/model/note/NoteTest.java:42-53 | defines validity as text that is not blank after trimming; Notes.BlankRefused and Notes.MakeNote state its consequences |
| Notes.ValueRoundTrip | src/main/java/casetrack/app/storage/JsonAdaptedPatient.java:71-98 | a note's stored text is valid and rebuilds the same note |
| Notes.SurroundingSpaceIgnored | src/test/java/casetrack/app/model/note/NoteTest.java:86-88 | text with surrounding whitespace gives the same note as its trimmed form |
| Notes.BlankRefused | src/test/java/casetrack/app/model/note/NoteTest.java:42-53 | text made only of whitespace is refused |
| Patients.NewPatient | src/main/java/casetrack/app/model/patient/Patient.java:36-44 | the new patient holds the given fields and no notes |
| Patients.AddNote | src/main/java/casetrack/app/model/patient/Patient.java:100-104 | the details are unchanged and the notes are the old ones followed by the new note |
| Patients.RemoveNote | src/main/java/casetrack/app/model/patient/Patient.java:110-114 | the details are unchanged; the notes before the position stay and those after it move up by one |
| Patients.RemoveNoteMultiset | src/main/java/casetrack/app/model/patient/Patient.java:110-114 | the removed note together with the remaining notes is the old bag of notes |
| Patients.EditNote | src/main/java/casetrack/app/logic/commands/EditNoteCommand.java:66 | the details and the number of notes are unchanged; only the note at the position is replaced |
| Patients.RemoveAfterAdd | src/main/java/casetrack/app/model/patient/Patient.java:100-114 | removing the note just added gives back the original patient |
| Patients.IsSamePatient | src/main/java/casetrack/app/model/patient/Patient.java:116-127 | defines the weak identity as exact equality of the names; Patients.AddNoteChangesRecord and Patients.NotesDistinguish relate it to full equality |
| Patients.Equals | src/main/java/casetrack/app/model/patient/Patient.java:129-152 | defines full equality: name, phone, e-mail, address and tags identical, incomes numerically equal, and the notes equal in order; Patients.EqualsIsEquivalence and Patients.EqualsOnCanonicalIncome state its properties |
| Patients.EqualsIsEquivalence | src/main/java/casetrack/app/model/patient/Patient.java:133-152 | patient equality is an equivalence, and equal patients are the same patient |
| Patients.EqualsOnCanonicalIncome | src/main/java/casetrack/app/model/patient/Patient.java:145-151 | for constructed patients, equality is identity of all fields |
| Patients.AddNoteChangesRecord | src/main/java/casetrack/app/model/patient/Patient.java:120-151 | adding a note gives a patient that is the same patient but not an equal one |
| Patients.NotesDistinguish | src/main/java/casetrack/app/model/patient/Patient.java:151 | patients that differ only in their notes are not equal, but are the same patient |
| Persons.NewPerson | src/main/java/casetrack/app/logic/parser/AddCommandParser.java:58 | the new person holds the given fields and no notes |
| Keywords.AnyKeywordInIff | src/main/java/casetrack/app/model/patient/EmailContainsKeywordsPredicate.java:20-23 | a field matches exactly when some keyword, lower-cased, occurs in the lower-cased field |
| Keywords.AnyKeywordIn | src/main/java/casetrack/app/model/patient/EmailContainsKeywordsPredicate.java:20-23 | defines the keyword match over the list, keyword by keyword; Keywords.AnyKeywordInIff states it as "some keyword occurs" |
| Keywords.PhoneTest | src/main/java/casetrack/app/model/patient/PhoneContainsKeywordsPredicate.java:20-23 | defines the phone search on the raw phone text; Keywords.OnlyOwnField and Keywords.PartialMatch state its properties |
| Keywords.EmailTest | src/main/java/casetrack/app/model/patient/EmailContainsKeywordsPredicate.java:20-23 | defines the e-mail search on the e-mail text; Keywords.OnlyOwnField states that it reads no other field |
| Keywords.TagTest | src/main/java/casetrack/app/model/patient/TagContainsKeywordsPredicate.java:19-23 | defines the tag search over the tag names; Keywords.AnyKeywordInTagsIff and Keywords.NoTagsNoMatch state its properties |
| Keywords.PersonEmailTest | src/main/java/casetrack/app/model/person/EmailContainsKeywordsPredicate.java:19-22 | defines the person e-mail search, the same match as the patient one |
| Keywords.PersonTagTest | src/main/java/casetrack/app/model/person/TagContainsKeywordsPredicate.java:19-23 | defines the person tag search, the same match as the patient one |
| Keywords.AnyKeywordInTagsIff | src/main/java/casetrack/app/model/patient/TagContainsKeywordsPredicate.java:19-23 | the tags match exactly when some keyword occurs, ignoring case, in some tag name |
| Keywords.NoKeywordsNoMatch | src/main/java/casetrack/app/model/patient/EmailContainsKeywordsPredicate.java:21-22 | an empty keyword list matches nothing |
| Keywords.NoTagsNoMatch | src/main/java/casetrack/app/model/patient/TagContainsKeywordsPredicate.java:20-22 | a record without tags never passes the tag search |
| Keywords.KeywordsMonotone | src/main/java/casetrack/app/model/patient/EmailContainsKeywordsPredicate.java:21-22 | adding keywords before or after keeps every match |
| Keywords.TagsMonotone | src/main/java/casetrack/app/model/patient/TagContainsKeywordsPredicate.java:20-22 | adding tags keeps every match |
| Keywords.PartialMatch | src/main/java/casetrack/app/model/patient/PhoneContainsKeywordsPredicate.java:22 | a keyword matching any slice of the field, ignoring case, matches |
| Keywords.NoNormalisation | src/main/java/casetrack/app/model/patient/PhoneContainsKeywordsPredicate.java:22 | a keyword whose first character occurs nowhere in the field does not match, so there is no other normalisation |
| Keywords.OnlyOwnField | src/main/java/casetrack/app/model/patient/PhoneContainsKeywordsPredicate.java:20-23 | each patient predicate depends only on its own field |
| Arguments.GetAllValues | src/main/java/casetrack/app/logic/parser/AddCommandParser.java:56 | a prefix that was never given has no values |
| Arguments.GetValue | src/main/java/casetrack/app/logic/parser/AddCommandParser.java:53 | present exactly when the prefix has values, and then the last one given |
| Arguments.DuplicatedPrefixes | src/main/java/casetrack/app/logic/parser/AddCommandParser.java:46-47 | exactly the listed prefixes given more than once |
| Arguments.DuplicatedSingle | src/main/java/casetrack/app/logic/parser/EditNoteCommandParser.java:40 | one prefix is reported exactly when it was given more than once |
| ParserUtil.ClassName | src/main/java/casetrack/app/storage/JsonAdaptedPatient.java:92-93 | the simple class name of each field: Name, Phone, Email, Address, Income, MedicalInfo, Tag and Note |
| ParserUtil.ClassNameInjective | src/main/java/casetrack/app/storage/JsonAdaptedPatient.java:92-93 | two fields have the same class name exactly when they are the same field |
| ParserUtil.VerifyNoDuplicates | src/main/java/casetrack/app/logic/parser/AddCommandParser.java:46-47 | succeeds exactly when no listed prefix repeats; otherwise the error names the non-empty set of repeated prefixes |
| ParserUtil.AsFormatError | src/main/java/casetrack/app/logic/parser/EditCommandParser.java:104-108 | success and its value are kept; any error becomes the format error with the usage text |
| ParserUtil.ParseIndex | src/main/java/casetrack/app/logic/parser/DeleteCommandParser.java:52-53 | succeeds exactly when the trimmed text is ASCII digits denoting 1 to 2147483647, giving that one-based index; otherwise the invalid-index error |
| ParserUtil.IsNonZeroUnsignedInteger | src/main/java/casetrack/app/logic/parser/DeleteCommandParser.java:52-53 | defines the text an index is read from: ASCII digits only, no sign, denoting 1 to 2147483647; its consequences are stated by ParserUtil.ParseIndex and ParserUtil.SignedOrZeroRefused |
| ParserUtil.ParseIndexRoundTrip | src/main/java/casetrack/app/logic/parser/ViewDetailsCommandParser.java:30 | the decimal text of k parses to the index whose zero-based value is k - 1 |
| ParserUtil.SignedOrZeroRefused | src/main/java/casetrack/app/logic/parser/DeleteCommandParser.java:72 | a signed number or zero is refused with the invalid-index error |
| ParserUtil.ParseName | src/main/java/casetrack/app/logic/parser/AddCommandParser.java:48 | succeeds exactly when the trimmed text is a valid name, holding the trimmed text; otherwise the name constraint error |
| ParserUtil.ParsePhone | src/main/java/casetrack/app/logic/parser/AddCommandParser.java:49 | the same for phone numbers |
| ParserUtil.ParseEmail | src/main/java/casetrack/app/logic/parser/AddCommandParser.java:50 | the same for e-mail addresses, with the validator as a parameter |
| ParserUtil.ParseAddress | src/main/java/casetrack/app/logic/parser/AddCommandParser.java:51 | the same for street addresses, with the validator as a parameter |
| ParserUtil.ParseIncome | src/main/java/casetrack/app/logic/parser/AddCommandParser.java:52 | the same for person incomes |
| ParserUtil.ParseMedicalInfo | src/main/java/casetrack/app/logic/parser/AddCommandParser.java:54 | the same for medical information |
| ParserUtil.ParseNote | src/main/java/casetrack/app/logic/parser/NoteCommandParser.java:34 | succeeds exactly when the note text is valid, giving that note; otherwise the note constraint error |
| ParserUtil.ParseTag | src/main/java/casetrack/app/logic/parser/AddCommandParser.java:56 | succeeds exactly when the trimmed text is a valid tag name, holding the trimmed text |
| ParserUtil.ParseTags | src/main/java/casetrack/app/logic/parser/AddCommandParser.java:56 | succeeds exactly when every trimmed tag is valid; the result is the set of trimmed tags |
| ParserUtil.RepeatedTagCollapses | src/main/java/casetrack/app/logic/parser/AddCommandParser.java:56 | repeating a tag leaves the parsed tag set unchanged |
| Commands.NoteByIndex | src/main/java/casetrack/app/logic/commands/NoteCommand.java:51-58 | the command holds the index and no name or phone |
| Commands.NoteByNameAndPhone | src/main/java/casetrack/app/logic/commands/NoteCommand.java:63-71 | the command holds the name and phone and no index |
| Commands.NoteFormsDistinct | src/main/java/casetrack/app/logic/commands/NoteCommand.java:109-125 | the two forms never compare equal, and index commands are equal exactly when index and note agree |
| AddCommandParser.MedicalInfoOrPlaceholder | src/main/java/casetrack/app/logic/parser/AddCommandParser.java:53-55 | without the prefix the placeholder "-", otherwise the parsed value |
| AddCommandParser.ParseArgs | src/main/java/casetrack/app/logic/parser/AddCommandParser.java:41-60 | succeeds exactly when the preamble is empty, the required prefixes are present and unrepeated and every field parses; the person then holds the trimmed fields, the tag set and no notes |
| AddCommandParser.Parse | src/main/java/casetrack/app/logic/parser/AddCommandParser.java:36-61 | a parsed command is an add command for a person without notes |
| AddCommandParser.ErrorOrder | src/main/java/casetrack/app/logic/parser/AddCommandParser.java:41-56 | the error is the first failing check: format, duplicates, then name, phone, e-mail, address, income, medical information, tags |
| AddCommandParser.RepeatedTagsAllowed | src/main/java/casetrack/app/logic/parser/AddCommandParser.java:46-47 | repeated tags never give a duplicate-prefix error |
| EditCommandParser.ParseEditNoteArgs | src/main/java/casetrack/app/logic/parser/EditCommandParser.java:56-92 | succeeds exactly with two indices and a valid note text, giving those positions and that note; index failures become format errors |
| EditCommandParser.ParseEditPersonArgs | src/main/java/casetrack/app/logic/parser/EditCommandParser.java:97-138 | a bad index is a format error, then repeated prefixes, then field errors; success needs some field edited, never edits the income and holds the filled descriptor |
| EditCommandParser.Parse | src/main/java/casetrack/app/logic/parser/EditCommandParser.java:41-51 | input starting with "note " goes to the note branch and everything else to the person branch |
| EditCommandParser.NotEditedExactly | src/main/java/casetrack/app/logic/parser/EditCommandParser.java:133-135 | the not-edited error arises exactly when the index parses and no field prefix was given |
| EditCommandParser.AgreesWithPatientParser | src/main/java/casetrack/app/logic/parser/EditCommandParser.java:97-138 | without an income prefix this parser and the patient edit parser agree |
| EditCommandParser.NoteBranchAgrees | src/main/java/casetrack/app/logic/parser/EditCommandParser.java:56-92 | with at most one note text it agrees with the edit-note parser; with more, that parser refuses while this one uses the last |
| EditNoteCommandParser.ParseArgs | src/main/java/casetrack/app/logic/parser/EditNoteCommandParser.java:22-56 | two indices, one note prefix and a valid note give the command; each other case gives its own error, in the order of the checks |
| EditNoteCommandParser.RoundTrip | src/main/java/casetrack/app/logic/parser/EditNoteCommandParser.java:22-56 | printing two positions and one note text parses back to that command |
| EditNoteCommandParser.Parse | src/main/java/casetrack/app/logic/parser/EditNoteCommandParser.java:22-24 | the arguments are tokenised with a space in front, and a parsed command edits a note to a non-empty text |
| EditPatientCommandParser.ParseTagsForEdit | src/main/java/casetrack/app/logic/parser/EditPatientCommandParser.java:87-95 | no tags means no change; one empty tag clears the tags; otherwise the parsed tag set or the tag error |
| EditPatientCommandParser.NameEdit | src/main/java/casetrack/app/logic/parser/EditPatientCommandParser.java:61-63 | absent means no change; present means the trimmed valid name or the name error |
| EditPatientCommandParser.PhoneEdit | src/main/java/casetrack/app/logic/parser/EditPatientCommandParser.java:64-66 | the same for the phone |
| EditPatientCommandParser.EmailEdit | src/main/java/casetrack/app/logic/parser/EditPatientCommandParser.java:67-69 | the same for the e-mail |
| EditPatientCommandParser.AddressEdit | src/main/java/casetrack/app/logic/parser/EditPatientCommandParser.java:70-72 | the same for the address |
| EditPatientCommandParser.IncomeEdit | src/main/java/casetrack/app/logic/parser/EditPatientCommandParser.java:73-75 | the same for the income, which only this parser reads |
| EditPatientCommandParser.MedicalInfoEdit | src/main/java/casetrack/app/logic/parser/EditPatientCommandParser.java:76-78 | the same for the medical information |
| EditPatientCommandParser.Fill | src/main/java/casetrack/app/logic/parser/EditPatientCommandParser.java:59-80 | succeeds exactly when every given field parses, and the descriptor holds each field's edit |
| EditPatientCommandParser.FillErrorOrder | src/main/java/casetrack/app/logic/parser/EditPatientCommandParser.java:59-80 | the error names the first failing field in the order of the statements |
| EditPatientCommandParser.FillEditPersonDescriptor | src/main/java/casetrack/app/logic/parser/EditPatientCommandParser.java:59-80 | the step-by-step descriptor filling gives the same result as the field-by-field specification |
| EditPatientCommandParser.ParseArgs | src/main/java/casetrack/app/logic/parser/EditPatientCommandParser.java:32-54 | index error, then duplicates, then field error; success exactly when some field is edited, giving that index and descriptor |
| EditPatientCommandParser.Parse | src/main/java/casetrack/app/logic/parser/EditPatientCommandParser.java:32-35 | a parsed command is an edit whose descriptor changes at least one field |
| EditPatientCommandParser.FillEmptyExactly | src/main/java/casetrack/app/logic/parser/EditPatientCommandParser.java:50-52 | the descriptor edits nothing exactly when no field prefix was given |
| EditPatientCommandParser.NotEditedExactly | src/main/java/casetrack/app/logic/parser/EditPatientCommandParser.java:50-52 | the not-edited error arises exactly when the index parses and no field prefix was given |
| EditPatientCommandParser.EmptyTagClears | src/main/java/casetrack/app/logic/parser/EditPatientCommandParser.java:93 | a single empty tag edits the tags to the empty set |
| EditPatientCommandParser.EmptyTagAmongOthers | src/main/java/casetrack/app/logic/parser/EditPatientCommandParser.java:93-94 | among several tags, an invalid one, such as an empty one, is a tag error |
| NoteCommandParser.ParseArgs | src/main/java/casetrack/app/logic/parser/NoteCommandParser.java:25-59 | a missing or invalid note text fails first; with both name and phone, an empty preamble and no repeats give the name-and-phone command; otherwise a parsable preamble gives the index command |
| NoteCommandParser.ByNameAndPhone | src/main/java/casetrack/app/logic/parser/NoteCommandParser.java:36-37 | defines the choice of the name-and-phone form: both n/ and p/ are given; NoteCommandParser.ParseArgs states that a parsed command has no index exactly then |
| NoteCommandParser.Parse | src/main/java/casetrack/app/logic/parser/NoteCommandParser.java:25-59 | a parsed command adds a non-empty note |
| NoteCommandParser.IndexFormIgnoresRepeats | src/main/java/casetrack/app/logic/parser/NoteCommandParser.java:48-55 | in the index form a repeated note prefix is accepted and the last text used |
| NoteCommandParser.IndexFormRoundTrip | src/main/java/casetrack/app/logic/parser/NoteCommandParser.java:48-51 | a printed index and one note text parse back to the index command |
| NoteCommandParser.BothFormsRefused | src/main/java/casetrack/app/logic/parser/NoteCommandParser.java:37-40 | giving an index together with name and phone is refused |
| DeleteCommandParser.RemoveCommandPrefix | src/main/java/casetrack/app/logic/parser/DeleteCommandParser.java:82-84 | the rest after the keyword and one character is trimmed and shorter |
| DeleteCommandParser.ParseDeleteNote | src/main/java/casetrack/app/logic/parser/DeleteCommandParser.java:43-55 | not exactly two parts is a format error; otherwise success exactly when both indices parse, giving those indices |
| DeleteCommandParser.ParseDeletePatient | src/main/java/casetrack/app/logic/parser/DeleteCommandParser.java:63-74 | not exactly one part is a format error; otherwise success exactly when the index parses |
| DeleteCommandParser.Parse | src/main/java/casetrack/app/logic/parser/DeleteCommandParser.java:25-35 | without "note " or "patient " in front the delete format error; a note deletion only after "note ", a patient deletion only after "patient " |
| DeleteCommandParser.NoteBranch | src/main/java/casetrack/app/logic/parser/DeleteCommandParser.java:28-29 | trimmed input starting with "note " is parsed by the note branch |
| DeleteCommandParser.NoteRoundTrip | src/main/java/casetrack/app/logic/parser/DeleteCommandParser.java:43-55 | "note i j" parses back to the deletion of note j of patient i |
| DeleteCommandParser.PatientRoundTrip | src/main/java/casetrack/app/logic/parser/DeleteCommandParser.java:63-74 | "patient k" parses back to the deletion of patient k |
| DeleteCommandParser.SubcommandExact | src/main/java/casetrack/app/logic/parser/DeleteCommandParser.java:28-33 | "Note 1 2" and a bare "patient" are format errors, since the keyword is case-sensitive and needs a space |
| DeletePatientCommandParser.Parse | src/main/java/casetrack/app/logic/parser/DeletePatientCommandParser.java:19-42 | without "patient" in front a format error; otherwise success exactly when the rest parses as an index, and the index holds its value |
| DeletePatientCommandParser.Accepts | src/main/java/casetrack/app/logic/parser/DeletePatientCommandParser.java:28-40 | input starting with "patient" and a parsable index gives the deletion of that index |
| DeletePatientCommandParser.RoundTrip | src/main/java/casetrack/app/logic/parser/DeletePatientCommandParser.java:28-40 | "patient k", with or without a space, parses back to the deletion of patient k |
| DeletePatientCommandParser.AgreesWithDeleteParser | src/main/java/casetrack/app/logic/parser/DeletePatientCommandParser.java:34-40 | wherever the delete parser's patient branch succeeds, this parser gives the same command |
| DeletePatientCommandParser.DeleteParserRefuses | src/main/java/casetrack/app/logic/parser/DeleteCommandParser.java:28-33 | the delete parser gives its format error for trimmed text starting with 'p' whose character after the length of "patient" is not a space |
| DeletePatientCommandParser.NoSpaceAccepted | src/main/java/casetrack/app/logic/parser/DeletePatientCommandParser.java:38 | "patient3" is accepted here and refused by the delete parser |
| DeletePatientCommandParser.NoSpaceRefused | src/main/java/casetrack/app/logic/parser/DeleteCommandParser.java:30 | the delete parser refuses "patient" followed directly by digits |
| ViewDetailsCommandParser.Parse | src/main/java/casetrack/app/logic/parser/ViewDetailsCommandParser.java:24-35 | empty arguments are a format error; otherwise success exactly when the trimmed text is an index, else the index error with the view usage appended |
| ViewDetailsCommandParser.RoundTrip | src/main/java/casetrack/app/logic/parser/ViewDetailsCommandParser.java:29-31 | a printed index, with or without a leading space, parses back to viewing that index |
| ViewDetailsCommandParser.BlankIsIndexError | src/main/java/casetrack/app/logic/parser/ViewDetailsCommandParser.java:25-33 | blank but non-empty arguments get the index error, not the format error |
| FindCommandParser.Subcommand | src/main/java/casetrack/app/logic/parser/FindCommandParser.java:54-66 | "name", "number" and "email" each select their predicate, in both directions; anything else is the format error |
| FindCommandParser.Parts | src/main/java/casetrack/app/logic/parser/FindCommandParser.java:27-33 | the parts are the words of the trimmed text, each non-empty and free of whitespace |
| FindCommandParser.Parse | src/main/java/casetrack/app/logic/parser/FindCommandParser.java:26-45 | success exactly when there are two or more words and the first, lower-cased, is a supported field; the predicate holds the other words |
| FindCommandParser.ParseOfPieces | src/main/java/casetrack/app/logic/parser/FindCommandParser.java:40-44 | a field word followed by keywords parses to that field's predicate over those keywords |
| FindCommandParser.RoundTrip | src/main/java/casetrack/app/logic/parser/FindCommandParser.java:26-45 | printing a field word and keywords separated by spaces parses back to that search |
| FindCommandParser.CaseOfWordIgnored | src/main/java/casetrack/app/logic/parser/FindCommandParser.java:40 | the case of the field word does not change the result |
| FindCommandParser.WordAloneRefused | src/main/java/casetrack/app/logic/parser/FindCommandParser.java:35-38 | a single word is a format error |
| LegacyFindCommandParser.Parse | src/main/java/seedu/address/logic/parser/FindCommandParser.java:22-46 | success exactly for "name" followed by keywords, giving the name search over them |
| LegacyFindCommandParser.ExtendedByTracker | src/main/java/casetrack/app/logic/parser/FindCommandParser.java:54-66 | the newer parser accepts everything the older one does, with the same result, and adds exactly "number" and "email" |
| AddressBookParser.CommandWord | src/main/java/casetrack/app/logic/parser/AddressBookParser.java:42-47 | the command word is the leading run of non-whitespace characters |
| AddressBookParser.Matches | src/main/java/casetrack/app/logic/parser/AddressBookParser.java:31-45 | defines when the command pattern matches the trimmed input: it is non-empty and no line terminator follows the command word; AddressBookParser.SplitsAtWord, AddressBookParser.BlankIsFormatError and AddressBookParser.LineTerminatorRefused state its consequences |
| AddressBookParser.ArgumentsOf | src/main/java/casetrack/app/logic/parser/AddressBookParser.java:47-48 | the word followed by the arguments is the whole text, and the arguments are empty or start with whitespace |
| AddressBookParser.AddCase | src/main/java/casetrack/app/logic/parser/AddressBookParser.java:57-58 | the add case builds only add commands |
| AddressBookParser.EditCase | src/main/java/casetrack/app/logic/parser/AddressBookParser.java:60-61 | the edit case builds only commands that edit a patient or a note |
| AddressBookParser.DeleteCase | src/main/java/casetrack/app/logic/parser/AddressBookParser.java:63-64 | the delete case builds only commands that delete a patient or a note |
| AddressBookParser.NoteCase | src/main/java/casetrack/app/logic/parser/AddressBookParser.java:66-67 | the note case builds only commands that add a note |
| AddressBookParser.SearchCase | src/main/java/casetrack/app/logic/parser/AddressBookParser.java:72-73 | the search case builds only search commands |
| AddressBookParser.DispatchParsed | src/main/java/casetrack/app/logic/parser/AddressBookParser.java:57-73 | the cases handing the arguments on build only commands of their own word |
| AddressBookParser.DispatchFixed | src/main/java/casetrack/app/logic/parser/AddressBookParser.java:69-82 | clear, list, exit and help build their command |
| AddressBookParser.Dispatch | src/main/java/casetrack/app/logic/parser/AddressBookParser.java:55-87 | an unrecognised word is the unknown-command error; a recognised one builds only commands of its own word |
| AddressBookParser.ParseCommand | src/main/java/casetrack/app/logic/parser/AddressBookParser.java:41-88 | non-matching input is the format error with the help text; an unknown word is the unknown-command error; a built command has the kind its word names and is never a view command |
| AddressBookParser.SplitsAtWord | src/main/java/casetrack/app/logic/parser/AddressBookParser.java:31-48 | a word followed by whitespace-led arguments matches the pattern and splits into that word and those arguments |
| AddressBookParser.BlankIsFormatError | src/main/java/casetrack/app/logic/parser/AddressBookParser.java:42-45 | blank input is the format error with the help text |
| AddressBookParser.LineTerminatorRefused | src/main/java/casetrack/app/logic/parser/AddressBookParser.java:31-45 | a line break after the command word makes the input a format error |
| AddressBookParser.ArgumentsPassedOn | src/main/java/casetrack/app/logic/parser/AddressBookParser.java:47-58 | the arguments reach the chosen parser unchanged, leading whitespace included |
| AddressBookParser.ArgumentsIgnored | src/main/java/casetrack/app/logic/parser/AddressBookParser.java:69-82 | clear, list, exit and help succeed whatever follows them |
| AddressBookParser.FixedNotParsed | src/main/java/casetrack/app/logic/parser/AddressBookParser.java:55-82 | the words of the commands built without arguments are none of the words whose arguments are parsed |
| AddressBookParser.WordIsCaseSensitive | src/main/java/casetrack/app/logic/parser/AddressBookParser.java:55 | a word starting with upper-case 'L' is unknown, so "LIST" is not "list" |
| AddressBookParser.ViewIsUnknown | src/main/java/casetrack/app/logic/parser/AddressBookParser.java:55-86 | "view k" is an unknown command, as written |
| AddressBookParser.ParseCommandWithView | src/main/java/casetrack/app/logic/parser/AddressBookParser.java:41-88 | the dispatcher with the view case added: the same errors, commands of their word's kind, and the original result for every other word |
| AddressBookParser.ViewDispatched | src/test/java/casetrack/app/logic/parser/AddressBookParserTest.java:89-91 | with the view case added, "view k" parses to viewing index k |
| CommandResults.ClearInstructionClears | src/main/java/casetrack/app/logic/commands/DetailPanelInstruction.java:36-53 | the clear instruction clears; an instruction equals it exactly when it clears; its hash is 0 |
| CommandResults.ShouldClearDisplay | src/main/java/casetrack/app/logic/commands/DetailPanelInstruction.java:31-38 | defines clearing as holding no record; CommandResults.ClearInstructionClears states which instructions clear |
| CommandResults.InstructionEquals | src/main/java/casetrack/app/logic/commands/DetailPanelInstruction.java:40-53 | defines instruction equality: both hold nothing, or both hold equal records; CommandResults.InstructionEqualsIsEquivalence states its properties |
| CommandResults.InstructionEqualsIsEquivalence | src/main/java/casetrack/app/logic/commands/DetailPanelInstruction.java:40-53 | instruction equality is reflexive, symmetric and transitive |
| CommandResults.InstructionHashConsistent | src/main/java/casetrack/app/logic/commands/DetailPanelInstruction.java:51-57 | the hash is 0 for the clear instruction and otherwise the held record's hash, and equal instructions hash alike whenever the record hash agrees with record equality |
| CommandResults.WithDetail | src/main/java/casetrack/app/logic/commands/CommandResult.java:27-32 | the result holds the feedback, the detail target and both flags, and no instruction |
| CommandResults.FromFeedback | src/main/java/casetrack/app/logic/commands/CommandResult.java:37-39 | the result holds the feedback, no target, no instruction and both flags false |
| CommandResults.WithInstruction | src/main/java/casetrack/app/logic/commands/DeletePatientCommand.java:39-41 | the result holds the feedback and the instruction, no target and both flags false |
| CommandResults.ResultEqualsIsEquivalence | src/main/java/casetrack/app/logic/commands/CommandResult.java:57-73 | result equality is an equivalence and ignores exactly the instruction |
| CommandResults.ResultEquals | src/main/java/casetrack/app/logic/commands/CommandResult.java:57-73 | defines result equality on the feedback, the detail target and both flags; CommandResults.ResultEqualsIsEquivalence states what it ignores |
| CommandResults.FromFeedbackEquals | src/main/java/casetrack/app/logic/commands/CommandResult.java:37-73 | feedback-only results are equal exactly when their feedback is; a detail target makes a difference; an instruction does not |
| ModelState.FilterBy | src/main/java/casetrack/app/logic/commands/FindCommand.java:39 | the displayed list is no longer than the store and holds exactly the stored records the filter admits |
| ModelState.FilterBySingle | src/main/java/casetrack/app/logic/commands/FindCommand.java:39 | a single stored record is displayed exactly when the filter admits it |
| ModelState.FilterByAppend | src/main/java/casetrack/app/logic/commands/FindCommand.java:39 | the display keeps store order: filtering two stores one after the other gives the first display followed by the second |
| ModelState.FilterByMultiplicity | src/main/java/casetrack/app/logic/commands/FindCommand.java:39 | an admitted record is displayed exactly as many times as it is stored, and a refused one never |
| ModelState.RemoveFirst | src/main/java/casetrack/app/logic/commands/DeletePatientCommand.java:37 | removes exactly one occurrence when present, nothing otherwise, and keeps every other record |
| ModelState.RemoveFirstKeepsOrder | src/main/java/casetrack/app/logic/commands/DeletePatientCommand.java:37 | records before the removed one keep their places and those after it move up by one |
| ModelState.ReplaceFirst | src/main/java/casetrack/app/logic/commands/NoteCommand.java:80 | same length; the first occurrence of the target holds the edited record and every other place is unchanged |
| ModelState.PersonAt | src/main/java/casetrack/app/logic/commands/DeleteCommand.java:21-30 | succeeds exactly for an index inside the displayed list, giving the record there; otherwise the invalid person index error |
| ModelState.ResolvedIsStored | src/main/java/casetrack/app/logic/commands/DeleteCommand.java:25-29 | a record reached through the displayed list is stored and admitted by the filter |
| ModelState.ShowAllIsStore | src/main/java/casetrack/app/logic/commands/DeleteCommand.java:25 | without a filter, the displayed list is the store |
| ModelState.HiddenIsUnreachable | src/main/java/casetrack/app/logic/commands/DeleteCommand.java:25-29 | no index reaches a stored record the filter hides |
| ModelState.FirstWhere | src/main/java/casetrack/app/logic/commands/NoteCommand.java:99-103 | the first displayed position that passes the test, or none when none passes |
| ModelState.FindPatient | src/main/java/casetrack/app/logic/commands/NoteCommand.java:90-107 | by index: the record there or the invalid patient index error; by name and phone: the first displayed record whose name and phone both equal the given ones exactly, or not-found when none does; neither: the missing-reference error |
| ModelState.NameAndPhoneAgreesWithIndex | src/main/java/casetrack/app/logic/commands/NoteCommand.java:93-103 | looking up a displayed record by its own exact name and phone finds that record, as its index does, when no earlier displayed record has the same name and phone |
| ModelState.NoteTarget | src/main/java/casetrack/app/logic/commands/DeleteNoteCommand.java:50-63 | index error, then no-notes error, then note-index error; success exactly when both indices are in range |
| ModelState.Model.constructor | src/main/java/casetrack/app/logic/commands/ClearCommand.java:20 | a new model stores nothing and shows everything |
| ModelState.Model.DeletePatient | src/main/java/casetrack/app/logic/commands/DeletePatientCommand.java:33-42 | an index outside the displayed list fails and changes nothing; otherwise the displayed record is removed from the store and the result clears the detail panel |
| ModelState.Model.ViewDetails | src/main/java/casetrack/app/logic/commands/ViewDetailsCommand.java:34-46 | succeeds exactly for an index inside the displayed list, and the result shows that record |
| ModelState.Model.AddNote | src/main/java/casetrack/app/logic/commands/NoteCommand.java:73-85 | a failed lookup changes nothing; otherwise the found record is replaced by itself with the note added, and the result shows the new record |
| ModelState.Model.EditNote | src/main/java/casetrack/app/logic/commands/EditNoteCommand.java:46-70 | a failed check changes nothing; otherwise the record's note is replaced in the store and the result shows the new record |
| ModelState.Model.DeleteNote | src/main/java/casetrack/app/logic/commands/DeleteNoteCommand.java:45-70 | a failed check changes nothing; otherwise the note is removed in the store and the result names the deleted note and shows the new record |
| ModelState.Model.Find | src/main/java/casetrack/app/logic/commands/FindCommand.java:36-42 | the store is unchanged, the filter becomes the predicate, and the result reports the size of the new displayed list |
| ModelState.Model.Clear | src/main/java/casetrack/app/logic/commands/ClearCommand.java:17-22 | the store becomes empty and the result clears the detail panel |
| ModelState.Model.InShown | src/main/java/casetrack/app/logic/commands/DeleteCommand.java:25 | every displayed record is stored |
| ModelState.Model.Shown | src/main/java/casetrack/app/logic/commands/DeleteCommand.java:25 | defines the displayed list as the store filtered by the current predicate; ModelState.Model.InShown and ModelState.FilterBy state what it holds |
| ModelState.ReplaceKeepsOthers | src/main/java/casetrack/app/logic/commands/NoteCommand.java:80 | replacing one record keeps the length and every other record |
| ModelState.ClearedShowsNothing | src/main/java/casetrack/app/logic/commands/ClearCommand.java:20 | after clearing, the displayed list is empty whatever the filter |
| JsonStorage.CheckField | src/main/java/casetrack/app/storage/JsonAdaptedPerson.java:130-140 | absent is the missing-field error; present but refused is the constraint error; otherwise the stored text |
| JsonStorage.MissingFieldMessageNamesField | src/main/java/casetrack/app/storage/JsonAdaptedPatient.java:27 | for one owner, two fields give the same missing-field message exactly when they are the same field |
| JsonStorage.MissingFieldTexts | src/main/java/casetrack/app/storage/JsonAdaptedPatient.java:27 | for any owner, as both adapters' formats ("Patient" here, "Person" at JsonAdaptedPerson.java:27), a missing note reads "<owner>'s Note field is missing!" and two fields give the same message exactly when they are the same field |
| JsonStorage.TagToModel | src/main/java/casetrack/app/storage/JsonAdaptedPatient.java:85-87 | succeeds exactly for a valid tag name, keeping the name; otherwise the tag constraint error |
| JsonStorage.LoadTags | src/main/java/casetrack/app/storage/JsonAdaptedPatient.java:84-87 | succeeds exactly when every stored tag is valid, giving the set of their names |
| JsonStorage.NoteError | src/main/java/casetrack/app/storage/JsonAdaptedPatient.java:91-97 | a null entry is the missing note; a present one the note constraint |
| JsonStorage.LoadNotes | src/main/java/casetrack/app/storage/JsonAdaptedPatient.java:89-99 | succeeds exactly when every entry is present and valid, keeping number and order; otherwise the error of the first bad entry |
| JsonStorage.NotesRoundTrip | src/main/java/casetrack/app/storage/JsonAdaptedPatient.java:71-98 | storing notes as their texts and loading them gives the same notes |
| JsonStorage.TagsRoundTrip | src/main/java/casetrack/app/storage/JsonAdaptedPatient.java:68-87 | storing a tag set in any order and loading it gives the same set |
| JsonStorage.FirstBadNoteReported | src/main/java/casetrack/app/storage/JsonAdaptedPatient.java:90-97 | the first bad entry decides the error |
| JsonPatient.FromJson | src/main/java/casetrack/app/storage/JsonAdaptedPatient.java:40-57 | scalar fields are kept as given; absent lists become empty |
| JsonPatient.FromPatient | src/main/java/casetrack/app/storage/JsonAdaptedPatient.java:62-74 | defines the stored form of a patient: the field texts, the printed income, one stored tag per tag and the note texts in order; JsonPatient.RoundTrip states that loading it gives the patient back |
| JsonPatient.Load | src/main/java/casetrack/app/storage/JsonAdaptedPatient.java:83-143 | succeeds exactly when the tags, every note and every scalar field pass their checks, and the patient then holds those values |
| JsonPatient.ConvertTags | src/main/java/casetrack/app/storage/JsonAdaptedPatient.java:84-87 | the loop over the stored tags stops at the first invalid one and otherwise yields the set of their names, as the tag loading specifies |
| JsonPatient.ConvertNotes | src/main/java/casetrack/app/storage/JsonAdaptedPatient.java:89-99 | the loop over the stored notes reports the first null or blank entry and otherwise yields the notes in order, as the note loading specifies |
| JsonPatient.ToModelType | src/main/java/casetrack/app/storage/JsonAdaptedPatient.java:83-143 | the loops and checks give exactly the specified loading result |
| JsonPatient.ErrorOrder | src/main/java/casetrack/app/storage/JsonAdaptedPatient.java:83-139 | tags fail before notes, notes before scalars, and scalars in the order name, phone, e-mail, address, income |
| JsonPatient.RoundTrip | src/main/java/casetrack/app/storage/JsonAdaptedPatient.java:62-74 | storing a constructed patient and loading it back gives the same patient |
| JsonPatient.AbsentListsLoadEmpty | src/main/java/casetrack/app/storage/JsonAdaptedPatient.java:51-56 | without tag and note lists a loaded patient has no tags and no notes |
| JsonPerson.FromJson | src/main/java/casetrack/app/storage/JsonAdaptedPerson.java:41-60 | scalar fields are kept as given; absent lists become empty |
| JsonPerson.FromPerson | src/main/java/casetrack/app/storage/JsonAdaptedPerson.java:65-79 | defines the stored form of a person: the field texts, one stored tag per tag and the note texts in order; JsonPerson.RoundTrip states that loading it gives the person back |
| JsonPerson.MedicalInfoText | src/main/java/casetrack/app/storage/JsonAdaptedPerson.java:111 | the stored medical information, or "-" when absent |
| JsonPerson.LoadScalars | src/main/java/casetrack/app/storage/JsonAdaptedPerson.java:101-116 | succeeds exactly when every scalar field passes, never with a wrapped error, giving the exact person |
| JsonPerson.WrapFailure | src/main/java/casetrack/app/storage/JsonAdaptedPerson.java:91-93 | success is kept; an error is wrapped once |
| JsonPerson.LoadAsWritten | src/main/java/casetrack/app/storage/JsonAdaptedPerson.java:86-117 | a bad tag or note gives a wrapped error, as written |
| JsonPerson.Load | src/main/java/casetrack/app/storage/JsonAdaptedPerson.java:86-117 | no error is wrapped; tags fail first, then notes, then the scalar fields |
| JsonPerson.AsWrittenWrapsListFailures | src/main/java/casetrack/app/storage/JsonAdaptedPerson.java:87-99 | the two conversions agree when the lists load, and otherwise differ only by the wrapping |
| JsonPerson.InvalidTagEscapesWrapped | src/main/java/casetrack/app/storage/JsonAdaptedPerson.java:87-95 | one invalid tag fails wrapped as written and plain as intended |
| JsonPerson.BadNoteEscapesWrapped | src/main/java/casetrack/app/storage/JsonAdaptedPerson.java:119-126 | one blank or null note fails wrapped as written and plain as intended |
| JsonPerson.AbsentMedicalInfoIsPlaceholder | src/main/java/casetrack/app/storage/JsonAdaptedPerson.java:111-113 | absent medical information is never a missing field, and loads as "-" |
| JsonPerson.RoundTrip | src/main/java/casetrack/app/storage/JsonAdaptedPerson.java:65-79 | storing a constructed person and loading it back gives the same person, with either conversion; income and medical information are stored as their printed text, which is the text they hold |
| JsonPerson.AbsentListsLoadEmpty | src/main/java/casetrack/app/storage/JsonAdaptedPerson.java:54-59 | without tag and note lists a loaded person has no tags and no notes |
| JavaString.Trim | src/main/java/casetrack/app/logic/parser/DeleteCommandParser.java:26 | the trimmed text is no longer and neither starts nor ends with a character at or below U+0020 |
| JavaString.TrimFixpoint | src/main/java/casetrack/app/logic/parser/DeleteCommandParser.java:26 | trimming leaves a text unchanged exactly when it has no such character at either end |
| JavaString.TrimIdempotent | src/main/java/casetrack/app/logic/parser/DeleteCommandParser.java:83 | trimming twice is trimming once |
| JavaString.ToLower | src/main/java/casetrack/app/logic/parser/FindCommandParser.java:40 | lower-casing keeps the length |
| JavaString.ToLowerIdempotent | src/main/java/casetrack/app/logic/parser/FindCommandParser.java:40 | lower-casing twice is lower-casing once |
| JavaString.Words | src/main/java/casetrack/app/logic/parser/FindCommandParser.java:33 | every word is non-empty and holds no whitespace |
| JavaString.WordsEmpty | src/main/java/casetrack/app/logic/parser/FindCommandParser.java:33 | a text has no words exactly when it is all whitespace |
| JavaString.SplitTrimmed | src/main/java/casetrack/app/logic/parser/DeleteCommandParser.java:45 | splitting a trimmed text gives its words, or one empty part for the empty text |
| JavaString.UnwordsRoundTrip | src/main/java/casetrack/app/logic/parser/FindCommandParser.java:33 | words joined by single spaces split back into the same words |

## Left out

- Input and output are left out: the user interface, the log, the JSON reading and writing
  itself, and saving the address book. The storage adapters are modelled from the JSON values on.
- `ArgumentTokenizer`, `Email.isValidEmail`, `Address.isValidAddress`, `Tag.isValidTagName` and
  `NameContainsKeywordsPredicate` are not part of this model's sources. They are parameters: the
  `Arguments.Env` record, and the `nameTest` of `ModelState.Model`.
- `ParserUtil`, `Note`, `Person`, `ArgumentMultimap` and `ModelManager` are not part of this
  model's sources. They are modelled from how the commands, parsers and tests use them.
- `Messages.format` and `String.format` are left out: feedback is kept as the message constant and
  its arguments (`CommandResults.Feedback`), not as text.
- `AddCommand`, `EditCommand`, `ListCommand`, `HelpCommand` and `ExitCommand` are not part of this
  model's sources. Their parsers are modelled; executing them is not.
- The duplicate-patient checks of the stored list are left out.
  `ModelState.Model.AddNote`, `EditNote` and `DeleteNote` replace the record wherever it first
  occurs.
- `Name.HashCode` and `PatientIncome.HashCode` stand for `String.hashCode` and
  `BigDecimal.hashCode`. `Patient.hashCode` and the hashes of `Index`, `Note` and `Tag` are left
  out; `CommandResults.InstructionHash` takes the record hash as a parameter.
- `toString` of the commands, indices and records is left out: it only feeds logging.
- ParserUtil.ParseIndex: accepts ASCII digits only; `Integer.parseInt` also reads non-ASCII
  decimal digits, which the model refuses.
- `ParserUtil.ParseIndex`: the 32-bit limit is written out as 2147483647. Java's `int` wrap-around
  elsewhere is not modelled, because every index in the model is a mathematical integer.
- Decimal.Parse: the model reads only ASCII digits, a point and a sign. `new BigDecimal` also
  accepts an exponent ("1E3") and non-ASCII decimal digits (such as Arabic-Indic digits), which
  the model refuses; so `PatientIncome.IsValidIncome` refuses such text where the source accepts
  it. The parts of `BigDecimal` that the patient income does not use are left out.
- PatientIncome.ForeignCharacterRefused: states the model parser's alphabet, which is narrower
  than the source's for the exponent and non-ASCII digits named under Decimal.Parse.
- ViewDetailsCommandParser.Parse: the emptiness test `args == ""` at ViewDetailsCommandParser.java:25
  compares references; the model compares texts. The two agree when the empty argument is the
  interned literal, as at every call the source shows, and differ only for an empty string built
  at run time, which Java would pass on to `parseIndex`.
- `JavaString.ToLower` lower-cases ASCII letters only; Unicode case mapping is left out.
- `CommandResults.ResultEquals` compares the detail target by value, where `CommandResult.equals`
  compares it by reference.
- `ModelState.RemoveFirst` and `ModelState.ReplaceFirst` find the record by datatype equality,
  where the list uses `Patient.equals`. Both agree on constructed patients
  (`Patients.EqualsOnCanonicalIncome`).
- `Patients` holds the patient record's name and phone as the person `Name` and `Phone` values,
  because the patient's own name and phone classes are not part of this model's sources. Patient
  names are compared exactly, as written (`Patients.Equals`, `Patients.IsSamePatient` and the
  name-and-phone lookup `ModelState.FindPatient`), as PatientTest.java:47-53 expects; the
  normalising `Name.Equal` belongs to the person record only.

## Findings

| source | as written | input that shows it | evidently intended | confidence | as-written member | corrected member |
|---|---|---|---|---|---|---|
| src/main/java/casetrack/app/logic/parser/AddressBookParser.java:55-86 | the dispatcher has no case for `ViewDetailsCommand.COMMAND_WORD`, so "view" falls to the unknown-command error | "view 3", which AddressBookParserTest.java:89-91 expects to parse to a view command | "view" is dispatched to `ViewDetailsCommandParser` | not executed | AddressBookParser.ViewIsUnknown | AddressBookParser.ParseCommandWithView |
| src/main/java/casetrack/app/storage/JsonAdaptedPerson.java:87-95 | a failing tag or note is rethrown inside the stream as a `RuntimeException`, so `toModelType` does not throw the `IllegalValueException` it declares | a stored person whose only tag is invalid, or whose notes hold a blank or null entry; JsonAdaptedPersonTest.java:137-143 and 183-207 expect `IllegalValueException` | the tag or note failure surfaces as the declared `IllegalValueException` | not executed | JsonPerson.InvalidTagEscapesWrapped | JsonPerson.Load |
