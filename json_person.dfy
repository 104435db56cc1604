/**
 * `JsonAdaptedPerson`: the stored form of a person and its conversion back into a person. The
 * tags and notes are converted in stream pipelines, then the scalar fields go through one shared
 * check, with an absent medical information replaced by the placeholder first.
 */
module JsonPerson {
  import opened Wrappers
  import opened Notes
  import opened ParserUtil
  import opened Arguments
  import opened JsonStorage
  import Name
  import Phone
  import PersonIncome
  import MedicalInfo
  import Persons

  /** The record name in `MISSING_FIELD_MESSAGE_FORMAT`. */
  const Owner: string := "Person"

  /** The stored person. An absent list is held as an empty one. */
  datatype JsonAdaptedPerson = JsonAdaptedPerson(
    name: Option<string>,
    phone: Option<string>,
    email: Option<string>,
    address: Option<string>,
    income: Option<string>,
    medicalInfo: Option<string>,
    tags: seq<JsonTag>,
    notes: seq<Option<string>>)

  /** The Jackson constructor: scalar fields are kept as given; a null list becomes an empty one. */
  function FromJson(name: Option<string>, phone: Option<string>, email: Option<string>, address: Option<string>,
                    income: Option<string>, medicalInfo: Option<string>, tags: Option<seq<JsonTag>>,
                    notes: Option<seq<Option<string>>>): (a: JsonAdaptedPerson)
    ensures a.name == name && a.phone == phone && a.email == email && a.address == address
    ensures a.income == income && a.medicalInfo == medicalInfo
    ensures tags.None? ==> a.tags == []
    ensures notes.None? ==> a.notes == []
  {
    JsonAdaptedPerson(name, phone, email, address, income, medicalInfo,
                      if tags.Some? then tags.value else [], if notes.Some? then notes.value else [])
  }

  /**
   * The constructor from a person: the texts of the fields, one stored tag per tag and one stored
   * text per note. The order in which the tag set is walked is a parameter.
   */
  function FromPerson(p: Persons.Person, tagOrder: seq<string>): JsonAdaptedPerson
    requires forall t :: t in tagOrder <==> t in p.tags
  {
    JsonAdaptedPerson(Some(p.name.fullName), Some(p.phone.value), Some(p.email), Some(p.address),
                      Some(PersonIncome.ToString(p.income)), Some(MedicalInfo.ToString(p.medicalInfo)),
                      seq(|tagOrder|, i requires 0 <= i < |tagOrder| => JsonTag(tagOrder[i])),
                      seq(|p.notes|, i requires 0 <= i < |p.notes| => Some(p.notes[i].value)))
  }

  /** The medical information checked: the stored text, or the placeholder "-" when absent. */
  function MedicalInfoText(a: JsonAdaptedPerson): (s: string)
    ensures a.medicalInfo.None? ==> s == MedicalInfo.Placeholder
    ensures a.medicalInfo.Some? ==> s == a.medicalInfo.value
  {
    if a.medicalInfo.Some? then a.medicalInfo.value else MedicalInfo.Placeholder
  }

  /**
   * The `validateAndCreate` calls, in the order name, phone, e-mail, address, income, medical
   * information, building the person from the already converted tags and notes.
   */
  function LoadScalars(env: Env, a: JsonAdaptedPerson, tags: set<string>, notes: seq<Note>)
    : (r: Result<Persons.Person, StorageError>)
    ensures r.Ok? <==>
      CheckField(a.name, Name.IsValidName, NameField).Ok? && CheckField(a.phone, Phone.IsValidPhone, PhoneField).Ok?
      && CheckField(a.email, env.isValidEmail, EmailField).Ok? && CheckField(a.address, env.isValidAddress, AddressField).Ok?
      && CheckField(a.income, PersonIncome.IsValidIncome, IncomeField).Ok?
      && MedicalInfo.IsValidMedicalInfo(MedicalInfoText(a))
    ensures r.Err? ==> !r.error.Wrapped?
    ensures r.Ok? ==>
      r.value == Persons.Person(Name.Name(a.name.value), Phone.Phone(a.phone.value), a.email.value, a.address.value,
                                PersonIncome.Income(a.income.value), MedicalInfo.MedicalInfo(MedicalInfoText(a)),
                                tags, notes)
  {
    var name :- CheckField(a.name, Name.IsValidName, NameField);
    var phone :- CheckField(a.phone, Phone.IsValidPhone, PhoneField);
    var email :- CheckField(a.email, env.isValidEmail, EmailField);
    var address :- CheckField(a.address, env.isValidAddress, AddressField);
    var income :- CheckField(a.income, PersonIncome.IsValidIncome, IncomeField);
    var medicalInfo :- CheckField(Some(MedicalInfoText(a)), MedicalInfo.IsValidMedicalInfo, MedicalInfoField);
    Ok(Persons.Person(Name.MakeName(name), Phone.MakePhone(phone), email, address, PersonIncome.MakeIncome(income),
                      MedicalInfo.MakeMedicalInfo(medicalInfo), tags, notes))
  }

  /** A failure escaping a stream lambda: the exception wrapped in a `RuntimeException`. */
  function WrapFailure<T>(r: Result<T, StorageError>): (w: Result<T, StorageError>)
    ensures r.Ok? ==> w == r
    ensures r.Err? ==> w == Err(Wrapped(r.error))
  {
    match r
    case Ok(v) => Ok(v)
    case Err(e) => Err(Wrapped(e))
  }

  /**
   * `toModelType` as written: a failing tag or note is rethrown from inside the stream as a
   * `RuntimeException` around the `IllegalValueException`, and only the scalar fields fail with
   * the declared exception.
   */
  function LoadAsWritten(env: Env, a: JsonAdaptedPerson): (r: Result<Persons.Person, StorageError>)
    ensures LoadTags(env.isValidTag, a.tags).Err? ==> r == Err(Wrapped(ConstraintViolated(TagField)))
    ensures LoadTags(env.isValidTag, a.tags).Ok? && LoadNotes(a.notes).Err? ==> r == Err(Wrapped(LoadNotes(a.notes).error))
  {
    var tags :- WrapFailure(LoadTags(env.isValidTag, a.tags));
    var notes :- WrapFailure(LoadNotes(a.notes));
    LoadScalars(env, a, tags, notes)
  }

  /**
   * `toModelType` as intended: every failure is the declared `IllegalValueException`, in the
   * order tags, notes, name, phone, e-mail, address, income, medical information.
   */
  function Load(env: Env, a: JsonAdaptedPerson): (r: Result<Persons.Person, StorageError>)
    ensures r.Err? ==> !r.error.Wrapped?
    ensures LoadTags(env.isValidTag, a.tags).Err? ==> r == Err(ConstraintViolated(TagField))
    ensures LoadTags(env.isValidTag, a.tags).Ok? && LoadNotes(a.notes).Err? ==> r == LoadNotes(a.notes).PropagateFailure()
    ensures LoadTags(env.isValidTag, a.tags).Ok? && LoadNotes(a.notes).Ok? ==>
      r == LoadScalars(env, a, TagNames(a.tags), LoadNotes(a.notes).value)
  {
    var tags :- LoadTags(env.isValidTag, a.tags);
    var notes :- LoadNotes(a.notes);
    LoadScalars(env, a, tags, notes)
  }

  /**
   * The two conversions agree except on the kind of exception: a failing tag or note escapes
   * wrapped as written and plain as intended, and everything else is the same.
   */
  lemma AsWrittenWrapsListFailures(env: Env, a: JsonAdaptedPerson)
    ensures LoadTags(env.isValidTag, a.tags).Ok? && LoadNotes(a.notes).Ok? ==> LoadAsWritten(env, a) == Load(env, a)
    ensures LoadTags(env.isValidTag, a.tags).Err? || LoadNotes(a.notes).Err? ==>
      Load(env, a).Err? && LoadAsWritten(env, a) == Err(Wrapped(Load(env, a).error))
  {
  }

  /**
   * The discrepancy on one input: a stored person whose only tag is invalid fails as written with
   * a wrapped exception, not with the `IllegalValueException` the method declares.
   */
  lemma InvalidTagEscapesWrapped(env: Env, a: JsonAdaptedPerson, bad: string)
    requires !env.isValidTag(bad) && a.tags == [JsonTag(bad)]
    ensures LoadAsWritten(env, a) == Err(Wrapped(ConstraintViolated(TagField)))
    ensures Load(env, a) == Err(ConstraintViolated(TagField))
  {
  }

  /** The same for a blank note and for a null note entry. */
  lemma BadNoteEscapesWrapped(env: Env, a: JsonAdaptedPerson, bad: Option<string>)
    requires LoadTags(env.isValidTag, a.tags).Ok? && a.notes == [bad] && !IsLoadableNote(bad)
    ensures LoadAsWritten(env, a) == Err(Wrapped(NoteError(bad)))
    ensures Load(env, a) == Err(NoteError(bad))
  {
    FirstBadNoteReported(a.notes, 0);
  }

  /** An absent medical information is never a missing field: the placeholder is used instead. */
  lemma AbsentMedicalInfoIsPlaceholder(env: Env, a: JsonAdaptedPerson)
    requires a.medicalInfo.None?
    ensures Load(env, a) != Err(MissingField(MedicalInfoField))
    ensures Load(env, a).Ok? ==> Load(env, a).value.medicalInfo == MedicalInfo.MedicalInfo(MedicalInfo.Placeholder)
  {
    assert CheckField(Some(MedicalInfoText(a)), MedicalInfo.IsValidMedicalInfo, MedicalInfoField) != Err(MissingField(MedicalInfoField));
  }

  /** The values a person holds when it was built by its constructors. */
  predicate IsStorable(env: Env, p: Persons.Person) {
    Name.IsValidName(p.name.fullName) && Phone.IsValidPhone(p.phone.value)
    && env.isValidEmail(p.email) && env.isValidAddress(p.address)
    && PersonIncome.IsValidIncome(p.income.value) && MedicalInfo.IsValidMedicalInfo(p.medicalInfo.medicalInfo)
    && (forall t :: t in p.tags ==> env.isValidTag(t))
    && (forall i :: 0 <= i < |p.notes| ==> IsStoredNote(p.notes[i]))
  }

  /** Storing a person and loading it back gives the same person, with either conversion. */
  lemma RoundTrip(env: Env, p: Persons.Person, tagOrder: seq<string>)
    requires forall t :: t in tagOrder <==> t in p.tags
    requires IsStorable(env, p)
    ensures Load(env, FromPerson(p, tagOrder)) == Ok(p)
    ensures LoadAsWritten(env, FromPerson(p, tagOrder)) == Ok(p)
  {
    var a := FromPerson(p, tagOrder);
    TagsRoundTrip(env.isValidTag, p.tags, tagOrder, a.tags);
    NotesRoundTrip(p.notes, a.notes);
    assert LoadScalars(env, a, p.tags, p.notes) == Ok(p);
  }

  /** A stored person without tag and note lists loads with no tags and no notes. */
  lemma AbsentListsLoadEmpty(env: Env, a: JsonAdaptedPerson)
    requires a == FromJson(a.name, a.phone, a.email, a.address, a.income, a.medicalInfo, None, None)
    ensures Load(env, a).Ok? ==> Load(env, a).value.tags == {} && Load(env, a).value.notes == []
  {
  }
}
