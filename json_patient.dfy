/**
 * `JsonAdaptedPatient`: the stored form of a patient, with every field as text that may be
 * absent, and its conversion back into a patient, which checks the fields in a fixed order.
 */
module JsonPatient {
  import opened Wrappers
  import opened Notes
  import opened ParserUtil
  import opened Arguments
  import opened JsonStorage
  import Name
  import Phone
  import Decimal
  import PatientIncome
  import Patients

  /** The record name in `MISSING_FIELD_MESSAGE_FORMAT`. */
  const Owner: string := "Patient"

  /** The stored patient. An absent list is held as an empty one. */
  datatype JsonAdaptedPatient = JsonAdaptedPatient(
    name: Option<string>,
    phone: Option<string>,
    email: Option<string>,
    address: Option<string>,
    income: Option<string>,
    tags: seq<JsonTag>,
    notes: seq<Option<string>>)

  /** The Jackson constructor: scalar fields are kept as given; a null list becomes an empty one. */
  function FromJson(name: Option<string>, phone: Option<string>, email: Option<string>, address: Option<string>,
                    income: Option<string>, tags: Option<seq<JsonTag>>, notes: Option<seq<Option<string>>>)
    : (a: JsonAdaptedPatient)
    ensures a.name == name && a.phone == phone && a.email == email && a.address == address && a.income == income
    ensures tags.None? ==> a.tags == []
    ensures notes.None? ==> a.notes == []
  {
    JsonAdaptedPatient(name, phone, email, address, income,
                       if tags.Some? then tags.value else [], if notes.Some? then notes.value else [])
  }

  /**
   * The constructor from a patient: the texts of the fields, the printed income, one stored tag
   * per tag and one stored text per note. The order in which the tag set is walked is not
   * specified, so it is a parameter.
   */
  function FromPatient(p: Patients.Patient, tagOrder: seq<string>): JsonAdaptedPatient
    requires forall t :: t in tagOrder <==> t in p.tags
  {
    JsonAdaptedPatient(Some(p.name.fullName), Some(p.phone.value), Some(p.email), Some(p.address),
                       Some(PatientIncome.ToString(p.income)),
                       seq(|tagOrder|, i requires 0 <= i < |tagOrder| => JsonTag(tagOrder[i])),
                       seq(|p.notes|, i requires 0 <= i < |p.notes| => Some(p.notes[i].value)))
  }

  /**
   * `toModelType` as a function: tags, then each note in order, then name, phone, e-mail,
   * address and income; the first failing check is the error.
   */
  function Load(env: Env, a: JsonAdaptedPatient): (r: Result<Patients.Patient, StorageError>)
    ensures r.Ok? <==>
      LoadTags(env.isValidTag, a.tags).Ok? && LoadNotes(a.notes).Ok?
      && CheckField(a.name, Name.IsValidName, NameField).Ok? && CheckField(a.phone, Phone.IsValidPhone, PhoneField).Ok?
      && CheckField(a.email, env.isValidEmail, EmailField).Ok? && CheckField(a.address, env.isValidAddress, AddressField).Ok?
      && CheckField(a.income, PatientIncome.IsValidIncome, IncomeField).Ok?
    ensures r.Ok? ==>
      r.value.tags == TagNames(a.tags) && r.value.notes == LoadNotes(a.notes).value
      && r.value.name.fullName == a.name.value && r.value.phone.value == a.phone.value
      && r.value.email == a.email.value && r.value.address == a.address.value
      && r.value.income == PatientIncome.MakeIncome(a.income.value)
  {
    var tags :- LoadTags(env.isValidTag, a.tags);
    var notes :- LoadNotes(a.notes);
    var name :- CheckField(a.name, Name.IsValidName, NameField);
    var phone :- CheckField(a.phone, Phone.IsValidPhone, PhoneField);
    var email :- CheckField(a.email, env.isValidEmail, EmailField);
    var address :- CheckField(a.address, env.isValidAddress, AddressField);
    var income :- CheckField(a.income, PatientIncome.IsValidIncome, IncomeField);
    Ok(Patients.Patient(Name.MakeName(name), Phone.MakePhone(phone), email, address,
                        PatientIncome.MakeIncome(income), tags, notes))
  }

  /** The loop over the stored tags: each is converted in turn, and the first invalid one stops it. */
  method ConvertTags(isValidTag: string -> bool, ts: seq<JsonTag>) returns (r: Result<set<string>, StorageError>)
    ensures r == LoadTags(isValidTag, ts)
  {
    var patientTags: seq<string> := [];
    var i := 0;
    while i < |ts|
      invariant 0 <= i <= |ts| && |patientTags| == i
      invariant forall k :: 0 <= k < i ==> isValidTag(ts[k].tagName) && patientTags[k] == ts[k].tagName
    {
      var tag := TagToModel(isValidTag, ts[i]);
      if tag.Err? {
        return Err(tag.error);
      }
      patientTags := patientTags + [tag.value];
      i := i + 1;
    }
    var modelTags := set t | t in patientTags;
    assert modelTags == TagNames(ts) by {
      forall t | t in TagNames(ts) ensures t in modelTags {
        var jt :| jt in ts && jt.tagName == t;
        var k :| 0 <= k < |ts| && ts[k] == jt;
        assert patientTags[k] in patientTags;
      }
    }
    r := Ok(modelTags);
  }

  /**
   * The loop over the stored notes: a null entry is a missing note, a blank one breaks the note
   * constraint, and the first such entry stops it.
   */
  method ConvertNotes(ns: seq<Option<string>>) returns (r: Result<seq<Note>, StorageError>)
    ensures r == LoadNotes(ns)
  {
    var patientNotes: seq<Note> := [];
    var j := 0;
    while j < |ns|
      invariant 0 <= j <= |ns| && |patientNotes| == j
      invariant forall k :: 0 <= k < j ==> IsLoadableNote(ns[k]) && patientNotes[k] == MakeNote(ns[k].value)
    {
      var noteValue := ns[j];
      if noteValue.None? {
        FirstBadNoteReported(ns, j);
        return Err(MissingField(NoteField));
      }
      if !IsValidNote(noteValue.value) {
        FirstBadNoteReported(ns, j);
        return Err(ConstraintViolated(NoteField));
      }
      patientNotes := patientNotes + [MakeNote(noteValue.value)];
      j := j + 1;
    }
    assert patientNotes == LoadNotes(ns).value;
    r := Ok(patientNotes);
  }

  /**
   * `toModelType`: the two loops over the stored tags and notes stop at the first entry that
   * cannot be loaded; then the scalar fields are checked one after the other.
   */
  method ToModelType(env: Env, a: JsonAdaptedPatient) returns (r: Result<Patients.Patient, StorageError>)
    ensures r == Load(env, a)
  {
    var tags := ConvertTags(env.isValidTag, a.tags);
    if tags.Err? {
      return Err(tags.error);
    }
    var notes := ConvertNotes(a.notes);
    if notes.Err? {
      return Err(notes.error);
    }
    var name := CheckField(a.name, Name.IsValidName, NameField);
    if name.Err? {
      return Err(name.error);
    }
    var phone := CheckField(a.phone, Phone.IsValidPhone, PhoneField);
    if phone.Err? {
      return Err(phone.error);
    }
    var email := CheckField(a.email, env.isValidEmail, EmailField);
    if email.Err? {
      return Err(email.error);
    }
    var address := CheckField(a.address, env.isValidAddress, AddressField);
    if address.Err? {
      return Err(address.error);
    }
    var income := CheckField(a.income, PatientIncome.IsValidIncome, IncomeField);
    if income.Err? {
      return Err(income.error);
    }
    r := Ok(Patients.Patient(Name.MakeName(name.value), Phone.MakePhone(phone.value), email.value, address.value,
                             PatientIncome.MakeIncome(income.value), tags.value, notes.value));
  }

  /**
   * The order of the checks: a bad tag comes before everything, a bad note before every scalar
   * field, and a scalar field's error names the first field, in the order name, phone, e-mail,
   * address, income, that is absent (missing-field message) or refused (constraint message).
   */
  lemma ErrorOrder(env: Env, a: JsonAdaptedPatient)
    ensures LoadTags(env.isValidTag, a.tags).Err? ==> Load(env, a) == Err(ConstraintViolated(TagField))
    ensures LoadTags(env.isValidTag, a.tags).Ok? && LoadNotes(a.notes).Err? ==> Load(env, a) == LoadNotes(a.notes).PropagateFailure()
    ensures LoadTags(env.isValidTag, a.tags).Ok? && LoadNotes(a.notes).Ok? ==>
      var name, phone := CheckField(a.name, Name.IsValidName, NameField), CheckField(a.phone, Phone.IsValidPhone, PhoneField);
      var email, address := CheckField(a.email, env.isValidEmail, EmailField), CheckField(a.address, env.isValidAddress, AddressField);
      var income := CheckField(a.income, PatientIncome.IsValidIncome, IncomeField);
      (name.Err? ==> Load(env, a) == name.PropagateFailure())
      && (name.Ok? && phone.Err? ==> Load(env, a) == phone.PropagateFailure())
      && (name.Ok? && phone.Ok? && email.Err? ==> Load(env, a) == email.PropagateFailure())
      && (name.Ok? && phone.Ok? && email.Ok? && address.Err? ==> Load(env, a) == address.PropagateFailure())
      && (name.Ok? && phone.Ok? && email.Ok? && address.Ok? && income.Err? ==> Load(env, a) == income.PropagateFailure())
  {
  }

  /** The values a patient holds when the patient was built by its constructors. */
  predicate IsStorable(env: Env, p: Patients.Patient) {
    Name.IsValidName(p.name.fullName) && Phone.IsValidPhone(p.phone.value)
    && env.isValidEmail(p.email) && env.isValidAddress(p.address)
    && Decimal.Canonical(p.income.value) && p.income.value.unscaled >= 0
    && (forall t :: t in p.tags ==> env.isValidTag(t))
    && (forall i :: 0 <= i < |p.notes| ==> IsStoredNote(p.notes[i]))
  }

  /** A stored patient whose lists load to a patient's lists and whose texts are that patient's loads as it. */
  lemma LoadOfParts(env: Env, a: JsonAdaptedPatient, p: Patients.Patient)
    requires IsStorable(env, p)
    requires LoadTags(env.isValidTag, a.tags) == Ok(p.tags) && LoadNotes(a.notes) == Ok(p.notes)
    requires a.name == Some(p.name.fullName) && a.phone == Some(p.phone.value)
    requires a.email == Some(p.email) && a.address == Some(p.address)
    requires a.income.Some? && PatientIncome.IsValidIncome(a.income.value) && PatientIncome.MakeIncome(a.income.value) == p.income
    ensures Load(env, a) == Ok(p)
  {
    assert Name.MakeName(p.name.fullName) == p.name && Phone.MakePhone(p.phone.value) == p.phone;
  }

  /** Storing a patient and loading it back gives the same patient. */
  lemma RoundTrip(env: Env, p: Patients.Patient, tagOrder: seq<string>)
    requires forall t :: t in tagOrder <==> t in p.tags
    requires IsStorable(env, p)
    ensures Load(env, FromPatient(p, tagOrder)) == Ok(p)
  {
    var a := FromPatient(p, tagOrder);
    TagsRoundTrip(env.isValidTag, p.tags, tagOrder, a.tags);
    NotesRoundTrip(p.notes, a.notes);
    PatientIncome.CanonicalRoundTrip(p.income);
    LoadOfParts(env, a, p);
  }

  /** A stored patient without tag and note lists loads with no tags and no notes. */
  lemma AbsentListsLoadEmpty(env: Env, name: Option<string>, phone: Option<string>, email: Option<string>,
                             address: Option<string>, income: Option<string>)
    ensures Load(env, FromJson(name, phone, email, address, income, None, None)).Ok? ==>
      Load(env, FromJson(name, phone, email, address, income, None, None)).value.tags == {}
      && Load(env, FromJson(name, phone, email, address, income, None, None)).value.notes == []
  {
  }
}
