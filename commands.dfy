/**
 * The commands the parsers build. Each command is a value holding exactly what its parser
 * parsed; `equals` on every command compares those held values, so it is datatype equality.
 */
module Commands {
  import opened Wrappers
  import opened Indices
  import Name
  import Phone
  import PersonIncome
  import MedicalInfo
  import Persons
  import opened Notes
  import opened Keywords

  /**
   * `EditPersonDescriptor`: one optional value per editable field. The descriptor is not part of
   * this model's sources; a setter fills one field, and an unset field stays `None`.
   */
  datatype EditDescriptor = EditDescriptor(
    name: Option<Name.Name>,
    phone: Option<Phone.Phone>,
    email: Option<string>,
    address: Option<string>,
    income: Option<PersonIncome.Income>,
    medicalInfo: Option<MedicalInfo.MedicalInfo>,
    tags: Option<set<string>>)

  /** The descriptor of `new EditPersonDescriptor()`: nothing set. */
  const EmptyDescriptor: EditDescriptor := EditDescriptor(None, None, None, None, None, None, None)

  /** `isAnyFieldEdited`: some field has been set. */
  predicate IsAnyFieldEdited(d: EditDescriptor) {
    d.name.Some? || d.phone.Some? || d.email.Some? || d.address.Some?
    || d.income.Some? || d.medicalInfo.Some? || d.tags.Some?
  }

  datatype Command =
    | Add(person: Persons.Person)
    | Edit(index: Index, descriptor: EditDescriptor)
    | EditNote(personIndex: Index, noteIndex: Index, newNote: Note)
      // `NoteCommand`: either the index is present, or both name and phone are.
    | AddNote(noteTarget: Option<Index>, name: Option<Name.Name>, phone: Option<Phone.Phone>, note: Note)
    | DeleteNote(patientIndex: Index, noteIndex: Index)
    | DeletePatient(targetIndex: Index)
    | ViewDetails(targetIndex: Index)
    | Find(pred: KeywordPredicate)
    | Clear
    | List
    | Exit
    | Help

  /** `new NoteCommand(index, note)`: identifies the patient by index alone. */
  function NoteByIndex(i: Index, n: Note): (c: Command)
    ensures c.AddNote? && c.noteTarget == Some(i) && c.name.None? && c.phone.None? && c.note == n
  {
    AddNote(Some(i), None, None, n)
  }

  /** `new NoteCommand(name, phone, note)`: identifies the patient by name and phone alone. */
  function NoteByNameAndPhone(name: Name.Name, phone: Phone.Phone, n: Note): (c: Command)
    ensures c.AddNote? && c.noteTarget.None? && c.name == Some(name) && c.phone == Some(phone) && c.note == n
  {
    AddNote(None, Some(name), Some(phone), n)
  }

  /**
   * The two forms of the note command are never equal, whatever they hold, and each form is
   * equal to another of its form exactly when every held value agrees.
   */
  lemma NoteFormsDistinct(i: Index, j: Index, name: Name.Name, phone: Phone.Phone, n: Note, m: Note)
    ensures NoteByIndex(i, n) != NoteByNameAndPhone(name, phone, m)
    ensures NoteByIndex(i, n) == NoteByIndex(j, m) <==> i == j && n == m
  {
  }
}
