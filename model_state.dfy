/**
 * The model the commands run against: the stored patients, in order, and the filter that decides
 * which of them the displayed list shows. Commands resolve every index through the displayed
 * list, never through the store, and change the store only by replacing or removing the record
 * they resolved to.
 */
module ModelState {
  import opened Wrappers
  import opened Indices
  import Name
  import Phone
  import opened Notes
  import Patients
  import opened Keywords
  import opened Commands
  import opened CommandResults

  /** The filter of the displayed list: everything, or the patients a search predicate admits. */
  datatype Filter = ShowAll | Matching(pred: KeywordPredicate)

  predicate Admits(f: Filter, nameTest: (seq<string>, Patients.Patient) -> bool, p: Patients.Patient) {
    f.ShowAll? || Test(f.pred, nameTest, p)
  }

  /** The displayed list: the stored patients the filter admits, in store order. */
  function FilterBy(s: seq<Patients.Patient>, f: Filter, nameTest: (seq<string>, Patients.Patient) -> bool)
    : (r: seq<Patients.Patient>)
    ensures |r| <= |s|
    ensures forall p :: p in r <==> p in s && Admits(f, nameTest, p)
  {
    if s == [] then []
    else (if Admits(f, nameTest, s[0]) then [s[0]] else []) + FilterBy(s[1..], f, nameTest)
  }

  /** One record is displayed exactly when the filter admits it. */
  lemma FilterBySingle(p: Patients.Patient, f: Filter, nameTest: (seq<string>, Patients.Patient) -> bool)
    ensures FilterBy([p], f, nameTest) == if Admits(f, nameTest, p) then [p] else []
  {
    assert [p][1..] == [];
  }

  /**
   * Filtering follows store order: the display of two stores one after the other is the display
   * of the first followed by the display of the second.
   */
  lemma {:induction false} FilterByAppend(s: seq<Patients.Patient>, t: seq<Patients.Patient>, f: Filter,
                                          nameTest: (seq<string>, Patients.Patient) -> bool)
    ensures FilterBy(s + t, f, nameTest) == FilterBy(s, f, nameTest) + FilterBy(t, f, nameTest)
    decreases |s|
  {
    if s == [] {
      assert s + t == t;
    } else {
      assert s + t == [s[0]] + (s[1..] + t);
      assert s == [s[0]] + s[1..];
      FilterByCons(s[0], s[1..] + t, f, nameTest);
      FilterByCons(s[0], s[1..], f, nameTest);
      FilterByAppend(s[1..], t, f, nameTest);
      ConcatAssociative(FilterBy([s[0]], f, nameTest), FilterBy(s[1..], f, nameTest), FilterBy(t, f, nameTest));
    }
  }

  /** A record in front of a store is displayed in front of the store's display, when at all. */
  lemma FilterByCons(x: Patients.Patient, s: seq<Patients.Patient>, f: Filter,
                     nameTest: (seq<string>, Patients.Patient) -> bool)
    ensures FilterBy([x] + s, f, nameTest) == FilterBy([x], f, nameTest) + FilterBy(s, f, nameTest)
  {
    assert ([x] + s)[0] == x && ([x] + s)[1..] == s;
    FilterBySingle(x, f, nameTest);
  }

  lemma ConcatAssociative(a: seq<Patients.Patient>, b: seq<Patients.Patient>, c: seq<Patients.Patient>)
    ensures a + (b + c) == (a + b) + c
  {
  }

  /** Every admitted record is displayed as many times as it is stored, and no other is displayed. */
  lemma {:induction false} FilterByMultiplicity(s: seq<Patients.Patient>, f: Filter,
                                                nameTest: (seq<string>, Patients.Patient) -> bool)
    ensures forall p :: multiset(FilterBy(s, f, nameTest))[p] == if Admits(f, nameTest, p) then multiset(s)[p] else 0
    decreases |s|
  {
    if s != [] {
      FilterByMultiplicity(s[1..], f, nameTest);
      assert s == [s[0]] + s[1..];
      assert multiset(s) == multiset{s[0]} + multiset(s[1..]);
    }
  }

  /** The messages a command fails with. */
  datatype CommandError =
    | InvalidPersonDisplayedIndex   // MESSAGE_INVALID_PERSON_DISPLAYED_INDEX
    | InvalidPatientDisplayedIndex  // MESSAGE_INVALID_PATIENT_DISPLAYED_INDEX
    | PatientNotFound               // NoteCommand.MESSAGE_PATIENT_NOT_FOUND
    | MissingPatientReference       // NoteCommand.MESSAGE_MISSING_PATIENT_REFERENCE
    | NoNotesToEdit                 // EditNoteCommand.MESSAGE_NO_NOTES
    | NoNotesToDelete               // DeleteNoteCommand.MESSAGE_NO_NOTES
    | InvalidNoteIndex              // MESSAGE_INVALID_NOTE_INDEX, the same text in both note commands

  /** The position of the first occurrence of `x`. */
  function FirstIndex(s: seq<Patients.Patient>, x: Patients.Patient): (k: nat)
    requires x in s
    ensures k < |s| && s[k] == x
    ensures forall j :: 0 <= j < k ==> s[j] != x
  {
    if s[0] == x then 0 else 1 + FirstIndex(s[1..], x)
  }

  /**
   * `deletePerson`: the store without the first occurrence of `x`. The store itself is not part of
   * this model's sources; this is the list removal it is built on.
   */
  function RemoveFirst(s: seq<Patients.Patient>, x: Patients.Patient): (r: seq<Patients.Patient>)
    ensures x !in s ==> r == s
    ensures x in s ==> |r| == |s| - 1 && multiset(r) + multiset{x} == multiset(s)
    ensures forall y :: y in s && y != x ==> y in r
  {
    if x !in s then s
    else
      var k := FirstIndex(s, x);
      assert s == s[..k] + [x] + s[k + 1..];
      s[..k] + s[k + 1..]
  }

  /** Removal keeps the order of the records that remain. */
  lemma RemoveFirstKeepsOrder(s: seq<Patients.Patient>, x: Patients.Patient)
    requires x in s
    ensures forall j :: 0 <= j < FirstIndex(s, x) ==> RemoveFirst(s, x)[j] == s[j]
    ensures forall j :: FirstIndex(s, x) <= j < |s| - 1 ==> RemoveFirst(s, x)[j] == s[j + 1]
  {
    var k := FirstIndex(s, x);
    var r := RemoveFirst(s, x);
    assert r == s[..k] + s[k + 1..];
    forall j | 0 <= j < |s| - 1
      ensures r[j] == if j < k then s[j] else s[j + 1]
    {
    }
  }

  /**
   * `setPatient`/`setPerson`: the store with the first occurrence of `target` replaced by
   * `edited`; every other position keeps its record.
   */
  function ReplaceFirst(s: seq<Patients.Patient>, target: Patients.Patient, edited: Patients.Patient)
    : (r: seq<Patients.Patient>)
    requires target in s
    ensures |r| == |s| && r[FirstIndex(s, target)] == edited
    ensures forall j :: 0 <= j < |s| && j != FirstIndex(s, target) ==> r[j] == s[j]
  {
    s[FirstIndex(s, target) := edited]
  }

  /**
   * `getPersonByIndex`: the displayed record at the index, or the invalid-index error when the
   * index is past the end of the displayed list, however long the store is.
   */
  function PersonAt(shown: seq<Patients.Patient>, i: Index): (r: Result<Patients.Patient, CommandError>)
    ensures r.Ok? <==> i.zeroBased < |shown|
    ensures r.Ok? ==> r.value == shown[i.zeroBased]
    ensures r.Err? ==> r.error == InvalidPersonDisplayedIndex
  {
    if i.zeroBased >= |shown| then Err(InvalidPersonDisplayedIndex) else Ok(shown[i.zeroBased])
  }

  /** A record reached through the displayed list is stored and admitted by the filter. */
  lemma ResolvedIsStored(s: seq<Patients.Patient>, f: Filter, nameTest: (seq<string>, Patients.Patient) -> bool, i: Index)
    requires PersonAt(FilterBy(s, f, nameTest), i).Ok?
    ensures PersonAt(FilterBy(s, f, nameTest), i).value in s
    ensures Admits(f, nameTest, PersonAt(FilterBy(s, f, nameTest), i).value)
  {
    var r := FilterBy(s, f, nameTest);
    assert r[i.zeroBased] in r;
  }

  /** Without a filter the displayed list is the store, so positions in both agree. */
  lemma {:induction false} ShowAllIsStore(s: seq<Patients.Patient>, nameTest: (seq<string>, Patients.Patient) -> bool)
    ensures FilterBy(s, ShowAll, nameTest) == s
  {
    if s != [] {
      ShowAllIsStore(s[1..], nameTest);
      assert [s[0]] + s[1..] == s;
    }
  }

  /** A stored record the filter hides is never reached, whatever the index. */
  lemma HiddenIsUnreachable(s: seq<Patients.Patient>, f: Filter, nameTest: (seq<string>, Patients.Patient) -> bool,
                            p: Patients.Patient, i: Index)
    requires p in s && !Admits(f, nameTest, p)
    ensures PersonAt(FilterBy(s, f, nameTest), i) != Ok(p)
  {
    if PersonAt(FilterBy(s, f, nameTest), i) == Ok(p) {
      ResolvedIsStored(s, f, nameTest, i);
    }
  }

  /**
   * The name-and-phone form's test: the patient's name equals the given one exactly (a patient
   * name is compared as written) and so does its phone.
   */
  predicate SameNameAndPhone(p: Patients.Patient, name: Name.Name, phone: Phone.Phone) {
    p.name == name && p.phone == phone
  }

  /** The position of the first displayed record that passes `test`, if any. */
  function FirstWhere(shown: seq<Patients.Patient>, test: Patients.Patient -> bool): (r: Option<nat>)
    ensures r.Some? ==> r.value < |shown| && test(shown[r.value])
    ensures r.Some? ==> forall j :: 0 <= j < r.value ==> !test(shown[j])
    ensures r.None? ==> forall j :: 0 <= j < |shown| ==> !test(shown[j])
  {
    if shown == [] then None
    else if test(shown[0]) then Some(0)
    else
      match FirstWhere(shown[1..], test)
      case None => None
      case Some(k) => Some(k + 1)
  }

  /**
   * `findPatient`: by index when the command holds one, else by name and phone when it holds
   * both, taking the first displayed match; a hidden record is never found.
   */
  function FindPatient(shown: seq<Patients.Patient>, target: Option<Index>, name: Option<Name.Name>,
                       phone: Option<Phone.Phone>): (r: Result<Patients.Patient, CommandError>)
    ensures target.Some? ==>
      (r.Ok? <==> target.value.zeroBased < |shown|)
      && (r.Ok? ==> r.value == shown[target.value.zeroBased])
      && (r.Err? ==> r.error == InvalidPatientDisplayedIndex)
    ensures target.None? && name.Some? && phone.Some? ==>
      (r.Ok? <==> exists j :: 0 <= j < |shown| && SameNameAndPhone(shown[j], name.value, phone.value))
      && (r.Ok? ==> exists k :: 0 <= k < |shown| && shown[k] == r.value && SameNameAndPhone(r.value, name.value, phone.value)
                     && forall j :: 0 <= j < k ==> !SameNameAndPhone(shown[j], name.value, phone.value))
      && (r.Err? ==> r.error == PatientNotFound)
    ensures target.None? && (name.None? || phone.None?) ==> r == Err(MissingPatientReference)
  {
    if target.Some? then
      if target.value.zeroBased >= |shown| then Err(InvalidPatientDisplayedIndex) else Ok(shown[target.value.zeroBased])
    else if name.Some? && phone.Some? then
      match FirstWhere(shown, p => SameNameAndPhone(p, name.value, phone.value))
      case None => Err(PatientNotFound)
      case Some(k) => Ok(shown[k])
    else
      Err(MissingPatientReference)
  }

  /**
   * Naming a displayed record by its own name and phone finds the same record as its index, as
   * long as no earlier displayed record has that name and phone.
   */
  lemma NameAndPhoneAgreesWithIndex(shown: seq<Patients.Patient>, k: nat)
    requires k < |shown|
    requires forall j :: 0 <= j < k ==> !SameNameAndPhone(shown[j], shown[k].name, shown[k].phone)
    ensures FindPatient(shown, None, Some(shown[k].name), Some(shown[k].phone))
         == FindPatient(shown, Some(Index(k)), None, None)
  {
    var test := (p: Patients.Patient) => SameNameAndPhone(p, shown[k].name, shown[k].phone);
    assert test(shown[k]);
    var m := FirstWhere(shown, test);
    assert m == Some(k);
  }

  /**
   * The checks of the note-editing and note-deleting commands, in their order: the displayed
   * index, then "no notes", then the note index. The first two messages differ per command.
   */
  function NoteTarget(shown: seq<Patients.Patient>, patientIndex: Index, noteIndex: Index,
                      indexError: CommandError, noNotesError: CommandError): (r: Result<Patients.Patient, CommandError>)
    ensures patientIndex.zeroBased >= |shown| ==> r == Err(indexError)
    ensures patientIndex.zeroBased < |shown| && shown[patientIndex.zeroBased].notes == [] ==> r == Err(noNotesError)
    ensures (patientIndex.zeroBased < |shown| && shown[patientIndex.zeroBased].notes != []
             && noteIndex.zeroBased >= |shown[patientIndex.zeroBased].notes|) ==> r == Err(InvalidNoteIndex)
    ensures r.Ok? <==> patientIndex.zeroBased < |shown| && noteIndex.zeroBased < |shown[patientIndex.zeroBased].notes|
    ensures r.Ok? ==> r.value == shown[patientIndex.zeroBased]
  {
    if patientIndex.zeroBased >= |shown| then Err(indexError)
    else
      var p := shown[patientIndex.zeroBased];
      if p.notes == [] then Err(noNotesError)
      else if noteIndex.zeroBased >= |p.notes| then Err(InvalidNoteIndex)
      else Ok(p)
  }

  class Model {
    /** The stored patients, in order. */
    var store: seq<Patients.Patient>
    /** The predicate of the displayed list. */
    var filter: Filter
    /** The name test of the name search predicate, which is not part of this model's sources. */
    const nameTest: (seq<string>, Patients.Patient) -> bool

    /** A model with nothing stored and everything shown. */
    constructor (nameTest: (seq<string>, Patients.Patient) -> bool)
      ensures store == [] && filter == ShowAll && this.nameTest == nameTest
    {
      store := [];
      filter := ShowAll;
      this.nameTest := nameTest;
    }

    /** `getFilteredPersonList` / `getFilteredPatientList`. */
    function Shown(): seq<Patients.Patient>
      reads this
    {
      FilterBy(store, filter, nameTest)
    }

    /**
     * `DeletePatientCommand.execute`: removes the displayed record at the index and clears the
     * detail panel; an index past the displayed list fails and changes nothing.
     */
    method DeletePatient(target: Index) returns (r: Result<CommandResult, CommandError>)
      modifies this
      ensures filter == old(filter)
      ensures target.zeroBased >= |old(Shown())| ==> r == Err(InvalidPersonDisplayedIndex) && store == old(store)
      ensures target.zeroBased < |old(Shown())| ==>
        var p := old(Shown())[target.zeroBased];
        p in old(store) && store == RemoveFirst(old(store), p)
        && r == Ok(WithInstruction(DeletedPatient(p), ClearInstruction))
    {
      ghost var shown := Shown();
      var found := PersonAt(FilterBy(store, filter, nameTest), target);
      if found.Err? {
        return Err(found.error);
      }
      var p := found.value;
      assert shown[target.zeroBased] in shown;
      store := RemoveFirst(store, p);
      r := Ok(WithInstruction(DeletedPatient(p), ClearInstruction));
    }

    /**
     * `ViewDetailsCommand.execute`: the displayed record at the index becomes the detail target;
     * nothing changes.
     */
    function ViewDetails(target: Index): (r: Result<CommandResult, CommandError>)
      reads this
      ensures r.Ok? <==> target.zeroBased < |Shown()|
      ensures r.Ok? ==>
        r.value == WithDetail(ViewingDetails(Shown()[target.zeroBased]), Some(Shown()[target.zeroBased]), false, false)
      ensures r.Err? ==> r.error == InvalidPersonDisplayedIndex
    {
      match PersonAt(Shown(), target)
      case Err(e) => Err(e)
      case Ok(p) => Ok(WithDetail(ViewingDetails(p), Some(p), false, false))
    }

    /**
     * `NoteCommand.execute`: the found record is replaced by the record with the note added, which
     * becomes the detail target; when no record is found nothing changes.
     */
    method AddNote(c: Command) returns (r: Result<CommandResult, CommandError>)
      requires c.AddNote?
      modifies this
      ensures filter == old(filter)
      ensures FindPatient(old(Shown()), c.noteTarget, c.name, c.phone).Err? ==>
        r == Err(FindPatient(old(Shown()), c.noteTarget, c.name, c.phone).error) && store == old(store)
      ensures FindPatient(old(Shown()), c.noteTarget, c.name, c.phone).Ok? ==>
        var p := FindPatient(old(Shown()), c.noteTarget, c.name, c.phone).value;
        var q := Patients.AddNote(p, c.note);
        p in old(store) && store == ReplaceFirst(old(store), p, q)
        && r == Ok(WithDetail(NoteAdded(q.name.fullName, q.phone.value, c.note.value), Some(q), false, false))
    {
      ghost var shown := Shown();
      var found := FindPatient(FilterBy(store, filter, nameTest), c.noteTarget, c.name, c.phone);
      if found.Err? {
        return Err(found.error);
      }
      var p := found.value;
      InShown(shown, p);
      var q := Patients.AddNote(p, c.note);
      store := ReplaceFirst(store, p, q);
      r := Ok(WithDetail(NoteAdded(q.name.fullName, q.phone.value, c.note.value), Some(q), false, false));
    }

    /**
     * `EditNoteCommand.execute`: the displayed record at the person index is replaced by the
     * record with the note at the note index replaced; a failed check changes nothing.
     */
    method EditNote(c: Command) returns (r: Result<CommandResult, CommandError>)
      requires c.EditNote?
      modifies this
      ensures filter == old(filter)
      ensures NoteTarget(old(Shown()), c.personIndex, c.noteIndex, InvalidPersonDisplayedIndex, NoNotesToEdit).Err? ==>
        r == Err(NoteTarget(old(Shown()), c.personIndex, c.noteIndex, InvalidPersonDisplayedIndex, NoNotesToEdit).error)
        && store == old(store)
      ensures NoteTarget(old(Shown()), c.personIndex, c.noteIndex, InvalidPersonDisplayedIndex, NoNotesToEdit).Ok? ==>
        var p := old(Shown())[c.personIndex.zeroBased];
        var q := Patients.EditNote(p, c.noteIndex.zeroBased, c.newNote);
        p in old(store) && store == ReplaceFirst(old(store), p, q)
        && r == Ok(WithDetail(NoteEdited(p.name.fullName, c.newNote.value), Some(q), false, false))
    {
      ghost var shown := Shown();
      var found := NoteTarget(FilterBy(store, filter, nameTest), c.personIndex, c.noteIndex,
                              InvalidPersonDisplayedIndex, NoNotesToEdit);
      if found.Err? {
        return Err(found.error);
      }
      var p := found.value;
      InShown(shown, p);
      var q := Patients.EditNote(p, c.noteIndex.zeroBased, c.newNote);
      store := ReplaceFirst(store, p, q);
      r := Ok(WithDetail(NoteEdited(p.name.fullName, c.newNote.value), Some(q), false, false));
    }

    /**
     * `DeleteNoteCommand.execute`: the displayed record at the patient index is replaced by the
     * record without the note at the note index; the message names the removed note's text.
     */
    method DeleteNote(c: Command) returns (r: Result<CommandResult, CommandError>)
      requires c.DeleteNote?
      modifies this
      ensures filter == old(filter)
      ensures NoteTarget(old(Shown()), c.patientIndex, c.noteIndex, InvalidPatientDisplayedIndex, NoNotesToDelete).Err? ==>
        r == Err(NoteTarget(old(Shown()), c.patientIndex, c.noteIndex, InvalidPatientDisplayedIndex, NoNotesToDelete).error)
        && store == old(store)
      ensures NoteTarget(old(Shown()), c.patientIndex, c.noteIndex, InvalidPatientDisplayedIndex, NoNotesToDelete).Ok? ==>
        var p := old(Shown())[c.patientIndex.zeroBased];
        var q := Patients.RemoveNote(p, c.noteIndex.zeroBased);
        p in old(store) && store == ReplaceFirst(old(store), p, q)
        && r == Ok(WithDetail(NoteDeleted(p.name.fullName, p.notes[c.noteIndex.zeroBased].value), Some(q), false, false))
    {
      ghost var shown := Shown();
      var found := NoteTarget(FilterBy(store, filter, nameTest), c.patientIndex, c.noteIndex,
                              InvalidPatientDisplayedIndex, NoNotesToDelete);
      if found.Err? {
        return Err(found.error);
      }
      var p := found.value;
      InShown(shown, p);
      var noteToDelete := p.notes[c.noteIndex.zeroBased];
      var q := Patients.RemoveNote(p, c.noteIndex.zeroBased);
      store := ReplaceFirst(store, p, q);
      r := Ok(WithDetail(NoteDeleted(p.name.fullName, noteToDelete.value), Some(q), false, false));
    }

    /**
     * `FindCommand.execute`: installs the predicate as the filter and reports how many records the
     * displayed list then holds; it never fails and leaves the store as it was.
     */
    method Find(pred: KeywordPredicate) returns (r: CommandResult)
      modifies this
      ensures store == old(store) && filter == Matching(pred)
      ensures r == FromFeedback(PatientsListed(|FilterBy(old(store), Matching(pred), nameTest)|))
    {
      filter := Matching(pred);
      r := FromFeedback(PatientsListed(|FilterBy(store, filter, nameTest)|));
    }

    /**
     * `ClearCommand.execute`: empties the store, whatever it held, and clears the detail panel.
     * The filter stays, so clearing again gives the same state and the same result.
     */
    method Clear() returns (r: CommandResult)
      modifies this
      ensures store == [] && filter == old(filter)
      ensures r == WithInstruction(Cleared, ClearInstruction)
    {
      store := [];
      r := WithInstruction(Cleared, ClearInstruction);
    }

    /** Every displayed record is stored. */
    lemma InShown(shown: seq<Patients.Patient>, p: Patients.Patient)
      requires shown == FilterBy(store, filter, nameTest) && p in shown
      ensures p in store
    {
    }
  }

  /** A store changed by a note command keeps its length and every record but the target. */
  lemma ReplaceKeepsOthers(s: seq<Patients.Patient>, p: Patients.Patient, q: Patients.Patient, y: Patients.Patient)
    requires p in s && y in s && y != p
    ensures |ReplaceFirst(s, p, q)| == |s| && y in ReplaceFirst(s, p, q)
  {
    var k := FirstIndex(s, y);
    assert k != FirstIndex(s, p);
    assert ReplaceFirst(s, p, q)[k] == y;
  }

  /** Clearing twice gives the state of clearing once: the cleared store shows nothing. */
  lemma ClearedShowsNothing(f: Filter, nameTest: (seq<string>, Patients.Patient) -> bool)
    ensures FilterBy([], f, nameTest) == []
  {
  }
}
