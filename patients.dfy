/**
 * The immutable patient record. Every "change" builds a fresh record: the list of notes is
 * copied, edited and handed to a new patient, and the receiver stays as it was.
 */
module Patients {
  import Name
  import Phone
  import PatientIncome
  import Decimal
  import opened Notes

  /** `Patient`: seven fields; tags are a set of tag names, notes an ordered list. */
  datatype Patient = Patient(
    name: Name.Name,
    phone: Phone.Phone,
    email: string,
    address: string,
    income: PatientIncome.Income,
    tags: set<string>,
    notes: seq<Note>)

  /** Every field but the notes agrees. */
  predicate SameDetails(p: Patient, q: Patient) {
    p.name == q.name && p.phone == q.phone && p.email == q.email && p.address == q.address
    && p.income == q.income && p.tags == q.tags
  }

  /** The six-argument constructor: the patient starts with no notes. */
  function NewPatient(name: Name.Name, phone: Phone.Phone, email: string, address: string,
                      income: PatientIncome.Income, tags: set<string>): (p: Patient)
    ensures p.notes == []
    ensures p.name == name && p.phone == phone && p.email == email && p.address == address
    ensures p.income == income && p.tags == tags
  {
    Patient(name, phone, email, address, income, tags, [])
  }

  /** `addNote`: the new record has the old notes followed by `n`; nothing else differs. */
  function AddNote(p: Patient, n: Note): (r: Patient)
    ensures SameDetails(p, r)
    ensures |r.notes| == |p.notes| + 1 && r.notes[..|p.notes|] == p.notes && r.notes[|p.notes|] == n
  {
    p.(notes := p.notes + [n])
  }

  /**
   * `removeNote`: the new record lacks exactly the note at position `i`; the others keep their
   * order. `List.remove` throws for a position outside the list, so callers check it first.
   */
  function RemoveNote(p: Patient, i: nat): (r: Patient)
    requires i < |p.notes|
    ensures SameDetails(p, r)
    ensures |r.notes| == |p.notes| - 1
    ensures forall k :: 0 <= k < i ==> r.notes[k] == p.notes[k]
    ensures forall k :: i <= k < |r.notes| ==> r.notes[k] == p.notes[k + 1]
  {
    p.(notes := p.notes[..i] + p.notes[i + 1..])
  }

  /**
   * `editNote`: the new record has `n` at position `i` and every other note where it was.
   * `editNote` is not part of this model's sources; this is the behaviour its command relies on.
   */
  function EditNote(p: Patient, i: nat, n: Note): (r: Patient)
    requires i < |p.notes|
    ensures SameDetails(p, r)
    ensures |r.notes| == |p.notes| && r.notes[i] == n
    ensures forall k :: 0 <= k < |p.notes| && k != i ==> r.notes[k] == p.notes[k]
  {
    p.(notes := p.notes[i := n])
  }

  /** Removing a note takes exactly that note out of the multiset of notes. */
  lemma RemoveNoteMultiset(p: Patient, i: nat)
    requires i < |p.notes|
    ensures multiset(RemoveNote(p, i).notes) + multiset{p.notes[i]} == multiset(p.notes)
  {
    assert p.notes == p.notes[..i] + [p.notes[i]] + p.notes[i + 1..];
  }

  /** `isSamePatient`: the weak identity, equality of names. */
  predicate IsSamePatient(p: Patient, q: Patient) {
    p.name == q.name
  }

  /**
   * `equals`: the strong identity, all seven fields. Income compares numerically; the note list
   * compares element by element, in order.
   */
  predicate Equals(p: Patient, q: Patient) {
    p.name == q.name && p.phone == q.phone && p.email == q.email && p.address == q.address
    && p.tags == q.tags && PatientIncome.Equal(p.income, q.income) && p.notes == q.notes
  }

  /** Removing the note just added gives back a record equal to the original. */
  lemma RemoveAfterAdd(p: Patient, n: Note)
    ensures |p.notes| < |AddNote(p, n).notes|
    ensures RemoveNote(AddNote(p, n), |p.notes|) == p
    ensures Equals(RemoveNote(AddNote(p, n), |p.notes|), p)
  {
    var q := AddNote(p, n);
    assert q.notes[..|p.notes|] + q.notes[|p.notes| + 1..] == p.notes;
    EqualsReflexive(p);
  }

  lemma EqualsReflexive(p: Patient)
    ensures Equals(p, p)
  {
    Decimal.NumEqIsEquivalence(p.income.value, p.income.value, p.income.value);
  }

  /** Strong equality is an equivalence relation and implies the weak identity. */
  lemma EqualsIsEquivalence(p: Patient, q: Patient, r: Patient)
    ensures Equals(p, p)
    ensures Equals(p, q) ==> Equals(q, p) && IsSamePatient(p, q)
    ensures Equals(p, q) && Equals(q, r) ==> Equals(p, r)
  {
    EqualsReflexive(p);
    Decimal.NumEqIsEquivalence(p.income.value, q.income.value, r.income.value);
    Decimal.NumEqIsEquivalence(q.income.value, p.income.value, r.income.value);
  }

  /**
   * On records whose incomes were built by the income constructor, strong equality is plain
   * equality of the records.
   */
  lemma EqualsOnCanonicalIncome(p: Patient, q: Patient)
    requires Decimal.Canonical(p.income.value) && Decimal.Canonical(q.income.value)
    ensures Equals(p, q) <==> p == q
  {
    PatientIncome.EqualIffSameValue(p.income, q.income);
    EqualsReflexive(p);
  }

  /** Adding a note always gives a record unequal to the receiver: notes take part in equality. */
  lemma AddNoteChangesRecord(p: Patient, n: Note)
    ensures !Equals(p, AddNote(p, n)) && IsSamePatient(p, AddNote(p, n))
  {
  }

  /** Two records that differ only in their notes are not equal. */
  lemma NotesDistinguish(p: Patient, ns: seq<Note>)
    requires ns != p.notes
    ensures !Equals(p, p.(notes := ns)) && IsSamePatient(p, p.(notes := ns))
  {
  }
}
