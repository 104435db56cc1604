/**
 * What a command hands back to the user interface: the feedback text, an optional patient to
 * show in the detail panel, an optional instruction for that panel, and the help and exit flags.
 * Feedback texts are kept as the message they were formatted from, with its arguments.
 */
module CommandResults {
  import opened Wrappers
  import Patients

  /**
   * `DetailPanelInstruction`: the patient the detail panel should display, or `None` when the
   * panel should be cleared.
   */
  datatype DetailPanelInstruction = DetailPanelInstruction(displayPerson: Option<Patients.Patient>)

  /** `new DetailPanelInstruction(null)`: the instruction to clear the panel. */
  const ClearInstruction: DetailPanelInstruction := DetailPanelInstruction(None)

  /** `shouldClearDisplay`. */
  predicate ShouldClearDisplay(d: DetailPanelInstruction) {
    d.displayPerson.None?
  }

  /**
   * `equals`: both hold no patient, or the first holds one that equals the other's. A held
   * patient never equals an absent one.
   */
  predicate InstructionEquals(a: DetailPanelInstruction, b: DetailPanelInstruction) {
    (a.displayPerson.None? && b.displayPerson.None?)
    || (a.displayPerson.Some? && b.displayPerson.Some?
        && Patients.Equals(a.displayPerson.value, b.displayPerson.value))
  }

  /**
   * `hashCode`: 0 for the clear instruction, otherwise the held patient's hash. The record's own
   * hash is not part of this model's sources, so it is a parameter.
   */
  function InstructionHash(d: DetailPanelInstruction, hash: Patients.Patient -> int): (h: int)
    ensures d.displayPerson.None? ==> h == 0
    ensures d.displayPerson.Some? ==> h == hash(d.displayPerson.value)
  {
    match d.displayPerson
    case None => 0
    case Some(p) => hash(p)
  }

  /** Only the clear instruction clears, and it equals exactly the instructions that clear. */
  lemma ClearInstructionClears(d: DetailPanelInstruction)
    ensures ShouldClearDisplay(ClearInstruction)
    ensures InstructionEquals(d, ClearInstruction) <==> ShouldClearDisplay(d)
    ensures InstructionHash(ClearInstruction, (p: Patients.Patient) => 1) == 0
  {
  }

  /** Instruction equality is an equivalence relation. */
  lemma InstructionEqualsIsEquivalence(a: DetailPanelInstruction, b: DetailPanelInstruction, c: DetailPanelInstruction)
    ensures InstructionEquals(a, a)
    ensures InstructionEquals(a, b) ==> InstructionEquals(b, a)
    ensures InstructionEquals(a, b) && InstructionEquals(b, c) ==> InstructionEquals(a, c)
  {
    if a.displayPerson.Some? {
      if b.displayPerson.Some? {
        if c.displayPerson.Some? {
          Patients.EqualsIsEquivalence(a.displayPerson.value, b.displayPerson.value, c.displayPerson.value);
        } else {
          Patients.EqualsReflexive(a.displayPerson.value);
          Patients.EqualsIsEquivalence(a.displayPerson.value, b.displayPerson.value, a.displayPerson.value);
        }
      } else {
        Patients.EqualsReflexive(a.displayPerson.value);
      }
    }
  }

  /** Equal instructions hash alike whenever the record hash agrees with record equality. */
  lemma InstructionHashConsistent(a: DetailPanelInstruction, b: DetailPanelInstruction, hash: Patients.Patient -> int)
    requires forall p, q :: Patients.Equals(p, q) ==> hash(p) == hash(q)
    ensures InstructionEquals(a, b) ==> InstructionHash(a, hash) == InstructionHash(b, hash)
  {
  }

  /** The feedback messages, each naming the message constant it is formatted from. */
  datatype Feedback =
    | DeletedPatient(patient: Patients.Patient)                 // MESSAGE_DELETE_PERSON_SUCCESS
    | ViewingDetails(patient: Patients.Patient)                 // MESSAGE_VIEW_DETAILS_SUCCESS
    | NoteAdded(name: string, phone: string, noteText: string)  // NoteCommand.MESSAGE_SUCCESS
    | NoteEdited(name: string, noteText: string)                // MESSAGE_EDIT_NOTE_SUCCESS
    | NoteDeleted(name: string, noteText: string)               // MESSAGE_DELETE_NOTE_SUCCESS
    | PatientsListed(count: nat)                                // MESSAGE_PATIENTS_LISTED_OVERVIEW
    | Cleared                                                   // ClearCommand.MESSAGE_SUCCESS

  /** `CommandResult`: its getters are the field selectors. */
  datatype CommandResult = CommandResult(
    feedback: Feedback,
    detailTarget: Option<Patients.Patient>,
    instruction: Option<DetailPanelInstruction>,
    showHelp: bool,
    exit: bool)

  /** The four-argument constructor: no detail-panel instruction. */
  function WithDetail(feedback: Feedback, detailTarget: Option<Patients.Patient>, showHelp: bool, exit: bool): (r: CommandResult)
    ensures r.feedback == feedback && r.detailTarget == detailTarget
    ensures r.showHelp == showHelp && r.exit == exit && r.instruction.None?
  {
    CommandResult(feedback, detailTarget, None, showHelp, exit)
  }

  /** The one-argument constructor: no detail target, no instruction, and both flags false. */
  function FromFeedback(feedback: Feedback): (r: CommandResult)
    ensures r.feedback == feedback && r.detailTarget.None? && r.instruction.None?
    ensures !r.showHelp && !r.exit
  {
    WithDetail(feedback, None, false, false)
  }

  /**
   * The feedback-and-instruction constructor that the delete and clear commands call. It is not
   * declared in `CommandResult`; this is the behaviour those commands rely on.
   */
  function WithInstruction(feedback: Feedback, instruction: DetailPanelInstruction): (r: CommandResult)
    ensures r.feedback == feedback && r.detailTarget.None? && r.instruction == Some(instruction)
    ensures !r.showHelp && !r.exit
  {
    CommandResult(feedback, None, Some(instruction), false, false)
  }

  /**
   * `equals`: feedback, detail target and both flags agree. The instruction is not a field of
   * `CommandResult` and takes no part.
   */
  predicate ResultEquals(a: CommandResult, b: CommandResult) {
    a.feedback == b.feedback && a.detailTarget == b.detailTarget && a.showHelp == b.showHelp && a.exit == b.exit
  }

  /**
   * Result equality is an equivalence relation; it ignores the instruction and nothing else, so
   * results with the same instruction are equal exactly when they are identical.
   */
  lemma ResultEqualsIsEquivalence(a: CommandResult, b: CommandResult, c: CommandResult)
    ensures ResultEquals(a, a)
    ensures ResultEquals(a, b) ==> ResultEquals(b, a)
    ensures ResultEquals(a, b) && ResultEquals(b, c) ==> ResultEquals(a, c)
    ensures ResultEquals(a, b) && a.instruction == b.instruction <==> a == b
  {
  }

  /** A result built from a feedback alone equals only another one built from the same feedback. */
  lemma FromFeedbackEquals(f: Feedback, g: Feedback, target: Patients.Patient)
    ensures ResultEquals(FromFeedback(f), FromFeedback(g)) <==> f == g
    ensures !ResultEquals(FromFeedback(f), WithDetail(f, Some(target), false, false))
    ensures ResultEquals(FromFeedback(f), WithInstruction(f, ClearInstruction))
  {
  }
}
