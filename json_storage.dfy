/**
 * The parts the two storage adapters share: the stored tag, the errors loading reports, and the
 * checks on a stored field, a stored tag list and a stored note list.
 */
module JsonStorage {
  import opened Wrappers
  import opened JavaString
  import opened Notes
  import opened ParserUtil

  /** `JsonAdaptedTag`: the tag name as stored. It is not part of this model's sources. */
  datatype JsonTag = JsonTag(tagName: string)

  /**
   * What loading fails with: an `IllegalValueException` carrying the missing-field message or a
   * field's constraint message, or a `RuntimeException` wrapping one of those.
   */
  datatype StorageError =
    | MissingField(field: Field)
    | ConstraintViolated(field: Field)
    | Wrapped(cause: StorageError)

  /** `MISSING_FIELD_MESSAGE_FORMAT` of an adapter whose record is called `owner`, filled in. */
  function MissingFieldMessage(owner: string, f: Field): string {
    owner + "'s " + ClassName(f) + " field is missing!"
  }

  /** The missing-field message tells which field is missing: different fields, different messages. */
  lemma MissingFieldMessageNamesField(owner: string, f: Field, g: Field)
    ensures MissingFieldMessage(owner, f) == MissingFieldMessage(owner, g) <==> f == g
  {
    if MissingFieldMessage(owner, f) == MissingFieldMessage(owner, g) {
      MiddleCancel(owner + "'s ", ClassName(f), ClassName(g), " field is missing!");
      ClassNameInjective(f, g);
    }
  }

  /**
   * The missing-field messages of an adapter whose record is called `owner` (both adapters fill
   * the same format, with "Patient" and "Person"): a missing note reads "<owner>'s Note field is
   * missing!", and two fields give the same message only when they are one.
   */
  lemma MissingFieldTexts(owner: string, f: Field, g: Field)
    ensures f == NoteField ==> MissingFieldMessage(owner, f) == owner + "'s Note field is missing!"
    ensures MissingFieldMessage(owner, g) == MissingFieldMessage(owner, f) <==> g == f
  {
    if f == NoteField {
      NoteMessageText(owner);
    }
    MissingFieldMessageNamesField(owner, g, f);
  }

  lemma NoteMessageText(owner: string)
    ensures MissingFieldMessage(owner, NoteField) == owner + "'s Note field is missing!"
  {
    var a, b, c := "'s ", ClassName(NoteField), " field is missing!";
    assert a + b + c == "'s Note field is missing!";
    assert owner + a + b + c == owner + (a + b + c);
  }

  /** Text framed by the same prefix and suffix is determined by the whole. */
  lemma MiddleCancel(a: string, x: string, y: string, b: string)
    requires a + x + b == a + y + b
    ensures x == y
  {
    assert |x| == |y|;
    assert x == (a + x + b)[|a|..|a| + |x|];
    assert y == (a + y + b)[|a|..|a| + |y|];
  }

  /**
   * A stored scalar field: absent is the missing-field error, present but refused by `valid` is
   * the field's constraint error, and otherwise the stored text is used as it is.
   */
  function CheckField(value: Option<string>, valid: string -> bool, f: Field): (r: Result<string, StorageError>)
    ensures value.None? ==> r == Err(MissingField(f))
    ensures value.Some? && !valid(value.value) ==> r == Err(ConstraintViolated(f))
    ensures r.Ok? <==> value.Some? && valid(value.value)
    ensures r.Ok? ==> r.value == value.value
  {
    match value
    case None => Err(MissingField(f))
    case Some(s) => if valid(s) then Ok(s) else Err(ConstraintViolated(f))
  }

  /** `JsonAdaptedTag.toModelType`: the name, if it is a valid tag name. */
  function TagToModel(isValidTag: string -> bool, t: JsonTag): (r: Result<string, StorageError>)
    ensures r.Ok? <==> isValidTag(t.tagName)
    ensures r.Ok? ==> r.value == t.tagName
    ensures r.Err? ==> r.error == ConstraintViolated(TagField)
  {
    if isValidTag(t.tagName) then Ok(t.tagName) else Err(ConstraintViolated(TagField))
  }

  /** The tag names of a stored tag list, as a set. */
  function TagNames(ts: seq<JsonTag>): set<string> {
    set t | t in ts :: t.tagName
  }

  /**
   * The stored tags converted one by one, in order; the first invalid one stops loading. The
   * result is the set of their names.
   */
  function LoadTags(isValidTag: string -> bool, ts: seq<JsonTag>): (r: Result<set<string>, StorageError>)
    ensures r.Ok? <==> forall i :: 0 <= i < |ts| ==> isValidTag(ts[i].tagName)
    ensures r.Ok? ==> r.value == TagNames(ts)
    ensures r.Err? ==> r.error == ConstraintViolated(TagField)
  {
    if ts == [] then Ok({})
    else
      var before :- LoadTags(isValidTag, ts[..|ts| - 1]);
      var last :- TagToModel(isValidTag, ts[|ts| - 1]);
      assert ts == ts[..|ts| - 1] + [ts[|ts| - 1]];
      Ok(before + {last})
  }

  /** A stored note is present and valid. */
  predicate IsLoadableNote(n: Option<string>) {
    n.Some? && IsValidNote(n.value)
  }

  /** The error a stored note that cannot be loaded gives: missing when null, else the constraint. */
  function NoteError(n: Option<string>): (e: StorageError)
    ensures n.None? ==> e == MissingField(NoteField)
    ensures n.Some? ==> e == ConstraintViolated(NoteField)
  {
    if n.None? then MissingField(NoteField) else ConstraintViolated(NoteField)
  }

  /**
   * The stored notes converted one by one, in order: a null entry is a missing note, a blank one
   * breaks the note constraint, and the first such entry stops loading. The notes keep their
   * number and their order.
   */
  function LoadNotes(ns: seq<Option<string>>): (r: Result<seq<Note>, StorageError>)
    ensures r.Ok? <==> forall i :: 0 <= i < |ns| ==> IsLoadableNote(ns[i])
    ensures r.Ok? ==> |r.value| == |ns| && forall i :: 0 <= i < |ns| ==> r.value[i] == MakeNote(ns[i].value)
    ensures r.Err? ==> exists k :: 0 <= k < |ns| && !IsLoadableNote(ns[k]) && r.error == NoteError(ns[k])
                         && forall j :: 0 <= j < k ==> IsLoadableNote(ns[j])
  {
    if ns == [] then Ok([])
    else
      var init := ns[..|ns| - 1];
      var last := ns[|ns| - 1];
      assert forall i :: 0 <= i < |init| ==> init[i] == ns[i];
      var before :- LoadNotes(init);
      if !IsLoadableNote(last) then Err(NoteError(last))
      else
        var notes := before + [MakeNote(last.value)];
        assert notes[|ns| - 1] == MakeNote(ns[|ns| - 1].value);
        Ok(notes)
  }

  /** A note the model holds: what the note constructor builds. */
  predicate IsStoredNote(n: Note) {
    n.value != [] && Trim(n.value) == n.value
  }

  /** Storing a record's notes as their texts and loading them back gives the same notes. */
  lemma NotesRoundTrip(notes: seq<Note>, stored: seq<Option<string>>)
    requires forall i :: 0 <= i < |notes| ==> IsStoredNote(notes[i])
    requires |stored| == |notes| && forall i :: 0 <= i < |notes| ==> stored[i] == Some(notes[i].value)
    ensures LoadNotes(stored) == Ok(notes)
  {
    forall i | 0 <= i < |notes|
      ensures IsLoadableNote(stored[i]) && MakeNote(stored[i].value) == notes[i]
    {
      assert stored[i] == Some(notes[i].value);
    }
    var r := LoadNotes(stored);
    assert r.Ok?;
    assert r.value == notes;
  }

  /** Storing a record's tags by name, in any order, and loading them back gives the same set. */
  lemma TagsRoundTrip(isValidTag: string -> bool, tags: set<string>, order: seq<string>, stored: seq<JsonTag>)
    requires forall t :: t in order <==> t in tags
    requires forall t :: t in tags ==> isValidTag(t)
    requires |stored| == |order| && forall i :: 0 <= i < |order| ==> stored[i] == JsonTag(order[i])
    ensures LoadTags(isValidTag, stored) == Ok(tags)
  {
    forall i | 0 <= i < |stored|
      ensures isValidTag(stored[i].tagName)
    {
      assert stored[i].tagName == order[i] && order[i] in order;
    }
    assert TagNames(stored) == tags by {
      forall t | t in tags ensures t in TagNames(stored) {
        var i :| 0 <= i < |order| && order[i] == t;
        assert stored[i] in stored;
      }
      forall t | t in TagNames(stored) ensures t in tags {
        var jt :| jt in stored && jt.tagName == t;
        var i :| 0 <= i < |stored| && stored[i] == jt;
        assert order[i] in order;
      }
    }
  }

  /** A blank note or a null entry stops loading, and the error says which of the two it was. */
  lemma FirstBadNoteReported(ns: seq<Option<string>>, k: nat)
    requires k < |ns| && !IsLoadableNote(ns[k])
    requires forall j :: 0 <= j < k ==> IsLoadableNote(ns[j])
    ensures LoadNotes(ns) == Err(NoteError(ns[k]))
  {
    var r := LoadNotes(ns);
    assert r.Err?;
    var m :| 0 <= m < |ns| && !IsLoadableNote(ns[m]) && r.error == NoteError(ns[m])
             && forall j :: 0 <= j < m ==> IsLoadableNote(ns[j]);
    assert m == k;
  }
}
