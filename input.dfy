/** The accessible ids of components/ui/Input.tsx. `Input` and `TextArea`
    compute them with the same code, so one model serves both; `TextArea`
    adds a row count that defaults to 4. */
module Input {
  import opened Common
  import ClassNames

  /** A JavaScript string prop is truthy when present and non-empty. */
  predicate Truthy(s: Option<string>) {
    s.Some? && s.value != ""
  }

  /** `id ?? name`: the id whenever one is passed, even "", otherwise the
      name. */
  function InputId(id: Option<string>, name: Option<string>): (r: Option<string>)
    ensures id.Some? ==> r == id
    ensures id.None? ==> r == name
  {
    if id.Some? then id else name
  }

  function HelpId(inputId: string): string { inputId + "-help" }
  function ErrorId(inputId: string): string { inputId + "-error" }

  /** The help and error ids of one field never coincide. */
  lemma HelpAndErrorDiffer(inputId: string)
    ensures HelpId(inputId) != ErrorId(inputId)
  {
    assert |HelpId(inputId)| != |ErrorId(inputId)|;
  }

  /** An entry for `text` when it is truthy. */
  function EntryFor(text: Option<string>, entry: string): seq<string> {
    if Truthy(text) then [entry] else []
  }

  /** `describedByIds`, built by the two conditional pushes: nothing without
      a usable id; otherwise the help id for a description, then the error
      id for an error. */
  method DescribedByIds(inputId: Option<string>, description: Option<string>, error: Option<string>)
    returns (ids: seq<string>)
    ensures !Truthy(inputId) ==> ids == []
    ensures Truthy(inputId) ==>
      ids == EntryFor(description, HelpId(inputId.value)) + EntryFor(error, ErrorId(inputId.value))
  {
    ids := [];
    if Truthy(description) && Truthy(inputId) {
      ids := ids + [HelpId(inputId.value)];
    }
    if Truthy(error) && Truthy(inputId) {
      ids := ids + [ErrorId(inputId.value)];
    }
  }

  /** `aria-describedby`: the ids joined by spaces, absent when there are
      none. */
  function AriaDescribedBy(ids: seq<string>): (attr: Option<string>)
    ensures attr.None? <==> ids == []
    ensures attr.Some? ==> attr.value == ClassNames.Join(ids)
  {
    if |ids| > 0 then Some(ClassNames.Join(ids)) else None
  }

  /** The attribute a field with a usable id ends up with: the help id, the
      error id, or both separated by one space. */
  lemma DescribedByValue(inputId: string, description: Option<string>, error: Option<string>)
    requires inputId != ""
    ensures var attr := AriaDescribedBy(EntryFor(description, HelpId(inputId)) + EntryFor(error, ErrorId(inputId)));
      && (Truthy(description) && Truthy(error) ==> attr == Some(HelpId(inputId) + " " + ErrorId(inputId)))
      && (Truthy(description) && !Truthy(error) ==> attr == Some(HelpId(inputId)))
      && (!Truthy(description) && Truthy(error) ==> attr == Some(ErrorId(inputId)))
      && (!Truthy(description) && !Truthy(error) ==> attr.None?)
  {
    var ids := EntryFor(description, HelpId(inputId)) + EntryFor(error, ErrorId(inputId));
    if Truthy(description) && Truthy(error) {
      assert ids == [HelpId(inputId), ErrorId(inputId)];
      assert ids[1..] == [ErrorId(inputId)];
      assert ClassNames.Join(ids[1..]) == ErrorId(inputId);
      assert ClassNames.Join(ids) == HelpId(inputId) + " " + ErrorId(inputId);
    } else if Truthy(description) {
      assert ids == [HelpId(inputId)];
    } else if Truthy(error) {
      assert ids == [ErrorId(inputId)];
    }
  }

  /** `Boolean(error) || undefined`: true exactly for a non-empty error,
      absent otherwise. */
  function AriaInvalid(error: Option<string>): (attr: Option<bool>)
    ensures attr.Some? <==> Truthy(error)
    ensures attr.Some? ==> attr.value
  {
    if Truthy(error) then Some(true) else None
  }

  datatype NoteKind = Help | ErrorNote

  /** A rendered `FormHelpText` or `FormErrorText`, with the id it carries. */
  datatype Note = Note(kind: NoteKind, text: string, id: Option<string>)

  /** The four conditional notes under the control, in order. */
  function Notes(inputId: Option<string>, description: Option<string>, error: Option<string>): seq<Note> {
    (if Truthy(description) && Truthy(inputId) then [Note(Help, description.value, Some(HelpId(inputId.value)))] else []) +
    (if Truthy(error) && Truthy(inputId) then [Note(ErrorNote, error.value, Some(ErrorId(inputId.value)))] else []) +
    (if Truthy(description) && !Truthy(inputId) then [Note(Help, description.value, None)] else []) +
    (if Truthy(error) && !Truthy(inputId) then [Note(ErrorNote, error.value, None)] else [])
  }

  /** How many notes of a kind there are. */
  function CountKind(notes: seq<Note>, kind: NoteKind): nat {
    if notes == [] then 0
    else (if notes[0].kind == kind then 1 else 0) + CountKind(notes[1..], kind)
  }

  lemma {:induction false} CountKindAppend(a: seq<Note>, b: seq<Note>, kind: NoteKind)
    ensures CountKind(a + b, kind) == CountKind(a, kind) + CountKind(b, kind)
    decreases |a|
  {
    if a == [] {
      assert a + b == b;
    } else {
      CountKindAppend(a[1..], b, kind);
      assert (a + b)[1..] == a[1..] + b;
    }
  }

  /** A description and an error are each rendered exactly once when
      given, and not at all otherwise. */
  lemma NotesOnce(inputId: Option<string>, description: Option<string>, error: Option<string>)
    ensures CountKind(Notes(inputId, description, error), Help) == if Truthy(description) then 1 else 0
    ensures CountKind(Notes(inputId, description, error), ErrorNote) == if Truthy(error) then 1 else 0
  {
    var h1: seq<Note> := if Truthy(description) && Truthy(inputId) then [Note(Help, description.value, Some(HelpId(inputId.value)))] else [];
    var e1: seq<Note> := if Truthy(error) && Truthy(inputId) then [Note(ErrorNote, error.value, Some(ErrorId(inputId.value)))] else [];
    var h2: seq<Note> := if Truthy(description) && !Truthy(inputId) then [Note(Help, description.value, None)] else [];
    var e2: seq<Note> := if Truthy(error) && !Truthy(inputId) then [Note(ErrorNote, error.value, None)] else [];
    assert Notes(inputId, description, error) == h1 + e1 + h2 + e2;
    forall kind: NoteKind
      ensures CountKind(h1 + e1 + h2 + e2, kind) ==
        CountKind(h1, kind) + CountKind(e1, kind) + CountKind(h2, kind) + CountKind(e2, kind)
    {
      CountKindAppend(h1 + e1 + h2, e2, kind);
      CountKindAppend(h1 + e1, h2, kind);
      CountKindAppend(h1, e1, kind);
    }
    forall kind: NoteKind, n: Note
      ensures CountKind([n], kind) == if n.kind == kind then 1 else 0
    {
      assert [n][1..] == [];
    }
  }

  /** The notes and `aria-describedby` agree: a note carries an id exactly
      when there is a usable input id, and then that id is the one listed,
      in the same order. */
  lemma NotesMatchDescribedBy(inputId: Option<string>, description: Option<string>, error: Option<string>)
    ensures var notes := Notes(inputId, description, error);
      forall k :: 0 <= k < |notes| ==> (notes[k].id.Some? <==> Truthy(inputId))
    ensures Truthy(inputId) ==>
      CarriedIds(Notes(inputId, description, error)) ==
        EntryFor(description, HelpId(inputId.value)) + EntryFor(error, ErrorId(inputId.value))
  {
    var notes := Notes(inputId, description, error);
    if Truthy(inputId) {
      assert notes == EntryNote(description, Help, HelpId(inputId.value)) + EntryNote(error, ErrorNote, ErrorId(inputId.value));
      CarriedAppend(EntryNote(description, Help, HelpId(inputId.value)), EntryNote(error, ErrorNote, ErrorId(inputId.value)));
    }
  }

  function EntryNote(text: Option<string>, kind: NoteKind, id: string): seq<Note> {
    if Truthy(text) then [Note(kind, text.value, Some(id))] else []
  }

  /** The ids the notes carry, in order. */
  function CarriedIds(notes: seq<Note>): seq<string> {
    if notes == [] then []
    else (if notes[0].id.Some? then [notes[0].id.value] else []) + CarriedIds(notes[1..])
  }

  lemma {:induction false} CarriedAppend(a: seq<Note>, b: seq<Note>)
    ensures CarriedIds(a + b) == CarriedIds(a) + CarriedIds(b)
    decreases |a|
  {
    if a == [] {
      assert a + b == b;
    } else {
      var head: seq<string> := if a[0].id.Some? then [a[0].id.value] else [];
      assert (a + b)[0] == a[0];
      assert (a + b)[1..] == a[1..] + b;
      CarriedAppend(a[1..], b);
      calc {
        CarriedIds(a + b);
        head + CarriedIds(a[1..] + b);
        head + (CarriedIds(a[1..]) + CarriedIds(b));
        (head + CarriedIds(a[1..])) + CarriedIds(b);
      }
    }
  }

  /** `rows = 4`. */
  function TextAreaRows(rows: Option<int>): (r: int)
    ensures rows.None? ==> r == 4
    ensures rows.Some? ==> r == rows.value
  {
    rows.GetOr(4)
  }
}
