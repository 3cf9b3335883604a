/** The note resource: the JSON rendering of one note and the note delete
    handler. */
module NoteResource {
  import opened Schema

  /** The JSON object for a note: its name, id and text. */
  datatype NoteView = NoteView(name: Field, id: Id, text: Field)

  function NoteJson(id: Id, note: Note): NoteView
  {
    NoteView(note.name, id, note.text)
  }

  /** The rendering keeps everything about a note except the column it sits in:
      two notes render alike exactly when id, name and text agree. */
  lemma NoteJsonForgetsOnlyColumn(i: Id, n: Note, j: Id, m: Note)
    ensures NoteJson(i, n) == NoteJson(j, m) <==> i == j && n.name == m.name && n.text == m.text
  {
  }

  /** Delete one note by id. Nothing refers to a note, so nothing else goes. */
  function DeleteNote(s: Store, n: Id): (r: Result<Store>)
    ensures r.Err? <==> n !in s.notes
    ensures r.Err? ==> r.error == NotFound(Notes, n)
    ensures r.Ok? ==> r.value.notes.Keys == s.notes.Keys - {n}
    ensures r.Ok? ==> forall k :: k in r.value.notes ==> r.value.notes[k] == s.notes[k]
    ensures r.Ok? ==> r.value.boards == s.boards && r.value.columns == s.columns
  {
    if n !in s.notes then Err(NotFound(Notes, n))
    else Ok(s.(notes := s.notes - {n}))
  }

  /** Deleting a note keeps every constraint a valid store satisfies, and keeps
      every remaining note attached if they all were. */
  lemma DeleteNoteKeepsValid(s: Store, n: Id)
    requires Valid(s)
    requires DeleteNote(s, n).Ok?
    ensures Valid(DeleteNote(s, n).value)
    ensures NotesAttached(s) ==> NotesAttached(DeleteNote(s, n).value)
  {
    var s' := DeleteNote(s, n).value;
    assert NoteNames(s') == NoteNames(s) - {n};
    UniqueAfterRemove(NoteNames(s), {n});
    assert BoardNames(s') == BoardNames(s);
    assert ColumnNames(s') == ColumnNames(s);
  }
}
