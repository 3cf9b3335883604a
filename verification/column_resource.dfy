/** The column resource: the JSON rendering of a column with its notes, the
    handler that creates a note inside a column, and the column delete handler,
    both as it stands and as its comments describe it. */
module ColumnResource {
  import opened Schema
  import Ids
  import opened NoteResource

  /** The JSON object for a column: its name, id and the notes filed under it. */
  datatype ColumnView = ColumnView(name: Field, id: Id, notes: seq<NoteView>)

  /** Render column `c` with exactly the notes whose `column_id` is `c`, by
      ascending id. */
  function ColumnJson(s: Store, c: Id): (r: ColumnView)
    requires c in s.columns
    ensures r.name == s.columns[c].name && r.id == c
    ensures |r.notes| == |NotesOf(s, c)|
    ensures forall k :: 0 <= k < |r.notes| ==>
              r.notes[k].id in NotesOf(s, c) && r.notes[k] == NoteJson(r.notes[k].id, s.notes[r.notes[k].id])
    ensures forall n :: n in NotesOf(s, c) ==> exists k :: 0 <= k < |r.notes| && r.notes[k].id == n
    ensures forall j, k :: 0 <= j < k < |r.notes| ==> r.notes[j].id < r.notes[k].id
  {
    var ids := Ids.Ascending(NotesOf(s, c));
    assert forall k :: 0 <= k < |ids| ==> ids[k] in NotesOf(s, c);
    var notes := NoteJsons(s, ids);
    Ids.ListedInOrder(NotesOf(s, c), notes, (v: NoteView) => v.id);
    ColumnView(s.columns[c].name, c, notes)
  }

  /** The JSON of the notes with the given ids, in the order given. */
  function NoteJsons(s: Store, ids: seq<Id>): (r: seq<NoteView>)
    requires forall k :: 0 <= k < |ids| ==> ids[k] in s.notes
    ensures |r| == |ids|
    ensures forall k :: 0 <= k < |r| ==> r[k].id == ids[k]
    ensures forall k :: 0 <= k < |r| ==> r[k].id in s.notes && r[k] == NoteJson(r[k].id, s.notes[r[k].id])
  {
    seq(|ids|, k requires 0 <= k < |ids| => NoteJson(ids[k], s.notes[ids[k]]))
  }

  /** Create a note under board `b` and column `c`. Both must exist, the board
      first; the column need not belong to that board. The name must not
      already be taken by another note. */
  function CreateNote(s: Store, b: Id, c: Id, name: Field, text: Field): (r: Result<Posted<NoteView>>)
    ensures r.Err? <==> b !in s.boards || c !in s.columns || Collides(name, NoteNames(s))
    ensures b !in s.boards ==> r == Err(NotFound(Boards, b))
    ensures b in s.boards && c !in s.columns ==> r == Err(NotFound(Columns, c))
    ensures b in s.boards && c in s.columns && Collides(name, NoteNames(s)) ==> r == Err(Conflict(Notes, name.chars))
    ensures r.Ok? ==> r.value.view.id !in s.notes
    ensures r.Ok? ==> r.value.store == s.(notes := s.notes[r.value.view.id := Note(name, c, text)])
    ensures r.Ok? ==> r.value.view == NoteView(name, r.value.view.id, text)
  {
    if b !in s.boards then Err(NotFound(Boards, b))
    else if c !in s.columns then Err(NotFound(Columns, c))
    else if Collides(name, NoteNames(s)) then Err(Conflict(Notes, name.chars))
    else
      var id := Ids.NextId(s.notes.Keys);
      var note := Note(name, c, text);
      Ok(Posted(s.(notes := s.notes[id := note]), NoteJson(id, note)))
  }

  /** The column delete handler as it stands. Its first line looks the column
      up through a name that nothing binds (the parameter is `col_id`), so it
      raises a NameError before any query, whatever the id and whatever the
      store holds. */
  function DeleteColumn(s: Store, c: Id): (r: Result<Store>)
    ensures r.Err? && r.error.Fault?
  {
    Err(Fault("column"))
  }

  /** The column delete handler as its comments describe it: look the column up,
      delete the notes filed under it, then the column. */
  function DeleteColumnIntended(s: Store, c: Id): (r: Result<Store>)
    ensures r.Err? <==> c !in s.columns
    ensures r.Err? ==> r.error == NotFound(Columns, c)
    ensures r.Ok? ==> r.value.boards == s.boards
    ensures r.Ok? ==> r.value.columns.Keys == s.columns.Keys - {c}
    ensures r.Ok? ==> forall k :: k in r.value.columns ==> r.value.columns[k] == s.columns[k]
    ensures r.Ok? ==> forall n :: n in r.value.notes <==> n in s.notes && s.notes[n].columnId != c
    ensures r.Ok? ==> forall n :: n in r.value.notes ==> r.value.notes[n] == s.notes[n]
  {
    if c !in s.columns then Err(NotFound(Columns, c))
    else Ok(s.(columns := s.columns - {c}, notes := s.notes - NotesOf(s, c)))
  }

  /** A created note keeps the store valid and lands in an existing column. */
  lemma CreateNoteKeepsValid(s: Store, b: Id, c: Id, name: Field, text: Field)
    requires Valid(s)
    requires CreateNote(s, b, c, name, text).Ok?
    ensures Valid(CreateNote(s, b, c, name, text).value.store)
    ensures NotesAttached(s) ==> NotesAttached(CreateNote(s, b, c, name, text).value.store)
  {
    var p := CreateNote(s, b, c, name, text).value;
    var id := p.view.id;
    assert NoteNames(p.store) == NoteNames(s)[id := name];
    UniqueAfterInsert(NoteNames(s), id, name);
    assert BoardNames(p.store) == BoardNames(s);
    assert ColumnNames(p.store) == ColumnNames(s);
  }

  /** The board in the request only has to exist: a note can be filed, through
      board 1, under a column that sits on board 2. */
  lemma NoteUnderAnotherBoardsColumn()
    ensures var s := Store(map[1 := Board(Value("a")), 2 := Board(Value("b"))], map[7 := Column(Value("c"), 2)], map[]);
            && s.columns[7].boardId != 1
            && CreateNote(s, 1, 7, Value("n"), Null).Ok?
            && CreateNote(s, 1, 7, Value("n"), Null).value.store.notes[CreateNote(s, 1, 7, Value("n"), Null).value.view.id].columnId == 7
  {
    var s := Store(map[1 := Board(Value("a")), 2 := Board(Value("b"))], map[7 := Column(Value("c"), 2)], map[]);
    assert !Collides(Value("n"), NoteNames(s));
  }

  /** The intended column delete keeps the store valid, and leaves no note
      pointing at the removed column. */
  lemma DeleteColumnIntendedKeepsValid(s: Store, c: Id)
    requires Valid(s)
    requires DeleteColumnIntended(s, c).Ok?
    ensures Valid(DeleteColumnIntended(s, c).value)
    ensures NotesAttached(s) ==> NotesAttached(DeleteColumnIntended(s, c).value)
  {
    var s' := DeleteColumnIntended(s, c).value;
    assert ColumnNames(s') == ColumnNames(s) - {c};
    UniqueAfterRemove(ColumnNames(s), {c});
    assert NoteNames(s') == NoteNames(s) - NotesOf(s, c);
    UniqueAfterRemove(NoteNames(s), NotesOf(s, c));
    assert BoardNames(s') == BoardNames(s);
  }
}
