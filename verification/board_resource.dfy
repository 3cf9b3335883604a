/** The board resource: the JSON rendering of a board with its columns, the
    handler that creates a column on a board, and the board delete handler with
    its hand-written cascade over the board's columns. */
module BoardResource {
  import opened Schema
  import Ids
  import opened NoteResource
  import opened ColumnResource

  /** The JSON object for a board: its name, id and the columns on it. */
  datatype BoardView = BoardView(name: Field, id: Id, columns: seq<ColumnView>)

  /** Render board `b` with exactly the columns whose `board_id` is `b`, by
      ascending id, each with its own notes. */
  function BoardJson(s: Store, b: Id): (r: BoardView)
    requires b in s.boards
    ensures r.name == s.boards[b].name && r.id == b
    ensures |r.columns| == |ColumnsOf(s, b)|
    ensures forall k :: 0 <= k < |r.columns| ==>
              r.columns[k].id in ColumnsOf(s, b) && r.columns[k] == ColumnJson(s, r.columns[k].id)
    ensures forall c :: c in ColumnsOf(s, b) ==> exists k :: 0 <= k < |r.columns| && r.columns[k].id == c
    ensures forall j, k :: 0 <= j < k < |r.columns| ==> r.columns[j].id < r.columns[k].id
  {
    var ids := Ids.Ascending(ColumnsOf(s, b));
    assert forall k :: 0 <= k < |ids| ==> ids[k] in ColumnsOf(s, b);
    var columns := ColumnJsons(s, ids);
    Ids.ListedInOrder(ColumnsOf(s, b), columns, (v: ColumnView) => v.id);
    BoardView(s.boards[b].name, b, columns)
  }

  /** The JSON of the columns with the given ids, in the order given. */
  function ColumnJsons(s: Store, ids: seq<Id>): (r: seq<ColumnView>)
    requires forall k :: 0 <= k < |ids| ==> ids[k] in s.columns
    ensures |r| == |ids|
    ensures forall k :: 0 <= k < |r| ==> r[k].id == ids[k]
    ensures forall k :: 0 <= k < |r| ==> r[k].id in s.columns && r[k] == ColumnJson(s, r[k].id)
  {
    seq(|ids|, k requires 0 <= k < |ids| => ColumnJson(s, ids[k]))
  }

  /** Create a column on board `b`, which must exist. The name must not already
      be taken by another column, on any board. */
  function CreateColumn(s: Store, b: Id, name: Field): (r: Result<Posted<ColumnView>>)
    ensures r.Err? <==> b !in s.boards || Collides(name, ColumnNames(s))
    ensures b !in s.boards ==> r == Err(NotFound(Boards, b))
    ensures b in s.boards && Collides(name, ColumnNames(s)) ==> r == Err(Conflict(Columns, name.chars))
    ensures r.Ok? ==> r.value.view.id !in s.columns
    ensures r.Ok? ==> r.value.store == s.(columns := s.columns[r.value.view.id := Column(name, b)])
    ensures r.Ok? ==> r.value.view == ColumnJson(r.value.store, r.value.view.id)
  {
    if b !in s.boards then Err(NotFound(Boards, b))
    else if Collides(name, ColumnNames(s)) then Err(Conflict(Columns, name.chars))
    else
      var id := Ids.NextId(s.columns.Keys);
      var s' := s.(columns := s.columns[id := Column(name, b)]);
      Ok(Posted(s', ColumnJson(s', id)))
  }

  /** Delete board `b`: first every column on it, then the board. The notes of
      those columns are not touched and keep pointing at the removed columns. */
  function DeleteBoard(s: Store, b: Id): (r: Result<Store>)
    ensures r.Err? <==> b !in s.boards
    ensures r.Err? ==> r.error == NotFound(Boards, b)
    ensures r.Ok? ==> r.value.boards.Keys == s.boards.Keys - {b}
    ensures r.Ok? ==> forall k :: k in r.value.boards ==> r.value.boards[k] == s.boards[k]
    ensures r.Ok? ==> forall c :: c in r.value.columns <==> c in s.columns && s.columns[c].boardId != b
    ensures r.Ok? ==> forall c :: c in r.value.columns ==> r.value.columns[c] == s.columns[c]
    ensures r.Ok? ==> r.value.notes == s.notes
  {
    if b !in s.boards then Err(NotFound(Boards, b))
    else Ok(s.(boards := s.boards - {b}, columns := s.columns - ColumnsOf(s, b)))
  }

  /** The same handler written the way the source walks it: one column of the
      board at a time, in any order, then the board. */
  method DeleteBoardStepwise(s: Store, b: Id) returns (r: Result<Store>)
    ensures r == DeleteBoard(s, b)
  {
    if b !in s.boards {
      return Err(NotFound(Boards, b));
    }
    var pending := ColumnsOf(s, b);
    var columns := s.columns;
    while pending != {}
      invariant pending <= ColumnsOf(s, b)
      invariant columns == s.columns - (ColumnsOf(s, b) - pending)
      decreases pending
    {
      Ids.HasElement(pending);
      var c :| c in pending;
      columns := columns - {c};
      pending := pending - {c};
    }
    assert ColumnsOf(s, b) - pending == ColumnsOf(s, b);
    return Ok(s.(boards := s.boards - {b}, columns := columns));
  }

  /** A created column keeps the store valid: its board exists and its name is new. */
  lemma CreateColumnKeepsValid(s: Store, b: Id, name: Field)
    requires Valid(s)
    requires CreateColumn(s, b, name).Ok?
    ensures Valid(CreateColumn(s, b, name).value.store)
    ensures NotesAttached(s) ==> NotesAttached(CreateColumn(s, b, name).value.store)
  {
    var p := CreateColumn(s, b, name).value;
    var id := p.view.id;
    assert ColumnNames(p.store) == ColumnNames(s)[id := name];
    UniqueAfterInsert(ColumnNames(s), id, name);
    assert BoardNames(p.store) == BoardNames(s);
    assert NoteNames(p.store) == NoteNames(s);
  }

  /** After a column is created on board `b`, the JSON of `b` lists it. */
  lemma CreatedColumnIsListed(s: Store, b: Id, name: Field)
    requires CreateColumn(s, b, name).Ok?
    ensures var p := CreateColumn(s, b, name).value;
            && b in p.store.boards
            && exists k :: 0 <= k < |BoardJson(p.store, b).columns| && BoardJson(p.store, b).columns[k] == p.view
  {
    var p := CreateColumn(s, b, name).value;
    assert p.view.id in ColumnsOf(p.store, b);
    var v := BoardJson(p.store, b);
    var k :| 0 <= k < |v.columns| && v.columns[k].id == p.view.id;
    assert v.columns[k] == p.view;
  }

  /** Deleting a board keeps the store valid: the columns that remain sit on
      boards that remain. */
  lemma DeleteBoardKeepsValid(s: Store, b: Id)
    requires Valid(s)
    requires DeleteBoard(s, b).Ok?
    ensures Valid(DeleteBoard(s, b).value)
  {
    var s' := DeleteBoard(s, b).value;
    assert BoardNames(s') == BoardNames(s) - {b};
    UniqueAfterRemove(BoardNames(s), {b});
    assert ColumnNames(s') == ColumnNames(s) - ColumnsOf(s, b);
    UniqueAfterRemove(ColumnNames(s), ColumnsOf(s, b));
    assert NoteNames(s') == NoteNames(s);
  }

  /** Deleting a board leaves the notes of its columns behind, pointing at a
      column that is gone. */
  lemma DeleteBoardOrphansNotes()
    ensures var s := Store(map[1 := Board(Null)], map[4 := Column(Null, 1)], map[9 := Note(Null, 4, Null)]);
            && NotesAttached(s)
            && DeleteBoard(s, 1).Ok?
            && 9 in DeleteBoard(s, 1).value.notes
            && DeleteBoard(s, 1).value.notes[9].columnId !in DeleteBoard(s, 1).value.columns
  {
    var s := Store(map[1 := Board(Null)], map[4 := Column(Null, 1)], map[9 := Note(Null, 4, Null)]);
    assert 4 in ColumnsOf(s, 1);
  }

  /** Because a board delete leaves its columns' notes pointing at the removed
      ids, and a new column takes one past the largest id in use, a column
      created afterwards can take over notes it was never given. */
  lemma ReusedIdAdoptsOrphans()
    ensures var s := Store(map[1 := Board(Null), 2 := Board(Null)],
                           map[3 := Column(Null, 2), 4 := Column(Null, 1)],
                           map[9 := Note(Null, 4, Null)]);
            && Valid(s) && NotesAttached(s)
            && DeleteBoard(s, 1).Ok?
            && var t := DeleteBoard(s, 1).value;
               && CreateColumn(t, 2, Value("fresh")).Ok?
               && CreateColumn(t, 2, Value("fresh")).value.view.id == 4
               && CreateColumn(t, 2, Value("fresh")).value.view.notes == [NoteView(Null, 9, Null)]
  {
    var s := Store(map[1 := Board(Null), 2 := Board(Null)],
                   map[3 := Column(Null, 2), 4 := Column(Null, 1)],
                   map[9 := Note(Null, 4, Null)]);
    assert ColumnsOf(s, 1) == {4};
    assert DeleteBoard(s, 1).value == OrphanedNote();
    ColumnFourAdoptsNoteNine();
  }

  /** The store left by the board delete above: board 2 with column 3, and
      note 9 still pointing at the removed column 4. */
  function OrphanedNote(): Store
  {
    Store(map[2 := Board(Null)], map[3 := Column(Null, 2)], map[9 := Note(Null, 4, Null)])
  }

  lemma ColumnFourAdoptsNoteNine()
    ensures CreateColumn(OrphanedNote(), 2, Value("fresh")).Ok?
    ensures CreateColumn(OrphanedNote(), 2, Value("fresh")).value.view.id == 4
    ensures CreateColumn(OrphanedNote(), 2, Value("fresh")).value.view.notes == [NoteView(Null, 9, Null)]
  {
    var t := OrphanedNote();
    assert Ids.IsLargest(3, t.columns.Keys);
    var p := CreateColumn(t, 2, Value("fresh")).value;
    assert p.view.id == 4;
    assert NotesOf(p.store, 4) == {9};
    assert p.view.notes[0].id == 9;
  }
}
