/** The root resource: the JSON rendering of the whole database and the handler
    that creates a board. */
module AllResource {
  import opened Schema
  import Ids
  import opened BoardResource

  /** The JSON object for the whole database: every board. */
  datatype AllView = AllView(boards: seq<BoardView>)

  /** Render every board, by ascending id, each with its columns and notes. */
  function AllJson(s: Store): (r: AllView)
    ensures |r.boards| == |s.boards|
    ensures forall k :: 0 <= k < |r.boards| ==>
              r.boards[k].id in s.boards && r.boards[k] == BoardJson(s, r.boards[k].id)
    ensures forall b :: b in s.boards ==> exists k :: 0 <= k < |r.boards| && r.boards[k].id == b
    ensures forall j, k :: 0 <= j < k < |r.boards| ==> r.boards[j].id < r.boards[k].id
  {
    var ids := Ids.Ascending(s.boards.Keys);
    assert forall k :: 0 <= k < |ids| ==> ids[k] in s.boards;
    var boards := BoardJsons(s, ids);
    Ids.ListedInOrder(s.boards.Keys, boards, (v: BoardView) => v.id);
    AllView(boards)
  }

  /** The JSON of the boards with the given ids, in the order given. */
  function BoardJsons(s: Store, ids: seq<Id>): (r: seq<BoardView>)
    requires forall k :: 0 <= k < |ids| ==> ids[k] in s.boards
    ensures |r| == |ids|
    ensures forall k :: 0 <= k < |r| ==> r[k].id == ids[k]
    ensures forall k :: 0 <= k < |r| ==> r[k].id in s.boards && r[k] == BoardJson(s, r[k].id)
  {
    seq(|ids|, k requires 0 <= k < |ids| => BoardJson(s, ids[k]))
  }

  /** Create a board. The name must not already be taken by another board. */
  function CreateBoard(s: Store, name: Field): (r: Result<Posted<BoardView>>)
    ensures r.Err? <==> Collides(name, BoardNames(s))
    ensures r.Err? ==> r.error == Conflict(Boards, name.chars)
    ensures r.Ok? ==> r.value.view.id !in s.boards
    ensures r.Ok? ==> r.value.store == s.(boards := s.boards[r.value.view.id := Board(name)])
    ensures r.Ok? ==> r.value.view == BoardJson(r.value.store, r.value.view.id)
  {
    if Collides(name, BoardNames(s)) then Err(Conflict(Boards, name.chars))
    else
      var id := Ids.NextId(s.boards.Keys);
      var s' := s.(boards := s.boards[id := Board(name)]);
      Ok(Posted(s', BoardJson(s', id)))
  }

  /** A created board takes the next free id and keeps the store valid. */
  lemma CreateBoardKeepsValid(s: Store, name: Field)
    requires Valid(s)
    requires CreateBoard(s, name).Ok?
    ensures Valid(CreateBoard(s, name).value.store)
  {
    var p := CreateBoard(s, name).value;
    var id := p.view.id;
    assert BoardNames(p.store) == BoardNames(s)[id := name];
    UniqueAfterInsert(BoardNames(s), id, name);
    assert ColumnNames(p.store) == ColumnNames(s);
    assert NoteNames(p.store) == NoteNames(s);
  }

  /** In a valid store no column points at the id a new board receives, so the
      board comes back with an empty column list. */
  lemma CreatedBoardHasNoColumns(s: Store, name: Field)
    requires Valid(s)
    requires CreateBoard(s, name).Ok?
    ensures CreateBoard(s, name).value.view.columns == []
  {
    var p := CreateBoard(s, name).value;
    assert ColumnsOf(p.store, p.view.id) == {};
  }
}
