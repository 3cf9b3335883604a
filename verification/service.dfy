/** The service as a state machine over the store: each request runs one
    handler, and a handler that gives up leaves the store as it found it
    (nothing reaches the database before the commit that ends a successful
    request). */
module Service {
  import opened Schema
  import Ids
  import opened NoteResource
  import opened ColumnResource
  import opened BoardResource
  import opened AllResource

  /** The handler bodies the service runs, one per request kind. */
  datatype Request =
    | PostBoard(name: Field)
    | PostColumn(board: Id, name: Field)
    | PostNote(board: Id, column: Id, name: Field, text: Field)
    | RemoveBoard(board: Id)
    | RemoveColumn(column: Id)
    | RemoveNote(note: Id)

  /** What a handler answers: the JSON of the created row, a bare
      acknowledgement of a delete, or the reason it gave up. */
  datatype Reply =
    | BoardCreated(board: BoardView)
    | ColumnCreated(column: ColumnView)
    | NoteCreated(note: NoteView)
    | Removed
    | Failed(error: Error)

  /** The reply to a delete: the new store, or the old one with the error. */
  function Removal(s: Store, r: Result<Store>): (Store, Reply)
  {
    match r
    case Ok(s') => (s', Removed)
    case Err(e) => (s, Failed(e))
  }

  /** Every request except a column delete, which the two machines below
      handle differently. */
  function HandleOther(s: Store, req: Request): (out: (Store, Reply))
    requires !req.RemoveColumn?
    ensures out.1.Failed? ==> out.0 == s
  {
    match req
    case PostBoard(name) =>
      var r := CreateBoard(s, name);
      if r.Ok? then (r.value.store, BoardCreated(r.value.view)) else (s, Failed(r.error))
    case PostColumn(b, name) =>
      var r := CreateColumn(s, b, name);
      if r.Ok? then (r.value.store, ColumnCreated(r.value.view)) else (s, Failed(r.error))
    case PostNote(b, c, name, text) =>
      var r := CreateNote(s, b, c, name, text);
      if r.Ok? then (r.value.store, NoteCreated(r.value.view)) else (s, Failed(r.error))
    case RemoveBoard(b) => Removal(s, DeleteBoard(s, b))
    case RemoveNote(n) => Removal(s, DeleteNote(s, n))
  }

  /** The service as written: the column delete handler always faults. */
  function Handle(s: Store, req: Request): (out: (Store, Reply))
    ensures out.1.Failed? ==> out.0 == s
    ensures req.RemoveColumn? ==> out.0 == s && out.1.Failed?
  {
    if req.RemoveColumn? then Removal(s, DeleteColumn(s, req.column))
    else HandleOther(s, req)
  }

  /** The service with the column delete handler doing what its comments say. */
  function HandleIntended(s: Store, req: Request): (out: (Store, Reply))
    ensures out.1.Failed? ==> out.0 == s
    ensures req.RemoveColumn? ==> (out.1.Failed? <==> req.column !in s.columns)
  {
    if req.RemoveColumn? then Removal(s, DeleteColumnIntended(s, req.column))
    else HandleOther(s, req)
  }

  /** The store after running the requests in order from `s`. */
  function Run(s: Store, reqs: seq<Request>): Store
    decreases |reqs|
  {
    if reqs == [] then s else Run(Handle(s, reqs[0]).0, reqs[1..])
  }

  function RunIntended(s: Store, reqs: seq<Request>): Store
    decreases |reqs|
  {
    if reqs == [] then s else RunIntended(HandleIntended(s, reqs[0]).0, reqs[1..])
  }

  /** The UNIQUE constraints and the column-to-board references hold after
      every request of the service as written. */
  lemma HandleKeepsValid(s: Store, req: Request)
    requires Valid(s)
    ensures Valid(Handle(s, req).0)
  {
    match req
    case PostBoard(name) =>
      if CreateBoard(s, name).Ok? { CreateBoardKeepsValid(s, name); }
    case PostColumn(b, name) =>
      if CreateColumn(s, b, name).Ok? { CreateColumnKeepsValid(s, b, name); }
    case PostNote(b, c, name, text) =>
      if CreateNote(s, b, c, name, text).Ok? { CreateNoteKeepsValid(s, b, c, name, text); }
    case RemoveBoard(b) =>
      if DeleteBoard(s, b).Ok? { DeleteBoardKeepsValid(s, b); }
    case RemoveColumn(c) =>
    case RemoveNote(n) =>
      if DeleteNote(s, n).Ok? { DeleteNoteKeepsValid(s, n); }
  }

  /** The same holds with the intended column delete. */
  lemma HandleIntendedKeepsValid(s: Store, req: Request)
    requires Valid(s)
    ensures Valid(HandleIntended(s, req).0)
  {
    if req.RemoveColumn? {
      if DeleteColumnIntended(s, req.column).Ok? { DeleteColumnIntendedKeepsValid(s, req.column); }
    } else {
      HandleKeepsValid(s, req);
    }
  }

  /** With the intended column delete, only a board delete can leave a note
      without its column. */
  lemma HandleIntendedKeepsNotesAttached(s: Store, req: Request)
    requires Valid(s) && NotesAttached(s)
    requires !req.RemoveBoard?
    ensures NotesAttached(HandleIntended(s, req).0)
  {
    match req
    case PostBoard(name) =>
    case PostColumn(b, name) =>
      if CreateColumn(s, b, name).Ok? { CreateColumnKeepsValid(s, b, name); }
    case PostNote(b, c, name, text) =>
      if CreateNote(s, b, c, name, text).Ok? { CreateNoteKeepsValid(s, b, c, name, text); }
    case RemoveColumn(c) =>
      if DeleteColumnIntended(s, c).Ok? { DeleteColumnIntendedKeepsValid(s, c); }
    case RemoveNote(n) =>
      if DeleteNote(s, n).Ok? { DeleteNoteKeepsValid(s, n); }
  }

  /** Every store the service as written can reach from an empty database is valid. */
  lemma {:induction false} RunKeepsValid(s: Store, reqs: seq<Request>)
    requires Valid(s)
    ensures Valid(Run(s, reqs))
    decreases |reqs|
  {
    if reqs != [] {
      HandleKeepsValid(s, reqs[0]);
      RunKeepsValid(Handle(s, reqs[0]).0, reqs[1..]);
    }
  }

  lemma {:induction false} RunIntendedKeepsValid(s: Store, reqs: seq<Request>)
    requires Valid(s)
    ensures Valid(RunIntended(s, reqs))
    decreases |reqs|
  {
    if reqs != [] {
      HandleIntendedKeepsValid(s, reqs[0]);
      RunIntendedKeepsValid(HandleIntended(s, reqs[0]).0, reqs[1..]);
    }
  }

  lemma EmptyIsValid()
    ensures Valid(Empty) && NotesAttached(Empty)
  {
  }

  /** As written, a column delete never removes anything, even for a column
      that exists and has notes. */
  lemma RemoveColumnRemovesNothing(s: Store, c: Id)
    ensures Handle(s, RemoveColumn(c)) == (s, Failed(Fault("column")))
    ensures c in s.columns ==> c in Handle(s, RemoveColumn(c)).0.columns
    ensures forall n :: n in s.notes ==> n in Handle(s, RemoveColumn(c)).0.notes
  {
  }

  /** A board created and then deleted leaves a valid store exactly as it was. */
  lemma BoardRoundTrip(s: Store, name: Field)
    requires Valid(s)
    requires CreateBoard(s, name).Ok?
    ensures var p := CreateBoard(s, name).value;
            DeleteBoard(p.store, p.view.id) == Ok(s)
  {
    var p := CreateBoard(s, name).value;
    InsertThenDeleteBoard(s, p.view.id, Board(name));
  }

  lemma InsertThenDeleteBoard(s: Store, id: Id, board: Board)
    requires ColumnsAttached(s)
    requires id !in s.boards
    ensures DeleteBoard(s.(boards := s.boards[id := board]), id) == Ok(s)
  {
    var t := s.(boards := s.boards[id := board]);
    assert ColumnsOf(t, id) == {} by {
      forall c | c in t.columns
        ensures t.columns[c].boardId != id
      {
        assert s.columns[c].boardId in s.boards;
      }
    }
    var s' := DeleteBoard(t, id).value;
    assert s'.boards == s.boards;
    assert s'.columns == s.columns;
  }

  /** A note created and then deleted leaves any store exactly as it was. */
  lemma NoteRoundTrip(s: Store, b: Id, c: Id, name: Field, text: Field)
    requires CreateNote(s, b, c, name, text).Ok?
    ensures var p := CreateNote(s, b, c, name, text).value;
            DeleteNote(p.store, p.view.id) == Ok(s)
  {
    var p := CreateNote(s, b, c, name, text).value;
    assert DeleteNote(p.store, p.view.id).value.notes == s.notes;
  }

  /** A column created and then deleted by the intended handler restores the
      store exactly when no note already pointed at the id the column received;
      otherwise the intended cascade takes those notes with it. */
  lemma ColumnRoundTrip(s: Store, b: Id, name: Field)
    requires CreateColumn(s, b, name).Ok?
    ensures var p := CreateColumn(s, b, name).value;
            DeleteColumnIntended(p.store, p.view.id) == Ok(s) <==> NotesOf(s, p.view.id) == {}
  {
    var p := CreateColumn(s, b, name).value;
    InsertThenDeleteColumn(s, p.view.id, Column(name, b));
  }

  lemma InsertThenDeleteColumn(s: Store, id: Id, column: Column)
    requires id !in s.columns
    ensures DeleteColumnIntended(s.(columns := s.columns[id := column]), id) == Ok(s) <==> NotesOf(s, id) == {}
  {
    var t := s.(columns := s.columns[id := column]);
    var s' := DeleteColumnIntended(t, id).value;
    assert s'.columns == s.columns;
    if NotesOf(s, id) == {} {
      assert s'.notes == s.notes;
    } else {
      Ids.HasElement(NotesOf(s, id));
      var n :| n in NotesOf(s, id);
      assert n !in s'.notes;
    }
  }

  /** A create whose name another row of the same table already holds is
      refused with a conflict once its lookups pass, and changes nothing. */
  lemma DuplicateNameRejected(s: Store, req: Request)
    requires req.PostBoard? || req.PostColumn? || req.PostNote?
    requires req.PostColumn? ==> req.board in s.boards && Collides(req.name, ColumnNames(s))
    requires req.PostNote? ==> req.board in s.boards && req.column in s.columns && Collides(req.name, NoteNames(s))
    requires req.PostBoard? ==> Collides(req.name, BoardNames(s))
    ensures Handle(s, req).0 == s
    ensures Handle(s, req).1.Failed? && Handle(s, req).1.error.Conflict?
    ensures Handle(s, req).1.error.name == req.name.chars
  {
  }
}
