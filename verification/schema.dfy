/** The three tables behind the board service and the rows they hold: the
    Board, Column and Note models. A column refers to its board by `boardId`
    and a note to its column by `columnId`; nothing in the store forces
    either reference to resolve. */
module Schema {

  /** Primary key of a row. */
  type Id = int

  /** A nullable text cell. A request that omits an argument stores NULL. */
  datatype Field = Null | Value(chars: string)

  datatype Board = Board(name: Field)

  datatype Column = Column(name: Field, boardId: Id)

  datatype Note = Note(name: Field, columnId: Id, text: Field)

  /** The whole database: one map from primary key to row per table. */
  datatype Store = Store(
    boards: map<Id, Board>,
    columns: map<Id, Column>,
    notes: map<Id, Note>)

  const Empty: Store := Store(map[], map[], map[])

  datatype Table = Boards | Columns | Notes

  /** Why a handler gives up. None of them changes the store. */
  datatype Error =
      /** a primary-key lookup found no row; the request is aborted with 404 */
    | NotFound(table: Table, id: Id)
      /** the commit broke the UNIQUE constraint on a table's `name` */
    | Conflict(table: Table, name: string)
      /** the handler read a variable that nothing binds */
    | Fault(unbound: string)

  datatype Result<T> = Ok(value: T) | Err(error: Error)

  /** A successful create: the store after the commit and the JSON of the new row. */
  datatype Posted<V> = Posted(store: Store, view: V)

  /** The `name` column of each table, keyed by primary key. */
  function BoardNames(s: Store): map<Id, Field>
  {
    map b | b in s.boards :: s.boards[b].name
  }

  function ColumnNames(s: Store): map<Id, Field>
  {
    map c | c in s.columns :: s.columns[c].name
  }

  function NoteNames(s: Store): map<Id, Field>
  {
    map n | n in s.notes :: s.notes[n].name
  }

  /** What a UNIQUE column guarantees: no two rows share a non-NULL value.
      Any number of rows may hold NULL. */
  ghost predicate Unique(names: map<Id, Field>)
  {
    forall i, j :: i in names && j in names && i != j && names[i].Value? ==> names[i] != names[j]
  }

  /** Inserting `name` would break the UNIQUE constraint. */
  predicate Collides(name: Field, names: map<Id, Field>)
  {
    name.Value? && name in names.Values
  }

  /** The columns whose `board_id` is `b`. */
  function ColumnsOf(s: Store, b: Id): set<Id>
  {
    set c | c in s.columns && s.columns[c].boardId == b
  }

  /** The notes whose `column_id` is `c`. */
  function NotesOf(s: Store, c: Id): set<Id>
  {
    set n | n in s.notes && s.notes[n].columnId == c
  }

  /** Every column hangs off a board that exists. */
  ghost predicate ColumnsAttached(s: Store)
  {
    forall c :: c in s.columns ==> s.columns[c].boardId in s.boards
  }

  /** Every note hangs off a column that exists. */
  ghost predicate NotesAttached(s: Store)
  {
    forall n :: n in s.notes ==> s.notes[n].columnId in s.columns
  }

  /** The facts every reachable store keeps: the three UNIQUE constraints, and
      columns that point at real boards. Notes are not included: deleting a
      board leaves the notes of its columns behind. */
  ghost predicate Valid(s: Store)
  {
    && Unique(BoardNames(s))
    && Unique(ColumnNames(s))
    && Unique(NoteNames(s))
    && ColumnsAttached(s)
  }

  /** A fresh row whose name does not collide keeps a name table unique. */
  lemma UniqueAfterInsert(names: map<Id, Field>, id: Id, name: Field)
    requires Unique(names)
    requires id !in names
    requires !Collides(name, names)
    ensures Unique(names[id := name])
  {
    var grown := names[id := name];
    forall i, j | i in grown && j in grown && i != j && grown[i].Value?
      ensures grown[i] != grown[j]
    {
      if i == id {
        assert names[j] in names.Values;
      } else if j == id {
        assert names[i] in names.Values;
      }
    }
  }

  /** Dropping rows keeps a name table unique. */
  lemma UniqueAfterRemove(names: map<Id, Field>, gone: set<Id>)
    requires Unique(names)
    ensures Unique(names - gone)
  {
  }
}
