# Virtual boards: the Board → Column → Note store

A Dafny model of the storage core of `main.py` in the virtual-boards note
service. Boards hold columns and columns hold notes. The database has three
tables:

- `boards`: id ↦ name
- `columns`: id ↦ (name, `board_id`)
- `notes`: id ↦ (name, `column_id`, text)

The resource handlers that change these tables, and the nested JSON each
resource renders, are modelled as pure functions over an immutable `Store`
record holding one `map<int, …>` per table. A handler either returns the new
store, or one of these errors:

- `NotFound`: a `get_or_404` lookup failed.
- `Conflict`: the commit broke a table's UNIQUE `name` constraint.
- `Fault`: the handler raised a `NameError`.

A failing handler leaves the store unchanged. A failed `get_or_404` aborts
before the handler adds or deletes any row. A failed commit rolls its
transaction back.

Modules follow the source's classes:

- `Schema`: the `Board`, `Column` and `Note` models, the store, and the errors.
  It also states the facts a reachable store keeps (`Valid`):
  - no two rows of a table share a non-NULL name;
  - every column points at an existing board.
- `Ids`: primary-key allocation. A new row gets one more than the largest id
  in its table, or 1 in an empty table. This is SQLite's rule for an
  `INTEGER PRIMARY KEY` row inserted without an id. The module also orders
  ids for listings.
- `NoteResource`, `ColumnResource`, `BoardResource`, `AllResource`: each
  resource's `to_json`, `post` and `delete`.
- `Service`: the handlers as a request/reply state machine, with its
  invariants and round trips. `Handle` is the service as written.
  `HandleIntended` swaps in the column delete its comments describe.

Names and texts are nullable (`Field = Null | Value(string)`). The request
parser yields `None` for an argument the request leaves out. SQL lets any
number of rows hold NULL in a UNIQUE column, so only non-NULL names can
collide.

Listings are in ascending id order. The source queries without an `ORDER BY`,
and SQLite then scans a rowid table in rowid order.

A later revision of the repository replaces `board_id`/`column_id` with
many-to-many join tables and checks only board names for duplicates. This
model follows `main.py` as it stands. That version has a foreign-key parent
id on each child and a UNIQUE `name` on all three tables.

## Model

| member | source | states |
|---|---|---|
| Ids.NextId | main.py:38 | the id a new row receives is not in use, exceeds every id in use, is 1 in an empty table, and is otherwise one past the largest |
| AllResource.CreateBoard | main.py:106-111 | creating a board fails with Conflict exactly when another board holds the same non-NULL name; otherwise exactly one board is added, under a fresh id, with the given name; columns and notes are untouched; the reply is that board's JSON |
| AllResource.CreateBoardKeepsValid | main.py:39 | adding a board keeps board names unique and the store valid |
| AllResource.CreatedBoardHasNoColumns | main.py:111 | in a valid store the JSON returned for a new board has an empty column list |
| AllResource.AllJson | main.py:88-95 | the whole-database JSON lists every board exactly once, by ascending id, each rendered as its board JSON |
| BoardResource.BoardJson | main.py:117-130 | a board's JSON carries its name and id, and lists exactly the columns whose `board_id` is that id: each once, by ascending id, each rendered with its own notes |
| BoardResource.CreateColumn | main.py:142-148 | creating a column fails with NotFound when the board is absent, otherwise with Conflict exactly when the name is already taken by any column; on success exactly one column is added under a fresh id with `board_id` set to the board, nothing else changes, and the reply is that column's JSON |
| BoardResource.CreateColumnKeepsValid | main.py:51 | adding a column keeps column names unique, keeps every column on an existing board, and keeps notes attached if they were |
| BoardResource.CreatedColumnIsListed | main.py:145 | after a column is created on board `b`, the JSON of `b` lists that column |
| BoardResource.DeleteBoard | main.py:159-172 | deleting an absent board fails with NotFound; otherwise the board and exactly the columns with its `board_id` are removed, all other boards and columns keep their rows, and the notes table is unchanged |
| BoardResource.DeleteBoardStepwise | main.py:165-170 | removing the board's columns one at a time, in any order, and then the board gives the same result as the cascade above |
| BoardResource.DeleteBoardKeepsValid | main.py:159-172 | deleting a board keeps names unique and leaves every remaining column on a remaining board |
| BoardResource.ReusedIdAdoptsOrphans | main.py:142-172 | with dangling `column_id`s kept, a column created after a board delete can receive a removed column's id and list a note it was never given; the program NULLs that `column_id` instead (main.py:52) |
| BoardResource.DeleteBoardOrphansNotes | main.py:164-168 | deleting a board can leave a note whose `column_id` names a column that no longer exists |
| ColumnResource.ColumnJson | main.py:177-190 | a column's JSON carries its name and id, and lists exactly the notes whose `column_id` is that id: each once, by ascending id, each rendered as its note JSON |
| ColumnResource.CreateNote | main.py:203-210 | creating a note fails with NotFound for an absent board (checked first) or an absent column, otherwise with Conflict exactly when the name is taken by any note; on success exactly one note is added under a fresh id, with `column_id` set to the column and the given name and text; the reply renders name, id and text |
| ColumnResource.CreateNoteKeepsValid | main.py:64 | adding a note keeps note names unique, keeps the store valid, and puts the note in an existing column |
| ColumnResource.NoteUnderAnotherBoardsColumn | main.py:203-207 | the board named in the request only has to exist: a note is created under a column that sits on a different board |
| ColumnResource.DeleteColumn | main.py:222-225 | as written, the column delete fails with a NameError fault for every input, before any lookup |
| ColumnResource.DeleteColumnIntended | main.py:222-235 | the intended column delete fails with NotFound for an absent column; otherwise it removes that column and exactly the notes with its `column_id`, and leaves boards, other columns and other notes unchanged |
| ColumnResource.DeleteColumnIntendedKeepsValid | main.py:227-233 | the intended column delete keeps the store valid, and leaves no note pointing at the removed column |
| NoteResource.NoteJsonForgetsOnlyColumn | main.py:240-249 | a note's JSON renders name, id and text: two notes render alike exactly when those three agree |
| NoteResource.DeleteNote | main.py:275-280 | deleting an absent note fails with NotFound; otherwise exactly that note is removed and nothing else changes |
| NoteResource.DeleteNoteKeepsValid | main.py:275-280 | deleting a note keeps the store valid and keeps notes attached if they were |
| Service.Handle | main.py:283-286 | a request that fails leaves the store as it was; a column delete never changes it |
| Service.HandleIntended | main.py:222-235 | with the intended column delete, a failing request leaves the store as it was, and a column delete fails exactly when the column is absent |
| Service.HandleKeepsValid | main.py:34-69 | every request keeps the three UNIQUE name constraints and the column-to-board references |
| Service.HandleIntendedKeepsValid | main.py:34-69 | the same holds for the service with the intended column delete |
| Service.HandleIntendedKeepsNotesAttached | main.py:65 | with the intended column delete, every request except a board delete keeps each note's `column_id` pointing at an existing column |
| Service.RunKeepsValid | main.py:34-69 | any sequence of requests from a valid store, such as the empty database, ends in a valid store |
| Service.RunIntendedKeepsValid | main.py:34-69 | the same holds for sequences run with the intended column delete |
| Service.RemoveColumnRemovesNothing | main.py:222-225 | a column delete request leaves the store unchanged and answers with the NameError fault, even for an existing column with notes |
| Service.BoardRoundTrip | main.py:159-172 | in a valid store, creating a board and then deleting it restores the original store |
| Service.NoteRoundTrip | main.py:275-280 | creating a note and then deleting it restores the original store |
| Service.ColumnRoundTrip | main.py:222-235 | creating a column and then deleting it with the intended handler restores the store exactly when no note already pointed at the new column's id; only a board delete leaves such notes behind |
| Service.DuplicateNameRejected | main.py:39-64 | a create whose non-NULL name is already taken in its table, with its lookups passing, fails with Conflict naming that name and leaves the store unchanged |

## Left out

- Flask and Flask-RESTful plumbing is not modelled, because it is framework code with no store logic. This covers:
  - routing and `reqparse` argument parsing;
  - the `?type=json` switch and the HTML `get` views;
  - `extra_info` and the 404 page (main.py:3-32, 71-82, 97-103, 132-140, 192-201, 251-260, 283-291).
- The `put` handlers (main.py:150-157, 212-220, 262-273) are not modelled, because they cannot run as written. Their reasons:
  - they read `args['columns']`, `args['notes']`, `args['board_id']` and `args['column']`, which the parser never registers;
  - their parameter names do not match the route variables.
- Route dispatch is not modelled. The model treats the handler bodies as store operations. Three delete handlers cannot be reached over HTTP:
  - `BoardREST.delete` and `NoteREST.delete` take `board_id`/`note_id`, where the routes bind `board`/`note`;
  - `ColumnREST.delete(col_id)` (main.py:223) sits behind the route `/<board>/<column>/` (main.py:285), so over HTTP it fails with a `TypeError` on the `board` argument. The `NameError` in Findings is what its body does when it is called directly.
- Route variables arrive as strings, and SQLAlchemy passes them to SQLite unchanged. SQLite's INTEGER column affinity on the `id`, `board_id` and `column_id` columns (main.py:38, 50, 53, 63-64) turns them into integers, both in the `WHERE id = ?` lookup and in a stored foreign key, so `'4'`, `'04'` and `'4.0'` all mean id 4. The model takes integer ids directly.
- HTTP status codes are not modelled. The model's replies are: created (with the JSON), removed, or failed (with the error).
- Conflict: a duplicate name raises an unhandled `IntegrityError` at commit in the source. The model reports it as `Conflict` with the store unchanged.
- The `String(64)` length on names is not modelled, because SQLite does not enforce declared lengths.
- SQLite persistence, the session and its commit/teardown, migrations and the `Manager` shell are not modelled (main.py:17-32, 294-300). Only their effect is kept: all or nothing per request.
- Ids.NextId: does not model SQLite's fallback to a random unused id once the largest id reaches 2^63 - 1, because that needs randomness and an int64 bound.
- BoardResource.DeleteBoard: removes rows the way a plain SQL `DELETE` does, so the notes of the removed columns keep their old `column_id`, which is now dangling. In the program, SQLAlchemy's default handling of the `Column.notes` relationship (main.py:52) sets those notes' `column_id` to NULL at flush. No note is deleted in either case, but the difference is visible:
  - a later column can take a removed column's id, because `Ids.NextId` gives one past the largest id still in use;
  - in the model that column then lists the orphaned notes, and the program would not list them (BoardResource.ReusedIdAdoptsOrphans);
  - this shows in the `CreateColumn` reply, in `BoardJson` and `AllJson`, and in the condition of `Service.ColumnRoundTrip`.
- The many-to-many `BoardsContent`/`ColumnsContent` join tables are not modelled, because they belong to a later revision and do not appear in `main.py`.

## Findings

| source | as written | input that shows it | evidently intended | confidence | as-written member | corrected member |
|---|---|---|---|---|---|---|
| main.py:222-235 | `ColumnREST.delete(col_id)` calls `Column.query.get_or_404(column)`, and nothing in scope binds `column`, so a `NameError` is raised before any query and nothing is deleted | deleting column 4, which exists and holds note 9: the store is unchanged and the request faults (Service.RemoveColumnRemovesNothing) | look up `col_id`, delete every note with that `column_id`, then delete the column | high; not executed | ColumnResource.DeleteColumn | ColumnResource.DeleteColumnIntended |

The corrected handler is what `Service.HandleIntended` and `Service.RunIntended`
run. `Service.Handle` keeps the handler as written.
