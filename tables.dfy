/** The table editing actions of `src/reducers/org.js`: each one finds the table
    holding the selected cell, rewrites that table's rows and re-renders the raw
    description of the header holding it. The rows are rewritten by the updater
    functions `RowAdded` ... `ColumnMovedRight`; the file-level actions apply them
    at the located cell. */
module Tables {
  import opened Wrappers
  import opened OrgTypes
  import opened OrgFiles
  import opened SeqOps

  /** `parseMarkupAndCookies(text, { excludeCookies: true })`, which turns a cell's
      new raw text into parts, is not part of this model; it is a parameter. */
  type ParseCell = string -> seq<Part>

  /** The generator of fresh ids (`generateId`), as a supply: the k-th new id. */
  type FreshIds = nat -> Id

  // Locating a cell. `updateTableContainingCellId` and `headerThatContainsTableCellId`
  // are not part of this model; they are read as: the first header whose
  // description holds a table with the cell, the first such table, the first row
  // holding the cell and the cell's index in that row.

  function CellIs(cellId: Id): TableCell -> bool
  {
    (cell: TableCell) => cell.id == cellId
  }

  function RowHas(cellId: Id): TableRow -> bool
  {
    (row: TableRow) => FindIndex(row.cells, CellIs(cellId)) >= 0
  }

  function TableHas(cellId: Id): Part -> bool
  {
    (part: Part) => part.Table? && FindIndex(part.rows, RowHas(cellId)) >= 0
  }

  function HeaderHas(cellId: Id): Header -> bool
  {
    (header: Header) => FindIndex(header.description, TableHas(cellId)) >= 0
  }

  /** A cell position: header index, part index in its description, row, column. */
  datatype CellAt = CellAt(header: nat, part: nat, row: nat, col: nat)

  predicate IsCell(headers: seq<Header>, at: CellAt)
  {
    at.header < |headers| && at.part < |headers[at.header].description| &&
    headers[at.header].description[at.part].Table? &&
    at.row < |headers[at.header].description[at.part].rows| &&
    at.col < |headers[at.header].description[at.part].rows[at.row].cells|
  }

  function RowsAt(headers: seq<Header>, at: CellAt): seq<TableRow>
    requires IsCell(headers, at)
  {
    headers[at.header].description[at.part].rows
  }

  function CellOf(headers: seq<Header>, at: CellAt): TableCell
    requires IsCell(headers, at)
  {
    RowsAt(headers, at)[at.row].cells[at.col]
  }

  /** Where the cell with the id is, or None when no table holds it. */
  function LocateCell(headers: seq<Header>, cellId: Id): (r: Option<CellAt>)
    ensures r.Some? ==> IsCell(headers, r.value) && CellOf(headers, r.value).id == cellId
  {
    var h := FindIndex(headers, HeaderHas(cellId));
    if h < 0 then None
    else
      FindIndexMeaning(headers, HeaderHas(cellId));
      var description := headers[h].description;
      var p := FindIndex(description, TableHas(cellId));
      FindIndexMeaning(description, TableHas(cellId));
      var rows := description[p].rows;
      var row := FindIndex(rows, RowHas(cellId));
      FindIndexMeaning(rows, RowHas(cellId));
      var col := FindIndex(rows[row].cells, CellIs(cellId));
      FindIndexMeaning(rows[row].cells, CellIs(cellId));
      Some(CellAt(h, p, row, col))
  }

  /** A cell is located whenever some table cell carries the id. */
  lemma {:induction false} LocateCellFinds(headers: seq<Header>, cellId: Id, at: CellAt)
    requires IsCell(headers, at) && CellOf(headers, at).id == cellId
    ensures LocateCell(headers, cellId).Some?
  {
    var rows := RowsAt(headers, at);
    FindIndexMeaning(rows[at.row].cells, CellIs(cellId));
    assert RowHas(cellId)(rows[at.row]);
    FindIndexMeaning(rows, RowHas(cellId));
    var description := headers[at.header].description;
    assert TableHas(cellId)(description[at.part]);
    FindIndexMeaning(description, TableHas(cellId));
    assert HeaderHas(cellId)(headers[at.header]);
    FindIndexMeaning(headers, HeaderHas(cellId));
  }

  // The row updaters, one per action, on the rows of the located table.

  function EmptyCell(id: Id): (c: TableCell)
    ensures c.id == id && c.rawContents == "" && c.contents == []
  {
    TableCell(id, "", [])
  }

  /** `newEmptyTableRowLikeRows` is not part of this model; it is read as a row
      of empty cells as wide as the first row, with fresh ids. */
  function EmptyRowLike(rows: seq<TableRow>, ids: FreshIds): (r: TableRow)
    ensures |r.cells| == (if |rows| == 0 then 0 else |rows[0].cells|)
    ensures forall k :: 0 <= k < |r.cells| ==> r.cells[k].rawContents == "" && r.cells[k].contents == []
  {
    var width := if |rows| == 0 then 0 else |rows[0].cells|;
    var cells := seq(width, k requires 0 <= k < width => EmptyCell(ids(k + 1)));
    assert forall k :: 0 <= k < width ==> cells[k] == EmptyCell(ids(k + 1));
    TableRow(ids(0), cells)
  }

  /** `rows.insert(rowIndex + 1, newEmptyTableRowLikeRows(rows))`. */
  function RowAdded(rows: seq<TableRow>, row: nat, ids: FreshIds): seq<TableRow>
  {
    Insert(rows, row + 1, EmptyRowLike(rows, ids))
  }

  /** `rows.delete(rowIndex)`. */
  function RowRemoved(rows: seq<TableRow>, row: nat): seq<TableRow>
    requires row < |rows|
  {
    Remove(rows, row)
  }

  /** `contents.insert(colIndex + 1, newEmptyTableCell())` in every row. */
  function ColumnAdded(rows: seq<TableRow>, col: nat, ids: FreshIds): (r: seq<TableRow>)
    ensures |r| == |rows|
  {
    seq(|rows|, k requires 0 <= k < |rows| =>
      rows[k].(cells := Insert(rows[k].cells, col + 1, EmptyCell(ids(k)))))
  }

  /** `contents.delete(colIndex)` in every row (a row too short keeps its cells). */
  function ColumnRemoved(rows: seq<TableRow>, col: nat): (r: seq<TableRow>)
    ensures |r| == |rows|
  {
    seq(|rows|, k requires 0 <= k < |rows| => rows[k].(cells := DeleteAt(rows[k].cells, col)))
  }

  /** Identity on the last row, else `rows.insert(i, rows.get(i + 1)).delete(i + 2)`. */
  function RowMovedDown(rows: seq<TableRow>, row: nat): seq<TableRow>
    requires row < |rows|
  {
    if row + 1 == |rows| then rows
    else Remove(Insert(rows, row, rows[row + 1]), row + 2)
  }

  /** Identity on the first row, else `rows.insert(i - 1, rows.get(i)).delete(i + 1)`. */
  function RowMovedUp(rows: seq<TableRow>, row: nat): seq<TableRow>
    requires row < |rows|
  {
    if row == 0 then rows
    else Remove(Insert(rows, row - 1, rows[row]), row + 1)
  }

  /** Every row either is empty or reaches column `col`. */
  predicate Reaches(rows: seq<TableRow>, col: nat)
  {
    forall k :: 0 <= k < |rows| ==> |rows[k].cells| == 0 || col < |rows[k].cells|
  }

  /** A right move of column `col` is defined: when the first row has a column
      after `col` the rows move, and every row is then empty or reaches it; on the
      first row's last column nothing moves, whatever the other rows hold. */
  predicate MovableRight(rows: seq<TableRow>, col: nat)
  {
    |rows| > 0 && (col + 1 < |rows[0].cells| ==> Reaches(rows, col + 1))
  }

  /** An empty row is left alone; any other has cells `col - 1` and `col` swapped
      by `contents.insert(col - 1, contents.get(col)).delete(col + 1)`. */
  function CellsMovedLeft(cells: seq<TableCell>, col: nat): seq<TableCell>
    requires 0 < col && (|cells| == 0 || col < |cells|)
  {
    if |cells| == 0 then cells
    else Remove(Insert(cells, col - 1, cells[col]), col + 1)
  }

  function CellsMovedRight(cells: seq<TableCell>, col: nat): seq<TableCell>
    requires |cells| == 0 || col + 1 < |cells|
  {
    if |cells| == 0 then cells
    else Remove(Insert(cells, col, cells[col + 1]), col + 2)
  }

  /** Identity on the first column, else every row's cells move left. */
  function ColumnMovedLeft(rows: seq<TableRow>, col: nat): (r: seq<TableRow>)
    requires Reaches(rows, col)
    ensures |r| == |rows|
  {
    if col == 0 then rows
    else seq(|rows|, k requires 0 <= k < |rows| => rows[k].(cells := CellsMovedLeft(rows[k].cells, col)))
  }

  /** Identity when `col + 1` is not a column of the first row, else every row's
      cells move right. */
  function ColumnMovedRight(rows: seq<TableRow>, col: nat): (r: seq<TableRow>)
    requires MovableRight(rows, col)
    ensures |r| == |rows|
  {
    if col + 1 >= |rows[0].cells| then rows
    else seq(|rows|, k requires 0 <= k < |rows| => rows[k].(cells := CellsMovedRight(rows[k].cells, col)))
  }

  /** `rows.updateIn([rowIndex, 'contents', colIndex], ...)`: the cell gets the new
      raw text and its parse. */
  function CellValueSet(rows: seq<TableRow>, row: nat, col: nat, newValue: string, parse: ParseCell): seq<TableRow>
    requires row < |rows| && col < |rows[row].cells|
  {
    var cell := rows[row].cells[col];
    rows[row := rows[row].(cells := rows[row].cells[col := cell.(rawContents := newValue, contents := parse(newValue))])]
  }

  // What the updaters do.

  /** One more row; the new one sits right below the cell's row, is empty and as
      wide as the first row; every other row keeps its place relative to it. */
  lemma {:induction false} RowAddedShape(rows: seq<TableRow>, row: nat, ids: FreshIds)
    requires row < |rows|
    ensures var r := RowAdded(rows, row, ids);
      |r| == |rows| + 1 && r[..row + 1] == rows[..row + 1] && r[row + 2..] == rows[row + 1..] &&
      var added := r[row + 1].cells;
      |added| == |rows[0].cells| && forall k :: 0 <= k < |added| ==> added[k].rawContents == ""
  {
    InsertShape(rows, row + 1, EmptyRowLike(rows, ids));
  }

  /** Removing the added row gives back the table. */
  lemma {:induction false} RowAddedThenRemoved(rows: seq<TableRow>, row: nat, ids: FreshIds)
    requires row < |rows|
    ensures RowRemoved(RowAdded(rows, row, ids), row + 1) == rows
  {
    RemoveInsert(rows, row + 1, EmptyRowLike(rows, ids));
  }

  /** Every row of a table that reaches column `col` gets one more cell, an empty
      one right after column `col`, and removing that column gives the table back. */
  lemma {:induction false} ColumnAddedThenRemoved(rows: seq<TableRow>, col: nat, ids: FreshIds)
    requires forall k :: 0 <= k < |rows| ==> col < |rows[k].cells|
    ensures var r := ColumnAdded(rows, col, ids);
      (forall k :: 0 <= k < |rows| ==>
        |r[k].cells| == |rows[k].cells| + 1 && r[k].cells[col + 1].rawContents == "") &&
      ColumnRemoved(r, col + 1) == rows
  {
    var r := ColumnAdded(rows, col, ids);
    forall k | 0 <= k < |rows|
      ensures |r[k].cells| == |rows[k].cells| + 1 && r[k].cells[col + 1].rawContents == ""
      ensures DeleteAt(r[k].cells, col + 1) == rows[k].cells
    {
      RemoveInsert(rows[k].cells, col + 1, EmptyCell(ids(k)));
    }
    var back := ColumnRemoved(r, col + 1);
    assert forall k :: 0 <= k < |rows| ==> back[k] == rows[k];
  }

  /** Removing a column in range takes exactly one cell out of each row reaching it. */
  lemma {:induction false} ColumnRemovedShape(rows: seq<TableRow>, col: nat)
    ensures var r := ColumnRemoved(rows, col);
      forall k :: 0 <= k < |rows| ==>
        r[k].id == rows[k].id &&
        (col < |rows[k].cells| ==> r[k].cells == Remove(rows[k].cells, col)) &&
        (col >= |rows[k].cells| ==> r[k].cells == rows[k].cells)
  {
  }

  /** Moving down swaps the row with the next one; on the last row nothing moves. */
  lemma {:induction false} RowMovedDownSwaps(rows: seq<TableRow>, row: nat)
    requires row < |rows|
    ensures var r := RowMovedDown(rows, row);
      (row + 1 == |rows| ==> r == rows) &&
      (row + 1 < |rows| ==> r == rows[row := rows[row + 1]][row + 1 := rows[row]])
  {
    if row + 1 < |rows| {
      SwapNext(rows, row);
    }
  }

  /** Moving up swaps the row with the previous one; on the first row nothing moves. */
  lemma {:induction false} RowMovedUpSwaps(rows: seq<TableRow>, row: nat)
    requires row < |rows|
    ensures var r := RowMovedUp(rows, row);
      (row == 0 ==> r == rows) &&
      (row > 0 ==> r == rows[row - 1 := rows[row]][row := rows[row - 1]])
  {
    if row > 0 {
      SwapNext(rows, row - 1);
    }
  }

  /** A row moved down comes back up: the two moves are inverse, and each keeps
      the rows as a multiset. */
  lemma {:induction false} RowMovesInverse(rows: seq<TableRow>, row: nat)
    requires row + 1 < |rows|
    ensures RowMovedUp(RowMovedDown(rows, row), row + 1) == rows
    ensures multiset(RowMovedDown(rows, row)) == multiset(rows)
  {
    RowMovedDownSwaps(rows, row);
    var down := RowMovedDown(rows, row);
    RowMovedUpSwaps(down, row + 1);
    assert RowMovedUp(down, row + 1) == rows;
    var i := row;
    assert rows == rows[..i] + [rows[i], rows[i + 1]] + rows[i + 2..];
    assert down == rows[..i] + [rows[i + 1], rows[i]] + rows[i + 2..];
  }

  /** Moving a column left swaps cells `col - 1` and `col` in every non-empty row. */
  lemma {:induction false} ColumnMovedLeftSwaps(rows: seq<TableRow>, col: nat)
    requires Reaches(rows, col)
    ensures var r := ColumnMovedLeft(rows, col);
      (col == 0 ==> r == rows) &&
      (col > 0 ==> forall k :: 0 <= k < |rows| && |rows[k].cells| > 0 ==>
        r[k].id == rows[k].id &&
        r[k].cells == rows[k].cells[col - 1 := rows[k].cells[col]][col := rows[k].cells[col - 1]])
  {
    if col > 0 {
      forall k | 0 <= k < |rows| && |rows[k].cells| > 0
        ensures CellsMovedLeft(rows[k].cells, col) ==
                rows[k].cells[col - 1 := rows[k].cells[col]][col := rows[k].cells[col - 1]]
      {
        SwapNext(rows[k].cells, col - 1);
      }
    }
  }

  /** Moving a column right swaps cells `col` and `col + 1` in every non-empty row,
      unless `col` is the first row's last column. */
  lemma {:induction false} ColumnMovedRightSwaps(rows: seq<TableRow>, col: nat)
    requires MovableRight(rows, col)
    ensures var r := ColumnMovedRight(rows, col);
      (col + 1 >= |rows[0].cells| ==> r == rows) &&
      (col + 1 < |rows[0].cells| ==> forall k :: 0 <= k < |rows| && |rows[k].cells| > 0 ==>
        r[k].id == rows[k].id &&
        r[k].cells == rows[k].cells[col := rows[k].cells[col + 1]][col + 1 := rows[k].cells[col]])
  {
    if col + 1 < |rows[0].cells| {
      forall k | 0 <= k < |rows| && |rows[k].cells| > 0
        ensures CellsMovedRight(rows[k].cells, col) ==
                rows[k].cells[col := rows[k].cells[col + 1]][col + 1 := rows[k].cells[col]]
      {
        SwapNext(rows[k].cells, col);
      }
    }
  }

  /** On a rectangular table the last column can be moved right, and nothing
      moves. */
  lemma LastColumnStays(rows: seq<TableRow>, col: nat)
    requires |rows| > 0 && col + 1 == |rows[0].cells|
    requires forall k :: 0 <= k < |rows| ==> |rows[k].cells| == |rows[0].cells|
    ensures MovableRight(rows, col) && ColumnMovedRight(rows, col) == rows
  {
  }

  /** Only the edited cell changes: it keeps its id, holds the new raw text and
      the parse of it. */
  lemma {:induction false} CellValueSetShape(rows: seq<TableRow>, row: nat, col: nat, newValue: string, parse: ParseCell)
    requires row < |rows| && col < |rows[row].cells|
    ensures var r := CellValueSet(rows, row, col, newValue, parse);
      |r| == |rows| && |r[row].cells| == |rows[row].cells| &&
      r[row].cells[col] == TableCell(rows[row].cells[col].id, newValue, parse(newValue)) &&
      (forall k :: 0 <= k < |rows| && k != row ==> r[k] == rows[k]) &&
      (forall j :: 0 <= j < |rows[row].cells| && j != col ==> r[row].cells[j] == rows[row].cells[j])
  {
  }

  // The actions on the file.

  /** The selected cell, when there is one, lies in some table: the state the
      actions are dispatched in (without it the source's destructuring throws). */
  predicate SelectionLocated(file: OrgFile)
  {
    Truthy(file.selectedTableCellId) ==> LocateCell(file.headers, file.selectedTableCellId.value).Some?
  }

  function Selected(file: OrgFile): (at: CellAt)
    requires SelectionLocated(file) && Truthy(file.selectedTableCellId)
    ensures IsCell(file.headers, at)
  {
    LocateCell(file.headers, file.selectedTableCellId.value).value
  }

  /** The located table given new rows, and the header's raw description
      re-rendered (`updateDescriptionOfHeaderContainingTableCell`). */
  function WithRows(file: OrgFile, at: CellAt, rows: seq<TableRow>, toRaw: ToRaw): (r: OrgFile)
    requires IsCell(file.headers, at)
  {
    var header := file.headers[at.header];
    var description := header.description[at.part := Table(rows)];
    file.(headers := file.headers[at.header := header.(description := description, rawDescription := toRaw(description))])
  }

  /** `r` is `file` with the table at `at` holding `rows`: every other header, every
      other part, the header's other fields and the rest of the file stay, and the
      raw description is the rendering of the new description. */
  predicate TableReplaced(file: OrgFile, r: OrgFile, at: CellAt, rows: seq<TableRow>, toRaw: ToRaw)
    requires IsCell(file.headers, at)
  {
    var header := file.headers[at.header];
    |r.headers| == |file.headers| &&
    (forall k :: 0 <= k < |file.headers| && k != at.header ==> r.headers[k] == file.headers[k]) &&
    |r.headers[at.header].description| == |header.description| &&
    r.headers[at.header].description[at.part] == Table(rows) &&
    (forall p :: 0 <= p < |header.description| && p != at.part ==>
      r.headers[at.header].description[p] == header.description[p]) &&
    r.headers[at.header] == header.(description := r.headers[at.header].description,
                                    rawDescription := toRaw(r.headers[at.header].description)) &&
    r.todoKeywordSets == file.todoKeywordSets && r.selectedHeaderId == file.selectedHeaderId &&
    r.narrowedHeaderId == file.narrowedHeaderId
  }

  lemma {:induction false} WithRowsReplaces(file: OrgFile, at: CellAt, rows: seq<TableRow>, toRaw: ToRaw)
    requires IsCell(file.headers, at)
    ensures TableReplaced(file, WithRows(file, at, rows, toRaw), at, rows, toRaw)
    ensures WithRows(file, at, rows, toRaw).selectedTableCellId == file.selectedTableCellId
  {
  }

  /** `addNewTableRow`. */
  function AddNewTableRow(file: OrgFile, ids: FreshIds, toRaw: ToRaw): (r: OrgFile)
    requires SelectionLocated(file)
    ensures !Truthy(file.selectedTableCellId) ==> r == file
    ensures Truthy(file.selectedTableCellId) ==>
      var at := Selected(file);
      var rows := RowsAt(file.headers, at);
      TableReplaced(file, r, at, RowAdded(rows, at.row, ids), toRaw) &&
      |RowAdded(rows, at.row, ids)| == |rows| + 1 && r.selectedTableCellId == file.selectedTableCellId
  {
    if !Truthy(file.selectedTableCellId) then file
    else
      var at := Selected(file);
      var rows := RowsAt(file.headers, at);
      WithRowsReplaces(file, at, RowAdded(rows, at.row, ids), toRaw);
      WithRows(file, at, RowAdded(rows, at.row, ids), toRaw)
  }

  /** `removeTableRow`: the selection is cleared. */
  function RemoveTableRow(file: OrgFile, toRaw: ToRaw): (r: OrgFile)
    requires SelectionLocated(file)
    ensures !Truthy(file.selectedTableCellId) ==> r == file
    ensures Truthy(file.selectedTableCellId) ==>
      var at := Selected(file);
      var rows := RowsAt(file.headers, at);
      TableReplaced(file, r, at, RowRemoved(rows, at.row), toRaw) &&
      |RowRemoved(rows, at.row)| == |rows| - 1 && r.selectedTableCellId.None?
  {
    if !Truthy(file.selectedTableCellId) then file
    else
      var at := Selected(file);
      var rows := RowsAt(file.headers, at);
      WithRowsReplaces(file, at, RowRemoved(rows, at.row), toRaw);
      WithRows(file, at, RowRemoved(rows, at.row), toRaw).(selectedTableCellId := None)
  }

  /** `addNewTableColumn`. */
  function AddNewTableColumn(file: OrgFile, ids: FreshIds, toRaw: ToRaw): (r: OrgFile)
    requires SelectionLocated(file)
    ensures !Truthy(file.selectedTableCellId) ==> r == file
    ensures Truthy(file.selectedTableCellId) ==>
      var at := Selected(file);
      var rows := RowsAt(file.headers, at);
      TableReplaced(file, r, at, ColumnAdded(rows, at.col, ids), toRaw) &&
      r.selectedTableCellId == file.selectedTableCellId
  {
    if !Truthy(file.selectedTableCellId) then file
    else
      var at := Selected(file);
      var rows := RowsAt(file.headers, at);
      WithRowsReplaces(file, at, ColumnAdded(rows, at.col, ids), toRaw);
      WithRows(file, at, ColumnAdded(rows, at.col, ids), toRaw)
  }

  /** `removeTableColumn`: the selection is cleared. */
  function RemoveTableColumn(file: OrgFile, toRaw: ToRaw): (r: OrgFile)
    requires SelectionLocated(file)
    ensures !Truthy(file.selectedTableCellId) ==> r == file
    ensures Truthy(file.selectedTableCellId) ==>
      var at := Selected(file);
      var rows := RowsAt(file.headers, at);
      TableReplaced(file, r, at, ColumnRemoved(rows, at.col), toRaw) &&
      r.selectedTableCellId.None?
  {
    if !Truthy(file.selectedTableCellId) then file
    else
      var at := Selected(file);
      var rows := RowsAt(file.headers, at);
      WithRowsReplaces(file, at, ColumnRemoved(rows, at.col), toRaw);
      WithRows(file, at, ColumnRemoved(rows, at.col), toRaw).(selectedTableCellId := None)
  }

  /** `moveTableRowDown`. */
  function MoveTableRowDown(file: OrgFile, toRaw: ToRaw): (r: OrgFile)
    requires SelectionLocated(file)
    ensures !Truthy(file.selectedTableCellId) ==> r == file
    ensures Truthy(file.selectedTableCellId) ==>
      var at := Selected(file);
      var rows := RowsAt(file.headers, at);
      TableReplaced(file, r, at, RowMovedDown(rows, at.row), toRaw) &&
      r.selectedTableCellId == file.selectedTableCellId
  {
    if !Truthy(file.selectedTableCellId) then file
    else
      var at := Selected(file);
      var rows := RowsAt(file.headers, at);
      WithRowsReplaces(file, at, RowMovedDown(rows, at.row), toRaw);
      WithRows(file, at, RowMovedDown(rows, at.row), toRaw)
  }

  /** `moveTableRowUp`. */
  function MoveTableRowUp(file: OrgFile, toRaw: ToRaw): (r: OrgFile)
    requires SelectionLocated(file)
    ensures !Truthy(file.selectedTableCellId) ==> r == file
    ensures Truthy(file.selectedTableCellId) ==>
      var at := Selected(file);
      var rows := RowsAt(file.headers, at);
      TableReplaced(file, r, at, RowMovedUp(rows, at.row), toRaw) &&
      r.selectedTableCellId == file.selectedTableCellId
  {
    if !Truthy(file.selectedTableCellId) then file
    else
      var at := Selected(file);
      var rows := RowsAt(file.headers, at);
      WithRowsReplaces(file, at, RowMovedUp(rows, at.row), toRaw);
      WithRows(file, at, RowMovedUp(rows, at.row), toRaw)
  }

  /** The table holding the selection is rectangular enough for a left move of
      its column: every row is empty or reaches that column. */
  predicate SelectionReaches(file: OrgFile)
    requires SelectionLocated(file)
  {
    Truthy(file.selectedTableCellId) ==>
      var at := Selected(file);
      Reaches(RowsAt(file.headers, at), at.col)
  }

  /** The table holding the selection allows a right move of its column. */
  predicate SelectionMovableRight(file: OrgFile)
    requires SelectionLocated(file)
  {
    Truthy(file.selectedTableCellId) ==>
      var at := Selected(file);
      MovableRight(RowsAt(file.headers, at), at.col)
  }

  /** `moveTableColumnLeft`. */
  function MoveTableColumnLeft(file: OrgFile, toRaw: ToRaw): (r: OrgFile)
    requires SelectionLocated(file) && SelectionReaches(file)
    ensures !Truthy(file.selectedTableCellId) ==> r == file
    ensures Truthy(file.selectedTableCellId) ==>
      var at := Selected(file);
      var rows := RowsAt(file.headers, at);
      TableReplaced(file, r, at, ColumnMovedLeft(rows, at.col), toRaw) &&
      r.selectedTableCellId == file.selectedTableCellId
  {
    if !Truthy(file.selectedTableCellId) then file
    else
      var at := Selected(file);
      var rows := RowsAt(file.headers, at);
      WithRowsReplaces(file, at, ColumnMovedLeft(rows, at.col), toRaw);
      WithRows(file, at, ColumnMovedLeft(rows, at.col), toRaw)
  }

  /** `moveTableColumnRight`. */
  function MoveTableColumnRight(file: OrgFile, toRaw: ToRaw): (r: OrgFile)
    requires SelectionLocated(file) && SelectionMovableRight(file)
    ensures !Truthy(file.selectedTableCellId) ==> r == file
    ensures Truthy(file.selectedTableCellId) ==>
      var at := Selected(file);
      var rows := RowsAt(file.headers, at);
      TableReplaced(file, r, at, ColumnMovedRight(rows, at.col), toRaw) &&
      r.selectedTableCellId == file.selectedTableCellId
  {
    if !Truthy(file.selectedTableCellId) then file
    else
      var at := Selected(file);
      var rows := RowsAt(file.headers, at);
      WithRowsReplaces(file, at, ColumnMovedRight(rows, at.col), toRaw);
      WithRows(file, at, ColumnMovedRight(rows, at.col), toRaw)
  }

  /** `updateTableCellValue`: addressed by the action's cell id, with no check of
      the selection; the cell must exist (the source throws otherwise). */
  function UpdateTableCellValue(file: OrgFile, cellId: Id, newValue: string, parse: ParseCell, toRaw: ToRaw): (r: OrgFile)
    requires LocateCell(file.headers, cellId).Some?
    ensures var at := LocateCell(file.headers, cellId).value;
      var rows := RowsAt(file.headers, at);
      TableReplaced(file, r, at, CellValueSet(rows, at.row, at.col, newValue, parse), toRaw) &&
      r.selectedTableCellId == file.selectedTableCellId
  {
    var at := LocateCell(file.headers, cellId).value;
    var rows := RowsAt(file.headers, at);
    WithRowsReplaces(file, at, CellValueSet(rows, at.row, at.col, newValue, parse), toRaw);
    WithRows(file, at, CellValueSet(rows, at.row, at.col, newValue, parse), toRaw)
  }
}
