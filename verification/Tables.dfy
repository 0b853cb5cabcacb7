/**
 * Canonical tables, their structure tokens and the structure score.
 */
module Tables {
  import opened Sequences
  import opened Sorting
  import EditDistance
  import Reals

  /** Table annotations as found; a missing or ill-typed field is `None`. */
  datatype RawCell = RawCell(row: Option<int>, column: Option<int>, rowSpan: Option<int>, columnSpan: Option<int>,
                             text: Option<string>)
  datatype RawTable = RawTable(rows: Option<int>, columns: Option<int>, headers: Option<int>,
                               cells: Option<seq<Option<RawCell>>>)

  datatype Cell = Cell(row: nat, column: nat, rowSpan: nat, columnSpan: nat, text: string)
  datatype Table = Table(rows: nat, columns: nat, headers: nat, cells: seq<Cell>)

  function StrictInt(value: Option<int>, minimum: nat): (r: Option<nat>)
    ensures r.Some? <==> value.Some? && value.value >= minimum
    ensures r.Some? ==> r.value == value.value
  {
    if value.None? || value.value < minimum then None else Some(value.value)
  }

  /** The coordinates a cell covers. */
  function Rectangle(cell: Cell): set<(nat, nat)> {
    set r: nat, c: nat | cell.row <= r < cell.row + cell.rowSpan &&
      cell.column <= c < cell.column + cell.columnSpan :: (r, c)
  }

  function CanonicalCell(scalar: string -> string, rows: nat, columns: nat, raw: Option<RawCell>): (cell: Option<Cell>)
    ensures cell.Some? ==>
      && cell.value.rowSpan >= 1 && cell.value.columnSpan >= 1
      && cell.value.row + cell.value.rowSpan <= rows && cell.value.column + cell.value.columnSpan <= columns
  {
    if raw.None? then None
    else
      var row, column := StrictInt(raw.value.row, 0), StrictInt(raw.value.column, 0);
      var rowSpan, columnSpan := StrictInt(raw.value.rowSpan, 1), StrictInt(raw.value.columnSpan, 1);
      if row.None? || column.None? || rowSpan.None? || columnSpan.None? || raw.value.text.None?
         || row.value + rowSpan.value > rows || column.value + columnSpan.value > columns
      then None
      else Some(Cell(row.value, column.value, rowSpan.value, columnSpan.value, scalar(raw.value.text.value)))
  }

  /** A cell is usable when it has a text, whole coordinates and positive spans, and ends within the table. */
  lemma CellIsUsableIff(scalar: string -> string, rows: nat, columns: nat, raw: RawCell)
    ensures var cell := CanonicalCell(scalar, rows, columns, Some(raw));
      && (cell.Some? <==>
            && raw.text.Some?
            && raw.row.Some? && raw.row.value >= 0 && raw.column.Some? && raw.column.value >= 0
            && raw.rowSpan.Some? && raw.rowSpan.value >= 1 && raw.columnSpan.Some? && raw.columnSpan.value >= 1
            && raw.row.value + raw.rowSpan.value <= rows && raw.column.value + raw.columnSpan.value <= columns)
      && (cell.Some? ==>
            && cell.value.row == raw.row.value && cell.value.column == raw.column.value
            && cell.value.rowSpan == raw.rowSpan.value && cell.value.columnSpan == raw.columnSpan.value
            && cell.value.text == scalar(raw.text.value))
  {
  }

  /** Two cells cover no common coordinate exactly when one ends before the other begins, down or across. */
  lemma DisjointIffApart(a: Cell, b: Cell)
    requires a.rowSpan >= 1 && a.columnSpan >= 1 && b.rowSpan >= 1 && b.columnSpan >= 1
    ensures Rectangle(a) !! Rectangle(b) <==>
      || a.row + a.rowSpan <= b.row || b.row + b.rowSpan <= a.row
      || a.column + a.columnSpan <= b.column || b.column + b.columnSpan <= a.column
  {
    var at := (if a.row >= b.row then a.row else b.row, if a.column >= b.column then a.column else b.column);
    assert at in Rectangle(a) && at in Rectangle(b) <==>
      && a.row + a.rowSpan > b.row && b.row + b.rowSpan > a.row
      && a.column + a.columnSpan > b.column && b.column + b.columnSpan > a.column;
  }

  /** Cells are listed by row, column, spans and text. */
  predicate CellLe(a: Cell, b: Cell) {
    if a.row != b.row then a.row < b.row
    else if a.column != b.column then a.column < b.column
    else if a.rowSpan != b.rowSpan then a.rowSpan < b.rowSpan
    else if a.columnSpan != b.columnSpan then a.columnSpan < b.columnSpan
    else StringLe(a.text, b.text)
  }

  lemma CellOrder()
    ensures TotalPreorder(CellLe)
    ensures forall a, b :: CellLe(a, b) && CellLe(b, a) ==> a == b
  {
    StringOrder();
  }

  // Which annotations are accepted.

  ghost predicate HasDimensions(raw: RawTable) {
    && raw.rows.Some? && raw.rows.value >= 1
    && raw.columns.Some? && raw.columns.value >= 1
    && raw.headers.Some? && 0 <= raw.headers.value <= raw.rows.value
    && raw.cells.Some? && raw.cells.value != []
  }

  ghost predicate CellsUsable(scalar: string -> string, raw: RawTable)
    requires HasDimensions(raw)
  {
    forall k :: 0 <= k < |raw.cells.value| ==>
      CanonicalCell(scalar, raw.rows.value, raw.columns.value, raw.cells.value[k]).Some?
  }

  ghost function Cells(scalar: string -> string, raw: RawTable): (cells: seq<Cell>)
    requires HasDimensions(raw) && CellsUsable(scalar, raw)
    ensures |cells| == |raw.cells.value|
    ensures forall k :: 0 <= k < |cells| ==>
      cells[k] == CanonicalCell(scalar, raw.rows.value, raw.columns.value, raw.cells.value[k]).value
  {
    seq(|raw.cells.value|, k requires 0 <= k < |raw.cells.value| =>
      CanonicalCell(scalar, raw.rows.value, raw.columns.value, raw.cells.value[k]).value)
  }

  ghost predicate PairwiseDisjoint(cells: seq<Cell>) {
    forall i, j :: 0 <= i < j < |cells| ==> Rectangle(cells[i]) !! Rectangle(cells[j])
  }

  /** Sound dimensions, usable cells inside the table, and no coordinate covered twice. */
  ghost predicate Accepted(scalar: string -> string, raw: Option<RawTable>) {
    && raw.Some? && HasDimensions(raw.value) && CellsUsable(scalar, raw.value)
    && PairwiseDisjoint(Cells(scalar, raw.value))
  }

  ghost function Canonical(scalar: string -> string, raw: Option<RawTable>): Option<Table> {
    if Accepted(scalar, raw) then
      Some(Table(raw.value.rows.value, raw.value.columns.value, raw.value.headers.value,
                 Sort(CellLe, Cells(scalar, raw.value))))
    else None
  }

  ghost predicate Occupies(occupied: set<(nat, nat)>, cells: seq<Cell>) {
    && (forall at :: at in occupied ==> exists i :: 0 <= i < |cells| && at in Rectangle(cells[i]))
    && (forall i :: 0 <= i < |cells| ==> Rectangle(cells[i]) <= occupied)
  }

  lemma AddCell(occupied: set<(nat, nat)>, cells: seq<Cell>, cell: Cell)
    requires Occupies(occupied, cells) && PairwiseDisjoint(cells)
    ensures Rectangle(cell) * occupied == {} ==>
      Occupies(occupied + Rectangle(cell), cells + [cell]) && PairwiseDisjoint(cells + [cell])
    ensures Rectangle(cell) * occupied != {} ==> !PairwiseDisjoint(cells + [cell])
  {
    hide Rectangle;
    var longer := cells + [cell];
    assert longer[|cells|] == cell && forall i :: 0 <= i < |cells| ==> longer[i] == cells[i];
    if Rectangle(cell) * occupied == {} {
      forall i | 0 <= i < |cells| ensures Rectangle(cells[i]) !! Rectangle(cell) {
        forall at | at in Rectangle(cells[i]) ensures at !in Rectangle(cell) {
          assert at in occupied && at !in Rectangle(cell) * occupied;
        }
      }
      forall at | at in occupied + Rectangle(cell) ensures exists i :: 0 <= i < |longer| && at in Rectangle(longer[i]) {
        if at in Rectangle(cell) {
          assert at in Rectangle(longer[|cells|]);
        } else {
          var i :| 0 <= i < |cells| && at in Rectangle(cells[i]);
          assert at in Rectangle(longer[i]);
        }
      }
    } else {
      var at :| at in Rectangle(cell) * occupied;
      var i :| 0 <= i < |cells| && at in Rectangle(cells[i]);
      assert !(Rectangle(longer[i]) !! Rectangle(longer[|cells|]));
    }
  }

  lemma PrefixOfDisjoint(cells: seq<Cell>, k: nat)
    requires k <= |cells|
    ensures PairwiseDisjoint(cells) ==> PairwiseDisjoint(cells[..k])
  {
  }

  lemma OverlapRejects(scalar: string -> string, raw: RawTable, cells: seq<Cell>, cell: Cell)
    requires HasDimensions(raw) && |cells| < |raw.cells.value|
    requires forall i :: 0 <= i < |cells| ==>
      CanonicalCell(scalar, raw.rows.value, raw.columns.value, raw.cells.value[i]) == Some(cells[i])
    requires CanonicalCell(scalar, raw.rows.value, raw.columns.value, raw.cells.value[|cells|]) == Some(cell)
    requires !PairwiseDisjoint(cells + [cell])
    ensures !Accepted(scalar, Some(raw))
  {
    hide PairwiseDisjoint, CanonicalCell;
    if CellsUsable(scalar, raw) {
      var all, n := Cells(scalar, raw), |cells| + 1;
      PrefixOfDisjoint(all, n);
      assert all[..n] == cells + [cell];
    }
  }

  method CanonicalTable(scalar: string -> string, raw: Option<RawTable>) returns (table: Option<Table>)
    ensures table == Canonical(scalar, raw)
  {
    if raw.None? {
      return None;
    }
    var rows, columns := StrictInt(raw.value.rows, 1), StrictInt(raw.value.columns, 1);
    var headers := StrictInt(raw.value.headers, 0);
    if rows.None? || columns.None? || headers.None? || headers.value > rows.value
       || raw.value.cells.None? || raw.value.cells.value == [] {
      return None;
    }
    var cells := CollectCells(scalar, raw.value, rows.value, columns.value);
    if cells.None? {
      return None;
    }
    return Some(Table(rows.value, columns.value, headers.value, Sort(CellLe, cells.value)));
  }

  /** The loop over the cells; it stops at the first unusable or overlapping one. */
  method CollectCells(scalar: string -> string, raw: RawTable, rows: nat, columns: nat)
      returns (collected: Option<seq<Cell>>)
    requires HasDimensions(raw) && rows == raw.rows.value && columns == raw.columns.value
    ensures collected.Some? <==> Accepted(scalar, Some(raw))
    ensures collected.Some? ==> collected.value == Cells(scalar, raw)
  {
    hide Rectangle, PairwiseDisjoint, Occupies, CanonicalCell;
    var cells: seq<Cell> := [];
    var occupied: set<(nat, nat)> := {};
    NoCells();
    for k := 0 to |raw.cells.value|
      invariant |cells| == k
      invariant forall i :: 0 <= i < k ==> CanonicalCell(scalar, rows, columns, raw.cells.value[i]) == Some(cells[i])
      invariant PairwiseDisjoint(cells) && Occupies(occupied, cells)
    {
      var cell := CanonicalCell(scalar, rows, columns, raw.cells.value[k]);
      if cell.None? {
        return None;
      }
      var coordinates := Rectangle(cell.value);
      AddCell(occupied, cells, cell.value);
      if coordinates * occupied != {} {
        OverlapRejects(scalar, raw, cells, cell.value);
        return None;
      }
      occupied := occupied + coordinates;
      cells := cells + [cell.value];
    }
    assert CellsUsable(scalar, raw);
    assert cells == Cells(scalar, raw);
    return Some(cells);
  }

  lemma NoCells()
    ensures PairwiseDisjoint([]) && Occupies({}, [])
  {
  }

  // Structure tokens.

  datatype Token =
    | TableToken(rows: nat, columns: nat, headers: nat)
    | RowToken(header: bool)
    | CellToken(column: nat, rowSpan: nat, columnSpan: nat)
    | EndRow
    | EndTable

  function RowCells(cells: seq<Cell>, row: nat): seq<Token> {
    if cells == [] then []
    else
      var cell := cells[|cells| - 1];
      RowCells(cells[..|cells| - 1], row)
      + if cell.row == row then [CellToken(cell.column, cell.rowSpan, cell.columnSpan)] else []
  }

  function RowTokens(table: Table, row: nat): seq<Token> {
    [RowToken(row < table.headers)] + RowCells(table.cells, row) + [EndRow]
  }

  function RowsFrom(table: Table, row: nat): seq<Token>
    requires row <= table.rows
    decreases table.rows - row
  {
    if row == table.rows then [EndTable] else RowTokens(table, row) + RowsFrom(table, row + 1)
  }

  function StructureTokens(table: Table): seq<Token> {
    [TableToken(table.rows, table.columns, table.headers)] + RowsFrom(table, 0)
  }

  method TableStructureTokens(table: Table) returns (tokens: seq<Token>)
    ensures tokens == StructureTokens(table)
  {
    tokens := [TableToken(table.rows, table.columns, table.headers)];
    for row := 0 to table.rows
      invariant tokens + RowsFrom(table, row) == StructureTokens(table)
    {
      ghost var before := tokens;
      tokens := tokens + [RowToken(row < table.headers)];
      ghost var rowStart := tokens;
      for k := 0 to |table.cells|
        invariant tokens == rowStart + RowCells(table.cells[..k], row)
      {
        assert table.cells[..k + 1][..k] == table.cells[..k];
        var cell := table.cells[k];
        if cell.row == row {
          tokens := tokens + [CellToken(cell.column, cell.rowSpan, cell.columnSpan)];
        }
      }
      assert table.cells[..|table.cells|] == table.cells;
      tokens := tokens + [EndRow];
      assert tokens == before + RowTokens(table, row);
      assert before + RowTokens(table, row) + RowsFrom(table, row + 1) ==
        before + (RowTokens(table, row) + RowsFrom(table, row + 1));
    }
    tokens := tokens + [EndTable];
  }

  // Reading the tokens back.

  /** Where a cell sits and how far it reaches; the text plays no part. */
  datatype Shape = Shape(row: nat, column: nat, rowSpan: nat, columnSpan: nat)

  datatype Topology = Topology(rows: nat, columns: nat, headers: nat, shapes: seq<Shape>)

  function ShapeOf(cell: Cell): Shape {
    Shape(cell.row, cell.column, cell.rowSpan, cell.columnSpan)
  }

  function Parse(tokens: seq<Token>): Option<Topology> {
    if tokens == [] || !tokens[0].TableToken? then None
    else
      var TableToken(rows, columns, headers) := tokens[0];
      var shapes := ParseRows(tokens[1..], 0, rows, headers);
      if shapes.None? then None else Some(Topology(rows, columns, headers, shapes.value))
  }

  function ParseRows(tokens: seq<Token>, row: nat, rows: nat, headers: nat): Option<seq<Shape>>
    decreases |tokens|
  {
    if row == rows then if tokens == [EndTable] then Some([]) else None
    else if tokens == [] || tokens[0] != RowToken(row < headers) then None
    else ParseCells(tokens[1..], row, rows, headers)
  }

  function ParseCells(tokens: seq<Token>, row: nat, rows: nat, headers: nat): Option<seq<Shape>>
    decreases |tokens|
  {
    if tokens == [] then None
    else
      match tokens[0]
      case CellToken(column, rowSpan, columnSpan) =>
        var rest := ParseCells(tokens[1..], row, rows, headers);
        if rest.None? then None else Some([Shape(row, column, rowSpan, columnSpan)] + rest.value)
      case EndRow => ParseRows(tokens[1..], row + 1, rows, headers)
      case _ => None
  }

  function RowShapes(cells: seq<Cell>, row: nat): seq<Shape> {
    if cells == [] then []
    else
      var cell := cells[|cells| - 1];
      RowShapes(cells[..|cells| - 1], row) + if cell.row == row then [ShapeOf(cell)] else []
  }

  ghost function ShapesFrom(table: Table, row: nat): seq<Shape>
    requires row <= table.rows
    decreases table.rows - row
  {
    if row == table.rows then [] else RowShapes(table.cells, row) + ShapesFrom(table, row + 1)
  }

  lemma {:induction false} RowIsReadBack(cells: seq<Cell>, row: nat, rest: seq<Token>, rows: nat, headers: nat)
    requires ParseCells(rest, row, rows, headers).Some?
    ensures ParseCells(RowCells(cells, row) + rest, row, rows, headers)
         == Some(RowShapes(cells, row) + ParseCells(rest, row, rows, headers).value)
    decreases |cells|
  {
    if cells == [] {
      assert RowCells(cells, row) + rest == rest;
      var later := ParseCells(rest, row, rows, headers).value;
      assert RowShapes(cells, row) + later == later;
    } else {
      var n := |cells| - 1;
      var cell := cells[n];
      if cell.row == row {
        var token := CellToken(cell.column, cell.rowSpan, cell.columnSpan);
        assert ([token] + rest)[1..] == rest;
        RowIsReadBack(cells[..n], row, [token] + rest, rows, headers);
        assert RowCells(cells, row) + rest == RowCells(cells[..n], row) + ([token] + rest);
        var later := ParseCells(rest, row, rows, headers).value;
        assert RowShapes(cells[..n], row) + ([ShapeOf(cell)] + later) == RowShapes(cells, row) + later;
      } else {
        RowIsReadBack(cells[..n], row, rest, rows, headers);
        assert RowCells(cells, row) == RowCells(cells[..n], row);
        assert RowShapes(cells, row) == RowShapes(cells[..n], row);
      }
    }
  }

  lemma {:induction false} RowsAreReadBack(table: Table, row: nat)
    requires row <= table.rows
    ensures ParseRows(RowsFrom(table, row), row, table.rows, table.headers) == Some(ShapesFrom(table, row))
    decreases table.rows - row
  {
    if row < table.rows {
      hide *;
      RowsAreReadBack(table, row + 1);
      NextRowIsReadBack(table, row, RowsFrom(table, row + 1), ShapesFrom(table, row + 1));
      RowsUnfold(table, row);
    }
  }

  lemma RowsUnfold(table: Table, row: nat)
    requires row < table.rows
    ensures RowsFrom(table, row)
         == [RowToken(row < table.headers)] + RowCells(table.cells, row) + [EndRow] + RowsFrom(table, row + 1)
    ensures ShapesFrom(table, row) == RowShapes(table.cells, row) + ShapesFrom(table, row + 1)
  {
    hide RowCells, RowShapes;
  }

  /** One row's tokens before tokens that read back. */
  lemma NextRowIsReadBack(table: Table, row: nat, later: seq<Token>, shapes: seq<Shape>)
    requires row < table.rows && ParseRows(later, row + 1, table.rows, table.headers) == Some(shapes)
    ensures ParseRows([RowToken(row < table.headers)] + RowCells(table.cells, row) + [EndRow] + later, row, table.rows,
                      table.headers)
         == Some(RowShapes(table.cells, row) + shapes)
  {
    hide *;
    var cells, header := RowCells(table.cells, row), RowToken(row < table.headers);
    EndOfRow(later, row, table.rows, table.headers);
    RowIsReadBack(table.cells, row, [EndRow] + later, table.rows, table.headers);
    StartOfRow(cells + ([EndRow] + later), row, table.rows, table.headers);
    assert [header] + cells + [EndRow] + later == [header] + (cells + ([EndRow] + later));
  }

  lemma EndOfRow(later: seq<Token>, row: nat, rows: nat, headers: nat)
    ensures ParseCells([EndRow] + later, row, rows, headers) == ParseRows(later, row + 1, rows, headers)
  {
    assert ([EndRow] + later)[1..] == later;
    hide ParseRows;
  }

  lemma StartOfRow(rest: seq<Token>, row: nat, rows: nat, headers: nat)
    requires row < rows
    ensures ParseRows([RowToken(row < headers)] + rest, row, rows, headers) == ParseCells(rest, row, rows, headers)
  {
    assert ([RowToken(row < headers)] + rest)[1..] == rest;
    hide ParseCells;
  }

  /** Sorted cells inside the table are listed row by row. */
  ghost predicate ByRow(table: Table) {
    && (forall i, j :: 0 <= i < j < |table.cells| ==> table.cells[i].row <= table.cells[j].row)
    && (forall i :: 0 <= i < |table.cells| ==> table.cells[i].row < table.rows)
  }

  ghost function Shapes(cells: seq<Cell>): (shapes: seq<Shape>)
    ensures |shapes| == |cells|
    ensures forall k :: 0 <= k < |cells| ==> shapes[k] == ShapeOf(cells[k])
  {
    seq(|cells|, k requires 0 <= k < |cells| => ShapeOf(cells[k]))
  }

  /** The cells from some row on form a suffix, and that suffix is what the later rows hold. */
  lemma {:induction false} LaterRows(table: Table, row: nat, k: nat)
    requires row <= table.rows && k <= |table.cells| && ByRow(table)
    requires forall i :: 0 <= i < k ==> table.cells[i].row < row
    requires forall i :: k <= i < |table.cells| ==> table.cells[i].row >= row
    ensures ShapesFrom(table, row) == Shapes(table.cells[k..])
    decreases table.rows - row
  {
    if row == table.rows {
      assert k == |table.cells|;
    } else {
      var m := RowEnd(table, row, k);
      LaterRows(table, row + 1, m);
      RowIsASlice(table.cells, row, k, m);
      assert Shapes(table.cells[k..]) == Shapes(table.cells[k..m]) + Shapes(table.cells[m..]);
    }
  }

  lemma {:induction false} RowEnd(table: Table, row: nat, k: nat) returns (m: nat)
    requires k <= |table.cells| && ByRow(table)
    requires forall i :: k <= i < |table.cells| ==> table.cells[i].row >= row
    ensures k <= m <= |table.cells|
    ensures forall i :: k <= i < m ==> table.cells[i].row == row
    ensures forall i :: m <= i < |table.cells| ==> table.cells[i].row >= row + 1
    decreases |table.cells| - k
  {
    if k == |table.cells| || table.cells[k].row > row {
      m := k;
    } else {
      m := RowEnd(table, row, k + 1);
    }
  }

  lemma {:induction false} RowIsASlice(cells: seq<Cell>, row: nat, k: nat, m: nat)
    requires k <= m <= |cells|
    requires forall i :: 0 <= i < |cells| ==> (cells[i].row == row <==> k <= i < m)
    ensures RowShapes(cells, row) == Shapes(cells[k..m])
    decreases |cells|
  {
    if cells == [] {
      NoShapes(cells[k..m]);
    } else {
      var n := |cells| - 1;
      NextRowShapes(cells, row);
      hide Shapes, RowShapes;
      if m <= n {
        RowIsASlice(cells[..n], row, k, m);
        assert cells[..n][k..m] == cells[k..m];
      } else if k == m {
        RowIsASlice(cells[..n], row, n, n);
        NoShapes(cells[..n][n..n]);
        NoShapes(cells[k..m]);
      } else {
        RowIsASlice(cells[..n], row, k, n);
        assert cells[..n][k..n] == cells[k..n] && cells[k..m] == cells[k..n] + [cells[n]];
        OneMoreShape(cells[k..n], cells[n]);
      }
    }
  }

  lemma NextRowShapes(cells: seq<Cell>, row: nat)
    requires cells != []
    ensures var cell := cells[|cells| - 1];
      RowShapes(cells, row) == RowShapes(cells[..|cells| - 1], row) + if cell.row == row then [ShapeOf(cell)] else []
  {
  }

  lemma NoShapes(cells: seq<Cell>)
    requires cells == []
    ensures Shapes(cells) == []
  {
  }

  lemma OneMoreShape(cells: seq<Cell>, cell: Cell)
    ensures Shapes(cells + [cell]) == Shapes(cells) + [ShapeOf(cell)]
  {
  }

  /** The tokens determine dimensions, header rows and every cell's coordinates and spans. */
  lemma TokensReadBack(table: Table)
    requires ByRow(table)
    ensures Parse(StructureTokens(table)) ==
      Some(Topology(table.rows, table.columns, table.headers, Shapes(table.cells)))
  {
    hide ParseRows, RowsFrom, ShapesFrom;
    RowsAreReadBack(table, 0);
    LaterRows(table, 0, 0);
    assert table.cells[0..] == table.cells;
    assert StructureTokens(table)[1..] == RowsFrom(table, 0);
  }

  // What the structure score decides.

  lemma RectangleHasCorner(cell: Cell)
    requires cell.rowSpan >= 1 && cell.columnSpan >= 1
    ensures (cell.row, cell.column) in Rectangle(cell)
  {
  }

  /** Accepted cells start at different coordinates. */
  lemma CornersDiffer(cells: seq<Cell>)
    requires PairwiseDisjoint(cells)
    requires forall k :: 0 <= k < |cells| ==> cells[k].rowSpan >= 1 && cells[k].columnSpan >= 1
    ensures forall i, j :: 0 <= i < j < |cells| ==> (cells[i].row, cells[i].column) != (cells[j].row, cells[j].column)
  {
    hide Rectangle;
    forall i, j | 0 <= i < j < |cells| ensures (cells[i].row, cells[i].column) != (cells[j].row, cells[j].column) {
      RectangleHasCorner(cells[i]);
      RectangleHasCorner(cells[j]);
      assert Rectangle(cells[i]) !! Rectangle(cells[j]);
    }
  }

  /** The shapes of an accepted table, in whatever order its cells were given. */
  ghost function GivenShapes(scalar: string -> string, raw: RawTable): set<Shape>
    requires Accepted(scalar, Some(raw))
  {
    Elements(Shapes(Cells(scalar, raw)))
  }

  ghost predicate SameTopology(scalar: string -> string, left: RawTable, right: RawTable)
    requires Accepted(scalar, Some(left)) && Accepted(scalar, Some(right))
  {
    && left.rows == right.rows && left.columns == right.columns && left.headers == right.headers
    && GivenShapes(scalar, left) == GivenShapes(scalar, right)
  }

  /** Strictly ordered by starting coordinate. */
  ghost predicate StrictlyByCorner(shapes: seq<Shape>) {
    forall i, j :: 0 <= i < j < |shapes| ==>
      shapes[i].row < shapes[j].row || (shapes[i].row == shapes[j].row && shapes[i].column < shapes[j].column)
  }

  lemma {:induction false} StrictListingUnique(s: seq<Shape>, t: seq<Shape>)
    requires StrictlyByCorner(s) && StrictlyByCorner(t) && Elements(s) == Elements(t)
    ensures s == t
    decreases |s|
  {
    NoElements(s);
    NoElements(t);
    if s != [] {
      var m, n := |s| - 1, |t| - 1;
      LastAgrees(s, t);
      WithoutLast(s);
      WithoutLast(t);
      StrictListingUnique(s[..m], t[..n]);
      assert s == s[..m] + [s[m]] && t == t[..n] + [t[n]];
    }
  }

  lemma NoElements(s: seq<Shape>)
    ensures s == [] <==> Elements(s) == {}
  {
    if s != [] {
      assert s[0] in Elements(s);
    }
  }

  lemma LastAgrees(s: seq<Shape>, t: seq<Shape>)
    requires StrictlyByCorner(s) && StrictlyByCorner(t) && Elements(s) == Elements(t) && s != [] && t != []
    ensures s[|s| - 1] == t[|t| - 1]
  {
    assert s[|s| - 1] in Elements(t) && t[|t| - 1] in Elements(s);
    var i :| 0 <= i < |t| && t[i] == s[|s| - 1];
    var j :| 0 <= j < |s| && s[j] == t[|t| - 1];
  }

  lemma WithoutLast(s: seq<Shape>)
    requires StrictlyByCorner(s) && s != []
    ensures StrictlyByCorner(s[..|s| - 1])
    ensures Elements(s[..|s| - 1]) == Elements(s) - {s[|s| - 1]}
  {
    var n := |s| - 1;
    assert s == s[..n] + [s[n]];
    forall i | 0 <= i < n ensures s[i] != s[n] {
    }
  }

  /** Facts about the canonical form of an accepted table. */
  lemma CanonicalIsOrdered(scalar: string -> string, raw: RawTable)
    requires Accepted(scalar, Some(raw))
    ensures var table := Canonical(scalar, Some(raw)).value;
      && ByRow(table) && StrictlyByCorner(Shapes(table.cells))
      && Elements(Shapes(table.cells)) == GivenShapes(scalar, raw)
  {
    hide Rectangle, PairwiseDisjoint;
    var given := Cells(scalar, raw);
    CornersDiffer(given);
    SortedShapes(given, raw.rows.value);
  }

  lemma SortedShapes(given: seq<Cell>, rows: nat)
    requires forall i, j :: 0 <= i < j < |given| ==> (given[i].row, given[i].column) != (given[j].row, given[j].column)
    requires forall k :: 0 <= k < |given| ==> given[k].row < rows
    ensures var sorted := Sort(CellLe, given);
      && (forall i, j :: 0 <= i < j < |sorted| ==> sorted[i].row <= sorted[j].row)
      && (forall i :: 0 <= i < |sorted| ==> sorted[i].row < rows)
      && StrictlyByCorner(Shapes(sorted)) && Elements(Shapes(sorted)) == Elements(Shapes(given))
  {
    hide Sort;
    var sorted := Sort(CellLe, given);
    CellOrder();
    SortSorts(CellLe, given);
    SortPermutes(CellLe, given);
    CornersStayDifferent(given, sorted);
    forall i | 0 <= i < |sorted| ensures sorted[i].row < rows {
      assert sorted[i] in given;
    }
    SameShapes(given, sorted);
  }

  lemma CornersStayDifferent(given: seq<Cell>, sorted: seq<Cell>)
    requires multiset(given) == multiset(sorted)
    requires forall i, j :: 0 <= i < j < |given| ==> (given[i].row, given[i].column) != (given[j].row, given[j].column)
    ensures forall i, j :: 0 <= i < j < |sorted| ==>
      (sorted[i].row, sorted[i].column) != (sorted[j].row, sorted[j].column)
  {
    DistinctFromMultiset(given, sorted);
    forall i, j | 0 <= i < j < |sorted| ensures (sorted[i].row, sorted[i].column) != (sorted[j].row, sorted[j].column) {
      assert sorted[i] in multiset(given) && sorted[j] in multiset(given);
      var k :| 0 <= k < |given| && given[k] == sorted[i];
      var l :| 0 <= l < |given| && given[l] == sorted[j];
      assert k != l;
    }
  }

  lemma SameShapes(given: seq<Cell>, sorted: seq<Cell>)
    requires forall x :: x in sorted <==> x in given
    ensures Elements(Shapes(sorted)) == Elements(Shapes(given))
  {
    forall shape ensures shape in Elements(Shapes(sorted)) <==> shape in Elements(Shapes(given)) {
      ShapeMembers(given, shape);
      ShapeMembers(sorted, shape);
    }
  }

  lemma ShapeMembers(cells: seq<Cell>, shape: Shape)
    ensures shape in Elements(Shapes(cells)) <==> exists cell :: cell in cells && ShapeOf(cell) == shape
  {
    if shape in Elements(Shapes(cells)) {
      var k :| 0 <= k < |cells| && Shapes(cells)[k] == shape;
      assert cells[k] in cells;
    }
    if cell :| cell in cells && ShapeOf(cell) == shape {
      var k :| 0 <= k < |cells| && cells[k] == cell;
      assert Shapes(cells)[k] == shape;
    }
  }

  /** The score of one pair of canonical tables. */
  function PairScore(left: Table, right: Table): real {
    EditDistance.Similarity(StructureTokens(left), StructureTokens(right))
  }

  /** A table has two tokens, two for each row and one for each cell. */
  lemma TokenCount(table: Table)
    requires ByRow(table)
    ensures |StructureTokens(table)| == 2 + 2 * table.rows + |table.cells|
  {
    RowsCount(table, 0, 0);
  }

  lemma {:induction false} RowsCount(table: Table, row: nat, k: nat)
    requires row <= table.rows && k <= |table.cells| && ByRow(table)
    requires forall i :: 0 <= i < k ==> table.cells[i].row < row
    requires forall i :: k <= i < |table.cells| ==> table.cells[i].row >= row
    ensures |RowsFrom(table, row)| == 1 + 2 * (table.rows - row) + |table.cells| - k
    decreases table.rows - row
  {
    if row < table.rows {
      var m := RowEnd(table, row, k);
      RowsCount(table, row + 1, m);
      RowCount(table.cells, row, k, m);
      hide ByRow, RowCells;
    } else {
      RowWithin(table, k);
    }
  }

  lemma RowWithin(table: Table, k: nat)
    requires ByRow(table)
    ensures k < |table.cells| ==> table.cells[k].row < table.rows
  {
  }

  lemma {:induction false} RowCount(cells: seq<Cell>, row: nat, k: nat, m: nat)
    requires k <= m <= |cells|
    requires forall i :: 0 <= i < |cells| ==> (cells[i].row == row <==> k <= i < m)
    ensures |RowCells(cells, row)| == m - k
    decreases |cells|
  {
    if cells != [] {
      var n := |cells| - 1;
      if m <= n {
        RowCount(cells[..n], row, k, m);
      } else if k < m {
        RowCount(cells[..n], row, k, n);
      } else {
        RowCount(cells[..n], row, n, n);
      }
    }
  }

  /** The score of a pair is one less the edits between the token lists, as a share of the longer list. */
  lemma PairScoreCountsEdits(left: Table, right: Table)
    ensures var x, y := StructureTokens(left), StructureTokens(right);
      var longest := if |x| >= |y| then |x| else |y|;
      longest > 0 && Reals.PartOf(1.0 - PairScore(left, right), longest) == EditDistance.Distance(x, y) as real
  {
    var x, y := StructureTokens(left), StructureTokens(right);
    hide RowsFrom, EditDistance.Similarity, EditDistance.Distance, Reals.PartOf;
    EditDistance.SimilarityScale(x, y, if |x| >= |y| then |x| else |y|);
  }

  /** A pair of accepted tables scores one exactly when the topologies agree, however the cells were listed. */
  lemma PerfectScoreMeansSameTopology(scalar: string -> string, left: RawTable, right: RawTable)
    requires Accepted(scalar, Some(left)) && Accepted(scalar, Some(right))
    ensures var score := PairScore(Canonical(scalar, Some(left)).value, Canonical(scalar, Some(right)).value);
      0.0 <= score <= 1.0 && (score == 1.0 <==> SameTopology(scalar, left, right))
  {
    hide Sort, StructureTokens, Rectangle, PairwiseDisjoint, EditDistance.Similarity, ByRow, StrictlyByCorner, Shapes,
      Cells;
    var l, r := Canonical(scalar, Some(left)).value, Canonical(scalar, Some(right)).value;
    EditDistance.SimilarityMeaning(StructureTokens(l), StructureTokens(r));
    CanonicalIsOrdered(scalar, left);
    CanonicalIsOrdered(scalar, right);
    TokensReadBack(l);
    TokensReadBack(r);
    if SameTopology(scalar, left, right) {
      StrictListingUnique(Shapes(l.cells), Shapes(r.cells));
      TokensFromTopology(l, r);
    }
  }

  lemma TokensFromTopology(l: Table, r: Table)
    requires l.rows == r.rows && l.headers == r.headers && l.columns == r.columns && Shapes(l.cells) == Shapes(r.cells)
    ensures StructureTokens(l) == StructureTokens(r)
  {
    SameRows(l, r, 0);
  }

  lemma {:induction false} SameRows(l: Table, r: Table, row: nat)
    requires l.rows == r.rows && l.headers == r.headers && Shapes(l.cells) == Shapes(r.cells) && row <= l.rows
    ensures RowsFrom(l, row) == RowsFrom(r, row)
    decreases l.rows - row
  {
    if row < l.rows {
      SameRow(l.cells, r.cells, row);
      SameRows(l, r, row + 1);
    }
  }

  lemma {:induction false} SameRow(l: seq<Cell>, r: seq<Cell>, row: nat)
    requires Shapes(l) == Shapes(r)
    ensures RowCells(l, row) == RowCells(r, row)
  {
    assert |l| == |Shapes(l)| == |r|;
    if l != [] {
      var n := |l| - 1;
      assert Shapes(l[..n]) == Shapes(l)[..n] && Shapes(r[..n]) == Shapes(r)[..n];
      assert ShapeOf(l[n]) == Shapes(l)[n] == ShapeOf(r[n]);
      SameRow(l[..n], r[..n], row);
    }
  }

  // The average over the tables of a document.

  ghost predicate AllAccepted(scalar: string -> string, raws: seq<Option<RawTable>>) {
    forall k :: 0 <= k < |raws| ==> Accepted(scalar, raws[k])
  }

  /** Every reference table has an accepted counterpart of the same topology, and there are no extra tables. */
  ghost predicate AllTopologiesMatch(scalar: string -> string, reference: seq<Option<RawTable>>,
                                     candidate: seq<Option<RawTable>>)
    requires AllAccepted(scalar, reference)
  {
    |candidate| == |reference|
    && forall k :: 0 <= k < |reference| ==> PairMatches(scalar, reference[k], candidate[k])
  }

  ghost predicate PairMatches(scalar: string -> string, reference: Option<RawTable>, candidate: Option<RawTable>)
    requires Accepted(scalar, reference)
  {
    Accepted(scalar, candidate) && SameTopology(scalar, reference.value, candidate.value)
  }

  method CanonicalTables(scalar: string -> string, raws: seq<Option<RawTable>>) returns (tables: seq<Option<Table>>)
    ensures |tables| == |raws| && forall k :: 0 <= k < |raws| ==> tables[k] == Canonical(scalar, raws[k])
  {
    hide Canonical;
    tables := [];
    for k := 0 to |raws|
      invariant |tables| == k && forall i :: 0 <= i < k ==> tables[i] == Canonical(scalar, raws[i])
    {
      var table := CanonicalTable(scalar, raws[k]);
      tables := tables + [table];
    }
  }

  /** What one position of the longer list contributes to the total. */
  ghost function Contribution(scalar: string -> string, reference: seq<Option<RawTable>>,
                              candidate: seq<Option<RawTable>>, k: nat): real
    requires AllAccepted(scalar, reference)
  {
    if k < |reference| && k < |candidate| && Accepted(scalar, candidate[k])
    then PairScore(Canonical(scalar, reference[k]).value, Canonical(scalar, candidate[k]).value)
    else 0.0
  }

  ghost function TotalScore(scalar: string -> string, reference: seq<Option<RawTable>>,
                            candidate: seq<Option<RawTable>>, k: nat): real
    requires AllAccepted(scalar, reference)
  {
    if k == 0 then 0.0
    else TotalScore(scalar, reference, candidate, k - 1) + Contribution(scalar, reference, candidate, k - 1)
  }

  lemma ContributionBounds(scalar: string -> string, reference: seq<Option<RawTable>>,
                           candidate: seq<Option<RawTable>>, k: nat)
    requires AllAccepted(scalar, reference)
    ensures 0.0 <= Contribution(scalar, reference, candidate, k) <= 1.0
    ensures Contribution(scalar, reference, candidate, k) == 1.0 <==>
      k < |reference| && k < |candidate| && PairMatches(scalar, reference[k], candidate[k])
  {
    hide PairScore, SameTopology;
    if k < |reference| && k < |candidate| && Accepted(scalar, candidate[k]) {
      PerfectScoreMeansSameTopology(scalar, reference[k].value, candidate[k].value);
    }
  }

  method TableStructureSimilarity(scalar: string -> string, reference: seq<Option<RawTable>>,
                                  candidate: seq<Option<RawTable>>)
    returns (score: Option<real>)
    ensures score.None? <==> reference == [] || !AllAccepted(scalar, reference)
    ensures score.Some? ==>
      var count := EditDistance.Max(|reference|, |candidate|);
      score.value == TotalScore(scalar, reference, candidate, count) / count as real
    ensures score.Some? ==>
      0.0 <= score.value <= 1.0 && (score.value == 1.0 <==> AllTopologiesMatch(scalar, reference, candidate))
  {
    var expected := CanonicalTables(scalar, reference);
    if expected == [] || exists k :: 0 <= k < |expected| && expected[k].None? {
      return None;
    }
    assert AllAccepted(scalar, reference);
    var actual := CanonicalTables(scalar, candidate);
    hide Canonical, Accepted, PairScore, PairMatches, AllAccepted;
    var count := EditDistance.Max(|expected|, |actual|);
    var total := 0.0;
    for k := 0 to count
      invariant total == TotalScore(scalar, reference, candidate, k)
    {
      ContributionIs(scalar, reference, candidate, k);
      hide Contribution;
      if k < |expected| && k < |actual| && actual[k].Some? {
        total := total + PairScore(expected[k].value, actual[k].value);
      }
    }
    ScoreMeaning(scalar, reference, candidate, count);
    return Some(total / count as real);
  }

  lemma ScoreMeaning(scalar: string -> string, reference: seq<Option<RawTable>>, candidate: seq<Option<RawTable>>,
                     count: nat)
    requires AllAccepted(scalar, reference) && reference != [] && count == EditDistance.Max(|reference|, |candidate|)
    ensures count > 0
    ensures var score := TotalScore(scalar, reference, candidate, count) / count as real;
      0.0 <= score <= 1.0 && (score == 1.0 <==> AllTopologiesMatch(scalar, reference, candidate))
  {
    hide AllAccepted, TotalScore, AllTopologiesMatch;
    ScoreBounds(scalar, reference, candidate, count);
    AllPerfect(scalar, reference, candidate, count);
    Reals.RatioBounds(TotalScore(scalar, reference, candidate, count), count as real);
  }

  /** A total is at most its number of positions, and only perfect contributions reach that. */
  lemma {:induction false} ScoreBounds(scalar: string -> string, reference: seq<Option<RawTable>>,
                                       candidate: seq<Option<RawTable>>, k: nat)
    requires AllAccepted(scalar, reference)
    ensures 0.0 <= TotalScore(scalar, reference, candidate, k) <= k as real
    ensures TotalScore(scalar, reference, candidate, k) == k as real <==>
      forall i :: 0 <= i < k ==> Contribution(scalar, reference, candidate, i) == 1.0
  {
    hide Contribution, AllAccepted;
    if k > 0 {
      ScoreBounds(scalar, reference, candidate, k - 1);
      ContributionBounds(scalar, reference, candidate, k - 1);
    }
  }

  lemma ContributionIs(scalar: string -> string, reference: seq<Option<RawTable>>, candidate: seq<Option<RawTable>>,
                       k: nat)
    requires AllAccepted(scalar, reference)
    ensures k < |reference| ==> Canonical(scalar, reference[k]).Some?
    ensures Contribution(scalar, reference, candidate, k) ==
      if k < |reference| && k < |candidate| && Canonical(scalar, candidate[k]).Some?
      then PairScore(Canonical(scalar, reference[k]).value, Canonical(scalar, candidate[k]).value) else 0.0
  {
    hide PairScore, Accepted;
  }

  lemma AllPerfect(scalar: string -> string, reference: seq<Option<RawTable>>, candidate: seq<Option<RawTable>>,
                   count: nat)
    requires AllAccepted(scalar, reference) && reference != [] && count == EditDistance.Max(|reference|, |candidate|)
    ensures (forall i :: 0 <= i < count ==> Contribution(scalar, reference, candidate, i) == 1.0)
        <==> AllTopologiesMatch(scalar, reference, candidate)
  {
    hide Contribution, PairMatches;
    forall i | 0 <= i < count
      ensures Contribution(scalar, reference, candidate, i) == 1.0 <==>
        i < |reference| && i < |candidate| && PairMatches(scalar, reference[i], candidate[i])
    {
      ContributionBounds(scalar, reference, candidate, i);
    }
    if |reference| != |candidate| {
      assert Contribution(scalar, reference, candidate, count - 1) != 1.0;
    }
  }

  // The order in which the cells are given plays no part.

  lemma {:induction false} CellsPermute(scalar: string -> string, rows: nat, columns: nat,
                                        given: seq<Option<RawCell>>, other: seq<Option<RawCell>>,
                                        cells: seq<Cell>, others: seq<Cell>)
    requires |cells| == |given| && |others| == |other|
    requires forall k :: 0 <= k < |given| ==> CanonicalCell(scalar, rows, columns, given[k]) == Some(cells[k])
    requires forall k :: 0 <= k < |other| ==> CanonicalCell(scalar, rows, columns, other[k]) == Some(others[k])
    requires multiset(given) == multiset(other)
    ensures multiset(cells) == multiset(others)
    decreases |given|
  {
    hide CanonicalCell;
    assert |given| == |multiset(given)| == |multiset(other)| == |other|;
    if given != [] {
      var n := |given| - 1;
      assert given[n] in multiset(other);
      var k :| 0 <= k < |other| && other[k] == given[n];
      MultisetWithout(given, n);
      MultisetWithout(other, k);
      MultisetWithout(cells, n);
      MultisetWithout(others, k);
      CellsPermute(scalar, rows, columns, given[..n] + given[n + 1..], other[..k] + other[k + 1..],
                   cells[..n] + cells[n + 1..], others[..k] + others[k + 1..]);
      assert multiset(cells) == multiset(cells[..n] + cells[n + 1..]) + multiset{cells[n]};
      assert multiset(others) == multiset(others[..k] + others[k + 1..]) + multiset{others[k]};
    }
  }

  lemma DisjointCellsDiffer(cells: seq<Cell>)
    requires PairwiseDisjoint(cells) && forall k :: 0 <= k < |cells| ==>
      cells[k].rowSpan >= 1 && cells[k].columnSpan >= 1
    ensures Distinct(cells)
  {
    CornersDiffer(cells);
  }

  lemma DisjointnessPermutes(cells: seq<Cell>, others: seq<Cell>)
    requires multiset(cells) == multiset(others) && PairwiseDisjoint(cells)
    requires forall k :: 0 <= k < |cells| ==> cells[k].rowSpan >= 1 && cells[k].columnSpan >= 1
    ensures PairwiseDisjoint(others)
  {
    hide Rectangle;
    DisjointCellsDiffer(cells);
    DistinctFromMultiset(cells, others);
    forall i, j | 0 <= i < j < |others| ensures Rectangle(others[i]) !! Rectangle(others[j]) {
      assert others[i] in multiset(cells) && others[j] in multiset(cells);
      var k :| 0 <= k < |cells| && cells[k] == others[i];
      var l :| 0 <= l < |cells| && cells[l] == others[j];
      assert k < l || l < k;
    }
  }

  ghost predicate Reordered(raw: RawTable, other: RawTable) {
    && raw.rows == other.rows && raw.columns == other.columns && raw.headers == other.headers
    && raw.cells.Some? && other.cells.Some? && multiset(raw.cells.value) == multiset(other.cells.value)
  }

  lemma UsablePermutes(scalar: string -> string, raw: RawTable, other: RawTable)
    requires Reordered(raw, other) && HasDimensions(raw) && CellsUsable(scalar, raw)
    ensures HasDimensions(other) && CellsUsable(scalar, other)
  {
    hide CanonicalCell;
    assert |raw.cells.value| == |multiset(raw.cells.value)| == |multiset(other.cells.value)| == |other.cells.value|;
    forall k | 0 <= k < |other.cells.value|
      ensures CanonicalCell(scalar, other.rows.value, other.columns.value, other.cells.value[k]).Some?
    {
      assert other.cells.value[k] in multiset(raw.cells.value);
      var i :| 0 <= i < |raw.cells.value| && raw.cells.value[i] == other.cells.value[k];
    }
  }

  lemma AcceptancePermutes(scalar: string -> string, raw: RawTable, other: RawTable)
    requires Reordered(raw, other) && Accepted(scalar, Some(raw))
    ensures Accepted(scalar, Some(other))
    ensures multiset(Cells(scalar, raw)) == multiset(Cells(scalar, other))
  {
    hide Rectangle, PairwiseDisjoint;
    UsablePermutes(scalar, raw, other);
    CellsPermute(scalar, raw.rows.value, raw.columns.value, raw.cells.value, other.cells.value,
                 Cells(scalar, raw), Cells(scalar, other));
    DisjointnessPermutes(Cells(scalar, raw), Cells(scalar, other));
  }

  /** Listing the cells in another order gives the same canonical table, or none either way. */
  lemma CellOrderIsIrrelevant(scalar: string -> string, raw: RawTable, other: RawTable)
    requires Reordered(raw, other)
    ensures Canonical(scalar, Some(raw)) == Canonical(scalar, Some(other))
  {
    hide Accepted, Cells, Sort;
    if Accepted(scalar, Some(raw)) {
      AcceptancePermutes(scalar, raw, other);
      SameSortedCells(scalar, raw, other);
    } else if Accepted(scalar, Some(other)) {
      AcceptancePermutes(scalar, other, raw);
    }
  }

  lemma SameSortedCells(scalar: string -> string, raw: RawTable, other: RawTable)
    requires Reordered(raw, other) && Accepted(scalar, Some(raw)) && Accepted(scalar, Some(other))
    requires multiset(Cells(scalar, raw)) == multiset(Cells(scalar, other))
    ensures Sort(CellLe, Cells(scalar, raw)) == Sort(CellLe, Cells(scalar, other))
  {
    var given, others := Cells(scalar, raw), Cells(scalar, other);
    hide *;
    CellOrder();
    SortSorts(CellLe, given);
    SortSorts(CellLe, others);
    SortPermutes(CellLe, given);
    SortPermutes(CellLe, others);
    CellsAntisymmetric(Sort(CellLe, given));
    SortedUnique(CellLe, Sort(CellLe, given), Sort(CellLe, others));
  }

  lemma CellsAntisymmetric(cells: seq<Cell>)
    ensures AntisymmetricOn(CellLe, cells)
  {
    CellOrder();
  }
}
