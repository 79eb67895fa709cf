/** Cell references of formula nodes (`node_to_ref` in src/numbers_parser/model.py): a range
    ("colon tract") resolves each of its four bounds as absolute, or as relative to the cell
    holding the formula, and reads the sentinel 0x7FFFFFFF for a row and 0x7FFF for a column,
    with no relative entry, as "unbounded". A single row, column or cell resolves the same way
    without sentinels. */
module NodeRefs {
  import opened Outcomes

  const NoRow: int := 0x7FFFFFFF
  const NoColumn: int := 0x7FFF

  /** An `IndexSetEntry`: where a range begins, and where it ends if that is given. */
  datatype IndexEntry = IndexEntry(rangeBegin: int, rangeEnd: Option<int>)

  /** `range_end`: the end of an entry, or its beginning when no end is given. */
  function RangeEnd(e: IndexEntry): (r: int)
    ensures e.rangeEnd.None? ==> r == e.rangeBegin
    ensures e.rangeEnd.Some? ==> r == e.rangeEnd.value
  {
    if e.rangeEnd.Some? then e.rangeEnd.value else e.rangeBegin
  }

  /** `resolve_range` (when `end` is false) and `resolve_range_end` (when it is true): an absolute
      bound is read from the first absolute entry; a relative bound with no relative entry whose
      absolute entry holds the sentinel is the sentinel; otherwise the first relative entry is
      added to the offset. Reading the first entry of an empty list raises IndexError. */
  function Resolve(end: bool, isAbsolute: bool, absolute: seq<IndexEntry>, relative: seq<IndexEntry>, offset: int, maxVal: int)
    : (r: Result<int>)
    ensures r.Err? ==> r.error == IndexError
    ensures isAbsolute ==> (r.Ok? <==> absolute != [])
    ensures isAbsolute && r.Ok? ==> r.value == if end then RangeEnd(absolute[0]) else absolute[0].rangeBegin
    ensures !isAbsolute && relative != [] ==> r == Ok(offset + if end then RangeEnd(relative[0]) else relative[0].rangeBegin)
    ensures !isAbsolute && relative == [] ==> (r.Ok? <==> absolute != [] && (if end then RangeEnd(absolute[0]) else absolute[0].rangeBegin) == maxVal)
    ensures !isAbsolute && r.Ok? && relative == [] ==> r.value == maxVal
  {
    var pick := (e: IndexEntry) => if end then RangeEnd(e) else e.rangeBegin;
    if isAbsolute then
      if absolute == [] then Err(IndexError) else Ok(pick(absolute[0]))
    else if relative == [] && absolute != [] && pick(absolute[0]) == maxVal then Ok(maxVal)
    else if relative == [] then Err(IndexError)
    else Ok(offset + pick(relative[0]))
  }

  /** A relative bound moves with the cell holding the formula; an absolute one does not. */
  lemma ResolveShifts(end: bool, isAbsolute: bool, absolute: seq<IndexEntry>, relative: seq<IndexEntry>, offset: int, maxVal: int, d: int)
    requires relative != [] || isAbsolute
    ensures var a := Resolve(end, isAbsolute, absolute, relative, offset, maxVal);
            var b := Resolve(end, isAbsolute, absolute, relative, offset + d, maxVal);
            a.Ok? == b.Ok? && (a.Ok? ==> b.value == if isAbsolute then a.value else a.value + d)
  {
  }

  /** The four `AST_sticky_bits`. */
  datatype Sticky = Sticky(beginRowAbsolute: bool, endRowAbsolute: bool, beginColumnAbsolute: bool, endColumnAbsolute: bool)

  /** An `AST_colon_tract`: the absolute and relative row and column entries. */
  datatype ColonTract = ColonTract(absoluteRow: seq<IndexEntry>, relativeRow: seq<IndexEntry>,
                                   absoluteColumn: seq<IndexEntry>, relativeColumn: seq<IndexEntry>)

  /** An `AST_row` or `AST_column`: an offset or an absolute index. An absent field reads as a
      relative 0. */
  datatype Axis = Axis(index: int, absolute: bool)

  /** The reference parts of a formula node: the colon tract, the sticky bits, the row and
      column, and the UUID of the table a cross-table reference points to. */
  datatype RefNode = RefNode(tract: Option<ColonTract>, sticky: Sticky, row: Option<Axis>, column: Option<Axis>,
                             crossTable: Option<nat>)

  /** A `CellRange` as `node_to_ref` builds it; None is an unbounded or absent bound. The target
      table falls back to the table holding the formula. */
  datatype CellRange = CellRange(rowStart: Option<int>, rowEnd: Option<int>, colStart: Option<int>, colEnd: Option<int>,
                                 rowStartAbsolute: bool, rowEndAbsolute: bool, colStartAbsolute: bool, colEndAbsolute: bool,
                                 fromTable: int, toTable: int)

  /** A resolved bound, with its sentinel read as unbounded. */
  function Bounded(v: int, sentinel: int): (r: Option<int>)
    ensures r.None? <==> v == sentinel
    ensures r.Some? ==> r.value == v
  {
    if v == sentinel then None else Some(v)
  }

  function AxisOf(a: Option<Axis>): Axis
  {
    if a.Some? then a.value else Axis(0, false)
  }

  /** `node_to_ref`. `tableOf` is `table_uuids_to_id`, the table, if any, with a given UUID. */
  function NodeToRef(table: int, row: int, col: int, node: RefNode, tableOf: nat -> Option<int>): (r: Result<CellRange>)
    ensures r.Ok? ==> r.value.fromTable == table
    ensures r.Ok? ==> r.value.toTable == if node.crossTable.Some? && tableOf(node.crossTable.value).Some? then tableOf(node.crossTable.value).value else table
    ensures node.tract.None? ==> r.Ok?
    ensures r.Err? ==> r.error == IndexError
    ensures node.tract.Some? ==>
      var t, s := node.tract.value, node.sticky;
      var rowBegin := Resolve(false, s.beginRowAbsolute, t.absoluteRow, t.relativeRow, row, NoRow);
      var rowEnd := Resolve(true, s.endRowAbsolute, t.absoluteRow, t.relativeRow, row, NoRow);
      var colBegin := Resolve(false, s.beginColumnAbsolute, t.absoluteColumn, t.relativeColumn, col, NoColumn);
      var colEnd := Resolve(true, s.endColumnAbsolute, t.absoluteColumn, t.relativeColumn, col, NoColumn);
      && (r.Ok? <==> rowBegin.Ok? && rowEnd.Ok? && colBegin.Ok? && colEnd.Ok?)
      && (r.Ok? ==>
            && r.value.rowStart == Bounded(rowBegin.value, NoRow) && r.value.rowEnd == Bounded(rowEnd.value, NoRow)
            && r.value.colStart == Bounded(colBegin.value, NoColumn) && r.value.colEnd == Bounded(colEnd.value, NoColumn)
            && r.value.rowStartAbsolute == s.beginRowAbsolute && r.value.rowEndAbsolute == s.endRowAbsolute
            && r.value.colStartAbsolute == s.beginColumnAbsolute && r.value.colEndAbsolute == s.endColumnAbsolute)
  {
    var target := if node.crossTable.Some? then tableOf(node.crossTable.value) else None;
    var toTable := if target.Some? then target.value else table;
    if node.tract.Some? then
      var t := node.tract.value;
      var s := node.sticky;
      var rowBegin :- Resolve(false, s.beginRowAbsolute, t.absoluteRow, t.relativeRow, row, NoRow);
      var rowEnd :- Resolve(true, s.endRowAbsolute, t.absoluteRow, t.relativeRow, row, NoRow);
      var colBegin :- Resolve(false, s.beginColumnAbsolute, t.absoluteColumn, t.relativeColumn, col, NoColumn);
      var colEnd :- Resolve(true, s.endColumnAbsolute, t.absoluteColumn, t.relativeColumn, col, NoColumn);
      Ok(CellRange(Bounded(rowBegin, NoRow), Bounded(rowEnd, NoRow), Bounded(colBegin, NoColumn), Bounded(colEnd, NoColumn),
                   s.beginRowAbsolute, s.endRowAbsolute, s.beginColumnAbsolute, s.endColumnAbsolute, table, toTable))
    else
      var r := AxisOf(node.row);
      var c := AxisOf(node.column);
      var rowAt := if r.absolute then r.index else row + r.index;
      var colAt := if c.absolute then c.index else col + c.index;
      if node.row.Some? && node.column.None? then
        Ok(CellRange(Some(rowAt), None, None, None, r.absolute, false, false, false, table, toTable))
      else if node.column.Some? && node.row.None? then
        Ok(CellRange(None, None, Some(colAt), None, false, false, c.absolute, false, table, toTable))
      else
        Ok(CellRange(Some(rowAt), None, Some(colAt), None, r.absolute, false, c.absolute, false, table, toTable))
  }

  /** A whole-column range: relative row bounds whose absolute entry holds the row sentinel and
      no relative entry come out unbounded, while the columns resolve relative to the cell. */
  lemma WholeColumnsUnbounded(table: int, row: int, col: int, c0: int, c1: int, tableOf: nat -> Option<int>)
    ensures var tract := ColonTract([IndexEntry(NoRow, None)], [], [], [IndexEntry(c0, Some(c1))]);
            var r := NodeToRef(table, row, col, RefNode(Some(tract), Sticky(false, false, false, false), None, None, None), tableOf);
            r.Ok? && r.value.rowStart.None? && r.value.rowEnd.None? &&
            r.value.colStart == Bounded(col + c0, NoColumn) && r.value.colEnd == Bounded(col + c1, NoColumn)
  {
  }

  /** A cell reference: each coordinate is absolute or relative to the cell holding the
      formula, with its absolute flag kept; a node with a row only or a column only leaves the
      other coordinate unset. */
  lemma CellReference(table: int, row: int, col: int, node: RefNode, tableOf: nat -> Option<int>)
    requires node.tract.None?
    ensures var r := NodeToRef(table, row, col, node, tableOf).value;
            var a := AxisOf(node.row);
            var b := AxisOf(node.column);
            && r.rowEnd.None? && r.colEnd.None?
            && (node.row.Some? || node.column.None? <==> r.rowStart.Some?)
            && (node.column.Some? || node.row.None? <==> r.colStart.Some?)
            && (r.rowStart.Some? ==> r.rowStart.value == (if a.absolute then a.index else row + a.index) && r.rowStartAbsolute == a.absolute)
            && (r.colStart.Some? ==> r.colStart.value == (if b.absolute then b.index else col + b.index) && r.colStartAbsolute == b.absolute)
  {
  }
}
