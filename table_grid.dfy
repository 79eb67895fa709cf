/** The cell grid of a table (`Table` in src/numbers_parser/document.py): a list of rows of
    cells in which every cell's `row` and `col` are its position. Rows and columns are inserted
    and deleted with renumbering, the grid grows when a cell beyond it is written, and cell
    ranges are merged through the table's `MergeCells` register. */
module TableGrid {
  import opened Outcomes
  import Text
  import A1Notation
  import Merges

  const MaxRowCount: int := 1000000
  const MaxColCount: int := 1000
  const MaxHeaderCount: int := 5

  /** An empty cell, a cell hidden by a merge, or a cell holding a value (the values
      themselves are not part of this model). */
  datatype Kind = EmptyKind | MergedKind | ValueKind(value: string)

  /** A cell: its position, its kind, and the register entry `_set_merge` last gave it, from
      which `Merges.SetMerge` derives `is_merged`, `size`, `rect` and `merge_range`. */
  datatype Cell = Cell(row: int, col: int, kind: Kind, merge: Option<Merges.MergeRef>)

  type Refs = map<(int, int), Merges.MergeRef>

  function Placed(cell: Cell, r: int, c: int): Cell
  {
    cell.(row := r, col := c)
  }

  /** `Cell._empty_cell`: an empty cell that has taken what the register holds for it. */
  function EmptyCell(refs: Refs, r: int, c: int): Cell
  {
    Cell(r, c, EmptyKind, Merges.Lookup(refs, (r, c)))
  }

  /** `width` empty cells of row `r` from column `first` on. */
  function EmptyCells(refs: Refs, r: int, first: int, width: nat): (cells: seq<Cell>)
    ensures |cells| == width
    ensures forall c :: 0 <= c < width ==> cells[c] == EmptyCell(refs, r, first + c)
  {
    seq(width, c => EmptyCell(refs, r, first + c))
  }

  /** Every cell of the row knows its position. */
  predicate RowAt(cells: seq<Cell>, r: int)
  {
    forall c :: 0 <= c < |cells| ==> cells[c].row == r && cells[c].col == c
  }

  /** The row with each cell told its position: the renumbering loops. */
  function Renumbered(cells: seq<Cell>, r: int): (out: seq<Cell>)
    ensures |out| == |cells| && RowAt(out, r)
    ensures forall c :: 0 <= c < |cells| ==> out[c] == Placed(cells[c], r, c)
  {
    seq(|cells|, c requires 0 <= c < |cells| => Placed(cells[c], r, c))
  }

  lemma RenumberedInPlace(cells: seq<Cell>, r: int)
    requires RowAt(cells, r)
    ensures Renumbered(cells, r) == cells
  {
  }

  /** `for col in range(...): cell.row = row; cell.col = col` */
  method Renumber(cells: seq<Cell>, r: int) returns (out: seq<Cell>)
    ensures out == Renumbered(cells, r)
  {
    out := cells;
    var c := 0;
    while c < |out|
      invariant 0 <= c <= |out| == |cells|
      invariant forall k :: 0 <= k < c ==> out[k] == Placed(cells[k], r, k)
      invariant forall k :: c <= k < |out| ==> out[k] == cells[k]
    {
      out := out[c := Placed(out[c], r, c)];
      c := c + 1;
    }
  }

  /** `xs[start:start] = ys` */
  function Inserted<T>(xs: seq<T>, start: nat, ys: seq<T>): (r: seq<T>)
    requires start <= |xs|
    ensures |r| == |xs| + |ys|
    ensures forall k :: 0 <= k < start ==> r[k] == xs[k]
    ensures forall k :: 0 <= k < |ys| ==> r[start + k] == ys[k]
    ensures forall k :: start + |ys| <= k < |r| ==> r[k] == xs[k - |ys|]
  {
    xs[..start] + ys + xs[start..]
  }

  /** How many of `n` entries `del xs[start:start + count]` keeps, or `del xs[-count:]` when
      there is no start. The entries and the count stay in step exactly when the block lies
      inside the entries; without a start, a count of zero removes every entry, since `-0` is
      `0`, and a count beyond the entries removes them all too. */
  function DeletedLength(n: nat, count: nat, start: Option<int>): (kept: nat)
    requires start.Some? ==> 0 <= start.value < n
    ensures start.Some? ==> (kept == n - count <==> start.value + count <= n)
    ensures start.None? ==> (kept == n - count <==> (1 <= count <= n || count == n == 0))
    ensures start.None? && count == 0 ==> kept == 0
  {
    if start.Some? then (if start.value + count <= n then n - count else start.value)
    else if count == 0 || count >= n then 0
    else n - count
  }

  /** `del xs[start:start + count]`, or `del xs[-count:]` when there is no start. */
  function Deleted<T>(xs: seq<T>, count: nat, start: Option<int>): (r: seq<T>)
    requires start.Some? ==> 0 <= start.value < |xs|
    ensures |r| == DeletedLength(|xs|, count, start)
    ensures forall k :: 0 <= k < |r| && (start.None? || k < start.value) ==> r[k] == xs[k]
    ensures start.Some? ==> forall k :: start.value <= k < |r| ==> r[k] == xs[k + count]
  {
    if start.Some? then
      var s := start.value;
      xs[..s] + xs[if s + count <= |xs| then s + count else |xs|..]
    else xs[..DeletedLength(|xs|, count, start)]
  }

  /** The rows of the grid all have `width` cells. */
  predicate Shaped(data: seq<seq<Cell>>, width: int)
  {
    forall r :: 0 <= r < |data| ==> |data[r]| == width
  }

  /** Every cell of the grid knows its position. */
  predicate Positioned(data: seq<seq<Cell>>)
  {
    forall r :: 0 <= r < |data| ==> RowAt(data[r], r)
  }

  /** `xl_range` of an anchored cell, spanning its merge size. */
  function AnchorRange(r: int, c: int, size: Merges.MergeRef): Result<string>
    requires size.Anchor?
  {
    A1Notation.Range(r, c, r + size.rows - 1, c + size.cols - 1)
  }

  /** The range of each anchor, in order, or the first IndexError. */
  function RangesOf(anchors: seq<(int, int, Merges.MergeRef)>): (r: Result<seq<string>>)
    requires forall e :: e in anchors ==> e.2.Anchor?
    ensures r.Err? ==> r.error == IndexError
    ensures r.Err? <==> exists e :: e in anchors && AnchorRange(e.0, e.1, e.2).Err?
    ensures r.Ok? ==> |r.value| == |anchors| &&
                      forall k :: 0 <= k < |anchors| ==> AnchorRange(anchors[k].0, anchors[k].1, anchors[k].2) == Ok(r.value[k])
  {
    if anchors == [] then Ok([])
    else
      var e := anchors[0];
      var first :- AnchorRange(e.0, e.1, e.2);
      var rest :- RangesOf(anchors[1..]);
      assert forall x :: x in anchors <==> x == e || x in anchors[1..];
      Ok([first] + rest)
  }

  /** Each string sorts strictly before the next. */
  predicate Sorted(xs: seq<string>)
  {
    forall k :: 0 <= k < |xs| - 1 ==> Text.StrLess(xs[k], xs[k + 1])
  }

  /** Adds `x` to a sorted list of distinct strings. */
  function Insert(xs: seq<string>, x: string): (r: seq<string>)
    requires Sorted(xs)
    ensures Sorted(r)
    ensures forall s :: s in r <==> s in xs || s == x
    ensures r != [] && (xs == [] || r[0] == xs[0] || r[0] == x)
  {
    if xs == [] then [x]
    else if x == xs[0] then xs
    else if Text.StrLess(x, xs[0]) then [x] + xs
    else
      Text.StrLessTotal(x, xs[0]);
      var rest := Insert(xs[1..], x);
      assert forall s :: s in xs <==> s == xs[0] || s in xs[1..];
      [xs[0]] + rest
  }

  /** `sorted(set(xs))` */
  function SortedSet(xs: seq<string>): (r: seq<string>)
    ensures Sorted(r)
    ensures forall s :: s in r <==> s in xs
  {
    if xs == [] then []
    else
      var front := SortedSet(xs[..|xs| - 1]);
      assert forall s :: s in xs <==> s in xs[..|xs| - 1] || s == xs[|xs| - 1];
      Insert(front, xs[|xs| - 1])
  }

  /** The anchored cells of the grid in row-major order, with their sizes. */
  function Anchors(data: seq<seq<Cell>>): (r: seq<(int, int, Merges.MergeRef)>)
    ensures forall e :: e in r ==> 0 <= e.0 < |data| && 0 <= e.1 < |data[e.0]| &&
                                   data[e.0][e.1].merge == Some(e.2) && e.2.Anchor?
    ensures forall i, c :: (0 <= i < |data| && 0 <= c < |data[i]| && data[i][c].merge.Some? &&
                            data[i][c].merge.value.Anchor?) ==> (i, c, data[i][c].merge.value) in r
  {
    if data == [] then []
    else
      var front := Anchors(data[..|data| - 1]);
      var last := RowAnchors(data[|data| - 1], |data| - 1, |data[|data| - 1]|);
      front + last
  }

  function RowAnchors(cells: seq<Cell>, r: int, n: nat): (a: seq<(int, int, Merges.MergeRef)>)
    requires n <= |cells|
    ensures forall e :: e in a ==> e.0 == r && 0 <= e.1 < n && cells[e.1].merge == Some(e.2) && e.2.Anchor?
    ensures forall c :: 0 <= c < n && cells[c].merge.Some? && cells[c].merge.value.Anchor? ==>
                        (r, c, cells[c].merge.value) in a
  {
    if n == 0 then []
    else
      var front := RowAnchors(cells, r, n - 1);
      var m := cells[n - 1].merge;
      if m.Some? && m.value.Anchor? then front + [(r, n - 1, m.value)] else front
  }

  /** The cells a merge hides besides its anchor, as `merge_cells` visits them: from the row
      `firstRow` and the column `firstCol` on. */
  predicate Block(k: (int, int), rect: Merges.Rect, firstRow: int, firstCol: int)
  {
    firstRow <= k.0 <= rect.rowEnd && firstCol <= k.1 <= rect.colEnd && k != Merges.Origin(rect)
  }

  /** Cells of the block the row-major loop has passed before (row, col). */
  predicate Swept(k: (int, int), rect: Merges.Rect, firstRow: int, firstCol: int, row: int, col: int)
  {
    Block(k, rect, firstRow, firstCol) && (k.0 < row || (k.0 == row && k.1 < col))
  }

  /** A cell hidden by a merge, taking what the register held for it when it was made. */
  function MergedCell(refs: Refs, r: int, c: int): Cell
  {
    Cell(r, c, MergedKind, Merges.Lookup(refs, (r, c)))
  }

  /** Where the covering loops stand before (row, col): the cells passed so far are
      referenced in the register, hidden in the grid, and lie inside the grid. */
  ghost predicate Sweep(refs: Refs, before: Refs, grid: seq<seq<Cell>>, data: seq<seq<Cell>>, rect: Merges.Rect,
                  firstRow: int, firstCol: int, row: int, col: int, height: nat, width: nat)
    requires |grid| == |data| == height && Shaped(grid, width) && Shaped(data, width)
  {
    && (forall k :: Merges.Lookup(refs, k) ==
         (if Swept(k, rect, firstRow, firstCol, row, col) then Some(Merges.Reference(rect)) else Merges.Lookup(before, k)))
    && (forall i, c :: 0 <= i < height && 0 <= c < width ==>
         grid[i][c] == (if Swept((i, c), rect, firstRow, firstCol, row, col) then MergedCell(before, i, c) else data[i][c]))
    && (forall k :: Swept(k, rect, firstRow, firstCol, row, col) ==> k.0 < height && k.1 < width)
  }

  /** The inner loop of the covering loops, over one row. */
  method CoverRow(m: Merges.MergeCells, grid: seq<seq<Cell>>, ghost data: seq<seq<Cell>>, ghost before: Refs,
                  height: nat, width: nat, rect: Merges.Rect, firstRow: nat, firstCol: nat, row: nat)
    returns (out: seq<seq<Cell>>, failed: bool)
    requires m.Valid() && firstRow <= row <= rect.rowEnd
    requires |grid| == |data| == height && Shaped(grid, width) && Shaped(data, width) && Positioned(data)
    requires Sweep(m.refs, before, grid, data, rect, firstRow, firstCol, row, firstCol, height, width)
    modifies m
    ensures m.Valid() && |out| == height && Shaped(out, width) && Positioned(out)
    ensures !failed ==> Sweep(m.refs, before, out, data, rect, firstRow, firstCol, row + 1, firstCol, height, width)
    ensures failed ==> exists k :: Block(k, rect, firstRow, firstCol) && (k.0 >= height || k.1 >= width)
  {
    out := grid;
    failed := false;
    var col := firstCol;
    while col <= rect.colEnd
      invariant m.Valid()
      invariant firstCol <= col && (col <= rect.colEnd + 1 || col == firstCol)
      invariant |out| == height && Shaped(out, width)
      invariant Sweep(m.refs, before, out, data, rect, firstRow, firstCol, row, col, height, width)
    {
      if (row, col) != Merges.Origin(rect) {
        if row >= height || col >= width {
          assert Block((row, col), rect, firstRow, firstCol);
          SweepPositioned(m.refs, before, out, data, rect, firstRow, firstCol, row, col, height, width);
          return out, true;
        }
        var cell := MergedCell(m.refs, row, col);
        ghost var prev := m.refs;
        ghost var was := out;
        out := out[row := out[row][col := cell]];
        m.AddReference(row, col, rect);
        CoverStep(before, prev, m.refs, was, out, data, rect, firstRow, firstCol, row, col, height, width);
      } else {
        SweepOrigin(m.refs, before, out, data, rect, firstRow, firstCol, row, col, height, width);
      }
      col := col + 1;
    }
    SweepRowEnd(m.refs, before, out, data, rect, firstRow, firstCol, row, col, height, width);
    SweepPositioned(m.refs, before, out, data, rect, firstRow, firstCol, row, col, height, width);
  }

  /** Every reference in the register spans a range `xl_range` can name, so `_set_merge`
      cannot fail on it. */
  predicate Nameable(refs: Refs)
  {
    forall k :: k in refs && refs[k].Reference? ==>
      refs[k].rect.rowStart >= 0 && refs[k].rect.colStart >= 0 && refs[k].rect.rowEnd >= 0 && refs[k].rect.colEnd >= 0
  }

  /** `_set_merge` succeeds on every entry of a nameable register. */
  lemma NameableSetMerge(refs: Refs, row: int, col: int)
    requires Nameable(refs)
    ensures Merges.SetMerge(row, col, Merges.Lookup(refs, (row, col))).Ok?
  {
  }

  /** Covering keeps the register nameable, once the anchor is added on a nonnegative origin. */
  lemma NameableAfterCover(before: Refs, now: Refs, rect: Merges.Rect, firstRow: int, firstCol: int)
    requires Nameable(before) && rect.rowStart >= 0 && rect.colStart >= 0 && firstRow >= 0 && firstCol >= 0
    requires var anchored := before[Merges.Origin(rect) := Merges.AnchorOf(rect)];
             forall k :: Merges.Lookup(now, k) ==
               if Block(k, rect, firstRow, firstCol) then Some(Merges.Reference(rect)) else Merges.Lookup(anchored, k)
    ensures Nameable(now)
  {
    var anchored := before[Merges.Origin(rect) := Merges.AnchorOf(rect)];
    forall k | k in now && now[k].Reference?
      ensures now[k].rect.rowStart >= 0 && now[k].rect.colStart >= 0 && now[k].rect.rowEnd >= 0 && now[k].rect.colEnd >= 0
    {
      assert Merges.Lookup(now, k) == Some(now[k]);
      if !Block(k, rect, firstRow, firstCol) {
        assert Merges.Lookup(anchored, k) == Some(now[k]);
        assert k in before && before[k] == now[k];
      }
    }
  }

  /** A row of cells after `_set_merge` has given each what the register holds for it. */
  function WithMerges(refs: Refs, cells: seq<Cell>, row: int): (out: seq<Cell>)
    ensures |out| == |cells|
    ensures forall c :: 0 <= c < |cells| ==> out[c] == cells[c].(merge := Merges.Lookup(refs, (row, c)))
  {
    seq(|cells|, c requires 0 <= c < |cells| => cells[c].(merge := Merges.Lookup(refs, (row, c))))
  }

  /** The inner loop of `merge_cells`' closing loop, over one row; it stops at the first cell
      `_set_merge` fails on. */
  method SetRowMerges(refs: Refs, cells: seq<Cell>, row: int) returns (out: seq<Cell>, failed: bool, read: nat)
    ensures |out| == |cells| && read <= |cells| && (!failed ==> read == |cells|)
    ensures forall c :: 0 <= c < |cells| ==> out[c].row == cells[c].row && out[c].col == cells[c].col
    ensures !failed ==> out == WithMerges(refs, cells, row) &&
                        forall c :: 0 <= c < |cells| ==> Merges.SetMerge(row, c, Merges.Lookup(refs, (row, c))).Ok?
    ensures failed ==> exists c :: 0 <= c < |cells| && Merges.SetMerge(row, c, Merges.Lookup(refs, (row, c))).Err?
  {
    out := cells;
    var col := 0;
    while col < |cells|
      invariant 0 <= col <= |cells| == |out|
      invariant forall c :: 0 <= c < |cells| ==> out[c] == if c < col then cells[c].(merge := Merges.Lookup(refs, (row, c))) else cells[c]
      invariant forall c :: 0 <= c < col ==> Merges.SetMerge(row, c, Merges.Lookup(refs, (row, c))).Ok?
    {
      var ref := Merges.Lookup(refs, (row, col));
      if Merges.SetMerge(row, col, ref).Err? {
        return out, true, col + 1;
      }
      out := out[col := out[col].(merge := ref)];
      col := col + 1;
    }
    return out, false, |cells|;
  }

  /** A grid keeps its shape when a row is replaced by one of the same width whose cells know
      their position. */
  lemma ReplaceRow(grid: seq<seq<Cell>>, row: nat, cells: seq<Cell>, width: nat)
    requires Shaped(grid, width) && Positioned(grid) && row < |grid|
    requires |cells| == |grid[row]| && forall c :: 0 <= c < |cells| ==> cells[c].row == grid[row][c].row && cells[c].col == grid[row][c].col
    ensures Shaped(grid[row := cells], width) && Positioned(grid[row := cells])
  {
    assert RowAt(grid[row], row);
  }

  /** The rows of `merge_cells`' closing loop: each row's cells take what the register
      holds for them, up to the first cell `_set_merge` fails on. Returns the new grid, the
      rows completed and the cells read in the row that failed. */
  method MergeRows(refs: Refs, data: seq<seq<Cell>>, numCols: nat)
    returns (grid: seq<seq<Cell>>, row: nat, readInRow: nat, failed: bool)
    requires Shaped(data, numCols) && Positioned(data)
    ensures |grid| == |data| && Shaped(grid, numCols) && Positioned(grid)
    ensures row <= |data| && readInRow <= numCols
    ensures !failed ==> row == |data| && readInRow == 0
    ensures !failed ==> forall i :: 0 <= i < |data| ==> grid[i] == WithMerges(refs, data[i], i)
    ensures failed <==> exists i, c :: 0 <= i < |data| && 0 <= c < numCols &&
                                       Merges.SetMerge(i, c, Merges.Lookup(refs, (i, c))).Err?
    ensures Nameable(refs) ==> !failed
  {
    grid := data;
    row, readInRow, failed := 0, 0, false;
    while row < |data|
      invariant 0 <= row <= |data| && readInRow == 0
      invariant |grid| == |data| && Shaped(grid, numCols) && Positioned(grid)
      invariant forall i, c :: 0 <= i < row && 0 <= c < numCols ==>
                  Merges.SetMerge(i, c, Merges.Lookup(refs, (i, c))).Ok?
      invariant forall i :: 0 <= i < |data| ==>
                  grid[i] == (if i < row then WithMerges(refs, data[i], i) else data[i])
    {
      var cells, rowFailed, read := SetRowMerges(refs, grid[row], row);
      ReplaceRow(grid, row, cells, numCols);
      grid := grid[row := cells];
      if rowFailed {
        readInRow, failed := read, true;
        if Nameable(refs) {
          NameableSetMerges(refs, data[row], row);
        }
        return;
      }
      row := row + 1;
    }
  }

  /** No cell of a row fails `_set_merge` on a nameable register. */
  lemma NameableSetMerges(refs: Refs, cells: seq<Cell>, row: int)
    requires Nameable(refs)
    ensures forall c :: 0 <= c < |cells| ==> Merges.SetMerge(row, c, Merges.Lookup(refs, (row, c))).Ok?
  {
    forall c | 0 <= c < |cells|
      ensures Merges.SetMerge(row, c, Merges.Lookup(refs, (row, c))).Ok?
    {
      NameableSetMerge(refs, row, c);
    }
  }

  /** The ranges of a `merge_cells` list, read in order up to the first that does not parse. */
  function ParseRanges(ranges: seq<string>): (r: Result<seq<Merges.Rect>>)
    ensures r.Ok? ==> |r.value| == |ranges| && forall i :: 0 <= i < |ranges| ==> ParseRange(ranges[i]) == Ok(r.value[i])
    ensures r.Err? <==> exists i :: 0 <= i < |ranges| && ParseRange(ranges[i]).Err?
  {
    if ranges == [] then Ok([])
    else
      var front :- ParseRanges(ranges[..|ranges| - 1]);
      var last :- ParseRange(ranges[|ranges| - 1]);
      Ok(front + [last])
  }

  /** One turn of the covering loop: (row, col) becomes a merged cell and a reference. */
  lemma CoverStep(before: Refs, prev: Refs, now: Refs, was: seq<seq<Cell>>, grid: seq<seq<Cell>>, data: seq<seq<Cell>>,
                  rect: Merges.Rect, firstRow: int, firstCol: int, row: int, col: int, height: nat, width: nat)
    requires Block((row, col), rect, firstRow, firstCol) && 0 <= row < height && 0 <= col < width
    requires |was| == |data| == height && Shaped(was, width) && Shaped(data, width)
    requires Sweep(prev, before, was, data, rect, firstRow, firstCol, row, col, height, width)
    requires now == prev[(row, col) := Merges.Reference(rect)]
    requires grid == was[row := was[row][col := MergedCell(prev, row, col)]]
    ensures |grid| == height && Shaped(grid, width)
    ensures Sweep(now, before, grid, data, rect, firstRow, firstCol, row, col + 1, height, width)
  {
    assert Merges.Lookup(prev, (row, col)) == Merges.Lookup(before, (row, col));
    forall k
      ensures Merges.Lookup(now, k) ==
              (if Swept(k, rect, firstRow, firstCol, row, col + 1) then Some(Merges.Reference(rect)) else Merges.Lookup(before, k))
    {
      assert Merges.Lookup(now, k) == if k == (row, col) then Some(Merges.Reference(rect)) else Merges.Lookup(prev, k);
    }
  }

  /** The anchor cell is passed over without change. */
  lemma SweepOrigin(refs: Refs, before: Refs, grid: seq<seq<Cell>>, data: seq<seq<Cell>>, rect: Merges.Rect,
                    firstRow: int, firstCol: int, row: int, col: int, height: nat, width: nat)
    requires (row, col) == Merges.Origin(rect)
    requires |grid| == |data| == height && Shaped(grid, width) && Shaped(data, width)
    requires Sweep(refs, before, grid, data, rect, firstRow, firstCol, row, col, height, width)
    ensures Sweep(refs, before, grid, data, rect, firstRow, firstCol, row, col + 1, height, width)
  {
    assert forall k :: Swept(k, rect, firstRow, firstCol, row, col + 1) <==> Swept(k, rect, firstRow, firstCol, row, col);
  }

  /** The end of a row is the start of the next. */
  lemma SweepRowEnd(refs: Refs, before: Refs, grid: seq<seq<Cell>>, data: seq<seq<Cell>>, rect: Merges.Rect,
                    firstRow: int, firstCol: int, row: int, col: int, height: nat, width: nat)
    requires col > rect.colEnd
    requires |grid| == |data| == height && Shaped(grid, width) && Shaped(data, width)
    requires Sweep(refs, before, grid, data, rect, firstRow, firstCol, row, col, height, width)
    ensures Sweep(refs, before, grid, data, rect, firstRow, firstCol, row + 1, firstCol, height, width)
  {
    assert forall k :: Swept(k, rect, firstRow, firstCol, row + 1, firstCol) <==> Swept(k, rect, firstRow, firstCol, row, col);
  }

  /** Past the last row every cell of the block has been passed. */
  lemma SweepDone(refs: Refs, before: Refs, grid: seq<seq<Cell>>, data: seq<seq<Cell>>, rect: Merges.Rect,
                  firstRow: int, firstCol: int, row: int, height: nat, width: nat)
    requires row > rect.rowEnd
    requires |grid| == |data| == height && Shaped(grid, width) && Shaped(data, width) && Positioned(data)
    requires Sweep(refs, before, grid, data, rect, firstRow, firstCol, row, firstCol, height, width)
    ensures forall k :: Block(k, rect, firstRow, firstCol) ==> k.0 < height && k.1 < width
    ensures forall k :: Merges.Lookup(refs, k) ==
              if Block(k, rect, firstRow, firstCol) then Some(Merges.Reference(rect)) else Merges.Lookup(before, k)
    ensures forall i, c :: 0 <= i < height && 0 <= c < width ==>
              grid[i][c] == if Block((i, c), rect, firstRow, firstCol) then MergedCell(before, i, c) else data[i][c]
  {
    assert forall k :: Swept(k, rect, firstRow, firstCol, row, firstCol) <==> Block(k, rect, firstRow, firstCol);
  }

  /** Covering keeps every cell at its position. */
  lemma SweepPositioned(refs: Refs, before: Refs, grid: seq<seq<Cell>>, data: seq<seq<Cell>>, rect: Merges.Rect,
                        firstRow: int, firstCol: int, row: int, col: int, height: nat, width: nat)
    requires |grid| == |data| == height && Shaped(grid, width) && Shaped(data, width) && Positioned(data)
    requires Sweep(refs, before, grid, data, rect, firstRow, firstCol, row, col, height, width)
    ensures Positioned(grid)
  {
    forall i | 0 <= i < height
      ensures RowAt(grid[i], i)
    {
      assert RowAt(data[i], i);
    }
  }

  /** The rows `add_row` builds: `count` rows of `width` empty cells, numbered from `s`. */
  method NewRows(refs: Refs, s: int, count: nat, width: nat) returns (rows: seq<seq<Cell>>)
    ensures |rows| == count
    ensures forall k :: 0 <= k < count ==> rows[k] == EmptyCells(refs, s + k, 0, width)
  {
    rows := [];
    var i := s;
    while i < s + count
      invariant s <= i <= s + count && |rows| == i - s
      invariant forall k :: 0 <= k < |rows| ==> rows[k] == EmptyCells(refs, s + k, 0, width)
    {
      rows := rows + [EmptyCells(refs, i, 0, width)];
      i := i + 1;
    }
  }

  /** The renumbering loop over rows `from` .. `to` - 1. */
  method RenumberRows(grid: seq<seq<Cell>>, from: nat, to: int) returns (out: seq<seq<Cell>>)
    requires to <= |grid|
    ensures |out| == |grid|
    ensures forall k :: 0 <= k < |grid| ==> out[k] == if from <= k < to then Renumbered(grid[k], k) else grid[k]
  {
    out := grid;
    var i := from;
    while i < to
      invariant from <= i && (i <= to || i == from)
      invariant |out| == |grid|
      invariant forall k :: 0 <= k < |grid| ==> out[k] == if from <= k < i then Renumbered(grid[k], k) else grid[k]
    {
      var row := Renumber(out[i], i);
      out := out[i := row];
      i := i + 1;
    }
  }

  /** The loop of `add_column` over every row. */
  method InsertCells(grid: seq<seq<Cell>>, s: nat, count: nat, refs: Refs) returns (out: seq<seq<Cell>>)
    requires forall k :: 0 <= k < |grid| ==> s <= |grid[k]|
    ensures |out| == |grid|
    ensures forall k :: 0 <= k < |grid| ==> out[k] == Renumbered(Inserted(grid[k], s, EmptyCells(refs, k, s, count)), k)
  {
    out := grid;
    var i := 0;
    while i < |grid|
      invariant 0 <= i <= |grid| == |out|
      invariant forall k :: 0 <= k < i ==> out[k] == Renumbered(Inserted(grid[k], s, EmptyCells(refs, k, s, count)), k)
      invariant forall k :: i <= k < |grid| ==> out[k] == grid[k]
    {
      var row := Renumber(Inserted(out[i], s, EmptyCells(refs, i, s, count)), i);
      out := out[i := row];
      i := i + 1;
    }
  }

  /** The loop of `delete_column` over every row. */
  method DeleteCells(grid: seq<seq<Cell>>, count: nat, start: Option<int>) returns (out: seq<seq<Cell>>)
    requires start.Some? ==> 0 <= start.value && forall k :: 0 <= k < |grid| ==> start.value < |grid[k]|
    ensures |out| == |grid|
    ensures forall k :: 0 <= k < |grid| ==> out[k] == Renumbered(Deleted(grid[k], count, start), k)
  {
    out := grid;
    var i := 0;
    while i < |grid|
      invariant 0 <= i <= |grid| == |out|
      invariant forall k :: 0 <= k < i ==> out[k] == Renumbered(Deleted(grid[k], count, start), k)
      invariant forall k :: i <= k < |grid| ==> out[k] == grid[k]
    {
      var row := Renumber(Deleted(out[i], count, start), i);
      out := out[i := row];
      i := i + 1;
    }
  }

  /** The rows before `s` as they were, `count` rows of empty cells, then the rows that were
      at `s` and after, `count` rows further down and told their new position. */
  ghost predicate RowsAdded(before: seq<seq<Cell>>, after: seq<seq<Cell>>, s: int, count: nat, width: nat, refs: Refs)
    requires Shaped(before, width) && Shaped(after, width) && |after| == |before| + count && 0 <= s <= |before|
  {
    && (forall i, c :: 0 <= i < s && 0 <= c < width ==> after[i][c] == before[i][c])
    && (forall i, c :: s <= i < s + count && 0 <= c < width ==> after[i][c] == EmptyCell(refs, i, c))
    && (forall i, c :: s + count <= i < |after| && 0 <= c < width ==>
          after[i][c] == Placed(before[i - count][c], i, c))
  }

  /** After `add_row`: the rows before `s` as they were, the new empty rows, then the rows that
      were at `s` and after, `count` rows further down and renumbered. */
  lemma AddRowLayout(before: seq<seq<Cell>>, rows: seq<seq<Cell>>, s: nat, width: nat, refs: Refs, after: seq<seq<Cell>>)
    requires Shaped(before, width) && Positioned(before) && s <= |before|
    requires forall k :: 0 <= k < |rows| ==> rows[k] == EmptyCells(refs, s + k, 0, width)
    requires |after| == |before| + |rows|
    requires forall k :: 0 <= k < |after| ==>
               after[k] == if s <= k < |after| then Renumbered(Inserted(before, s, rows)[k], k) else Inserted(before, s, rows)[k]
    ensures Shaped(after, width) && Positioned(after)
    ensures RowsAdded(before, after, s, |rows|, width, refs)
  {
    var spliced := Inserted(before, s, rows);
    forall k | 0 <= k < |after|
      ensures |after[k]| == width && RowAt(after[k], k)
      ensures k < s ==> after[k] == before[k]
      ensures s <= k < s + |rows| ==> after[k] == rows[k - s]
      ensures s + |rows| <= k ==> after[k] == Renumbered(before[k - |rows|], k)
    {
      if k < s {
        assert spliced[k] == before[k];
      } else if k < s + |rows| {
        assert spliced[k] == rows[k - s];
        RenumberedInPlace(rows[k - s], k);
      } else {
        assert spliced[k] == before[k - |rows|];
      }
    }
  }

  /** After `add_column`: in every row the cells before `s` as they were, the new empty
      cells, then the cells that were at `s` and after, `count` columns further right. */
  lemma AddColumnLayout(before: seq<seq<Cell>>, s: nat, count: nat, width: nat, refs: Refs, after: seq<seq<Cell>>)
    requires Shaped(before, width) && Positioned(before) && s <= width
    requires |after| == |before|
    requires forall k :: 0 <= k < |after| ==> after[k] == Renumbered(Inserted(before[k], s, EmptyCells(refs, k, s, count)), k)
    ensures Shaped(after, width + count) && Positioned(after)
    ensures forall i, c :: 0 <= i < |after| && 0 <= c < s ==> after[i][c] == before[i][c]
    ensures forall i, c :: 0 <= i < |after| && s <= c < s + count ==> after[i][c] == EmptyCell(refs, i, c)
    ensures forall i, c :: 0 <= i < |after| && s + count <= c < width + count ==>
              after[i][c] == Placed(before[i][c - count], i, c)
  {
    forall i | 0 <= i < |after|
      ensures |after[i]| == width + count && RowAt(after[i], i)
      ensures forall c :: 0 <= c < s ==> after[i][c] == before[i][c]
      ensures forall c :: s <= c < s + count ==> after[i][c] == EmptyCell(refs, i, c)
      ensures forall c :: s + count <= c < width + count ==> after[i][c] == Placed(before[i][c - count], i, c)
    {
      AddColumnRow(before[i], i, s, count, refs, after[i]);
    }
  }

  /** One row of that layout. */
  lemma AddColumnRow(row: seq<Cell>, i: int, s: nat, count: nat, refs: Refs, out: seq<Cell>)
    requires RowAt(row, i) && s <= |row|
    requires out == Renumbered(Inserted(row, s, EmptyCells(refs, i, s, count)), i)
    ensures |out| == |row| + count && RowAt(out, i)
    ensures forall c :: 0 <= c < s ==> out[c] == row[c]
    ensures forall c :: s <= c < s + count ==> out[c] == EmptyCell(refs, i, c)
    ensures forall c :: s + count <= c < |row| + count ==> out[c] == Placed(row[c - count], i, c)
  {
    var empty := EmptyCells(refs, i, s, count);
    var spliced := Inserted(row, s, empty);
    forall c | s <= c < s + count
      ensures out[c] == EmptyCell(refs, i, c)
    {
      assert spliced[s + (c - s)] == empty[c - s];
    }
  }

  /** After `delete_row`: the kept rows, each renumbered to its new position. */
  lemma DeleteRowLayout(before: seq<seq<Cell>>, count: nat, start: Option<int>, width: nat, after: seq<seq<Cell>>)
    requires Shaped(before, width) && Positioned(before)
    requires start.Some? ==> 0 <= start.value < |before|
    requires var cut := Deleted(before, count, start);
             var to := if start.Some? && |before| - count < start.value then start.value else |before| - count;
             |after| == |cut| &&
             forall k :: 0 <= k < |after| ==>
               after[k] == if start.Some? && start.value <= k < to then Renumbered(cut[k], k) else cut[k]
    ensures |after| == DeletedLength(|before|, count, start)
    ensures forall k :: 0 <= k < |after| ==> after[k] == Renumbered(Deleted(before, count, start)[k], k)
    ensures Shaped(after, width) && Positioned(after)
  {
    var cut := Deleted(before, count, start);
    forall k | 0 <= k < |after|
      ensures after[k] == Renumbered(cut[k], k)
    {
      if start.None? || k < start.value {
        assert cut[k] == before[k];
        RenumberedInPlace(cut[k], k);
      }
    }
    assert forall k :: 0 <= k < |cut| ==> |cut[k]| == width by {
      forall k | 0 <= k < |cut|
        ensures |cut[k]| == width
      {
        if start.None? || k < start.value {
          assert cut[k] == before[k];
        } else {
          assert cut[k] == before[k + count];
        }
      }
    }
  }

  /** After `delete_column`: every row keeps its cells outside the deleted block, renumbered;
      the rows all have the same, as-written, width. */
  lemma DeleteColumnLayout(before: seq<seq<Cell>>, count: nat, start: Option<int>, width: nat, after: seq<seq<Cell>>)
    requires Shaped(before, width) && Positioned(before)
    requires start.Some? ==> 0 <= start.value < width
    requires |after| == |before|
    requires forall k :: 0 <= k < |after| ==> after[k] == Renumbered(Deleted(before[k], count, start), k)
    ensures Shaped(after, DeletedLength(width, count, start)) && Positioned(after)
  {
  }

  /** `A1:B2`-style range text, as `merge_cells` splits and reads it. */
  function ParseRange(cellRange: string): (r: Result<Merges.Rect>)
    ensures |Text.Split(cellRange, ':')| != 2 ==> r == Err(ValueError)
    ensures r.Err? ==> r.error in {ValueError, IndexError}
    ensures r.Ok? ==> r.value.rowStart >= -1 && r.value.colStart >= -1
  {
    var parts := Text.Split(cellRange, ':');
    if |parts| != 2 then Err(ValueError)
    else
      var start :- A1Notation.CellToRowColSpec(parts[0]);
      var end :- A1Notation.CellToRowColSpec(parts[1]);
      Ok(Merges.Rect(start.0, start.1, end.0, end.1))
  }

  /** How a cell is designated: `cell("B2")` or `cell(row, col)`; a list of ints of any other
      length is the wrong number of arguments. */
  datatype CellRef = A1Ref(name: string) | Coords(items: seq<int>)

  /** `Table`: the grid, its size, its header counts and its merge register. */
  class Table {
    var data: seq<seq<Cell>>
    var numRows: int
    var numCols: int
    var headerRows: int
    var headerCols: int
    const merges: Merges.MergeCells

    /** The grid has `numRows` rows of `numCols` cells, each knowing its own position. */
    ghost predicate Valid()
      reads this, merges
    {
      |data| == numRows && 0 <= numCols && Shaped(data, numCols) && Positioned(data) && merges.Valid()
    }

    /** A table of empty cells with no merges and no headers. */
    constructor (rows: nat, cols: nat)
      ensures Valid() && numRows == rows && numCols == cols && headerRows == 0 && headerCols == 0
      ensures fresh(merges) && merges.refs == map[]
      ensures merges.order == Merges.GridKeys(rows, cols)
      ensures forall i, c :: 0 <= i < rows && 0 <= c < cols ==> data[i][c] == EmptyCell(map[], i, c)
    {
      merges := new Merges.MergeCells();
      data := seq(rows, i => EmptyCells(map[], i, 0, cols));
      numRows, numCols := rows, cols;
      headerRows, headerCols := 0, 0;
      new;
      // the loading loop asks `is_merge_reference` of every cell, row by row
      Merges.ReadGrid(merges, rows, cols, 0);
      Merges.FreshGridReads(rows, cols);
    }

    /** `cell()`: the cell at an A1 name or at (row, col); a name that does not parse, a wrong
        number of coordinates, or a position outside the table is an IndexError. */
    function CellAt(ref: CellRef): (r: Result<Cell>)
      reads this, merges
      requires Valid()
      ensures ref.Coords? && |ref.items| != 2 ==> r == Err(IndexError)
      ensures ref.Coords? && |ref.items| == 2 ==>
        (r.Ok? <==> 0 <= ref.items[0] < numRows && 0 <= ref.items[1] < numCols)
      ensures r.Err? ==> r.error == IndexError
      ensures r.Ok? ==> 0 <= r.value.row < numRows && 0 <= r.value.col < numCols &&
                        data[r.value.row][r.value.col] == r.value
      ensures r.Ok? && ref.Coords? ==> r.value.row == ref.items[0] && r.value.col == ref.items[1]
      ensures r.Ok? && ref.A1Ref? ==> A1Notation.CellToRowColSpec(ref.name) == Ok((r.value.row, r.value.col))
    {
      var (row, col) :-
        match ref
        case A1Ref(name) => A1Notation.CellToRowColSpec(name)
        case Coords(items) => if |items| != 2 then Err(IndexError) else Ok((items[0], items[1]));
      if row >= numRows || row < 0 then Err(IndexError)
      else if col >= numCols || col < 0 then Err(IndexError)
      else Ok(data[row][col])
    }

    /** `add_row(num_rows, start_row)`: inserts `count` rows of empty cells before
        `start_row`, or at the end, and renumbers every row from there on. */
    method AddRow(count: nat, start: Option<int>) returns (r: Result<()>)
      requires Valid()
      modifies this
      ensures r.Err? <==> start.Some? && !(0 <= start.value < old(numRows))
      ensures r.Err? ==> r.error == IndexError && data == old(data) && numRows == old(numRows)
      ensures numCols == old(numCols) && headerRows == old(headerRows) && headerCols == old(headerCols)
      ensures r.Ok? ==> Valid() && numRows == old(numRows) + count
      ensures r.Ok? ==> RowsAdded(old(data), data, if start.Some? then start.value else old(numRows), count, numCols, merges.refs)
    {
      if start.Some? && (start.value < 0 || start.value >= numRows) {
        return Err(IndexError);
      }
      var s := if start.Some? then start.value else numRows;
      var rows := NewRows(merges.refs, s, count, numCols);
      var grid := RenumberRows(Inserted(data, s, rows), s, |data| + count);
      AddRowLayout(data, rows, s, numCols, merges.refs, grid);
      data := grid;
      numRows := numRows + count;
      return Ok(());
    }

    /** `add_column(num_cols, start_col)`: inserts `count` empty cells before `start_col`, or
        at the end, in every row, and renumbers the columns of every row. */
    method AddColumn(count: nat, start: Option<int>) returns (r: Result<()>)
      requires Valid()
      modifies this
      ensures r.Err? <==> start.Some? && !(0 <= start.value < old(numCols))
      ensures r.Err? ==> r.error == IndexError && data == old(data) && numCols == old(numCols)
      ensures numRows == old(numRows) && headerRows == old(headerRows) && headerCols == old(headerCols)
      ensures r.Ok? ==> Valid() && numCols == old(numCols) + count
      ensures r.Ok? ==> var s := if start.Some? then start.value else old(numCols);
        && (forall i, c :: 0 <= i < numRows && 0 <= c < s ==> data[i][c] == old(data)[i][c])
        && (forall i, c :: 0 <= i < numRows && s <= c < s + count ==> data[i][c] == EmptyCell(merges.refs, i, c))
        && (forall i, c :: 0 <= i < numRows && s + count <= c < numCols ==>
              data[i][c] == Placed(old(data)[i][c - count], i, c))
    {
      if start.Some? && (start.value < 0 || start.value >= numCols) {
        return Err(IndexError);
      }
      var s := if start.Some? then start.value else numCols;
      var grid := InsertCells(data, s, count, merges.refs);
      AddColumnLayout(data, s, count, numCols, merges.refs, grid);
      data := grid;
      numCols := numCols + count;
      return Ok(());
    }

    /** `delete_row(num_rows, start_row)`: deletes `count` rows from `start_row`, or from the
        end, subtracts `count` from the row count and renumbers the rows after a start. The
        grid stays consistent exactly when as many rows went as were counted
        (`DeletedLength`). */
    method DeleteRow(count: nat, start: Option<int>) returns (r: Result<()>)
      requires Valid()
      modifies this
      ensures r.Err? <==> start.Some? && !(0 <= start.value < old(numRows))
      ensures r.Err? ==> r.error == IndexError && data == old(data) && numRows == old(numRows)
      ensures numCols == old(numCols) && headerRows == old(headerRows) && headerCols == old(headerCols)
      ensures r.Ok? ==> numRows == old(numRows) - count
      ensures r.Ok? ==> |data| == DeletedLength(old(numRows), count, start)
      ensures r.Ok? ==> forall i :: 0 <= i < |data| ==> data[i] == Renumbered(Deleted(old(data), count, start)[i], i)
      ensures r.Ok? ==> (Valid() <==> |data| == numRows)
    {
      if start.Some? && (start.value < 0 || start.value >= numRows) {
        return Err(IndexError);
      }
      var cut := Deleted(data, count, start);
      var grid := cut;
      if start.Some? {
        grid := RenumberRows(cut, start.value, if numRows - count < start.value then start.value else numRows - count);
      }
      DeleteRowLayout(data, count, start, numCols, grid);
      data := grid;
      numRows := numRows - count;
      return Ok(());
    }

    /** `delete_column(num_cols, start_col)`: deletes `count` cells from `start_col`, or from
        the end, in every row, renumbers the columns and subtracts `count` from the column
        count. */
    method DeleteColumn(count: nat, start: Option<int>) returns (r: Result<()>)
      requires Valid()
      modifies this
      ensures r.Err? <==> start.Some? && !(0 <= start.value < old(numCols))
      ensures r.Err? ==> r.error == IndexError && data == old(data) && numCols == old(numCols)
      ensures numRows == old(numRows) && headerRows == old(headerRows) && headerCols == old(headerCols)
      ensures r.Ok? ==> numCols == old(numCols) - count && |data| == numRows
      ensures r.Ok? ==> forall i :: 0 <= i < numRows ==> data[i] == Renumbered(Deleted(old(data)[i], count, start), i)
      ensures r.Ok? && DeletedLength(old(numCols), count, start) == numCols ==> Valid()
      ensures r.Ok? && numRows > 0 && Valid() ==> DeletedLength(old(numCols), count, start) == numCols
    {
      if start.Some? && (start.value < 0 || start.value >= numCols) {
        return Err(IndexError);
      }
      var grid := DeleteCells(data, count, start);
      DeleteColumnLayout(data, count, start, numCols, grid);
      assert numRows > 0 ==> |grid[0]| == DeletedLength(numCols, count, start);
      data := grid;
      numCols := numCols - count;
      return Ok(());
    }

    /** The `num_header_rows` setter. */
    method SetNumHeaderRows(n: int) returns (r: Result<()>)
      modifies this
      ensures r.Err? <==> n < 0 || n > numRows || n > MaxHeaderCount
      ensures r.Err? ==> r.error == ValueError && headerRows == old(headerRows)
      ensures r.Ok? ==> headerRows == n
      ensures data == old(data) && numRows == old(numRows) && numCols == old(numCols)
      ensures headerCols == old(headerCols)
    {
      if n < 0 || n > numRows || n > MaxHeaderCount {
        return Err(ValueError);
      }
      headerRows := n;
      return Ok(());
    }

    /** The `num_header_cols` setter. */
    method SetNumHeaderCols(n: int) returns (r: Result<()>)
      modifies this
      ensures r.Err? <==> n < 0 || n > numCols || n > MaxHeaderCount
      ensures r.Err? ==> r.error == ValueError && headerCols == old(headerCols)
      ensures r.Ok? ==> headerCols == n
      ensures data == old(data) && numRows == old(numRows) && numCols == old(numCols)
      ensures headerRows == old(headerRows)
    {
      if n < 0 || n > numCols || n > MaxHeaderCount {
        return Err(ValueError);
      }
      headerCols := n;
      return Ok(());
    }

    /** `_validate_cell_coords`: an A1 name or at least two coordinates; a row or column at or
        beyond the maximum is an IndexError; otherwise rows, then columns, are added one at a
        time at the end until the cell exists. */
    method ValidateCellCoords(ref: CellRef) returns (r: Result<(int, int)>)
      requires Valid()
      modifies this
      ensures ref.Coords? && |ref.items| < 2 ==> r == Err(IndexError)
      ensures r.Err? ==> r.error == IndexError && data == old(data) && numRows == old(numRows) && numCols == old(numCols)
      ensures r.Ok? ==> r.value.0 < MaxRowCount && r.value.1 < MaxColCount
      ensures r.Ok? && ref.Coords? ==> r.value == (ref.items[0], ref.items[1])
      ensures r.Ok? && ref.A1Ref? ==> A1Notation.CellToRowColSpec(ref.name) == Ok(r.value)
      ensures Valid() && headerRows == old(headerRows) && headerCols == old(headerCols)
      ensures r.Ok? ==> numRows == (if r.value.0 + 1 > old(numRows) then r.value.0 + 1 else old(numRows))
      ensures r.Ok? ==> numCols == (if r.value.1 + 1 > old(numCols) then r.value.1 + 1 else old(numCols))
      ensures forall i, c :: 0 <= i < numRows && 0 <= c < numCols ==>
                data[i][c] == if i < old(numRows) && c < old(numCols) then old(data)[i][c] else EmptyCell(merges.refs, i, c)
    {
      var rc: (int, int);
      match ref {
        case A1Ref(name) =>
          var parsed := A1Notation.CellToRowColSpec(name);
          if parsed.Err? {
            return Err(IndexError);
          }
          rc := parsed.value;
        case Coords(items) =>
          if |items| < 2 {
            return Err(IndexError);
          }
          rc := (items[0], items[1]);
      }
      var (row, col) := rc;
      if row >= MaxRowCount || col >= MaxColCount {
        return Err(IndexError);
      }
      while numRows < row + 1
        invariant Valid() && numCols == old(numCols) && old(numRows) <= numRows
        invariant numRows <= (if row + 1 > old(numRows) then row + 1 else old(numRows))
        invariant headerRows == old(headerRows) && headerCols == old(headerCols)
        invariant forall i, c :: 0 <= i < numRows && 0 <= c < numCols ==>
                    data[i][c] == if i < old(numRows) then old(data)[i][c] else EmptyCell(merges.refs, i, c)
        decreases row + 1 - numRows
      {
        var added := AddRow(1, None);
      }
      while numCols < col + 1
        invariant Valid() && old(numCols) <= numCols
        invariant numRows == (if row + 1 > old(numRows) then row + 1 else old(numRows))
        invariant numCols <= (if col + 1 > old(numCols) then col + 1 else old(numCols))
        invariant headerRows == old(headerRows) && headerCols == old(headerCols)
        invariant forall i, c :: 0 <= i < numRows && 0 <= c < numCols ==>
                    data[i][c] == if i < old(numRows) && c < old(numCols) then old(data)[i][c] else EmptyCell(merges.refs, i, c)
        decreases col + 1 - numCols
      {
        var added := AddColumn(1, None);
      }
      return Ok((row, col));
    }

    /** `merge_ranges`: the distinct ranges spanned by the anchored cells, sorted. */
    function MergeRanges(): (r: Result<seq<string>>)
      reads this
      ensures r.Err? ==> r.error == IndexError
      ensures r.Err? <==> exists e :: e in Anchors(data) && AnchorRange(e.0, e.1, e.2).Err?
      ensures r.Ok? ==> Sorted(r.value)
      ensures r.Ok? ==> forall e :: e in Anchors(data) ==>
                          (AnchorRange(e.0, e.1, e.2).Ok? && AnchorRange(e.0, e.1, e.2).value in r.value)
      ensures r.Ok? ==> forall s :: s in r.value ==> exists e :: e in Anchors(data) && AnchorRange(e.0, e.1, e.2) == Ok(s)
    {
      var anchors := Anchors(data);
      var texts :- RangesOf(anchors);
      Ok(SortedSet(texts))
    }

    /** The loops of `merge_cells` that hide the cells of `rect` from row `firstRow` and column
        `firstCol` on: each becomes a merged cell and then a reference in the register. A cell
        outside the grid raises IndexError. The anchor cell itself is left alone. */
    method CoverBlock(rect: Merges.Rect, firstRow: nat, firstCol: nat) returns (r: Result<()>)
      requires Valid()
      modifies this, merges
      ensures Valid()
      ensures numRows == old(numRows) && numCols == old(numCols)
      ensures headerRows == old(headerRows) && headerCols == old(headerCols)
      ensures r.Err? ==> r.error == IndexError
      ensures r.Err? <==> exists k :: Block(k, rect, firstRow, firstCol) && (k.0 >= numRows || k.1 >= numCols)
      ensures r.Ok? ==> forall k :: Merges.Lookup(merges.refs, k) ==
                          if Block(k, rect, firstRow, firstCol) then Some(Merges.Reference(rect)) else Merges.Lookup(old(merges.refs), k)
      ensures r.Ok? ==> forall i, c :: 0 <= i < numRows && 0 <= c < numCols ==>
                          data[i][c] == if Block((i, c), rect, firstRow, firstCol) then MergedCell(old(merges.refs), i, c) else old(data)[i][c]
    {
      ghost var before := merges.refs;
      var grid := data;
      r := Ok(());
      var row := firstRow;
      while row <= rect.rowEnd
        modifies merges
        invariant merges.Valid() && r.Ok?
        invariant firstRow <= row && (row <= rect.rowEnd + 1 || row == firstRow)
        invariant |grid| == numRows && Shaped(grid, numCols) && Positioned(grid)
        invariant Sweep(merges.refs, before, grid, data, rect, firstRow, firstCol, row, firstCol, numRows, numCols)
      {
        var failed;
        grid, failed := CoverRow(merges, grid, data, before, numRows, numCols, rect, firstRow, firstCol, row);
        if failed {
          r := Err(IndexError);
          break;
        }
        row := row + 1;
      }
      if r.Ok? {
        SweepDone(merges.refs, before, grid, data, rect, firstRow, firstCol, row, numRows, numCols);
      }
      data := grid;
    }

    /** The closing loop of `merge_cells`: every cell takes, through `_set_merge`, what the
        register now holds for it; a reference whose range cannot be named raises IndexError.
        Each cell's `get` is a read of the register, which records the coordinates not read
        before. */
    method ApplyMerges() returns (r: Result<()>)
      requires Valid()
      modifies this, merges
      ensures Valid() && merges.refs == old(merges.refs)
      ensures r.Ok? ==> merges.order == Merges.TouchedAll(old(merges.order), Merges.GridKeys(numRows, numCols))
      ensures numRows == old(numRows) && numCols == old(numCols)
      ensures headerRows == old(headerRows) && headerCols == old(headerCols)
      ensures r.Err? ==> r.error == IndexError
      ensures r.Err? <==> exists i, c :: 0 <= i < numRows && 0 <= c < numCols &&
                                         Merges.SetMerge(i, c, Merges.Lookup(merges.refs, (i, c))).Err?
      ensures Nameable(merges.refs) ==> r.Ok?
      ensures r.Ok? ==> forall i, c :: 0 <= i < numRows && 0 <= c < numCols ==>
                          data[i][c] == old(data)[i][c].(merge := Merges.Lookup(merges.refs, (i, c)))
    {
      var grid, row, readInRow, failed := MergeRows(merges.refs, data, numCols);
      data := grid;
      Merges.ReadGrid(merges, row, numCols, readInRow);
      if failed {
        r := Err(IndexError);
      } else {
        r := Ok(());
        assert Merges.GridKeys(row, numCols) + Merges.RowKeys(row, numCols)[..readInRow] == Merges.GridKeys(numRows, numCols);
      }
    }

    /** `merge_cells` for one range as written: the anchor, then the hidden cells from the row
        and the column after the anchor's, then `_set_merge` on every cell. */
    method MergeRectAsWritten(rect: Merges.Rect) returns (r: Result<()>)
      requires Valid() && rect.rowStart >= -1 && rect.colStart >= -1
      modifies this, merges
      ensures Valid()
      ensures numRows == old(numRows) && numCols == old(numCols)
      ensures r.Err? ==> r.error == IndexError
      ensures old(Nameable(merges.refs)) && rect.rowStart >= 0 && rect.colStart >= 0 &&
              (forall k :: Block(k, rect, rect.rowStart + 1, rect.colStart + 1) ==> k.0 < old(numRows) && k.1 < old(numCols))
              ==> r.Ok?
      ensures r.Ok? ==> forall k :: Merges.Lookup(merges.refs, k) ==
                          if k == Merges.Origin(rect) then Some(Merges.AnchorOf(rect))
                          else if Block(k, rect, rect.rowStart + 1, rect.colStart + 1) then Some(Merges.Reference(rect))
                          else Merges.Lookup(old(merges.refs), k)
      ensures r.Ok? ==> forall i, c :: 0 <= i < numRows && 0 <= c < numCols ==>
                          data[i][c].merge == Merges.Lookup(merges.refs, (i, c)) &&
                          data[i][c].kind == if Block((i, c), rect, rect.rowStart + 1, rect.colStart + 1) then MergedKind else old(data)[i][c].kind
    {
      var size := Merges.AnchorOf(rect);
      merges.AddAnchor(rect.rowStart, rect.colStart, size.rows, size.cols);
      r := CoverBlock(rect, rect.rowStart + 1, rect.colStart + 1);
      if r.Err? {
        return;
      }
      if Nameable(old(merges.refs)) && rect.rowStart >= 0 && rect.colStart >= 0 {
        NameableAfterCover(old(merges.refs), merges.refs, rect, rect.rowStart + 1, rect.colStart + 1);
      }
      r := ApplyMerges();
    }

    /** `merge_cells` for one range as evidently intended: every cell of the range but the
        anchor is hidden and referenced, so the register is what reading the merge back from
        a saved document gives (`Merges.Covered`). A range starting before the first row or
        column is an IndexError. */
    method MergeRect(rect: Merges.Rect) returns (r: Result<()>)
      requires Valid()
      modifies this, merges
      ensures Valid()
      ensures numRows == old(numRows) && numCols == old(numCols)
      ensures r.Err? ==> r.error == IndexError
      ensures rect.rowStart < 0 || rect.colStart < 0 ==> r.Err? && merges.refs == old(merges.refs) && data == old(data)
      ensures r.Ok? ==> forall k :: Block(k, rect, rect.rowStart, rect.colStart) ==> k.0 < numRows && k.1 < numCols
      ensures old(Nameable(merges.refs)) && rect.rowStart >= 0 && rect.colStart >= 0 &&
              (forall k :: Block(k, rect, rect.rowStart, rect.colStart) ==> k.0 < numRows && k.1 < numCols)
              ==> r.Ok? && Nameable(merges.refs)
      ensures r.Ok? ==> forall k :: Merges.Lookup(merges.refs, k) == Merges.Covered(rect, Merges.Lookup(old(merges.refs), k), k)
      ensures r.Ok? ==> forall i, c :: 0 <= i < numRows && 0 <= c < numCols ==>
                          data[i][c].merge == Merges.Lookup(merges.refs, (i, c)) &&
                          data[i][c].kind == if Block((i, c), rect, rect.rowStart, rect.colStart) then MergedKind else old(data)[i][c].kind
    {
      if rect.rowStart < 0 || rect.colStart < 0 {
        return Err(IndexError);
      }
      var size := Merges.AnchorOf(rect);
      merges.AddAnchor(rect.rowStart, rect.colStart, size.rows, size.cols);
      r := CoverBlock(rect, rect.rowStart, rect.colStart);
      if r.Err? {
        return;
      }
      if Nameable(old(merges.refs)) {
        NameableAfterCover(old(merges.refs), merges.refs, rect, rect.rowStart, rect.colStart);
      }
      r := ApplyMerges();
    }

    /** `merge_cells` for one range in A1 notation, as written. */
    method MergeCellsAsWritten(cellRange: string) returns (r: Result<()>)
      requires Valid()
      modifies this, merges
      ensures Valid()
      ensures ParseRange(cellRange).Err? ==> r == Err(ParseRange(cellRange).error) && merges.refs == old(merges.refs) && data == old(data)
      ensures ParseRange(cellRange).Ok? && r.Err? ==> r.error == IndexError
      ensures r.Ok? ==> ParseRange(cellRange).Ok? &&
                        var rect := ParseRange(cellRange).value;
                        forall k :: Merges.Lookup(merges.refs, k) ==
                          if k == Merges.Origin(rect) then Some(Merges.AnchorOf(rect))
                          else if Block(k, rect, rect.rowStart + 1, rect.colStart + 1) then Some(Merges.Reference(rect))
                          else Merges.Lookup(old(merges.refs), k)
    {
      var parsed := ParseRange(cellRange);
      if parsed.Err? {
        return Err(parsed.error);
      }
      r := MergeRectAsWritten(parsed.value);
    }

    /** `merge_cells` for one range in A1 notation, as evidently intended. */
    method MergeCells(cellRange: string) returns (r: Result<()>)
      requires Valid()
      modifies this, merges
      ensures Valid()
      ensures ParseRange(cellRange).Err? ==> r == Err(ParseRange(cellRange).error) && merges.refs == old(merges.refs) && data == old(data)
      ensures ParseRange(cellRange).Ok? && r.Err? ==> r.error == IndexError
      ensures r.Ok? ==> ParseRange(cellRange).Ok? &&
                        forall k :: Merges.Lookup(merges.refs, k) ==
                          Merges.Covered(ParseRange(cellRange).value, Merges.Lookup(old(merges.refs), k), k)
    {
      var parsed := ParseRange(cellRange);
      if parsed.Err? {
        return Err(parsed.error);
      }
      r := MergeRect(parsed.value);
    }

    /** `merge_cells` with a list: each range in turn, stopping at the first that raises. On
        success the register is what the merges of the ranges, added in order, give. */
    method MergeCellsList(ranges: seq<string>) returns (r: Result<()>)
      requires Valid()
      modifies this, merges
      ensures Valid()
      ensures r.Ok? ==> ParseRanges(ranges).Ok? &&
                        forall k :: Merges.Lookup(merges.refs, k) == Merges.AfterRects(old(merges.refs), ParseRanges(ranges).value, k)
    {
      var i := 0;
      while i < |ranges|
        invariant 0 <= i <= |ranges|
        invariant Valid()
        invariant ParseRanges(ranges[..i]).Ok?
        invariant forall k :: Merges.Lookup(merges.refs, k) == Merges.AfterRects(old(merges.refs), ParseRanges(ranges[..i]).value, k)
      {
        ghost var front := ParseRanges(ranges[..i]).value;
        ghost var prev := merges.refs;
        r := MergeCells(ranges[i]);
        if r.Err? {
          return;
        }
        assert ranges[..i + 1][..i] == ranges[..i];
        ghost var rects := ParseRanges(ranges[..i + 1]).value;
        assert rects == front + [ParseRange(ranges[i]).value];
        assert rects[..|rects| - 1] == front;
        i := i + 1;
      }
      assert ranges[..i] == ranges;
      return Ok(());
    }
  }

  /** `merge_cells("B2:C2")` on a table of two rows and three columns: as written the loops
      start from the row after the anchor's, so C2 is neither hidden nor referenced, while
      the evidently intended version references it, as a saved and reloaded table does. */
  method FirstRowMergeExample() returns (asWritten: Option<Merges.MergeRef>, corrected: Option<Merges.MergeRef>)
    ensures asWritten == None
    ensures corrected == Some(Merges.Reference(Merges.Rect(1, 1, 1, 2)))
  {
    var rect := Merges.Rect(1, 1, 1, 2);
    var t := new Table(2, 3);
    var r := t.MergeRectAsWritten(rect);
    asWritten := Merges.Lookup(t.merges.refs, (1, 2));
    var u := new Table(2, 3);
    var q := u.MergeRect(rect);
    corrected := Merges.Lookup(u.merges.refs, (1, 2));
  }
}
