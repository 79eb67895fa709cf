/** Merged cells: the per-table `MergeCells` register (src/numbers_parser/model.py), the
    merge-region map that stores each merge as a packed origin and size, and what a cell takes
    from the register (`Cell._set_merge` in src/numbers_parser/cell.py). Coordinates are
    (row, column) pairs counted from 0. */
module Merges {
  import opened Outcomes
  import A1Notation
  import Uuid
  import Borders

  /** `(row_start, col_start, row_end, col_end)`, both corners included. */
  datatype Rect = Rect(rowStart: int, colStart: int, rowEnd: int, colEnd: int)

  /** `MergeReference` (a cell covered by a merge, with the merge's rectangle) and `MergeAnchor`
      (the top-left cell, with the merge's size in rows and columns). */
  datatype MergeRef = Reference(rect: Rect) | Anchor(rows: int, cols: int)

  predicate InRect(k: (int, int), rect: Rect)
  {
    rect.rowStart <= k.0 <= rect.rowEnd && rect.colStart <= k.1 <= rect.colEnd
  }

  function Origin(rect: Rect): (int, int)
  {
    (rect.rowStart, rect.colStart)
  }

  /** The anchor a rectangle gets: its number of rows and of columns. */
  function AnchorOf(rect: Rect): MergeRef
  {
    Anchor(rect.rowEnd - rect.rowStart + 1, rect.colEnd - rect.colStart + 1)
  }

  /** What the register answers for a coordinate; None is the defaultdict's `False`. */
  function Lookup(refs: map<(int, int), MergeRef>, k: (int, int)): Option<MergeRef>
  {
    if k in refs then Some(refs[k]) else None
  }

  predicate Distinct(keys: seq<(int, int)>)
  {
    forall i, j :: 0 <= i < j < |keys| ==> keys[i] != keys[j]
  }

  /** The keys of `refs` that hold an anchor, in the order of `keys`. */
  function AnchorKeys(refs: map<(int, int), MergeRef>, keys: seq<(int, int)>): (r: seq<(int, int)>)
    ensures forall k :: k in r ==> k in keys && k in refs && refs[k].Anchor?
    ensures forall k :: k in keys && k in refs && refs[k].Anchor? ==> k in r
    ensures Distinct(keys) ==> Distinct(r)
  {
    if keys == [] then []
    else
      var rest := AnchorKeys(refs, keys[1..]);
      assert forall k :: k in keys[1..] ==> k in keys;
      assert Distinct(keys) ==> keys[0] !in keys[1..];
      if keys[0] in refs && refs[keys[0]].Anchor? then [keys[0]] + rest else rest
  }

  /** The keys in first-read order after one more read of `k`: a key read for the first time
      goes to the end. */
  function Touched(order: seq<(int, int)>, k: (int, int)): (r: seq<(int, int)>)
    ensures k in r && order <= r
  {
    if k in order then order else order + [k]
  }

  /** The keys in first-read order after reading each of `keys` in turn. */
  function TouchedAll(order: seq<(int, int)>, keys: seq<(int, int)>): (r: seq<(int, int)>)
    decreases |keys|
  {
    if keys == [] then order else TouchedAll(Touched(order, keys[0]), keys[1..])
  }

  /** A read keeps every stored key listed and no key listed twice. */
  lemma TouchedValid(refs: map<(int, int), MergeRef>, order: seq<(int, int)>, k: (int, int))
    requires (forall k' :: k' in refs ==> k' in order) && Distinct(order)
    ensures (forall k' :: k' in refs ==> k' in Touched(order, k)) && Distinct(Touched(order, k))
  {
  }

  /** Reads extend the order and keep it free of repeats; every key read is listed. */
  lemma {:induction false} TouchedAllValid(refs: map<(int, int), MergeRef>, order: seq<(int, int)>, keys: seq<(int, int)>)
    requires (forall k :: k in refs ==> k in order) && Distinct(order)
    ensures (forall k :: k in refs ==> k in TouchedAll(order, keys)) && Distinct(TouchedAll(order, keys))
    ensures order <= TouchedAll(order, keys) && forall k :: k in keys ==> k in TouchedAll(order, keys)
    decreases |keys|
  {
    if keys != [] {
      var next := Touched(order, keys[0]);
      TouchedValid(refs, order, keys[0]);
      TouchedAllValid(refs, next, keys[1..]);
      forall k | k in keys ensures k in TouchedAll(order, keys) {
        if k != keys[0] {
          assert k in keys[1..];
        }
      }
    }
  }

  /** Reading `a` and then `b` is reading `a + b`. */
  lemma {:induction false} TouchedAllAppend(order: seq<(int, int)>, a: seq<(int, int)>, b: seq<(int, int)>)
    ensures TouchedAll(TouchedAll(order, a), b) == TouchedAll(order, a + b)
    decreases |a|
  {
    if a != [] {
      TouchedAllAppend(Touched(order, a[0]), a[1..], b);
      assert (a + b)[1..] == a[1..] + b;
    } else {
      assert a + b == b;
    }
  }

  /** Reading keys that are new and distinct appends them in the order they are read. */
  lemma {:induction false} TouchedAllFresh(order: seq<(int, int)>, keys: seq<(int, int)>)
    requires Distinct(keys) && forall k :: k in keys ==> k !in order
    ensures TouchedAll(order, keys) == order + keys
    decreases |keys|
  {
    if keys != [] {
      assert keys[0] !in order;
      assert Touched(order, keys[0]) == order + [keys[0]];
      forall k | k in keys[1..] ensures k !in order + [keys[0]] {
        assert k in keys;
        assert k != keys[0];
      }
      TouchedAllFresh(order + [keys[0]], keys[1..]);
      assert order + [keys[0]] + keys[1..] == order + keys;
    }
  }

  /** Reading keys that were all read before leaves the order as it is. */
  lemma {:induction false} TouchedAllKnown(order: seq<(int, int)>, keys: seq<(int, int)>)
    requires forall k :: k in keys ==> k in order
    ensures TouchedAll(order, keys) == order
    decreases |keys|
  {
    if keys != [] {
      assert keys[0] in keys;
      TouchedAllKnown(order, keys[1..]);
    }
  }

  /** `MergeCells`: a `defaultdict` from coordinates to merge references. Every read of a
      missing coordinate (`get`, `is_merge_reference`, `is_merge_anchor`, `size`, `rect`)
      stores the default `False` under it, so `order` lists the coordinates in the order they
      were first read or written, which is the order `merge_cells()` reports anchors in;
      `refs` holds the coordinates whose entry is not the default. */
  class MergeCells {
    var refs: map<(int, int), MergeRef>
    var order: seq<(int, int)>

    /** Every stored entry has a key in `order`, and no key is listed twice. */
    ghost predicate Valid()
      reads this
    {
      (forall k :: k in refs ==> k in order) && Distinct(order)
    }

    constructor ()
      ensures Valid() && refs == map[] && order == []
    {
      refs := map[];
      order := [];
    }

    /** `add_reference`: stores a reference, replacing whatever the coordinate held. */
    method AddReference(row: int, col: int, rect: Rect)
      requires Valid()
      modifies this
      ensures Valid()
      ensures refs == old(refs)[(row, col) := Reference(rect)]
      ensures order == Touched(old(order), (row, col))
    {
      TouchedValid(refs, order, (row, col));
      order := Touched(order, (row, col));
      refs := refs[(row, col) := Reference(rect)];
    }

    /** `add_anchor`: stores an anchor, replacing whatever the coordinate held. */
    method AddAnchor(row: int, col: int, rows: int, cols: int)
      requires Valid()
      modifies this
      ensures Valid()
      ensures refs == old(refs)[(row, col) := Anchor(rows, cols)]
      ensures order == Touched(old(order), (row, col))
    {
      TouchedValid(refs, order, (row, col));
      order := Touched(order, (row, col));
      refs := refs[(row, col) := Anchor(rows, cols)];
    }

    /** `get`: what the coordinate holds, None for the default `False`, which the read stores
        under a coordinate read for the first time. */
    method Get(k: (int, int)) returns (r: Option<MergeRef>)
      requires Valid()
      modifies this
      ensures Valid() && refs == old(refs)
      ensures r == Lookup(refs, k)
      ensures order == Touched(old(order), k)
    {
      TouchedValid(refs, order, k);
      order := Touched(order, k);
      r := Lookup(refs, k);
    }

    /** Reads the coordinates of `keys` in turn, as the loops over a table's cells do. */
    method ReadAll(keys: seq<(int, int)>)
      requires Valid()
      modifies this
      ensures Valid() && refs == old(refs)
      ensures order == TouchedAll(old(order), keys)
    {
      var i := 0;
      while i < |keys|
        invariant 0 <= i <= |keys| && Valid() && refs == old(refs)
        invariant TouchedAll(order, keys[i..]) == TouchedAll(old(order), keys)
      {
        assert keys[i..][1..] == keys[i + 1..];
        var _ := Get(keys[i]);
        i := i + 1;
      }
    }

    /** `is_merge_reference`, without the read's effect on `order` (see `Get`). */
    function IsMergeReference(k: (int, int)): (r: bool)
      reads this
      ensures r <==> Lookup(refs, k).Some? && Lookup(refs, k).value.Reference?
    {
      k in refs && refs[k].Reference?
    }

    /** `is_merge_anchor`, without the read's effect on `order` (see `Get`). */
    function IsMergeAnchor(k: (int, int)): (r: bool)
      reads this
      ensures r <==> Lookup(refs, k).Some? && Lookup(refs, k).value.Anchor?
      ensures r ==> !IsMergeReference(k)
    {
      k in refs && refs[k].Anchor?
    }

    /** `merge_cells`: the anchored coordinates, each once, in the order they were first read
        or stored. */
    function MergeCellsList(): (r: seq<(int, int)>)
      reads this
      requires Valid()
      ensures forall k :: k in r <==> IsMergeAnchor(k)
      ensures Distinct(r)
    {
      AnchorKeys(refs, order)
    }
  }

  /** Row-major order: by row, then by column. */
  predicate RowMajorBefore(a: (int, int), b: (int, int))
  {
    a.0 < b.0 || (a.0 == b.0 && a.1 < b.1)
  }

  predicate RowMajorSorted(keys: seq<(int, int)>)
  {
    forall i, j :: 0 <= i < j < |keys| ==> RowMajorBefore(keys[i], keys[j])
  }

  /** The coordinates of row `row`, left to right. */
  function RowKeys(row: int, cols: nat): (r: seq<(int, int)>)
    ensures |r| == cols && forall c :: 0 <= c < cols ==> r[c] == (row, c)
  {
    seq(cols, c => (row, c))
  }

  /** The coordinates of a grid of `rows` by `cols`, row by row: the order in which loading a
      table (document.py `Table.__init__`) and re-applying merges read the register. */
  function GridKeys(rows: nat, cols: nat): (r: seq<(int, int)>)
  {
    if rows == 0 then [] else GridKeys(rows - 1, cols) + RowKeys(rows - 1, cols)
  }

  /** The grid's coordinates are exactly those inside it, in row-major order, each once. */
  lemma {:induction false} GridKeysSorted(rows: nat, cols: nat)
    ensures RowMajorSorted(GridKeys(rows, cols)) && Distinct(GridKeys(rows, cols))
    ensures forall k :: k in GridKeys(rows, cols) <==> 0 <= k.0 < rows && 0 <= k.1 < cols
  {
    if rows > 0 {
      GridKeysSorted(rows - 1, cols);
      var front, last := GridKeys(rows - 1, cols), RowKeys(rows - 1, cols);
      assert GridKeys(rows, cols) == front + last;
      forall k | k in last ensures k.0 == rows - 1 && 0 <= k.1 < cols {
        var c :| 0 <= c < |last| && last[c] == k;
      }
      forall k: (int, int) | 0 <= k.0 < rows && 0 <= k.1 < cols ensures k in front + last {
        if k.0 == rows - 1 {
          assert last[k.1] == k;
        } else {
          assert k in front;
        }
      }
    }
  }

  /** Reads the coordinates of the first `rows` rows of a grid `cols` wide, row by row, then
      the first `lastRow` coordinates of the next row: the reads of a loop over the grid that
      stops at the cell after those. */
  method ReadGrid(m: MergeCells, rows: nat, cols: nat, lastRow: nat)
    requires m.Valid() && lastRow <= cols
    modifies m
    ensures m.Valid() && m.refs == old(m.refs)
    ensures m.order == TouchedAll(old(m.order), GridKeys(rows, cols) + RowKeys(rows, cols)[..lastRow])
  {
    m.ReadAll(GridKeys(rows, cols) + RowKeys(rows, cols)[..lastRow]);
  }

  /** Reading a whole grid in a register nothing was read from lists its coordinates row by
      row. */
  lemma FreshGridReads(rows: nat, cols: nat)
    ensures TouchedAll([], GridKeys(rows, cols) + RowKeys(rows, cols)[..0]) == GridKeys(rows, cols)
  {
    GridKeysSorted(rows, cols);
    assert GridKeys(rows, cols) + RowKeys(rows, cols)[..0] == GridKeys(rows, cols);
    TouchedAllFresh([], GridKeys(rows, cols));
  }

  /** The anchors picked out of a row-major list of keys come in row-major order. */
  lemma {:induction false} AnchorKeysSorted(refs: map<(int, int), MergeRef>, keys: seq<(int, int)>)
    requires RowMajorSorted(keys)
    ensures RowMajorSorted(AnchorKeys(refs, keys))
  {
    if keys != [] {
      AnchorKeysSorted(refs, keys[1..]);
      var rest := AnchorKeys(refs, keys[1..]);
      forall k | k in rest ensures RowMajorBefore(keys[0], k) {
        var j :| 0 <= j < |keys[1..]| && keys[1..][j] == k;
        assert keys[j + 1] == k;
      }
    }
  }

  /** After a table of `rows` by `cols` has been loaded, and as long as every coordinate read
      or written since lies inside it, `merge_cells()` lists the anchors row by row, whatever
      order the merges were added in. */
  lemma LoadedAnchorsRowMajor(refs: map<(int, int), MergeRef>, rows: nat, cols: nat)
    ensures RowMajorSorted(AnchorKeys(refs, GridKeys(rows, cols)))
  {
    GridKeysSorted(rows, cols);
    AnchorKeysSorted(refs, GridKeys(rows, cols));
  }

  /** Two merges added in the order C3 then A1 to a register whose coordinates were read row by
      row beforehand are reported A1 first: the order of first reads, not of additions. */
  lemma FirstReadOrderExample()
    ensures var refs := map[(2, 2) := Anchor(1, 1), (0, 0) := Anchor(1, 1)];
            AnchorKeys(refs, [(0, 0), (1, 1), (2, 2)]) == [(0, 0), (2, 2)]
  {
  }

  /** The register after a merge has been added: the origin becomes the anchor, every other
      cell of the rectangle a reference, and every cell outside keeps what it had. */
  function Covered(rect: Rect, prior: Option<MergeRef>, k: (int, int)): Option<MergeRef>
  {
    if k == Origin(rect) then Some(AnchorOf(rect))
    else if InRect(k, rect) then Some(Reference(rect))
    else prior
  }

  /** The register after the merges of `rects` have been added in turn. */
  function AfterRects(refs: map<(int, int), MergeRef>, rects: seq<Rect>, k: (int, int)): Option<MergeRef>
  {
    if rects == [] then Lookup(refs, k)
    else Covered(rects[|rects| - 1], AfterRects(refs, rects[..|rects| - 1], k), k)
  }

  /** Cells of `rect` visited by the row-major loop before (row, col). */
  predicate Visited(k: (int, int), rect: Rect, row: int, col: int)
  {
    InRect(k, rect) && (k.0 < row || (k.0 == row && k.1 < col))
  }

  /** The loop body of `calculate_merge_cell_ranges` for one merge: a reference on every cell
      of the rectangle, row by row, then the anchor on its origin. */
  method AddRect(m: MergeCells, rect: Rect)
    requires m.Valid()
    modifies m
    ensures m.Valid()
    ensures old(m.order) <= m.order
    ensures forall k :: Lookup(m.refs, k) == Covered(rect, Lookup(old(m.refs), k), k)
  {
    ghost var before := m.refs;
    var row := rect.rowStart;
    while row <= rect.rowEnd
      invariant m.Valid() && old(m.order) <= m.order
      invariant rect.rowStart <= row && (row <= rect.rowEnd + 1 || row == rect.rowStart)
      invariant forall k :: Lookup(m.refs, k) ==
                            (if Visited(k, rect, row, rect.colStart) then Some(Reference(rect)) else Lookup(before, k))
    {
      var col := rect.colStart;
      while col <= rect.colEnd
        invariant m.Valid() && old(m.order) <= m.order
        invariant rect.colStart <= col && (col <= rect.colEnd + 1 || col == rect.colStart)
        invariant forall k :: Lookup(m.refs, k) ==
                              (if Visited(k, rect, row, col) then Some(Reference(rect)) else Lookup(before, k))
      {
        ghost var prev := m.refs;
        m.AddReference(row, col, rect);
        forall k
          ensures Lookup(m.refs, k) ==
                  (if Visited(k, rect, row, col + 1) then Some(Reference(rect)) else Lookup(before, k))
        {
          assert Lookup(m.refs, k) == if k == (row, col) then Some(Reference(rect)) else Lookup(prev, k);
        }
        col := col + 1;
      }
      row := row + 1;
    }
    var size := AnchorOf(rect);
    m.AddAnchor(rect.rowStart, rect.colStart, size.rows, size.cols);
  }

  /** Adds the merges of `rects` in order. */
  method AddRects(m: MergeCells, rects: seq<Rect>)
    requires m.Valid()
    modifies m
    ensures m.Valid()
    ensures old(m.order) <= m.order
    ensures forall k :: Lookup(m.refs, k) == AfterRects(old(m.refs), rects, k)
  {
    var i := 0;
    while i < |rects|
      invariant 0 <= i <= |rects|
      invariant m.Valid() && old(m.order) <= m.order
      invariant forall k :: Lookup(m.refs, k) == AfterRects(old(m.refs), rects[..i], k)
    {
      AddRect(m, rects[i]);
      assert rects[..i + 1][..i] == rects[..i];
      i := i + 1;
    }
    assert rects[..i] == rects;
  }

  /** A merge keeps its anchor unless a merge added after it covers the origin. */
  lemma {:induction false} AnchorSurvives(refs: map<(int, int), MergeRef>, rects: seq<Rect>, i: nat)
    requires i < |rects|
    requires forall j :: i < j < |rects| ==>
               !InRect(Origin(rects[i]), rects[j]) && Origin(rects[i]) != Origin(rects[j])
    ensures AfterRects(refs, rects, Origin(rects[i])) == Some(AnchorOf(rects[i]))
    decreases |rects|
  {
    var last := |rects| - 1;
    if i < last {
      var front := rects[..last];
      assert forall j :: i < j < |front| ==> front[j] == rects[j];
      AnchorSurvives(refs, front, i);
      var o := Origin(rects[i]);
      assert !InRect(o, rects[last]);
      assert o != Origin(rects[last]);
    }
  }

  /** A coordinate that no merge covers keeps what it had. */
  lemma {:induction false} UncoveredKept(refs: map<(int, int), MergeRef>, rects: seq<Rect>, k: (int, int))
    requires forall j :: 0 <= j < |rects| ==> !InRect(k, rects[j]) && k != Origin(rects[j])
    ensures AfterRects(refs, rects, k) == Lookup(refs, k)
    decreases |rects|
  {
    if rects != [] {
      var front := rects[..|rects| - 1];
      assert forall j :: 0 <= j < |front| ==> front[j] == rects[j];
      UncoveredKept(refs, front, k);
    }
  }

  lemma Pow2Sixteen()
    ensures Uuid.Pow2(16) == 0x1_0000
  {
    assert Uuid.Pow2(2) == 4;
    Uuid.Pow2Add(2, 2);
    assert Uuid.Pow2(4) == 16;
    Uuid.Pow2Add(4, 4);
    assert Uuid.Pow2(8) == 256;
    Uuid.Pow2Add(8, 8);
  }

  /** `hi << 16 | lo` */
  function Pack(hi: nat, lo: nat): nat
  {
    Uuid.BitOr(hi * Uuid.Pow2(16), lo)
  }

  /** `(packed >> 16, packed & 0xFFFF)` */
  function Unpack(packed: nat): (nat, nat)
  {
    (packed / 0x1_0000, packed % 0x1_0000)
  }

  /** Unpacking inverts packing when the low half fits in 16 bits. */
  lemma UnpackPack(hi: nat, lo: nat)
    requires lo < 0x1_0000
    ensures Pack(hi, lo) == hi * 0x1_0000 + lo
    ensures Unpack(Pack(hi, lo)) == (hi, lo)
  {
    Pow2Sixteen();
    Uuid.BitOrDisjoint(hi, lo, 16);
  }

  /** A low half of 16 bits or more spills into the high half: row 65536 of column 0 is read
      back as row 0 of column 1. */
  lemma PackOverflow()
    ensures Pack(0, 0x1_0000) == 0x1_0000
    ensures Unpack(Pack(0, 0x1_0000)) == (1, 0)
  {
  }

  /** A `TSTArchives.CellRange`: the packed origin (`col << 16 | row`) and size
      (`columns << 16 | rows`). */
  datatype CellRange = CellRange(origin: nat, size: nat)

  /** The merge a stored range describes, as `calculate_merge_cell_ranges` unpacks it. */
  function RectOf(range: CellRange): (rect: Rect)
    ensures Origin(rect) == (Unpack(range.origin).1, Unpack(range.origin).0)
    ensures AnchorOf(rect) == Anchor(Unpack(range.size).1, Unpack(range.size).0)
  {
    var (colStart, rowStart) := Unpack(range.origin);
    var (numColumns, numRows) := Unpack(range.size);
    Rect(rowStart, colStart, rowStart + numRows - 1, colStart + numColumns - 1)
  }

  function RectsOf(ranges: seq<CellRange>): (rects: seq<Rect>)
    ensures |rects| == |ranges|
    ensures forall i :: 0 <= i < |ranges| ==> rects[i] == RectOf(ranges[i])
  {
    if ranges == [] then [] else [RectOf(ranges[0])] + RectsOf(ranges[1..])
  }

  /** `calculate_merge_cell_ranges`: first the merges recorded as range dependencies of the
      table's merge owner, then those of the table's merge-region map. */
  method CalculateMergeCellRanges(m: MergeCells, dependencies: seq<Rect>, regions: seq<CellRange>)
    requires m.Valid()
    modifies m
    ensures m.Valid()
    ensures forall k :: Lookup(m.refs, k) == AfterRects(old(m.refs), dependencies + RectsOf(regions), k)
  {
    ghost var before := m.refs;
    AddRects(m, dependencies);
    ghost var middle := m.refs;
    var rects := RectsOf(regions);
    AddRects(m, rects);
    forall k
      ensures Lookup(m.refs, k) == AfterRects(before, dependencies + rects, k)
    {
      AfterRectsAppend(before, middle, dependencies, rects, k);
    }
  }

  lemma {:induction false} AfterRectsAppend(refs: map<(int, int), MergeRef>, middle: map<(int, int), MergeRef>,
                                            first: seq<Rect>, second: seq<Rect>, k: (int, int))
    requires forall k' :: Lookup(middle, k') == AfterRects(refs, first, k')
    ensures AfterRects(middle, second, k) == AfterRects(refs, first + second, k)
    decreases |second|
  {
    if second == [] {
      assert first + second == first;
    } else {
      var front := second[..|second| - 1];
      AfterRectsAppend(refs, middle, first, front, k);
      assert (first + second)[..|first + second| - 1] == first + front;
    }
  }

  /** The stored range for an anchor, or ValueError when a coordinate or a size is negative
      (the archive fields are unsigned). */
  function RangeOf(k: (int, int), anchor: MergeRef): (r: Result<CellRange>)
    requires anchor.Anchor?
    ensures r.Err? <==> k.0 < 0 || k.1 < 0 || anchor.rows < 0 || anchor.cols < 0
    ensures r.Err? ==> r.error == ValueError
  {
    if k.0 < 0 || k.1 < 0 || anchor.rows < 0 || anchor.cols < 0 then Err(ValueError)
    else Ok(CellRange(Pack(k.1, k.0), Pack(anchor.cols, anchor.rows)))
  }

  /** A stored range reads back as the anchor it was written for when every coordinate and
      size fits in 16 bits. */
  lemma RangeRoundTrip(k: (int, int), anchor: MergeRef)
    requires anchor.Anchor?
    requires 0 <= k.0 < 0x1_0000 && 0 <= k.1 && 0 <= anchor.rows < 0x1_0000 && 0 <= anchor.cols
    ensures RangeOf(k, anchor).Ok?
    ensures Origin(RectOf(RangeOf(k, anchor).value)) == k
    ensures AnchorOf(RectOf(RangeOf(k, anchor).value)) == anchor
  {
    UnpackPack(k.1, k.0);
    UnpackPack(anchor.cols, anchor.rows);
  }

  /** `recalculate_merged_cells`: one stored range per anchor, in the register's order. */
  method RecalculateMergedCells(m: MergeCells) returns (r: Result<seq<CellRange>>)
    requires m.Valid()
    ensures r.Ok? ==> |r.value| == |m.MergeCellsList()|
    ensures r.Ok? ==> forall i :: 0 <= i < |r.value| ==>
      var k := m.MergeCellsList()[i]; RangeOf(k, m.refs[k]) == Ok(r.value[i])
    ensures r.Err? <==> exists k :: k in m.MergeCellsList() && RangeOf(k, m.refs[k]).Err?
  {
    var anchors := m.MergeCellsList();
    var ranges := [];
    var i := 0;
    while i < |anchors|
      invariant 0 <= i <= |anchors| && |ranges| == i
      invariant forall j :: 0 <= j < i ==> RangeOf(anchors[j], m.refs[anchors[j]]) == Ok(ranges[j])
    {
      var range := RangeOf(anchors[i], m.refs[anchors[i]]);
      if range.Err? {
        return Err(range.error);
      }
      ranges := ranges + [range.value];
      i := i + 1;
    }
    return Ok(ranges);
  }

  /** What `_set_merge` sets on a cell: `is_merged`, `size`, `merge_range`, `rect`, and the
      sides of its `CellBorder` that lie inside the merge. */
  datatype CellMerge = CellMerge(isMerged: bool, size: Option<(int, int)>, mergeRange: Option<string>,
                                 rect: Option<Rect>, merged: set<Borders.Side>)

  /** `Cell._set_merge` for the cell at (row, col), given what the register holds for it. */
  function SetMerge(row: int, col: int, ref: Option<MergeRef>): (r: Result<CellMerge>)
    ensures r.Err? ==> r.error == IndexError
    ensures ref.None? ==> r == Ok(CellMerge(false, Some((1, 1)), None, None, {}))
    ensures ref.Some? && ref.value.Anchor? ==>
      r == Ok(CellMerge(true, Some((ref.value.rows, ref.value.cols)), None, None, {}))
    ensures ref.Some? && ref.value.Reference? ==>
      (r.Ok? <==> A1Notation.Range(ref.value.rect.rowStart, ref.value.rect.colStart,
                                   ref.value.rect.rowEnd, ref.value.rect.colEnd).Ok?)
    ensures r.Ok? && ref.Some? && ref.value.Reference? ==>
      !r.value.isMerged && r.value.size.None? && r.value.rect == Some(ref.value.rect) &&
      r.value.mergeRange.Some?
  {
    match ref
    case None => Ok(CellMerge(false, Some((1, 1)), None, None, {}))
    case Some(Anchor(rows, cols)) => Ok(CellMerge(true, Some((rows, cols)), None, None, {}))
    case Some(Reference(rect)) =>
      var range :- A1Notation.Range(rect.rowStart, rect.colStart, rect.rowEnd, rect.colEnd);
      Ok(CellMerge(false, None, Some(range), Some(rect), MergedSides(row, col, rect)))
  }

  /** `top_merged`, `right_merged`, `bottom_merged`, `left_merged` */
  function MergedSides(row: int, col: int, rect: Rect): set<Borders.Side>
  {
    (if row > rect.rowStart then {Borders.Top} else {}) + (if col < rect.colEnd then {Borders.Right} else {})
    + (if row < rect.rowEnd then {Borders.Bottom} else {}) + (if col > rect.colStart then {Borders.Left} else {})
  }

  /** The cell across `side`. */
  function Neighbour(row: int, col: int, side: Borders.Side): (int, int)
  {
    match side
    case Top => (row - 1, col)
    case Right => (row, col + 1)
    case Bottom => (row + 1, col)
    case Left => (row, col - 1)
  }

  /** Inside a merge, a side of a covered cell is merged exactly when the cell across it lies in
      the same merge: the border of a merge is drawn only on its outline. */
  lemma MergedSidesAreInterior(row: int, col: int, rect: Rect, side: Borders.Side)
    requires InRect((row, col), rect) && 0 <= rect.rowStart && 0 <= rect.colStart
    ensures SetMerge(row, col, Some(Reference(rect))).Ok?
    ensures side in SetMerge(row, col, Some(Reference(rect))).value.merged <==> InRect(Neighbour(row, col, side), rect)
  {
  }
}
