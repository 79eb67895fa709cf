// Row storage of a table tile: the cell buffers of one row are stored back to back in one
// byte string, and a list of signed 16-bit offsets says where each cell's buffer starts
// (-1 for an empty cell). With wide offsets each stored offset counts 4-byte words.

module RowStorage {
  import opened Outcomes
  import opened Bytes

  /** The cell buffers of a row: None for a cell that has no storage. */
  type Cells = seq<Option<seq<byte>>>

  /** The first index at or after `from` whose offset is non-negative. */
  function NextNonNegative(offsets: seq<int>, from: nat): (r: Option<nat>)
    ensures r.Some? ==> from <= r.value < |offsets| && offsets[r.value] >= 0
    ensures r.Some? ==> forall j | from <= j < r.value :: offsets[j] < 0
    ensures r.None? ==> forall j | from <= j < |offsets| :: offsets[j] < 0
    decreases |offsets| - from
  {
    if from >= |offsets| then None
    else if offsets[from] >= 0 then Some(from)
    else NextNonNegative(offsets, from + 1)
  }

  /** Where the buffer of the cell at `col` ends: at the next non-negative offset, or at
      the end of the storage when no later cell has one. */
  function CellEnd(storage: seq<byte>, offsets: seq<int>, col: nat): int
  {
    match NextNonNegative(offsets, col + 1)
    case None => |storage|
    case Some(j) => offsets[j]
  }

  /** The buffer of the cell at `col`, or None when its offset is negative. */
  function CellBuffer(storage: seq<byte>, offsets: seq<int>, col: nat): Option<seq<byte>>
    requires col < |offsets|
  {
    if offsets[col] < 0 then None
    else Some(Slice(storage, offsets[col], CellEnd(storage, offsets, col)))
  }

  /** The stored offsets in bytes: wide offsets count 4-byte words. */
  function Scaled(offsets: seq<int>, wide: bool): (r: seq<int>)
    ensures |r| == |offsets|
    ensures forall i | 0 <= i < |r| :: r[i] == (if wide then 4 * offsets[i] else offsets[i])
  {
    if wide then seq(|offsets|, i requires 0 <= i < |offsets| => 4 * offsets[i]) else offsets
  }

  /** `get_storage_buffers_for_row` as a value. */
  function RowBuffers(storage: seq<byte>, offsetBytes: seq<byte>, numCols: nat, wide: bool)
    : (r: Result<Cells>)
    ensures r.Err? <==> |offsetBytes| % 2 == 1
    ensures r.Err? ==> r.error == ValueError
    ensures r.Ok? ==> |r.value| == if numCols < |offsetBytes| / 2 then numCols else |offsetBytes| / 2
    ensures r.Ok? ==> forall i | 0 <= i < |r.value| ::
      r.value[i].None? <==> Int16Array(offsetBytes).value[i] < 0
  {
    var raw :- Int16Array(offsetBytes);
    var offsets := Scaled(raw, wide);
    var n := if numCols < |offsets| then numCols else |offsets|;
    Ok(seq(n, col requires 0 <= col < n => CellBuffer(storage, offsets, col)))
  }

  /** The loop of `get_storage_buffers_for_row`: one entry per column until the columns or the
      offsets run out. */
  method StorageBuffersForRow(storage: seq<byte>, offsetBytes: seq<byte>, numCols: nat, wide: bool)
    returns (r: Result<Cells>)
    ensures r == RowBuffers(storage, offsetBytes, numCols, wide)
  {
    var raw := Int16Array(offsetBytes);
    if raw.Err? {
      return Err(raw.error);
    }
    var offsets := raw.value;
    if wide {
      offsets := seq(|raw.value|, i requires 0 <= i < |raw.value| => 4 * raw.value[i]);
    }
    assert offsets == Scaled(raw.value, wide);
    var data: Cells := [];
    var col := 0;
    while col < numCols
      invariant 0 <= col <= numCols
      invariant col <= |offsets|
      invariant |data| == col
      invariant forall i | 0 <= i < col :: data[i] == CellBuffer(storage, offsets, i)
    {
      if col >= |offsets| {
        break;
      }
      var cell := CutCell(storage, offsets, col);
      BufferAppended(storage, offsets, data, cell);
      data := data + [cell];
      col := col + 1;
    }
    var n := if numCols < |offsets| then numCols else |offsets|;
    assert col == n;
    assert data == seq(n, c requires 0 <= c < n => CellBuffer(storage, offsets, c));
    return Ok(data);
  }

  /** One pass of the loop: None for a negative offset, otherwise the slice from the offset
      to the end of the cell. */
  method CutCell(storage: seq<byte>, offsets: seq<int>, col: nat) returns (cell: Option<seq<byte>>)
    requires col < |offsets|
    ensures cell == CellBuffer(storage, offsets, col)
  {
    var start := offsets[col];
    if start < 0 {
      return None;
    }
    var end := CellEndOf(storage, offsets, col);
    return Some(Slice(storage, start, end));
  }

  /** The cells cut so far, with the next column's cell appended. */
  lemma BufferAppended(storage: seq<byte>, offsets: seq<int>, data: Cells, cell: Option<seq<byte>>)
    requires |data| < |offsets| && cell == CellBuffer(storage, offsets, |data|)
    requires forall i | 0 <= i < |data| :: data[i] == CellBuffer(storage, offsets, i)
    ensures forall i | 0 <= i <= |data| :: (data + [cell])[i] == CellBuffer(storage, offsets, i)
  {
    forall i | 0 <= i <= |data|
      ensures (data + [cell])[i] == CellBuffer(storage, offsets, i)
    {
      if i < |data| {
        assert (data + [cell])[i] == data[i];
      }
    }
  }

  /** The search for the end of the cell at `col`: the last column ends at the end of the
      storage, any other at the next non-negative offset, if there is one. */
  method CellEndOf(storage: seq<byte>, offsets: seq<int>, col: nat) returns (end: int)
    requires col < |offsets|
    ensures end == CellEnd(storage, offsets, col)
  {
    if col == |offsets| - 1 {
      return |storage|;
    }
    var i := col + 1;
    while i < |offsets|
      invariant col + 1 <= i <= |offsets|
      invariant forall j | col + 1 <= j < i :: offsets[j] < 0
    {
      if offsets[i] >= 0 {
        NextNonNegativeIs(offsets, col + 1, i);
        return offsets[i];
      }
      i := i + 1;
    }
    return |storage|;
  }

  lemma NextNonNegativeIs(offsets: seq<int>, from: nat, i: nat)
    requires from <= i < |offsets| && offsets[i] >= 0
    requires forall j | from <= j < i :: offsets[j] < 0
    ensures NextNonNegative(offsets, from) == Some(i)
    decreases i - from
  {
    if from < i {
      NextNonNegativeIs(offsets, from + 1, i);
    }
  }

  /** Where the first stored cell at or after `from` starts, or the end of the storage. */
  function FirstStart(storage: seq<byte>, offsets: seq<int>, from: nat): int
  {
    match NextNonNegative(offsets, from)
    case None => |storage|
    case Some(j) => offsets[j]
  }

  /** The non-negative offsets never decrease and all lie inside the storage. */
  predicate Ascending(storage: seq<byte>, offsets: seq<int>)
  {
    (forall i, j | 0 <= i < j < |offsets| && offsets[i] >= 0 && offsets[j] >= 0 ::
      offsets[i] <= offsets[j])
    && (forall i | 0 <= i < |offsets| :: offsets[i] <= |storage|)
  }

  /** Every column's buffer, cut at the offsets. */
  function CutAll(storage: seq<byte>, offsets: seq<int>): (r: Cells)
    ensures |r| == |offsets|
  {
    seq(|offsets|, c requires 0 <= c < |offsets| => CellBuffer(storage, offsets, c))
  }

  /** With ascending offsets, the cut buffers of the columns from `k` on are exactly the
      storage from the first of their offsets: nothing is lost and nothing is repeated. */
  lemma {:induction false} CutPartitions(storage: seq<byte>, offsets: seq<int>, k: nat)
    requires Ascending(storage, offsets) && k <= |offsets|
    ensures 0 <= FirstStart(storage, offsets, k) <= |storage|
    ensures Joined(CutAll(storage, offsets)[k..]) == storage[FirstStart(storage, offsets, k)..]
    decreases |offsets| - k
  {
    var cs := CutAll(storage, offsets);
    if k == |offsets| {
      assert cs[k..] == [];
    } else {
      CutPartitions(storage, offsets, k + 1);
      assert cs[k..][1..] == cs[k + 1..];
      var e := FirstStart(storage, offsets, k + 1);
      if offsets[k] >= 0 {
        CutStored(storage, offsets, k);
        assert storage[offsets[k]..] == storage[offsets[k]..e] + storage[e..];
      } else {
        assert NextNonNegative(offsets, k) == NextNonNegative(offsets, k + 1);
      }
    }
  }

  /** A column with an offset is cut from there up to the first offset after it. */
  lemma CutStored(storage: seq<byte>, offsets: seq<int>, k: nat)
    requires Ascending(storage, offsets) && k < |offsets| && offsets[k] >= 0
    ensures FirstStart(storage, offsets, k) == offsets[k] <= FirstStart(storage, offsets, k + 1) <= |storage|
    ensures CutAll(storage, offsets)[k] == Some(storage[offsets[k]..FirstStart(storage, offsets, k + 1)])
  {
    assert NextNonNegative(offsets, k) == Some(k);
    match NextNonNegative(offsets, k + 1)
    case None =>
    case Some(j) =>
  }

  // ---- writing a row: recalculate_row_info ----

  /** The row record written for a tile: `TSTArchives.TileRowInfo` as far as the storage goes. */
  datatype RowInfo = RowInfo(
    storageVersion: int,
    tileRowIndex: int,
    cellCount: nat,
    cellOffsets: seq<byte>,
    cellStorageBuffer: seq<byte>,
    hasWideOffsets: bool)

  /** The cells' buffers back to back, empty cells contributing nothing. */
  function Joined(cells: Cells): (r: seq<byte>)
  {
    if cells == [] then []
    else (if cells[0].Some? then cells[0].value else []) + Joined(cells[1..])
  }

  /** The number of cells that have storage. */
  function Count(cells: Cells): (r: nat)
    ensures r <= |cells|
  {
    if cells == [] then 0 else (if cells[0].Some? then 1 else 0) + Count(cells[1..])
  }

  /** The byte position at which cell k's buffer starts in the joined storage. */
  function Start(cells: Cells, k: nat): nat
    requires k <= |cells|
  {
    |Joined(cells[..k])|
  }

  /** No cell at or past `width` has storage: the offset list, sized by the table's first
      row, has a slot for every stored cell. */
  predicate FitsWidth(cells: Cells, width: nat)
  {
    forall k | width <= k < |cells| :: cells[k].None?
  }

  /** The offsets the row writes: the word offset of each stored cell, -1 for the others, and
      -1 for any column past the row's cells up to `width`. */
  function WideOffsets(cells: Cells, width: nat): (r: seq<int>)
    requires FitsWidth(cells, width)
    ensures |r| == width
  {
    seq(width, k requires 0 <= k < width =>
      if k < |cells| && cells[k].Some? then Start(cells, k) / 4 else -1)
  }

  /** `recalculate_row_info` as a value. `cells` are the `_to_buffer` results of the row's
      cells and `width` is the number of cells of the table's first row, which sizes the
      offset list; a stored cell past that width is an IndexError. */
  function RowInfoOf(cells: Cells, width: nat, tileRowOffset: int, row: int): (r: Result<RowInfo>)
    ensures r.Ok? <==> FitsWidth(cells, width) && PackInt16s(WideOffsets(cells, width)).Ok?
    ensures !FitsWidth(cells, width) ==> r == Err(IndexError)
    ensures r.Ok? ==> r.value.storageVersion == 5 && r.value.hasWideOffsets
    ensures r.Ok? ==> r.value.tileRowIndex == row - tileRowOffset
    ensures r.Ok? ==> r.value.cellCount == Count(cells)
    ensures r.Ok? ==> r.value.cellStorageBuffer == Joined(cells)
    ensures r.Ok? ==> Int16Array(r.value.cellOffsets) == Ok(WideOffsets(cells, width))
  {
    if !FitsWidth(cells, width) then Err(IndexError)
    else
      var offsets :- PackInt16s(WideOffsets(cells, width));
      Int16ArrayOfPacked(WideOffsets(cells, width));
      Ok(RowInfo(5, row - tileRowOffset, Count(cells), offsets, Joined(cells), true))
  }

  /** The loop of `recalculate_row_info`: appends each stored buffer and records its offset
      in words. */
  method RecalculateRowInfo(cells: Cells, width: nat, tileRowOffset: int, row: int)
    returns (r: Result<RowInfo>)
    ensures r == RowInfoOf(cells, width, tileRowOffset, row)
  {
    var offsets := seq(width, _ => -1);
    var storage: seq<byte> := [];
    var count := 0;
    var col := 0;
    while col < |cells|
      invariant 0 <= col <= |cells|
      invariant storage == Joined(cells[..col]) && count == Count(cells[..col])
      invariant |offsets| == width
      invariant forall k | 0 <= k < width && k >= col :: offsets[k] == -1
      invariant forall k | 0 <= k < col && k < width ::
        offsets[k] == if cells[k].Some? then Start(cells, k) / 4 else -1
      invariant forall k | width <= k < col :: cells[k].None?
    {
      JoinedSnoc(cells, col);
      if cells[col].Some? {
        if col >= width {
          return Err(IndexError);
        }
        offsets := offsets[col := |storage| / 4];
        storage := storage + cells[col].value;
        count := count + 1;
      }
      col := col + 1;
    }
    assert cells[..|cells|] == cells;
    assert offsets == WideOffsets(cells, width);
    var packed := PackInt16s(offsets);
    if packed.Err? {
      return Err(packed.error);
    }
    Int16ArrayOfPacked(offsets);
    return Ok(RowInfo(5, row - tileRowOffset, count, packed.value, storage, true));
  }

  lemma {:induction false} JoinedAppend(a: Cells, b: Cells)
    ensures Joined(a + b) == Joined(a) + Joined(b)
    ensures Count(a + b) == Count(a) + Count(b)
  {
    if a == [] {
      assert a + b == b;
    } else {
      var h := if a[0].Some? then a[0].value else [];
      assert (a + b)[0] == a[0];
      assert (a + b)[1..] == a[1..] + b;
      JoinedAppend(a[1..], b);
      assert Joined(a + b) == h + (Joined(a[1..]) + Joined(b));
      assert Joined(a) == h + Joined(a[1..]);
    }
  }

  lemma JoinedSnoc(cells: Cells, k: nat)
    requires k < |cells|
    ensures Joined(cells[..k + 1]) == Joined(cells[..k]) + (if cells[k].Some? then cells[k].value else [])
    ensures Count(cells[..k + 1]) == Count(cells[..k]) + (if cells[k].Some? then 1 else 0)
    ensures Start(cells, k) == |Joined(cells[..k])|
  {
    assert cells[..k + 1] == cells[..k] + [cells[k]];
    JoinedAppend(cells[..k], [cells[k]]);
  }

  // ---- the round trip ----

  /** Every stored buffer is a whole number of 4-byte words, as `_to_buffer` produces. */
  predicate WordAligned(cells: Cells)
  {
    forall k | 0 <= k < |cells| :: cells[k].Some? ==> |cells[k].value| % 4 == 0
  }

  lemma {:induction false} JoinedWordAligned(cells: Cells)
    requires WordAligned(cells)
    ensures |Joined(cells)| % 4 == 0
  {
    if cells != [] {
      JoinedWordAligned(cells[1..]);
    }
  }

  lemma StartNext(cells: Cells, k: nat)
    requires k < |cells|
    ensures Start(cells, k + 1) == Start(cells, k) + (if cells[k].Some? then |cells[k].value| else 0)
  {
    JoinedSnoc(cells, k);
  }

  /** Between two stored cells, the empty ones do not move the start position. */
  lemma {:induction false} StartAcrossEmpty(cells: Cells, from: nat, to: nat)
    requires from <= to <= |cells|
    requires forall j | from <= j < to :: cells[j].None?
    ensures Start(cells, to) == Start(cells, from)
    decreases |cells| - from
  {
    if from < to {
      StartNext(cells, from);
      StartAcrossEmpty(cells, from + 1, to);
    }
  }

  /** The stored buffer of cell k is the slice of the joined storage between its start and
      the next cell's start. */
  lemma CellInJoined(cells: Cells, k: nat)
    requires k < |cells| && cells[k].Some?
    ensures Start(cells, k) <= Start(cells, k + 1) <= |Joined(cells)|
    ensures Joined(cells)[Start(cells, k)..Start(cells, k + 1)] == cells[k].value
  {
    JoinedSnoc(cells, k);
    assert cells == cells[..k + 1] + cells[k + 1..];
    JoinedAppend(cells[..k + 1], cells[k + 1..]);
    MiddleSlice(Joined(cells[..k]), cells[k].value, Joined(cells[k + 1..]));
  }

  lemma MiddleSlice(a: seq<byte>, v: seq<byte>, b: seq<byte>)
    ensures ((a + v) + b)[|a|..|a| + |v|] == v
  {
  }

  lemma WordStart(cells: Cells, k: nat)
    requires k <= |cells| && WordAligned(cells)
    ensures Start(cells, k) % 4 == 0
  {
    assert WordAligned(cells[..k]);
    JoinedWordAligned(cells[..k]);
  }

  /** A written offset, scaled back to bytes, is non-negative exactly for a stored cell, and
      is then where that cell starts. */
  lemma WideOffsetAt(cells: Cells, width: nat, i: nat)
    requires WordAligned(cells) && FitsWidth(cells, width) && |cells| == width
    requires i < |cells|
    ensures var o := Scaled(WideOffsets(cells, width), true)[i];
      (o >= 0 <==> cells[i].Some?) && (cells[i].Some? ==> o == Start(cells, i))
  {
    WordStart(cells, i);
  }

  /** One cell of the round trip: with wide offsets, the slice at a stored cell's offset is
      that cell's buffer. */
  lemma CellRoundTrip(cells: Cells, width: nat, k: nat)
    requires WordAligned(cells) && FitsWidth(cells, width) && |cells| == width
    requires k < |cells|
    ensures CellBuffer(Joined(cells), Scaled(WideOffsets(cells, width), true), k) == cells[k]
  {
    var offsets := Scaled(WideOffsets(cells, width), true);
    var storage := Joined(cells);
    WideOffsetAt(cells, width, k);
    if cells[k].Some? {
      CellInJoined(cells, k);
      var e := CellEnd(storage, offsets, k);
      CellEndIsNextStart(cells, width, k);
      assert CellBuffer(storage, offsets, k) == Some(Slice(storage, Start(cells, k), e));
    }
  }

  /** A stored cell ends where the next stored cell starts, or at the end of the storage. */
  lemma CellEndIsNextStart(cells: Cells, width: nat, k: nat)
    requires WordAligned(cells) && FitsWidth(cells, width) && |cells| == width
    requires k < |cells|
    ensures CellEnd(Joined(cells), Scaled(WideOffsets(cells, width), true), k) == Start(cells, k + 1)
  {
    var offsets := Scaled(WideOffsets(cells, width), true);
    forall i | 0 <= i < |cells|
      ensures StartsAt(cells, offsets, i)
    {
      WideOffsetAt(cells, width, i);
    }
    EndAtNextStart(cells, offsets, k);
  }

  /** Offset i marks cell i: non-negative exactly for a stored cell, and then its start. */
  predicate StartsAt(cells: Cells, offsets: seq<int>, i: nat)
    requires i < |cells| && i < |offsets|
  {
    (offsets[i] >= 0 <==> cells[i].Some?) && (cells[i].Some? ==> offsets[i] == Start(cells, i))
  }

  lemma EndAtNextStart(cells: Cells, offsets: seq<int>, k: nat)
    requires |offsets| == |cells| && k < |cells|
    requires forall i | 0 <= i < |cells| :: StartsAt(cells, offsets, i)
    ensures CellEnd(Joined(cells), offsets, k) == Start(cells, k + 1)
  {
    match NextNonNegative(offsets, k + 1)
    case None =>
      forall j | k + 1 <= j < |cells|
        ensures cells[j].None?
      {
        assert StartsAt(cells, offsets, j);
      }
      StartAcrossEmpty(cells, k + 1, |cells|);
      assert cells[..|cells|] == cells;
    case Some(j) =>
      forall i | k + 1 <= i < j
        ensures cells[i].None?
      {
        assert StartsAt(cells, offsets, i);
      }
      assert StartsAt(cells, offsets, j);
      StartAcrossEmpty(cells, k + 1, j);
  }


  /** Reading back a row written with wide offsets gives back every cell's buffer, when the
      row spans the table's width and its storage fits the 16-bit word offsets. */
  lemma RowRoundTrip(cells: Cells, tileRowOffset: int, row: int)
    requires WordAligned(cells)
    requires RowInfoOf(cells, |cells|, tileRowOffset, row).Ok?
    ensures var info := RowInfoOf(cells, |cells|, tileRowOffset, row).value;
      RowBuffers(info.cellStorageBuffer, info.cellOffsets, |cells|, info.hasWideOffsets) == Ok(cells)
  {
    var info := RowInfoOf(cells, |cells|, tileRowOffset, row).value;
    var offsets := Scaled(WideOffsets(cells, |cells|), true);
    var r := RowBuffers(info.cellStorageBuffer, info.cellOffsets, |cells|, true);
    assert r == Ok(seq(|cells|, c requires 0 <= c < |cells| => CellBuffer(Joined(cells), offsets, c)));
    forall k | 0 <= k < |cells|
      ensures r.value[k] == cells[k]
    {
      CellRoundTrip(cells, |cells|, k);
    }
    assert r.value == cells;
  }

}
