// The legacy reader's table decoding (numbers_parser/document.py): the per-row cell buffers
// are cut from the row's storage at its 16-bit offsets, and each buffer's type byte decides
// how its value is read.

module LegacyDocument {
  import opened Outcomes
  import opened Bytes
  import RowStorage
  import CellTypes

  type Cells = RowStorage.Cells

  // ---- extract_cell_data, as written ----

  /** Where `extract_cell_data` ends the cell at `col`: one byte before the next non-negative
      offset, or one byte before the end of the buffer. A Python slice end of -1 counts from
      the end of the buffer. */
  function EndAsWritten(buffer: seq<byte>, offsets: seq<int>, col: nat): int
  {
    RowStorage.CellEnd(buffer, offsets, col) - 1
  }

  /** The buffer `extract_cell_data` cuts for the cell at `col`. */
  function CellAsWritten(buffer: seq<byte>, offsets: seq<int>, col: nat): Option<seq<byte>>
    requires col < |offsets|
  {
    if offsets[col] < 0 then None
    else Some(Slice(buffer, offsets[col], EndAsWritten(buffer, offsets, col)))
  }

  /** `extract_cell_data` as a value: a ValueError for offsets of odd length, an IndexError
      when there are fewer offsets than columns, otherwise one entry per column. */
  function ExtractAsWritten(buffer: seq<byte>, offsetBytes: seq<byte>, numCols: nat)
    : (r: Result<Cells>)
    ensures |offsetBytes| % 2 == 1 ==> r == Err(ValueError)
    ensures |offsetBytes| % 2 == 0 && numCols > |offsetBytes| / 2 ==> r == Err(IndexError)
    ensures r.Ok? <==> |offsetBytes| % 2 == 0 && numCols <= |offsetBytes| / 2
    ensures r.Ok? ==> |r.value| == numCols
    ensures r.Ok? ==> forall i | 0 <= i < numCols ::
      r.value[i].None? <==> Int16Array(offsetBytes).value[i] < 0
  {
    var offsets :- Int16Array(offsetBytes);
    if numCols > |offsets| then Err(IndexError)
    else Ok(seq(numCols, c requires 0 <= c < numCols => CellAsWritten(buffer, offsets, c)))
  }

  /** The loop of `extract_cell_data`. */
  method ExtractCellData(buffer: seq<byte>, offsetBytes: seq<byte>, numCols: nat)
    returns (r: Result<Cells>)
    ensures r == ExtractAsWritten(buffer, offsetBytes, numCols)
  {
    var decoded := Int16Array(offsetBytes);
    if decoded.Err? {
      return Err(decoded.error);
    }
    var offsets := decoded.value;
    var data: Cells := [];
    for col := 0 to numCols
      invariant col <= |offsets|
      invariant |data| == col
      invariant forall i | 0 <= i < col :: data[i] == CellAsWritten(buffer, offsets, i)
    {
      if col >= |offsets| {
        return Err(IndexError);
      }
      var cell := CutAsWritten(buffer, offsets, col);
      CutAppended(buffer, offsets, data, cell);
      data := data + [cell];
    }
    assert data == seq(numCols, c requires 0 <= c < numCols => CellAsWritten(buffer, offsets, c));
    return Ok(data);
  }

  /** The cells cut so far, with the next column's cell appended. */
  lemma CutAppended(buffer: seq<byte>, offsets: seq<int>, data: Cells, cell: Option<seq<byte>>)
    requires |data| < |offsets| && cell == CellAsWritten(buffer, offsets, |data|)
    requires forall i | 0 <= i < |data| :: data[i] == CellAsWritten(buffer, offsets, i)
    ensures forall i | 0 <= i <= |data| :: (data + [cell])[i] == CellAsWritten(buffer, offsets, i)
  {
    forall i | 0 <= i <= |data|
      ensures (data + [cell])[i] == CellAsWritten(buffer, offsets, i)
    {
      if i < |data| {
        assert (data + [cell])[i] == data[i];
      }
    }
  }

  /** One pass of `extract_cell_data`: None for a negative offset, otherwise the slice up to
      one byte before the next non-negative offset or before the end of the buffer. */
  method CutAsWritten(buffer: seq<byte>, offsets: seq<int>, col: nat) returns (cell: Option<seq<byte>>)
    requires col < |offsets|
    ensures cell == CellAsWritten(buffer, offsets, col)
  {
    var start := offsets[col];
    if start < 0 {
      return None;
    }
    var idx := RowStorage.NextNonNegative(offsets, col + 1);
    var end := if idx.None? then |buffer| - 1 else offsets[idx.value] - 1;
    return Some(Slice(buffer, start, end));
  }

  // ---- the corrected cut ----

  /** The cut `extract_cell_data` evidently intends: each cell runs up to the next cell's
      offset, or to the end of the buffer, as the newer reader does. */
  function ExtractCorrected(buffer: seq<byte>, offsetBytes: seq<byte>, numCols: nat)
    : (r: Result<Cells>)
    ensures |offsetBytes| % 2 == 1 ==> r == Err(ValueError)
    ensures |offsetBytes| % 2 == 0 && numCols > |offsetBytes| / 2 ==> r == Err(IndexError)
    ensures r.Ok? <==> |offsetBytes| % 2 == 0 && numCols <= |offsetBytes| / 2
    ensures r.Ok? ==> |r.value| == numCols
  {
    var offsets :- Int16Array(offsetBytes);
    if numCols > |offsets| then Err(IndexError)
    else Ok(RowStorage.CutAll(buffer, offsets)[..numCols])
  }

  /** The corrected cut agrees with the newer reader's `get_storage_buffers_for_row` on
      byte offsets, wherever the columns do not outnumber the offsets. */
  lemma CorrectedIsRowBuffers(buffer: seq<byte>, offsetBytes: seq<byte>, numCols: nat)
    requires ExtractCorrected(buffer, offsetBytes, numCols).Ok?
    ensures ExtractCorrected(buffer, offsetBytes, numCols)
      == RowStorage.RowBuffers(buffer, offsetBytes, numCols, false)
  {
    var offsets := Int16Array(offsetBytes).value;
    assert RowStorage.Scaled(offsets, false) == offsets;
    assert RowStorage.CutAll(buffer, offsets)[..numCols]
      == seq(numCols, c requires 0 <= c < numCols => RowStorage.CellBuffer(buffer, offsets, c));
  }

  /** With ascending offsets covering every column, the corrected cells laid end to end are
      the buffer from the first stored cell on: no byte of a cell is lost. */
  lemma CorrectedPartitions(buffer: seq<byte>, offsetBytes: seq<byte>)
    requires Int16Array(offsetBytes).Ok?
    requires RowStorage.Ascending(buffer, Int16Array(offsetBytes).value)
    ensures var offsets := Int16Array(offsetBytes).value;
      ExtractCorrected(buffer, offsetBytes, |offsets|).Ok?
      && RowStorage.Joined(ExtractCorrected(buffer, offsetBytes, |offsets|).value)
         == buffer[RowStorage.FirstStart(buffer, offsets, 0)..]
  {
    var offsets := Int16Array(offsetBytes).value;
    var cs := RowStorage.CutAll(buffer, offsets);
    assert cs[..|offsets|] == cs && cs[0..] == cs;
    RowStorage.CutPartitions(buffer, offsets, 0);
  }

  /** The cell `extract_cell_data` cuts is the intended cell without its last byte. */
  lemma AsWrittenDropsLastByte(buffer: seq<byte>, offsets: seq<int>, col: nat)
    requires col < |offsets| && offsets[col] >= 0
    requires offsets[col] < RowStorage.CellEnd(buffer, offsets, col) <= |buffer|
    ensures var e := RowStorage.CellEnd(buffer, offsets, col);
      RowStorage.CellBuffer(buffer, offsets, col) == Some(buffer[offsets[col]..e])
      && CellAsWritten(buffer, offsets, col) == Some(buffer[offsets[col]..e - 1])
  {
  }

  /** Two 2-byte cells at offsets 0 and 2 of a 4-byte buffer: the legacy reader keeps one
      byte of each, the intended cut keeps both. */
  lemma AsWrittenExample()
    ensures ExtractAsWritten([1, 2, 3, 4], [0, 0, 2, 0], 2) == Ok([Some([1]), Some([3])])
    ensures ExtractCorrected([1, 2, 3, 4], [0, 0, 2, 0], 2) == Ok([Some([1, 2]), Some([3, 4])])
  {
    var buffer: seq<byte> := [1, 2, 3, 4];
    var offsetBytes: seq<byte> := [0, 0, 2, 0];
    var offsets := Int16Array(offsetBytes).value;
    assert Unpack([0, 0], 2, true) == Ok(0);
    assert Unpack([2, 0], 2, true) == Ok(2);
    assert offsets == [0, 2];
    assert RowStorage.NextNonNegative(offsets, 1) == Some(1);
    assert RowStorage.NextNonNegative(offsets, 2) == None;
    assert RowStorage.CellEnd(buffer, offsets, 0) == 2;
    assert RowStorage.CellEnd(buffer, offsets, 1) == 4;
    var written := seq(2, c requires 0 <= c < 2 => CellAsWritten(buffer, offsets, c));
    assert written[0] == Some(Slice(buffer, 0, 1)) == Some(buffer[0..1]);
    assert written[1] == Some(Slice(buffer, 2, 3)) == Some(buffer[2..3]);
    assert buffer[0..1] == [1] && buffer[2..3] == [3];
    assert buffer[0..2] == [1, 2] && buffer[2..4] == [3, 4];
    assert written == [Some([1]), Some([3])];
    var cut := RowStorage.CutAll(buffer, offsets);
    assert cut[0] == Some(Slice(buffer, 0, 2)) == Some(buffer[0..2]);
    assert cut[1] == Some(Slice(buffer, 2, 4)) == Some(buffer[2..4]);
    assert cut[..2] == [Some([1, 2]), Some([3, 4])];
  }

  // ---- Table.data ----

  /** A decoded legacy cell value. Floating-point fields are kept as their 8 little-endian
      IEEE 754 bytes; a date is its seconds since 2001-01-01 in that form. */
  datatype Value =
    | NumberValue(double: seq<byte>)
    | TextValue(text: string)
    | DateValue(seconds: seq<byte>)
    | BoolValue(double: seq<byte>)
    | DurationValue(double: seq<byte>)

  /** The row record of a tile, as far as the legacy reader reads it. */
  datatype RowInfo = RowInfo(
    storageVersion: int,
    cellStorageBuffer: seq<byte>,
    cellOffsets: seq<byte>,
    cellStorageBufferPreBnc: seq<byte>,
    cellOffsetsPreBnc: seq<byte>)

  /** An 8-byte double field of a buffer: struct.error unless the slice is 8 bytes long. */
  function Double(buffer: seq<byte>, from: int): (r: Result<seq<byte>>)
    ensures r.Ok? ==> |r.value| == 8
    ensures r.Err? ==> r.error == StructError
  {
    var raw := Slice(buffer, from, from + 8);
    if |raw| != 8 then Err(StructError) else Ok(raw)
  }

  /** The value of one stored cell: its type byte chooses the field that is read. A missing
      pre-BNC buffer cannot be sliced (TypeError); a string key missing from the table's
      strings is a KeyError. */
  function DecodeCell(version: int, buffer: seq<byte>, preBnc: Option<seq<byte>>,
                      strings: map<int, string>): (r: Result<Value>)
    ensures version != 5 ==> r == Err(UnsupportedError)
    ensures version == 5 && |buffer| < 2 ==> r == Err(IndexError)
    ensures version == 5 && |buffer| >= 2
      && buffer[1] !in {CellTypes.NumberCellType, CellTypes.TextCellType, CellTypes.DateCellType,
                        CellTypes.BoolCellType, CellTypes.DurationCellType}
      ==> r == Err(UnsupportedError)
    ensures r.Ok? && r.value.TextValue? ==> r.value.text in strings.Values
    ensures r.Ok? && r.value.NumberValue? ==> (preBnc.Some? && |preBnc.value| >= 32
         && r.value.double == preBnc.value[24..32])
  {
    if version != 5 then Err(UnsupportedError)
    else if |buffer| < 2 then Err(IndexError)
    else
      var cellType := buffer[1];
      if cellType == CellTypes.NumberCellType then
        if preBnc.None? then Err(TypeError)
        else var d :- Double(preBnc.value, 24); Ok(NumberValue(d))
      else if cellType == CellTypes.TextCellType then
        var key :- Unpack(Slice(buffer, 12, 16), 4, true);
        if key !in strings then Err(KeyError) else Ok(TextValue(strings[key]))
      else if cellType == CellTypes.DateCellType then
        if preBnc.None? then Err(TypeError)
        else var d :- Double(preBnc.value, 24); Ok(DateValue(d))
      else if cellType == CellTypes.BoolCellType then
        var d :- Double(buffer, 12); Ok(BoolValue(d))
      else if cellType == CellTypes.DurationCellType then
        var d :- Double(buffer, 12); Ok(DurationValue(d))
      else Err(UnsupportedError)
  }

  /** The value of the cell at column k of a row: None for a cell without storage. */
  function CellValue(version: int, cells: Cells, pre: Cells, strings: map<int, string>, k: nat)
    : (r: Result<Option<Value>>)
  {
    if k >= |cells| || k >= |pre| then Err(IndexError)
    else if cells[k].None? then Ok(None)
    else
      var v :- DecodeCell(version, cells[k].value, pre[k], strings);
      Ok(Some(v))
  }

  function CellValues(version: int, cells: Cells, pre: Cells, strings: map<int, string>)
    : nat -> Result<Option<Value>>
  {
    (k: nat) => CellValue(version, cells, pre, strings, k)
  }

  /** The values of a row's first n cells, read left to right: None for a cell without
      storage; the first failing cell fails the row. */
  function RowValues(version: int, cells: Cells, pre: Cells, strings: map<int, string>, n: nat)
    : (r: Result<seq<Option<Value>>>)
    requires n <= |cells| && |pre| == |cells|
    ensures r.Ok? ==> |r.value| == n
    ensures r.Ok? ==> forall i | 0 <= i < n :: r.value[i].None? <==> cells[i].None?
    ensures r.Ok? && (exists i | 0 <= i < n :: cells[i].Some?) ==> version == 5
  {
    var f := CellValues(version, cells, pre, strings);
    CollectAll(f, n);
    Collect(f, n)
  }

  /** The column loop of `Table.data` over one row's cut buffers. */
  method ReadRow(version: int, cells: Cells, pre: Cells, strings: map<int, string>)
    returns (r: Result<seq<Option<Value>>>)
    requires |pre| == |cells|
    ensures r == RowValues(version, cells, pre, strings, |cells|)
  {
    var row: seq<Option<Value>> := [];
    ghost var values := CellValues(version, cells, pre, strings);
    for colNum := 0 to |cells|
      invariant Collect(values, colNum) == Ok(row)
    {
      var next := AppendCell(version, cells, pre, strings, colNum, row);
      if next.Err? {
        CollectFailed(values, colNum + 1, |cells|);
        return Err(next.error);
      }
      row := next.value;
    }
    return Ok(row);
  }

  /** One pass of the column loop: the cell's value appended to the row so far. */
  method AppendCell(version: int, cells: Cells, pre: Cells, strings: map<int, string>, colNum: nat,
                    row: seq<Option<Value>>)
    returns (r: Result<seq<Option<Value>>>)
    requires colNum < |cells| == |pre| && Collect(CellValues(version, cells, pre, strings), colNum) == Ok(row)
    ensures r == Collect(CellValues(version, cells, pre, strings), colNum + 1)
  {
    ghost var values := CellValues(version, cells, pre, strings);
    if cells[colNum].None? {
      CollectNext(values, colNum, row, None);
      return Ok(row + [None]);
    }
    var v := DecodeCell(version, cells[colNum].value, pre[colNum], strings);
    if v.Err? {
      assert values(colNum).Err?;
      return Err(v.error);
    }
    CollectNext(values, colNum, row, Some(v.value));
    return Ok(row + [Some(v.value)]);
  }

  /** One pass of `Table.data`'s row loop: cut the row's buffers, then read its cells. */
  method ReadRowInfo(info: RowInfo, numCols: nat, strings: map<int, string>)
    returns (r: Result<seq<Option<Value>>>)
    ensures r == RowData(info, numCols, strings)
  {
    var cells := ExtractCorrected(info.cellStorageBuffer, info.cellOffsets, numCols);
    if cells.Err? {
      return Err(cells.error);
    }
    var pre := ExtractCorrected(info.cellStorageBufferPreBnc, info.cellOffsetsPreBnc, numCols);
    if pre.Err? {
      return Err(pre.error);
    }
    r := ReadRow(info.storageVersion, cells.value, pre.value, strings);
  }

  /** One row of `Table.data`. */
  function RowData(info: RowInfo, numCols: nat, strings: map<int, string>)
    : (r: Result<seq<Option<Value>>>)
    ensures r.Ok? ==> |r.value| == numCols
  {
    var cells :- ExtractCorrected(info.cellStorageBuffer, info.cellOffsets, numCols);
    var pre :- ExtractCorrected(info.cellStorageBufferPreBnc, info.cellOffsetsPreBnc, numCols);
    RowValues(info.storageVersion, cells, pre, strings, numCols)
  }

  /** Row k of the tile, read: an IndexError past the tile's row infos. */
  function RowAt(rowInfos: seq<RowInfo>, numCols: nat, strings: map<int, string>, k: nat)
    : (r: Result<seq<Option<Value>>>)
  {
    if k >= |rowInfos| then Err(IndexError) else RowData(rowInfos[k], numCols, strings)
  }

  function Rows(rowInfos: seq<RowInfo>, numCols: nat, strings: map<int, string>)
    : nat -> Result<seq<Option<Value>>>
  {
    (k: nat) => RowAt(rowInfos, numCols, strings, k)
  }

  /** `Table.data` as a value: one row per row header, read from the tile's row infos. */
  function DataOf(rowInfos: seq<RowInfo>, numRows: nat, numCols: nat, strings: map<int, string>)
    : (r: Result<seq<seq<Option<Value>>>>)
    ensures numRows > |rowInfos| ==> r.Err?
    ensures r.Ok? ==> |r.value| == numRows
    ensures r.Ok? ==> forall i | 0 <= i < numRows :: |r.value[i]| == numCols
  {
    var f := Rows(rowInfos, numCols, strings);
    CollectAll(f, numRows);
    assert numRows > |rowInfos| ==> f(|rowInfos|).Err?;
    Collect(f, numRows)
  }

  /** One pass of `Table.data`'s row loop: the row's values appended to the rows read so
      far, or the pass's error. */
  method AppendRow(rowInfos: seq<RowInfo>, rowNum: nat, numCols: nat, strings: map<int, string>,
                   data: seq<seq<Option<Value>>>)
    returns (r: Result<seq<seq<Option<Value>>>>)
    requires Collect(Rows(rowInfos, numCols, strings), rowNum) == Ok(data)
    ensures r == Collect(Rows(rowInfos, numCols, strings), rowNum + 1)
  {
    ghost var rows := Rows(rowInfos, numCols, strings);
    if rowNum >= |rowInfos| {
      return Err(IndexError);
    }
    var row := ReadRowInfo(rowInfos[rowNum], numCols, strings);
    assert rows(rowNum) == row;
    if row.Err? {
      return Err(row.error);
    }
    CollectNext(rows, rowNum, data, row.value);
    return Ok(data + [row.value]);
  }

  /** A legacy table: its header lists size it, and its tile's row infos and the document's
      string table hold its cells. */
  class Table {
    var rowHeaders: seq<string>
    var columnHeaders: seq<string>
    var rowInfos: seq<RowInfo>
    var strings: map<int, string>

    constructor(rowHeaders: seq<string>, columnHeaders: seq<string>, rowInfos: seq<RowInfo>,
                strings: map<int, string>)
      ensures this.rowHeaders == rowHeaders && this.columnHeaders == columnHeaders
      ensures this.rowInfos == rowInfos && this.strings == strings
    {
      this.rowHeaders := rowHeaders;
      this.columnHeaders := columnHeaders;
      this.rowInfos := rowInfos;
      this.strings := strings;
    }

    /** `num_rows`: the number of row headers. */
    function NumRows(): nat
      reads this
    {
      |rowHeaders|
    }

    /** `num_cols`: the number of column headers. */
    function NumCols(): nat
      reads this
    {
      |columnHeaders|
    }

    /** `Table.data`: a row of values or Nones per row header, with one entry per column
        header. */
    method Data() returns (r: Result<seq<seq<Option<Value>>>>)
      ensures r == DataOf(rowInfos, NumRows(), NumCols(), strings)
      ensures r.Ok? ==>
        |r.value| == |rowHeaders| && forall i | 0 <= i < |r.value| :: |r.value[i]| == |columnHeaders|
    {
      var infos, numRows, numCols := rowInfos, NumRows(), NumCols();
      var data: seq<seq<Option<Value>>> := [];
      ghost var rows := Rows(infos, numCols, strings);
      for rowNum := 0 to numRows
        invariant Collect(rows, rowNum) == Ok(data)
      {
        var next := AppendRow(infos, rowNum, numCols, strings, data);
        if next.Err? {
          CollectFailed(rows, rowNum + 1, numRows);
          return Err(next.error);
        }
        data := next.value;
      }
      return Ok(data);
    }
  }
}
