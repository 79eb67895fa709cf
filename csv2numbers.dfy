/** The CSV converter's data handling (src/numbers_parser/_csv2numbers.py): rows read from a
    CSV file become dicts keyed by the header, cells are coerced to numbers or dates, and the
    command line's column operations (transform, rename, delete) are applied to the header
    and the rows. Reading the file and writing the document are not part of this module. */
module Csv2Numbers {
  import opened Outcomes
  import opened Decimal
  import Text

  // ---------------------------------------------------------------------------------------
  // Column names and cells.

  /** A column name: a header's text, or a number where a name is written with digits only
      or the file has no header. */
  datatype Key = Name(name: string) | Index(index: nat)

  /** `int(x) if x.isnumeric() else x` */
  function KeyOf(x: string): (k: Key)
    ensures k.Index? <==> x != "" && AllDigits(x)
    ensures k.Name? ==> k.name == x
  {
    if x != "" && AllDigits(x) then Index(DigitsValue(x)) else Name(x)
  }

  /** `parse_columns` on the fields of its CSV argument. */
  function ParseColumns(fields: seq<string>): (r: seq<Key>)
    ensures |r| == |fields| && forall i :: 0 <= i < |fields| ==> r[i] == KeyOf(fields[i])
  {
    seq(|fields|, i requires 0 <= i < |fields| => KeyOf(fields[i]))
  }

  /** A cell once loaded: text, a number the text was read as, or a date (the parser's
      timestamp). */
  datatype Value = Text(text: string) | Number(number: real) | Date(stamp: int)

  /** Python's truth value of a cell. */
  predicate Truthy(v: Value)
  {
    match v
    case Text(s) => s != ""
    case Number(x) => x != 0.0
    case Date(_) => true
  }

  /** A data row: the dict from column names to cells. */
  type Row = map<Key, Value>

  // ---------------------------------------------------------------------------------------
  // Whitespace: `re.sub(r"\s+", " ", v.strip())`.

  /** `str.isspace` for one character. */
  predicate IsSpace(c: char)
  {
    var n := c as int;
    9 <= n <= 13 || 28 <= n <= 32 || n == 0x85 || n == 0xA0 || n == 0x1680 || 0x2000 <= n <= 0x200A
    || n == 0x2028 || n == 0x2029 || n == 0x202F || n == 0x205F || n == 0x3000
  }

  /** `s.lstrip()` */
  function TrimStart(s: string): (r: string)
    ensures |r| <= |s| && r == s[|s| - |r|..]
    ensures r == [] || !IsSpace(r[0])
    ensures forall i :: 0 <= i < |s| - |r| ==> IsSpace(s[i])
    ensures s != [] && IsSpace(s[0]) ==> |r| < |s|
  {
    if s != [] && IsSpace(s[0]) then TrimStart(s[1..]) else s
  }

  /** `s.rstrip()` */
  function TrimEnd(s: string): (r: string)
    ensures |r| <= |s| && r == s[..|r|]
    ensures r == [] || !IsSpace(r[|r| - 1])
    ensures r != [] ==> !IsSpace(r[0]) || IsSpace(s[0])
  {
    if s != [] && IsSpace(s[|s| - 1]) then TrimEnd(s[..|s| - 1]) else s
  }

  /** Every run of spaces written as one " ". */
  function Collapse(s: string): (r: string)
    ensures (r == []) == (s == [])
    ensures s != [] ==> (IsSpace(r[0]) <==> IsSpace(s[0])) && (IsSpace(r[|r| - 1]) <==> IsSpace(s[|s| - 1]))
    decreases |s|
  {
    if s == [] then []
    else if IsSpace(s[0]) then
      var t := TrimStart(s);
      assert t != [] ==> t[|t| - 1] == s[|s| - 1];
      " " + Collapse(t)
    else [s[0]] + Collapse(s[1..])
  }

  /** `re.sub(r"\s+", " ", v.strip())` */
  function Squeeze(v: string): string
  {
    Collapse(TrimEnd(TrimStart(v)))
  }

  /** No two spaces next to each other, and every space a plain " ". */
  predicate SingleSpaced(r: string)
  {
    forall i :: 0 <= i < |r| && IsSpace(r[i]) ==> r[i] == ' ' && (i + 1 < |r| ==> !IsSpace(r[i + 1]))
  }

  lemma {:induction false} CollapseSingleSpaced(s: string)
    ensures SingleSpaced(Collapse(s))
    decreases |s|
  {
    if s != [] {
      var r := Collapse(s);
      if IsSpace(s[0]) {
        var t := TrimStart(s);
        CollapseSingleSpaced(t);
        assert r == " " + Collapse(t);
        forall i | 0 <= i < |r| && IsSpace(r[i])
          ensures r[i] == ' ' && (i + 1 < |r| ==> !IsSpace(r[i + 1]))
        {
          if i > 0 {
            assert r[i] == Collapse(t)[i - 1];
          }
        }
      } else {
        CollapseSingleSpaced(s[1..]);
        assert r == [s[0]] + Collapse(s[1..]);
        forall i | 0 <= i < |r| && IsSpace(r[i])
          ensures r[i] == ' ' && (i + 1 < |r| ==> !IsSpace(r[i + 1]))
        {
          assert i > 0;
          assert r[i] == Collapse(s[1..])[i - 1];
        }
      }
    }
  }

  /** A squeezed cell neither starts nor ends with a space and holds single " " spaces
      only. */
  lemma SqueezeShape(v: string)
    ensures var r := Squeeze(v);
            SingleSpaced(r) && (r == [] || (!IsSpace(r[0]) && !IsSpace(r[|r| - 1])))
  {
    var t := TrimStart(v);
    var u := TrimEnd(t);
    assert u == [] || (!IsSpace(u[0]) && !IsSpace(u[|u| - 1]));
    CollapseSingleSpaced(u);
  }

  // ---------------------------------------------------------------------------------------
  // `_transform_data`: rows to dicts, reversal, coercion.

  /** The options the converter is built with. `dateColumns` None is no `--date` option. */
  datatype Options = Options(noHeader: bool, reverse: bool, whitespace: bool, dateColumns: Option<seq<Key>>)

  /** `dict(zip(header, cells))`: pairs up to the shorter of the two, a later pair for the
      same name overriding an earlier one. */
  function Zip(header: seq<Key>, cells: seq<string>): (r: map<Key, string>)
    ensures forall k :: k in r ==> exists i :: 0 <= i < |header| && i < |cells| && header[i] == k
    decreases |header|
  {
    if header == [] || cells == [] then map[]
    else map[header[0] := cells[0]] + Zip(header[1..], cells[1..])
  }

  /** `v.replace(",", "")` */
  function RemoveCommas(v: string): (r: string)
    ensures forall i :: 0 <= i < |r| ==> r[i] != ','
  {
    if v == [] then []
    else (if v[0] == ',' then [] else [v[0]]) + RemoveCommas(v[1..])
  }

  /** One cell of the coercion loop. A date column's cell is parsed as a date, and a parse
      failure raises ValueError. Any other cell becomes a number when `float` accepts it
      with its commas removed, and otherwise stays text, squeezed when asked. The date
      parser and `float` are parameters. */
  function Coerced(o: Options, parseDate: string -> Option<int>, toFloat: string -> Option<real>,
                   k: Key, v: string): (r: Result<Value>)
    ensures r.Err? ==> r.error == ValueError && o.dateColumns.Some? && k in o.dateColumns.value
  {
    if o.dateColumns.Some? && k in o.dateColumns.value then
      match parseDate(v)
      case Some(d) => Ok(Date(d))
      case None => Err(ValueError)
    else
      match toFloat(RemoveCommas(v))
      case Some(x) => Ok(Number(x))
      case None => Ok(Text(if o.whitespace then Squeeze(v) else v))
  }

  /** A row with every cell coerced; ValueError when a date cell does not parse. */
  function CoercedRow(o: Options, parseDate: string -> Option<int>, toFloat: string -> Option<real>,
                      row: map<Key, string>): (r: Result<Row>)
    ensures r.Ok? ==> r.value.Keys == row.Keys
    ensures r.Err? <==> exists k :: k in row && Coerced(o, parseDate, toFloat, k, row[k]).Err?
  {
    if exists k :: k in row && Coerced(o, parseDate, toFloat, k, row[k]).Err? then Err(ValueError)
    else Ok(map k | k in row :: Coerced(o, parseDate, toFloat, k, row[k]).value)
  }

  function CoercedRows(o: Options, parseDate: string -> Option<int>, toFloat: string -> Option<real>,
                       rows: seq<map<Key, string>>): (r: Result<seq<Row>>)
    ensures r.Ok? ==> |r.value| == |rows|
    ensures r.Ok? ==> forall i :: 0 <= i < |rows| ==> CoercedRow(o, parseDate, toFloat, rows[i]) == Ok(r.value[i])
  {
    if rows == [] then Ok([])
    else
      var first :- CoercedRow(o, parseDate, toFloat, rows[0]);
      var rest :- CoercedRows(o, parseDate, toFloat, rows[1..]);
      Ok([first] + rest)
  }

  function Reversed<T>(s: seq<T>): (r: seq<T>)
    ensures |r| == |s| && forall i :: 0 <= i < |s| ==> r[i] == s[|s| - 1 - i]
  {
    seq(|s|, i requires 0 <= i < |s| => s[|s| - 1 - i])
  }

  /** The column numbers a file without a header is given: 0 to n - 1. */
  function Indexes(n: nat): (r: seq<Key>)
    ensures |r| == n && forall i :: 0 <= i < n ==> r[i] == Index(i)
  {
    seq(n, i requires 0 <= i < n => Index(i))
  }

  /** The header: the file's first line, or the column numbers of the first row when the
      file has none (IndexError when there is no row to count). */
  function HeaderKeys(o: Options, header: seq<string>, lines: seq<seq<string>>): (r: Result<seq<Key>>)
    ensures r.Err? <==> o.noHeader && lines == []
  {
    if !o.noHeader then Ok(seq(|header|, i requires 0 <= i < |header| => Name(header[i])))
    else if lines == [] then Err(IndexError)
    else Ok(Indexes(|lines[0]|))
  }

  /** The rows as dicts, last line first when reversing. */
  function Dicts(h: seq<Key>, lines: seq<seq<string>>, reverse: bool): (r: seq<map<Key, string>>)
    ensures |r| == |lines|
    ensures forall i :: 0 <= i < |lines| ==> r[i] == Zip(h, if reverse then lines[|lines| - 1 - i] else lines[i])
  {
    var dicts := seq(|lines|, i requires 0 <= i < |lines| => Zip(h, lines[i]));
    if reverse then Reversed(dicts) else dicts
  }

  /** `_transform_data` on the header and the rows the CSV reader returned. */
  function TransformData(o: Options, parseDate: string -> Option<int>, toFloat: string -> Option<real>,
                         header: seq<string>, lines: seq<seq<string>>): (r: Result<(seq<Key>, seq<Row>)>)
    ensures r.Ok? ==> |r.value.1| == |lines|
  {
    var h :- HeaderKeys(o, header, lines);
    var rows :- CoercedRows(o, parseDate, toFloat, Dicts(h, lines, o.reverse));
    Ok((h, rows))
  }

  /** With `reverse` the rows come out last line first; each row holds the cells of its own
      line, under the header's names. */
  lemma TransformDataOrder(o: Options, parseDate: string -> Option<int>, toFloat: string -> Option<real>,
                           header: seq<string>, lines: seq<seq<string>>, i: nat)
    requires TransformData(o, parseDate, toFloat, header, lines).Ok? && i < |lines|
    ensures CoercedRow(o, parseDate, toFloat, Zip(HeaderKeys(o, header, lines).value,
                                                   if o.reverse then lines[|lines| - 1 - i] else lines[i]))
            == Ok(TransformData(o, parseDate, toFloat, header, lines).value.1[i])
  {
    var h := HeaderKeys(o, header, lines).value;
    var d := Dicts(h, lines, o.reverse);
    TransformDataRows(o, parseDate, toFloat, header, lines, h, d);
    CoercedRowAt(o, parseDate, toFloat, d, i);
    DictAt(h, lines, o.reverse, i);
  }

  lemma DictAt(h: seq<Key>, lines: seq<seq<string>>, reverse: bool, i: nat)
    requires i < |lines|
    ensures Dicts(h, lines, reverse)[i] == Zip(h, if reverse then lines[|lines| - 1 - i] else lines[i])
  {
  }

  lemma CoercedRowAt(o: Options, parseDate: string -> Option<int>, toFloat: string -> Option<real>,
                     d: seq<map<Key, string>>, i: nat)
    requires CoercedRows(o, parseDate, toFloat, d).Ok? && i < |d|
    ensures CoercedRow(o, parseDate, toFloat, d[i]) == Ok(CoercedRows(o, parseDate, toFloat, d).value[i])
  {
  }

  lemma TransformDataRows(o: Options, parseDate: string -> Option<int>, toFloat: string -> Option<real>,
                          header: seq<string>, lines: seq<seq<string>>, h: seq<Key>, d: seq<map<Key, string>>)
    requires TransformData(o, parseDate, toFloat, header, lines).Ok?
    requires h == HeaderKeys(o, header, lines).value && d == Dicts(h, lines, o.reverse)
    ensures CoercedRows(o, parseDate, toFloat, d).Ok?
    ensures TransformData(o, parseDate, toFloat, header, lines).value.1 == CoercedRows(o, parseDate, toFloat, d).value
  {
  }

  /** A cell that is not in a date column and that `float` reads, commas removed, becomes
      that number; one it does not read stays text. */
  lemma CoercionRule(o: Options, parseDate: string -> Option<int>, toFloat: string -> Option<real>, k: Key, v: string)
    requires o.dateColumns.None? || k !in o.dateColumns.value
    ensures toFloat(RemoveCommas(v)).Some? ==> Coerced(o, parseDate, toFloat, k, v) == Ok(Number(toFloat(RemoveCommas(v)).value))
    ensures toFloat(RemoveCommas(v)).None? ==> Coerced(o, parseDate, toFloat, k, v).Ok? && Coerced(o, parseDate, toFloat, k, v).value.Text?
  {
  }

  // ---------------------------------------------------------------------------------------
  // Transformers.

  /** The lookup dict a LOOKUP transform reads from its document, as its items in order:
      the first column's texts, each with the second column's cell. */
  type LookupTable = seq<(string, Value)>

  /** A column transform: MERGE of its sources into `dest`, or LOOKUP of its one source in
      a table. */
  datatype Transform =
    | Merge(sources: seq<Key>, dest: Key)
    | Lookup(source: Key, dest: Key, table: LookupTable)
  {
    function Sources(): seq<Key>
    {
      if Merge? then sources else [source]
    }
  }

  /** `[int(x) if x.isnumeric() else x for x in source.split(";")]` */
  function SourceKeys(source: string): (r: seq<Key>)
    ensures |r| == |Text.Split(source, ';')|
  {
    ParseColumns(Text.Split(source, ';'))
  }

  /** `MergeTransformer(source, dest)` */
  function NewMerge(source: string, dest: string): (t: Transform)
    ensures t.Merge? && t.sources == SourceKeys(source) && t.dest == KeyOf(dest)
  {
    Merge(SourceKeys(source), KeyOf(dest))
  }

  /** `LookupTransformer(source, dest)`: `source` must name exactly a column and a
      document, else RuntimeError. `table` is the document's first table, None when the
      file does not exist or does not load (RuntimeError too). */
  function NewLookup(source: string, dest: string, table: Option<LookupTable>): (r: Result<Transform>)
    ensures r.Err? ==> r.error == RuntimeError
    ensures r.Ok? <==> |SourceKeys(source)| == 2 && table.Some?
    ensures r.Ok? ==> r.value == Lookup(SourceKeys(source)[0], KeyOf(dest), table.value)
  {
    var sources := SourceKeys(source);
    if |sources| != 2 then Err(RuntimeError)
    else if table.None? then Err(RuntimeError)
    else Ok(Lookup(sources[0], KeyOf(dest), table.value))
  }

  /** The first truthy cell among `sources`, or "". */
  function FirstTruthy(row: Row, sources: seq<Key>): (v: Value)
    requires forall k :: k in sources ==> k in row
  {
    if sources == [] then Text("")
    else if Truthy(row[sources[0]]) then row[sources[0]]
    else FirstTruthy(row, sources[1..])
  }

  /** MERGE gives the first truthy source cell in source order, or "" when none is: every
      earlier source is falsy, and the result is "" only when all are. */
  lemma {:induction false} FirstTruthyIsFirst(row: Row, sources: seq<Key>)
    requires forall k :: k in sources ==> k in row
    ensures var v := FirstTruthy(row, sources);
            (v == Text("") && forall j :: 0 <= j < |sources| ==> !Truthy(row[sources[j]]))
            || (exists i :: 0 <= i < |sources| && v == row[sources[i]] && Truthy(v)
                                && forall j :: 0 <= j < i ==> !Truthy(row[sources[j]]))
  {
    if sources != [] && !Truthy(row[sources[0]]) {
      FirstTruthyIsFirst(row, sources[1..]);
      var v := FirstTruthy(row, sources[1..]);
      if v == Text("") && forall j :: 0 <= j < |sources| - 1 ==> !Truthy(row[sources[1..][j]]) {
        assert forall j :: 0 <= j < |sources| ==> !Truthy(row[sources[j]]) by {
          forall j | 0 <= j < |sources|
            ensures !Truthy(row[sources[j]])
          {
            if j > 0 {
              assert sources[j] == sources[1..][j - 1];
            }
          }
        }
      } else {
        var i :| 0 <= i < |sources| - 1 && v == row[sources[1..][i]] && Truthy(v)
                 && forall j :: 0 <= j < i ==> !Truthy(row[sources[1..][j]]);
        assert v == row[sources[i + 1]];
        forall j | 0 <= j < i + 1
          ensures !Truthy(row[sources[j]])
        {
          if j > 0 {
            assert sources[j] == sources[1..][j - 1];
          }
        }
      }
    }
  }

  /** A table key matches a cell that contains it, ignoring case. */
  predicate KeyMatches(key: string, cell: string)
  {
    Text.Contains(Text.Lower(cell), Text.Lower(key))
  }

  /** `max(matches, key=len)`: among the first `n` entries, the index of the longest
      matching key, the first such on ties. */
  function Best(table: LookupTable, cell: string, n: nat): (r: Option<nat>)
    requires n <= |table|
    ensures r.Some? ==> r.value < n
  {
    if n == 0 then None
    else
      var b := Best(table, cell, n - 1);
      if KeyMatches(table[n - 1].0, cell) && (b.None? || |table[n - 1].0| > |table[b.value].0|) then Some(n - 1)
      else b
  }

  /** LOOKUP picks the value of the longest matching key, first on ties, and nothing when no
      key matches. */
  lemma {:induction false} BestIsLongest(table: LookupTable, cell: string, n: nat)
    requires n <= |table|
    ensures Best(table, cell, n).None? <==> forall j :: 0 <= j < n ==> !KeyMatches(table[j].0, cell)
    ensures Best(table, cell, n).Some? ==>
              var i := Best(table, cell, n).value;
              KeyMatches(table[i].0, cell)
              && (forall j :: 0 <= j < n && KeyMatches(table[j].0, cell) ==> |table[j].0| <= |table[i].0|)
              && (forall j :: 0 <= j < i && KeyMatches(table[j].0, cell) ==> |table[j].0| < |table[i].0|)
  {
    if n > 0 {
      BestIsLongest(table, cell, n - 1);
    }
  }

  /** `LookupTransformer.transform_row`. The source cell is read once per table entry, so
      with an empty table nothing is read and the result is ""; otherwise a row without the
      source column raises KeyError, and a cell that is not text AttributeError (a number
      has no `lower`). */
  function LookedUp(table: LookupTable, source: Key, dest: Key, row: Row): (r: Result<Row>)
    ensures r.Ok? ==> r.value.Keys == row.Keys + {dest}
    ensures table == [] ==> r == Ok(row[dest := Text("")])
  {
    if table == [] then Ok(row[dest := Text("")])
    else if source !in row then Err(KeyError)
    else if !row[source].Text? then Err(AttributeError)
    else
      var b := Best(table, row[source].text, |table|);
      Ok(row[dest := if b.Some? then table[b.value].1 else Text("")])
  }

  /** `transform_row` of either kind. For MERGE a source missing from the row raises
      KeyError. */
  function TransformedRow(t: Transform, row: Row): (r: Result<Row>)
  {
    match t
    case Merge(sources, dest) =>
      if exists k :: k in sources && k !in row then Err(KeyError)
      else Ok(row[dest := FirstTruthy(row, sources)])
    case Lookup(source, dest, table) => LookedUp(table, source, dest, row)
  }

  function TransformedRows(t: Transform, rows: seq<Row>): (r: Result<seq<Row>>)
    ensures r.Ok? ==> |r.value| == |rows|
  {
    if rows == [] then Ok([])
    else
      var front :- TransformedRows(t, rows[..|rows| - 1]);
      var last :- TransformedRow(t, rows[|rows| - 1]);
      Ok(front + [last])
  }

  /** One transform: RuntimeError when a source is not a column, else every row
      transformed, and `dest` appended to the header when it is new. */
  function Transformed(header: seq<Key>, rows: seq<Row>, t: Transform): (r: Result<(seq<Key>, seq<Row>)>)
    ensures r.Ok? ==> r.value.0 == (if t.dest in header then header else header + [t.dest])
    ensures (exists k :: k in t.Sources() && k !in header) ==> r == Err(RuntimeError)
  {
    if exists k :: k in t.Sources() && k !in header then Err(RuntimeError)
    else
      var out :- TransformedRows(t, rows);
      Ok((if t.dest in header then header else header + [t.dest], out))
  }

  /** The transforms in order, stopping at the first that raises. */
  function TransformedAll(header: seq<Key>, rows: seq<Row>, ts: seq<Transform>): Result<(seq<Key>, seq<Row>)>
  {
    if ts == [] then Ok((header, rows))
    else
      var (h, d) :- TransformedAll(header, rows, ts[..|ts| - 1]);
      Transformed(h, d, ts[|ts| - 1])
  }

  // ---------------------------------------------------------------------------------------
  // Renaming and deleting columns.

  /** `[mapper[x] if x in mapper else x for x in header]` */
  function Renamed(header: seq<Key>, mapper: map<Key, string>): (r: seq<Key>)
    ensures |r| == |header|
    ensures forall i :: 0 <= i < |header| ==> r[i] == if header[i] in mapper then Name(mapper[header[i]]) else header[i]
  {
    seq(|header|, i requires 0 <= i < |header| => if header[i] in mapper then Name(mapper[header[i]]) else header[i])
  }

  /** `del header[header.index(col)]`: the first occurrence removed, ValueError when there is
      none. */
  function RemoveFirst(header: seq<Key>, col: Key): (r: Result<seq<Key>>)
    ensures r.Ok? <==> col in header
    ensures r.Err? ==> r.error == ValueError
    ensures r.Ok? ==> multiset(r.value) == multiset(header) - multiset{col}
  {
    if header == [] then Err(ValueError)
    else if header[0] == col then
      assert header == [header[0]] + header[1..];
      Ok(header[1..])
    else
      var rest :- RemoveFirst(header[1..], col);
      assert header == [header[0]] + header[1..];
      Ok([header[0]] + rest)
  }

  /** The header loop of `delete_columns`. A column named twice is found only once, so its
      second removal raises ValueError. */
  function RemovedAll(header: seq<Key>, columns: seq<Key>): (r: Result<seq<Key>>)
    ensures r.Err? ==> r.error == ValueError
    ensures r.Ok? ==> multiset(r.value) == multiset(header) - multiset(columns)
  {
    if columns == [] then Ok(header)
    else
      var h :- RemovedAll(header, columns[..|columns| - 1]);
      assert columns == columns[..|columns| - 1] + [columns[|columns| - 1]];
      RemoveFirst(h, columns[|columns| - 1])
  }

  lemma {:induction false} RemovedAllFailStays(header: seq<Key>, columns: seq<Key>, n: nat)
    requires n <= |columns| && RemovedAll(header, columns[..n]).Err?
    ensures RemovedAll(header, columns).Err?
    decreases |columns|
  {
    if n < |columns| {
      var front := columns[..|columns| - 1];
      assert front[..n] == columns[..n];
      RemovedAllFailStays(header, front, n);
      RemovedAllFailStep(header, columns);
    } else {
      assert columns[..n] == columns;
    }
  }

  lemma RemovedAllFailStep(header: seq<Key>, columns: seq<Key>)
    requires columns != [] && RemovedAll(header, columns[..|columns| - 1]).Err?
    ensures RemovedAll(header, columns).Err?
  {
  }

  /** The row loop of `delete_columns` for one row: `del row[col]` for each column, KeyError
      when the row has no such cell. */
  function RowWithout(row: Row, columns: seq<Key>): (r: Result<Row>)
    ensures r.Ok? ==> r.value == row - set k | k in columns
    ensures r.Ok? <==> forall j :: 0 <= j < |columns| ==> columns[j] in row && columns[j] !in columns[..j]
  {
    if columns == [] then Ok(row)
    else
      var front := columns[..|columns| - 1];
      var last := columns[|columns| - 1];
      var r :- RowWithout(row, front);
      if last !in r then Err(KeyError)
      else
        assert columns == front + [last];
        Ok(r - {last})
  }

  function RowsWithout(rows: seq<Row>, columns: seq<Key>): (r: Result<seq<Row>>)
    ensures r.Ok? ==> |r.value| == |rows|
    ensures r.Ok? ==> forall i :: 0 <= i < |rows| ==> RowWithout(rows[i], columns) == Ok(r.value[i])
  {
    if rows == [] then Ok([])
    else
      var front :- RowsWithout(rows[..|rows| - 1], columns);
      var last :- RowWithout(rows[|rows| - 1], columns);
      Ok(front + [last])
  }

  /** The columns of `columns` that the header does not hold. */
  function Missing(header: seq<Key>, columns: seq<Key>): set<Key>
  {
    set k | k in columns && k !in header
  }

  /** Distinct columns, all in the header, delete cleanly from the header: every one loses
      one occurrence. */
  lemma {:induction false} RemovedAllDistinct(header: seq<Key>, columns: seq<Key>)
    requires Missing(header, columns) == {}
    requires forall i, j :: 0 <= i < j < |columns| ==> columns[i] != columns[j]
    ensures RemovedAll(header, columns).Ok?
  {
    if columns != [] {
      var front := columns[..|columns| - 1];
      var last := columns[|columns| - 1];
      MissingPrefix(header, columns);
      assert forall i, j :: 0 <= i < j < |front| ==> front[i] != front[j];
      RemovedAllDistinct(header, front);
      var h := RemovedAll(header, front).value;
      assert last !in front by {
        forall i | 0 <= i < |front|
          ensures front[i] != last
        {
          assert columns[i] != columns[|columns| - 1];
        }
      }
      assert last in header by {
        assert last in columns;
        assert last !in header ==> last in Missing(header, columns);
      }
      assert multiset(h)[last] == multiset(header)[last] - multiset(front)[last];
      assert last in h;
    }
  }

  lemma MissingPrefix(header: seq<Key>, columns: seq<Key>)
    requires columns != [] && Missing(header, columns) == {}
    ensures Missing(header, columns[..|columns| - 1]) == {}
  {
    var front := columns[..|columns| - 1];
    forall k | k in front
      ensures k in header
    {
      assert k in columns;
      assert k !in header ==> k in Missing(header, columns);
    }
  }

  // ---------------------------------------------------------------------------------------
  // `parse_column_renames`.

  /** The number of times `c` occurs in `s`. */
  function Count(s: string, c: char): nat
  {
    if s == [] then 0 else (if s[0] == c then 1 else 0) + Count(s[1..], c)
  }

  /** The mapper built from the first `n` mappings of the `--rename` argument; each must be
      "OLD:NEW" with exactly one ":", else ArgumentTypeError. A later mapping of the same
      old name wins. */
  function Renames(fields: seq<string>): (r: Result<map<Key, string>>)
    ensures r.Err? ==> r.error == ArgumentTypeError
  {
    if fields == [] then Ok(map[])
    else
      var mapper :- Renames(fields[..|fields| - 1]);
      var mapping := fields[|fields| - 1];
      if Count(mapping, ':') != 1 then Err(ArgumentTypeError)
      else
        var parts := Text.Split(mapping, ':');
        if |parts| != 2 then Err(ArgumentTypeError)
        else Ok(mapper[KeyOf(parts[0]) := parts[1]])
  }

  /** A piece without ":" followed by ":" and another such piece splits into those two. */
  lemma OneColonSplits(before: string, after: string)
    requires forall j :: 0 <= j < |before| ==> before[j] != ':'
    requires forall j :: 0 <= j < |after| ==> after[j] != ':'
    ensures Text.Split(before + ":" + after, ':') == [before, after]
  {
    Text.SplitPiece(after, [], ':');
    Text.SplitPiece(before, after, ':');
  }

  /** A "OLD:NEW" mapping renames OLD, read as a number when written with digits only, to
      NEW. */
  lemma RenameMapping(fields: seq<string>, before: string, after: string)
    requires Renames(fields).Ok?
    requires forall j :: 0 <= j < |before| ==> before[j] != ':'
    requires forall j :: 0 <= j < |after| ==> after[j] != ':'
    ensures Renames(fields + [before + ":" + after]) == Ok(Renames(fields).value[KeyOf(before) := after])
  {
    var m := before + ":" + after;
    OneColonSplits(before, after);
    CountNone(before);
    CountNone(after);
    CountAppend(before, ":" + after);
    assert (":" + after)[1..] == after;
    assert Count(":" + after, ':') == 1 + Count(after, ':');
    assert m == before + (":" + after);
    assert Count(m, ':') == 1;
    var all := fields + [m];
    assert all[..|all| - 1] == fields && all[|all| - 1] == m;
  }

  lemma {:induction false} CountNone(s: string)
    requires forall j :: 0 <= j < |s| ==> s[j] != ':'
    ensures Count(s, ':') == 0
  {
    if s != [] {
      CountNone(s[1..]);
    }
  }

  lemma {:induction false} CountAppend(a: string, b: string)
    ensures Count(a + b, ':') == Count(a, ':') + Count(b, ':')
  {
    if a != [] {
      assert (a + b)[1..] == a[1..] + b;
      CountAppend(a[1..], b);
    } else {
      assert a + b == b;
    }
  }

  /** "foo" is not a rename map. */
  lemma RenameWithoutColon()
    ensures Renames(["foo"]) == Err(ArgumentTypeError)
  {
    assert Count("foo", ':') == 0;
  }

  lemma {:induction false} RenamesFailStay(fields: seq<string>, n: nat)
    requires n <= |fields| && Renames(fields[..n]).Err?
    ensures Renames(fields).Err?
    decreases |fields| - n
  {
    if n < |fields| {
      assert fields[..n + 1][..n] == fields[..n];
      RenamesFailStay(fields, n + 1);
    } else {
      assert fields[..n] == fields;
    }
  }

  /** `parse_column_renames` on the fields of its CSV argument: one pass per mapping. */
  method ParseColumnRenames(fields: seq<string>) returns (r: Result<map<Key, string>>)
    ensures r == Renames(fields)
  {
    var mapper: map<Key, string> := map[];
    for i := 0 to |fields|
      invariant Renames(fields[..i]) == Ok(mapper)
    {
      assert fields[..i + 1][..i] == fields[..i];
      var mapping := fields[i];
      if Count(mapping, ':') != 1 {
        RenamesFailStay(fields, i + 1);
        return Err(ArgumentTypeError);
      }
      var parts := Text.Split(mapping, ':');
      if |parts| != 2 {
        RenamesFailStay(fields, i + 1);
        return Err(ArgumentTypeError);
      }
      mapper := mapper[KeyOf(parts[0]) := parts[1]];
    }
    assert fields[..|fields|] == fields;
    return Ok(mapper);
  }

  // ---------------------------------------------------------------------------------------
  // The converter.

  /** A `Converter` after loading: its header and its rows. */
  class Converter {
    var header: seq<Key>
    var data: seq<Row>
    var noHeader: bool

    constructor (header: seq<Key>, data: seq<Row>, noHeader: bool)
      ensures this.header == header && this.data == data && this.noHeader == noHeader
    {
      this.header := header;
      this.data := data;
      this.noHeader := noHeader;
    }

    /** `rename_columns`: only the header changes; the rows keep their old names. */
    method RenameColumns(mapper: Option<map<Key, string>>)
      modifies this
      ensures mapper.None? ==> header == old(header) && noHeader == old(noHeader)
      ensures mapper.Some? ==> header == Renamed(old(header), mapper.value) && !noHeader
      ensures data == old(data)
    {
      if mapper.None? {
        return;
      }
      noHeader := false;
      header := Renamed(header, mapper.value);
    }

    /** `delete_columns`: RuntimeError, with nothing changed, when a column is not in the
        header; otherwise the columns leave the header, then every row. */
    method DeleteColumns(columns: Option<seq<Key>>) returns (r: Result<()>)
      modifies this
      ensures noHeader == old(noHeader)
      ensures columns.None? ==> r == Ok(()) && header == old(header) && data == old(data)
      ensures columns.Some? && Missing(old(header), columns.value) != {} ==>
                r == Err(RuntimeError) && header == old(header) && data == old(data)
      ensures columns.Some? && Missing(old(header), columns.value) == {} ==>
                (r.Ok? <==> RemovedAll(old(header), columns.value).Ok? && RowsWithout(old(data), columns.value).Ok?)
      ensures columns.Some? && r.Ok? ==>
                header == RemovedAll(old(header), columns.value).value && data == RowsWithout(old(data), columns.value).value
    {
      if columns.None? {
        return Ok(());
      }
      var cols := columns.value;
      if Missing(header, cols) != {} {
        return Err(RuntimeError);
      }
      var h := RemoveColumns(header, cols);
      if h.Err? {
        return Err(ValueError);
      }
      var rows := DeleteFromRows(data, cols);
      if rows.Err? {
        return Err(KeyError);
      }
      header := h.value;
      data := rows.value;
      return Ok(());
    }

    /** `transform_columns`: each transform in turn. */
    method TransformColumns(transforms: Option<seq<Transform>>) returns (r: Result<()>)
      modifies this
      ensures noHeader == old(noHeader)
      ensures transforms.None? ==> r == Ok(()) && header == old(header) && data == old(data)
      ensures transforms.Some? ==> (r.Ok? <==> TransformedAll(old(header), old(data), transforms.value).Ok?)
      ensures transforms.Some? && r.Ok? ==> (header, data) == TransformedAll(old(header), old(data), transforms.value).value
    {
      if transforms.None? {
        return Ok(());
      }
      var ts := transforms.value;
      for i := 0 to |ts|
        invariant TransformedAll(old(header), old(data), ts[..i]) == Ok((header, data))
        invariant noHeader == old(noHeader)
      {
        TransformedAllSnoc(old(header), old(data), ts, i, header, data);
        var t := ts[i];
        if exists k :: k in t.Sources() && k !in header {
          assert Transformed(header, data, t).Err?;
          FailedStaysFailed(old(header), old(data), ts, i + 1);
          return Err(RuntimeError);
        }
        var rows := TransformRows(t, data);
        if rows.Err? {
          FailedStaysFailed(old(header), old(data), ts, i + 1);
          return Err(rows.error);
        }
        if t.dest !in header {
          header := header + [t.dest];
        }
        data := rows.value;
      }
      assert ts[..|ts|] == ts;
      return Ok(());
    }
  }

  /** Once a transform has raised, the later ones are not run. */
  lemma {:induction false} FailedStaysFailed(header: seq<Key>, rows: seq<Row>, ts: seq<Transform>, n: nat)
    requires n <= |ts| && TransformedAll(header, rows, ts[..n]).Err?
    ensures TransformedAll(header, rows, ts).Err?
    decreases |ts|
  {
    if n < |ts| {
      var front := ts[..|ts| - 1];
      assert front[..n] == ts[..n];
      FailedStaysFailed(header, rows, front, n);
      FailedStep(header, rows, ts);
    } else {
      assert ts[..n] == ts;
    }
  }

  lemma FailedStep(header: seq<Key>, rows: seq<Row>, ts: seq<Transform>)
    requires ts != [] && TransformedAll(header, rows, ts[..|ts| - 1]).Err?
    ensures TransformedAll(header, rows, ts).Err?
  {
  }

  /** One more transform on the ones run so far. */
  lemma TransformedAllSnoc(header: seq<Key>, rows: seq<Row>, ts: seq<Transform>, i: nat, h: seq<Key>, d: seq<Row>)
    requires i < |ts| && TransformedAll(header, rows, ts[..i]) == Ok((h, d))
    ensures TransformedAll(header, rows, ts[..i + 1]) == Transformed(h, d, ts[i])
  {
    assert ts[..i + 1][..i] == ts[..i];
  }

  /** `Transformer.transform`'s loop over the rows. */
  method TransformRows(t: Transform, rows: seq<Row>) returns (r: Result<seq<Row>>)
    ensures r.Ok? <==> TransformedRows(t, rows).Ok?
    ensures r.Ok? ==> r == TransformedRows(t, rows)
    ensures r.Err? ==> r.error in {KeyError, AttributeError}
  {
    var out: seq<Row> := [];
    for i := 0 to |rows|
      invariant TransformedRows(t, rows[..i]) == Ok(out)
    {
      assert rows[..i + 1][..i] == rows[..i];
      var row := TransformRow(t, rows[i]);
      if row.Err? {
        FailedRowsStayFailed(t, rows, i + 1);
        return Err(row.error);
      }
      out := out + [row.value];
    }
    assert rows[..|rows|] == rows;
    return Ok(out);
  }

  lemma {:induction false} FailedRowsStayFailed(t: Transform, rows: seq<Row>, n: nat)
    requires n <= |rows| && TransformedRows(t, rows[..n]).Err?
    ensures TransformedRows(t, rows).Err?
    decreases |rows| - n
  {
    if n < |rows| {
      assert rows[..n + 1][..n] == rows[..n];
      FailedRowsStayFailed(t, rows, n + 1);
    } else {
      assert rows[..n] == rows;
    }
  }

  /** `transform_row`: MERGE walks its sources, keeping the first truthy cell. */
  method TransformRow(t: Transform, row: Row) returns (r: Result<Row>)
    ensures r == TransformedRow(t, row)
    ensures r.Err? ==> r.error in {KeyError, AttributeError}
  {
    match t
    case Lookup(source, dest, table) =>
      r := LookedUp(table, source, dest, row);
    case Merge(sources, dest) =>
      var value := Text("");
      for i := 0 to |sources|
        invariant forall k :: k in sources[..i] ==> k in row
        invariant value == if exists j :: 0 <= j < i && Truthy(row[sources[j]])
                           then FirstTruthy(row, sources[..i]) else Text("")
      {
        if sources[i] !in row {
          assert sources[i] in sources;
          return Err(KeyError);
        }
        MergeStep(row, sources, i);
        if Truthy(row[sources[i]]) && !Truthy(value) {
          value := row[sources[i]];
        }
      }
      assert sources[..|sources|] == sources;
      FirstTruthyNone(row, sources);
      r := Ok(row[dest := value]);
  }

  /** One pass of MERGE's loop: the first truthy cell of a longer prefix. */
  lemma {:induction false} MergeStep(row: Row, sources: seq<Key>, i: nat)
    requires i < |sources| && forall k :: k in sources[..i + 1] ==> k in row
    ensures forall k :: k in sources[..i] ==> k in row
    ensures (exists j :: 0 <= j < i && Truthy(row[sources[j]])) ==>
              FirstTruthy(row, sources[..i + 1]) == FirstTruthy(row, sources[..i]) && Truthy(FirstTruthy(row, sources[..i]))
    ensures !(exists j :: 0 <= j < i && Truthy(row[sources[j]])) ==>
              FirstTruthy(row, sources[..i + 1]) == (if Truthy(row[sources[i]]) then row[sources[i]] else Text(""))
    decreases i
  {
    assert forall k :: k in sources[..i] ==> k in sources[..i + 1];
    if i > 0 {
      assert sources[..i + 1][1..] == sources[1..][..i];
      assert sources[..i][1..] == sources[1..][..i - 1];
      assert forall k :: k in sources[1..][..i] ==> k in sources[..i + 1];
      if Truthy(row[sources[0]]) {
      } else {
        MergeStep(row, sources[1..], i - 1);
        if exists j :: 0 <= j < i && Truthy(row[sources[j]]) {
          var j :| 0 <= j < i && Truthy(row[sources[j]]);
          assert j > 0 && sources[1..][j - 1] == sources[j];
        } else {
          forall j | 0 <= j < i - 1
            ensures !Truthy(row[sources[1..][j]])
          {
            assert sources[1..][j] == sources[j + 1];
          }
        }
      }
    } else {
      assert sources[..1][1..] == [];
    }
  }

  /** When no source is truthy, MERGE gives "". */
  lemma FirstTruthyNone(row: Row, sources: seq<Key>)
    requires forall k :: k in sources ==> k in row
    ensures !(exists j :: 0 <= j < |sources| && Truthy(row[sources[j]])) ==> FirstTruthy(row, sources) == Text("")
  {
    FirstTruthyIsFirst(row, sources);
  }

  /** The header loop of `delete_columns`. */
  method RemoveColumns(header: seq<Key>, columns: seq<Key>) returns (r: Result<seq<Key>>)
    ensures r == RemovedAll(header, columns)
  {
    var h := header;
    for i := 0 to |columns|
      invariant RemovedAll(header, columns[..i]) == Ok(h)
    {
      assert columns[..i + 1][..i] == columns[..i];
      var next := RemoveFirst(h, columns[i]);
      if next.Err? {
        RemovedAllFailStays(header, columns, i + 1);
        return Err(ValueError);
      }
      h := next.value;
    }
    assert columns[..|columns|] == columns;
    return Ok(h);
  }

  /** The row loop of `delete_columns`: every row loses the columns, in order. */
  method DeleteFromRows(rows: seq<Row>, columns: seq<Key>) returns (r: Result<seq<Row>>)
    ensures r.Ok? <==> RowsWithout(rows, columns).Ok?
    ensures r.Ok? ==> r == RowsWithout(rows, columns)
  {
    var out: seq<Row> := [];
    for i := 0 to |rows|
      invariant RowsWithout(rows[..i], columns) == Ok(out)
    {
      assert rows[..i + 1][..i] == rows[..i];
      var row := rows[i];
      for j := 0 to |columns|
        invariant RowWithout(rows[i], columns[..j]) == Ok(row)
      {
        assert columns[..j + 1][..j] == columns[..j];
        if columns[j] !in row {
          RowFailStays(rows[i], columns, j + 1);
          RowsFailStay(rows, columns, i + 1);
          return Err(KeyError);
        }
        row := row - {columns[j]};
      }
      assert columns[..|columns|] == columns;
      out := out + [row];
    }
    assert rows[..|rows|] == rows;
    return Ok(out);
  }

  lemma {:induction false} RowFailStays(row: Row, columns: seq<Key>, n: nat)
    requires n <= |columns| && RowWithout(row, columns[..n]).Err?
    ensures RowWithout(row, columns).Err?
    decreases |columns| - n
  {
    if n < |columns| {
      assert columns[..n + 1][..n] == columns[..n];
      RowFailStays(row, columns, n + 1);
    } else {
      assert columns[..n] == columns;
    }
  }

  lemma {:induction false} RowsFailStay(rows: seq<Row>, columns: seq<Key>, n: nat)
    requires n <= |rows| && RowsWithout(rows[..n], columns).Err?
    ensures RowsWithout(rows, columns).Err?
    decreases |rows| - n
  {
    if n < |rows| {
      assert rows[..n + 1][..n] == rows[..n];
      RowsFailStay(rows, columns, n + 1);
    } else {
      assert rows[..n] == rows;
    }
  }

  /** Building a converter: `_transform_data` on what the CSV reader returned. */
  method NewConverter(o: Options, parseDate: string -> Option<int>, toFloat: string -> Option<real>,
                      header: seq<string>, lines: seq<seq<string>>) returns (r: Result<Converter>)
    ensures TransformData(o, parseDate, toFloat, header, lines).Err? <==> r.Err?
    ensures r.Ok? ==> fresh(r.value) && (r.value.header, r.value.data) == TransformData(o, parseDate, toFloat, header, lines).value
                      && r.value.noHeader == o.noHeader
  {
    var t := TransformData(o, parseDate, toFloat, header, lines);
    if t.Err? {
      return Err(t.error);
    }
    var c := new Converter(t.value.0, t.value.1, o.noHeader);
    return Ok(c);
  }
}
