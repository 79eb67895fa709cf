/** How a reference is written into formula text (`CellRange.expand_ref` and `__str__` with
    its `_format_*` helpers in src/numbers_parser/xrefs.py): the name is quoted when it holds
    an operator or a quote, and prefixed with its table, or its sheet and table, as the names
    in scope require; a range writes its start that way and its end bare, after a ":". */
module RefText {
  import opened Outcomes
  import opened Decimal
  import A1Notation
  import NodeRefs

  /** The keys of `OPERATOR_PRECEDENCE`. */
  predicate IsOperator(c: char)
  {
    c in {'%', '^', '×', '*', '/', '÷', '+', '-', '&'}
  }

  predicate HasOperator(s: string)
  {
    exists i :: 0 <= i < |s| && IsOperator(s[i])
  }

  /** Every quote tripled, as `str.replace("'", "'''")` does. */
  function Tripled(s: string): (r: string)
    ensures |r| >= |s|
  {
    if s == [] then []
    else (if s[0] == '\'' then "'''" else [s[0]]) + Tripled(s[1..])
  }

  /** Reads tripled quotes back as one. */
  function Untripled(s: string): string
  {
    if s == [] then []
    else if |s| >= 3 && s[..3] == "'''" then "'" + Untripled(s[3..])
    else [s[0]] + Untripled(s[1..])
  }

  lemma {:induction false} UntripledTripled(s: string)
    ensures Untripled(Tripled(s)) == s
  {
    if s != [] {
      UntripledTripled(s[1..]);
      var rest := Tripled(s[1..]);
      if s[0] == '\'' {
        assert ("'''" + rest)[..3] == "'''";
        assert ("'''" + rest)[3..] == rest;
      } else {
        assert ([s[0]] + rest)[1..] == rest;
      }
      assert s == [s[0]] + s[1..];
    }
  }

  /** The quoting of `expand_ref`: a name with an operator is wrapped in single quotes, else a
      name with quotes has them tripled. */
  function Quoted(s: string): string
  {
    if HasOperator(s) then "'" + s + "'"
    else if '\'' in s then Tripled(s)
    else s
  }

  /** Reading quoted text back: a wrapped name is unwrapped, anything else has its tripled
      quotes read back. */
  function Unquoted(q: string, wrapped: bool): string
  {
    if wrapped && |q| >= 2 then q[1..|q| - 1] else Untripled(q)
  }

  /** The quoting loses nothing: knowing whether the name was wrapped, it reads back. */
  lemma {:induction false} QuotedReadsBack(s: string)
    ensures Unquoted(Quoted(s), HasOperator(s)) == s
  {
    if HasOperator(s) {
      assert ("'" + s + "'")[1..|s| + 1] == s;
    } else if '\'' in s {
      UntripledTripled(s);
    } else {
      UntripledNoQuote(s);
    }
  }

  lemma {:induction false} UntripledNoQuote(s: string)
    requires '\'' !in s
    ensures Untripled(s) == s
  {
    if s != [] {
      UntripledNoQuote(s[1..]);
      assert s == [s[0]] + s[1..];
    }
  }

  /** `RefScope` */
  datatype RefScope = Document | Sheet | Table | NoScope

  /** What `expand_ref` is given: a scoped header name, or a plain reference string. */
  datatype Ref = ScopedName(name: string, scope: RefScope) | Plain(text: string)

  /** Where a reference points from and to, with the names `expand_ref` looks up. */
  datatype Place = Place(fromTable: int, toTable: int, fromSheet: int, toSheet: int,
                         tableName: string, tableNameUnique: bool, sheetName: string)

  function RefString(ref: Ref, isAbsolute: bool): string
  {
    var text := if ref.ScopedName? then ref.name else ref.text;
    Quoted(if isAbsolute then "$" + text else text)
  }

  /** `expand_ref` */
  function ExpandRef(ref: Ref, isAbsolute: bool, noPrefix: bool, at: Place): (r: string)
    ensures var s := RefString(ref, isAbsolute);
            && (noPrefix || (ref.ScopedName? && ref.scope == Document) || at.fromTable == at.toTable ==> r == s)
            && (r == s || r == at.tableName + "::" + s || r == at.sheetName + "::" + at.tableName + "::" + s)
  {
    var s := RefString(ref, isAbsolute);
    if noPrefix || (ref.ScopedName? && ref.scope == Document) then s
    else if at.fromTable == at.toTable then s
    else if at.fromSheet == at.toSheet && ref.ScopedName? && ref.scope == Sheet then
      if isAbsolute then at.tableName + "::" + s else s
    else if at.fromSheet == at.toSheet || (ref.ScopedName? && ref.scope == Table) || at.tableNameUnique then
      at.tableName + "::" + s
    else at.sheetName + "::" + at.tableName + "::" + s
  }

  /** The prefix rules, for a reference to another table that needs one: a sheet-unique name in
      the same sheet is written bare unless absolute; otherwise the table name alone suffices in
      the same sheet, for a table-unique name or for a uniquely named table; the sheet name is
      added only when none of these holds. */
  lemma ExpandRefPrefixes(ref: Ref, isAbsolute: bool, at: Place)
    requires at.fromTable != at.toTable && !(ref.ScopedName? && ref.scope == Document)
    ensures var r := ExpandRef(ref, isAbsolute, false, at);
            var s := RefString(ref, isAbsolute);
            var sheetUnique := ref.ScopedName? && ref.scope == Sheet;
            var tableUnique := ref.ScopedName? && ref.scope == Table;
            && (at.fromSheet == at.toSheet && sheetUnique ==> r == if isAbsolute then at.tableName + "::" + s else s)
            && ((!(at.fromSheet == at.toSheet && sheetUnique) && (at.fromSheet == at.toSheet || tableUnique || at.tableNameUnique)) ==>
                  r == at.tableName + "::" + s)
            && ((at.fromSheet != at.toSheet && !tableUnique && !at.tableNameUnique) ==>
                  r == at.sheetName + "::" + at.tableName + "::" + s)
  {
  }

  // ---------------------------------------------------------------------------------------
  // `CellRange.__str__`.

  /** A row or column header name from `row_ranges`/`col_ranges`, with its scope. */
  datatype HeaderName = HeaderName(name: string, scope: RefScope)

  function Named(h: HeaderName): Ref
  {
    ScopedName(h.name, h.scope)
  }

  /** `row_range[i]` or `col_range[i]`: the header name of index `i`, None where it has none;
      KeyError for an absent index. */
  function HeaderAt(names: map<int, Option<HeaderName>>, i: Option<int>): (r: Result<Option<HeaderName>>)
    ensures r.Ok? <==> i.Some? && i.value in names
    ensures r.Ok? ==> r.value == names[i.value]
  {
    if i.None? || i.value !in names then Err(KeyError) else Ok(names[i.value])
  }

  /** `str(n)` for any integer. */
  function IntString(n: int): string
  {
    if n < 0 then "-" + DecimalString(-n) else DecimalString(n)
  }

  /** The end of a span of named headers. The start's `no_prefix` reads the end's scope
      unless the start is document-scoped; an end without a name then raises
      AttributeError, and otherwise reaches `expand_ref` as None, which only an absolute end
      survives, as the text "$None". */
  function NamedSpan(start: HeaderName, end: Option<HeaderName>, startAbs: bool, endAbs: bool, at: Place): Result<string>
  {
    if end.None? then
      if start.scope != Document then Err(AttributeError)
      else if !endAbs then Err(TypeError)
      else Ok(ExpandRef(Named(start), startAbs, true, at) + ":" + ExpandRef(Plain("None"), true, true, at))
    else
      var noPrefix := start.scope == Document || end.value.scope == Document;
      Ok(ExpandRef(Named(start), startAbs, noPrefix, at) + ":" + ExpandRef(Named(end.value), endAbs, true, at))
  }

  /** `_format_row_range`: one row, or a span of rows, by header name where the start row has
      one and by one-based number otherwise; a single numbered row is written "n:n". */
  function RowRangeText(r: NodeRefs.CellRange, rowNames: map<int, Option<HeaderName>>, at: Place): (t: Result<string>)
    ensures t.Err? ==> t.error in {KeyError, AttributeError, TypeError}
    ensures r.rowStart.None? ==> t == Err(KeyError)
  {
    var start :- HeaderAt(rowNames, r.rowStart);
    var n := IntString(r.rowStart.value + 1);
    if r.rowEnd.None? then
      if start.None? then
        Ok(ExpandRef(Plain(n), r.rowStartAbsolute, false, at) + ":" + ExpandRef(Plain(n), r.rowStartAbsolute, true, at))
      else Ok(ExpandRef(Named(start.value), r.rowStartAbsolute, false, at))
    else if start.None? then
      Ok(ExpandRef(Plain(n), r.rowStartAbsolute, false, at) + ":"
         + ExpandRef(Plain(IntString(r.rowEnd.value + 1)), r.rowEndAbsolute, true, at))
    else
      var end :- HeaderAt(rowNames, r.rowEnd);
      NamedSpan(start.value, end, r.rowStartAbsolute, r.rowEndAbsolute, at)
  }

  /** `_format_col_range`: one column, or a span of columns, by header name where the start
      column has one and by its letters otherwise, "$" included; IndexError for a negative
      column. */
  function ColumnRangeText(r: NodeRefs.CellRange, colNames: map<int, Option<HeaderName>>, at: Place): (t: Result<string>)
    requires r.colStart.Some?
    ensures t.Err? ==> t.error in {KeyError, AttributeError, TypeError, IndexError}
  {
    var start :- HeaderAt(colNames, r.colStart);
    if start.None? then
      var first :- A1Notation.ColumnName(r.colStart.value, r.colStartAbsolute);
      if r.colEnd.None? then Ok(ExpandRef(Plain(first), false, false, at))
      else
        var last :- A1Notation.ColumnName(r.colEnd.value, r.colEndAbsolute);
        Ok(ExpandRef(Plain(first), false, false, at) + ":" + ExpandRef(Plain(last), false, true, at))
    else if r.colEnd.None? then Ok(ExpandRef(Named(start.value), r.colStartAbsolute, false, at))
    else
      var end :- HeaderAt(colNames, r.colEnd);
      NamedSpan(start.value, end, r.colStartAbsolute, r.colEndAbsolute, at)
  }

  /** `_format_cell_range`: the start cell's name, and when both ends are given ":" and the
      end cell's name; IndexError for a negative index. */
  function CellRangeText(r: NodeRefs.CellRange, at: Place): (t: Result<string>)
    requires r.rowStart.Some? && r.colStart.Some?
    ensures t.Err? <==> r.rowStart.value < 0 || r.colStart.value < 0
                        || (r.rowEnd.Some? && r.colEnd.Some? && (r.rowEnd.value < 0 || r.colEnd.value < 0))
    ensures t.Err? ==> t.error == IndexError
  {
    var first :- A1Notation.RowColToCell(r.rowStart.value, r.colStart.value, r.rowStartAbsolute, r.colStartAbsolute);
    if r.rowEnd.None? || r.colEnd.None? then Ok(ExpandRef(Plain(first), false, false, at))
    else
      var last :- A1Notation.RowColToCell(r.rowEnd.value, r.colEnd.value, r.rowEndAbsolute, r.colEndAbsolute);
      Ok(ExpandRef(Plain(first), false, false, at) + ":" + ExpandRef(Plain(last), false, true, at))
  }

  /** `CellRange.__str__`: rows only, columns only, or cells. `rowNames` and `colNames` are the
      header names of the target table; `at` describes the range's two tables. */
  function RangeText(r: NodeRefs.CellRange, rowNames: map<int, Option<HeaderName>>,
                     colNames: map<int, Option<HeaderName>>, at: Place): (t: Result<string>)
    requires at.fromTable == r.fromTable && at.toTable == r.toTable
    ensures t.Err? ==> t.error in {KeyError, AttributeError, TypeError, IndexError}
  {
    if r.colStart.None? then RowRangeText(r, rowNames, at)
    else if r.rowStart.None? then ColumnRangeText(r, colNames, at)
    else CellRangeText(r, at)
  }

  /** A cell name holds no operator and no quote, so `expand_ref` leaves it as it is. */
  lemma CellNameUnquoted(row: nat, col: nat, rowAbs: bool, colAbs: bool)
    ensures var name := A1Notation.RowColToCell(row, col, rowAbs, colAbs).value;
            Quoted(name) == name && RefString(Plain(name), false) == name
  {
    var letters := A1Notation.Letters(col + 1);
    var digits := DecimalString(row + 1);
    var name := A1Notation.RowColToCell(row, col, rowAbs, colAbs).value;
    assert name == (if colAbs then "$" else "") + letters + (if rowAbs then "$" else "") + digits;
    assert forall i :: 0 <= i < |name| ==> name[i] == '$' || A1Notation.IsUpper(name[i]) || IsDigit(name[i]);
    assert !HasOperator(name);
    assert '\'' !in name;
  }

  /** A range of cells within one table is written as its two cell names joined by ":". */
  lemma SameTableCells(r: NodeRefs.CellRange, rowNames: map<int, Option<HeaderName>>,
                       colNames: map<int, Option<HeaderName>>, at: Place)
    requires at.fromTable == r.fromTable == at.toTable == r.toTable
    requires r.rowStart.Some? && r.colStart.Some? && r.rowEnd.Some? && r.colEnd.Some?
    requires r.rowStart.value >= 0 && r.colStart.value >= 0 && r.rowEnd.value >= 0 && r.colEnd.value >= 0
    ensures RangeText(r, rowNames, colNames, at)
            == Ok(A1Notation.RowColToCell(r.rowStart.value, r.colStart.value, r.rowStartAbsolute, r.colStartAbsolute).value
                  + ":" + A1Notation.RowColToCell(r.rowEnd.value, r.colEnd.value, r.rowEndAbsolute, r.colEndAbsolute).value)
  {
    CellNameUnquoted(r.rowStart.value, r.colStart.value, r.rowStartAbsolute, r.colStartAbsolute);
    CellNameUnquoted(r.rowEnd.value, r.colEnd.value, r.rowEndAbsolute, r.colEndAbsolute);
  }

  /** Without "$" markers and with two different corners, that is what `xl_range` writes. */
  lemma SameTableCellsAsXlRange(r: NodeRefs.CellRange, rowNames: map<int, Option<HeaderName>>,
                                colNames: map<int, Option<HeaderName>>, at: Place)
    requires at.fromTable == r.fromTable == at.toTable == r.toTable
    requires r.rowStart.Some? && r.colStart.Some? && r.rowEnd.Some? && r.colEnd.Some?
    requires r.rowStart.value >= 0 && r.colStart.value >= 0 && r.rowEnd.value >= 0 && r.colEnd.value >= 0
    requires !r.rowStartAbsolute && !r.colStartAbsolute && !r.rowEndAbsolute && !r.colEndAbsolute
    requires r.rowStart != r.rowEnd || r.colStart != r.colEnd
    ensures RangeText(r, rowNames, colNames, at)
            == A1Notation.Range(r.rowStart.value, r.colStart.value, r.rowEnd.value, r.colEnd.value)
  {
    SameTableCells(r, rowNames, colNames, at);
  }

  /** A range of cells in another table of the same sheet names that table once, before its
      start: "Table 2::A1:B2". */
  lemma OtherTableCells(r: NodeRefs.CellRange, rowNames: map<int, Option<HeaderName>>,
                        colNames: map<int, Option<HeaderName>>, at: Place)
    requires at.fromTable == r.fromTable && at.toTable == r.toTable && at.fromTable != at.toTable
    requires at.fromSheet == at.toSheet
    requires r.rowStart.Some? && r.colStart.Some? && r.rowEnd.Some? && r.colEnd.Some?
    requires r.rowStart.value >= 0 && r.colStart.value >= 0 && r.rowEnd.value >= 0 && r.colEnd.value >= 0
    ensures RangeText(r, rowNames, colNames, at)
            == Ok(at.tableName + "::"
                  + A1Notation.RowColToCell(r.rowStart.value, r.colStart.value, r.rowStartAbsolute, r.colStartAbsolute).value
                  + ":" + A1Notation.RowColToCell(r.rowEnd.value, r.colEnd.value, r.rowEndAbsolute, r.colEndAbsolute).value)
  {
    CellNameUnquoted(r.rowStart.value, r.colStart.value, r.rowStartAbsolute, r.colStartAbsolute);
    CellNameUnquoted(r.rowEnd.value, r.colEnd.value, r.rowEndAbsolute, r.colEndAbsolute);
  }

  /** A single row without a header name is written as its one-based number twice: "3:3",
      or "$3:$3" when absolute. */
  lemma NumberedRow(r: NodeRefs.CellRange, rowNames: map<int, Option<HeaderName>>,
                    colNames: map<int, Option<HeaderName>>, at: Place)
    requires at.fromTable == r.fromTable == at.toTable == r.toTable
    requires r.colStart.None? && r.rowStart.Some? && r.rowEnd.None? && r.rowStart.value >= 0
    requires r.rowStart.value in rowNames && rowNames[r.rowStart.value].None?
    ensures var n := (if r.rowStartAbsolute then "$" else "") + DecimalString(r.rowStart.value + 1);
            RangeText(r, rowNames, colNames, at) == Ok(n + ":" + n)
  {
    var d := DecimalString(r.rowStart.value + 1);
    assert IntString(r.rowStart.value + 1) == d;
    var n := (if r.rowStartAbsolute then "$" else "") + d;
    assert forall i :: 0 <= i < |n| ==> n[i] == '$' || IsDigit(n[i]);
    assert !HasOperator(n);
    assert '\'' !in n;
    assert RefString(Plain(d), r.rowStartAbsolute) == n;
  }

  /** A span of named headers writes the end bare, and the start bare too when either end is
      unique in the document. */
  lemma NamedSpanBareEnd(start: HeaderName, end: HeaderName, startAbs: bool, endAbs: bool, at: Place)
    ensures NamedSpan(start, Some(end), startAbs, endAbs, at)
            == Ok(ExpandRef(Named(start), startAbs, start.scope == Document || end.scope == Document, at)
                  + ":" + RefString(Named(end), endAbs))
    ensures start.scope == Document || end.scope == Document ==>
              NamedSpan(start, Some(end), startAbs, endAbs, at)
              == Ok(RefString(Named(start), startAbs) + ":" + RefString(Named(end), endAbs))
  {
  }

  /** A cell reference node of the formula's own table, relative or absolute, is written as
      the name of the cell it points at: the node one row down and two columns right of
      C3 reads "E4". */
  lemma RelativeCellExample(at: Place, tableOf: nat -> Option<int>, rowNames: map<int, Option<HeaderName>>,
                            colNames: map<int, Option<HeaderName>>)
    requires at.fromTable == 1 && at.toTable == 1
    ensures var node := NodeRefs.RefNode(None, NodeRefs.Sticky(false, false, false, false),
                                         Some(NodeRefs.Axis(1, false)), Some(NodeRefs.Axis(2, false)), None);
            var r := NodeRefs.NodeToRef(1, 2, 2, node, tableOf);
            r.Ok? && RangeText(r.value, rowNames, colNames, at) == Ok("E4")
  {
    var node := NodeRefs.RefNode(None, NodeRefs.Sticky(false, false, false, false),
                                 Some(NodeRefs.Axis(1, false)), Some(NodeRefs.Axis(2, false)), None);
    var res := NodeRefs.NodeToRef(1, 2, 2, node, tableOf);
    assert res.Ok?;
    var r := res.value;
    assert r.rowStart == Some(3) && r.colStart == Some(4) && r.rowEnd.None?;
    assert r.fromTable == 1 && r.toTable == 1;
    A1Notation.PlainName(3, 4);
    assert A1Notation.Letters(0) == "";
    assert A1Notation.Letters(5) == A1Notation.Letters(0) + ['E'] == "E";
    assert DecimalString(4) == [DigitChar(4)] == "4";
    assert "E" + "4" == "E4";
    CellNameUnquoted(3, 4, false, false);
    assert A1Notation.RowColToCell(3, 4, false, false) == Ok("E4");
    assert CellRangeText(r, at) == Ok(ExpandRef(Plain("E4"), false, false, at));
  }
}
