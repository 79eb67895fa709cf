/** The scopes of row and column header names (`ScopedNameRefCache` in
    src/numbers_parser/xrefs.py). A name may stand for a row or a column in formulas when it is
    unique along its axis; it is then document-scoped if no other axis in the document uses
    it, else sheet-scoped if no other axis in its sheet does, else scoped to its table when the
    table's name is unique, and unscoped otherwise. */
module NameScopes {
  import opened Outcomes
  import RefText

  /** A header cell's formatted value: an int, a string or a bool. */
  datatype Value = IntValue(i: int) | StrValue(s: string) | BoolValue(b: bool)

  /** `_exact_count`: how many elements of the pool are the value itself, of the same type. */
  function ExactCount(pool: seq<Option<Value>>, v: Value): (n: nat)
    ensures n <= |pool|
  {
    if pool == [] then 0
    else ExactCount(pool[..|pool| - 1], v) + (if pool[|pool| - 1] == Some(v) then 1 else 0)
  }

  lemma {:induction false} ExactCountIsMultiplicity(pool: seq<Option<Value>>, v: Value)
    ensures ExactCount(pool, v) == multiset(pool)[Some(v)]
  {
    if pool != [] {
      ExactCountIsMultiplicity(pool[..|pool| - 1], v);
      assert pool == pool[..|pool| - 1] + [pool[|pool| - 1]];
    }
  }

  /** Python's `==`, under which True equals 1 and False equals 0. */
  predicate LooseEqual(a: Option<Value>, b: Value)
  {
    match a
    case None => false
    case Some(IntValue(i)) => (b.IntValue? && b.i == i) || (b.BoolValue? && i == (if b.b then 1 else 0))
    case Some(BoolValue(x)) => (b.BoolValue? && b.b == x) || (b.IntValue? && b.i == (if x then 1 else 0))
    case Some(StrValue(s)) => b.StrValue? && b.s == s
  }

  /** `list.count`, which uses `==`. */
  function LooseCount(pool: seq<Option<Value>>, v: Value): nat
  {
    if pool == [] then 0
    else LooseCount(pool[..|pool| - 1], v) + (if LooseEqual(pool[|pool| - 1], v) then 1 else 0)
  }

  /** Why the exact count is needed: a header 1 next to a header True is unique, though
      `list.count` counts it twice. */
  lemma ExactCountSeparatesTypes()
    ensures ExactCount([Some(IntValue(1)), Some(BoolValue(true))], IntValue(1)) == 1
    ensures LooseCount([Some(IntValue(1)), Some(BoolValue(true))], IntValue(1)) == 2
  {
    var pool := [Some(IntValue(1)), Some(BoolValue(true))];
    assert pool[..1] == [Some(IntValue(1))];
    assert pool[..1][..0] == [];
  }

  /** The header names of one axis of a table: how many header rows or columns come first,
      whether the other axis has headers to read the names from, and the name read for each
      row or column. */
  datatype Axis = Axis(first: nat, named: bool, lookup: seq<Option<Value>>)

  /** The names the uniqueness test looks at: those after the headers. */
  function Candidates(axis: Axis): seq<Option<Value>>
  {
    if axis.first <= |axis.lookup| then axis.lookup[axis.first..] else []
  }

  /** The scope name of one row or column: none inside the headers, for an empty name, or for a
      name that occurs more than once after the headers. */
  function ScopeAt(axis: Axis, idx: nat): (r: Option<Value>)
    requires idx < |axis.lookup|
    ensures r.Some? <==> axis.named && idx >= axis.first && axis.lookup[idx].Some? &&
                         ExactCount(Candidates(axis), axis.lookup[idx].value) == 1
    ensures r.Some? ==> r == axis.lookup[idx]
  {
    if !axis.named || idx < axis.first then None
    else
      var name := axis.lookup[idx];
      if name.None? then None
      else
        ExactCountPresent(Candidates(axis), idx - axis.first, name.value);
        if ExactCount(Candidates(axis), name.value) > 1 then None else name
  }

  /** An element of the pool is counted. */
  lemma ExactCountPresent(pool: seq<Option<Value>>, k: nat, v: Value)
    requires k < |pool| && pool[k] == Some(v)
    ensures ExactCount(pool, v) >= 1
  {
    ExactCountIsMultiplicity(pool, v);
    assert Some(v) in multiset(pool);
  }

  /** The names of the first `n` rows or columns that `_calculate_name_scopes` counts: None for
      a header and for a repeated name, the name itself when unique, and nothing for an empty
      name. */
  function Counted(axis: Axis, n: nat): seq<Option<Value>>
    requires n <= |axis.lookup|
  {
    if n == 0 || !axis.named then []
    else
      var front := Counted(axis, n - 1);
      var idx := n - 1;
      if idx < axis.first then front + [None]
      else if axis.lookup[idx].None? then front
      else front + [ScopeAt(axis, idx)]
  }

  /** `_calculate_name_scopes`: the scope name of every row or column, and the names to count. */
  method CalculateNameScopes(axis: Axis) returns (scopes: seq<Option<Value>>, names: seq<Option<Value>>)
    ensures scopes == ScopesOf(axis)
    ensures names == Counted(axis, |axis.lookup|)
  {
    if !axis.named {
      scopes := seq(|axis.lookup|, idx => None);
      UnnamedScopes(axis, |axis.lookup|);
      names := [];
      return;
    }
    var allNames := Candidates(axis);
    scopes, names := [], [];
    var idx := 0;
    while idx < |axis.lookup|
      invariant 0 <= idx <= |axis.lookup|
      invariant scopes == ScopesUpTo(axis, idx)
      invariant names == Counted(axis, idx)
    {
      if idx < axis.first {
        names := names + [None];
        scopes := scopes + [None];
      } else {
        var name := axis.lookup[idx];
        if name.None? {
          scopes := scopes + [None];
        } else if ExactCount(allNames, name.value) > 1 {
          names := names + [None];
          scopes := scopes + [None];
        } else {
          names := names + [name];
          scopes := scopes + [name];
        }
      }
      idx := idx + 1;
    }
  }

  /** A name is counted once for its axis if it is unique after the headers, and not at all
      otherwise. */
  lemma {:induction false} CountedOnceIfUnique(axis: Axis, v: Value)
    ensures multiset(Counted(axis, |axis.lookup|))[Some(v)] == if axis.named && ExactCount(Candidates(axis), v) == 1 then 1 else 0
  {
    if axis.named {
      CountedPrefix(axis, v, |axis.lookup|);
      if axis.first <= |axis.lookup| {
        SeenCandidates(axis, v, |axis.lookup|);
        assert axis.lookup[axis.first..|axis.lookup|] == Candidates(axis);
      }
    } else {
      assert Counted(axis, |axis.lookup|) == [] by {
        if |axis.lookup| > 0 {
          assert Counted(axis, |axis.lookup|) == [];
        }
      }
    }
  }

  lemma {:induction false} CountedPrefix(axis: Axis, v: Value, n: nat)
    requires axis.named && n <= |axis.lookup|
    ensures multiset(Counted(axis, n))[Some(v)] == if ExactCount(Candidates(axis), v) == 1 then Seen(axis, v, n) else 0
  {
    if n > 0 {
      CountedPrefix(axis, v, n - 1);
      CountedLast(axis, v, n);
    }
  }

  /** How often a name occurs after the headers among the first `n` rows or columns. */
  function Seen(axis: Axis, v: Value, n: nat): nat
    requires n <= |axis.lookup|
  {
    if n <= axis.first then 0 else Seen(axis, v, n - 1) + if axis.lookup[n - 1] == Some(v) then 1 else 0
  }

  lemma {:induction false} SeenCandidates(axis: Axis, v: Value, n: nat)
    requires axis.first <= n <= |axis.lookup|
    ensures Seen(axis, v, n) == ExactCount(axis.lookup[axis.first..n], v)
  {
    if n > axis.first {
      SeenCandidates(axis, v, n - 1);
      assert axis.lookup[axis.first..n][..n - 1 - axis.first] == axis.lookup[axis.first..n - 1];
    }
  }

  /** The last row or column adds its name to the count when it is unique after the headers. */
  lemma CountedLast(axis: Axis, v: Value, n: nat)
    requires axis.named && 0 < n <= |axis.lookup|
    ensures multiset(Counted(axis, n))[Some(v)] == multiset(Counted(axis, n - 1))[Some(v)] +
              if n - 1 >= axis.first && axis.lookup[n - 1] == Some(v) && ExactCount(Candidates(axis), v) == 1 then 1 else 0
  {
    var idx := n - 1;
    var front := Counted(axis, idx);
    if idx < axis.first {
      assert Counted(axis, n) == front + [None];
    } else if axis.lookup[idx].None? {
      assert Counted(axis, n) == front;
    } else {
      assert Counted(axis, n) == front + [ScopeAt(axis, idx)];
    }
  }

  /** The names counted exactly once. */
  function Unique(counts: multiset<Option<Value>>): (r: set<Option<Value>>)
    ensures forall n :: n in r <==> counts[n] == 1
  {
    set n | n in counts && counts[n] == 1
  }

  /** `_calculate_scope_types` for one name, given the names counted once in the document and
      in the sheet: document scope first, then sheet scope, then table scope when the table's
      name is unique, else none. */
  function ScopeType(name: Value, document: set<Option<Value>>, sheet: set<Option<Value>>, tableNameUnique: bool)
    : (r: RefText.RefScope)
    ensures r == RefText.Document <==> Some(name) in document
    ensures r == RefText.Sheet <==> Some(name) !in document && Some(name) in sheet
    ensures r == RefText.Table <==> Some(name) !in document && Some(name) !in sheet && tableNameUnique
  {
    if Some(name) in document then RefText.Document
    else if Some(name) in sheet then RefText.Sheet
    else if tableNameUnique then RefText.Table
    else RefText.NoScope
  }

  /** The header names of a table, as the cache reads them. */
  datatype TableHeaders = TableHeaders(sheet: int, table: int, nameUnique: bool, rows: Axis, columns: Axis)

  /** A row or column name and its scope. */
  datatype Scoped = Scoped(name: Value, scope: RefText.RefScope)

  /** The names a table contributes to the counts, rows then columns. */
  function TableNames(t: TableHeaders): seq<Option<Value>>
  {
    Counted(t.rows, |t.rows.lookup|) + Counted(t.columns, |t.columns.lookup|)
  }

  /** The counts of the document after the given tables. */
  function DocumentCounts(tables: seq<TableHeaders>): multiset<Option<Value>>
  {
    if tables == [] then multiset{}
    else DocumentCounts(tables[..|tables| - 1]) + multiset(TableNames(tables[|tables| - 1]))
  }

  /** The counts of one sheet after the given tables. */
  function SheetCounts(tables: seq<TableHeaders>, sheet: int): multiset<Option<Value>>
  {
    if tables == [] then multiset{}
    else
      var t := tables[|tables| - 1];
      SheetCounts(tables[..|tables| - 1], sheet) + if t.sheet == sheet then multiset(TableNames(t)) else multiset{}
  }

  /** The sheet counts add up to the document counts. */
  lemma {:induction false} SheetCountsWithin(tables: seq<TableHeaders>, sheet: int, n: Option<Value>)
    ensures SheetCounts(tables, sheet)[n] <= DocumentCounts(tables)[n]
  {
    if tables != [] {
      SheetCountsWithin(tables[..|tables| - 1], sheet, n);
    }
  }

  /** A name scoped on an axis of each of two tables is never document scoped. */
  lemma SharedNameNotDocumentScoped(tables: seq<TableHeaders>, i: nat, j: nat, v: Value, sheet: set<Option<Value>>, unique: bool)
    requires i < j < |tables|
    requires Some(v) in multiset(TableNames(tables[i])) && Some(v) in multiset(TableNames(tables[j]))
    ensures ScopeType(v, Unique(DocumentCounts(tables)), sheet, unique) != RefText.Document
  {
    DocumentCountsTwice(tables, i, j, Some(v));
  }

  lemma {:induction false} DocumentCountsTwice(tables: seq<TableHeaders>, i: nat, j: nat, n: Option<Value>)
    requires i < j < |tables| && n in multiset(TableNames(tables[i])) && n in multiset(TableNames(tables[j]))
    ensures DocumentCounts(tables)[n] >= 2
  {
    var front := tables[..|tables| - 1];
    if j < |tables| - 1 {
      DocumentCountsTwice(front, i, j, n);
    } else {
      DocumentCountsPositive(front, i, n);
    }
  }

  lemma {:induction false} DocumentCountsPositive(tables: seq<TableHeaders>, i: nat, n: Option<Value>)
    requires i < |tables| && n in multiset(TableNames(tables[i]))
    ensures DocumentCounts(tables)[n] >= 1
  {
    if i < |tables| - 1 {
      DocumentCountsPositive(tables[..|tables| - 1], i, n);
    }
  }

  /** A document-scoped name is counted once in its sheet too. */
  lemma DocumentUniqueIsSheetUnique(tables: seq<TableHeaders>, sheet: int, v: Value)
    requires DocumentCounts(tables)[Some(v)] == 1
    requires exists i :: 0 <= i < |tables| && tables[i].sheet == sheet && Some(v) in multiset(TableNames(tables[i]))
    ensures SheetCounts(tables, sheet)[Some(v)] == 1
  {
    var i :| 0 <= i < |tables| && tables[i].sheet == sheet && Some(v) in multiset(TableNames(tables[i]));
    SheetCountsWithin(tables, sheet, Some(v));
    SheetCountsPositive(tables, sheet, i, Some(v));
  }

  lemma {:induction false} SheetCountsPositive(tables: seq<TableHeaders>, sheet: int, i: nat, n: Option<Value>)
    requires i < |tables| && tables[i].sheet == sheet && n in multiset(TableNames(tables[i]))
    ensures SheetCounts(tables, sheet)[n] >= 1
  {
    if i < |tables| - 1 {
      SheetCountsPositive(tables[..|tables| - 1], sheet, i, n);
    }
  }

  /** The scope names of the first `n` rows or columns of an axis. */
  function ScopesUpTo(axis: Axis, n: nat): (r: seq<Option<Value>>)
    requires n <= |axis.lookup|
    ensures |r| == n
  {
    if n == 0 then [] else ScopesUpTo(axis, n - 1) + [ScopeAt(axis, n - 1)]
  }

  /** An axis without names to read has no scope anywhere. */
  lemma {:induction false} UnnamedScopes(axis: Axis, n: nat)
    requires !axis.named && n <= |axis.lookup|
    ensures ScopesUpTo(axis, n) == seq(n, idx => None)
  {
    if n > 0 {
      UnnamedScopes(axis, n - 1);
    }
  }

  /** The scope names of an axis, as `_calculate_name_scopes` returns them. */
  function ScopesOf(axis: Axis): (r: seq<Option<Value>>)
    ensures |r| == |axis.lookup|
  {
    ScopesUpTo(axis, |axis.lookup|)
  }

  lemma {:induction false} ScopesUpToAt(axis: Axis, n: nat, k: nat)
    requires k < n <= |axis.lookup|
    ensures ScopesUpTo(axis, n)[k] == ScopeAt(axis, k)
  {
    if k < n - 1 {
      ScopesUpToAt(axis, n - 1, k);
    }
  }

  /** `_calculate_scope_types` over one axis: each scope name is given its scope from the names
      counted once in the document and in the sheet. */
  function Typed(scopes: seq<Option<Value>>, document: set<Option<Value>>, sheet: set<Option<Value>>, unique: bool)
    : (r: seq<Option<Scoped>>)
    ensures |r| == |scopes|
  {
    seq(|scopes|, i requires 0 <= i < |scopes| =>
      if scopes[i].None? then None else Some(Scoped(scopes[i].value, ScopeType(scopes[i].value, document, sheet, unique))))
  }

  /** A row or column has a scope exactly when its name is unique along its axis, and the scope
      is the name's. */
  lemma TypedScopes(axis: Axis, document: set<Option<Value>>, sheet: set<Option<Value>>, unique: bool, k: nat)
    requires k < |axis.lookup|
    ensures var r := Typed(ScopesOf(axis), document, sheet, unique)[k];
            && (r.Some? <==> axis.named && k >= axis.first && axis.lookup[k].Some? &&
                             ExactCount(Candidates(axis), axis.lookup[k].value) == 1)
            && (r.Some? ==> Some(r.value.name) == axis.lookup[k] && r.value.scope == ScopeType(r.value.name, document, sheet, unique))
  {
    ScopesUpToAt(axis, |axis.lookup|, k);
  }

  /** Table ids name one table each. */
  predicate DistinctTables(tables: seq<TableHeaders>)
  {
    forall i, j :: 0 <= i < j < |tables| ==> tables[i].table != tables[j].table
  }

  /** The two axes of a table. */
  datatype Side = Rows | Columns

  function AxisAt(t: TableHeaders, side: Side): Axis
  {
    if side == Rows then t.rows else t.columns
  }

  /** The scope names of one axis of every table, by table id. */
  function ScopeMap(tables: seq<TableHeaders>, side: Side): map<int, seq<Option<Value>>>
  {
    if tables == [] then map[]
    else
      var t := tables[|tables| - 1];
      ScopeMap(tables[..|tables| - 1], side)[t.table := ScopesOf(AxisAt(t, side))]
  }

  /** The scopes of one axis of every table, by table id, from the names counted once in the
      document and in each sheet. */
  function RangeMap(tables: seq<TableHeaders>, side: Side, document: set<Option<Value>>, sheets: map<int, set<Option<Value>>>)
    : map<int, seq<Option<Scoped>>>
    requires forall i :: 0 <= i < |tables| ==> tables[i].sheet in sheets
  {
    if tables == [] then map[]
    else
      var t := tables[|tables| - 1];
      RangeMap(tables[..|tables| - 1], side, document, sheets)[t.table := Typed(ScopesOf(AxisAt(t, side)), document, sheets[t.sheet], t.nameUnique)]
  }

  /** The counts of every sheet after the given tables. */
  function SheetCountMap(sheetIds: seq<int>, tables: seq<TableHeaders>): (r: map<int, multiset<Option<Value>>>)
    ensures forall s :: s in r <==> s in sheetIds
  {
    map s | s in sheetIds :: SheetCounts(tables, s)
  }

  /** The names counted once in each sheet. */
  function UniqueSheets(counts: map<int, multiset<Option<Value>>>): (r: map<int, set<Option<Value>>>)
    ensures forall s :: s in r <==> s in counts
  {
    map s | s in counts :: Unique(counts[s])
  }

  /** The cache: the names counted once in the document and in each sheet, and the scope of
      every row and column of every table. */
  class ScopedNameRefCache {
    var docNames: set<Option<Value>>
    var sheetNames: map<int, set<Option<Value>>>
    var rowRanges: map<int, seq<Option<Scoped>>>
    var colRanges: map<int, seq<Option<Scoped>>>

    constructor ()
      ensures docNames == {} && sheetNames == map[] && rowRanges == map[] && colRanges == map[]
    {
      docNames, sheetNames, rowRanges, colRanges := {}, map[], map[], map[];
    }

    /** `calculate_named_ranges`: every axis of every table is scoped and its names counted;
        only the names counted once are kept for the document and for each sheet; then each
        scope name is given its scope. The tables come sheet by sheet, each in a sheet of
        `sheetIds`. */
    method CalculateNamedRanges(sheetIds: seq<int>, tables: seq<TableHeaders>)
      requires DistinctTables(tables)
      requires forall i :: 0 <= i < |tables| ==> tables[i].sheet in sheetIds
      modifies this
      ensures docNames == Unique(DocumentCounts(tables))
      ensures sheetNames == UniqueSheets(SheetCountMap(sheetIds, tables))
      ensures rowRanges == RangeMap(tables, Rows, docNames, sheetNames)
      ensures colRanges == RangeMap(tables, Columns, docNames, sheetNames)
    {
      var counts, sheets, rows, cols := CountNames(sheetIds, tables);
      docNames, sheetNames := Unique(counts), UniqueSheets(sheets);
      rowRanges := TypeScopes(tables, Rows, rows, docNames, sheetNames);
      colRanges := TypeScopes(tables, Columns, cols, docNames, sheetNames);
    }
  }

  /** The first pass of `calculate_named_ranges`: the scope names of every axis, and the names
      counted in the document and in each sheet. */
  method CountNames(sheetIds: seq<int>, tables: seq<TableHeaders>)
    returns (counts: multiset<Option<Value>>, sheets: map<int, multiset<Option<Value>>>,
             rows: map<int, seq<Option<Value>>>, cols: map<int, seq<Option<Value>>>)
    requires forall i :: 0 <= i < |tables| ==> tables[i].sheet in sheetIds
    ensures counts == DocumentCounts(tables)
    ensures sheets == SheetCountMap(sheetIds, tables)
    ensures rows == ScopeMap(tables, Rows) && cols == ScopeMap(tables, Columns)
  {
    counts := multiset{};
    sheets := SheetCountMap(sheetIds, []);
    rows, cols := map[], map[];
    var i := 0;
    while i < |tables|
      invariant 0 <= i <= |tables|
      invariant counts == DocumentCounts(tables[..i])
      invariant sheets == SheetCountMap(sheetIds, tables[..i])
      invariant rows == ScopeMap(tables[..i], Rows) && cols == ScopeMap(tables[..i], Columns)
    {
      var t := tables[i];
      var rowScopes, rowNames := CalculateNameScopes(t.rows);
      var colScopes, colNames := CalculateNameScopes(t.columns);
      var added := multiset(rowNames + colNames);
      CountsStep(sheetIds, tables, i, added);
      counts := counts + added;
      sheets := sheets[t.sheet := sheets[t.sheet] + added];
      rows := rows[t.table := rowScopes];
      cols := cols[t.table := colScopes];
      i := i + 1;
    }
    assert tables[..i] == tables;
  }

  /** The second pass of `calculate_named_ranges` over one axis: every scope name of every
      table is given its scope. */
  method TypeScopes(tables: seq<TableHeaders>, side: Side, scopes: map<int, seq<Option<Value>>>,
                    document: set<Option<Value>>, sheets: map<int, set<Option<Value>>>)
    returns (typed: map<int, seq<Option<Scoped>>>)
    requires DistinctTables(tables)
    requires forall i :: 0 <= i < |tables| ==> tables[i].sheet in sheets
    requires scopes == ScopeMap(tables, side)
    ensures typed == RangeMap(tables, side, document, sheets)
  {
    typed := map[];
    var i := 0;
    while i < |tables|
      invariant 0 <= i <= |tables|
      invariant typed == RangeMap(tables[..i], side, document, sheets)
    {
      var t := tables[i];
      assert tables[..i + 1][..i] == tables[..i];
      ScopeMapLatest(tables, side, i);
      typed := typed[t.table := Typed(scopes[t.table], document, sheets[t.sheet], t.nameUnique)];
      i := i + 1;
    }
    assert tables[..i] == tables;
  }

  /** The scope names the map holds for a table are those of its last entry in the list. */
  lemma {:induction false} ScopeMapLatest(tables: seq<TableHeaders>, side: Side, i: nat)
    requires i < |tables|
    ensures tables[i].table in ScopeMap(tables, side)
    ensures (forall j :: i < j < |tables| ==> tables[j].table != tables[i].table) ==>
              ScopeMap(tables, side)[tables[i].table] == ScopesOf(AxisAt(tables[i], side))
  {
    if i < |tables| - 1 {
      ScopeMapLatest(tables[..|tables| - 1], side, i);
    }
  }

  /** With distinct table ids, every table's scopes are found under its id, and only table ids
      are keys. */
  lemma {:induction false} RangeMapAt(tables: seq<TableHeaders>, side: Side, document: set<Option<Value>>,
                                      sheets: map<int, set<Option<Value>>>, i: nat)
    requires forall j :: 0 <= j < |tables| ==> tables[j].sheet in sheets
    requires DistinctTables(tables) && i < |tables|
    ensures tables[i].table in RangeMap(tables, side, document, sheets)
    ensures RangeMap(tables, side, document, sheets)[tables[i].table] ==
              Typed(ScopesOf(AxisAt(tables[i], side)), document, sheets[tables[i].sheet], tables[i].nameUnique)
  {
    if i < |tables| - 1 {
      RangeMapAt(tables[..|tables| - 1], side, document, sheets, i);
    }
  }

  lemma {:induction false} RangeMapKeys(tables: seq<TableHeaders>, side: Side, document: set<Option<Value>>,
                                        sheets: map<int, set<Option<Value>>>, id: int)
    requires forall j :: 0 <= j < |tables| ==> tables[j].sheet in sheets
    requires id in RangeMap(tables, side, document, sheets)
    ensures exists j :: 0 <= j < |tables| && tables[j].table == id
  {
    var n := |tables| - 1;
    if tables[n].table != id {
      RangeMapKeys(tables[..n], side, document, sheets, id);
      var j :| 0 <= j < n && tables[..n][j].table == id;
      assert tables[j].table == id;
    }
  }

  /** One table more in the counting loop. */
  lemma CountsStep(sheetIds: seq<int>, tables: seq<TableHeaders>, i: nat, added: multiset<Option<Value>>)
    requires i < |tables| && added == multiset(TableNames(tables[i])) && tables[i].sheet in sheetIds
    ensures DocumentCounts(tables[..i + 1]) == DocumentCounts(tables[..i]) + added
    ensures SheetCountMap(sheetIds, tables[..i + 1]) ==
              SheetCountMap(sheetIds, tables[..i])[tables[i].sheet := SheetCountMap(sheetIds, tables[..i])[tables[i].sheet] + added]
    ensures ScopeMap(tables[..i + 1], Rows) == ScopeMap(tables[..i], Rows)[tables[i].table := ScopesOf(tables[i].rows)]
    ensures ScopeMap(tables[..i + 1], Columns) == ScopeMap(tables[..i], Columns)[tables[i].table := ScopesOf(tables[i].columns)]
  {
    assert tables[..i + 1][..i] == tables[..i];
    SheetCountMapStep(sheetIds, tables[..i + 1], added);
  }

  lemma SheetCountMapStep(sheetIds: seq<int>, tables: seq<TableHeaders>, added: multiset<Option<Value>>)
    requires tables != [] && added == multiset(TableNames(tables[|tables| - 1])) && tables[|tables| - 1].sheet in sheetIds
    ensures var before := SheetCountMap(sheetIds, tables[..|tables| - 1]);
            var sheet := tables[|tables| - 1].sheet;
            SheetCountMap(sheetIds, tables) == before[sheet := before[sheet] + added]
  {
    var before := SheetCountMap(sheetIds, tables[..|tables| - 1]);
    var after := SheetCountMap(sheetIds, tables);
    var sheet := tables[|tables| - 1].sheet;
    var updated := before[sheet := before[sheet] + added];
    forall s | s in after
      ensures after[s] == updated[s]
    {
      SheetCountsLast(tables, s, sheet, added);
    }
    assert after.Keys == updated.Keys;
  }

  lemma SheetCountsLast(tables: seq<TableHeaders>, s: int, sheet: int, added: multiset<Option<Value>>)
    requires tables != [] && sheet == tables[|tables| - 1].sheet && added == multiset(TableNames(tables[|tables| - 1]))
    ensures SheetCounts(tables, s) == SheetCounts(tables[..|tables| - 1], s) + if s == sheet then added else multiset{}
  {
  }
}
