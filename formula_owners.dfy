/** Formula owners (`add_formula_owner` in src/numbers_parser/model.py): a new table gets two
    entries in the calculation engine's owner map, a table-model owner and a "haunted" owner,
    with internal ids one and two above the largest id in use, and a dependencies archive
    each. */
module FormulaOwners {
  import opened Outcomes

  /** `OwnerKind` */
  const TableModelKind: int := 1
  const HauntedOwnerKind: int := 35

  /** The sentinels that mark an unbounded row and an unbounded column. */
  const NoRow: int := 0x7FFFFFFF
  const NoColumn: int := 0x7FFF

  /** An owner-map entry: the internal owner id and the owner's UUID. */
  datatype OwnerEntry = OwnerEntry(internalId: int, ownerId: nat)

  /** A range reference: its top-left and bottom-right corners. */
  datatype RangeRef = RangeRef(topLeftColumn: int, topLeftRow: int, bottomRightColumn: int, bottomRightRow: int)

  /** A `FormulaOwnerDependenciesArchive`, as far as its identity goes: the owner's UUID, its
      internal id and kind, the total and body ranges of its spanning row and column
      dependencies (the same for both), the table info it belongs to, and its base owner. */
  datatype Dependencies = Dependencies(uid: nat, internalId: int, kind: int, totalRange: RangeRef, bodyRange: RangeRef,
                                       formulaOwner: Option<int>, baseOwner: Option<nat>)

  /** The largest internal id in the owner map; `max` raises ValueError on an empty map. */
  function MaxInternalId(entries: seq<OwnerEntry>): (r: Result<int>)
    ensures r.Err? <==> entries == []
    ensures r.Err? ==> r.error == ValueError
    ensures r.Ok? ==> (forall i :: 0 <= i < |entries| ==> entries[i].internalId <= r.value)
    ensures r.Ok? ==> exists i :: 0 <= i < |entries| && entries[i].internalId == r.value
  {
    if entries == [] then Err(ValueError)
    else if |entries| == 1 then Ok(entries[0].internalId)
    else
      var m := MaxInternalId(entries[..|entries| - 1]).value;
      var last := entries[|entries| - 1].internalId;
      assert forall i :: 0 <= i < |entries| - 1 ==> entries[i] == entries[..|entries| - 1][i];
      Ok(if last > m then last else m)
  }

  /** No internal id is used twice. */
  predicate DistinctIds(entries: seq<OwnerEntry>)
  {
    forall i, j :: 0 <= i < j < |entries| ==> entries[i].internalId != entries[j].internalId
  }

  /** The two entries added after the largest id `m` keep the ids distinct. */
  lemma AddedIdsDistinct(entries: seq<OwnerEntry>, tableOwner: nat, hauntedOwner: nat)
    requires entries != [] && DistinctIds(entries)
    ensures var m := MaxInternalId(entries).value;
            DistinctIds(entries + [OwnerEntry(m + 1, tableOwner), OwnerEntry(m + 2, hauntedOwner)])
  {
  }

  /** Whether a cell lies in a range. */
  predicate InRange(row: int, col: int, range: RangeRef)
  {
    range.topLeftRow <= row <= range.bottomRightRow && range.topLeftColumn <= col <= range.bottomRightColumn
  }

  /** The total and body ranges of the table owner as written: both bottom-right rows are taken
      from the column count. */
  function TableRangesAsWritten(numRows: int, numCols: int, headerRows: int, headerCols: int): (r: (RangeRef, RangeRef))
    ensures r.0.bottomRightRow == numCols - 1 && r.1.bottomRightRow == numCols - 1
    ensures r.0.topLeftRow == 0 && r.0.topLeftColumn == 0 && r.0.bottomRightColumn == numCols - 1
  {
    (RangeRef(0, 0, numCols - 1, numCols - 1), RangeRef(headerCols, headerRows, numCols - 1, numCols - 1))
  }

  /** The ranges as evidently meant: the whole table, and the table without its header rows and
      columns. */
  function TableRanges(numRows: int, numCols: int, headerRows: int, headerCols: int): (r: (RangeRef, RangeRef))
  {
    (RangeRef(0, 0, numCols - 1, numRows - 1), RangeRef(headerCols, headerRows, numCols - 1, numRows - 1))
  }

  /** The corrected total range holds exactly the table's cells, and the body range exactly the
      cells outside the header rows and columns. */
  lemma TableRangesCover(numRows: int, numCols: int, headerRows: int, headerCols: int, row: int, col: int)
    requires headerRows >= 0 && headerCols >= 0
    ensures var (total, body) := TableRanges(numRows, numCols, headerRows, headerCols);
            && (InRange(row, col, total) <==> 0 <= row < numRows && 0 <= col < numCols)
            && (InRange(row, col, body) <==> headerRows <= row < numRows && headerCols <= col < numCols)
  {
  }

  /** A table of 10 rows and 3 columns: as written, its total range stops at row 2, so row 5,
      which the table has, lies outside it; the corrected range holds it. */
  lemma TallTableExample()
    ensures !InRange(5, 0, TableRangesAsWritten(10, 3, 1, 0).0)
    ensures InRange(5, 0, TableRanges(10, 3, 1, 0).0)
  {
  }

  /** The ranges of the haunted owner: rows and columns both unbounded. */
  const NullRange: RangeRef := RangeRef(NoColumn, NoRow, NoColumn, NoRow)

  /** The calculation engine's dependency tracker: the owner map, the references to the
      dependency archives, and those archives, by object id. */
  class DependencyTracker {
    var ownerMap: seq<OwnerEntry>
    var ownerDependencies: seq<nat>
    var archives: map<nat, Dependencies>

    constructor (ownerMap: seq<OwnerEntry>)
      ensures this.ownerMap == ownerMap && ownerDependencies == [] && archives == map[]
    {
      this.ownerMap := ownerMap;
      ownerDependencies := [];
      archives := map[];
    }

    /** `add_formula_owner`: the UUIDs `add_formula_owner` draws at random and the object ids the store
        hands out are parameters. The table owner takes the next internal id and the haunted
        owner the one after; the haunted owner's UUID is returned. */
    method AddFormulaOwner(tableInfo: int, numRows: int, numCols: int, headerRows: int, headerCols: int,
                           tableOwner: nat, hauntedOwner: nat, baseOwner: nat, tableDepsId: nat, hauntedDepsId: nat)
      returns (r: Result<nat>)
      modifies this
      ensures old(ownerMap) == [] <==> r.Err?
      ensures r.Err? ==> r.error == ValueError && ownerMap == old(ownerMap) &&
                         ownerDependencies == old(ownerDependencies) && archives == old(archives)
      ensures r.Ok? ==>
                var m := MaxInternalId(old(ownerMap)).value;
                var (total, body) := TableRanges(numRows, numCols, headerRows, headerCols);
                && r.value == hauntedOwner
                && ownerMap == old(ownerMap) + [OwnerEntry(m + 1, tableOwner), OwnerEntry(m + 2, hauntedOwner)]
                && ownerDependencies == old(ownerDependencies) + [tableDepsId, hauntedDepsId]
                && archives == old(archives)
                     [tableDepsId := Dependencies(tableOwner, m + 1, TableModelKind, total, body, Some(tableInfo), None)]
                     [hauntedDepsId := Dependencies(hauntedOwner, m + 2, HauntedOwnerKind, NullRange, NullRange, None, Some(baseOwner))]
      ensures r.Ok? ==> forall i :: 0 <= i < |old(ownerMap)| ==> ownerMap[i].internalId < ownerMap[|old(ownerMap)|].internalId
    {
      var max := MaxInternalId(ownerMap);
      if max.Err? {
        return Err(max.error);
      }
      var next := max.value + 1;
      var (total, body) := TableRanges(numRows, numCols, headerRows, headerCols);
      archives := archives[tableDepsId := Dependencies(tableOwner, next, TableModelKind, total, body, Some(tableInfo), None)];
      ownerDependencies := ownerDependencies + [tableDepsId];
      ownerMap := ownerMap + [OwnerEntry(next, tableOwner)];
      next := next + 1;
      archives := archives[hauntedDepsId := Dependencies(hauntedOwner, next, HauntedOwnerKind, NullRange, NullRange, None, Some(baseOwner))];
      ownerDependencies := ownerDependencies + [hauntedDepsId];
      ownerMap := ownerMap + [OwnerEntry(next, hauntedOwner)];
      r := Ok(hauntedOwner);
    }
  }
}
