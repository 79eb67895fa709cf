/** The tiling of a table's rows (`recalculate_table_data` in src/numbers_parser/model.py):
    rows are stored in tiles of at most 256 rows, numbered from 0, and a table wider than 256
    columns is marked as using wide rows. */
module Tiles {
  import opened Outcomes

  /** `MAX_TILE_SIZE` */
  const MaxTileSize: nat := 256

  /** A tile: its `tileid`, the first row it holds and how many rows (`numrows`). */
  datatype Tile = Tile(tileid: nat, rowStart: nat, numRows: nat)

  function Min(a: int, b: int): int { if a < b then a else b }

  /** The tiles `recalculate_table_data` writes for a table of `rows` rows: one per index from 0
      to `rows >> 8` inclusive. */
  function Tiling(rows: nat): (r: seq<Tile>)
    ensures |r| == rows / MaxTileSize + 1
  {
    seq(rows / MaxTileSize + 1, k requires 0 <= k <= rows / MaxTileSize => Tile(k, k * MaxTileSize, Min(MaxTileSize, rows - k * MaxTileSize)))
  }

  /** The loop of `recalculate_table_data` that creates the tiles. */
  method TileRows(rows: nat) returns (tiles: seq<Tile>)
    ensures tiles == Tiling(rows)
  {
    tiles := [];
    var tileIdx := 0;
    var maxTileIdx := rows / 256;
    while tileIdx <= maxTileIdx
      invariant 0 <= tileIdx <= maxTileIdx + 1
      invariant tiles == Tiling(rows)[..tileIdx]
    {
      var rowStart := tileIdx * MaxTileSize;
      var numRows;
      if rows - rowStart > MaxTileSize {
        numRows := MaxTileSize;
      } else {
        numRows := rows - rowStart;
      }
      tiles := tiles + [Tile(tileIdx, rowStart, numRows)];
      tileIdx := tileIdx + 1;
    }
  }

  /** `recalculate_table_data`, for the tiles: the row and column counts come from the data,
      whose first row must exist, and the wide-rows flag is raised, never lowered, when the
      table is wider than a tile. */
  method RecalculateTiles<T>(data: seq<seq<T>>, wasWide: bool) returns (r: Result<(nat, nat, seq<Tile>, bool)>)
    ensures r.Err? <==> data == []
    ensures r.Err? ==> r.error == IndexError
    ensures r.Ok? ==> r.value == (|data|, |data[0]|, Tiling(|data|), wasWide || |data[0]| > MaxTileSize)
  {
    if data == [] {
      return Err(IndexError);
    }
    var wide := wasWide;
    if |data[0]| > MaxTileSize {
      wide := true;
    }
    var tiles := TileRows(|data|);
    r := Ok((|data|, |data[0]|, tiles, wide));
  }

  /** The tiles follow one another without gap or overlap from row 0 to the last row: every
      tile but the last is full, and the last one ends at the last row. */
  lemma TilingPartitions(rows: nat)
    ensures var t := Tiling(rows);
            && t[0].rowStart == 0
            && (forall k :: 0 <= k < |t| ==> t[k].tileid == k && t[k].numRows <= MaxTileSize)
            && (forall k :: 0 <= k < |t| - 1 ==> t[k].numRows == MaxTileSize && t[k + 1].rowStart == t[k].rowStart + t[k].numRows)
            && t[|t| - 1].rowStart + t[|t| - 1].numRows == rows
  {
    var t := Tiling(rows);
    var n := |t| - 1;
    assert n * MaxTileSize <= rows < (n + 1) * MaxTileSize;
    forall k | 0 <= k < n
      ensures t[k].numRows == MaxTileSize
    {
      assert (k + 1) * MaxTileSize <= n * MaxTileSize;
    }
  }

  /** Row `row` is row `row % 256` of tile `row / 256`. */
  lemma RowInTile(rows: nat, row: nat)
    requires row < rows
    ensures var t := Tiling(rows)[row / MaxTileSize];
            t.rowStart + row % MaxTileSize == row && row % MaxTileSize < t.numRows
  {
  }

  /** A table whose row count is a multiple of 256 (0 included) ends with a tile of no rows. */
  lemma EmptyLastTile(rows: nat)
    ensures Tiling(rows)[|Tiling(rows)| - 1].numRows == 0 <==> rows % MaxTileSize == 0
  {
  }
}
