/**
 * The two marching-cubes lookup tables, EDGE_TABLE and TRI_TABLE. Their data
 * is not part of this model: they are parameters, and the predicates below
 * state the shape the grid code relies on.
 */
module LookupTables {

  /** Number of cube configurations, one per 8-bit corner pattern. */
  const CONFIGURATIONS: nat := 256
  /** Entries per TRI_TABLE row; the table is flat, row `c` starts at `c * 16`. */
  const ROW_LENGTH: nat := 16
  /** The value that ends a TRI_TABLE row. */
  const SENTINEL: int := -1

  /** Row `c` of the flat triangle table. */
  function Row(triTable: seq<int>, c: nat): (row: seq<int>)
    requires |triTable| == CONFIGURATIONS * ROW_LENGTH && c < CONFIGURATIONS
    ensures |row| == ROW_LENGTH
  {
    triTable[c * ROW_LENGTH .. c * ROW_LENGTH + ROW_LENGTH]
  }

  /**
   * The shape the grid code needs: 256 edge masks, 256 rows of 16 triangle
   * entries, and each row's last entry the sentinel, so that the walk over a
   * row, which advances in steps of three, never leaves the row.
   */
  predicate TablesWellFormed(edgeTable: seq<bv16>, triTable: seq<int>) {
    |edgeTable| == CONFIGURATIONS &&
    |triTable| == CONFIGURATIONS * ROW_LENGTH &&
    forall c | 0 <= c < CONFIGURATIONS :: Row(triTable, c)[ROW_LENGTH - 1] == SENTINEL
  }

  /** `1 << e` for each of the 12 cube edges. */
  const EDGE_BITS: seq<bv16> := [1, 2, 4, 8, 16, 32, 64, 128, 256, 512, 1024, 2048]

  /** Bit `e` of an edge mask: `mask & (1 << e)` is non-zero. */
  predicate EdgeBit(mask: bv16, e: nat)
    requires e < 12
  {
    mask & EDGE_BITS[e] != 0
  }

  /**
   * The tables agree with each other: every entry of a triangle that a row
   * starts (its first entry is not the sentinel) names one of the 12 cube
   * edges, and that edge is crossed according to the row's edge mask.
   */
  predicate TablesConsistent(edgeTable: seq<bv16>, triTable: seq<int>)
    requires TablesWellFormed(edgeTable, triTable)
  {
    forall c, j | 0 <= c < CONFIGURATIONS && 0 <= j < ROW_LENGTH - 1 ::
      Row(triTable, c)[j - j % 3] != SENTINEL ==>
        0 <= Row(triTable, c)[j] < 12 && EdgeBit(edgeTable[c], Row(triTable, c)[j])
  }

  /** The configurations with every corner outside (0) or every corner inside (255) cross no edge. */
  predicate UniformConfigurationsEmpty(edgeTable: seq<bv16>)
    requires |edgeTable| == CONFIGURATIONS
  {
    edgeTable[0] == 0 && edgeTable[255] == 0
  }
}
