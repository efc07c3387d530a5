/**
 * What one voxel contributes to the surface, as values: the cube index built
 * from the corner samples, the edge vertices selected by EDGE_TABLE
 * (Voxel.polygonize), the walk over a TRI_TABLE row that emits them three at a
 * time, and the mesh of a whole grid, cell after cell
 * (MarchingCubes.makeMesh / updateMesh).
 */
module Polygonizer {
  import opened Geometry
  import opened LookupTables

  datatype Option<T> = None | Some(value: T)

  /** One corner of a voxel: its fixed position and the field value last sampled there. */
  datatype Sample = Sample(pos: Vec3, isovalue: real)

  /**
   * The vertex `vertexInterpolation(isolevel, a, b)` computes on the edge from
   * corner `a` to corner `b`. The arithmetic of that function is not modelled:
   * the value records what it was computed from.
   */
  datatype EdgePoint = Interpolated(isolevel: real, a: Sample, b: Sample)

  /**
   * The result of polygonize: the sentinel 0 when no edge is crossed, else the
   * 12 edge slots (None where the slot was never written, which reads as
   * `undefined`) and the cube index.
   */
  datatype PolyResult = Empty | Poly(vertPositions: seq<Option<EdgePoint>>, cubeIndex: int)

  /** The corner each of the 12 edges starts at, and the corner it ends at. */
  const EDGE_FROM: seq<nat> := [0, 1, 2, 3, 4, 5, 6, 7, 0, 1, 2, 3]
  const EDGE_TO: seq<nat> := [1, 2, 3, 0, 5, 6, 7, 4, 4, 5, 6, 7]

  /** A corner counts as inside when its value is strictly below the isolevel. */
  predicate Inside(s: Sample, isolevel: real) {
    s.isovalue < isolevel
  }

  /** `1 << k` for each of the 8 corners. */
  const CORNER_BITS: seq<bv8> := [1, 2, 4, 8, 16, 32, 64, 128]

  /** Bit `k` of a cube index. */
  predicate CornerBit(cubeIndex: bv8, k: nat)
    requires k < 8
  {
    cubeIndex & CORNER_BITS[k] != 0
  }

  // ---------------------------------------------------------------------
  // The cube index.

  /** The cube index over the first `k` corners: bit `j` set for each inside corner `j < k`. */
  function CubeIndexUpTo(grid: seq<Sample>, isolevel: real, k: nat): (cubeIndex: bv8)
    requires |grid| == 8 && k <= 8
  {
    if k == 0 then 0
    else
      CubeIndexUpTo(grid, isolevel, k - 1) |
      (if Inside(grid[k - 1], isolevel) then CORNER_BITS[k - 1] else 0)
  }

  /** The cube index of a voxel with corner samples `grid`. */
  function CubeIndex(grid: seq<Sample>, isolevel: real): (cubeIndex: bv8)
    requires |grid| == 8
  {
    CubeIndexUpTo(grid, isolevel, 8)
  }

  lemma {:induction false} CubeIndexUpToBits(grid: seq<Sample>, isolevel: real, k: nat)
    requires |grid| == 8 && k <= 8
    ensures forall j | 0 <= j < 8 ::
      CornerBit(CubeIndexUpTo(grid, isolevel, k), j) <==> j < k && Inside(grid[j], isolevel)
  {
    if k > 0 {
      CubeIndexUpToBits(grid, isolevel, k - 1);
    }
  }

  /**
   * Bit `k` of the cube index is set exactly when corner `k` is strictly below
   * the isolevel; a corner equal to the isolevel counts as outside.
   */
  lemma CubeIndexBits(grid: seq<Sample>, isolevel: real)
    requires |grid| == 8
    ensures forall k | 0 <= k < 8 :: CornerBit(CubeIndex(grid, isolevel), k) <==> grid[k].isovalue < isolevel
  {
    CubeIndexUpToBits(grid, isolevel, 8);
  }

  /** Eight bits determine an 8-bit value. */
  lemma BitsDetermine(m: bv8, n: bv8)
    requires forall k | 0 <= k < 8 :: CornerBit(m, k) == CornerBit(n, k)
    ensures m == n
  {
    assert CornerBit(m, 0) == CornerBit(n, 0) && CornerBit(m, 1) == CornerBit(n, 1);
    assert CornerBit(m, 2) == CornerBit(n, 2) && CornerBit(m, 3) == CornerBit(n, 3);
    assert CornerBit(m, 4) == CornerBit(n, 4) && CornerBit(m, 5) == CornerBit(n, 5);
    assert CornerBit(m, 6) == CornerBit(n, 6) && CornerBit(m, 7) == CornerBit(n, 7);
  }

  /** The cube index is the only 8-bit value whose bits mark the inside corners. */
  lemma CubeIndexUnique(grid: seq<Sample>, isolevel: real, n: bv8)
    requires |grid| == 8
    requires forall k | 0 <= k < 8 :: CornerBit(n, k) <==> grid[k].isovalue < isolevel
    ensures n == CubeIndex(grid, isolevel)
  {
    CubeIndexBits(grid, isolevel);
    BitsDetermine(n, CubeIndex(grid, isolevel));
  }

  /** All corners outside give configuration 0; all corners inside give 255. */
  lemma CubeIndexUniform(grid: seq<Sample>, isolevel: real)
    requires |grid| == 8
    ensures (forall k | 0 <= k < 8 :: grid[k].isovalue >= isolevel) ==> CubeIndex(grid, isolevel) == 0
    ensures (forall k | 0 <= k < 8 :: grid[k].isovalue < isolevel) ==> CubeIndex(grid, isolevel) == 255
  {
    if forall k | 0 <= k < 8 :: grid[k].isovalue >= isolevel {
      assert forall k | 0 <= k < 8 :: !CornerBit(0, k);
      CubeIndexUnique(grid, isolevel, 0);
    }
    if forall k | 0 <= k < 8 :: grid[k].isovalue < isolevel {
      assert forall k | 0 <= k < 8 :: CornerBit(255, k);
      CubeIndexUnique(grid, isolevel, 255);
    }
  }

  // ---------------------------------------------------------------------
  // Edge vertices and the polygonize result.

  /** Slot `e` of the vertex list: the vertex between corners `a` and `b` when bit `e` of the mask is set. */
  function Slot(mask: bv16, e: nat, isolevel: real, a: Sample, b: Sample): (slot: Option<EdgePoint>)
    requires e < 12
  {
    if EdgeBit(mask, e) then Some(Interpolated(isolevel, a, b)) else None
  }

  /** The 12 edge slots polygonize fills, each from its own corner pair. */
  function EdgeVertices(grid: seq<Sample>, isolevel: real, mask: bv16): (slots: seq<Option<EdgePoint>>)
    requires |grid| == 8
    ensures |slots| == 12
  {
    [
     Slot(mask, 0, isolevel, grid[0], grid[1]),
     Slot(mask, 1, isolevel, grid[1], grid[2]),
     Slot(mask, 2, isolevel, grid[2], grid[3]),
     Slot(mask, 3, isolevel, grid[3], grid[0]),
     Slot(mask, 4, isolevel, grid[4], grid[5]),
     Slot(mask, 5, isolevel, grid[5], grid[6]),
     Slot(mask, 6, isolevel, grid[6], grid[7]),
     Slot(mask, 7, isolevel, grid[7], grid[4]),
     Slot(mask, 8, isolevel, grid[0], grid[4]),
     Slot(mask, 9, isolevel, grid[1], grid[5]),
     Slot(mask, 10, isolevel, grid[2], grid[6]),
     Slot(mask, 11, isolevel, grid[3], grid[7])
    ]
  }

  /** Twelve slots that agree with the edge slots one by one are the edge slots. */
  lemma EdgeVerticesBySlot(grid: seq<Sample>, isolevel: real, mask: bv16, slots: seq<Option<EdgePoint>>)
    requires |grid| == 8 && |slots| == 12
    requires slots[0] == Slot(mask, 0, isolevel, grid[0], grid[1])
    requires slots[1] == Slot(mask, 1, isolevel, grid[1], grid[2])
    requires slots[2] == Slot(mask, 2, isolevel, grid[2], grid[3])
    requires slots[3] == Slot(mask, 3, isolevel, grid[3], grid[0])
    requires slots[4] == Slot(mask, 4, isolevel, grid[4], grid[5])
    requires slots[5] == Slot(mask, 5, isolevel, grid[5], grid[6])
    requires slots[6] == Slot(mask, 6, isolevel, grid[6], grid[7])
    requires slots[7] == Slot(mask, 7, isolevel, grid[7], grid[4])
    requires slots[8] == Slot(mask, 8, isolevel, grid[0], grid[4])
    requires slots[9] == Slot(mask, 9, isolevel, grid[1], grid[5])
    requires slots[10] == Slot(mask, 10, isolevel, grid[2], grid[6])
    requires slots[11] == Slot(mask, 11, isolevel, grid[3], grid[7])
    ensures slots == EdgeVertices(grid, isolevel, mask)
  {
  }

  /** Edges 0-3, around the front face. */
  lemma FrontEdgePairs(grid: seq<Sample>, isolevel: real, mask: bv16)
    requires |grid| == 8
    ensures forall e | 0 <= e < 4 ::
      EDGE_FROM[e] < 8 && EDGE_TO[e] < 8 &&
      EdgeVertices(grid, isolevel, mask)[e] == Slot(mask, e, isolevel, grid[EDGE_FROM[e]], grid[EDGE_TO[e]])
  {
    var ev := EdgeVertices(grid, isolevel, mask);
    forall e | 0 <= e < 4
      ensures EDGE_FROM[e] < 8 && EDGE_TO[e] < 8 && ev[e] == Slot(mask, e, isolevel, grid[EDGE_FROM[e]], grid[EDGE_TO[e]])
    {
      if e == 0 {} else if e == 1 {} else if e == 2 {} else {}
    }
  }

  /** Edges 4-7, around the back face. */
  lemma BackEdgePairs(grid: seq<Sample>, isolevel: real, mask: bv16)
    requires |grid| == 8
    ensures forall e | 4 <= e < 8 ::
      EDGE_FROM[e] < 8 && EDGE_TO[e] < 8 &&
      EdgeVertices(grid, isolevel, mask)[e] == Slot(mask, e, isolevel, grid[EDGE_FROM[e]], grid[EDGE_TO[e]])
  {
    var ev := EdgeVertices(grid, isolevel, mask);
    forall e | 4 <= e < 8
      ensures EDGE_FROM[e] < 8 && EDGE_TO[e] < 8 && ev[e] == Slot(mask, e, isolevel, grid[EDGE_FROM[e]], grid[EDGE_TO[e]])
    {
      if e == 4 {} else if e == 5 {} else if e == 6 {} else {}
    }
  }

  /** Edges 8-11, from the front face to the back face. */
  lemma SideEdgePairs(grid: seq<Sample>, isolevel: real, mask: bv16)
    requires |grid| == 8
    ensures forall e | 8 <= e < 12 ::
      EDGE_FROM[e] < 8 && EDGE_TO[e] < 8 &&
      EdgeVertices(grid, isolevel, mask)[e] == Slot(mask, e, isolevel, grid[EDGE_FROM[e]], grid[EDGE_TO[e]])
  {
    var ev := EdgeVertices(grid, isolevel, mask);
    forall e | 8 <= e < 12
      ensures EDGE_FROM[e] < 8 && EDGE_TO[e] < 8 && ev[e] == Slot(mask, e, isolevel, grid[EDGE_FROM[e]], grid[EDGE_TO[e]])
    {
      if e == 8 {} else if e == 9 {} else if e == 10 {} else {}
    }
  }

  /** Slot `e` is read from the two corners the edge table gives for edge `e`. */
  lemma EdgeVerticesPairs(grid: seq<Sample>, isolevel: real, mask: bv16)
    requires |grid| == 8
    ensures forall e | 0 <= e < 12 ::
      EDGE_FROM[e] < 8 && EDGE_TO[e] < 8 &&
      EdgeVertices(grid, isolevel, mask)[e] == Slot(mask, e, isolevel, grid[EDGE_FROM[e]], grid[EDGE_TO[e]])
  {
    FrontEdgePairs(grid, isolevel, mask);
    BackEdgePairs(grid, isolevel, mask);
    SideEdgePairs(grid, isolevel, mask);
  }

  /** What polygonize returns for corner samples `grid`. */
  function Polygonized(grid: seq<Sample>, isolevel: real, edgeTable: seq<bv16>): (r: PolyResult)
    requires |grid| == 8 && |edgeTable| == CONFIGURATIONS
  {
    var cubeIndex := CubeIndex(grid, isolevel);
    var mask := edgeTable[cubeIndex as int];
    if mask == 0 then Empty else Poly(EdgeVertices(grid, isolevel, mask), cubeIndex as int)
  }

  /**
   * polygonize returns the sentinel exactly when the configuration's edge
   * mask is 0; otherwise it returns the cube index and 12 slots, slot `e`
   * defined exactly when bit `e` of the mask is set, and then holding the
   * vertex on the edge between the two corners of edge `e`.
   */
  lemma PolygonizedSlots(grid: seq<Sample>, isolevel: real, edgeTable: seq<bv16>)
    requires |grid| == 8 && |edgeTable| == CONFIGURATIONS
    ensures var r := Polygonized(grid, isolevel, edgeTable);
      (r.Empty? <==> edgeTable[CubeIndex(grid, isolevel) as int] == 0) &&
      (r.Poly? ==>
        r.cubeIndex == CubeIndex(grid, isolevel) as int && |r.vertPositions| == 12 &&
        forall e | 0 <= e < 12 ::
          (r.vertPositions[e].Some? <==> EdgeBit(edgeTable[r.cubeIndex], e)) &&
          (r.vertPositions[e].Some? ==>
             r.vertPositions[e].value == Interpolated(isolevel, grid[EDGE_FROM[e]], grid[EDGE_TO[e]])))
  {
    EdgeVerticesPairs(grid, isolevel, edgeTable[CubeIndex(grid, isolevel) as int]);
  }

  // ---------------------------------------------------------------------
  // Emitting triangles.

  /** `vertPositions[e]` as JavaScript reads it: undefined (None) outside the array. */
  function Lookup(vertices: seq<Option<EdgePoint>>, e: int): (v: Option<EdgePoint>) {
    if 0 <= e < |vertices| then vertices[e] else None
  }

  /**
   * The vertices pushed by the loop over a TRI_TABLE row from position `i`:
   * three per step while the entry at the start of the step is not the sentinel.
   */
  function TriangleWalk(row: seq<int>, vertices: seq<Option<EdgePoint>>, i: nat): (out: seq<Option<EdgePoint>>)
    requires |row| == ROW_LENGTH && row[ROW_LENGTH - 1] == SENTINEL
    requires i < ROW_LENGTH && i % 3 == 0
    decreases ROW_LENGTH - i
  {
    if row[i] == SENTINEL then []
    else
      [Lookup(vertices, row[i]), Lookup(vertices, row[i + 1]), Lookup(vertices, row[i + 2])]
      + TriangleWalk(row, vertices, i + 3)
  }

  /**
   * The walk from `i` emits whole triangles, stops at the first triangle start
   * holding the sentinel, and its `j`-th vertex is the edge vertex the row's
   * entry `i + j` names.
   */
  lemma {:induction false} TriangleWalkShape(row: seq<int>, vertices: seq<Option<EdgePoint>>, i: nat)
    requires |row| == ROW_LENGTH && row[ROW_LENGTH - 1] == SENTINEL
    requires i < ROW_LENGTH && i % 3 == 0
    ensures var out := TriangleWalk(row, vertices, i);
      |out| % 3 == 0 && i + |out| < ROW_LENGTH &&
      row[i + |out|] == SENTINEL &&
      (forall k | i <= k < i + |out| && k % 3 == 0 :: row[k] != SENTINEL) &&
      (forall j | 0 <= j < |out| :: out[j] == Lookup(vertices, row[i + j]))
    decreases ROW_LENGTH - i
  {
    if row[i] != SENTINEL {
      TriangleWalkShape(row, vertices, i + 3);
      var rest := TriangleWalk(row, vertices, i + 3);
      var out := TriangleWalk(row, vertices, i);
      var head := [Lookup(vertices, row[i]), Lookup(vertices, row[i + 1]), Lookup(vertices, row[i + 2])];
      assert out == head + rest;
      forall j | 0 <= j < |out|
        ensures out[j] == Lookup(vertices, row[i + j])
      {
        if j >= 3 {
          assert out[j] == rest[j - 3];
        }
      }
    }
  }

  /** The vertices one voxel contributes: nothing for the sentinel, else the walk over its row. */
  function CellTriangles(poly: PolyResult, triTable: seq<int>): (out: seq<Option<EdgePoint>>)
    requires |triTable| == CONFIGURATIONS * ROW_LENGTH
    requires forall c | 0 <= c < CONFIGURATIONS :: Row(triTable, c)[ROW_LENGTH - 1] == SENTINEL
    requires poly.Poly? ==> 0 <= poly.cubeIndex < CONFIGURATIONS
  {
    match poly
    case Empty => []
    case Poly(vertices, cubeIndex) => TriangleWalk(Row(triTable, cubeIndex), vertices, 0)
  }

  // ---------------------------------------------------------------------
  // Properties of the mesh.

  /** A voxel whose configuration crosses no edge emits nothing. */
  lemma EmptyConfigurationEmitsNothing(grid: seq<Sample>, isolevel: real, edgeTable: seq<bv16>, triTable: seq<int>)
    requires |grid| == 8 && TablesWellFormed(edgeTable, triTable)
    requires edgeTable[CubeIndex(grid, isolevel) as int] == 0
    ensures Polygonized(grid, isolevel, edgeTable) == Empty
    ensures CellTriangles(Polygonized(grid, isolevel, edgeTable), triTable) == []
  {
  }

  /** With configurations 0 and 255 empty, a voxel entirely inside or entirely outside emits nothing. */
  lemma UniformCellEmitsNothing(grid: seq<Sample>, isolevel: real, edgeTable: seq<bv16>, triTable: seq<int>)
    requires |grid| == 8 && TablesWellFormed(edgeTable, triTable)
    requires UniformConfigurationsEmpty(edgeTable)
    requires (forall k | 0 <= k < 8 :: grid[k].isovalue < isolevel) ||
             (forall k | 0 <= k < 8 :: grid[k].isovalue >= isolevel)
    ensures Polygonized(grid, isolevel, edgeTable) == Empty
    ensures CellTriangles(Polygonized(grid, isolevel, edgeTable), triTable) == []
  {
    CubeIndexUniform(grid, isolevel);
  }

  /** Each voxel emits whole triangles, at most five. */
  lemma CellTrianglesShape(grid: seq<Sample>, isolevel: real, edgeTable: seq<bv16>, triTable: seq<int>)
    requires |grid| == 8 && TablesWellFormed(edgeTable, triTable)
    ensures var out := CellTriangles(Polygonized(grid, isolevel, edgeTable), triTable);
      |out| % 3 == 0 && |out| <= 15
  {
    var poly := Polygonized(grid, isolevel, edgeTable);
    if poly.Poly? {
      TriangleWalkShape(Row(triTable, poly.cubeIndex), poly.vertPositions, 0);
    }
  }

  /** `j - j % 3` is the start of the triple that holds position `j`. */
  lemma TripleStart(j: nat)
    ensures 0 <= j - j % 3 <= j && (j - j % 3) % 3 == 0
  {
    assert j == 3 * (j / 3) + j % 3;
    assert j - j % 3 == 3 * (j / 3);
  }

  /** True when every triangle a row starts names edges whose bit is set in `mask`. */
  predicate RowUsesCrossedEdges(row: seq<int>, mask: bv16)
    requires |row| == ROW_LENGTH
  {
    forall j | 0 <= j < ROW_LENGTH - 1 :: row[j - j % 3] != SENTINEL ==> 0 <= row[j] < 12 && EdgeBit(mask, row[j])
  }

  /** A walk over a row that names only crossed edges, over slots filled for exactly the crossed edges, emits only defined vertices. */
  lemma WalkVerticesDefined(row: seq<int>, slots: seq<Option<EdgePoint>>, mask: bv16)
    requires |row| == ROW_LENGTH && row[ROW_LENGTH - 1] == SENTINEL && RowUsesCrossedEdges(row, mask)
    requires |slots| == 12 && forall d | 0 <= d < 12 :: slots[d].Some? <==> EdgeBit(mask, d)
    ensures forall v | v in TriangleWalk(row, slots, 0) :: v.Some?
  {
    var out := TriangleWalk(row, slots, 0);
    TriangleWalkShape(row, slots, 0);
    forall j | 0 <= j < |out|
      ensures out[j].Some?
    {
      TripleStart(j);
      assert row[j - j % 3] != SENTINEL;
      assert out[j] == Lookup(slots, row[j]);
    }
  }

  /**
   * With consistent tables every emitted vertex is defined: each triangle
   * entry names an edge that polygonize filled in.
   */
  lemma CellVerticesDefined(grid: seq<Sample>, isolevel: real, edgeTable: seq<bv16>, triTable: seq<int>)
    requires |grid| == 8 && TablesWellFormed(edgeTable, triTable) && TablesConsistent(edgeTable, triTable)
    ensures forall v | v in CellTriangles(Polygonized(grid, isolevel, edgeTable), triTable) :: v.Some?
  {
    var poly := Polygonized(grid, isolevel, edgeTable);
    PolygonizedSlots(grid, isolevel, edgeTable);
    if poly.Poly? {
      var c := poly.cubeIndex;
      var row := Row(triTable, c);
      assert RowUsesCrossedEdges(row, edgeTable[c]);
      WalkVerticesDefined(row, poly.vertPositions, edgeTable[c]);
    }
  }

  // ---------------------------------------------------------------------
  // The mesh of a grid.

  /** The parts joined in order. */
  function Flatten<T>(parts: seq<seq<T>>): (joined: seq<T>)
    decreases |parts|
  {
    if parts == [] then [] else Flatten(parts[..|parts| - 1]) + parts[|parts| - 1]
  }

  /** Flattening one more part appends it. */
  lemma FlattenStep<T>(parts: seq<seq<T>>, n: nat)
    requires n < |parts|
    ensures Flatten(parts[..n + 1]) == Flatten(parts[..n]) + parts[n]
  {
    assert parts[..n + 1][..n] == parts[..n];
  }

  lemma {:induction false} FlattenConcat<T>(a: seq<seq<T>>, b: seq<seq<T>>)
    ensures Flatten(a + b) == Flatten(a) + Flatten(b)
    decreases |b|
  {
    if b == [] {
      assert a + b == a;
    } else {
      var last := |b| - 1;
      assert (a + b)[..|a + b| - 1] == a + b[..last];
      FlattenConcat(a, b[..last]);
    }
  }

  lemma {:induction false} FlattenMember<T>(parts: seq<seq<T>>, v: T)
    requires v in Flatten(parts)
    ensures exists c :: 0 <= c < |parts| && v in parts[c]
    decreases |parts|
  {
    var last := |parts| - 1;
    if v !in parts[last] {
      FlattenMember(parts[..last], v);
      var c :| 0 <= c < last && v in parts[..last][c];
      assert v in parts[c];
    }
  }

  lemma {:induction false} FlattenWholeTriangles<T>(parts: seq<seq<T>>)
    requires forall c | 0 <= c < |parts| :: |parts[c]| % 3 == 0
    ensures |Flatten(parts)| % 3 == 0
    decreases |parts|
  {
    if parts != [] {
      var last := |parts| - 1;
      FlattenWholeTriangles(parts[..last]);
      ThreeDividesSum(|Flatten(parts[..last])|, |parts[last]|);
    }
  }

  lemma ThreeDividesSum(m: nat, n: nat)
    requires m % 3 == 0 && n % 3 == 0
    ensures (m + n) % 3 == 0
  {
    assert m == 3 * (m / 3) && n == 3 * (n / 3);
    assert m + n == 3 * (m / 3 + n / 3);
  }

  /** True when every cell has its 8 corner samples. */
  predicate AllCells(cells: seq<seq<Sample>>) {
    forall c | 0 <= c < |cells| :: |cells[c]| == 8
  }

  /** What each cell emits, by linear index. */
  function CellOutputs(cells: seq<seq<Sample>>, isolevel: real, edgeTable: seq<bv16>, triTable: seq<int>): (outs: seq<seq<Option<EdgePoint>>>)
    requires TablesWellFormed(edgeTable, triTable) && AllCells(cells)
    ensures |outs| == |cells|
  {
    seq(|cells|, c requires 0 <= c < |cells| => CellTriangles(Polygonized(cells[c], isolevel, edgeTable), triTable))
  }

  /** The vertex list of the mesh: what the cells emit, in ascending linear index. */
  function MeshOf(cells: seq<seq<Sample>>, isolevel: real, edgeTable: seq<bv16>, triTable: seq<int>): (mesh: seq<Option<EdgePoint>>)
    requires TablesWellFormed(edgeTable, triTable) && AllCells(cells)
  {
    Flatten(CellOutputs(cells, isolevel, edgeTable, triTable))
  }

  /** The mesh is a sequence of whole triangles. */
  lemma MeshIsTriangles(cells: seq<seq<Sample>>, isolevel: real, edgeTable: seq<bv16>, triTable: seq<int>)
    requires TablesWellFormed(edgeTable, triTable) && AllCells(cells)
    ensures |MeshOf(cells, isolevel, edgeTable, triTable)| % 3 == 0
  {
    var outs := CellOutputs(cells, isolevel, edgeTable, triTable);
    forall c | 0 <= c < |outs|
      ensures |outs[c]| % 3 == 0
    {
      CellTrianglesShape(cells[c], isolevel, edgeTable, triTable);
    }
    FlattenWholeTriangles(outs);
  }

  /**
   * Cells are emitted in order: the mesh of a grid split in two is the mesh of
   * the first part followed by the mesh of the second.
   */
  lemma MeshOfConcat(a: seq<seq<Sample>>, b: seq<seq<Sample>>, isolevel: real, edgeTable: seq<bv16>, triTable: seq<int>)
    requires TablesWellFormed(edgeTable, triTable) && AllCells(a) && AllCells(b)
    ensures AllCells(a + b)
    ensures MeshOf(a + b, isolevel, edgeTable, triTable)
         == MeshOf(a, isolevel, edgeTable, triTable) + MeshOf(b, isolevel, edgeTable, triTable)
  {
    assert AllCells(a + b);
    var outsA := CellOutputs(a, isolevel, edgeTable, triTable);
    var outsB := CellOutputs(b, isolevel, edgeTable, triTable);
    assert CellOutputs(a + b, isolevel, edgeTable, triTable) == outsA + outsB;
    FlattenConcat(outsA, outsB);
  }

  lemma {:induction false} FlattenAllEmpty<T>(parts: seq<seq<T>>)
    requires forall c | 0 <= c < |parts| :: parts[c] == []
    ensures Flatten(parts) == []
    decreases |parts|
  {
    if parts != [] {
      FlattenAllEmpty(parts[..|parts| - 1]);
    }
  }

  /**
   * With configurations 0 and 255 empty, a grid whose samples all lie below
   * the isolevel, or all at or above it, has an empty mesh.
   */
  lemma UniformGridEmitsNothing(cells: seq<seq<Sample>>, isolevel: real, edgeTable: seq<bv16>, triTable: seq<int>)
    requires TablesWellFormed(edgeTable, triTable) && UniformConfigurationsEmpty(edgeTable) && AllCells(cells)
    requires (forall c, k | 0 <= c < |cells| && 0 <= k < 8 :: cells[c][k].isovalue < isolevel) ||
             (forall c, k | 0 <= c < |cells| && 0 <= k < 8 :: cells[c][k].isovalue >= isolevel)
    ensures MeshOf(cells, isolevel, edgeTable, triTable) == []
  {
    var outs := CellOutputs(cells, isolevel, edgeTable, triTable);
    forall c | 0 <= c < |outs|
      ensures outs[c] == []
    {
      UniformCellEmitsNothing(cells[c], isolevel, edgeTable, triTable);
    }
    FlattenAllEmpty(outs);
  }

  /** With consistent tables every vertex of the mesh is defined. */
  lemma MeshVerticesDefined(cells: seq<seq<Sample>>, isolevel: real, edgeTable: seq<bv16>, triTable: seq<int>)
    requires TablesWellFormed(edgeTable, triTable) && TablesConsistent(edgeTable, triTable) && AllCells(cells)
    ensures forall v | v in MeshOf(cells, isolevel, edgeTable, triTable) :: v.Some?
  {
    var outs := CellOutputs(cells, isolevel, edgeTable, triTable);
    forall v: Option<EdgePoint> | v in Flatten(outs)
      ensures v.Some?
    {
      FlattenMember(outs, v);
      var c :| 0 <= c < |outs| && v in outs[c];
      CellVerticesDefined(cells[c], isolevel, edgeTable, triTable);
    }
  }
}
