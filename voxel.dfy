/**
 * One cell of the grid (class Voxel): its eight corner sample points laid out
 * around the cell centre (makeInspectPoints), and the per-cell step of
 * marching cubes (polygonize).
 */
module Voxels {
  import opened Geometry
  import opened LookupTables
  import opened Polygonizer

  /**
   * The corner offset table as makeInspectPoints writes it: the sign of each
   * coordinate of corner `k` relative to the centre, front face (z > 0) first.
   * Its back face is listed starting behind corner 3, so corner 4 + j is not
   * behind corner j.
   */
  const WRITTEN_CORNER_SIGNS: seq<Vec3> := [
    Vec3( 1.0,  1.0,  1.0), Vec3( 1.0, -1.0,  1.0), Vec3(-1.0, -1.0,  1.0), Vec3(-1.0,  1.0,  1.0),
    Vec3(-1.0,  1.0, -1.0), Vec3(-1.0, -1.0, -1.0), Vec3( 1.0, -1.0, -1.0), Vec3( 1.0,  1.0, -1.0)
  ]

  /**
   * The corner offset table polygonize's edge list expects: the same front
   * face, and corner 4 + j directly behind corner j.
   */
  const CORNER_SIGNS: seq<Vec3> := [
    Vec3( 1.0,  1.0,  1.0), Vec3( 1.0, -1.0,  1.0), Vec3(-1.0, -1.0,  1.0), Vec3(-1.0,  1.0,  1.0),
    Vec3( 1.0,  1.0, -1.0), Vec3( 1.0, -1.0, -1.0), Vec3(-1.0, -1.0, -1.0), Vec3(-1.0,  1.0, -1.0)
  ]

  /** Entry `k` of a corner offset table: each coordinate plus or minus half a cell width. */
  function CornerOffset(signs: seq<Vec3>, half: real, k: nat): (offset: Vec3)
    requires |signs| == 8 && k < 8
  {
    Vec3(signs[k].x * half, signs[k].y * half, signs[k].z * half)
  }

  /** Position of corner `k` of the voxel centred at `centre`, as makeInspectPoints places it. */
  function CornerPos(centre: Vec3, half: real, k: nat): (p: Vec3)
    requires k < 8
  {
    Add(centre, CornerOffset(WRITTEN_CORNER_SIGNS, half, k))
  }

  /** Position of corner `k` of the voxel centred at `centre`, by the corrected table. */
  function CorrectedCornerPos(centre: Vec3, half: real, k: nat): (p: Vec3)
    requires k < 8
  {
    Add(centre, CornerOffset(CORNER_SIGNS, half, k))
  }

  /** True when corners `j` and `k` of a sign table differ in exactly one coordinate, that is, share a cube edge. */
  predicate Adjacent(signs: seq<Vec3>, j: nat, k: nat)
    requires |signs| == 8 && j < 8 && k < 8
  {
    var a, b := signs[j], signs[k];
    (if a.x != b.x then 1 else 0) + (if a.y != b.y then 1 else 0) + (if a.z != b.z then 1 else 0) == 1
  }

  /** True when some cube edge polygonize reads joins two corners of `signs` that are not adjacent. */
  predicate ReadsDiagonal(signs: seq<Vec3>)
    requires |signs| == 8
  {
    exists e | 0 <= e < 12 :: EDGE_FROM[e] < 8 && EDGE_TO[e] < 8 && !Adjacent(signs, EDGE_FROM[e], EDGE_TO[e])
  }

  /**
   * With the table as written, the four edges from the front face to the
   * back face (8 to 11) each join two corners that differ in two coordinates:
   * they are face diagonals, not cube edges. For the unit cell centred at the
   * origin, edge 8 joins (0.5, 0.5, 0.5) and (-0.5, 0.5, -0.5).
   */
  lemma WrittenVerticalEdgesAreDiagonals()
    ensures forall e | 8 <= e < 12 ::
      EDGE_FROM[e] < 8 && EDGE_TO[e] < 8 && !Adjacent(WRITTEN_CORNER_SIGNS, EDGE_FROM[e], EDGE_TO[e])
    ensures ReadsDiagonal(WRITTEN_CORNER_SIGNS)
    ensures CornerPos(Vec3(0.0, 0.0, 0.0), 0.5, EDGE_FROM[8]) == Vec3(0.5, 0.5, 0.5)
    ensures CornerPos(Vec3(0.0, 0.0, 0.0), 0.5, EDGE_TO[8]) == Vec3(-0.5, 0.5, -0.5)
  {
    forall e | 8 <= e < 12
      ensures EDGE_FROM[e] < 8 && EDGE_TO[e] < 8 && !Adjacent(WRITTEN_CORNER_SIGNS, EDGE_FROM[e], EDGE_TO[e])
    {
      if e == 8 {
        assert !Adjacent(WRITTEN_CORNER_SIGNS, 0, 4);
      } else if e == 9 {
        assert !Adjacent(WRITTEN_CORNER_SIGNS, 1, 5);
      } else if e == 10 {
        assert !Adjacent(WRITTEN_CORNER_SIGNS, 2, 6);
      } else {
        assert !Adjacent(WRITTEN_CORNER_SIGNS, 3, 7);
      }
    }
    assert EDGE_FROM[8] == 0 && EDGE_TO[8] == 4 && !Adjacent(WRITTEN_CORNER_SIGNS, 0, 4);
  }

  /**
   * The eight corners makeInspectPoints places are the eight distinct
   * corners of the cube: for a positive half width, distinct indices give
   * distinct positions, each coordinate lies exactly half a width from the
   * centre, corners 0-3 form the front face (z above the centre) and 4-7 the
   * back face, and corner 7 - j lies directly behind corner j.
   */
  lemma CornerLayout(centre: Vec3, half: real)
    requires half > 0.0
    ensures forall j, k | 0 <= j < k < 8 :: CornerPos(centre, half, j) != CornerPos(centre, half, k)
    ensures forall k | 0 <= k < 8 ::
      var p := CornerPos(centre, half, k);
      (p.x == centre.x + half || p.x == centre.x - half) &&
      (p.y == centre.y + half || p.y == centre.y - half) &&
      (p.z == (if k < 4 then centre.z + half else centre.z - half))
    ensures forall j | 0 <= j < 4 ::
      var p, q := CornerPos(centre, half, j), CornerPos(centre, half, 7 - j);
      q.x == p.x && q.y == p.y && q.z == p.z - 2.0 * half
  {
    forall j, k | 0 <= j < k < 8
      ensures CornerPos(centre, half, j) != CornerPos(centre, half, k)
    {
      assert WRITTEN_CORNER_SIGNS[j] != WRITTEN_CORNER_SIGNS[k];
    }
  }

  /**
   * The corrected table places the same eight corners, with corner 4 + j
   * directly behind corner j, the numbering polygonize's edge list uses.
   */
  lemma CorrectedCornerLayout(centre: Vec3, half: real)
    requires half > 0.0
    ensures forall j, k | 0 <= j < k < 8 :: CorrectedCornerPos(centre, half, j) != CorrectedCornerPos(centre, half, k)
    ensures forall j | 0 <= j < 4 ::
      var p, q := CorrectedCornerPos(centre, half, j), CorrectedCornerPos(centre, half, j + 4);
      q.x == p.x && q.y == p.y && q.z == p.z - 2.0 * half
  {
    forall j, k | 0 <= j < k < 8
      ensures CorrectedCornerPos(centre, half, j) != CorrectedCornerPos(centre, half, k)
    {
      assert CORNER_SIGNS[j] != CORNER_SIGNS[k];
    }
  }

  lemma FaceEdgesAdjacent()
    ensures forall e | 0 <= e < 8 :: EDGE_FROM[e] < 8 && EDGE_TO[e] < 8 && Adjacent(CORNER_SIGNS, EDGE_FROM[e], EDGE_TO[e])
  {
    forall e | 0 <= e < 8
      ensures EDGE_FROM[e] < 8 && EDGE_TO[e] < 8 && Adjacent(CORNER_SIGNS, EDGE_FROM[e], EDGE_TO[e])
    {
      if e == 0 {
        assert Adjacent(CORNER_SIGNS, 0, 1);
      } else if e == 1 {
        assert Adjacent(CORNER_SIGNS, 1, 2);
      } else if e == 2 {
        assert Adjacent(CORNER_SIGNS, 2, 3);
      } else if e == 3 {
        assert Adjacent(CORNER_SIGNS, 3, 0);
      } else if e == 4 {
        assert Adjacent(CORNER_SIGNS, 4, 5);
      } else if e == 5 {
        assert Adjacent(CORNER_SIGNS, 5, 6);
      } else if e == 6 {
        assert Adjacent(CORNER_SIGNS, 6, 7);
      } else {
        assert Adjacent(CORNER_SIGNS, 7, 4);
      }
    }
  }

  lemma SideEdgesAdjacent()
    ensures forall e | 8 <= e < 12 :: EDGE_FROM[e] < 8 && EDGE_TO[e] < 8 && Adjacent(CORNER_SIGNS, EDGE_FROM[e], EDGE_TO[e])
  {
    forall e | 8 <= e < 12
      ensures EDGE_FROM[e] < 8 && EDGE_TO[e] < 8 && Adjacent(CORNER_SIGNS, EDGE_FROM[e], EDGE_TO[e])
    {
      if e == 8 {
        assert Adjacent(CORNER_SIGNS, 0, 4);
      } else if e == 9 {
        assert Adjacent(CORNER_SIGNS, 1, 5);
      } else if e == 10 {
        assert Adjacent(CORNER_SIGNS, 2, 6);
      } else {
        assert Adjacent(CORNER_SIGNS, 3, 7);
      }
    }
  }

  /**
   * With the corrected table every edge polygonize reads joins two adjacent
   * corners, and the 12 edges are 12 different corner pairs; as a cube has
   * exactly 12 edges, they are all of them.
   */
  lemma EdgesAreCubeEdges()
    ensures forall e | 0 <= e < 12 :: EDGE_FROM[e] < 8 && EDGE_TO[e] < 8 && Adjacent(CORNER_SIGNS, EDGE_FROM[e], EDGE_TO[e])
    ensures !ReadsDiagonal(CORNER_SIGNS)
    ensures forall d, e | 0 <= d < e < 12 ::
      {EDGE_FROM[d], EDGE_TO[d]} != {EDGE_FROM[e], EDGE_TO[e]}
  {
    FaceEdgesAdjacent();
    SideEdgesAdjacent();
  }

  /** A sample point of the grid: a fixed position and the field value last written there (InspectPoint). */
  class InspectPoint {
    const pos: Vec3
    var isovalue: real

    constructor (pos: Vec3, isovalue: real)
      ensures this.pos == pos && this.isovalue == isovalue
    {
      this.pos := pos;
      this.isovalue := isovalue;
    }
  }

  /** The sample a point holds at present. */
  function SampleOf(p: InspectPoint): (s: Sample)
    reads p
  {
    Sample(p.pos, p.isovalue)
  }

  class Voxel {
    const pos: Vec3
    const gridCellWidth: real
    const center: InspectPoint
    const vertices: seq<InspectPoint>

    /** Eight corner points, each placed by the corner offset table makeInspectPoints writes. */
    ghost predicate Valid() {
      |vertices| == 8 &&
      forall k | 0 <= k < 8 :: vertices[k].pos == CornerPos(pos, gridCellWidth / 2.0, k)
    }

    /** The corner samples as values, in corner order. */
    function Samples(): (g: seq<Sample>)
      requires |vertices| == 8
      reads vertices
      ensures |g| == 8
    {
      [SampleOf(vertices[0]), SampleOf(vertices[1]), SampleOf(vertices[2]), SampleOf(vertices[3]),
       SampleOf(vertices[4]), SampleOf(vertices[5]), SampleOf(vertices[6]), SampleOf(vertices[7])]
    }

    /** init and makeInspectPoints: a centre point and eight fresh corner points, all with value 0. */
    constructor (position: Vec3, gridCellWidth: real)
      ensures Valid()
      ensures pos == position && this.gridCellWidth == gridCellWidth
      ensures center.pos == position && center.isovalue == 0.0 && fresh(center)
      ensures forall k | 0 <= k < 8 :: fresh(vertices[k]) && vertices[k].isovalue == 0.0
    {
      var half := gridCellWidth / 2.0;
      var points: seq<InspectPoint> := [];
      var i := 0;
      while i < 8
        invariant 0 <= i <= 8 && |points| == i
        invariant forall k | 0 <= k < i ::
          points[k].pos == CornerPos(position, half, k) && points[k].isovalue == 0.0 && fresh(points[k])
      {
        var offset := CornerOffset(WRITTEN_CORNER_SIGNS, half, i);
        var p := new InspectPoint(Vec3(position.x + offset.x, position.y + offset.y, position.z + offset.z), 0.0);
        points := points + [p];
        i := i + 1;
      }
      pos := position;
      this.gridCellWidth := gridCellWidth;
      center := new InspectPoint(position, 0.0);
      vertices := points;
    }

    /**
     * The first half of polygonize: the cube index of the present corner
     * values, whose bit k marks corner k strictly below the isolevel.
     */
    method CubeIndexOf(isolevel: real) returns (cubeindex: bv8)
      requires |vertices| == 8
      ensures cubeindex == CubeIndex(Samples(), isolevel)
    {
      var grid := Samples();
      cubeindex := 0;

      if grid[0].isovalue < isolevel { cubeindex := cubeindex | 1; }
      assert cubeindex == CubeIndexUpTo(grid, isolevel, 1);
      if grid[1].isovalue < isolevel { cubeindex := cubeindex | 2; }
      assert cubeindex == CubeIndexUpTo(grid, isolevel, 2);
      if grid[2].isovalue < isolevel { cubeindex := cubeindex | 4; }
      assert cubeindex == CubeIndexUpTo(grid, isolevel, 3);
      if grid[3].isovalue < isolevel { cubeindex := cubeindex | 8; }
      assert cubeindex == CubeIndexUpTo(grid, isolevel, 4);
      if grid[4].isovalue < isolevel { cubeindex := cubeindex | 16; }
      assert cubeindex == CubeIndexUpTo(grid, isolevel, 5);
      if grid[5].isovalue < isolevel { cubeindex := cubeindex | 32; }
      assert cubeindex == CubeIndexUpTo(grid, isolevel, 6);
      if grid[6].isovalue < isolevel { cubeindex := cubeindex | 64; }
      assert cubeindex == CubeIndexUpTo(grid, isolevel, 7);
      if grid[7].isovalue < isolevel { cubeindex := cubeindex | 128; }
      assert cubeindex == CubeIndex(grid, isolevel);
      // A hint for the solver: without it this proof runs out of resource.
      CubeIndexBits(grid, isolevel);
    }

    /**
     * polygonize: set bit k of the cube index for each corner below the
     * isolevel; return the sentinel when the edge mask is 0; otherwise fill
     * the slot of each crossed edge from its two corners.
     */
    method Polygonize(isolevel: real, edgeTable: seq<bv16>) returns (r: PolyResult)
      requires Valid() && |edgeTable| == CONFIGURATIONS
      ensures r == Polygonized(Samples(), isolevel, edgeTable)
      ensures r.Poly? ==> 0 <= r.cubeIndex < CONFIGURATIONS && |r.vertPositions| == 12
    {
      var grid := Samples();
      var cubeindex := CubeIndexOf(isolevel);

      var mask := edgeTable[cubeindex as int];
      if mask == 0 {
        return Empty;
      }

      // Every slot starts undefined; slot e receives the vertex on edge e when
      // bit e of the mask is set (Slot), and is otherwise left undefined.
      var vertexList: seq<Option<EdgePoint>> := seq(12, _ => None);
      vertexList := vertexList[0 := Slot(mask, 0, isolevel, grid[0], grid[1])];
      vertexList := vertexList[1 := Slot(mask, 1, isolevel, grid[1], grid[2])];
      vertexList := vertexList[2 := Slot(mask, 2, isolevel, grid[2], grid[3])];
      vertexList := vertexList[3 := Slot(mask, 3, isolevel, grid[3], grid[0])];
      vertexList := vertexList[4 := Slot(mask, 4, isolevel, grid[4], grid[5])];
      vertexList := vertexList[5 := Slot(mask, 5, isolevel, grid[5], grid[6])];
      vertexList := vertexList[6 := Slot(mask, 6, isolevel, grid[6], grid[7])];
      vertexList := vertexList[7 := Slot(mask, 7, isolevel, grid[7], grid[4])];
      vertexList := vertexList[8 := Slot(mask, 8, isolevel, grid[0], grid[4])];
      vertexList := vertexList[9 := Slot(mask, 9, isolevel, grid[1], grid[5])];
      vertexList := vertexList[10 := Slot(mask, 10, isolevel, grid[2], grid[6])];
      vertexList := vertexList[11 := Slot(mask, 11, isolevel, grid[3], grid[7])];

      EdgeVerticesBySlot(grid, isolevel, mask, vertexList);
      r := Poly(vertexList, cubeindex as int);
    }
  }
}
