/**
 * The grid object (class MarchingCubes): its voxels laid out by linear index,
 * the pause switch, the per-frame resampling of every corner, and the mesh
 * built cell after cell from the lookup tables.
 */
module Grid {
  import opened Geometry
  import opened GridIndex
  import opened LookupTables
  import opened Polygonizer
  import opened Voxels

  /**
   * The level makeMesh and updateMesh pass to polygonize. It is the literal 1,
   * not the configured isolevel.
   */
  const MESH_LEVEL: real := 1.0

  /**
   * setupCells: for each linear index `i < res^3`, a fresh voxel centred by
   * i3toPos(i1toi3(i)), in ascending order.
   */
  method SetupCells(res: nat, gridCellWidth: real) returns (cells: seq<Voxel>)
    ensures |cells| == res * res * res
    ensures forall c | 0 <= c < |cells| ::
      res > 0 && cells[c].Valid() && cells[c].gridCellWidth == gridCellWidth &&
      cells[c].pos == I3toPos(gridCellWidth, gridCellWidth / 2.0, Vec3(0.0, 0.0, 0.0), I1toI3(res, c)) &&
      forall k | 0 <= k < 8 :: fresh(cells[c].vertices[k]) && cells[c].vertices[k].isovalue == 0.0
  {
    var half := gridCellWidth / 2.0;
    var zero := Vec3(0.0, 0.0, 0.0);
    var count := res * res * res;
    cells := [];
    var i := 0;
    while i < count
      invariant 0 <= i <= count && |cells| == i
      invariant forall c | 0 <= c < i ::
        res > 0 && cells[c].Valid() && cells[c].gridCellWidth == gridCellWidth &&
        cells[c].pos == I3toPos(gridCellWidth, half, zero, I1toI3(res, c)) &&
        forall k | 0 <= k < 8 :: fresh(cells[c].vertices[k]) && cells[c].vertices[k].isovalue == 0.0
    {
      var i3 := I1toI3(res, i);
      var voxel := new Voxel(I3toPos(gridCellWidth, half, zero, i3), gridCellWidth);
      cells := cells + [voxel];
      i := i + 1;
    }
  }

  /**
   * The inner loop of update: each of the voxel's eight corners gets `sample`
   * of its own position. The contract does not rely on the points being
   * distinct from those of other voxels.
   */
  method SampleCorners(v: Voxel, sample: Vec3 -> real)
    requires |v.vertices| == 8
    modifies set k | 0 <= k < 8 :: v.vertices[k]
    ensures forall p | p in v.vertices :: p.isovalue == sample(p.pos)
  {
    var i := 0;
    while i < 8
      invariant 0 <= i <= 8
      invariant forall k | 0 <= k < i :: v.vertices[k].isovalue == sample(v.vertices[k].pos)
    {
      v.vertices[i].isovalue := sample(v.vertices[i].pos);
      i := i + 1;
    }
  }

  /**
   * The inner loop of makeMesh and updateMesh, for a voxel that is not the
   * empty sentinel: walk its TRI_TABLE row in steps of three while the entry
   * is not the sentinel, pushing the three edge vertices the entries name.
   */
  method PushTriangles(vertices: seq<Option<EdgePoint>>, row: seq<int>, slots: seq<Option<EdgePoint>>)
    returns (pushed: seq<Option<EdgePoint>>)
    requires |row| == ROW_LENGTH && row[ROW_LENGTH - 1] == SENTINEL
    ensures pushed == vertices + TriangleWalk(row, slots, 0)
  {
    pushed := vertices;
    var i := 0;
    while row[i] != SENTINEL
      invariant 0 <= i < ROW_LENGTH && i % 3 == 0
      invariant vertices + TriangleWalk(row, slots, 0) == pushed + TriangleWalk(row, slots, i)
      decreases ROW_LENGTH - i
    {
      var triangle := [Lookup(slots, row[i]), Lookup(slots, row[i + 1]), Lookup(slots, row[i + 2])];
      ghost var rest := TriangleWalk(row, slots, i + 3);
      assert TriangleWalk(row, slots, i) == triangle + rest;
      assert pushed + (triangle + rest) == (pushed + triangle) + rest;
      pushed := pushed + triangle;
      i := i + 3;
    }
  }

  class MarchingCubes {
    var isPaused: bool
    const origin: Vec3
    const isolevel: real
    const gridCellWidth: real
    const halfCellWidth: real
    const res: nat
    const res2: nat
    const res3: nat
    const edgeTable: seq<bv16>
    const triTable: seq<int>
    const voxels: seq<Voxel>
    /** The meshes this object has added to the scene, oldest first, each as its vertex list. */
    var scene: seq<seq<Option<EdgePoint>>>

    /**
     * The grid as setupCells builds it: res^3 voxels, voxel `c` centred on the
     * cell with 3D index i1toi3(c), each with its eight corner points.
     */
    ghost predicate Valid() {
      res2 == res * res && res3 == res2 * res &&
      halfCellWidth == gridCellWidth / 2.0 && origin == Vec3(0.0, 0.0, 0.0) &&
      TablesWellFormed(edgeTable, triTable) &&
      |voxels| == res3 &&
      forall c | 0 <= c < res3 ::
        res > 0 && voxels[c].Valid() && voxels[c].gridCellWidth == gridCellWidth &&
        voxels[c].pos == I3toPos(gridCellWidth, halfCellWidth, origin, I1toI3(res, c))
    }

    /** Every corner point of every voxel. */
    ghost function Points(): (points: set<InspectPoint>) {
      set c, k | 0 <= c < |voxels| && 0 <= k < |voxels[c].vertices| :: voxels[c].vertices[k]
    }

    /** The corner samples every voxel holds at present, by linear index. */
    ghost function CellSamples(): (cells: seq<seq<Sample>>)
      requires Valid()
      reads set c, k | 0 <= c < |voxels| && 0 <= k < |voxels[c].vertices| :: voxels[c].vertices[k]
      ensures |cells| == res3 && AllCells(cells)
    {
      seq(res3, c requires 0 <= c < res3 reads set c, k | 0 <= c < |voxels| && 0 <= k < |voxels[c].vertices| :: voxels[c].vertices[k] => voxels[c].Samples())
    }

    /** The corner samples after every corner has been set to `sample` of its position. */
    ghost function SampledCells(sample: Vec3 -> real): (cells: seq<seq<Sample>>)
      requires Valid()
      ensures |cells| == res3 && AllCells(cells)
    {
      seq(res3, c requires 0 <= c < res3 =>
        seq(8, k requires 0 <= k < 8 =>
          Sample(CornerPos(voxels[c].pos, gridCellWidth / 2.0, k), sample(CornerPos(voxels[c].pos, gridCellWidth / 2.0, k)))))
    }

    /**
     * init and setupCells: one fresh voxel per linear index, centred by
     * i3toPos(i1toi3(i)), all corner values 0, then makeMesh.
     */
    constructor (res: nat, gridCellWidth: real, isolevel: real, edgeTable: seq<bv16>, triTable: seq<int>)
      requires TablesWellFormed(edgeTable, triTable)
      ensures Valid()
      ensures !isPaused
      ensures this.res == res && this.gridCellWidth == gridCellWidth && this.isolevel == isolevel
      ensures this.edgeTable == edgeTable && this.triTable == triTable
      ensures forall c, k | 0 <= c < res3 && 0 <= k < 8 ::
        fresh(voxels[c].vertices[k]) && voxels[c].vertices[k].isovalue == 0.0
      ensures scene == [MeshOf(CellSamples(), MESH_LEVEL, edgeTable, triTable)]
      ensures UniformConfigurationsEmpty(edgeTable) ==> scene == [[]]
    {
      var half := gridCellWidth / 2.0;
      var zero := Vec3(0.0, 0.0, 0.0);
      var count := res * res * res;
      var cells := SetupCells(res, gridCellWidth);
      isPaused := false;
      origin := zero;
      this.isolevel := isolevel;
      this.gridCellWidth := gridCellWidth;
      halfCellWidth := half;
      this.res := res;
      res2 := res * res;
      res3 := count;
      this.edgeTable := edgeTable;
      this.triTable := triTable;
      voxels := cells;
      scene := [];
      new;
      UpdateMesh();
      if UniformConfigurationsEmpty(edgeTable) {
        UniformValuesEmitNothing(0.0, MESH_LEVEL);
      }
    }

    /**
     * The loop of makeMesh and updateMesh: for each voxel in ascending linear
     * index, polygonize it and push the vertices its TRI_TABLE row names.
     */
    method MeshVertices(level: real) returns (vertices: seq<Option<EdgePoint>>)
      requires Valid()
      ensures vertices == MeshOf(CellSamples(), level, edgeTable, triTable)
    {
      ghost var cells := CellSamples();
      ghost var outs := CellOutputs(cells, level, edgeTable, triTable);
      vertices := [];
      var c := 0;
      while c < res3
        invariant 0 <= c <= res3
        invariant vertices == Flatten(outs[..c])
      {
        vertices := EmitCell(vertices, c, level);
        assert cells[c] == voxels[c].Samples();
        FlattenStep(outs, c);
        c := c + 1;
      }
      assert outs[..res3] == outs;
    }

    /**
     * One step of the loop of makeMesh and updateMesh: polygonize voxel `c`
     * and push the vertices its TRI_TABLE row names.
     */
    method EmitCell(vertices: seq<Option<EdgePoint>>, c: nat, level: real) returns (pushed: seq<Option<EdgePoint>>)
      requires Valid() && c < res3
      ensures pushed == vertices + CellTriangles(Polygonized(voxels[c].Samples(), level, edgeTable), triTable)
    {
      var polyret := voxels[c].Polygonize(level, edgeTable);
      pushed := vertices;
      // The loop guard fails at once for the empty sentinel.
      if polyret.Poly? {
        pushed := PushTriangles(vertices, Row(triTable, polyret.cubeIndex), polyret.vertPositions);
      }
    }

    /** updateMesh (and makeMesh, the same loop): add one more mesh, built at level 1, to the scene. */
    method UpdateMesh()
      requires Valid()
      modifies this`scene
      ensures scene == old(scene) + [MeshOf(CellSamples(), MESH_LEVEL, edgeTable, triTable)]
    {
      var vertices := MeshVertices(MESH_LEVEL);
      scene := scene + [vertices];
    }

    /**
     * update: nothing when paused; otherwise every corner of every voxel gets
     * `sample` of its fixed position, and the mesh of the new values is added
     * to the scene.
     */
    method Update(sample: Vec3 -> real)
      requires Valid()
      modifies this`scene, Points()
      ensures old(isPaused) ==> scene == old(scene) && forall p | p in Points() :: p.isovalue == old(p.isovalue)
      ensures !old(isPaused) ==>
        (forall c, k | 0 <= c < res3 && 0 <= k < 8 :: voxels[c].vertices[k].isovalue == sample(voxels[c].vertices[k].pos)) &&
        CellSamples() == SampledCells(sample) &&
        scene == old(scene) + [MeshOf(SampledCells(sample), MESH_LEVEL, edgeTable, triTable)]
    {
      if isPaused {
        return;
      }
      SampleVoxels(sample);
      ResampledCells(sample);
      UpdateMesh();
    }

    /** The resampling loop of update: every corner of every voxel gets `sample` of its position. */
    method SampleVoxels(sample: Vec3 -> real)
      requires Valid()
      modifies Points()
      ensures forall c, k | 0 <= c < res3 && 0 <= k < 8 ::
        voxels[c].vertices[k].isovalue == sample(voxels[c].vertices[k].pos)
    {
      var c := 0;
      while c < res3
        invariant 0 <= c <= res3
        invariant forall d, k | 0 <= d < c && 0 <= k < 8 ::
          voxels[d].vertices[k].isovalue == sample(voxels[d].vertices[k].pos)
      {
        SampleCorners(voxels[c], sample);
        c := c + 1;
      }
    }

    /** Once every corner holds `sample` of its position, the samples are those of the field alone. */
    lemma ResampledCells(sample: Vec3 -> real)
      requires Valid()
      requires forall c, k | 0 <= c < res3 && 0 <= k < 8 :: voxels[c].vertices[k].isovalue == sample(voxels[c].vertices[k].pos)
      ensures CellSamples() == SampledCells(sample)
    {
      var now, field := CellSamples(), SampledCells(sample);
      forall c | 0 <= c < res3
        ensures now[c] == field[c]
      {
        var v := voxels[c];
        assert now[c] == v.Samples();
        forall k | 0 <= k < 8
          ensures now[c][k] == field[c][k]
        {
          assert v.vertices[k].pos == CornerPos(v.pos, gridCellWidth / 2.0, k);
        }
      }
    }

    /**
     * With configurations 0 and 255 empty, a grid whose corners all hold the
     * same value has an empty mesh at any level.
     */
    lemma UniformValuesEmitNothing(v: real, level: real)
      requires Valid() && UniformConfigurationsEmpty(edgeTable)
      requires forall c, k | 0 <= c < res3 && 0 <= k < 8 :: voxels[c].vertices[k].isovalue == v
      ensures MeshOf(CellSamples(), level, edgeTable, triTable) == []
    {
      var cells: seq<seq<Sample>> := CellSamples();
      assert forall c: int, k: int | 0 <= c < res3 && 0 <= k < 8 :: cells[c][k].isovalue == v by {
        forall c: int, k: int | 0 <= c < res3 && 0 <= k < 8
          ensures cells[c][k].isovalue == v
        {
          assert cells[c] == voxels[c].Samples();
        }
      }
      UniformGridEmitsNothing(cells, level, edgeTable, triTable);
    }

    /**
     * Voxel `c` sits in the cell with 3D index i1toi3(c), which lies in the
     * grid, and its centre lies strictly inside that cell.
     */
    lemma VoxelPlacement(c: nat)
      requires Valid() && gridCellWidth > 0.0 && res <= TWO_POW_31 && c < res3
      ensures InRange(res, I1toI3(res, c))
      ensures InsideCell(gridCellWidth, origin, I1toI3(res, c), voxels[c].pos)
    {
      assert voxels[c].pos == I3toPos(gridCellWidth, gridCellWidth / 2.0, origin, I1toI3(res, c));
      LinearIndexCell(res, gridCellWidth, origin, c);
    }

    /** Distinct voxels have distinct centres. */
    lemma VoxelCentresDistinct(c: nat, d: nat)
      requires Valid() && gridCellWidth > 0.0 && res <= TWO_POW_31
      requires c < res3 && d < res3 && c != d
      ensures voxels[c].pos != voxels[d].pos
    {
      if voxels[c].pos == voxels[d].pos {
        I3toPosInjective(gridCellWidth, origin, I1toI3(res, c), I1toI3(res, d));
        LinearRoundTrip(res, c);
        LinearRoundTrip(res, d);
      }
    }

    /** pause */
    method Pause()
      modifies this`isPaused
      ensures isPaused
    {
      isPaused := true;
    }

    /** play */
    method Play()
      modifies this`isPaused
      ensures !isPaused
    {
      isPaused := false;
    }
  }
}
