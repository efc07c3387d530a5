# Marching cubes over a metaball field — a Dafny model

This project models the grid core of `src/marching_cubes.js`, the marching-cubes mesher of a
metaball demo, and proves properties of it. The model covers:

- **The voxel grid.** `MarchingCubes` holds `res^3` voxels in a flat array. Voxel `c` is centred
  on the cell with 3D index `i1toi3(c)`. The object converts between linear and 3D indices
  (`i1toi3`, `i3toi1`) and maps a 3D index to the centre of its cell (`i3toPos`).
- **The voxel.** `Voxel` has a centre and eight corner sample points (`InspectPoint`, a fixed
  position and a mutable `isovalue`). `makeInspectPoints` places the corners by its own table of
  signs, and the model uses that table as written (`WRITTEN_CORNER_SIGNS`).
- **Per-frame update.** Unless the grid is paused, every corner of every voxel receives the
  field value at its position, and a new mesh is built and added to the scene.
- **Polygonize.** `Voxel.polygonize` builds the 8-bit cube index from the corners below the
  isolevel. It returns the sentinel `0` when `EDGE_TABLE` says no edge is crossed. Otherwise it
  fills one vertex slot for each crossed edge.
- **The mesh.** `makeMesh`/`updateMesh` visit the voxels in linear order. Each walks the voxel's
  `TRI_TABLE` row in steps of three until the `-1` sentinel and pushes the three vertex slots
  each triple names.

Modules follow this structure:
- `GridIndex` covers the index arithmetic.
- `LookupTables` states the shape of the two tables.
- `Polygonizer` holds the per-voxel step and the mesh, as values.
- `Voxels` holds the `InspectPoint` and `Voxel` classes and the corner layout.
- `Grid` holds the `MarchingCubes` class.

The lookup tables (`marching_cube_LUT.js`) and `inspect_point.js` are not part of this model. The
tables are parameters whose shape is stated by predicates: 256 edge masks, and 256 rows of 16
triangle entries, each row ending in `-1`. `InspectPoint` is modelled by the two fields the core
reads and writes.

The sampled field is a parameter `sample: Vec3 -> real` of `Update`. It stands for the metaball
sum of one frame, after the balls have moved. The vertex that `vertexInterpolation` computes is
the value `Interpolated(isolevel, a, b)`: it records the level and the two corner samples it is
computed from. The scene is a sequence of the meshes the grid has added, each as its vertex list.

## Model

| member | source | states |
|---|---|---|
| GridIndex.Int32 | src/marching_cubes.js:69-73 | `~~` yields a signed 32-bit value, and it leaves values in `[0, 2^31)` unchanged |
| GridIndex.I1toI3InRange | src/marching_cubes.js:64-74 | for `i < res^3`, every component of `i1toi3(i)` lies in `[0, res)` |
| GridIndex.LinearRoundTrip | src/marching_cubes.js:64-82 | `i3toi1(i1toi3(i)) == i` for every `i < res^3` |
| GridIndex.Index3RoundTrip | src/marching_cubes.js:64-82 | for in-range components, `i3toi1` lies in `[0, res^3)` and `i1toi3` gives the components back |
| GridIndex.Index3Injective | src/marching_cubes.js:77-82 | `i3toi1` is injective on in-range 3D indices |
| GridIndex.I3toPosIsCellCentre | src/marching_cubes.js:85-92 | the `i3toPos` position lies strictly inside cell `t` on every axis, and flooring `(p - origin) / w` recovers `t` |
| GridIndex.I3toPosInjective | src/marching_cubes.js:85-92 | distinct 3D indices have distinct `i3toPos` centres |
| GridIndex.LinearIndexCell | src/marching_cubes.js:94-101 | for `i < res^3`, `i1toi3(i)` is in range and `i3toPos(i1toi3(i))` lies inside that cell |
| Polygonizer.CubeIndexUpToBits | src/marching_cubes.js:440-447 | after the first `k` tests, bit `j` of the cube index is set exactly when `j < k` and corner `j` is below the isolevel |
| Polygonizer.CubeIndexBits | src/marching_cubes.js:440-447 | bit `k` of the cube index is set exactly when corner `k` is strictly below the isolevel |
| Polygonizer.CubeIndexUnique | src/marching_cubes.js:440-447 | the cube index is the only 8-bit value whose bits mark the inside corners |
| Polygonizer.CubeIndexUniform | src/marching_cubes.js:440-447 | all corners at or above the isolevel give configuration 0; all below give 255 |
| Polygonizer.EdgeVerticesPairs | src/marching_cubes.js:453-512 | slot `e` is defined only when bit `e` of the mask is set, and then holds the vertex between corners `EDGE_FROM[e]` and `EDGE_TO[e]` |
| Polygonizer.PolygonizedSlots | src/marching_cubes.js:428-527 | polygonize returns the sentinel exactly when the edge mask is 0; otherwise it returns the cube index and 12 slots, slot `e` defined exactly when edge `e` is crossed, holding the vertex on that edge |
| Polygonizer.TriangleWalkShape | src/marching_cubes.js:280-291 | the walk over a row emits whole triangles and stops at the first triangle start holding `-1`; no earlier triple starts with `-1`; emitted vertex `j` is the slot named by entry `i + j` |
| Polygonizer.EmptyConfigurationEmitsNothing | src/marching_cubes.js:450 | a configuration with edge mask 0 yields the sentinel, which emits no vertex |
| Polygonizer.UniformCellEmitsNothing | src/marching_cubes.js:440-450 | when configurations 0 and 255 are empty, a voxel entirely inside or entirely outside emits nothing |
| Polygonizer.CellTrianglesShape | src/marching_cubes.js:279-291 | each voxel emits whole triangles, at most five |
| Polygonizer.WalkVerticesDefined | src/marching_cubes.js:280-286 | a walk over a row that names only crossed edges, over slots filled for exactly the crossed edges, pushes no `undefined` |
| Polygonizer.CellVerticesDefined | src/marching_cubes.js:279-286 | when the tables agree with each other, no vertex a voxel pushes is `undefined` |
| Polygonizer.MeshIsTriangles | src/marching_cubes.js:273-294 | the vertex list of the mesh has a length divisible by 3 |
| Polygonizer.MeshOfConcat | src/marching_cubes.js:277-291 | voxels are emitted in linear order: the mesh of a grid split in two is the mesh of the first part followed by the mesh of the second |
| Polygonizer.UniformGridEmitsNothing | src/marching_cubes.js:273-294 | when configurations 0 and 255 are empty, a grid whose samples are all below, or all at or above, the level has an empty mesh |
| Polygonizer.MeshVerticesDefined | src/marching_cubes.js:273-294 | when the tables agree with each other, every vertex of the mesh is defined |
| Voxels.WrittenVerticalEdgesAreDiagonals | src/marching_cubes.js:369-381 | with the corner table as written, edges 8-11 each join two corners differing in two coordinates; edge 8 of the unit cell joins (0.5, 0.5, 0.5) and (-0.5, 0.5, -0.5) |
| Voxels.CornerLayout | src/marching_cubes.js:369-391 | with the table as written, the eight corners are distinct, each coordinate half a width from the centre, corners 0-3 on the front face and 4-7 on the back, and corner `7 - j` directly behind corner `j` |
| Voxels.CorrectedCornerLayout | src/marching_cubes.js:369-381 | with the corrected table, the eight corners are distinct and corner `j + 4` is directly behind corner `j`, the numbering edges 8-11 read |
| Voxels.EdgesAreCubeEdges | src/marching_cubes.js:453-512 | with the corrected corner table, each of the 12 edges polygonize reads joins two adjacent corners, and no two edges are the same pair |
| Voxels.InspectPoint.constructor | src/marching_cubes.js:366-390 | the `new InspectPoint(…, 0, …)` calls for the centre (line 366) and for each corner (line 390): a point with the given position and value |
| Voxels.Voxel.constructor | src/marching_cubes.js:306-391 | a voxel at the position, with a fresh centre point and eight fresh corners at the positions the written table gives, all with value 0 |
| Voxels.Voxel.CubeIndexOf | src/marching_cubes.js:434-447 | the eight tests compute the cube index of the present corner values |
| Voxels.Voxel.Polygonize | src/marching_cubes.js:428-527 | polygonize returns the value `Polygonized` of the present corner samples, whose meaning `PolygonizedSlots` states |
| Grid.SetupCells | src/marching_cubes.js:94-109 | `res^3` fresh voxels in ascending linear order, voxel `c` centred at `i3toPos(i1toi3(c))` with all corner values 0 |
| Grid.SampleCorners | src/marching_cubes.js:178-182 | every corner of the voxel holds the field value at its position |
| Grid.PushTriangles | src/marching_cubes.js:280-291 | the vertex list grows by exactly the walk over the row, from entry 0 to the sentinel |
| Grid.MarchingCubes.constructor | src/marching_cubes.js:19-61 | a valid grid: not paused, `res^3` voxels laid out by `i1toi3`, all values 0, and the scene holds one mesh; that mesh is empty when configurations 0 and 255 are |
| Grid.MarchingCubes.MeshVertices | src/marching_cubes.js:273-292 | the loop pushes the mesh of the present corner samples at the given level |
| Grid.MarchingCubes.EmitCell | src/marching_cubes.js:277-291 | one iteration appends what voxel `c` emits |
| Grid.MarchingCubes.UpdateMesh | src/marching_cubes.js:273-295 | the scene gains one mesh, built at level 1 from the present samples, and nothing else changes |
| Grid.MarchingCubes.SampleVoxels | src/marching_cubes.js:171-183 | every corner of every voxel holds the field value at its position |
| Grid.MarchingCubes.Update | src/marching_cubes.js:161-201 | when paused, the scene and every point value are unchanged; otherwise every corner holds the field value and the scene gains the mesh of the sampled field |
| Grid.MarchingCubes.ResampledCells | src/marching_cubes.js:171-183 | once every corner holds the field value, the grid's samples depend on the field alone |
| Grid.MarchingCubes.UniformValuesEmitNothing | src/marching_cubes.js:58-60 | when configurations 0 and 255 are empty, a grid whose corners all hold one value has an empty mesh at any level |
| Grid.MarchingCubes.VoxelPlacement | src/marching_cubes.js:94-101 | voxel `c` sits inside the in-range cell with 3D index `i1toi3(c)` |
| Grid.MarchingCubes.VoxelCentresDistinct | src/marching_cubes.js:94-101 | distinct voxels have distinct centres |
| Grid.MarchingCubes.Pause | src/marching_cubes.js:203-205 | the grid is paused |
| Grid.MarchingCubes.Play | src/marching_cubes.js:207-209 | the grid is not paused |

## Left out

- THREE.js rendering is not modelled. This covers geometries, materials, `Mesh`, `Face3`, normals (`vertNormals`), the wireframe and the green debug cube, labels, `show`/`hide`, and the visual-debug branch of `update`. The scene is modelled only as the sequence of meshes the grid adds.
- `setupMetaballs`, `Metaball.update` and `sample` are not modelled: they use randomness, floating-point distances and code outside this file. The field of one frame is the parameter `sample`.
- `vertexInterpolation` is left abstract: its arithmetic is not modelled, and the edge vertex is recorded as `Interpolated(isolevel, a, b)`.
- Floating point is not modelled: positions and values are exact reals.
- Grid.MarchingCubes.constructor: does not read an `App` object; its configuration values are parameters. The inverted `material` choice, `minRadius`, `maxRadius`, `maxSpeed`, `numMetaballs`, `gridWidth`, `camera` and `labels` are not modelled.
- The centre point of each voxel is created, but it is never resampled: that line of `update` is commented out.
- The data of `EDGE_TABLE` and `TRI_TABLE` is not modelled: the tables are parameters and only their shape is stated (`TablesWellFormed`). Properties that depend on their content assume `TablesConsistent` or `UniformConfigurationsEmpty`.
- GridIndex.LinearRoundTrip, GridIndex.Index3RoundTrip and GridIndex.I1toI3InRange: these hold only for `res <= 2^31`. For larger grids, the 32-bit conversion of `~~` wraps.
- makeMesh and updateMesh are the same loop. Both are modelled by `Grid.MarchingCubes.MeshVertices` and `Grid.MarchingCubes.UpdateMesh`. Both pass the literal level 1 to polygonize, not the configured isolevel, and the model keeps that literal (`MESH_LEVEL`).
- The triangle loop's guard tests `polyret!=0` after reading `TRI_TABLE` at an undefined index. The model tests for the sentinel first. The result is the same, because for the sentinel the loop never runs.
- Voxels.Voxel.Polygonize: writes every slot. A slot whose edge bit is clear gets `None`, the value it starts with. The source writes only the crossed slots, and its array's length is one past the last slot written; the model always has 12 slots. Reading a slot gives the same vertex or `undefined` in both.

## Findings

| source | as written | input that shows it | evidently intended | confidence | as-written member | corrected member |
|---|---|---|---|---|---|---|
| src/marching_cubes.js:369-381 with 493-511 | the back face of the corner table starts behind corner 3, so corner `j + 4` is not behind corner `j`, but polygonize's edges 8-11 join corners 0-4, 1-5, 2-6 and 3-7 | the unit voxel centred at the origin: edge 8 joins (0.5, 0.5, 0.5) and (-0.5, 0.5, -0.5), a face diagonal | corner `j + 4` directly behind corner `j`, the numbering the edge list and the lookup tables use | not executed | Voxels.WrittenVerticalEdgesAreDiagonals | Voxels.EdgesAreCubeEdges |

The voxel constructor, and so the whole mesh, uses the table as written (`WRITTEN_CORNER_SIGNS`),
as the source does: edges 8-11 interpolate along face diagonals. The corrected table is
`CORNER_SIGNS`; `Voxels.EdgesAreCubeEdges` and `Voxels.CorrectedCornerLayout` state the intended
layout with it.
