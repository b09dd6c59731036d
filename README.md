# Procedural tentacle: a Dafny model of its geometry core

The Unity project draws tubes ("tentacles") that follow a chain of oriented nodes. It
can also draw many parallel copies of a tube, spread over a disc. This project models the four
pieces of geometry bookkeeping behind that, over exact reals and unbounded integers:

- **Tube template** (`tube_mesh.dfy`, module `TubeMesh`). The `TubeTemplate` asset keeps two
  serialized counts, `_subdivisions` and `_segments`. Its getters clamp them to [2, 64] and
  [4, 1024], and `OnValidate` clamps them in place. `GetMesh` builds a vertex list from them:
  a head apex, `segments + 1` rings of `subdivisions` vertices, and a tail apex. It also builds
  a flat triangle index list: a head fan, a strip of quads between consecutive rings, and a
  tail fan. The source's loops, with their running counter `idx`, are modelled as imperative
  methods. They are proved to build exactly a closed-form description (`Vertex`,
  `MeshTriangle`). The topology is then proved about that description: counts, ranges, every
  vertex used, and the shape of the fans and strips.
- **Tube surface** (`tube_surface.dfy`, module `TubeSurface`). For at least three vertices per
  ring, the template's triangles form a closed surface wound consistently:
  - every directed edge belongs to one triangle only;
  - its reverse belongs to exactly one other triangle;
  - so every edge lies in exactly two triangles.

  With two vertices per ring, the clamped minimum, this fails.
- **Poisson-disc sampler** (`poisson_disc_sampler.dfy`, module `PoissonDiscSampler`).
  `GeneratePoints` throws darts around randomly chosen spawn points. It keeps a background grid
  (`int[,]`, written in place) that records, for each cell, 1 + the index of the point in it.
  `IsValidatePoint` accepts a candidate that lies in the half-open region and is at least
  `radius` from every point recorded in the clipped 5x5 block of cells around it. The model
  proves that this local test is enough: the points returned lie in the region and are
  pairwise at least `radius` apart. It also proves that the grid invariant holds throughout
  and that the loop terminates for every random choice.
- **Hermite curve** (`hermite_curve.dfy`, module `HermiteCurve`). `GetPoint` and the four
  `GetPoints` overloads evaluate cubic Hermite segments between consecutive nodes. The handles
  are `forward * localScale.z`. The overloads resample a node chain into `subdivisions + 1`
  slots and overwrite the last slot with the last node's own data. The model proves:
  - the segment index is always in range;
  - the segment interpolates its ends, and the tangent formula is the derivative of the
    point formula;
  - the overloads agree;
  - the offset overload has its particular end point.
- **Tube renderer** (`tube_renderer.dfy`, module `TubeRenderer`). This covers the offset list
  built in `Start`: the sampler output is shifted by (-R, -R), filtered to the open disc of
  radius R, and capped at `MAX_TUBE_NUMBER`. It also covers the per-frame concatenation of the
  resampled instances in `UpdateTubeData`, whose layout matches the buffers of
  `(segments + 1) * instanceCount` entries.

`geometry.dfy` (module `Geometry`) holds exact stand-ins for `Vector2` and `Vector3`.

Some facts are parameters of the model, not computed:

- **Randomness.** The sampler's `Random.Range` and `Random.value`, together with `Mathf.Cos`
  and `Mathf.Sin`, become two oracle functions. `pick(step)` chooses the spawn point (taken
  modulo the number of spawn points). `dart(step, attempt)` is a candidate's offset from its
  spawn point.
- **Square roots.** `Mathf.Sqrt(2)` becomes a `cellSize` parameter, required to satisfy
  `2 * cellSize^2 == radius^2`. `Vector3.normalized` becomes a function parameter `normalize`,
  about which nothing is assumed. `Vector2.magnitude < R` is modelled as `sqrMagnitude < R^2`
  with `0 < R`; `MagnitudeBelow` shows the two tests agree.

Two nodes whose handles are zero (tangent scale `localScale.z == 0`) give a point on the
straight chord between them, but at weight `3t^2 - 2t^3` (a smoothstep), not at `t`:
`ZeroHandlesFollowSmoothStep` states this. Uniform linear spacing comes instead from handles
equal to the chord, as `ChordHandlesGiveUniformLine` shows.

## Model

| member | source | states |
|---|---|---|
| TubeMesh.Clamp | Assets/Scripts/TubeTemplate.cs:10 | `Mathf.Clamp` on ints: the result lies in [min, max], equals the value when it is already in range, and is the nearer bound otherwise |
| TubeMesh.TubeTemplate.constructor | Assets/Scripts/TubeTemplate.cs:8-13 | the serialized defaults are 6 subdivisions and 256 segments |
| TubeMesh.TubeTemplate.Subdivisions | Assets/Scripts/TubeTemplate.cs:9-11 | the getter always returns a value in [2, 64], and returns the raw field when that is already in range |
| TubeMesh.TubeTemplate.Segments | Assets/Scripts/TubeTemplate.cs:14-16 | the getter always returns a value in [4, 1024], and returns the raw field when that is already in range |
| TubeMesh.TubeTemplate.OnValidate | Assets/Scripts/TubeTemplate.cs:20-23 | afterwards the raw fields equal the getters' old values, and the getters equal the raw fields; on fields already in range it changes nothing (idempotence) |
| TubeMesh.TubeTemplate.GetMesh | Assets/Scripts/TubeTemplate.cs:31-80 | from the raw fields it builds exactly the closed-form template: every vertex is `Vertex(v)`, every triangle is `MeshTriangle(t)`, and there are 3 indices per triangle |
| TubeMesh.BuildVertices | Assets/Scripts/TubeTemplate.cs:32-40 | the vertex loops append head, rings and tail so that slot v holds `Vertex(v)` |
| TubeMesh.BuildIndices | Assets/Scripts/TubeTemplate.cs:43-80 | head fan, body and tail fan together emit exactly the `MeshTriangle` list |
| TubeMesh.AppendHeadFan | Assets/Scripts/TubeTemplate.cs:44-51 | the head loop and the closing triangle emit the first `FanSize` triangles of the template |
| TubeMesh.AppendBody | Assets/Scripts/TubeTemplate.cs:53-71 | the body loop leaves `idx == 1 + segments * subdivisions` and has emitted the head fan followed by two triangles per quad |
| TubeMesh.AppendRing | Assets/Scripts/TubeTemplate.cs:55-70 | one pass over a pair of rings advances `idx` by one ring and emits that ring's quads, the last one wrapping |
| TubeMesh.AppendTailFan | Assets/Scripts/TubeTemplate.cs:73-80 | starting from the counter left by the body loop, the tail loop and closing triangle complete the template's triangle list |
| TubeMesh.MeshCounts | Assets/Scripts/TubeTemplate.cs:33-80 | for subdivisions >= 1 and segments >= 0 there are `(segments+1)*subdivisions + 2` vertices, the head apex first and the tail apex last, and `3*(2*subdivisions + 2*segments*subdivisions)` indices |
| TubeMesh.RingVertexLayout | Assets/Scripts/TubeTemplate.cs:34-38 | the body vertex at `1 + i*subdivisions + j` is strictly between the apexes and stores (angle of j, 0, i) |
| TubeMesh.Phi | Assets/Scripts/TubeTemplate.cs:36 | the ring angle `Mathf.PI * 2 * j / subdivisions` of vertex j; `RingAngles` bounds and orders it |
| TubeMesh.HeadVertex | Assets/Scripts/TubeTemplate.cs:33 | the head apex (0, -1, 0); `MeshCounts` shows it is vertex 0 and `BuildVertices` that the loop writes it first |
| TubeMesh.TailVertex | Assets/Scripts/TubeTemplate.cs:40 | the tail apex (0, 1, segments); `MeshCounts` shows it is the last vertex |
| TubeMesh.RingAngles | Assets/Scripts/TubeTemplate.cs:36 | the ring angles `2*PI*j/subdivisions` lie in [0, 2*PI) and strictly increase with j |
| TubeMesh.IndicesInRange | Assets/Scripts/TubeTemplate.cs:44-80 | every index of every triangle lies in [0, vertex count) |
| TubeMesh.EveryVertexUsed | Assets/Scripts/TubeTemplate.cs:44-80 | every vertex is used by at least one triangle |
| TubeMesh.UpperRingVertexUsed | Assets/Scripts/TubeTemplate.cs:56-58 | a vertex of rings 1..segments closes the lower triangle of the quad below it |
| TubeMesh.HeadFan | Assets/Scripts/TubeTemplate.cs:44-51 | head triangle k is (0, next ring-0 vertex, ring-0 vertex k); the last one wraps to (0, 1, subdivisions) |
| TubeMesh.BodyStrip | Assets/Scripts/TubeTemplate.cs:53-71 | quad j between rings i and i+1 is the two triangles (v(i,j), v(i,j+1), v(i+1,j)) and (v(i,j+1), v(i+1,j+1), v(i+1,j)), with j+1 wrapping to 0 |
| TubeSurface.EdgeInOneTriangle | Assets/Scripts/TubeTemplate.cs:43-80 | for subdivisions >= 3 and segments >= 0, two triangles sharing a directed edge (a to b, b to c or c to a) are the same triangle and the same side |
| TubeSurface.EdgeHasTwin | Assets/Scripts/TubeTemplate.cs:43-80 | for subdivisions >= 3, the reverse of every directed edge of a triangle is a side of some triangle, so the surface is closed and consistently wound |
| TubeSurface.EdgeInTwoTriangles | Assets/Scripts/TubeTemplate.cs:43-80 | for subdivisions >= 3, every edge {a, b} of a triangle lies in exactly two triangles (edge-manifold) |
| TubeSurface.DistinctCorners | Assets/Scripts/TubeTemplate.cs:43-80 | for subdivisions >= 2, no triangle repeats a vertex |
| TubeSurface.TwoSubdivisionsRepeatEdge | Assets/Scripts/TubeTemplate.cs:44-58 | with two vertices per ring, head triangle (0, 1, 2) and triangle 2, (1, 2, 3), both run from vertex 1 to vertex 2, for every segment count |
| TubeSurface.OwnerOfEdge | Assets/Scripts/TubeTemplate.cs:43-80 | on named vertices and triangles, the shape of a side determines its triangle and side (three or more vertices per ring) |
| TubeSurface.ReverseHasOwner | Assets/Scripts/TubeTemplate.cs:43-80 | on names, the reverse of every side is a side of a triangle of the template |
| TubeSurface.IndexInjective | Assets/Scripts/TubeTemplate.cs:33-40 | the apexes and ring vertices sit at pairwise distinct positions of the vertex list |
| TubeSurface.FaceTriangle | Assets/Scripts/TubeTemplate.cs:43-80 | each named triangle (fan triangle or quad half) is the template triangle at its list position |
| TubeSurface.FaceOfIndex | Assets/Scripts/TubeTemplate.cs:43-80 | every template triangle has a name, and the name gives back its position |
| TubeMesh.QuadSplit | Assets/Scripts/TubeTemplate.cs:55-70 | the two template triangles of body quad q are its lower and upper halves, with the column j = q mod subdivisions wrapping |
| TubeMesh.RingQuad | Assets/Scripts/TubeTemplate.cs:56-69 | the six indices one pass of the ring loop appends at counter `idx` are the template's next two triangles |
| TubeMesh.TailInRange | Assets/Scripts/TubeTemplate.cs:73-80 | every index of a tail-fan triangle lies in [0, vertex count) |
| TubeMesh.QuadsInMesh | Assets/Scripts/TubeTemplate.cs:53-71 | triangles `f + 2q` and `f + 2q + 1` are the lower and upper halves of body quad q |
| TubeMesh.TailFan | Assets/Scripts/TubeTemplate.cs:73-80 | tail triangle k joins last-ring vertex k and its cyclic successor to the tail apex, the last vertex |
| PoissonDiscSampler.Ceil | Assets/Scripts/PoissonDiscSampler.cs:10 | `Mathf.CeilToInt`: the least integer not below v |
| PoissonDiscSampler.IsValidatePoint | Assets/Scripts/PoissonDiscSampler.cs:40-65 | the answer is true exactly when the candidate is in the half-open region and no point recorded in the clipped 5x5 block is closer than `radius`; it is false outside the region |
| PoissonDiscSampler.SpawnAround | Assets/Scripts/PoissonDiscSampler.cs:19-30 | on success the candidate is the first of the `samplesBeforeRejection` darts that is accepted; on failure no dart is accepted |
| PoissonDiscSampler.GeneratePoints | Assets/Scripts/PoissonDiscSampler.cs:7-38 | it terminates for every random choice; every returned point lies in the region and no two are closer than `radius`; the seed `regionSize / 2` and every point are retired as spawn points exactly once (a multiset equality), and every dart of the iteration that retired one is blocked by the final points (outside the region or closer than `radius` to one of them), so the loop stops only when no spawn point can grow; every point is a dart thrown from the seed or from an earlier point |
| PoissonDiscSampler.SpawnStep | Assets/Scripts/PoissonDiscSampler.cs:16-34 | one outer iteration keeps the grid invariant and the separation; on success it appends to both lists a candidate that is one of the darts around the chosen spawn point; on failure it removes exactly the chosen spawn point, and every one of its darts is blocked by the points |
| PoissonDiscSampler.ScanColumn | Assets/Scripts/PoissonDiscSampler.cs:51-60 | the inner scan of one column answers true exactly when no point recorded in the scanned rows is closer than `radius` |
| PoissonDiscSampler.RejectedIsBlocked | Assets/Scripts/PoissonDiscSampler.cs:23 | under the grid invariant, a candidate `IsValidatePoint` rejects is outside the region or closer than `radius` to some point, not only to a scanned one |
| PoissonDiscSampler.BlockedGrows | Assets/Scripts/PoissonDiscSampler.cs:24 | a blocked dart stays blocked as points are added |
| PoissonDiscSampler.RemoveAtMultiset | Assets/Scripts/PoissonDiscSampler.cs:33 | `RemoveAt` takes exactly the removed element out of the multiset of the list |
| PoissonDiscSampler.HistoryAfterAccept | Assets/Scripts/PoissonDiscSampler.cs:23-28 | accepting dart `attempt` around spawn point `index` keeps the sampling history: the candidate joins both the points and the spawn points, its origin is that spawn point, and earlier blocked darts stay blocked |
| PoissonDiscSampler.HistoryAfterRetire | Assets/Scripts/PoissonDiscSampler.cs:32-34 | retiring a spawn point whose darts were all blocked keeps the sampling history |
| PoissonDiscSampler.RegionCentre | Assets/Scripts/PoissonDiscSampler.cs:14 | the first spawn point `regionSize / 2`; `GeneratePoints` retires it exactly once, together with every point |
| PoissonDiscSampler.InRegion | Assets/Scripts/PoissonDiscSampler.cs:41 | the half-open region test; `IsValidatePoint` rejects every candidate outside it, and `GeneratePoints` returns only points inside it |
| PoissonDiscSampler.ScanStart | Assets/Scripts/PoissonDiscSampler.cs:43-48 | the first scanned column (row), `Mathf.Max(0, cell - 2)`; `ScannedIsFar` and `AcceptedIsFarFromAll` show the clipped block covers every in-grid cell within two of the candidate's |
| PoissonDiscSampler.ScanEnd | Assets/Scripts/PoissonDiscSampler.cs:43-48 | the last scanned column (row), `Mathf.Min(cell + 2, length - 1)`; see `ScanStart` |
| PoissonDiscSampler.Cell | Assets/Scripts/PoissonDiscSampler.cs:26 | `Mathf.FloorToInt(v / cellSize)`, the cell of a coordinate (also lines 42 and 46); `CellInGrid` shows it indexes the grid inside the region and `SameCellIsClose` that one cell holds points closer than `radius` |
| PoissonDiscSampler.GridLength | Assets/Scripts/PoissonDiscSampler.cs:10 | the grid dimension `Mathf.CeilToInt(size / cellSize)`; `CellInGrid` shows every coordinate of [0, size) has a cell in it |
| PoissonDiscSampler.Accept | Assets/Scripts/PoissonDiscSampler.cs:23-28 | an accepted candidate is appended, keeps the points `radius` apart and the grid invariant, and fills one empty cell |
| PoissonDiscSampler.Record | Assets/Scripts/PoissonDiscSampler.cs:24-26 | writing `points.Count` into the candidate's empty cell keeps the grid invariant and leaves every other cell unchanged |
| PoissonDiscSampler.RemoveAt | Assets/Scripts/PoissonDiscSampler.cs:33 | `List.RemoveAt`: one element shorter; the elements before the index stay and those after it move down by one |
| PoissonDiscSampler.SeparatedAppend | Assets/Scripts/PoissonDiscSampler.cs:23-24 | appending a candidate at least `radius` from every point keeps the list separated |
| PoissonDiscSampler.CellInGrid | Assets/Scripts/PoissonDiscSampler.cs:10 | a coordinate in [0, size) falls in a cell index of the `ceil(size / cellSize)` grid |
| PoissonDiscSampler.SameCellIsClose | Assets/Scripts/PoissonDiscSampler.cs:8 | two points in one cell are closer than the cell's diagonal, `2 * cellSize^2`, which is `radius^2` |
| PoissonDiscSampler.FarCellsAreFar | Assets/Scripts/PoissonDiscSampler.cs:42-48 | coordinates whose cells are more than two apart are at least `2 * cellSize` apart |
| PoissonDiscSampler.FarCellIsFar | Assets/Scripts/PoissonDiscSampler.cs:42-48 | a point whose cell lies outside the 5x5 block around another's is at least `radius` from it |
| PoissonDiscSampler.AcceptedIsFarFromAll | Assets/Scripts/PoissonDiscSampler.cs:50-62 | under the grid invariant, a candidate that passes the local scan is at least `radius` from every point, scanned or not |
| PoissonDiscSampler.AcceptedCellIsEmpty | Assets/Scripts/PoissonDiscSampler.cs:26 | the cell an accepted candidate is written to is in the grid and empty, so no recorded point is overwritten |
| HermiteCurve.GetPoint | Assets/Scripts/HermiteCurve.cs:7-17 | the segment passes through `from.position` at t = 0 and `to.position` at t = 1 |
| HermiteCurve.HermiteConditions | Assets/Scripts/HermiteCurve.cs:15 | the point formula interpolates both end points, and the tangent formula takes the two handles at the ends |
| HermiteCurve.EndWeightsSumToOne | Assets/Scripts/HermiteCurve.cs:15 | the two end-point weights sum to 1 for every t |
| HermiteCurve.TangentIsDerivative | Assets/Scripts/HermiteCurve.cs:76-77 | moving t by h moves the point by h times the tangent formula plus an explicit term of order h^2: the tangent coefficients are the derivatives of the point coefficients |
| HermiteCurve.ChordHandlesGiveUniformLine | Assets/Scripts/HermiteCurve.cs:15 | with both handles equal to the chord, the segment is the straight line at uniform speed |
| HermiteCurve.ZeroHandlesFollowSmoothStep | Assets/Scripts/HermiteCurve.cs:15 | with zero handles the segment stays on the chord, but at weight `3t^2 - 2t^3`, not t |
| HermiteCurve.UpOffsetIsBlendedUp | Assets/Scripts/HermiteCurve.cs:80-83 | the "up" vector (up-shifted curve minus curve) is the end-weight blend of the two nodes' up vectors |
| HermiteCurve.SegmentInRange | Assets/Scripts/HermiteCurve.cs:40-42 | for two or more nodes and slot i < subdivisions, the segment index is in [0, nodes - 2], so `nodes[idx + 1]` exists, and the local t is in [0, 1) |
| HermiteCurve.SampleOnNode | Assets/Scripts/HermiteCurve.cs:40-51 | a slot whose global parameter is exactly node k lands on node k's anchor |
| HermiteCurve.FirstSample | Assets/Scripts/HermiteCurve.cs:39-51 | slot 0 of every resampling is the first anchor |
| HermiteCurve.TwoNodeChain | Assets/Scripts/HermiteCurve.cs:19-35 | the two-node overload samples the same points as the node-chain overload on [from, to] |
| HermiteCurve.ZeroOffset | Assets/Scripts/HermiteCurve.cs:103-104 | with offset (0, 0) the offset anchors and the offset end point are the node positions |
| HermiteCurve.EndAnchorIgnoresScale | Assets/Scripts/HermiteCurve.cs:128 | the offset end point is the anchor with lateral scale 1; with an axis-aligned frame, a sideways offset and an x-scale other than 1 it differs from the interior anchor formula |
| HermiteCurve.EndAnchorDisplacement | Assets/Scripts/HermiteCurve.cs:103-128 | for every node and offset, the offset end point minus the interior anchor is `right * ((1 - scale.x) * offset.x) + up * ((1 - scale.y) * offset.y)` |
| HermiteCurve.Blend | Assets/Scripts/HermiteCurve.cs:15 | the Hermite point formula; `HermiteConditions`, `EndWeightsSumToOne`, `ChordHandlesGiveUniformLine` and `ZeroHandlesFollowSmoothStep` state its properties |
| HermiteCurve.BlendTangent | Assets/Scripts/HermiteCurve.cs:76-77 | the tangent formula before normalisation; `TangentIsDerivative` shows it is the derivative of `Blend` |
| HermiteCurve.SampleNormal | Assets/Scripts/HermiteCurve.cs:80-84 | the normal `normalize(up x tangent)` with up the up-shifted curve minus the curve; `UpOffsetIsBlendedUp` shows that up is the end-weight blend of the nodes' up vectors |
| HermiteCurve.Handle | Assets/Scripts/HermiteCurve.cs:10-11 | the tangent handle `forward * localScale.z`; `HermiteConditions` shows the tangent formula takes it at the segment's ends |
| HermiteCurve.Positions | Assets/Scripts/HermiteCurve.cs:46-47 | the node positions, one per node, the anchors of the plain resampling; `ZeroOffset` shows they are the offset anchors at offset (0, 0) |
| HermiteCurve.SamplePoint | Assets/Scripts/HermiteCurve.cs:40-51 | the point of slot i through the given anchors; `SampleOnNode`, `FirstSample` and `TwoNodeChain` state where it lands, and the `GetPoints` contracts are stated with it |
| HermiteCurve.SampleTangent | Assets/Scripts/HermiteCurve.cs:76-78 | the normalised tangent formula of slot i; `TangentIsDerivative` shows the formula is the derivative of the point formula |
| HermiteCurve.GlobalT | Assets/Scripts/HermiteCurve.cs:40 | the global parameter `i / subdivisions * (count - 1)`; `SegmentInRange` and `SampleOnNode` state where it lands |
| HermiteCurve.SegmentIndex | Assets/Scripts/HermiteCurve.cs:41 | `Mathf.FloorToInt` of the global parameter; `SegmentInRange` shows it is in [0, count - 2] |
| HermiteCurve.LocalT | Assets/Scripts/HermiteCurve.cs:42 | `t %= 1f` on the non-negative global parameter; `SegmentInRange` shows it is in [0, 1) |
| HermiteCurve.Anchor | Assets/Scripts/HermiteCurve.cs:103-104 | the interior offset anchor, offset scaled by the lateral scale along right and up; `ZeroOffset` and `EndAnchorDisplacement` relate it to the position and the end point |
| HermiteCurve.OffsetAnchors | Assets/Scripts/HermiteCurve.cs:103-104 | one anchor per node; `ZeroOffset` shows offset (0, 0) gives the node positions |
| HermiteCurve.EndAnchor | Assets/Scripts/HermiteCurve.cs:128 | the offset end point without the lateral scale; `EndAnchorIgnoresScale` and `EndAnchorDisplacement` compare it with `Anchor` |
| HermiteCurve.GetPointsBetween | Assets/Scripts/HermiteCurve.cs:19-35 | a fresh array of `subdivisions + 1` points: slot i is `GetPoint(from, to, i / subdivisions)`, the last is `to.position`, the first is `from.position` |
| HermiteCurve.GetPoints | Assets/Scripts/HermiteCurve.cs:37-56 | a fresh array of `subdivisions + 1` points: the curve samples through the node positions, the last slot the last node's position, the first the first node's |
| HermiteCurve.GetPointsWithFrames | Assets/Scripts/HermiteCurve.cs:58-94 | three fresh, distinct arrays of `subdivisions + 1`: the same points as `GetPoints`, with their tangents and normals, and the last slot the last node's position, forward and right |
| HermiteCurve.GetOffsetPointsWithFrames | Assets/Scripts/HermiteCurve.cs:96-132 | three fresh, distinct arrays of `subdivisions + 1` sampled through the offset anchors; the last slot is the unscaled offset end point, forward and right |
| HermiteCurve.ResampleWithFrames | Assets/Scripts/HermiteCurve.cs:62-89 | the frame loop fills three fresh, distinct arrays with the point, tangent and normal of every slot before the last |
| HermiteCurve.FrameAt | Assets/Scripts/HermiteCurve.cs:63-88 | one pass of the frame loop computes the slot's point, normalized tangent and normal |
| TubeRenderer.Offsets | Assets/Scripts/TubeRenderer.cs:49-53 | the offset list is a prefix of the filtered, shifted samples, of length min(filtered count, 64): nothing is dropped below the cap |
| TubeRenderer.Shift | Assets/Scripts/TubeRenderer.cs:49 | `Select(p => p - region)` keeps the length, and adding `region` back gives each sample again |
| TubeRenderer.WithinDisc | Assets/Scripts/TubeRenderer.cs:49 | `Where(p => p.magnitude < R)` is no longer than its input; `WithinDiscMembers` and `WithinDiscAppend` give its members and order |
| TubeRenderer.InDisc | Assets/Scripts/TubeRenderer.cs:49 | the disc test without the square root; `MagnitudeBelow` shows it agrees with `magnitude < R` |
| TubeRenderer.MagnitudeBelow | Assets/Scripts/TubeRenderer.cs:49 | `magnitude < R` holds exactly when the squared test `InDisc` holds |
| TubeRenderer.WithinDiscMembers | Assets/Scripts/TubeRenderer.cs:49 | `Where` keeps a point exactly when it is in the input and inside the disc |
| TubeRenderer.WithinDiscAppend | Assets/Scripts/TubeRenderer.cs:49 | filtering a concatenation filters each part, so `Where` keeps the input order |
| TubeRenderer.OffsetsComeFromSamples | Assets/Scripts/TubeRenderer.cs:48-49 | every offset is some sampler point minus (R, R) and lies strictly inside the disc |
| TubeRenderer.WithinDiscSeparated | Assets/Scripts/TubeRenderer.cs:49 | `Where` keeps separated points separated |
| TubeRenderer.OffsetsSeparated | Assets/Scripts/TubeRenderer.cs:49-53 | the offsets keep the sampler's minimum distance |
| TubeRenderer.PlanInstances | Assets/Scripts/TubeRenderer.cs:46-55 | `instanceCount` is 1 when instancing is off and the offset count otherwise; at most 64 offsets, all in the disc, pairwise `distributeRadius` apart, computed from a sample of the square [0, 2R)^2 |
| TubeRenderer.BufferLength | Assets/Scripts/TubeRenderer.cs:60-62 | the buffer size `(segments + 1) * instanceCount`; `UpdateTubeData` shows each concatenated list has exactly this length |
| TubeRenderer.InstancePoints | Assets/Scripts/TubeRenderer.cs:101-102 | the points of one instance at an offset; `InstanceFrames` shows it is what the offset resampling returns |
| TubeRenderer.InstanceTangents | Assets/Scripts/TubeRenderer.cs:101-102 | the tangents of one instance; see `InstanceFrames` |
| TubeRenderer.InstanceNormals | Assets/Scripts/TubeRenderer.cs:101-102 | the normals of one instance; see `InstanceFrames` |
| TubeRenderer.Flatten | Assets/Scripts/TubeRenderer.cs:104-106 | successive `AddRange` calls; `FlattenLayout` and `BlocksGrow` give its length and where each block lands |
| TubeRenderer.LayoutAppend | Assets/Scripts/TubeRenderer.cs:104-106 | appending one more block of width w after a laid-out prefix keeps the layout |
| TubeRenderer.FlattenLayout | Assets/Scripts/TubeRenderer.cs:99-107 | concatenating k blocks of width w gives k * w entries, with block k at `[k*w, (k+1)*w)` |
| TubeRenderer.InstanceFrames | Assets/Scripts/TubeRenderer.cs:101-102 | one resampling at an offset gives that instance's points, tangents and normals |
| TubeRenderer.BlocksGrow | Assets/Scripts/TubeRenderer.cs:104-106 | `AddRange` of instance i extends the concatenation of the first i instances by exactly that instance |
| TubeRenderer.ConcatenateInstances | Assets/Scripts/TubeRenderer.cs:99-107 | the three lists are the instances' samples concatenated in offset order |
| TubeRenderer.UpdateTubeData | Assets/Scripts/TubeRenderer.cs:97-119 | each list has `(segments + 1) * instanceCount` entries, the buffer size; with instancing, instance k occupies `[k*(segments+1), (k+1)*(segments+1))`; without it, the lists are the tube at offset (0, 0) |

## Left out

- EdgeInTwoTriangles: stated, like `EdgeInOneTriangle` and `EdgeHasTwin`, only for
  subdivisions >= 3. The getter allows 2, and there the head fan emits (0, 2, 1) and
  (0, 1, 2), so edge {1, 2} is shared by more than two triangles and the winding clashes
  (`TwoSubdivisionsRepeatEdge`).
- Unity glue in `TubeRenderer.cs` is not modelled, because it is engine I/O:
  - `Start`'s buffer, material and argument-buffer setup (only the buffer size is modelled,
    as `BufferLength`), `OnDestroy`, `Update` and `UpdateArgsBuffer`;
  - the `SetData`/`SetFloat` calls (including `Mathf.Max(0, radius)`);
  - `Graphics.DrawMesh*`, `OnDrawGizmos` and the `Debug.LogWarning` at the cap.
- The Unity `Mesh` calls in `GetMesh` are left out. `GetMesh` returns the vertex and index
  lists themselves.
- `FollowVertex.cs` and `PoissonDiscSamplerTest.cs` are not part of this model. One is
  per-frame animation of engine transforms; the other is an editor harness.
- Floating point is not modelled. All arithmetic is exact over reals, including
  `1f * i / subdivisions * (n - 1)`, `t %= 1f` and the grid divisions. `Mathf.PI` is the
  literal 3.1415927410125732421875, the exact value of Unity's single-precision constant.
- Random: the sampler's darts are arbitrary offsets. The source's candidate lies at distance
  [radius, 2*radius] from its spawn point. The properties proved hold for every offset, so
  they do not depend on that range.
- `Vector3.normalized` and `Vector3.Cross`: the normalisation is an uninterpreted parameter.
  Unit length and orthogonality of the tangent/normal frames are not stated.
- GeneratePoints: does not state that the seed `regionSize / 2` is never returned. The model
  shows that `points` only grows by accepted candidates (`SpawnStep`), but a candidate may
  coincide with the seed's position.
- GeneratePoints: requires both grid dimensions `Mathf.CeilToInt(size / cellSize)` to be
  non-negative. A region side at or below `-cellSize` gives a negative dimension, and the
  source's grid allocation throws. A side strictly between `-cellSize` and 0 gives an empty
  grid. There the model behaves like the source: no candidate is in the region, and the
  result is empty.
- GeneratePoints: requires `0 < radius`, with `cellSize` its positive `radius / sqrt(2)`.
  With radius 0 the source's cell size is 0, and its float divisions give an infinity or
  NaN. Converting those to an integer is platform behaviour that exact reals cannot express.
  A negative radius gives a negative cell size. The model's cell geometry assumes a positive
  cell, so that case is not modelled.
- PlanInstances: requires the same of `distributeRadius` and of the sampled side
  `2 * regionRadius`, for the same reasons. A `regionRadius` strictly between
  `-cellSize / 2` and 0 gives an empty offset list, as in the source.
- The `GetPoints` overloads and `UpdateTubeData` require:
  - `subdivisions >= 0`;
  - at least one node;
  - at least two nodes when `subdivisions > 0`.

  For other inputs the source indexes outside its arrays and throws.
