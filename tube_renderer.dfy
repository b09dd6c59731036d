/** Instance placement and buffer layout of the tube renderer (Assets/Scripts/TubeRenderer.cs).

    With instancing on, the renderer draws one tube per offset: the Poisson-disc sampler fills
    the square [0, 2R) x [0, 2R) (R = `regionRadius`), the points are shifted by (-R, -R),
    those strictly inside the disc of radius R are kept, and at most `MaxTubeNumber` of them
    are used. Every frame the node chain is resampled once per offset and the samples are
    concatenated into the position, tangent and normal buffers, each of
    `(segments + 1) * instanceCount` entries. With instancing off there is one tube on the
    chain itself. */
module TubeRenderer {
  import opened Geometry
  import PoissonDiscSampler
  import opened HermiteCurve
  import opened Arith

  /** `MAX_TUBE_NUMBER` */
  const MaxTubeNumber: int := 64

  /** Candidates thrown per spawn point: the default argument of `GeneratePoints`. */
  const SamplesBeforeRejection: int := 30

  // ---------------------------------------------------------------------------------------
  // The offset list: Select, Where, Take

  /** `Select(p => p - region)` */
  function Shift(points: seq<Vec2>, region: Vec2): (r: seq<Vec2>)
    ensures |r| == |points|
    ensures forall k :: 0 <= k < |r| ==> r[k].Plus(region) == points[k]
  {
    seq(|points|, k requires 0 <= k < |points| => points[k].Minus(region))
  }

  /** `p.magnitude < regionRadius`, without the square root: see `MagnitudeBelow`. */
  predicate InDisc(p: Vec2, regionRadius: real) {
    0.0 < regionRadius && p.SqrMagnitude() < regionRadius * regionRadius
  }

  /** `Where(p => p.magnitude < regionRadius)` */
  function WithinDisc(points: seq<Vec2>, regionRadius: real): (r: seq<Vec2>)
    ensures |r| <= |points|
  {
    if |points| == 0 then []
    else (if InDisc(points[0], regionRadius) then [points[0]] else []) + WithinDisc(points[1..], regionRadius)
  }

  /** Lines 48-53: shift, keep the points inside the disc, and cap the list at
      `MaxTubeNumber` by taking its first entries. */
  function Offsets(samples: seq<Vec2>, regionRadius: real): (offsets: seq<Vec2>)
    ensures var inside := WithinDisc(Shift(samples, Vec2(regionRadius, regionRadius)), regionRadius);
      |offsets| == (if |inside| <= MaxTubeNumber then |inside| else MaxTubeNumber) &&
      offsets == inside[..|offsets|]
  {
    var inside := WithinDisc(Shift(samples, Vec2(regionRadius, regionRadius)), regionRadius);
    if |inside| > MaxTubeNumber then inside[..MaxTubeNumber] else inside
  }

  /** With m the magnitude of p (m >= 0, m * m = |p|^2), `m < R` holds exactly when
      `InDisc(p, R)`: comparing squares is the same test. */
  lemma {:induction false} MagnitudeBelow(p: Vec2, m: real, regionRadius: real)
    requires 0.0 <= m && m * m == p.SqrMagnitude()
    ensures m < regionRadius <==> InDisc(p, regionRadius)
  {
    if m < regionRadius {
      SquareBelow(m, regionRadius);
    } else if 0.0 < regionRadius {
      SquareAtLeast(regionRadius, m);
    }
  }

  /** `Where` keeps exactly the points inside the disc... */
  lemma {:induction false} WithinDiscMembers(points: seq<Vec2>, regionRadius: real, p: Vec2)
    ensures p in WithinDisc(points, regionRadius) <==> p in points && InDisc(p, regionRadius)
    decreases |points|
  {
    if |points| > 0 {
      WithinDiscMembers(points[1..], regionRadius, p);
      assert points == [points[0]] + points[1..];
    }
  }

  /** ... in their original order: filtering a concatenation filters each part. */
  lemma {:induction false} WithinDiscAppend(s: seq<Vec2>, t: seq<Vec2>, regionRadius: real)
    ensures WithinDisc(s + t, regionRadius) == WithinDisc(s, regionRadius) + WithinDisc(t, regionRadius)
    decreases |s|
  {
    if |s| > 0 {
      assert (s + t)[1..] == s[1..] + t;
      WithinDiscAppend(s[1..], t, regionRadius);
    } else {
      assert s + t == t;
    }
  }

  /** Every offset is a sampler point shifted by (-R, -R) and lies strictly inside the disc. */
  lemma {:induction false} OffsetsComeFromSamples(samples: seq<Vec2>, regionRadius: real, k: int)
    requires 0 <= k < |Offsets(samples, regionRadius)|
    ensures InDisc(Offsets(samples, regionRadius)[k], regionRadius)
    ensures exists j :: 0 <= j < |samples| &&
              Offsets(samples, regionRadius)[k] == samples[j].Minus(Vec2(regionRadius, regionRadius))
  {
    var region := Vec2(regionRadius, regionRadius);
    var inside := WithinDisc(Shift(samples, region), regionRadius);
    var o := Offsets(samples, regionRadius)[k];
    assert o == inside[k];
    WithinDiscMembers(Shift(samples, region), regionRadius, o);
    var j :| 0 <= j < |samples| && Shift(samples, region)[j] == o;
  }

  /** The offsets keep the sampler's minimum distance: shifting keeps distances and `Where`
      and `Take` keep a subsequence. */
  lemma {:induction false} OffsetsSeparated(samples: seq<Vec2>, regionRadius: real, radius: real)
    requires PoissonDiscSampler.Separated(samples, radius)
    ensures PoissonDiscSampler.Separated(Offsets(samples, regionRadius), radius)
  {
    var region := Vec2(regionRadius, regionRadius);
    var shifted := Shift(samples, region);
    forall i, j | 0 <= i < j < |shifted|
      ensures radius * radius <= SqrDistance(shifted[i], shifted[j])
    {
      SqrDistanceShift(samples[i], samples[j], region);
    }
    WithinDiscSeparated(shifted, regionRadius, radius);
  }

  /** `Where` keeps points pairwise `radius` apart. */
  lemma {:induction false} WithinDiscSeparated(points: seq<Vec2>, regionRadius: real, radius: real)
    requires PoissonDiscSampler.Separated(points, radius)
    ensures PoissonDiscSampler.Separated(WithinDisc(points, regionRadius), radius)
    decreases |points|
  {
    if |points| > 0 {
      var rest := points[1..];
      assert PoissonDiscSampler.Separated(rest, radius) by {
        forall i, j | 0 <= i < j < |rest|
          ensures radius * radius <= SqrDistance(rest[i], rest[j])
        {
          assert rest[i] == points[i + 1] && rest[j] == points[j + 1];
        }
      }
      WithinDiscSeparated(rest, regionRadius, radius);
      var kept := WithinDisc(rest, regionRadius);
      if InDisc(points[0], regionRadius) {
        var all := [points[0]] + kept;
        forall i, j | 0 <= i < j < |all|
          ensures radius * radius <= SqrDistance(all[i], all[j])
        {
          if i == 0 {
            WithinDiscMembers(rest, regionRadius, all[j]);
            var l :| 0 <= l < |rest| && rest[l] == all[j];
            assert points[l + 1] == all[j];
          } else {
            assert all[i] == kept[i - 1] && all[j] == kept[j - 1];
          }
        }
      }
    }
  }

  /** Lines 46-55 of `Start`: with instancing on, the offsets are computed from a fresh
      Poisson-disc sample of the square [0, 2R)^2 and `instanceCount` is their number;
      with instancing off there is one instance and no offset list. */
  method PlanInstances(enableInstancing: bool, distributeRadius: real, cellSize: real, regionRadius: real,
                       pick: nat -> nat, dart: (nat, nat) -> Vec2)
    returns (offsetList: seq<Vec2>, instanceCount: int)
    requires enableInstancing ==>
               0.0 < distributeRadius && 0.0 < cellSize &&
               2.0 * (cellSize * cellSize) == distributeRadius * distributeRadius &&
               0 <= PoissonDiscSampler.GridLength(regionRadius * 2.0, cellSize)
    ensures instanceCount == (if enableInstancing then |offsetList| else 1)
    ensures |offsetList| <= MaxTubeNumber
    ensures !enableInstancing ==> offsetList == []
    ensures forall k :: 0 <= k < |offsetList| ==> InDisc(offsetList[k], regionRadius)
    ensures PoissonDiscSampler.Separated(offsetList, distributeRadius)
    ensures enableInstancing ==>
              exists samples :: offsetList == Offsets(samples, regionRadius) &&
                (forall k :: 0 <= k < |samples| ==>
                   PoissonDiscSampler.InRegion(samples[k], Vec2(regionRadius, regionRadius).Times(2.0)))
  {
    instanceCount := 1;
    offsetList := [];
    if enableInstancing {
      var region := Vec2(regionRadius, regionRadius);
      var samples, retired, retiredAt, origins := PoissonDiscSampler.GeneratePoints(distributeRadius, cellSize,
                                                       region.Times(2.0), SamplesBeforeRejection, pick, dart);
      offsetList := Offsets(samples, regionRadius);
      OffsetsSeparated(samples, regionRadius, distributeRadius);
      forall k | 0 <= k < |offsetList|
        ensures InDisc(offsetList[k], regionRadius)
      {
        OffsetsComeFromSamples(samples, regionRadius, k);
      }
      instanceCount := |offsetList|;
    }
  }

  // ---------------------------------------------------------------------------------------
  // Buffer layout

  /** Entries of each compute buffer: `(segments + 1) * instanceCount`. */
  function BufferLength(segments: int, instanceCount: int): int {
    (segments + 1) * instanceCount
  }

  /** The samples of one tube at `offset`: slots before the last from the curve, the last
      from the offset end point. */
  function InstancePoints(nodes: seq<Transform>, offset: Vec2, segments: int): (r: seq<Vec3>)
    requires 0 <= segments && 1 <= |nodes| && (0 < segments ==> 2 <= |nodes|)
    ensures |r| == segments + 1
  {
    seq(segments + 1, m requires 0 <= m <= segments =>
      if m < segments then SamplePoint(nodes, OffsetAnchors(nodes, offset), segments, m)
      else EndAnchor(nodes[|nodes| - 1], offset))
  }

  function InstanceTangents(nodes: seq<Transform>, offset: Vec2, segments: int, normalize: Vec3 -> Vec3): (r: seq<Vec3>)
    requires 0 <= segments && 1 <= |nodes| && (0 < segments ==> 2 <= |nodes|)
    ensures |r| == segments + 1
  {
    seq(segments + 1, m requires 0 <= m <= segments =>
      if m < segments then SampleTangent(nodes, OffsetAnchors(nodes, offset), segments, m, normalize)
      else nodes[|nodes| - 1].forward)
  }

  function InstanceNormals(nodes: seq<Transform>, offset: Vec2, segments: int, normalize: Vec3 -> Vec3): (r: seq<Vec3>)
    requires 0 <= segments && 1 <= |nodes| && (0 < segments ==> 2 <= |nodes|)
    ensures |r| == segments + 1
  {
    seq(segments + 1, m requires 0 <= m <= segments =>
      if m < segments then SampleNormal(nodes, OffsetAnchors(nodes, offset), segments, m, normalize)
      else nodes[|nodes| - 1].right)
  }

  /** Successive `AddRange` calls: the blocks one after the other. */
  function Flatten<T>(blocks: seq<seq<T>>): seq<T> {
    if |blocks| == 0 then [] else Flatten(blocks[..|blocks| - 1]) + blocks[|blocks| - 1]
  }

  /** `flat` is the blocks of width w one after the other: block k occupies
      [k * w, (k + 1) * w). */
  predicate Layout<T(==)>(flat: seq<T>, blocks: seq<seq<T>>, w: int) {
    |flat| == |blocks| * w && (forall k :: 0 <= k < |blocks| ==> |blocks[k]| == w) &&
    forall k, m :: 0 <= k < |blocks| && 0 <= m < w ==> PlacedAt(flat, blocks, w, k, m)
  }

  /** Entry m of block k sits at k * w + m in `flat`. */
  predicate PlacedAt<T(==)>(flat: seq<T>, blocks: seq<seq<T>>, w: int, k: int, m: int)
    requires 0 <= k < |blocks| && 0 <= m < |blocks[k]|
  {
    0 <= k * w + m < |flat| && flat[k * w + m] == blocks[k][m]
  }

  /** Flattening blocks of equal width w lays them out at multiples of w. */
  lemma {:induction false} FlattenLayout<T>(blocks: seq<seq<T>>, w: int)
    requires 0 <= w && forall k :: 0 <= k < |blocks| ==> |blocks[k]| == w
    ensures Layout(Flatten(blocks), blocks, w)
    decreases |blocks|
  {
    if |blocks| > 0 {
      var n := |blocks|;
      var front := blocks[..n - 1];
      FlattenLayout(front, w);
      assert blocks == front + [blocks[n - 1]];
      LayoutAppend(Flatten(front), front, blocks[n - 1], w);
    } else {
      ZeroBlocks(|blocks|, w);
    }
  }

  lemma ZeroBlocks(n: int, w: int)
    requires n == 0
    ensures n * w == 0
  {
  }

  /** Appending one more block of width w after a laid-out prefix keeps the layout. */
  lemma {:induction false} LayoutAppend<T>(flat: seq<T>, front: seq<seq<T>>, last: seq<T>, w: int)
    requires 0 <= w && |last| == w && Layout(flat, front, w)
    ensures Layout(flat + last, front + [last], w)
  {
    var n := |front|;
    var blocks := front + [last];
    MulSucc(n, w);
    forall k, m | 0 <= k <= n && 0 <= m < w
      ensures PlacedAt(flat + last, blocks, w, k, m)
    {
      if k < n {
        assert PlacedAt(flat, front, w, k, m);
        BlockBefore(k, m, n, w);
      } else {
        LastBlock(k, m, n, w);
      }
    }
  }

  /** Entry m of block k < n comes before all of block n. */
  lemma {:induction false} BlockBefore(k: int, m: int, n: int, w: int)
    requires 0 <= k < n && 0 <= m < w
    ensures 0 <= k * w + m < n * w
  {
    MulMonotone(0, k, w);
    MulSucc(k, w);
    MulMonotone(k + 1, n, w);
  }

  lemma LastBlock(k: int, m: int, n: int, w: int)
    requires k == n && 0 <= m
    ensures k * w + m - n * w == m
  {
  }

  function PointBlocks(nodes: seq<Transform>, offsets: seq<Vec2>, segments: int): (r: seq<seq<Vec3>>)
    requires 0 <= segments && 1 <= |nodes| && (0 < segments ==> 2 <= |nodes|)
    ensures |r| == |offsets|
  {
    seq(|offsets|, k requires 0 <= k < |offsets| => InstancePoints(nodes, offsets[k], segments))
  }

  function TangentBlocks(nodes: seq<Transform>, offsets: seq<Vec2>, segments: int, normalize: Vec3 -> Vec3): (r: seq<seq<Vec3>>)
    requires 0 <= segments && 1 <= |nodes| && (0 < segments ==> 2 <= |nodes|)
    ensures |r| == |offsets|
  {
    seq(|offsets|, k requires 0 <= k < |offsets| => InstanceTangents(nodes, offsets[k], segments, normalize))
  }

  function NormalBlocks(nodes: seq<Transform>, offsets: seq<Vec2>, segments: int, normalize: Vec3 -> Vec3): (r: seq<seq<Vec3>>)
    requires 0 <= segments && 1 <= |nodes| && (0 < segments ==> 2 <= |nodes|)
    ensures |r| == |offsets|
  {
    seq(|offsets|, k requires 0 <= k < |offsets| => InstanceNormals(nodes, offsets[k], segments, normalize))
  }

  /** One iteration of the instancing loop: the three arrays of `GetPoints(nodes, offset,
      segments, out tangents, out normals)` as sequences. */
  method InstanceFrames(nodes: seq<Transform>, offset: Vec2, segments: int, normalize: Vec3 -> Vec3)
    returns (points: seq<Vec3>, tangents: seq<Vec3>, normals: seq<Vec3>)
    requires 0 <= segments && 1 <= |nodes| && (0 < segments ==> 2 <= |nodes|)
    ensures points == InstancePoints(nodes, offset, segments)
    ensures tangents == InstanceTangents(nodes, offset, segments, normalize)
    ensures normals == InstanceNormals(nodes, offset, segments, normalize)
  {
    var p, t, n := GetOffsetPointsWithFrames(nodes, offset, segments, normalize);
    points, tangents, normals := p[..], t[..], n[..];
  }

  /** `UpdateTubeData`, lines 98-107: resample the chain once per offset and append the
      samples to the three lists. */
  method ConcatenateInstances(nodes: seq<Transform>, offsetList: seq<Vec2>, segments: int, normalize: Vec3 -> Vec3)
    returns (allPoints: seq<Vec3>, allTangents: seq<Vec3>, allNormals: seq<Vec3>)
    requires 0 <= segments && 1 <= |nodes| && (0 < segments ==> 2 <= |nodes|)
    ensures allPoints == Flatten(PointBlocks(nodes, offsetList, segments))
    ensures allTangents == Flatten(TangentBlocks(nodes, offsetList, segments, normalize))
    ensures allNormals == Flatten(NormalBlocks(nodes, offsetList, segments, normalize))
  {
    allPoints, allTangents, allNormals := [], [], [];
    for i := 0 to |offsetList|
      invariant allPoints == Flatten(PointBlocks(nodes, offsetList[..i], segments))
      invariant allTangents == Flatten(TangentBlocks(nodes, offsetList[..i], segments, normalize))
      invariant allNormals == Flatten(NormalBlocks(nodes, offsetList[..i], segments, normalize))
    {
      var points, tangents, normals := InstanceFrames(nodes, offsetList[i], segments, normalize);
      BlocksGrow(nodes, offsetList, i, segments, normalize);
      allPoints := allPoints + points;
      allTangents := allTangents + tangents;
      allNormals := allNormals + normals;
    }
    assert offsetList[..|offsetList|] == offsetList;
  }

  /** The blocks of the first i + 1 offsets are those of the first i and one more. */
  lemma {:induction false} BlocksGrow(nodes: seq<Transform>, offsets: seq<Vec2>, i: int, segments: int,
                                      normalize: Vec3 -> Vec3)
    requires 0 <= segments && 1 <= |nodes| && (0 < segments ==> 2 <= |nodes|) && 0 <= i < |offsets|
    ensures Flatten(PointBlocks(nodes, offsets[..i + 1], segments)) ==
              Flatten(PointBlocks(nodes, offsets[..i], segments)) + InstancePoints(nodes, offsets[i], segments)
    ensures Flatten(TangentBlocks(nodes, offsets[..i + 1], segments, normalize)) ==
              Flatten(TangentBlocks(nodes, offsets[..i], segments, normalize)) +
              InstanceTangents(nodes, offsets[i], segments, normalize)
    ensures Flatten(NormalBlocks(nodes, offsets[..i + 1], segments, normalize)) ==
              Flatten(NormalBlocks(nodes, offsets[..i], segments, normalize)) +
              InstanceNormals(nodes, offsets[i], segments, normalize)
  {
    assert offsets[..i + 1][..i] == offsets[..i];
    assert PointBlocks(nodes, offsets[..i + 1], segments)[..i] == PointBlocks(nodes, offsets[..i], segments);
    assert TangentBlocks(nodes, offsets[..i + 1], segments, normalize)[..i] ==
           TangentBlocks(nodes, offsets[..i], segments, normalize);
    assert NormalBlocks(nodes, offsets[..i + 1], segments, normalize)[..i] ==
           NormalBlocks(nodes, offsets[..i], segments, normalize);
  }

  /** `UpdateTubeData` (lines 97-119): the data handed to the three buffers. With instancing
      off it is one resampling of the chain, which is the tube at offset (0, 0). */
  method UpdateTubeData(enableInstancing: bool, nodes: seq<Transform>, offsetList: seq<Vec2>, segments: int,
                        normalize: Vec3 -> Vec3)
    returns (allPoints: seq<Vec3>, allTangents: seq<Vec3>, allNormals: seq<Vec3>)
    requires 0 <= segments && 1 <= |nodes| && (0 < segments ==> 2 <= |nodes|)
    ensures var instanceCount := if enableInstancing then |offsetList| else 1;
      |allPoints| == |allTangents| == |allNormals| == BufferLength(segments, instanceCount)
    ensures enableInstancing ==>
              Layout(allPoints, PointBlocks(nodes, offsetList, segments), segments + 1) &&
              Layout(allTangents, TangentBlocks(nodes, offsetList, segments, normalize), segments + 1) &&
              Layout(allNormals, NormalBlocks(nodes, offsetList, segments, normalize), segments + 1)
    ensures !enableInstancing ==>
              allPoints == InstancePoints(nodes, Zero2, segments) &&
              allTangents == InstanceTangents(nodes, Zero2, segments, normalize) &&
              allNormals == InstanceNormals(nodes, Zero2, segments, normalize)
  {
    if enableInstancing {
      allPoints, allTangents, allNormals := ConcatenateInstances(nodes, offsetList, segments, normalize);
      FlattenLayout(PointBlocks(nodes, offsetList, segments), segments + 1);
      FlattenLayout(TangentBlocks(nodes, offsetList, segments, normalize), segments + 1);
      FlattenLayout(NormalBlocks(nodes, offsetList, segments, normalize), segments + 1);
    } else {
      var p, t, n := GetPointsWithFrames(nodes, segments, normalize);
      allPoints, allTangents, allNormals := p[..], t[..], n[..];
      ZeroOffset(nodes);
    }
  }
}
