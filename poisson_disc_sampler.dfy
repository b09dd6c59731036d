/** Poisson-disc sampling of a rectangle (Assets/Scripts/PoissonDiscSampler.cs).

    Points are grown from the centre of the region: a spawn point is drawn at random, up to
    `samplesBeforeRejection` candidates are thrown around it, and the first candidate that lies
    in the region and keeps `radius` from every point already placed is accepted; a spawn point
    whose candidates all fail is retired. A background grid of cells of side `cellSize`
    (= radius / sqrt 2, so a cell holds at most one point) records, per cell, 1 + the index of
    the point in it, or 0, and the acceptance test only looks at the 5x5 block of cells around
    the candidate's cell.

    `Random` is replaced by two oracles: `pick(step)` chooses the spawn point of outer
    iteration `step` (taken modulo the number of spawn points, so every choice is an index
    `Random.Range(0, count)` could return) and `dart(step, attempt)` is the offset of a
    candidate from its spawn point. `Mathf.Sqrt(2)` is replaced by the `cellSize` parameter,
    required to satisfy 2 * cellSize^2 == radius^2 exactly. */
module PoissonDiscSampler {
  import opened Geometry
  import opened Arith

  function Max(a: int, b: int): int { if a < b then b else a }
  function Min(a: int, b: int): int { if a < b then a else b }

  /** `Mathf.FloorToInt(v / cellSize)`: the grid column (or row) of coordinate v. */
  function Cell(v: real, cellSize: real): int
    requires cellSize != 0.0
  {
    (v / cellSize).Floor
  }

  /** `Mathf.CeilToInt(v)` */
  function Ceil(v: real): (r: int)
    ensures v <= r as real < v + 1.0
  {
    -((-v).Floor)
  }

  /** Number of grid columns (rows) covering a side of length `size`. */
  function GridLength(size: real, cellSize: real): int
    requires cellSize != 0.0
  {
    Ceil(size / cellSize)
  }

  /** The region is half-open: [0, size.x) x [0, size.y). */
  predicate InRegion(p: Vec2, regionSize: Vec2) {
    0.0 <= p.x < regionSize.x && 0.0 <= p.y < regionSize.y
  }

  /** First and last column (row) scanned around cell `cell`: two cells either side, clipped
      to the grid. */
  function ScanStart(cell: int): int { Max(0, cell - 2) }
  function ScanEnd(cell: int, length: int): int { Min(cell + 2, length - 1) }

  /** Every grid entry is 0 (empty) or 1 + the index of a point. */
  ghost predicate EntriesInRange(grid: array2<int>, count: int)
    reads grid
  {
    forall x, y :: 0 <= x < grid.Length0 && 0 <= y < grid.Length1 ==> 0 <= grid[x, y] <= count
  }

  /** What `IsValidatePoint` answers: the candidate lies in the region, and no point recorded in
      a scanned cell is closer to it than `radius`. */
  ghost predicate Accepts(candidate: Vec2, radius: real, regionSize: Vec2, cellSize: real,
                          points: seq<Vec2>, grid: array2<int>)
    requires cellSize != 0.0 && EntriesInRange(grid, |points|)
    reads grid
  {
    var cellX, cellY := Cell(candidate.x, cellSize), Cell(candidate.y, cellSize);
    InRegion(candidate, regionSize) &&
    forall x, y ::
      ScanStart(cellX) <= x <= ScanEnd(cellX, grid.Length0) &&
      ScanStart(cellY) <= y <= ScanEnd(cellY, grid.Length1) && grid[x, y] != 0 ==>
        radius * radius <= SqrDistance(points[grid[x, y] - 1], candidate)
  }

  /** The state the sampling loop keeps: every point lies in the region, in a cell of the grid
      that records it, and every non-empty cell records a point that lies in it. */
  ghost predicate GridInvariant(grid: array2<int>, points: seq<Vec2>, cellSize: real, regionSize: Vec2)
    reads grid
  {
    0.0 < cellSize &&
    grid.Length0 == GridLength(regionSize.x, cellSize) && grid.Length1 == GridLength(regionSize.y, cellSize) &&
    CellsHoldTheirPoints(grid, points, cellSize) && PointsAreRecorded(grid, points, cellSize, regionSize)
  }

  /** Every non-empty cell records a point that lies in it. */
  ghost predicate CellsHoldTheirPoints(grid: array2<int>, points: seq<Vec2>, cellSize: real)
    requires cellSize != 0.0
    reads grid
  {
    EntriesInRange(grid, |points|) &&
    forall x, y :: 0 <= x < grid.Length0 && 0 <= y < grid.Length1 && grid[x, y] != 0 ==>
      Cell(points[grid[x, y] - 1].x, cellSize) == x && Cell(points[grid[x, y] - 1].y, cellSize) == y
  }

  /** Every point lies in the region, in a cell of the grid that records it. */
  ghost predicate PointsAreRecorded(grid: array2<int>, points: seq<Vec2>, cellSize: real, regionSize: Vec2)
    requires cellSize != 0.0
    reads grid
  {
    forall k :: 0 <= k < |points| ==>
      InRegion(points[k], regionSize) &&
      0 <= Cell(points[k].x, cellSize) < grid.Length0 && 0 <= Cell(points[k].y, cellSize) < grid.Length1 &&
      grid[Cell(points[k].x, cellSize), Cell(points[k].y, cellSize)] == k + 1
  }

  /** No two points are closer than `radius`. */
  predicate Separated(points: seq<Vec2>, radius: real) {
    forall i, j :: 0 <= i < j < |points| ==> radius * radius <= SqrDistance(points[i], points[j])
  }

  /** The first spawn point: `regionSize / 2`. */
  function RegionCentre(regionSize: Vec2): Vec2 {
    Vec2(regionSize.x / 2.0, regionSize.y / 2.0)
  }

  /** A candidate that `points` rule out: it leaves the region, or a point is closer to it than
      `radius`. Once blocked, a candidate stays blocked as points are added (BlockedGrows). */
  predicate Blocked(candidate: Vec2, radius: real, regionSize: Vec2, points: seq<Vec2>) {
    !InRegion(candidate, regionSize) ||
    exists k :: 0 <= k < |points| && SqrDistance(points[k], candidate) < radius * radius
  }

  /** Where an accepted point came from: dart `attempt` of outer iteration `step`, thrown
      around the spawn point `center`. */
  datatype Origin = Origin(center: Vec2, step: nat, attempt: nat)

  /** Point k was thrown from `origin`, whose centre is the first spawn point or an earlier point. */
  ghost predicate Derived(points: seq<Vec2>, k: int, origin: Origin, seed: Vec2, samplesBeforeRejection: int,
                          dart: (nat, nat) -> Vec2)
    requires 0 <= k < |points|
  {
    origin.attempt < samplesBeforeRejection &&
    points[k] == origin.center.Plus(dart(origin.step, origin.attempt)) &&
    origin.center in [seed] + points[..k]
  }

  /** What the sampling loop has done so far. The spawn points not yet retired, together with
      the retired ones, are exactly the seed and the points. Every retired spawn point had all
      `samplesBeforeRejection` darts of the iteration that retired it blocked. Every point was
      thrown from the seed or from an earlier point. */
  ghost predicate History(seed: Vec2, points: seq<Vec2>, spawnPoints: seq<Vec2>, retired: seq<Vec2>,
                          retiredAt: seq<nat>, origins: seq<Origin>, radius: real, regionSize: Vec2,
                          samplesBeforeRejection: int, dart: (nat, nat) -> Vec2)
  {
    |retired| == |retiredAt| && |origins| == |points| &&
    multiset(spawnPoints) + multiset(retired) == multiset([seed] + points) &&
    (forall i, a: nat :: 0 <= i < |retired| && a < samplesBeforeRejection ==>
       Blocked(retired[i].Plus(dart(retiredAt[i], a)), radius, regionSize, points)) &&
    (forall k :: 0 <= k < |points| ==> Derived(points, k, origins[k], seed, samplesBeforeRejection, dart))
  }

  // ---------------------------------------------------------------------------------------
  // The sampler

  /** `IsValidatePoint`: scans the clipped 5x5 block of cells around the candidate and rejects
      it as soon as a recorded point is closer than `radius`. */
  method IsValidatePoint(candidate: Vec2, radius: real, regionSize: Vec2, cellSize: real,
                         points: seq<Vec2>, grid: array2<int>) returns (valid: bool)
    requires cellSize != 0.0 && EntriesInRange(grid, |points|)
    ensures valid == Accepts(candidate, radius, regionSize, cellSize, points, grid)
    ensures !InRegion(candidate, regionSize) ==> !valid
  {
    if candidate.x >= 0.0 && candidate.x < regionSize.x && candidate.y >= 0.0 && candidate.y < regionSize.y {
      var cellX := Cell(candidate.x, cellSize);
      var cellStartX := Max(0, cellX - 2);
      var cellEndX := Min(cellX + 2, grid.Length0 - 1);

      var cellY := Cell(candidate.y, cellSize);
      var cellStartY := Max(0, cellY - 2);
      var cellEndY := Min(cellY + 2, grid.Length1 - 1);

      var x := cellStartX;
      while x <= cellEndX
        invariant cellStartX <= x && (x == cellStartX || x <= cellEndX + 1)
        invariant forall x', y' :: cellStartX <= x' < x && cellStartY <= y' <= cellEndY && grid[x', y'] != 0 ==>
                    radius * radius <= SqrDistance(points[grid[x', y'] - 1], candidate)
      {
        var clear := ScanColumn(candidate, radius, points, grid, x, cellStartY, cellEndY);
        if !clear {
          return false;
        }
        x := x + 1;
      }
      return true;
    }
    return false;
  }

  /** The inner `for` loop of `IsValidatePoint`: column x, rows `cellStartY .. cellEndY`;
      `clear` is false as soon as a recorded point there is closer than `radius`. */
  method ScanColumn(candidate: Vec2, radius: real, points: seq<Vec2>, grid: array2<int>, x: int,
                    cellStartY: int, cellEndY: int) returns (clear: bool)
    requires EntriesInRange(grid, |points|)
    requires 0 <= x < grid.Length0 && 0 <= cellStartY && cellEndY < grid.Length1
    ensures clear <==> forall y :: cellStartY <= y <= cellEndY && grid[x, y] != 0 ==>
                         radius * radius <= SqrDistance(points[grid[x, y] - 1], candidate)
  {
    var y := cellStartY;
    while y <= cellEndY
      invariant cellStartY <= y && (y == cellStartY || y <= cellEndY + 1)
      invariant forall y' :: cellStartY <= y' < y && grid[x, y'] != 0 ==>
                  radius * radius <= SqrDistance(points[grid[x, y'] - 1], candidate)
    {
      var pointIndex := grid[x, y] - 1;
      if pointIndex != -1 {
        var point := points[pointIndex];
        var sqrDst := point.Minus(candidate).SqrMagnitude();
        if sqrDst < radius * radius {
          return false;
        }
      }
      y := y + 1;
    }
    return true;
  }

  /** The `for` loop of `GeneratePoints`: throws up to `samplesBeforeRejection` candidates
      around `center` and stops at the first one `IsValidatePoint` accepts. */
  method SpawnAround(center: Vec2, radius: real, regionSize: Vec2, cellSize: real, samplesBeforeRejection: int,
                     points: seq<Vec2>, grid: array2<int>, step: nat, dart: (nat, nat) -> Vec2)
    returns (spawnSuccess: bool, candidate: Vec2)
    requires cellSize != 0.0 && EntriesInRange(grid, |points|)
    ensures spawnSuccess ==> Accepts(candidate, radius, regionSize, cellSize, points, grid)
    ensures spawnSuccess ==>
              exists a: nat :: a < samplesBeforeRejection && candidate == center.Plus(dart(step, a)) &&
                forall b: nat :: b < a ==> !Accepts(center.Plus(dart(step, b)), radius, regionSize, cellSize, points, grid)
    ensures !spawnSuccess ==>
              forall a: nat :: a < samplesBeforeRejection ==>
                !Accepts(center.Plus(dart(step, a)), radius, regionSize, cellSize, points, grid)
  {
    var i: nat := 0;
    while i < samplesBeforeRejection
      invariant forall b: nat :: b < i ==> !Accepts(center.Plus(dart(step, b)), radius, regionSize, cellSize, points, grid)
    {
      candidate := center.Plus(dart(step, i));
      var valid := IsValidatePoint(candidate, radius, regionSize, cellSize, points, grid);
      if valid {
        return true, candidate;
      }
      i := i + 1;
    }
    return false, center;
  }

  /** `GeneratePoints(radius, regionSize, samplesBeforeRejection)`: every point lies in the
      region and no two points are closer than `radius`. The ghost results record the run:
      `retired` lists the spawn points in the order they were retired (at iterations
      `retiredAt`), which is every point and the seed exactly once, each with all its darts
      of that iteration blocked by the returned points; `origins` says which dart produced
      each point, around the seed or an earlier point. */
  method GeneratePoints(radius: real, cellSize: real, regionSize: Vec2, samplesBeforeRejection: int,
                        pick: nat -> nat, dart: (nat, nat) -> Vec2)
    returns (points: seq<Vec2>, ghost retired: seq<Vec2>, ghost retiredAt: seq<nat>, ghost origins: seq<Origin>)
    requires 0.0 < radius && 0.0 < cellSize && 2.0 * (cellSize * cellSize) == radius * radius
    requires 0 <= GridLength(regionSize.x, cellSize) && 0 <= GridLength(regionSize.y, cellSize)
    ensures forall k :: 0 <= k < |points| ==> InRegion(points[k], regionSize)
    ensures Separated(points, radius)
    ensures |retired| == |retiredAt| && multiset(retired) == multiset([RegionCentre(regionSize)] + points)
    ensures forall i, a: nat :: 0 <= i < |retired| && a < samplesBeforeRejection ==>
              Blocked(retired[i].Plus(dart(retiredAt[i], a)), radius, regionSize, points)
    ensures |origins| == |points|
    ensures forall k :: 0 <= k < |points| ==>
              Derived(points, k, origins[k], RegionCentre(regionSize), samplesBeforeRejection, dart)
  {
    var grid := new int[GridLength(regionSize.x, cellSize), GridLength(regionSize.y, cellSize)]((x, y) => 0);
    points := [];
    var spawnPoints := [RegionCentre(regionSize)];
    retired, retiredAt, origins := [], [], [];
    // cells still empty; one leaves this set with every accepted point
    ghost var free := set x, y | 0 <= x < grid.Length0 && 0 <= y < grid.Length1 :: (x, y);
    var step: nat := 0;
    while |spawnPoints| > 0
      invariant GridInvariant(grid, points, cellSize, regionSize)
      invariant Separated(points, radius)
      invariant FreeCovers(grid, free)
      invariant History(RegionCentre(regionSize), points, spawnPoints, retired, retiredAt, origins,
                        radius, regionSize, samplesBeforeRejection, dart)
      decreases 2 * |free| + |spawnPoints|
    {
      ghost var index := pick(step) % |spawnPoints|;
      ghost var before, spawnBefore := points, spawnPoints;
      var spawnSuccess: bool, candidate: Vec2;
      spawnSuccess, candidate, points, spawnPoints, free :=
        SpawnStep(grid, points, spawnPoints, radius, regionSize, cellSize, samplesBeforeRejection, step, pick, dart, free);
      if spawnSuccess {
        ghost var attempt: nat :|
          attempt < samplesBeforeRejection && candidate == spawnBefore[index].Plus(dart(step, attempt));
        HistoryAfterAccept(RegionCentre(regionSize), before, spawnBefore, retired, retiredAt, origins, radius,
                           regionSize, samplesBeforeRejection, dart, index, step, attempt);
        origins := origins + [Origin(spawnBefore[index], step, attempt)];
      } else {
        HistoryAfterRetire(RegionCentre(regionSize), before, spawnBefore, retired, retiredAt, origins, radius,
                           regionSize, samplesBeforeRejection, dart, index, step);
        retired, retiredAt := retired + [spawnBefore[index]], retiredAt + [step];
      }
      step := step + 1;
    }
  }

  /** One pass of the `while` loop (lines 16-34): pick a spawn point, throw candidates around
      it, and either append the accepted candidate to both lists or retire the spawn point. */
  method SpawnStep(grid: array2<int>, points: seq<Vec2>, spawnPoints: seq<Vec2>, radius: real, regionSize: Vec2,
                   cellSize: real, samplesBeforeRejection: int, step: nat, pick: nat -> nat,
                   dart: (nat, nat) -> Vec2, ghost free: set<(int, int)>)
    returns (spawnSuccess: bool, candidate: Vec2, points': seq<Vec2>, spawnPoints': seq<Vec2>,
             ghost free': set<(int, int)>)
    requires 0 < |spawnPoints|
    requires GridInvariant(grid, points, cellSize, regionSize) && 2.0 * (cellSize * cellSize) == radius * radius
    requires Separated(points, radius) && FreeCovers(grid, free)
    modifies grid
    ensures GridInvariant(grid, points', cellSize, regionSize) && Separated(points', radius)
    ensures FreeCovers(grid, free') && 2 * |free'| + |spawnPoints'| < 2 * |free| + |spawnPoints|
    ensures spawnSuccess ==> points' == points + [candidate] && spawnPoints' == spawnPoints + [candidate]
    ensures !spawnSuccess ==>
              points' == points && spawnPoints' == RemoveAt(spawnPoints, pick(step) % |spawnPoints|)
    ensures spawnSuccess ==>
              exists a: nat :: a < samplesBeforeRejection &&
                candidate == spawnPoints[pick(step) % |spawnPoints|].Plus(dart(step, a))
    ensures !spawnSuccess ==>
              forall a: nat :: a < samplesBeforeRejection ==>
                Blocked(spawnPoints[pick(step) % |spawnPoints|].Plus(dart(step, a)), radius, regionSize, points)
  {
    var spawnIndex := pick(step) % |spawnPoints|;
    var spawnCenter := spawnPoints[spawnIndex];

    spawnSuccess, candidate :=
      SpawnAround(spawnCenter, radius, regionSize, cellSize, samplesBeforeRejection, points, grid, step, dart);
    if !spawnSuccess {
      forall a: nat | a < samplesBeforeRejection
        ensures Blocked(spawnCenter.Plus(dart(step, a)), radius, regionSize, points)
      {
        RejectedIsBlocked(grid, points, spawnCenter.Plus(dart(step, a)), radius, regionSize, cellSize);
      }
    }
    if spawnSuccess {
      points', free' := Accept(grid, points, candidate, radius, regionSize, cellSize, free);
      spawnPoints' := spawnPoints + [candidate];
    } else {
      points', free' := points, free;
      spawnPoints' := RemoveAt(spawnPoints, spawnIndex);
    }
  }

  /** The empty cells of the grid are among `free`. */
  ghost predicate FreeCovers(grid: array2<int>, free: set<(int, int)>)
    reads grid
  {
    forall x, y :: 0 <= x < grid.Length0 && 0 <= y < grid.Length1 && grid[x, y] == 0 ==> (x, y) in free
  }

  /** The accept branch of `GeneratePoints` (lines 24-27): the accepted candidate joins the
      points, the points stay `radius` apart, and one empty cell is filled. */
  method Accept(grid: array2<int>, points: seq<Vec2>, candidate: Vec2, radius: real, regionSize: Vec2,
                cellSize: real, ghost free: set<(int, int)>)
    returns (points': seq<Vec2>, ghost free': set<(int, int)>)
    requires GridInvariant(grid, points, cellSize, regionSize) && 2.0 * (cellSize * cellSize) == radius * radius
    requires Accepts(candidate, radius, regionSize, cellSize, points, grid)
    requires Separated(points, radius) && FreeCovers(grid, free)
    modifies grid
    ensures points' == points + [candidate]
    ensures GridInvariant(grid, points', cellSize, regionSize) && Separated(points', radius)
    ensures FreeCovers(grid, free') && |free'| < |free|
  {
    AcceptedIsFarFromAll(grid, points, candidate, radius, regionSize, cellSize);
    SeparatedAppend(points, candidate, radius);
    AcceptedCellIsEmpty(grid, points, candidate, radius, regionSize, cellSize);
    var cell := (Cell(candidate.x, cellSize), Cell(candidate.y, cellSize));
    assert cell in free;
    points' := Record(grid, points, candidate, regionSize, cellSize);
    free' := free - {cell};
    forall x, y | 0 <= x < grid.Length0 && 0 <= y < grid.Length1 && grid[x, y] == 0
      ensures (x, y) in free'
    {
      assert (x, y) != cell && grid[x, y] == old(grid[x, y]);
    }
  }

  /** Lines 24-26 of the accept branch: append the candidate and record it in its cell, which
      must be an empty cell of the grid. The invariant is kept and no other cell changes. */
  method Record(grid: array2<int>, points: seq<Vec2>, candidate: Vec2, regionSize: Vec2, cellSize: real)
    returns (points': seq<Vec2>)
    requires GridInvariant(grid, points, cellSize, regionSize) && InRegion(candidate, regionSize)
    requires 0 <= Cell(candidate.x, cellSize) < grid.Length0 && 0 <= Cell(candidate.y, cellSize) < grid.Length1
    requires grid[Cell(candidate.x, cellSize), Cell(candidate.y, cellSize)] == 0
    modifies grid
    ensures points' == points + [candidate]
    ensures GridInvariant(grid, points', cellSize, regionSize)
    ensures var cellX, cellY := Cell(candidate.x, cellSize), Cell(candidate.y, cellSize);
      grid[cellX, cellY] == |points'| &&
      forall x, y :: 0 <= x < grid.Length0 && 0 <= y < grid.Length1 && (x, y) != (cellX, cellY) ==>
        grid[x, y] == old(grid[x, y])
  {
    points' := points + [candidate];
    var cellX, cellY := Cell(candidate.x, cellSize), Cell(candidate.y, cellSize);
    grid[cellX, cellY] := |points'|;
    assert CellsHoldTheirPoints(grid, points', cellSize) by {
      forall x, y | 0 <= x < grid.Length0 && 0 <= y < grid.Length1
        ensures 0 <= grid[x, y] <= |points'|
        ensures grid[x, y] != 0 ==>
          Cell(points'[grid[x, y] - 1].x, cellSize) == x && Cell(points'[grid[x, y] - 1].y, cellSize) == y
      {
        if (x, y) != (cellX, cellY) && grid[x, y] != 0 {
          assert grid[x, y] == old(grid[x, y]);
          assert points'[grid[x, y] - 1] == points[grid[x, y] - 1];
        }
      }
    }
    assert PointsAreRecorded(grid, points', cellSize, regionSize) by {
      forall k | 0 <= k < |points'|
        ensures InRegion(points'[k], regionSize)
        ensures 0 <= Cell(points'[k].x, cellSize) < grid.Length0 && 0 <= Cell(points'[k].y, cellSize) < grid.Length1
        ensures grid[Cell(points'[k].x, cellSize), Cell(points'[k].y, cellSize)] == k + 1
      {
        if k < |points| {
          assert points'[k] == points[k];
          assert old(grid[Cell(points[k].x, cellSize), Cell(points[k].y, cellSize)]) == k + 1;
        }
      }
    }
  }

  /** `List.RemoveAt`: the list without its element at `index`, the rest in order. */
  function RemoveAt<T>(s: seq<T>, index: int): (r: seq<T>)
    requires 0 <= index < |s|
    ensures |r| == |s| - 1
    ensures forall k :: 0 <= k < index ==> r[k] == s[k]
    ensures forall k :: index <= k < |r| ==> r[k] == s[k + 1]
  {
    s[..index] + s[index + 1..]
  }

  // ---------------------------------------------------------------------------------------
  // What the sampling loop leaves behind

  /** A candidate the grid test rejects is blocked by the recorded points. */
  lemma RejectedIsBlocked(grid: array2<int>, points: seq<Vec2>, candidate: Vec2, radius: real,
                          regionSize: Vec2, cellSize: real)
    requires GridInvariant(grid, points, cellSize, regionSize)
    requires !Accepts(candidate, radius, regionSize, cellSize, points, grid)
    ensures Blocked(candidate, radius, regionSize, points)
  {
    if InRegion(candidate, regionSize) {
      var cellX, cellY := Cell(candidate.x, cellSize), Cell(candidate.y, cellSize);
      var x, y :| ScanStart(cellX) <= x <= ScanEnd(cellX, grid.Length0) &&
                  ScanStart(cellY) <= y <= ScanEnd(cellY, grid.Length1) && grid[x, y] != 0 &&
                  SqrDistance(points[grid[x, y] - 1], candidate) < radius * radius;
      var k := grid[x, y] - 1;
      assert 0 <= k < |points| && SqrDistance(points[k], candidate) < radius * radius;
    }
  }

  /** Adding points never unblocks a candidate. */
  lemma BlockedGrows(candidate: Vec2, radius: real, regionSize: Vec2, points: seq<Vec2>, more: seq<Vec2>)
    requires Blocked(candidate, radius, regionSize, points)
    ensures Blocked(candidate, radius, regionSize, points + more)
  {
    if InRegion(candidate, regionSize) {
      var k :| 0 <= k < |points| && SqrDistance(points[k], candidate) < radius * radius;
      assert (points + more)[k] == points[k];
    }
  }

  /** `RemoveAt` takes exactly the one element out of the multiset. */
  lemma RemoveAtMultiset<T>(s: seq<T>, index: int)
    requires 0 <= index < |s|
    ensures multiset(RemoveAt(s, index)) + multiset{s[index]} == multiset(s)
  {
    assert s == s[..index] + [s[index]] + s[index + 1..];
  }

  /** The accept branch keeps History: the candidate joins points and spawn points, and it was
      thrown from a spawn point, which is the seed or an earlier point. */
  lemma HistoryAfterAccept(seed: Vec2, points: seq<Vec2>, spawnPoints: seq<Vec2>, retired: seq<Vec2>,
                           retiredAt: seq<nat>, origins: seq<Origin>, radius: real, regionSize: Vec2,
                           samplesBeforeRejection: int, dart: (nat, nat) -> Vec2,
                           index: int, step: nat, attempt: nat)
    requires History(seed, points, spawnPoints, retired, retiredAt, origins, radius, regionSize,
                     samplesBeforeRejection, dart)
    requires 0 <= index < |spawnPoints| && attempt < samplesBeforeRejection
    ensures var candidate := spawnPoints[index].Plus(dart(step, attempt));
      History(seed, points + [candidate], spawnPoints + [candidate], retired, retiredAt,
              origins + [Origin(spawnPoints[index], step, attempt)], radius, regionSize, samplesBeforeRejection, dart)
  {
    var candidate := spawnPoints[index].Plus(dart(step, attempt));
    var points', origins' := points + [candidate], origins + [Origin(spawnPoints[index], step, attempt)];
    assert spawnPoints[index] in multiset([seed] + points) by {
      assert spawnPoints[index] in multiset(spawnPoints);
    }
    assert [seed] + points' == ([seed] + points) + [candidate];
    forall i, a: nat | 0 <= i < |retired| && a < samplesBeforeRejection
      ensures Blocked(retired[i].Plus(dart(retiredAt[i], a)), radius, regionSize, points')
    {
      BlockedGrows(retired[i].Plus(dart(retiredAt[i], a)), radius, regionSize, points, [candidate]);
    }
    forall k | 0 <= k < |points'|
      ensures Derived(points', k, origins'[k], seed, samplesBeforeRejection, dart)
    {
      assert points'[..k] == if k < |points| then points[..k] else points;
      if k < |points| {
        assert Derived(points, k, origins[k], seed, samplesBeforeRejection, dart);
      }
    }
  }

  /** The retire branch keeps History: the spawn point moves from the spawn list to the retired
      list, with every dart of this iteration blocked. */
  lemma HistoryAfterRetire(seed: Vec2, points: seq<Vec2>, spawnPoints: seq<Vec2>, retired: seq<Vec2>,
                           retiredAt: seq<nat>, origins: seq<Origin>, radius: real, regionSize: Vec2,
                           samplesBeforeRejection: int, dart: (nat, nat) -> Vec2, index: int, step: nat)
    requires History(seed, points, spawnPoints, retired, retiredAt, origins, radius, regionSize,
                     samplesBeforeRejection, dart)
    requires 0 <= index < |spawnPoints|
    requires forall a: nat :: a < samplesBeforeRejection ==>
               Blocked(spawnPoints[index].Plus(dart(step, a)), radius, regionSize, points)
    ensures History(seed, points, RemoveAt(spawnPoints, index), retired + [spawnPoints[index]], retiredAt + [step],
                    origins, radius, regionSize, samplesBeforeRejection, dart)
  {
    RemoveAtMultiset(spawnPoints, index);
    var retired', retiredAt' := retired + [spawnPoints[index]], retiredAt + [step];
    forall i, a: nat | 0 <= i < |retired'| && a < samplesBeforeRejection
      ensures Blocked(retired'[i].Plus(dart(retiredAt'[i], a)), radius, regionSize, points)
    {
      if i < |retired| {
        assert retired'[i] == retired[i] && retiredAt'[i] == retiredAt[i];
      }
    }
  }

  // ---------------------------------------------------------------------------------------
  // Why the grid test is enough

  /** A candidate far enough from every point keeps the points separated when appended. */
  lemma {:induction false} SeparatedAppend(points: seq<Vec2>, candidate: Vec2, radius: real)
    requires Separated(points, radius)
    requires forall k :: 0 <= k < |points| ==> radius * radius <= SqrDistance(points[k], candidate)
    ensures Separated(points + [candidate], radius)
  {
    var extended := points + [candidate];
    forall i, j | 0 <= i < j < |extended|
      ensures radius * radius <= SqrDistance(extended[i], extended[j])
    {
      assert extended[i] == points[i];
      if j < |points| {
        assert extended[j] == points[j];
      }
    }
  }

  /** A point of the region falls in a cell of the grid. */
  lemma {:induction false} CellInGrid(v: real, size: real, cellSize: real)
    requires 0.0 < cellSize && 0.0 <= v < size
    ensures 0 <= Cell(v, cellSize) < GridLength(size, cellSize)
  {
    assert v / cellSize * cellSize == v && size / cellSize * cellSize == size;
    MulStrictRev(v / cellSize, size / cellSize, cellSize);
  }

  /** Two points in the same cell are closer than the cell's diagonal, which is `radius`. */
  lemma {:induction false} SameCellIsClose(a: Vec2, b: Vec2, cellSize: real)
    requires 0.0 < cellSize
    requires Cell(a.x, cellSize) == Cell(b.x, cellSize) && Cell(a.y, cellSize) == Cell(b.y, cellSize)
    ensures SqrDistance(a, b) < 2.0 * (cellSize * cellSize)
  {
    var dx, dy := a.x - b.x, a.y - b.y;
    calc {
      SqrDistance(a, b);
      dx * dx + dy * dy;
    < { SameFloorIsClose(a.x, b.x, cellSize); }
      cellSize * cellSize + dy * dy;
    < { SameFloorIsClose(a.y, b.y, cellSize); }
      cellSize * cellSize + cellSize * cellSize;
      2.0 * (cellSize * cellSize);
    }
  }

  /** Coordinates in the same column are less than a cell apart. */
  lemma {:induction false} SameFloorIsClose(u: real, v: real, cellSize: real)
    requires 0.0 < cellSize && Cell(u, cellSize) == Cell(v, cellSize)
    ensures (u - v) * (u - v) < cellSize * cellSize
  {
    ScaledFloor(u, cellSize);
    ScaledFloor(v, cellSize);
    var k := Cell(u, cellSize) as real;
    assert (k + 1.0) * cellSize == k * cellSize + cellSize;
    var d := if u >= v then u - v else v - u;
    assert 0.0 <= d < cellSize;
    calc {
      (u - v) * (u - v);
      d * d;
    < { SquareBelow(d, cellSize); }
      cellSize * cellSize;
    }
  }

  /** Coordinates more than two columns apart are at least two cells apart. */
  lemma {:induction false} FarCellsAreFar(u: real, v: real, cellSize: real)
    requires 0.0 < cellSize
    requires Cell(u, cellSize) - Cell(v, cellSize) > 2 || Cell(u, cellSize) - Cell(v, cellSize) < -2
    ensures 4.0 * (cellSize * cellSize) <= (u - v) * (u - v)
  {
    ScaledFloor(u, cellSize);
    ScaledFloor(v, cellSize);
    var cu, cv := Cell(u, cellSize) as real, Cell(v, cellSize) as real;
    assert (cu + 1.0) * cellSize == cu * cellSize + cellSize;
    assert (cv + 1.0) * cellSize == cv * cellSize + cellSize;
    // d: the distance, the larger column minus the smaller one
    var d, gap := if cu > cv then u - v else v - u, if cu > cv then cu - cv else cv - cu;
    assert 3.0 <= gap;
    calc {
      2.0 * cellSize;
    <= { MulWeak(2.0, gap - 1.0, cellSize); }
      (gap - 1.0) * cellSize;
      gap * cellSize - cellSize;
    <= d;
    }
    calc {
      4.0 * (cellSize * cellSize);
      (2.0 * cellSize) * (2.0 * cellSize);
    <= { SquareAtLeast(2.0 * cellSize, d); }
      d * d;
      (u - v) * (u - v);
    }
  }

  /** floor(v / c) * c <= v < (floor(v / c) + 1) * c */
  lemma ScaledFloor(v: real, cellSize: real)
    requires 0.0 < cellSize
    ensures Cell(v, cellSize) as real * cellSize <= v < (Cell(v, cellSize) as real + 1.0) * cellSize
  {
    var q := v / cellSize;
    var f := Cell(v, cellSize) as real;
    assert f <= q < f + 1.0;
    calc {
      f * cellSize;
    <= { MulWeak(f, q, cellSize); }
      q * cellSize;
      v;
    }
    calc {
      v;
      q * cellSize;
    < { MulStrict(q, f + 1.0, cellSize); }
      (f + 1.0) * cellSize;
    }
  }

  /** A point recorded in the candidate's own cell would be closer than `radius`. */
  lemma {:induction false} RecordedInCellIsClose(grid: array2<int>, points: seq<Vec2>, candidate: Vec2,
                                                 regionSize: Vec2, cellSize: real)
    requires GridInvariant(grid, points, cellSize, regionSize)
    requires 0 <= Cell(candidate.x, cellSize) < grid.Length0 && 0 <= Cell(candidate.y, cellSize) < grid.Length1
    ensures var k := grid[Cell(candidate.x, cellSize), Cell(candidate.y, cellSize)];
      k != 0 ==> SqrDistance(points[k - 1], candidate) < 2.0 * (cellSize * cellSize)
  {
    var k := grid[Cell(candidate.x, cellSize), Cell(candidate.y, cellSize)];
    if k != 0 {
      SameCellIsClose(points[k - 1], candidate, cellSize);
    }
  }

  /** An accepted candidate keeps `radius` from every point placed so far: a closer point
      would lie in a scanned cell, which records it. */
  lemma {:induction false} AcceptedIsFarFromAll(grid: array2<int>, points: seq<Vec2>, candidate: Vec2,
                                                radius: real, regionSize: Vec2, cellSize: real)
    requires GridInvariant(grid, points, cellSize, regionSize) && 2.0 * (cellSize * cellSize) == radius * radius
    requires Accepts(candidate, radius, regionSize, cellSize, points, grid)
    ensures forall k :: 0 <= k < |points| ==> radius * radius <= SqrDistance(points[k], candidate)
  {
    CellInGrid(candidate.x, regionSize.x, cellSize);
    CellInGrid(candidate.y, regionSize.y, cellSize);
    forall k | 0 <= k < |points|
      ensures radius * radius <= SqrDistance(points[k], candidate)
    {
      FarFromOne(grid, points, candidate, radius, regionSize, cellSize, k);
    }
  }

  lemma {:induction false} FarFromOne(grid: array2<int>, points: seq<Vec2>, candidate: Vec2,
                                      radius: real, regionSize: Vec2, cellSize: real, k: int)
    requires GridInvariant(grid, points, cellSize, regionSize) && 2.0 * (cellSize * cellSize) == radius * radius
    requires Accepts(candidate, radius, regionSize, cellSize, points, grid)
    requires 0 <= Cell(candidate.x, cellSize) < grid.Length0 && 0 <= Cell(candidate.y, cellSize) < grid.Length1
    requires 0 <= k < |points|
    ensures radius * radius <= SqrDistance(points[k], candidate)
  {
    var p := points[k];
    var x, y := Cell(p.x, cellSize), Cell(p.y, cellSize);
    var dx, dy := x - Cell(candidate.x, cellSize), y - Cell(candidate.y, cellSize);
    assert 0 <= x < grid.Length0 && 0 <= y < grid.Length1 && grid[x, y] == k + 1;
    if -2 <= dx <= 2 && -2 <= dy <= 2 {
      ScannedIsFar(grid, points, candidate, radius, regionSize, cellSize, x, y);
    } else {
      FarCellIsFar(p, candidate, radius, cellSize);
    }
  }

  /** A point recorded in a scanned cell keeps `radius` from an accepted candidate. */
  lemma {:induction false} ScannedIsFar(grid: array2<int>, points: seq<Vec2>, candidate: Vec2,
                                        radius: real, regionSize: Vec2, cellSize: real, x: int, y: int)
    requires cellSize != 0.0 && EntriesInRange(grid, |points|)
    requires Accepts(candidate, radius, regionSize, cellSize, points, grid)
    requires 0 <= x < grid.Length0 && 0 <= y < grid.Length1
    requires -2 <= x - Cell(candidate.x, cellSize) <= 2 && -2 <= y - Cell(candidate.y, cellSize) <= 2
    ensures grid[x, y] != 0 ==> radius * radius <= SqrDistance(points[grid[x, y] - 1], candidate)
  {
    var cellX, cellY := Cell(candidate.x, cellSize), Cell(candidate.y, cellSize);
    assert ScanStart(cellX) <= x <= ScanEnd(cellX, grid.Length0);
    assert ScanStart(cellY) <= y <= ScanEnd(cellY, grid.Length1);
  }

  /** Points whose columns (or rows) are more than two apart are at least `radius` apart. */
  lemma {:induction false} FarCellIsFar(p: Vec2, q: Vec2, radius: real, cellSize: real)
    requires 0.0 < cellSize && 2.0 * (cellSize * cellSize) == radius * radius
    requires !(-2 <= Cell(p.x, cellSize) - Cell(q.x, cellSize) <= 2 && -2 <= Cell(p.y, cellSize) - Cell(q.y, cellSize) <= 2)
    ensures radius * radius <= SqrDistance(p, q)
  {
    if !(-2 <= Cell(p.x, cellSize) - Cell(q.x, cellSize) <= 2) {
      FarCoordinate(p.x, q.x, p.y - q.y, radius, cellSize);
    } else {
      FarCoordinate(p.y, q.y, p.x - q.x, radius, cellSize);
    }
  }

  /** One coordinate more than two cells away already gives `radius`, whatever the other. */
  lemma {:induction false} FarCoordinate(u: real, v: real, other: real, radius: real, cellSize: real)
    requires 0.0 < cellSize && 2.0 * (cellSize * cellSize) == radius * radius
    requires Cell(u, cellSize) - Cell(v, cellSize) > 2 || Cell(u, cellSize) - Cell(v, cellSize) < -2
    ensures radius * radius <= (u - v) * (u - v) + other * other
    ensures radius * radius <= other * other + (u - v) * (u - v)
  {
    var cc := cellSize * cellSize;
    FarCellsAreFar(u, v, cellSize);
    SquareNonNegative(u - v);
    SquareNonNegative(other);
    SumAtLeast(2.0 * cc, 4.0 * cc, (u - v) * (u - v), other * other);
  }

  lemma SumAtLeast(low: real, big: real, a: real, b: real)
    requires 0.0 <= low <= big && 0.0 <= a && 0.0 <= b && (big <= a || big <= b)
    ensures low <= a + b && low <= b + a
  {
  }

  /** The cell of an accepted candidate is empty: a point recorded there would share the
      cell and so be closer than `radius`. Hence each cell receives at most one point. */
  lemma {:induction false} AcceptedCellIsEmpty(grid: array2<int>, points: seq<Vec2>, candidate: Vec2,
                                               radius: real, regionSize: Vec2, cellSize: real)
    requires GridInvariant(grid, points, cellSize, regionSize) && 2.0 * (cellSize * cellSize) == radius * radius
    requires Accepts(candidate, radius, regionSize, cellSize, points, grid)
    ensures 0 <= Cell(candidate.x, cellSize) < grid.Length0 && 0 <= Cell(candidate.y, cellSize) < grid.Length1
    ensures grid[Cell(candidate.x, cellSize), Cell(candidate.y, cellSize)] == 0
  {
    CellInGrid(candidate.x, regionSize.x, cellSize);
    CellInGrid(candidate.y, regionSize.y, cellSize);
    var cellX, cellY := Cell(candidate.x, cellSize), Cell(candidate.y, cellSize);
    ScannedIsFar(grid, points, candidate, radius, regionSize, cellSize, cellX, cellY);
    RecordedInCellIsClose(grid, points, candidate, regionSize, cellSize);
    NotBoth(points, grid[cellX, cellY], candidate, radius * radius, cellSize * cellSize);
  }

  /** An occupant cannot be both closer than `2 * cc` and at least `rr == 2 * cc` away. */
  lemma NotBoth(points: seq<Vec2>, k: int, candidate: Vec2, rr: real, cc: real)
    requires 0 <= k <= |points| && rr == 2.0 * cc
    requires k != 0 ==> SqrDistance(points[k - 1], candidate) < 2.0 * cc
    requires k != 0 ==> rr <= SqrDistance(points[k - 1], candidate)
    ensures k == 0
  {
  }
}
