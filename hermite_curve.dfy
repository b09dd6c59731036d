/** Piecewise cubic Hermite evaluation along a chain of oriented nodes
    (Assets/Scripts/HermiteCurve.cs).

    Each segment runs from node k to node k+1 with end points `position` and tangent handles
    `forward * localScale.z`. The resampling methods fill `subdivisions + 1` slots: slot i < n
    evaluates the segment selected by `floor(i * (nodes - 1) / n)` at the fractional part of that
    parameter, and the last slot is overwritten with the last node's own data.

    `Vector3.normalized` needs a square root, which exact reals do not have; it is the
    parameter `normalize`, about which nothing is assumed. */
module HermiteCurve {
  import opened Geometry
  import opened Arith

  /** A Unity Transform, reduced to what the curve reads. */
  datatype Transform = Transform(position: Vec3, forward: Vec3, right: Vec3, up: Vec3, localScale: Vec3)

  /** Tangent handle of a node: `forward * localScale.z`. */
  function Handle(node: Transform): Vec3 {
    node.forward.Times(node.localScale.z)
  }

  // ---------------------------------------------------------------------------------------
  // The cubic Hermite basis and the tangent coefficients, with t2 = t*t and t3 = t2*t

  function H00(t: real): real { 2.0 * (t * t * t) - 3.0 * (t * t) + 1.0 }
  function H10(t: real): real { t * t * t - 2.0 * (t * t) + t }
  function H01(t: real): real { -2.0 * (t * t * t) + 3.0 * (t * t) }
  function H11(t: real): real { t * t * t - t * t }

  function D00(t: real): real { 6.0 * (t * t) - 6.0 * t }
  function D10(t: real): real { 3.0 * (t * t) - 4.0 * t + 1.0 }
  function D01(t: real): real { -6.0 * (t * t) + 6.0 * t }
  function D11(t: real): real { 3.0 * (t * t) - 2.0 * t }

  function Combine(w0: real, p0: Vec3, w1: real, m0: Vec3, w2: real, p1: Vec3, w3: real, m1: Vec3): Vec3 {
    p0.Times(w0).Plus(m0.Times(w1)).Plus(p1.Times(w2)).Plus(m1.Times(w3))
  }

  /** The point expression: end points pA, pB with handles dirA, dirB at parameter t. */
  function Blend(pA: Vec3, dirA: Vec3, pB: Vec3, dirB: Vec3, t: real): Vec3 {
    Combine(H00(t), pA, H10(t), dirA, H01(t), pB, H11(t), dirB)
  }

  /** The tangent expression (before normalisation). */
  function BlendTangent(pA: Vec3, dirA: Vec3, pB: Vec3, dirB: Vec3, t: real): Vec3 {
    Combine(D00(t), pA, D10(t), dirA, D01(t), pB, D11(t), dirB)
  }

  /** `GetPoint(from, to, t)`: the Hermite segment between two nodes. */
  function GetPoint(from: Transform, to: Transform, t: real): (p: Vec3)
    ensures t == 0.0 ==> p == from.position
    ensures t == 1.0 ==> p == to.position
  {
    Blend(from.position, Handle(from), to.position, Handle(to), t)
  }

  // ---------------------------------------------------------------------------------------
  // Properties of one segment

  /** The segment interpolates its end points, and its tangent expression takes the two
      handles at the ends: the Hermite conditions. */
  lemma HermiteConditions(pA: Vec3, dirA: Vec3, pB: Vec3, dirB: Vec3)
    ensures Blend(pA, dirA, pB, dirB, 0.0) == pA && Blend(pA, dirA, pB, dirB, 1.0) == pB
    ensures BlendTangent(pA, dirA, pB, dirB, 0.0) == dirA && BlendTangent(pA, dirA, pB, dirB, 1.0) == dirB
  {
    assert H00(0.0) == 1.0 && H10(0.0) == 0.0 && H01(0.0) == 0.0 && H11(0.0) == 0.0;
    assert H00(1.0) == 0.0 && H10(1.0) == 0.0 && H01(1.0) == 1.0 && H11(1.0) == 0.0;
    assert D00(0.0) == 0.0 && D10(0.0) == 1.0 && D01(0.0) == 0.0 && D11(0.0) == 0.0;
    assert D00(1.0) == 0.0 && D10(1.0) == 0.0 && D01(1.0) == 0.0 && D11(1.0) == 1.0;
    CombineSelects(pA, dirA, pB, dirB);
  }

  /** Unit weight vectors pick out one of the four vectors. */
  lemma CombineSelects(p0: Vec3, m0: Vec3, p1: Vec3, m1: Vec3)
    ensures Combine(1.0, p0, 0.0, m0, 0.0, p1, 0.0, m1) == p0
    ensures Combine(0.0, p0, 1.0, m0, 0.0, p1, 0.0, m1) == m0
    ensures Combine(0.0, p0, 0.0, m0, 1.0, p1, 0.0, m1) == p1
    ensures Combine(0.0, p0, 0.0, m0, 0.0, p1, 1.0, m1) == m1
  {
    assert p0.Times(0.0).Plus(m0.Times(0.0)).Plus(p1.Times(0.0)) == Zero3;
  }

  /** The two end-point weights always sum to one. */
  lemma EndWeightsSumToOne(t: real)
    ensures H00(t) + H01(t) == 1.0
  {
  }

  /** Second-order remainder weights: w(t+h) - w(t) - h*w'(t) == h*h*r(t,h) for each basis
      weight w, its tangent coefficient w' and the matching r below. */
  function R00(t: real, h: real): real { 6.0 * t - 3.0 + 2.0 * h }
  function R10(t: real, h: real): real { 3.0 * t - 2.0 + h }
  function R01(t: real, h: real): real { -6.0 * t + 3.0 - 2.0 * h }
  function R11(t: real, h: real): real { 3.0 * t - 1.0 + h }

  /** The tangent expression is the t-derivative of the point expression: moving the parameter
      by h moves the point by h times the tangent plus a term of order h*h. */
  lemma {:induction false} TangentIsDerivative(pA: Vec3, dirA: Vec3, pB: Vec3, dirB: Vec3, t: real, h: real)
    ensures Blend(pA, dirA, pB, dirB, t + h) ==
              Blend(pA, dirA, pB, dirB, t)
                .Plus(BlendTangent(pA, dirA, pB, dirB, t).Times(h))
                .Plus(Combine(R00(t, h), pA, R10(t, h), dirA, R01(t, h), pB, R11(t, h), dirB).Times(h * h))
  {
    var moved := Blend(pA, dirA, pB, dirB, t + h);
    var expanded := Blend(pA, dirA, pB, dirB, t)
                      .Plus(BlendTangent(pA, dirA, pB, dirB, t).Times(h))
                      .Plus(Combine(R00(t, h), pA, R10(t, h), dirA, R01(t, h), pB, R11(t, h), dirB).Times(h * h));
    TaylorCoordinate(pA, dirA, pB, dirB, t, h, 0);
    TaylorCoordinate(pA, dirA, pB, dirB, t, h, 1);
    TaylorCoordinate(pA, dirA, pB, dirB, t, h, 2);
    SameCoordinates(moved, expanded);
  }

  /** Coordinate c of a vector: 0 is x, 1 is y, anything else z. */
  function Coord(v: Vec3, c: int): real {
    if c == 0 then v.x else if c == 1 then v.y else v.z
  }

  lemma SameCoordinates(u: Vec3, v: Vec3)
    requires Coord(u, 0) == Coord(v, 0) && Coord(u, 1) == Coord(v, 1) && Coord(u, 2) == Coord(v, 2)
    ensures u == v
  {
  }

  lemma {:induction false} TaylorCoordinate(pA: Vec3, dirA: Vec3, pB: Vec3, dirB: Vec3, t: real, h: real, c: int)
    ensures Coord(Blend(pA, dirA, pB, dirB, t + h), c) ==
              Coord(Blend(pA, dirA, pB, dirB, t)
                      .Plus(BlendTangent(pA, dirA, pB, dirB, t).Times(h))
                      .Plus(Combine(R00(t, h), pA, R10(t, h), dirA, R01(t, h), pB, R11(t, h), dirB).Times(h * h)), c)
  {
    var base := Blend(pA, dirA, pB, dirB, t);
    var slope := BlendTangent(pA, dirA, pB, dirB, t);
    var bend := Combine(R00(t, h), pA, R10(t, h), dirA, R01(t, h), pB, R11(t, h), dirB);
    ShiftedCoordinate(pA, dirA, pB, dirB, t, h, c);
    BlendCoordinate(pA, dirA, pB, dirB, t, c);
    TangentCoordinate(pA, dirA, pB, dirB, t, c);
    CombineCoordinate(R00(t, h), pA, R10(t, h), dirA, R01(t, h), pB, R11(t, h), dirB, c);
    ScalarTaylor(t, h, Coord(pA, c), Coord(dirA, c), Coord(pB, c), Coord(dirB, c),
                 Coord(Blend(pA, dirA, pB, dirB, t + h), c), Coord(base, c), Coord(slope, c), Coord(bend, c));
    SecondOrderCoordinate(base, slope, bend, h, c);
  }

  lemma BlendCoordinate(pA: Vec3, dirA: Vec3, pB: Vec3, dirB: Vec3, t: real, c: int)
    ensures Coord(Blend(pA, dirA, pB, dirB, t), c) ==
              Coord(pA, c) * H00(t) + Coord(dirA, c) * H10(t) + Coord(pB, c) * H01(t) + Coord(dirB, c) * H11(t)
  {
    CombineCoordinate(H00(t), pA, H10(t), dirA, H01(t), pB, H11(t), dirB, c);
  }

  lemma ShiftedCoordinate(pA: Vec3, dirA: Vec3, pB: Vec3, dirB: Vec3, t: real, h: real, c: int)
    ensures Coord(Blend(pA, dirA, pB, dirB, t + h), c) ==
              Coord(pA, c) * H00(t + h) + Coord(dirA, c) * H10(t + h) + Coord(pB, c) * H01(t + h) + Coord(dirB, c) * H11(t + h)
  {
    CombineCoordinate(H00(t + h), pA, H10(t + h), dirA, H01(t + h), pB, H11(t + h), dirB, c);
  }

  lemma TangentCoordinate(pA: Vec3, dirA: Vec3, pB: Vec3, dirB: Vec3, t: real, c: int)
    ensures Coord(BlendTangent(pA, dirA, pB, dirB, t), c) ==
              Coord(pA, c) * D00(t) + Coord(dirA, c) * D10(t) + Coord(pB, c) * D01(t) + Coord(dirB, c) * D11(t)
  {
    CombineCoordinate(D00(t), pA, D10(t), dirA, D01(t), pB, D11(t), dirB, c);
  }

  lemma SecondOrderCoordinate(base: Vec3, slope: Vec3, bend: Vec3, h: real, c: int)
    ensures Coord(base.Plus(slope.Times(h)).Plus(bend.Times(h * h)), c) ==
              Coord(base, c) + Coord(slope, c) * h + Coord(bend, c) * (h * h)
  {
  }

  lemma CombineCoordinate(w0: real, p0: Vec3, w1: real, m0: Vec3, w2: real, p1: Vec3, w3: real, m1: Vec3, c: int)
    ensures Coord(Combine(w0, p0, w1, m0, w2, p1, w3, m1), c) ==
              Coord(p0, c) * w0 + Coord(m0, c) * w1 + Coord(p1, c) * w2 + Coord(m1, c) * w3
  {
    var v := Combine(w0, p0, w1, m0, w2, p1, w3, m1);
    if c == 0 {
      assert v.x == p0.x * w0 + m0.x * w1 + p1.x * w2 + m1.x * w3;
    } else if c == 1 {
      assert v.y == p0.y * w0 + m0.y * w1 + p1.y * w2 + m1.y * w3;
    } else {
      assert v.z == p0.z * w0 + m0.z * w1 + p1.z * w2 + m1.z * w3;
    }
  }

  /** One coordinate of TangentIsDerivative. */
  lemma {:induction false} ScalarTaylor(t: real, h: real, a: real, b: real, c: real, d: real,
                                        moved: real, base: real, slope: real, bend: real)
    requires moved == a * H00(t + h) + b * H10(t + h) + c * H01(t + h) + d * H11(t + h)
    requires base == a * H00(t) + b * H10(t) + c * H01(t) + d * H11(t)
    requires slope == a * D00(t) + b * D10(t) + c * D01(t) + d * D11(t)
    requires bend == a * R00(t, h) + b * R10(t, h) + c * R01(t, h) + d * R11(t, h)
    ensures moved == base + slope * h + bend * (h * h)
  {
    WeightExpansion(t, h);
    LinearTaylor(a, b, c, d, h,
                 H00(t + h), H10(t + h), H01(t + h), H11(t + h),
                 H00(t), H10(t), H01(t), H11(t),
                 D00(t), D10(t), D01(t), D11(t),
                 R00(t, h), R10(t, h), R01(t, h), R11(t, h),
                 moved, base, slope, bend);
  }

  /** ScalarTaylor with the weights as plain numbers. */
  lemma LinearTaylor(a: real, b: real, c: real, d: real, h: real,
                     v0: real, v1: real, v2: real, v3: real,
                     w0: real, w1: real, w2: real, w3: real,
                     s0: real, s1: real, s2: real, s3: real,
                     r0: real, r1: real, r2: real, r3: real,
                     moved: real, base: real, slope: real, bend: real)
    requires v0 == w0 + h * s0 + h * h * r0 && v1 == w1 + h * s1 + h * h * r1
    requires v2 == w2 + h * s2 + h * h * r2 && v3 == w3 + h * s3 + h * h * r3
    requires moved == a * v0 + b * v1 + c * v2 + d * v3
    requires base == a * w0 + b * w1 + c * w2 + d * w3
    requires slope == a * s0 + b * s1 + c * s2 + d * s3
    requires bend == a * r0 + b * r1 + c * r2 + d * r3
    ensures moved == base + slope * h + bend * (h * h)
  {
    ScaleExpansion(a, v0, w0, s0, r0, h);
    ScaleExpansion(b, v1, w1, s1, r1, h);
    ScaleExpansion(c, v2, w2, s2, r2, h);
    ScaleExpansion(d, v3, w3, s3, r3, h);
    Distribute(a * s0, b * s1, c * s2, d * s3, slope, h);
    Distribute(a * r0, b * r1, c * r2, d * r3, bend, h * h);
  }

  lemma Distribute(x0: real, x1: real, x2: real, x3: real, sum: real, k: real)
    requires sum == x0 + x1 + x2 + x3
    ensures sum * k == x0 * k + x1 * k + x2 * k + x3 * k
  {
  }

  lemma ScaleExpansion(a: real, w': real, w: real, dw: real, r: real, h: real)
    requires w' == w + h * dw + h * h * r
    ensures a * w' == a * w + (a * dw) * h + (a * r) * (h * h)
  {
  }

  lemma WeightExpansion(t: real, h: real)
    ensures H00(t + h) == H00(t) + h * D00(t) + h * h * R00(t, h)
    ensures H10(t + h) == H10(t) + h * D10(t) + h * h * R10(t, h)
    ensures H01(t + h) == H01(t) + h * D01(t) + h * h * R01(t, h)
    ensures H11(t + h) == H11(t) + h * D11(t) + h * h * R11(t, h)
  {
  }

  /** With both handles equal to the chord pB - pA the segment is the straight line from pA
      to pB at uniform speed. */
  lemma ChordHandlesGiveUniformLine(pA: Vec3, pB: Vec3, t: real)
    ensures Blend(pA, pB.Minus(pA), pB, pB.Minus(pA), t) == pA.Plus(pB.Minus(pA).Times(t))
  {
  }

  /** With zero handles the segment stays on the line through pA and pB but moves along it
      with weight H01(t), not t. */
  lemma ZeroHandlesFollowSmoothStep(pA: Vec3, pB: Vec3, t: real)
    ensures Blend(pA, Zero3, pB, Zero3, t) == pA.Plus(pB.Minus(pA).Times(H01(t)))
  {
  }

  /** The curve through anchors displaced by node up vectors minus the curve itself is the
      blend of the two up vectors with the end-point weights: the "up direction at t". */
  lemma {:induction false} UpOffsetIsBlendedUp(pA: Vec3, dirA: Vec3, upA: Vec3, pB: Vec3, dirB: Vec3, upB: Vec3, t: real)
    ensures Blend(pA.Plus(upA), dirA, pB.Plus(upB), dirB, t).Minus(Blend(pA, dirA, pB, dirB, t)) ==
              upA.Times(H00(t)).Plus(upB.Times(H01(t)))
  {
  }

  // ---------------------------------------------------------------------------------------
  // Segment selection for slot i of n over a chain of `count` nodes

  /** `1f * i / subdivisions * (nodes.Length - 1)` */
  function GlobalT(i: int, n: int, count: int): real
    requires n != 0
  {
    (i as real / n as real) * (count - 1) as real
  }

  /** `Mathf.FloorToInt(t)` */
  function SegmentIndex(i: int, n: int, count: int): int
    requires n != 0
  {
    GlobalT(i, n, count).Floor
  }

  /** `t %= 1f` on the non-negative global parameter. */
  function LocalT(i: int, n: int, count: int): real
    requires n != 0
  {
    GlobalT(i, n, count) - SegmentIndex(i, n, count) as real
  }

  /** For two or more nodes every slot before the last selects an existing segment
      (`nodes[idx + 1]` exists) at a local parameter in [0, 1). */
  lemma {:induction false} SegmentInRange(i: int, n: int, count: int)
    requires 0 <= i < n && 2 <= count
    ensures 0 <= SegmentIndex(i, n, count) <= count - 2
    ensures 0.0 <= LocalT(i, n, count) < 1.0
  {
    var a, nr, m := i as real / n as real, n as real, (count - 1) as real;
    assert a * nr == i as real;
    MulStrictRev(a, 1.0, nr);
    if a < 0.0 {
      MulStrict(a, 0.0, nr);
    }
    MulStrict(a, 1.0, m);
    MulWeak(0.0, a, m);
    assert GlobalT(i, n, count) == a * m;
  }

  /** A slot whose global parameter is exactly the node number k gets node k's anchor. */
  lemma {:induction false} SampleOnNode(nodes: seq<Transform>, anchors: seq<Vec3>, n: int, i: int, k: int)
    requires |anchors| == |nodes| >= 2 && 0 <= i < n
    requires i * (|nodes| - 1) == k * n
    ensures 0 <= k <= |nodes| - 2
    ensures SamplePoint(nodes, anchors, n, i) == anchors[k]
  {
    var m := (|nodes| - 1) as real;
    assert (i as real) * m == (k as real) * (n as real);
    assert GlobalT(i, n, |nodes|) == k as real by {
      assert (i as real / n as real) * m == (i as real) * m / (n as real);
    }
    SegmentInRange(i, n, |nodes|);
    assert SegmentIndex(i, n, |nodes|) == k;
    assert LocalT(i, n, |nodes|) == 0.0;
    HermiteConditions(anchors[k], Handle(nodes[k]), anchors[k + 1], Handle(nodes[k + 1]));
  }

  // ---------------------------------------------------------------------------------------
  // Samples of a node chain

  /** Node positions: the anchors of the plain resampling. */
  function Positions(nodes: seq<Transform>): (r: seq<Vec3>)
    ensures |r| == |nodes|
  {
    seq(|nodes|, k requires 0 <= k < |nodes| => nodes[k].position)
  }

  /** Interior anchor of a node for a lateral offset: the offset is scaled by the node's
      lateral scale and taken along its right and up vectors. */
  function Anchor(node: Transform, offset: Vec2): Vec3 {
    node.position
      .Plus(node.right.Times(node.localScale.x).Times(offset.x))
      .Plus(node.up.Times(node.localScale.y).Times(offset.y))
  }

  function OffsetAnchors(nodes: seq<Transform>, offset: Vec2): (r: seq<Vec3>)
    ensures |r| == |nodes|
  {
    seq(|nodes|, k requires 0 <= k < |nodes| => Anchor(nodes[k], offset))
  }

  /** The last point of the offset resampling: the offset along right and up WITHOUT the
      node's lateral scale. */
  function EndAnchor(node: Transform, offset: Vec2): Vec3 {
    node.position.Plus(node.right.Times(offset.x)).Plus(node.up.Times(offset.y))
  }

  /** Point of slot i < n of the curve through `anchors`. */
  function SamplePoint(nodes: seq<Transform>, anchors: seq<Vec3>, n: int, i: int): Vec3
    requires |anchors| == |nodes| >= 2 && 0 <= i < n
  {
    SegmentInRange(i, n, |nodes|);
    var k, t := SegmentIndex(i, n, |nodes|), LocalT(i, n, |nodes|);
    Blend(anchors[k], Handle(nodes[k]), anchors[k + 1], Handle(nodes[k + 1]), t)
  }

  /** Tangent of slot i < n: the normalised tangent expression. */
  function SampleTangent(nodes: seq<Transform>, anchors: seq<Vec3>, n: int, i: int, normalize: Vec3 -> Vec3): Vec3
    requires |anchors| == |nodes| >= 2 && 0 <= i < n
  {
    SegmentInRange(i, n, |nodes|);
    var k, t := SegmentIndex(i, n, |nodes|), LocalT(i, n, |nodes|);
    normalize(BlendTangent(anchors[k], Handle(nodes[k]), anchors[k + 1], Handle(nodes[k + 1]), t))
  }

  /** Normal of slot i < n: the curve through the anchors moved by each node's up vector
      gives an up direction; the normal is normalize(up x tangent). */
  function SampleNormal(nodes: seq<Transform>, anchors: seq<Vec3>, n: int, i: int, normalize: Vec3 -> Vec3): Vec3
    requires |anchors| == |nodes| >= 2 && 0 <= i < n
  {
    SegmentInRange(i, n, |nodes|);
    var k, t := SegmentIndex(i, n, |nodes|), LocalT(i, n, |nodes|);
    var upPoint := Blend(anchors[k].Plus(nodes[k].up), Handle(nodes[k]), anchors[k + 1].Plus(nodes[k + 1].up), Handle(nodes[k + 1]), t);
    var up := upPoint.Minus(SamplePoint(nodes, anchors, n, i));
    normalize(Cross(up, SampleTangent(nodes, anchors, n, i, normalize)))
  }

  /** The two-node form samples the same points as the node-chain form over [from, to]. */
  lemma {:induction false} TwoNodeChain(from: Transform, to: Transform, n: int, i: int)
    requires 0 <= i < n
    ensures SamplePoint([from, to], Positions([from, to]), n, i) == GetPoint(from, to, i as real / n as real)
  {
    SegmentInRange(i, n, 2);
    assert GlobalT(i, n, 2) == i as real / n as real;
    assert SegmentIndex(i, n, 2) == 0;
  }

  /** Slot 0 of every resampling is the first anchor. */
  lemma FirstSample(nodes: seq<Transform>, anchors: seq<Vec3>, n: int)
    requires |anchors| == |nodes| >= 2 && 0 < n
    ensures SamplePoint(nodes, anchors, n, 0) == anchors[0]
  {
    SampleOnNode(nodes, anchors, n, 0, 0);
  }

  /** A zero offset leaves every anchor, and the end point, on the node position. */
  lemma {:induction false} ZeroOffset(nodes: seq<Transform>)
    ensures OffsetAnchors(nodes, Zero2) == Positions(nodes)
    ensures forall k :: 0 <= k < |nodes| ==> EndAnchor(nodes[k], Zero2) == nodes[k].position
  {
    assert forall k :: 0 <= k < |nodes| ==> OffsetAnchors(nodes, Zero2)[k] == Positions(nodes)[k];
  }

  /** The offset end point is the interior anchor the node would have with lateral scale 1;
      with an axis-aligned frame, a sideways offset and a lateral x-scale other than 1 the
      two differ (EndAnchorDisplacement gives the difference in general). */
  lemma {:induction false} EndAnchorIgnoresScale(node: Transform, offset: Vec2)
    ensures EndAnchor(node, offset) == Anchor(node.(localScale := Vec3(1.0, 1.0, node.localScale.z)), offset)
    ensures (node.right == Vec3(1.0, 0.0, 0.0) && node.up == Vec3(0.0, 1.0, 0.0) && offset.x != 0.0 &&
             node.localScale.x != 1.0) ==> EndAnchor(node, offset) != Anchor(node, offset)
  {
    if node.right == Vec3(1.0, 0.0, 0.0) && node.up == Vec3(0.0, 1.0, 0.0) && offset.x != 0.0 && node.localScale.x != 1.0 {
      assert EndAnchor(node, offset).x - Anchor(node, offset).x == offset.x * (1.0 - node.localScale.x);
      assert offset.x * (1.0 - node.localScale.x) != 0.0;
    }
  }

  /** The end point is displaced from the node's own interior anchor by
      `right * ((1 - scale.x) * offset.x) + up * ((1 - scale.y) * offset.y)`: the two agree
      exactly when that vector is zero. */
  lemma EndAnchorDisplacement(node: Transform, offset: Vec2)
    ensures EndAnchor(node, offset).Minus(Anchor(node, offset)) ==
              node.right.Times((1.0 - node.localScale.x) * offset.x).Plus(node.up.Times((1.0 - node.localScale.y) * offset.y))
  {
    var r, u, sx, sy, ox, oy := node.right, node.up, node.localScale.x, node.localScale.y, offset.x, offset.y;
    calc {
      EndAnchor(node, offset).Minus(Anchor(node, offset));
    == { AnchorDifference(node, offset); }
      r.Times(ox).Minus(r.Times(sx).Times(ox)).Plus(u.Times(oy).Minus(u.Times(sy).Times(oy)));
    == { ScaleGap(r, sx, ox); ScaleGap(u, sy, oy); }
      r.Times((1.0 - sx) * ox).Plus(u.Times((1.0 - sy) * oy));
    }
  }

  /** The two anchors share the position; they differ in the scaled offset terms. */
  lemma AnchorDifference(node: Transform, offset: Vec2)
    ensures EndAnchor(node, offset).Minus(Anchor(node, offset)) ==
              node.right.Times(offset.x).Minus(node.right.Times(node.localScale.x).Times(offset.x))
                .Plus(node.up.Times(offset.y).Minus(node.up.Times(node.localScale.y).Times(offset.y)))
  {
  }

  /** `v*o - (v*s)*o == v*((1 - s)*o)` */
  lemma ScaleGap(v: Vec3, s: real, o: real)
    ensures v.Times(o).Minus(v.Times(s).Times(o)) == v.Times((1.0 - s) * o)
  {
    TimesTimes(v, s, o);
    TimesMinus(v, o, s * o);
    assert o - s * o == (1.0 - s) * o;
  }

  // ---------------------------------------------------------------------------------------
  // The four resampling methods

  /** `GetPoints(from, to, subdivisions)` */
  method GetPointsBetween(from: Transform, to: Transform, subdivisions: int) returns (points: array<Vec3>)
    requires 0 <= subdivisions
    ensures fresh(points)
    ensures points.Length == subdivisions + 1
    ensures forall i :: 0 <= i < subdivisions ==> points[i] == GetPoint(from, to, i as real / subdivisions as real)
    ensures points[subdivisions] == to.position
    ensures 0 < subdivisions ==> points[0] == from.position
  {
    var pointA, pointB := from.position, to.position;
    var dirA, dirB := Handle(from), Handle(to);
    points := new Vec3[subdivisions + 1];
    for i := 0 to subdivisions
      invariant forall k :: 0 <= k < i ==> points[k] == GetPoint(from, to, k as real / subdivisions as real)
    {
      var t := 1.0 * i as real / subdivisions as real;
      points[i] := Blend(pointA, dirA, pointB, dirB, t);
    }
    points[subdivisions] := pointB;
  }

  /** `GetPoints(nodes, subdivisions)` */
  method GetPoints(nodes: seq<Transform>, subdivisions: int) returns (points: array<Vec3>)
    requires 0 <= subdivisions && 1 <= |nodes| && (0 < subdivisions ==> 2 <= |nodes|)
    ensures fresh(points)
    ensures points.Length == subdivisions + 1
    ensures forall i :: 0 <= i < subdivisions ==> points[i] == SamplePoint(nodes, Positions(nodes), subdivisions, i)
    ensures points[subdivisions] == nodes[|nodes| - 1].position
    ensures 0 < subdivisions ==> points[0] == nodes[0].position
  {
    points := new Vec3[subdivisions + 1];
    for i := 0 to subdivisions
      invariant forall k :: 0 <= k < i ==> points[k] == SamplePoint(nodes, Positions(nodes), subdivisions, k)
    {
      var t := 1.0 * i as real / subdivisions as real * (|nodes| - 1) as real;
      assert t == GlobalT(i, subdivisions, |nodes|);
      var idx := t.Floor;
      SegmentInRange(i, subdivisions, |nodes|);
      t := t - idx as real;
      var pointA, pointB := nodes[idx].position, nodes[idx + 1].position;
      var dirA, dirB := Handle(nodes[idx]), Handle(nodes[idx + 1]);
      points[i] := Blend(pointA, dirA, pointB, dirB, t);
    }
    points[subdivisions] := nodes[|nodes| - 1].position;
    if 0 < subdivisions {
      FirstSample(nodes, Positions(nodes), subdivisions);
    }
  }

  /** `GetPoints(nodes, subdivisions, out tangents, out normals)` */
  method GetPointsWithFrames(nodes: seq<Transform>, subdivisions: int, normalize: Vec3 -> Vec3)
    returns (points: array<Vec3>, tangents: array<Vec3>, normals: array<Vec3>)
    requires 0 <= subdivisions && 1 <= |nodes| && (0 < subdivisions ==> 2 <= |nodes|)
    ensures fresh(points) && fresh(tangents) && fresh(normals)
    ensures points != tangents && points != normals && tangents != normals
    ensures points.Length == tangents.Length == normals.Length == subdivisions + 1
    ensures forall i :: 0 <= i < subdivisions ==>
              points[i] == SamplePoint(nodes, Positions(nodes), subdivisions, i) &&
              tangents[i] == SampleTangent(nodes, Positions(nodes), subdivisions, i, normalize) &&
              normals[i] == SampleNormal(nodes, Positions(nodes), subdivisions, i, normalize)
    ensures points[subdivisions] == nodes[|nodes| - 1].position
    ensures tangents[subdivisions] == nodes[|nodes| - 1].forward
    ensures normals[subdivisions] == nodes[|nodes| - 1].right
    ensures 0 < subdivisions ==> points[0] == nodes[0].position
  {
    points, tangents, normals := ResampleWithFrames(nodes, Positions(nodes), subdivisions, normalize);
    points[subdivisions] := nodes[|nodes| - 1].position;
    tangents[subdivisions] := nodes[|nodes| - 1].forward;
    normals[subdivisions] := nodes[|nodes| - 1].right;
    if 0 < subdivisions {
      FirstSample(nodes, Positions(nodes), subdivisions);
    }
  }

  /** `GetPoints(nodes, offset, subdivisions, out tangents, out normals)` */
  method GetOffsetPointsWithFrames(nodes: seq<Transform>, offset: Vec2, subdivisions: int, normalize: Vec3 -> Vec3)
    returns (points: array<Vec3>, tangents: array<Vec3>, normals: array<Vec3>)
    requires 0 <= subdivisions && 1 <= |nodes| && (0 < subdivisions ==> 2 <= |nodes|)
    ensures fresh(points) && fresh(tangents) && fresh(normals)
    ensures points != tangents && points != normals && tangents != normals
    ensures points.Length == tangents.Length == normals.Length == subdivisions + 1
    ensures forall i :: 0 <= i < subdivisions ==>
              points[i] == SamplePoint(nodes, OffsetAnchors(nodes, offset), subdivisions, i) &&
              tangents[i] == SampleTangent(nodes, OffsetAnchors(nodes, offset), subdivisions, i, normalize) &&
              normals[i] == SampleNormal(nodes, OffsetAnchors(nodes, offset), subdivisions, i, normalize)
    ensures points[subdivisions] == EndAnchor(nodes[|nodes| - 1], offset)
    ensures tangents[subdivisions] == nodes[|nodes| - 1].forward
    ensures normals[subdivisions] == nodes[|nodes| - 1].right
    ensures 0 < subdivisions ==> points[0] == Anchor(nodes[0], offset)
  {
    points, tangents, normals := ResampleWithFrames(nodes, OffsetAnchors(nodes, offset), subdivisions, normalize);
    var last := nodes[|nodes| - 1];
    points[subdivisions] := last.position.Plus(last.right.Times(offset.x)).Plus(last.up.Times(offset.y));
    tangents[subdivisions] := last.forward;
    normals[subdivisions] := last.right;
    if 0 < subdivisions {
      FirstSample(nodes, OffsetAnchors(nodes, offset), subdivisions);
    }
  }

  /** The loop shared by the two frame-producing methods, over the anchors they use. */
  method ResampleWithFrames(nodes: seq<Transform>, anchors: seq<Vec3>, subdivisions: int, normalize: Vec3 -> Vec3)
    returns (points: array<Vec3>, tangents: array<Vec3>, normals: array<Vec3>)
    requires 0 <= subdivisions && 1 <= |nodes| && (0 < subdivisions ==> 2 <= |nodes|) && |anchors| == |nodes|
    ensures fresh(points) && fresh(tangents) && fresh(normals)
    ensures points != tangents && points != normals && tangents != normals
    ensures points.Length == tangents.Length == normals.Length == subdivisions + 1
    ensures forall i :: 0 <= i < subdivisions ==>
              points[i] == SamplePoint(nodes, anchors, subdivisions, i) &&
              tangents[i] == SampleTangent(nodes, anchors, subdivisions, i, normalize) &&
              normals[i] == SampleNormal(nodes, anchors, subdivisions, i, normalize)
  {
    points := new Vec3[subdivisions + 1];
    tangents := new Vec3[subdivisions + 1];
    normals := new Vec3[subdivisions + 1];
    for i := 0 to subdivisions
      invariant forall k :: 0 <= k < i ==>
                  points[k] == SamplePoint(nodes, anchors, subdivisions, k) &&
                  tangents[k] == SampleTangent(nodes, anchors, subdivisions, k, normalize) &&
                  normals[k] == SampleNormal(nodes, anchors, subdivisions, k, normalize)
    {
      var point, tangent, normal := FrameAt(nodes, anchors, subdivisions, i, normalize);
      points[i] := point;
      tangents[i] := tangent;
      normals[i] := normal;
    }
  }

  /** One pass of the frame loop's body: point, tangent and normal of slot i. */
  method FrameAt(nodes: seq<Transform>, anchors: seq<Vec3>, subdivisions: int, i: int, normalize: Vec3 -> Vec3)
    returns (point: Vec3, tangent: Vec3, normal: Vec3)
    requires |anchors| == |nodes| >= 2 && 0 <= i < subdivisions
    ensures point == SamplePoint(nodes, anchors, subdivisions, i)
    ensures tangent == SampleTangent(nodes, anchors, subdivisions, i, normalize)
    ensures normal == SampleNormal(nodes, anchors, subdivisions, i, normalize)
  {
    var t := 1.0 * i as real / subdivisions as real * (|nodes| - 1) as real;
    assert t == GlobalT(i, subdivisions, |nodes|);
    var idx := t.Floor;
    SegmentInRange(i, subdivisions, |nodes|);
    var pointFrom, pointTo := anchors[idx], anchors[idx + 1];
    var pointA, pointB := pointFrom, pointTo;
    var dirA, dirB := Handle(nodes[idx]), Handle(nodes[idx + 1]);
    t := t - idx as real;
    point := Blend(pointA, dirA, pointB, dirB, t);
    tangent := normalize(BlendTangent(pointA, dirA, pointB, dirB, t));
    pointA := pointFrom.Plus(nodes[idx].up);
    pointB := pointTo.Plus(nodes[idx + 1].up);
    var upPoint := Blend(pointA, dirA, pointB, dirB, t);
    var up := upPoint.Minus(point);
    normal := normalize(Cross(up, tangent));
  }
}
