/** The tube template asset (Assets/Scripts/TubeTemplate.cs): two clamped counts and the
    curve-independent mesh built from them.

    The mesh is a vertex list -- a head apex, `segments + 1` rings of `subdivisions` vertices,
    a tail apex -- and a flat triangle index list: a head fan, a strip of quads between each
    pair of consecutive rings, and a tail fan. Body vertices are not positions in space: they
    store (ring angle, 0, ring number) and a shader later maps them onto the curve.

    `GetMesh` is modelled twice: as the imperative loop of the source, with its running counter
    `idx`, and by closed-form functions (`Vertex`, `MeshTriangle`) giving every vertex and every
    triangle directly from its position in the list. The loop is proved to build exactly the
    closed form; the lemmas then state the topology in terms of rings and angular positions. */
module TubeMesh {
  import opened Geometry
  import opened Arith

  const MinSubdivisions := 2
  const MaxSubdivisions := 64
  const MinSegments := 4
  const MaxSegments := 1024

  /** Mathf.Clamp on ints: the nearest value of [min, max]. */
  function Clamp(value: int, min: int, max: int): (r: int)
    ensures min <= max ==> min <= r <= max
    ensures min <= value <= max ==> r == value
    ensures min <= max ==> (value < min ==> r == min) && (max < value ==> r == max)
  {
    if value < min then min else if value > max then max else value
  }

  // ---------------------------------------------------------------------------------------
  // Vertex layout

  /** Unity's Mathf.PI (the single-precision float nearest to pi), as an exact real. */
  const Pi: real := 3.1415927410125732421875

  /** The angle `Mathf.PI * 2 * j / n` stored for vertex `j` of a ring of `n` vertices. */
  function Phi(j: int, n: int): real
    requires n != 0
  {
    Pi * 2.0 * j as real / n as real
  }

  /** The head apex `(0, -1, 0)`, vertex 0. */
  function HeadVertex(): Vec3 {
    Vec3(0.0, -1.0, 0.0)
  }

  /** The tail apex `(0, 1, segments)`, the last vertex. */
  function TailVertex(segments: int): Vec3 {
    Vec3(0.0, 1.0, segments as real)
  }

  /** Vertices per ring: the inner vertex loop runs `subdivisions` times (never when negative). */
  function RingSize(subdivisions: int): nat {
    if subdivisions < 0 then 0 else subdivisions
  }

  /** Rings: the outer vertex loop runs `segments + 1` times (never when that is negative). */
  function RingCount(segments: int): nat {
    if segments + 1 < 0 then 0 else segments + 1
  }

  function VertexCount(subdivisions: int, segments: int): nat {
    RingCount(segments) * RingSize(subdivisions) + 2
  }

  /** Position in the vertex list of vertex `j` of ring `ring`. */
  function RingVertex(subdivisions: int, ring: int, j: int): int {
    1 + ring * RingSize(subdivisions) + j
  }

  /** Vertex `v` of the template, computed from `v` alone. */
  function Vertex(subdivisions: int, segments: int, v: int): Vec3
    requires 0 <= v < VertexCount(subdivisions, segments)
  {
    if v == 0 then HeadVertex()
    else if v == VertexCount(subdivisions, segments) - 1 then TailVertex(segments)
    else
      var n := RingSize(subdivisions);
      Vec3(Phi((v - 1) % n, n), 0.0, ((v - 1) / n) as real)
  }

  // ---------------------------------------------------------------------------------------
  // Triangle list

  datatype Triangle = Triangle(a: int, b: int, c: int) {
    predicate Uses(v: int) { a == v || b == v || c == v }
  }

  /** Triangle `t` of a flat index list: its entries 3t, 3t+1, 3t+2. */
  function TriangleAt(indices: seq<int>, t: int): Triangle
    requires 0 <= t && 3 * t + 3 <= |indices|
  {
    Triangle(indices[3 * t], indices[3 * t + 1], indices[3 * t + 2])
  }

  /** Triangles per fan, and quads per pair of rings: the fan loop emits `subdivisions - 1`
      triangles (none when that is not positive) and then the closing one. */
  function FanSize(subdivisions: int): nat {
    if subdivisions < 1 then 1 else subdivisions
  }

  /** Pairs of consecutive rings: the body loop runs `segments` times. */
  function SegmentCount(segments: int): nat {
    if segments < 0 then 0 else segments
  }

  function TriangleCount(subdivisions: int, segments: int): nat {
    2 * FanSize(subdivisions) + 2 * (SegmentCount(segments) * FanSize(subdivisions))
  }

  /** Cyclic successor of angular position `j` on a ring of `n` vertices. */
  function Next(j: int, n: int): int {
    if j + 1 == n then 0 else j + 1
  }

  /** Triangle `k` of the head fan. */
  function HeadTriangle(s: int, k: int): Triangle {
    if k < FanSize(s) - 1 then Triangle(0, k + 2, k + 1) else Triangle(0, 1, s)
  }

  /** Lower (`upper == false`) or upper triangle of body quad number `q`; the quad starts at
      vertex `1 + q`, and the last quad of each ring wraps back to the ring's first vertex. */
  function QuadTriangle(s: int, q: int, upper: bool): Triangle
    requires 0 <= q
  {
    var idx := 1 + q;
    if q % FanSize(s) < FanSize(s) - 1 then
      if upper then Triangle(idx + 1, idx + 1 + s, idx + s) else Triangle(idx, idx + 1, idx + s)
    else
      if upper then Triangle(idx + 1 - s, idx + 1, idx + s) else Triangle(idx, idx + 1 - s, idx + s)
  }

  /** Triangle `k` of the tail fan, whose first ring vertex is `first`. */
  function TailTriangle(s: int, first: int, k: int): Triangle {
    if k < FanSize(s) - 1 then Triangle(first + k, first + k + 1, first + s)
    else Triangle(first + s - 1, first, first + s)
  }

  /** Triangle `t` of the template, computed from `t` alone. */
  function MeshTriangle(s: int, g: int, t: int): Triangle
    requires 0 <= t < TriangleCount(s, g)
  {
    var f := FanSize(s);
    var body := 2 * (SegmentCount(g) * f);
    if t < f then HeadTriangle(s, t)
    else if t < f + body then QuadTriangle(s, (t - f) / 2, (t - f) % 2 == 1)
    else TailTriangle(s, 1 + SegmentCount(g) * f, t - f - body)
  }

  // ---------------------------------------------------------------------------------------
  // The asset

  class TubeTemplate {
    /** The serialized fields `_subdivisions` and `_segments`. */
    var rawSubdivisions: int
    var rawSegments: int

    constructor ()
      ensures rawSubdivisions == 6 && rawSegments == 256
    {
      rawSubdivisions := 6;
      rawSegments := 256;
    }

    /** The `subdivisions` getter. */
    function Subdivisions(): (r: int)
      reads this
      ensures MinSubdivisions <= r <= MaxSubdivisions
      ensures MinSubdivisions <= rawSubdivisions <= MaxSubdivisions ==> r == rawSubdivisions
    {
      Clamp(rawSubdivisions, MinSubdivisions, MaxSubdivisions)
    }

    /** The `segments` getter. */
    function Segments(): (r: int)
      reads this
      ensures MinSegments <= r <= MaxSegments
      ensures MinSegments <= rawSegments <= MaxSegments ==> r == rawSegments
    {
      Clamp(rawSegments, MinSegments, MaxSegments)
    }

    /** Clamps the raw fields in place; a second call changes nothing. */
    method OnValidate()
      modifies this
      ensures rawSubdivisions == old(Subdivisions()) && rawSegments == old(Segments())
      ensures Subdivisions() == rawSubdivisions && Segments() == rawSegments
      ensures old(Subdivisions() == rawSubdivisions && Segments() == rawSegments) ==>
                rawSubdivisions == old(rawSubdivisions) && rawSegments == old(rawSegments)
    {
      rawSubdivisions := Clamp(rawSubdivisions, MinSubdivisions, MaxSubdivisions);
      rawSegments := Clamp(rawSegments, MinSegments, MaxSegments);
    }

    /** Builds the vertex and index lists from the RAW fields, as the source does. */
    method GetMesh() returns (vertices: seq<Vec3>, indices: seq<int>)
      ensures |vertices| == VertexCount(rawSubdivisions, rawSegments)
      ensures forall v :: 0 <= v < |vertices| ==> vertices[v] == Vertex(rawSubdivisions, rawSegments, v)
      ensures |indices| == 3 * TriangleCount(rawSubdivisions, rawSegments)
      ensures forall t :: 0 <= t < TriangleCount(rawSubdivisions, rawSegments) ==>
                TriangleAt(indices, t) == MeshTriangle(rawSubdivisions, rawSegments, t)
    {
      vertices := BuildVertices(rawSubdivisions, rawSegments);
      indices := BuildIndices(rawSubdivisions, rawSegments);
    }
  }

  /** The vertex half of `GetMesh`: head, rings, tail. */
  method BuildVertices(s: int, g: int) returns (vertices: seq<Vec3>)
    ensures |vertices| == VertexCount(s, g)
    ensures forall v :: 0 <= v < |vertices| ==> vertices[v] == Vertex(s, g, v)
  {
    ghost var n := RingSize(s);
    vertices := [HeadVertex()];
    var i := 0;
    while i < g + 1
      invariant 0 <= i <= RingCount(g)
      invariant |vertices| == 1 + i * n
      invariant Placed(s, g, vertices)
    {
      var j := 0;
      while j < s
        invariant 0 <= j <= n
        invariant |vertices| == 1 + i * n + j
        invariant Placed(s, g, vertices)
      {
        PlaceRingVertex(s, g, vertices, i, j);
        vertices := vertices + [Vec3(Phi(j, s), 0.0, i as real)];
        j := j + 1;
      }
      MulSucc(i, n);
      i := i + 1;
    }
    assert |vertices| == VertexCount(s, g) - 1;
    vertices := vertices + [TailVertex(g)];
  }

  /** `vertices` holds the first |vertices| vertices of the template. */
  ghost predicate Placed(s: int, g: int, vertices: seq<Vec3>) {
    |vertices| <= VertexCount(s, g) &&
    forall v :: 0 <= v < |vertices| ==> vertices[v] == Vertex(s, g, v)
  }

  /** Appending vertex j of ring i at its slot keeps `Placed`. */
  lemma PlaceRingVertex(s: int, g: int, vertices: seq<Vec3>, i: int, j: int)
    requires Placed(s, g, vertices) && 0 <= i < RingCount(g) && 0 <= j < RingSize(s)
    requires |vertices| == 1 + i * RingSize(s) + j
    ensures Placed(s, g, vertices + [Vec3(Phi(j, s), 0.0, i as real)])
  {
    RingVertexLayout(s, g, i, j);
    var next := vertices + [Vec3(Phi(j, s), 0.0, i as real)];
    forall v | 0 <= v < |next|
      ensures next[v] == Vertex(s, g, v)
    {
      if v < |vertices| {
        assert next[v] == vertices[v];
      }
    }
  }

  /** `indices` holds exactly the first `n` triangles of the template. */
  ghost predicate Emitted(s: int, g: int, indices: seq<int>, n: int) {
    0 <= n <= TriangleCount(s, g) && |indices| == 3 * n &&
    forall t :: 0 <= t < n ==> TriangleAt(indices, t) == MeshTriangle(s, g, t)
  }

  /** The index half of `GetMesh`: head fan, body strips, tail fan. */
  method BuildIndices(s: int, g: int) returns (indices: seq<int>)
    ensures |indices| == 3 * TriangleCount(s, g)
    ensures forall t :: 0 <= t < TriangleCount(s, g) ==> TriangleAt(indices, t) == MeshTriangle(s, g, t)
  {
    indices := AppendHeadFan(s, g);
    var idx;
    indices, idx := AppendBody(s, g, indices);
    indices := AppendTailFan(s, g, indices, idx);
  }

  /** The head loop of `GetMesh`: one triangle per ring-0 vertex around the head apex, the
      last closing the ring. */
  method AppendHeadFan(s: int, g: int) returns (indices: seq<int>)
    ensures Emitted(s, g, indices, FanSize(s))
  {
    indices := [];
    var i := 0;
    while i < s - 1
      invariant 0 <= i <= FanSize(s) - 1
      invariant Emitted(s, g, indices, i)
    {
      EmitTriangle(s, g, indices, i, Triangle(0, i + 2, i + 1));
      indices := indices + [0, i + 2, i + 1];
      i := i + 1;
    }
    EmitTriangle(s, g, indices, i, Triangle(0, 1, s));
    indices := indices + [0, 1, s];
  }

  /** The tail loop of `GetMesh`: one triangle per last-ring vertex around the tail apex,
      starting from the counter `idx` left by the body loop. */
  method AppendTailFan(s: int, g: int, body: seq<int>, idx: int) returns (indices: seq<int>)
    requires idx == 1 + SegmentCount(g) * FanSize(s)
    requires Emitted(s, g, body, FanSize(s) + 2 * (idx - 1))
    ensures |indices| == 3 * TriangleCount(s, g)
    ensures forall t :: 0 <= t < TriangleCount(s, g) ==> TriangleAt(indices, t) == MeshTriangle(s, g, t)
  {
    ghost var head := FanSize(s) + 2 * (SegmentCount(g) * FanSize(s));
    indices := body;
    var i := 0;
    while i < s - 1
      invariant 0 <= i <= FanSize(s) - 1
      invariant Emitted(s, g, indices, head + i)
    {
      TailStep(s, g, i);
      EmitTriangle(s, g, indices, head + i, Triangle(idx + i, idx + i + 1, idx + s));
      indices := indices + [idx + i, idx + i + 1, idx + s];
      i := i + 1;
    }
    TailStep(s, g, i);
    EmitTriangle(s, g, indices, head + i, Triangle(idx + s - 1, idx, idx + s));
    indices := indices + [idx + s - 1, idx, idx + s];
  }

  /** The body loop of `GetMesh`: one quad (two triangles) per ring vertex, the last quad of
      each ring wrapping around; returns the final value of the running counter `idx`. */
  method AppendBody(s: int, g: int, head: seq<int>) returns (indices: seq<int>, idx: int)
    requires Emitted(s, g, head, FanSize(s))
    ensures idx == 1 + SegmentCount(g) * FanSize(s)
    ensures Emitted(s, g, indices, FanSize(s) + 2 * (idx - 1))
  {
    ghost var f := FanSize(s);
    indices := head;
    idx := 1;
    var i := 0;
    while i < g
      invariant 0 <= i <= SegmentCount(g)
      invariant idx == 1 + i * f
      invariant Emitted(s, g, indices, f + 2 * (idx - 1))
    {
      indices, idx := AppendRing(s, g, i, indices, idx);
      i := i + 1;
    }
  }

  /** One pass of the body loop: the quads between rings i and i + 1, the last one wrapping. */
  method AppendRing(s: int, g: int, i: int, before: seq<int>, start: int) returns (indices: seq<int>, idx: int)
    requires 0 <= i < SegmentCount(g) && start == 1 + i * FanSize(s)
    requires Emitted(s, g, before, FanSize(s) + 2 * (start - 1))
    ensures idx == 1 + (i + 1) * FanSize(s)
    ensures Emitted(s, g, indices, FanSize(s) + 2 * (idx - 1))
  {
    ghost var f := FanSize(s);
    indices, idx := before, start;
    var j := 0;
    while j < s - 1
      invariant 0 <= j <= f - 1
      invariant idx == 1 + i * f + j
      invariant Emitted(s, g, indices, f + 2 * (idx - 1))
    {
      RingQuad(s, g, i, j, indices, idx);
      indices := indices + [idx, idx + 1, idx + s, idx + 1, idx + 1 + s, idx + s];
      idx := idx + 1;
      j := j + 1;
    }
    RingQuad(s, g, i, j, indices, idx);
    indices := indices + [idx, idx + 1 - s, idx + s, idx + 1 - s, idx + 1, idx + s];
    idx := idx + 1;
    MulSucc(i, f);
  }

  // ---------------------------------------------------------------------------------------
  // Topology of the template

  /** Vertex `j` of ring `ring` sits at `1 + ring*subdivisions + j` and stores
      (angle of j, 0, ring); only the two apexes lie outside the rings. */
  lemma {:induction false} RingVertexLayout(s: int, g: int, ring: int, j: int)
    requires 0 <= ring < RingCount(g) && 0 <= j < RingSize(s)
    ensures 0 < RingVertex(s, ring, j) < VertexCount(s, g) - 1
    ensures Vertex(s, g, RingVertex(s, ring, j)) == Vec3(Phi(j, s), 0.0, ring as real)
  {
    var n := RingSize(s);
    MulMonotone(ring, RingCount(g) - 1, n);
    assert (RingCount(g) - 1) * n == RingCount(g) * n - n;
    DivMod(ring, j, n);
  }

  /** For a non-empty ring and no negative count: (segments+1)*subdivisions + 2 vertices, the
      head apex first and the tail apex last, and 2*subdivisions + 2*segments*subdivisions
      triangles, so the index list has 3*(2*subdivisions + 2*segments*subdivisions) entries. */
  lemma MeshCounts(s: int, g: int)
    requires 1 <= s && 0 <= g
    ensures VertexCount(s, g) == (g + 1) * s + 2
    ensures Vertex(s, g, 0) == HeadVertex() && Vertex(s, g, VertexCount(s, g) - 1) == TailVertex(g)
    ensures 3 * TriangleCount(s, g) == 3 * (2 * s + 2 * (g * s))
  {
  }

  /** The angles of a ring go round once: they lie in [0, 2*pi) and grow with the position. */
  lemma {:induction false} RingAngles(j: int, k: int, n: int)
    requires 0 <= j < k < n
    ensures 0.0 <= Phi(j, n) < Phi(k, n) < Pi * 2.0
  {
    var step := Pi * 2.0 / n as real;
    assert 0.0 < step;
    assert Phi(j, n) == step * j as real && Phi(k, n) == step * k as real by {
      assert Pi * 2.0 * j as real / n as real == (Pi * 2.0 / n as real) * j as real;
      assert Pi * 2.0 * k as real / n as real == (Pi * 2.0 / n as real) * k as real;
    }
    assert step * n as real == Pi * 2.0;
    assert step * j as real < step * k as real by {
      assert step * k as real - step * j as real == step * (k - j) as real;
    }
    assert step * k as real < step * n as real by {
      assert step * n as real - step * k as real == step * (n - k) as real;
    }
  }

  /** Every triangle of the template is made of vertices of the template. */
  lemma {:induction false} IndicesInRange(s: int, g: int, t: int)
    requires 1 <= s && 0 <= g && 0 <= t < TriangleCount(s, g)
    ensures var tri := MeshTriangle(s, g, t);
      0 <= tri.a < VertexCount(s, g) && 0 <= tri.b < VertexCount(s, g) && 0 <= tri.c < VertexCount(s, g)
  {
    assert VertexCount(s, g) == g * s + s + 2 by { assert (g + 1) * s == g * s + s; }
    assert TriangleCount(s, g) == 2 * s + 2 * (g * s);
    if t < s {
      assert MeshTriangle(s, g, t) == HeadTriangle(s, t);
    } else if t < s + 2 * (g * s) {
      BodyInRange(s, g, t);
    } else {
      TailInRange(s, g, t);
    }
  }

  lemma {:induction false} TailInRange(s: int, g: int, t: int)
    requires 1 <= s && 0 <= g && s + 2 * (g * s) <= t < 2 * s + 2 * (g * s)
    ensures t < TriangleCount(s, g)
    ensures var tri := MeshTriangle(s, g, t);
      0 <= tri.a < g * s + s + 2 && 0 <= tri.b < g * s + s + 2 && 0 <= tri.c < g * s + s + 2
  {
    assert MeshTriangle(s, g, t) == TailTriangle(s, 1 + g * s, t - s - 2 * (g * s));
    MulMonotone(0, g, s);
  }

  lemma {:induction false} BodyInRange(s: int, g: int, t: int)
    requires 1 <= s && 0 <= g && s <= t < s + 2 * (g * s)
    ensures t < TriangleCount(s, g)
    ensures var tri := MeshTriangle(s, g, t);
      0 <= tri.a < g * s + s + 2 && 0 <= tri.b < g * s + s + 2 && 0 <= tri.c < g * s + s + 2
  {
    var q := (t - s) / 2;
    assert MeshTriangle(s, g, t) == QuadTriangle(s, q, (t - s) % 2 == 1);
    QuadInRange(s, g * s, q, (t - s) % 2 == 1);
  }

  /** Both halves of body quad q < quads use vertices 0 .. quads + s + 1. */
  lemma {:induction false} QuadInRange(s: int, quads: int, q: int, upper: bool)
    requires 1 <= s && 0 <= q < quads
    ensures var tri := QuadTriangle(s, q, upper);
      0 <= tri.a < quads + s + 2 && 0 <= tri.b < quads + s + 2 && 0 <= tri.c < quads + s + 2
  {
    if q % s == s - 1 {
      WrapIsNotFirst(q, s);
    }
  }

  /** Every vertex of the template is used by some triangle. */
  lemma {:induction false} EveryVertexUsed(s: int, g: int, v: int)
    requires 1 <= s && 0 <= g && 0 <= v < VertexCount(s, g)
    ensures exists t :: 0 <= t < TriangleCount(s, g) && MeshTriangle(s, g, t).Uses(v)
  {
    MulMonotone(0, g, s);
    assert TriangleCount(s, g) == 2 * s + 2 * (g * s);
    assert VertexCount(s, g) == g * s + s + 2 by { assert (g + 1) * s == g * s + s; }
    if v == 0 {
      HeadFan(s, g, 0);
      assert MeshTriangle(s, g, 0).Uses(v);
    } else if v <= s {
      HeadFan(s, g, v - 1);
      assert MeshTriangle(s, g, v - 1).Uses(v);
    } else if v < VertexCount(s, g) - 1 {
      UpperRingVertexUsed(s, g, v);
    } else {
      TailFan(s, g, 0);
      assert MeshTriangle(s, g, s + 2 * (g * s)).Uses(v);
    }
  }

  /** A vertex of rings 1..g closes the lower triangle of the quad right below it. */
  lemma UpperRingVertexUsed(s: int, g: int, v: int)
    requires 1 <= s && 0 <= g && s < v < g * s + s + 1
    ensures s + 2 * (v - 1 - s) < TriangleCount(s, g)
    ensures MeshTriangle(s, g, s + 2 * (v - 1 - s)).Uses(v)
  {
    var q := v - 1 - s;
    var t := s + 2 * q;
    assert (t - s) / 2 == q && (t - s) % 2 == 0;
  }

  /** The head fan: triangle k joins the head apex to ring-0 vertices k and Next(k);
      the last one, (0, 1, s), closes the ring. */
  lemma HeadFan(s: int, g: int, k: int)
    requires 1 <= s && 0 <= g && 0 <= k < s
    ensures MeshTriangle(s, g, k) == Triangle(0, RingVertex(s, 0, Next(k, s)), RingVertex(s, 0, k))
  {
  }

  /** The body: quad j between rings i and i+1 is split into the lower triangle
      (v(i,j), v(i,Next j), v(i+1,j)) and the upper one (v(i,Next j), v(i+1,Next j), v(i+1,j)),
      the quad of the last angular position wrapping to position 0. */
  lemma {:induction false} BodyStrip(s: int, g: int, i: int, j: int)
    requires 1 <= s && 0 <= i < g && 0 <= j < s
    ensures s + 2 * (i * s + j) + 1 < TriangleCount(s, g)
    ensures MeshTriangle(s, g, s + 2 * (i * s + j)) ==
              Triangle(RingVertex(s, i, j), RingVertex(s, i, Next(j, s)), RingVertex(s, i + 1, j))
    ensures MeshTriangle(s, g, s + 2 * (i * s + j) + 1) ==
              Triangle(RingVertex(s, i, Next(j, s)), RingVertex(s, i + 1, Next(j, s)), RingVertex(s, i + 1, j))
  {
    var q := i * s + j;
    QuadBelowBody(i, j, g, s);
    DivMod(i, j, s);
    QuadSplit(s, g, q, j);
    assert RingVertex(s, i, j) == 1 + q;
    assert RingVertex(s, i + 1, j) == 1 + q + s by { assert (i + 1) * s == i * s + s; }
  }

  /** Body quad q, at angular position j, in terms of q alone: its halves are triangles
      `s + 2q` and `s + 2q + 1` of the template, and the step to the next position is
      `Next(j, s) - j`. */
  lemma {:induction false} QuadSplit(s: int, g: int, q: int, j: int)
    requires 1 <= s && 0 <= g && 0 <= q < g * s && q % s == j
    ensures s + 2 * q + 1 < TriangleCount(s, g)
    ensures MeshTriangle(s, g, s + 2 * q) == Triangle(1 + q, 1 + q + Next(j, s) - j, 1 + q + s)
    ensures MeshTriangle(s, g, s + 2 * q + 1) == Triangle(1 + q + Next(j, s) - j, 1 + q + s + Next(j, s) - j, 1 + q + s)
  {
    assert FanSize(s) == s && SegmentCount(g) == g;
    QuadsInMesh(s, g, q);
  }

  /** Triangles `f + 2q` and `f + 2q + 1` of the template are the two halves of body quad q. */
  lemma QuadsInMesh(s: int, g: int, q: int)
    requires 0 <= q < SegmentCount(g) * FanSize(s)
    ensures FanSize(s) + 2 * q + 1 < TriangleCount(s, g)
    ensures MeshTriangle(s, g, FanSize(s) + 2 * q) == QuadTriangle(s, q, false)
    ensures MeshTriangle(s, g, FanSize(s) + 2 * q + 1) == QuadTriangle(s, q, true)
  {
    assert (2 * q) / 2 == q && (2 * q) % 2 == 0;
    assert (2 * q + 1) / 2 == q && (2 * q + 1) % 2 == 1;
  }

  /** The tail fan: triangle k joins ring-g vertices k and Next(k) to the tail apex, the last
      vertex of the list; the fan starts at `1 + segments*subdivisions`, the value of the
      counter `idx` after the body loop. */
  lemma {:induction false} TailFan(s: int, g: int, k: int)
    requires 1 <= s && 0 <= g && 0 <= k < s
    ensures s + 2 * (g * s) + k < TriangleCount(s, g)
    ensures MeshTriangle(s, g, s + 2 * (g * s) + k) ==
              Triangle(RingVertex(s, g, k), RingVertex(s, g, Next(k, s)), VertexCount(s, g) - 1)
  {
    assert TriangleCount(s, g) == 2 * s + 2 * (g * s);
    assert VertexCount(s, g) == g * s + s + 2 by { assert (g + 1) * s == g * s + s; }
  }

  // ---------------------------------------------------------------------------------------
  // Helpers

  /** Where body quad j of segment i sits in the triangle list, and whether it wraps. */
  lemma {:induction false} QuadPosition(s: int, g: int, i: int, j: int)
    requires 0 <= i < SegmentCount(g) && 0 <= j < FanSize(s)
    ensures 0 <= i * FanSize(s) + j < SegmentCount(g) * FanSize(s)
    ensures (i * FanSize(s) + j) % FanSize(s) == j
  {
    QuadBelowBody(i, j, SegmentCount(g), FanSize(s));
    DivMod(i, j, FanSize(s));
  }

  /** The triangles the tail loop emits at step k are the template's tail triangles. */
  lemma TailStep(s: int, g: int, k: int)
    requires 0 <= k < FanSize(s)
    ensures var f := FanSize(s);
      var idx := 1 + SegmentCount(g) * f;
      f + 2 * (idx - 1) + k < TriangleCount(s, g) &&
      MeshTriangle(s, g, f + 2 * (idx - 1) + k) ==
        if k < f - 1 then Triangle(idx + k, idx + k + 1, idx + s) else Triangle(idx + s - 1, idx, idx + s)
  {
  }

  /** The two triangles the body loop emits for quad j of segment i are that quad's halves. */
  lemma {:induction false} RingStep(s: int, g: int, i: int, j: int)
    requires 0 <= i < SegmentCount(g) && 0 <= j < FanSize(s)
    ensures var q := i * FanSize(s) + j;
      0 <= q < SegmentCount(g) * FanSize(s) &&
      QuadTriangle(s, q, false) ==
        (if j < FanSize(s) - 1 then Triangle(1 + q, 2 + q, 1 + q + s) else Triangle(1 + q, 2 + q - s, 1 + q + s)) &&
      QuadTriangle(s, q, true) ==
        (if j < FanSize(s) - 1 then Triangle(2 + q, 2 + q + s, 1 + q + s) else Triangle(2 + q - s, 2 + q, 1 + q + s))
  {
    QuadPosition(s, g, i, j);
  }

  /** Emitting quad j of segment i, as the body loop writes it from vertex `idx`, keeps `Emitted`. */
  lemma {:induction false} RingQuad(s: int, g: int, i: int, j: int, indices: seq<int>, idx: int)
    requires 0 <= i < SegmentCount(g) && 0 <= j < FanSize(s) && idx == 1 + i * FanSize(s) + j
    requires Emitted(s, g, indices, FanSize(s) + 2 * (idx - 1))
    ensures Emitted(s, g, indices + (if j < FanSize(s) - 1 then [idx, idx + 1, idx + s, idx + 1, idx + 1 + s, idx + s]
                                     else [idx, idx + 1 - s, idx + s, idx + 1 - s, idx + 1, idx + s]),
                    FanSize(s) + 2 * idx)
  {
    var q := i * FanSize(s) + j;
    RingStep(s, g, i, j);
    EmitQuad(s, g, indices, q, QuadTriangle(s, q, false), QuadTriangle(s, q, true));
  }

  /** Quad j of segment i precedes all quads of segment `segments`. */
  lemma {:induction false} QuadBelowBody(i: int, j: int, segments: int, f: int)
    requires 0 <= i < segments && 0 <= j < f
    ensures 0 <= i * f + j < segments * f
  {
    MulMonotone(i, segments - 1, f);
    assert (segments - 1) * f == segments * f - f;
    MulMonotone(0, i, f);
  }

  /** Appending the next triangle of the template keeps `Emitted`. */
  lemma EmitTriangle(s: int, g: int, indices: seq<int>, n: int, tri: Triangle)
    requires Emitted(s, g, indices, n) && n < TriangleCount(s, g) && tri == MeshTriangle(s, g, n)
    ensures Emitted(s, g, indices + [tri.a, tri.b, tri.c], n + 1)
  {
    var next := indices + [tri.a, tri.b, tri.c];
    forall t | 0 <= t < n + 1
      ensures TriangleAt(next, t) == MeshTriangle(s, g, t)
    {
      if t < n {
        assert TriangleAt(next, t) == TriangleAt(indices, t);
      }
    }
  }

  /** Appending both triangles of body quad q keeps `Emitted`. */
  lemma EmitQuad(s: int, g: int, indices: seq<int>, q: int, lower: Triangle, upper: Triangle)
    requires 0 <= q < SegmentCount(g) * FanSize(s)
    requires Emitted(s, g, indices, FanSize(s) + 2 * q)
    requires lower == QuadTriangle(s, q, false) && upper == QuadTriangle(s, q, true)
    ensures Emitted(s, g, indices + [lower.a, lower.b, lower.c, upper.a, upper.b, upper.c], FanSize(s) + 2 * q + 2)
  {
    var f := FanSize(s);
    assert (f + 2 * q - f) / 2 == q && (f + 2 * q + 1 - f) / 2 == q;
    EmitTriangle(s, g, indices, f + 2 * q, lower);
    var mid := indices + [lower.a, lower.b, lower.c];
    EmitTriangle(s, g, mid, f + 2 * q + 1, upper);
    assert mid + [upper.a, upper.b, upper.c] == indices + [lower.a, lower.b, lower.c, upper.a, upper.b, upper.c];
  }

  /** A wrapping quad (last of its ring) is at least one full ring from the start. */
  lemma {:induction false} WrapIsNotFirst(q: int, n: int)
    requires 0 <= q && 0 < n && q % n == n - 1
    ensures q >= n - 1
  {
    if q / n > 0 {
      MulAtLeast(q / n, n);
    }
  }

  lemma {:induction false} DivMod(i: int, j: int, n: int)
    requires 0 <= i && 0 <= j < n
    ensures (i * n + j) / n == i && (i * n + j) % n == j
  {
    var a := i * n + j;
    var q, r := a / n, a % n;
    assert a == q * n + r && 0 <= r < n;
    if q > i {
      assert (q - i) * n == q * n - i * n;
      MulAtLeast(q - i, n);
    } else if q < i {
      assert (i - q) * n == i * n - q * n;
      MulAtLeast(i - q, n);
    }
  }
}
