/** The surface described by the tube template's triangle list (Assets/Scripts/TubeTemplate.cs,
    lines 43-80).

    With at least three vertices per ring, the list is a closed surface wound consistently.
    Each triangle (a, b, c) runs along the directed edges a to b, b to c and c to a. No directed
    edge belongs to two triangles, and the reverse of every directed edge belongs to exactly
    one triangle. So every edge of the surface lies in exactly two triangles, which run along
    it in opposite directions.

    The proof first names things. A vertex is the head apex, position `col` of ring `ring`, or
    the tail apex. A triangle is triangle k of a fan, or the lower or upper half of the quad at
    position j between rings i and i + 1. On names, the shape of a directed edge tells which
    triangle and which side carry it (`Owner`), with no arithmetic on list positions. The
    closed-form template then maps names to list positions one to one (`IndexInjective`,
    `FaceTriangle`, `FaceOfIndex`), and that carries the result over to `MeshTriangle`.

    With two vertices per ring the property fails (`TwoSubdivisionsRepeatEdge`). */
module TubeSurface {
  import opened TubeMesh
  import opened Arith

  /** A vertex by name. */
  datatype Node = Head | Ring(ring: int, col: int) | Tail

  /** A triangle by name: triangle k of the head or tail fan, or a half of the quad at
      position j between rings i and i + 1. */
  datatype Face = HeadFace(k: int) | LowerFace(i: int, j: int) | UpperFace(i: int, j: int) | TailFace(k: int)

  /** A vertex of the template with s vertices per ring and g segments. */
  predicate ValidNode(s: int, g: int, n: Node) {
    match n
    case Ring(r, c) => 0 <= r <= g && 0 <= c < s
    case _ => true
  }

  /** A triangle of the template with s vertices per ring and g segments. */
  predicate ValidFace(s: int, g: int, f: Face) {
    match f
    case HeadFace(k) => 0 <= k < s
    case LowerFace(i, j) => 0 <= i < g && 0 <= j < s
    case UpperFace(i, j) => 0 <= i < g && 0 <= j < s
    case TailFace(k) => 0 <= k < s
  }

  /** Cyclic predecessor of angular position `j` on a ring of `n` vertices. */
  function Prev(j: int, n: int): int {
    if j == 0 then n - 1 else j - 1
  }

  /** The corners of a face, in the order the source emits them. */
  function Corners(s: int, g: int, f: Face): (Node, Node, Node) {
    match f
    case HeadFace(k) => (Head, Ring(0, Next(k, s)), Ring(0, k))
    case LowerFace(i, j) => (Ring(i, j), Ring(i, Next(j, s)), Ring(i + 1, j))
    case UpperFace(i, j) => (Ring(i, Next(j, s)), Ring(i + 1, Next(j, s)), Ring(i + 1, j))
    case TailFace(k) => (Ring(g, k), Ring(g, Next(k, s)), Tail)
  }

  /** Side `side` of a face as a directed edge: corner 0 to 1, 1 to 2, or 2 to 0. */
  function FaceEdge(s: int, g: int, f: Face, side: int): (Node, Node)
    requires 0 <= side < 3
  {
    var cs := Corners(s, g, f);
    if side == 0 then (cs.0, cs.1) else if side == 1 then (cs.1, cs.2) else (cs.2, cs.0)
  }

  /** The face and side that carry the directed edge from `a` to `b`, read off the edge's
      shape: a spoke to or from an apex, a step along a ring, or a step between rings. */
  function Owner(s: int, g: int, a: Node, b: Node): (Face, int) {
    match (a, b)
    case (Head, Ring(_, c)) => (HeadFace(Prev(c, s)), 0)
    case (Ring(_, c), Head) => (HeadFace(c), 2)
    case (Ring(_, c), Tail) => (TailFace(Prev(c, s)), 1)
    case (Tail, Ring(_, c)) => (TailFace(c), 2)
    case (Ring(r, c), Ring(r2, c2)) =>
      if r2 == r && c2 == Next(c, s) then (if r < g then (LowerFace(r, c), 0) else (TailFace(c), 0))
      else if r2 == r then (if r == 0 then (HeadFace(c2), 1) else (UpperFace(r - 1, c2), 1))
      else if r2 == r + 1 && c2 == c then (UpperFace(r, Prev(c, s)), 0)
      else if r2 == r + 1 then (LowerFace(r, c2), 1)
      else if c2 == c then (LowerFace(r2, c), 2)
      else (UpperFace(r2, c), 2)
    case _ => (HeadFace(0), 0)
  }

  // ---------------------------------------------------------------------------------------
  // The surface on names

  /** Every side of a face is carried by that face and side alone: `Owner` recovers both from
      the edge. Ring steps forward and backward differ only because a ring has three or more
      vertices. */
  lemma OwnerOfEdge(s: int, g: int, f: Face, side: int)
    requires 3 <= s && 0 <= g && ValidFace(s, g, f) && 0 <= side < 3
    ensures var e := FaceEdge(s, g, f, side); Owner(s, g, e.0, e.1) == (f, side)
  {
    match f
    case HeadFace(k) =>
      assert k != Next(Next(k, s), s);
    case LowerFace(i, j) =>
    case UpperFace(i, j) =>
      assert j != Next(Next(j, s), s);
    case TailFace(k) =>
      assert k != Next(Next(k, s), s);
  }

  /** The reverse of every side of a face is a side of a face of the template. */
  lemma ReverseHasOwner(s: int, g: int, f: Face, side: int)
    requires 3 <= s && 0 <= g && ValidFace(s, g, f) && 0 <= side < 3
    ensures var e := FaceEdge(s, g, f, side);
      var o := Owner(s, g, e.1, e.0);
      ValidFace(s, g, o.0) && 0 <= o.1 < 3 && FaceEdge(s, g, o.0, o.1) == (e.1, e.0)
  {
    match f
    case HeadFace(k) =>
    case LowerFace(i, j) =>
      assert j != Next(Next(j, s), s);
    case UpperFace(i, j) =>
    case TailFace(k) =>
      assert k != Next(Next(k, s), s);
  }

  // ---------------------------------------------------------------------------------------
  // From names to list positions

  /** Position of a named vertex in the vertex list. */
  function Index(s: int, g: int, n: Node): int {
    match n
    case Head => 0
    case Ring(r, c) => RingVertex(s, r, c)
    case Tail => VertexCount(s, g) - 1
  }

  /** The triangle, as list positions, of a named face. */
  function Concrete(s: int, g: int, f: Face): Triangle {
    var cs := Corners(s, g, f);
    Triangle(Index(s, g, cs.0), Index(s, g, cs.1), Index(s, g, cs.2))
  }

  /** Position of a named face in the triangle list. */
  function FaceIndex(s: int, g: int, f: Face): int {
    match f
    case HeadFace(k) => k
    case LowerFace(i, j) => s + 2 * (i * s + j)
    case UpperFace(i, j) => s + 2 * (i * s + j) + 1
    case TailFace(k) => s + 2 * (g * s) + k
  }

  /** The name of triangle `t`. */
  function FaceOf(s: int, g: int, t: int): Face
    requires 1 <= s
  {
    if t < s then HeadFace(t)
    else if t < s + 2 * (g * s) then
      var q := (t - s) / 2;
      if (t - s) % 2 == 0 then LowerFace(q / s, q % s) else UpperFace(q / s, q % s)
    else TailFace(t - s - 2 * (g * s))
  }

  /** Distinct vertex names sit at distinct positions of the vertex list. */
  lemma {:induction false} IndexInjective(s: int, g: int, n1: Node, n2: Node)
    requires 1 <= s && 0 <= g && ValidNode(s, g, n1) && ValidNode(s, g, n2)
    requires Index(s, g, n1) == Index(s, g, n2)
    ensures n1 == n2
  {
    assert VertexCount(s, g) > 1 by { MulAtLeast(g + 1, s); }
    if n1.Ring? {
      RingVertexLayout(s, g, n1.ring, n1.col);
    }
    if n2.Ring? {
      RingVertexLayout(s, g, n2.ring, n2.col);
    }
    if n1.Ring? && n2.Ring? {
      DivMod(n1.ring, n1.col, s);
      DivMod(n2.ring, n2.col, s);
    }
  }

  /** Every named face sits in the triangle list, as the triangle its corners give. */
  lemma {:induction false} FaceTriangle(s: int, g: int, f: Face)
    requires 1 <= s && 0 <= g && ValidFace(s, g, f)
    ensures 0 <= FaceIndex(s, g, f) < TriangleCount(s, g)
    ensures MeshTriangle(s, g, FaceIndex(s, g, f)) == Concrete(s, g, f)
  {
    MulMonotone(0, g, s);
    assert TriangleCount(s, g) == 2 * s + 2 * (g * s);
    match f
    case HeadFace(k) =>
      HeadFan(s, g, k);
    case LowerFace(i, j) =>
      QuadBelowBody(i, j, g, s);
      BodyStrip(s, g, i, j);
    case UpperFace(i, j) =>
      QuadBelowBody(i, j, g, s);
      BodyStrip(s, g, i, j);
    case TailFace(k) =>
      TailFan(s, g, k);
  }

  /** Every triangle of the list has a name, and the name gives back its position. */
  lemma {:induction false} FaceOfIndex(s: int, g: int, t: int)
    requires 1 <= s && 0 <= g && 0 <= t < TriangleCount(s, g)
    ensures ValidFace(s, g, FaceOf(s, g, t)) && FaceIndex(s, g, FaceOf(s, g, t)) == t
  {
    assert TriangleCount(s, g) == 2 * s + 2 * (g * s);
    if s <= t < s + 2 * (g * s) {
      var q := (t - s) / 2;
      var i, j := q / s, q % s;
      assert q == i * s + j;
      assert 0 <= q < g * s;
      if i >= g {
        MulMonotone(g, i, s);
      }
      if i < 0 {
        MulMonotone(i, -1, s);
      }
    }
  }

  /** The sides of a named face, as list positions: corners of a face are template vertices. */
  lemma EdgeIndex(s: int, g: int, f: Face, side: int)
    requires 1 <= s && 0 <= g && ValidFace(s, g, f) && 0 <= side < 3
    ensures var e := FaceEdge(s, g, f, side);
      ValidNode(s, g, e.0) && ValidNode(s, g, e.1) &&
      DirectedEdge(Concrete(s, g, f), side) == (Index(s, g, e.0), Index(s, g, e.1))
  {
  }

  // ---------------------------------------------------------------------------------------
  // The surface on list positions

  /** Side `side` of a triangle as a directed edge: a to b, b to c, or c to a. */
  function DirectedEdge(tri: Triangle, side: int): (int, int)
    requires 0 <= side < 3
  {
    if side == 0 then (tri.a, tri.b) else if side == 1 then (tri.b, tri.c) else (tri.c, tri.a)
  }

  /** The triangle has the undirected edge {a, b}. */
  predicate HasEdge(tri: Triangle, a: int, b: int) {
    a != b && tri.Uses(a) && tri.Uses(b)
  }

  /** For two or more vertices per ring, no triangle repeats a vertex. */
  lemma {:induction false} DistinctCorners(s: int, g: int, t: int)
    requires 2 <= s && 0 <= g && 0 <= t < TriangleCount(s, g)
    ensures var tri := MeshTriangle(s, g, t); tri.a != tri.b && tri.b != tri.c && tri.c != tri.a
  {
    var f := FaceOf(s, g, t);
    FaceOfIndex(s, g, t);
    FaceTriangle(s, g, f);
    var cs := Corners(s, g, f);
    EdgeIndex(s, g, f, 0);
    EdgeIndex(s, g, f, 1);
    EdgeIndex(s, g, f, 2);
    assert cs.0 != cs.1 && cs.1 != cs.2 && cs.2 != cs.0;
    if Index(s, g, cs.0) == Index(s, g, cs.1) {
      IndexInjective(s, g, cs.0, cs.1);
    }
    if Index(s, g, cs.1) == Index(s, g, cs.2) {
      IndexInjective(s, g, cs.1, cs.2);
    }
    if Index(s, g, cs.2) == Index(s, g, cs.0) {
      IndexInjective(s, g, cs.2, cs.0);
    }
  }

  /** For three or more vertices per ring, a directed edge belongs to one triangle and one
      side of it only. */
  lemma {:induction false} EdgeInOneTriangle(s: int, g: int, t1: int, side1: int, t2: int, side2: int)
    requires 3 <= s && 0 <= g
    requires 0 <= t1 < TriangleCount(s, g) && 0 <= side1 < 3
    requires 0 <= t2 < TriangleCount(s, g) && 0 <= side2 < 3
    requires DirectedEdge(MeshTriangle(s, g, t1), side1) == DirectedEdge(MeshTriangle(s, g, t2), side2)
    ensures t1 == t2 && side1 == side2
  {
    var f1, f2 := FaceOf(s, g, t1), FaceOf(s, g, t2);
    FaceOfIndex(s, g, t1);
    FaceOfIndex(s, g, t2);
    FaceTriangle(s, g, f1);
    FaceTriangle(s, g, f2);
    var e1, e2 := FaceEdge(s, g, f1, side1), FaceEdge(s, g, f2, side2);
    EdgeIndex(s, g, f1, side1);
    EdgeIndex(s, g, f2, side2);
    IndexInjective(s, g, e1.0, e2.0);
    IndexInjective(s, g, e1.1, e2.1);
    OwnerOfEdge(s, g, f1, side1);
    OwnerOfEdge(s, g, f2, side2);
  }

  /** For three or more vertices per ring, the reverse of every directed edge of a triangle
      is a side of some triangle: the surface is closed and consistently wound. */
  lemma {:induction false} EdgeHasTwin(s: int, g: int, t: int, side: int)
    requires 3 <= s && 0 <= g && 0 <= t < TriangleCount(s, g) && 0 <= side < 3
    ensures var e := DirectedEdge(MeshTriangle(s, g, t), side);
      exists t2, side2 :: 0 <= t2 < TriangleCount(s, g) && 0 <= side2 < 3 &&
        DirectedEdge(MeshTriangle(s, g, t2), side2) == (e.1, e.0)
  {
    var f := FaceOf(s, g, t);
    FaceOfIndex(s, g, t);
    FaceTriangle(s, g, f);
    EdgeIndex(s, g, f, side);
    ReverseHasOwner(s, g, f, side);
    var e := FaceEdge(s, g, f, side);
    var o := Owner(s, g, e.1, e.0);
    FaceTriangle(s, g, o.0);
    EdgeIndex(s, g, o.0, o.1);
    var t2 := FaceIndex(s, g, o.0);
    assert DirectedEdge(MeshTriangle(s, g, t2), o.1) == (Index(s, g, e.1), Index(s, g, e.0));
  }

  /** An undirected edge of a triangle is one of its sides, in one direction or the other. */
  lemma EdgeSide(tri: Triangle, a: int, b: int)
    requires HasEdge(tri, a, b)
    ensures exists side :: 0 <= side < 3 && (DirectedEdge(tri, side) == (a, b) || DirectedEdge(tri, side) == (b, a))
  {
    if DirectedEdge(tri, 0) == (a, b) || DirectedEdge(tri, 0) == (b, a) {
    } else if DirectedEdge(tri, 1) == (a, b) || DirectedEdge(tri, 1) == (b, a) {
    } else {
      assert DirectedEdge(tri, 2) == (a, b) || DirectedEdge(tri, 2) == (b, a);
    }
  }

  /** For three or more vertices per ring, every edge of the surface lies in exactly two
      triangles: the surface is closed and edge-manifold. */
  lemma {:induction false} EdgeInTwoTriangles(s: int, g: int, t: int, a: int, b: int)
    requires 3 <= s && 0 <= g && 0 <= t < TriangleCount(s, g) && HasEdge(MeshTriangle(s, g, t), a, b)
    ensures exists t1, t2 ::
              0 <= t1 < TriangleCount(s, g) && 0 <= t2 < TriangleCount(s, g) && t1 != t2 &&
              HasEdge(MeshTriangle(s, g, t1), a, b) && HasEdge(MeshTriangle(s, g, t2), a, b) &&
              (forall t3 :: 0 <= t3 < TriangleCount(s, g) && HasEdge(MeshTriangle(s, g, t3), a, b) ==>
                 t3 == t1 || t3 == t2)
  {
    var t1, s1, t2, s2 := OppositeSides(s, g, t, a, b);
    DistinctCorners(s, g, t1);
    forall t3 | 0 <= t3 < TriangleCount(s, g) && HasEdge(MeshTriangle(s, g, t3), a, b)
      ensures t3 == t1 || t3 == t2
    {
      OnlyTwo(s, g, a, b, t1, s1, t2, s2, t3);
    }
  }

  /** The two triangles that carry an edge of triangle t, one in each direction. */
  lemma {:induction false} OppositeSides(s: int, g: int, t: int, a: int, b: int)
    returns (t1: int, s1: int, t2: int, s2: int)
    requires 3 <= s && 0 <= g && 0 <= t < TriangleCount(s, g) && HasEdge(MeshTriangle(s, g, t), a, b)
    ensures 0 <= t1 < TriangleCount(s, g) && 0 <= s1 < 3 && DirectedEdge(MeshTriangle(s, g, t1), s1) == (a, b)
    ensures 0 <= t2 < TriangleCount(s, g) && 0 <= s2 < 3 && DirectedEdge(MeshTriangle(s, g, t2), s2) == (b, a)
  {
    var tri := MeshTriangle(s, g, t);
    EdgeSide(tri, a, b);
    var side :| 0 <= side < 3 && (DirectedEdge(tri, side) == (a, b) || DirectedEdge(tri, side) == (b, a));
    var e := DirectedEdge(tri, side);
    EdgeHasTwin(s, g, t, side);
    var tw, sw :| 0 <= tw < TriangleCount(s, g) && 0 <= sw < 3 && DirectedEdge(MeshTriangle(s, g, tw), sw) == (e.1, e.0);
    if e == (a, b) {
      t1, s1, t2, s2 := t, side, tw, sw;
    } else {
      t1, s1, t2, s2 := tw, sw, t, side;
    }
  }

  /** A triangle with the edge {a, b} is the one carrying a to b or the one carrying b to a. */
  lemma {:induction false} OnlyTwo(s: int, g: int, a: int, b: int, t1: int, s1: int, t2: int, s2: int, t3: int)
    requires 3 <= s && 0 <= g
    requires 0 <= t1 < TriangleCount(s, g) && 0 <= s1 < 3 && DirectedEdge(MeshTriangle(s, g, t1), s1) == (a, b)
    requires 0 <= t2 < TriangleCount(s, g) && 0 <= s2 < 3 && DirectedEdge(MeshTriangle(s, g, t2), s2) == (b, a)
    requires 0 <= t3 < TriangleCount(s, g) && HasEdge(MeshTriangle(s, g, t3), a, b)
    ensures t3 == t1 || t3 == t2
  {
    var tri := MeshTriangle(s, g, t3);
    EdgeSide(tri, a, b);
    var s3 :| 0 <= s3 < 3 && (DirectedEdge(tri, s3) == (a, b) || DirectedEdge(tri, s3) == (b, a));
    if DirectedEdge(tri, s3) == (a, b) {
      EdgeInOneTriangle(s, g, t3, s3, t1, s1);
    } else {
      EdgeInOneTriangle(s, g, t3, s3, t2, s2);
    }
  }

  /** With two vertices per ring the surface is not consistently wound: head triangle 1,
      (0, 1, 2), and triangle 2, (1, 2, 3), both run from vertex 1 to vertex 2. Triangle 2 is
      the lower half of the first body quad, or the first tail triangle when there are no
      segments. */
  lemma TwoSubdivisionsRepeatEdge(g: int)
    requires 0 <= g
    ensures 2 < TriangleCount(2, g)
    ensures MeshTriangle(2, g, 1) == Triangle(0, 1, 2) && MeshTriangle(2, g, 2) == Triangle(1, 2, 3)
    ensures DirectedEdge(MeshTriangle(2, g, 1), 1) == DirectedEdge(MeshTriangle(2, g, 2), 0) == (1, 2)
  {
    if g > 0 {
      assert TriangleCount(2, g) == 4 + 2 * (g * 2);
      assert MeshTriangle(2, g, 2) == QuadTriangle(2, 0, false);
    }
  }
}
