/** The height-field mesh of PNTMeshViewer: two triangles per cell of an sx by sy grid, nine
    ints per face (point, normal and texture index of each corner). */
module TriangleGrid {
  datatype Vec = Vec(x: real, y: real, z: real)

  /*  Indices  */

  lemma Decode(n: nat, q: nat, r: nat)
    requires r < n
    ensures (q * n + r) / n == q && (q * n + r) % n == r
  {
    var v := q * n + r;
    var d := v / n;
    assert v == n * d + v % n;
    assert n * (d - q) == n * d - n * q;
    if d != q {
      Multiple(n, d - q);
    }
  }

  lemma Multiple(n: int, k: int)
    requires n >= 0 && k != 0
    ensures n * k >= n || n * k <= -n
  {
    if k > 0 {
      assert n * k == n + n * (k - 1);
    } else {
      assert n * k == -n - n * (-k - 1);
    }
  }

  lemma CellBelow(sx: nat, sy: nat, x: nat, y: nat)
    requires x < sx && y < sy
    ensures y * sx + x < sx * sy
  {
    assert (y + 1) * sx <= sy * sx;
  }

  lemma CellOf(sx: nat, sy: nat, c: nat)
    requires c < sx * sy
    ensures sx > 0 && c / sx < sy && c % sx < sx && c == (c / sx) * sx + c % sx
  {
    if sx == 0 {
      assert false;
    }
    assert c == sx * (c / sx) + c % sx;
  }

  /** Vertex number of grid point (x, y). */
  function Vertex(sx: nat, x: nat, y: nat): nat {
    y * (sx + 1) + x
  }

  lemma VertexUnique(sx: nat, x: nat, y: nat, x': nat, y': nat)
    requires x <= sx && x' <= sx && Vertex(sx, x, y) == Vertex(sx, x', y')
    ensures x == x' && y == y'
  {
    Decode(sx + 1, y, x);
    Decode(sx + 1, y', x');
  }

  lemma VertexBelow(sx: nat, sy: nat, x: nat, y: nat)
    requires x <= sx && y <= sy
    ensures Vertex(sx, x, y) < (sy + 1) * (sx + 1)
  {
    CellBelow(sx + 1, sy + 1, x, y);
  }

  /** Corner `i` of triangle `k` of cell (x, y), as grid coordinates: the first triangle is
      p00, p10, p11, the second p11, p01, p00. */
  function CornerX(x: nat, k: nat, i: nat): nat {
    if k == 0 then (if i == 2 then x + 1 else x) else (if i == 2 then x else x + 1)
  }

  function CornerY(y: nat, k: nat, i: nat): nat {
    if k == 0 then (if i == 0 then y else y + 1) else (if i == 0 then y + 1 else y)
  }

  function Corner(sx: nat, x: nat, y: nat, k: nat, i: nat): nat {
    Vertex(sx, CornerX(x, k, i), CornerY(y, k, i))
  }

  function FaceCount(sx: nat, sy: nat): nat {
    sx * sy * 2
  }

  /** Face number of triangle `k` of cell (x, y). */
  function Face(sx: nat, x: nat, y: nat, k: nat): nat {
    2 * (y * sx + x) + k
  }

  /** Corner `i` of face `f`. */
  function FaceCorner(sx: nat, f: nat, i: nat): nat
    requires sx > 0
  {
    Corner(sx, f / 2 % sx, f / 2 / sx, f % 2, i)
  }

  lemma FaceCornerOf(sx: nat, x: nat, y: nat, k: nat, i: nat)
    requires x < sx && k < 2
    ensures FaceCorner(sx, Face(sx, x, y, k), i) == Corner(sx, x, y, k, i)
  {
    Decode(sx, y, x);
    assert Face(sx, x, y, k) / 2 == y * sx + x;
  }

  lemma FaceOf(sx: nat, sy: nat, f: nat)
    requires f < FaceCount(sx, sy)
    ensures sx > 0 && f / 2 % sx < sx && f / 2 / sx < sy
    ensures f == Face(sx, f / 2 % sx, f / 2 / sx, f % 2)
  {
    CellOf(sx, sy, f / 2);
  }

  /*  Topology  */

  datatype Edge = Edge(a: nat, b: nat)

  /** Directed edge `i` of face `f`. */
  function FaceEdge(sx: nat, f: nat, i: nat): Edge
    requires sx > 0
  {
    Edge(FaceCorner(sx, f, i), FaceCorner(sx, f, (i + 1) % 3))
  }

  function CornerEdge(sx: nat, x: nat, y: nat, k: nat, i: nat): Edge {
    Edge(Corner(sx, x, y, k, i), Corner(sx, x, y, k, (i + 1) % 3))
  }

  /** Every index the faces hold is a vertex of the grid. */
  lemma CornerInRange(sx: nat, sy: nat, f: nat, i: nat)
    requires f < FaceCount(sx, sy) && i < 3
    ensures sx > 0 && FaceCorner(sx, f, i) < (sy + 1) * (sx + 1)
  {
    FaceOf(sx, sy, f);
    VertexBelow(sx, sy, CornerX(f / 2 % sx, f % 2, i), CornerY(f / 2 / sx, f % 2, i));
  }

  /** Two triangles that share a directed edge are the same. */
  lemma SameCornerEdge(sx: nat, x: nat, y: nat, k: nat, i: nat, x': nat, y': nat, k': nat, i': nat)
    requires x < sx && x' < sx && k < 2 && k' < 2 && i < 3 && i' < 3
    requires CornerEdge(sx, x, y, k, i) == CornerEdge(sx, x', y', k', i')
    ensures x == x' && y == y' && k == k' && i == i'
  {
    var j, j' := (i + 1) % 3, (i' + 1) % 3;
    VertexUnique(sx, CornerX(x, k, i), CornerY(y, k, i), CornerX(x', k', i'), CornerY(y', k', i'));
    VertexUnique(sx, CornerX(x, k, j), CornerY(y, k, j), CornerX(x', k', j'), CornerY(y', k', j'));
  }

  /** No directed edge occurs twice. */
  lemma EdgeOccursOnce(sx: nat, sy: nat, f: nat, i: nat, g: nat, j: nat)
    requires f < FaceCount(sx, sy) && g < FaceCount(sx, sy) && i < 3 && j < 3
    requires sx > 0 && FaceEdge(sx, f, i) == FaceEdge(sx, g, j)
    ensures f == g && i == j
  {
    FaceOf(sx, sy, f);
    FaceOf(sx, sy, g);
    SameCornerEdge(sx, f / 2 % sx, f / 2 / sx, f % 2, i, g / 2 % sx, g / 2 / sx, g % 2, j);
  }

  /** Both ends on the same side of the grid. */
  predicate OnBorder(sx: nat, sy: nat, x: nat, y: nat, x': nat, y': nat) {
    x == x' == 0 || x == x' == sx || y == y' == 0 || y == y' == sy
  }

  predicate IsBorderEdge(sx: nat, sy: nat, e: Edge) {
    OnBorder(sx, sy, e.a % (sx + 1), e.a / (sx + 1), e.b % (sx + 1), e.b / (sx + 1))
  }

  function Reverse(e: Edge): Edge {
    Edge(e.b, e.a)
  }

  ghost predicate HasEdge(sx: nat, sy: nat, e: Edge)
    requires sx > 0
  {
    exists g, j :: 0 <= g < FaceCount(sx, sy) && 0 <= j < 3 && FaceEdge(sx, g, j) == e
  }

  lemma HasCornerEdge(sx: nat, sy: nat, x: nat, y: nat, k: nat, i: nat)
    requires x < sx && y < sy && k < 2 && i < 3
    ensures HasEdge(sx, sy, CornerEdge(sx, x, y, k, i))
  {
    var f := Face(sx, x, y, k);
    CellBelow(sx, sy, x, y);
    FaceCornerOf(sx, x, y, k, i);
    FaceCornerOf(sx, x, y, k, (i + 1) % 3);
    assert FaceEdge(sx, f, i) == CornerEdge(sx, x, y, k, i);
  }

  lemma BorderOf(sx: nat, sy: nat, x: nat, y: nat, k: nat, i: nat)
    requires x < sx && y < sy && k < 2 && i < 3
    ensures var j := (i + 1) % 3;
            IsBorderEdge(sx, sy, CornerEdge(sx, x, y, k, i))
            <==> OnBorder(sx, sy, CornerX(x, k, i), CornerY(y, k, i), CornerX(x, k, j), CornerY(y, k, j))
  {
    var j := (i + 1) % 3;
    Decode(sx + 1, CornerY(y, k, i), CornerX(x, k, i));
    Decode(sx + 1, CornerY(y, k, j), CornerX(x, k, j));
  }

  /** The neighbour across an inner edge. */
  lemma InnerHasReverse(sx: nat, sy: nat, x: nat, y: nat, k: nat, i: nat)
    requires x < sx && y < sy && k < 2 && i < 3
    requires !IsBorderEdge(sx, sy, CornerEdge(sx, x, y, k, i))
    ensures HasEdge(sx, sy, Reverse(CornerEdge(sx, x, y, k, i)))
  {
    BorderOf(sx, sy, x, y, k, i);
    if k == 0 {
      if i == 0 {
        HasCornerEdge(sx, sy, x - 1, y, 1, 0);
      } else if i == 1 {
        HasCornerEdge(sx, sy, x, y + 1, 1, 1);
      } else {
        HasCornerEdge(sx, sy, x, y, 1, 2);
      }
    } else {
      if i == 0 {
        HasCornerEdge(sx, sy, x + 1, y, 0, 0);
      } else if i == 1 {
        HasCornerEdge(sx, sy, x, y - 1, 0, 1);
      } else {
        HasCornerEdge(sx, sy, x, y, 0, 2);
      }
    }
  }

  lemma ReverseIsInner(sx: nat, sy: nat, x: nat, y: nat, k: nat, i: nat, x': nat, y': nat, k': nat, i': nat)
    requires x < sx && y < sy && k < 2 && i < 3 && x' < sx && y' < sy && k' < 2 && i' < 3
    requires CornerEdge(sx, x', y', k', i') == Reverse(CornerEdge(sx, x, y, k, i))
    ensures !IsBorderEdge(sx, sy, CornerEdge(sx, x, y, k, i))
  {
    var j, j' := (i + 1) % 3, (i' + 1) % 3;
    BorderOf(sx, sy, x, y, k, i);
    VertexUnique(sx, CornerX(x, k, i), CornerY(y, k, i), CornerX(x', k', j'), CornerY(y', k', j'));
    VertexUnique(sx, CornerX(x, k, j), CornerY(y, k, j), CornerX(x', k', i'), CornerY(y', k', i'));
  }

  /** Consistent orientation: an edge also occurs in the other direction exactly when it is not
      on the border of the grid. */
  lemma EdgeShared(sx: nat, sy: nat, f: nat, i: nat)
    requires f < FaceCount(sx, sy) && i < 3
    ensures sx > 0 && (HasEdge(sx, sy, Reverse(FaceEdge(sx, f, i))) <==> !IsBorderEdge(sx, sy, FaceEdge(sx, f, i)))
  {
    FaceOf(sx, sy, f);
    hide IsBorderEdge, HasEdge, Corner;
    var x, y, k := f / 2 % sx, f / 2 / sx, f % 2;
    if !IsBorderEdge(sx, sy, FaceEdge(sx, f, i)) {
      InnerHasReverse(sx, sy, x, y, k, i);
    }
    if HasEdge(sx, sy, Reverse(FaceEdge(sx, f, i))) {
      SharedIsInner(sx, sy, f, i);
    }
  }

  lemma SharedIsInner(sx: nat, sy: nat, f: nat, i: nat)
    requires f < FaceCount(sx, sy) && i < 3 && sx > 0 && HasEdge(sx, sy, Reverse(FaceEdge(sx, f, i)))
    ensures !IsBorderEdge(sx, sy, FaceEdge(sx, f, i))
  {
    var g, j :| 0 <= g < FaceCount(sx, sy) && 0 <= j < 3 && FaceEdge(sx, g, j) == Reverse(FaceEdge(sx, f, i));
    FaceOf(sx, sy, f);
    FaceOf(sx, sy, g);
    hide IsBorderEdge, Corner, HasEdge, FaceCount;
    ReverseIsInner(sx, sy, f / 2 % sx, f / 2 / sx, f % 2, i, g / 2 % sx, g / 2 / sx, g % 2, j);
  }

  /*  The arrays  */

  /** The surface: coordinates of the grid lines, height over a grid point, unit normal of a
      triangle. Their arithmetic does not matter here. */
  datatype Surface = Surface(lineX: nat -> real, lineY: nat -> real, height: (nat, nat) -> real,
                             normal: (Vec, Vec, Vec) -> Vec)

  function PointAt(s: Surface, sx: nat, v: nat): Vec {
    Vec(s.lineX(v % (sx + 1)), s.lineY(v / (sx + 1)), s.height(v % (sx + 1), v / (sx + 1)))
  }

  function NormalAt(s: Surface, sx: nat, f: nat): Vec
    requires sx > 0
  {
    s.normal(PointAt(s, sx, FaceCorner(sx, f, 0)), PointAt(s, sx, FaceCorner(sx, f, 1)),
        PointAt(s, sx, FaceCorner(sx, f, 2)))
  }

  /** Three consecutive floats of a flat array. */
  predicate IsVec(a: seq<real>, i: nat, v: Vec) {
    3 * i + 2 < |a| && a[3 * i] == v.x && a[3 * i + 1] == v.y && a[3 * i + 2] == v.z
  }

  ghost predicate PointsUpTo(points: seq<real>, s: Surface, sx: nat, n: nat) {
    3 * n <= |points| && forall v {:trigger IsVec(points, v, PointAt(s, sx, v))} :: 0 <= v < n ==>
        IsVec(points, v, PointAt(s, sx, v))
  }

  ghost predicate NormalsUpTo(normals: seq<real>, s: Surface, sx: nat, n: nat)
    requires sx > 0
  {
    3 * n <= |normals| && forall f {:trigger IsVec(normals, f, NormalAt(s, sx, f))} :: 0 <= f < n ==>
        IsVec(normals, f, NormalAt(s, sx, f))
  }

  /** The nine ints of a face. */
  predicate IsFace(faces: seq<int>, sx: nat, f: nat)
    requires sx > 0
  {
    && 9 * f + 8 < |faces|
    && faces[9 * f] == faces[9 * f + 2] == FaceCorner(sx, f, 0)
    && faces[9 * f + 3] == faces[9 * f + 5] == FaceCorner(sx, f, 1)
    && faces[9 * f + 6] == faces[9 * f + 8] == FaceCorner(sx, f, 2)
    && faces[9 * f + 1] == faces[9 * f + 4] == faces[9 * f + 7] == f
  }

  ghost predicate FacesUpTo(faces: seq<int>, sx: nat, n: nat)
    requires sx > 0
  {
    9 * n <= |faces| && forall f :: 0 <= f < n ==> IsFace(faces, sx, f)
  }

  function VertexCount(sx: nat, sy: nat): nat {
    (sy + 1) * (sx + 1)
  }

  /** The two nested loops over the grid points, shared by both methods. */
  method FillPoints(sx: nat, sy: nat, s: Surface, points: array<real>)
    requires points.Length == 3 * VertexCount(sx, sy)
    modifies points
    ensures PointsUpTo(points[..], s, sx, VertexCount(sx, sy))
  {
    var y := 0;
    while y <= sy
      invariant 0 <= y <= sy + 1
      invariant PointsUpTo(points[..], s, sx, y * (sx + 1))
    {
      var x := 0;
      assert y * (sx + 1) <= VertexCount(sx, sy);
      while x <= sx
        invariant 0 <= x <= sx + 1
        invariant PointsUpTo(points[..], s, sx, Vertex(sx, x, y))
      {
        VertexBelow(sx, sy, x, y);
        var index := 3 * Vertex(sx, x, y);
        assert index == y * (sx + 1) * 3 + x * 3;
        FillPoint(sx, x, y, s, points);
        x := x + 1;
      }
      assert (y + 1) * (sx + 1) == y * (sx + 1) + (sx + 1);
      y := y + 1;
    }
  }

  method FillPoint(sx: nat, x: nat, y: nat, s: Surface, points: array<real>)
    requires x <= sx && 3 * Vertex(sx, x, y) + 2 < points.Length
    requires PointsUpTo(points[..], s, sx, Vertex(sx, x, y))
    modifies points
    ensures PointsUpTo(points[..], s, sx, Vertex(sx, x, y) + 1)
  {
    var v := Vertex(sx, x, y);
    ghost var before := points[..];
    points[3 * v], points[3 * v + 1], points[3 * v + 2] := s.lineX(x), s.lineY(y), s.height(x, y);
    Decode(sx + 1, y, x);
    assert IsVec(points[..], v, PointAt(s, sx, v));
    forall u | 0 <= u < v ensures IsVec(points[..], u, PointAt(s, sx, u)) {
      assert IsVec(before, u, PointAt(s, sx, u));
    }
  }

  /** Load the three corners and compute the unit normal, as every face does. */
  method TriangleNormal(s: Surface, points: array<real>, a: nat, b: nat, c: nat) returns (normal: Vec)
    requires 3 * a + 2 < points.Length && 3 * b + 2 < points.Length && 3 * c + 2 < points.Length
    ensures forall u, v, w :: IsVec(points[..], a, u) && IsVec(points[..], b, v) && IsVec(points[..], c, w)
              ==> normal == s.normal(u, v, w)
  {
    var p0 := Vec(points[3 * a], points[3 * a + 1], points[3 * a + 2]);
    var p1 := Vec(points[3 * b], points[3 * b + 1], points[3 * b + 2]);
    var p2 := Vec(points[3 * c], points[3 * c + 1], points[3 * c + 2]);
    normal := s.normal(p0, p1, p2);
  }

  method StoreNormal(normals: array<real>, s: Surface, sx: nat, f: nat, normal: Vec)
    requires sx > 0 && 3 * f + 2 < normals.Length && normal == NormalAt(s, sx, f)
    requires NormalsUpTo(normals[..], s, sx, f)
    modifies normals
    ensures NormalsUpTo(normals[..], s, sx, f + 1)
  {
    ghost var before := normals[..];
    normals[3 * f], normals[3 * f + 1], normals[3 * f + 2] := normal.x, normal.y, normal.z;
    assert IsVec(normals[..], f, NormalAt(s, sx, f));
    forall g | 0 <= g < f ensures IsVec(normals[..], g, NormalAt(s, sx, g)) {
      assert IsVec(before, g, NormalAt(s, sx, g));
    }
  }

  method StoreFace(faces: array<int>, sx: nat, f: nat, a: nat, b: nat, c: nat)
    requires sx > 0 && 9 * f + 8 < faces.Length && FacesUpTo(faces[..], sx, f)
    requires a == FaceCorner(sx, f, 0) && b == FaceCorner(sx, f, 1) && c == FaceCorner(sx, f, 2)
    modifies faces
    ensures FacesUpTo(faces[..], sx, f + 1)
  {
    ghost var before := faces[..];
    faces[9 * f], faces[9 * f + 1], faces[9 * f + 2] := a, f, a;
    faces[9 * f + 3], faces[9 * f + 4], faces[9 * f + 5] := b, f, b;
    faces[9 * f + 6], faces[9 * f + 7], faces[9 * f + 8] := c, f, c;
    forall g | 0 <= g < f ensures IsFace(faces[..], sx, g) {
      assert IsFace(before, sx, g);
      SameFace(before, faces[..], sx, g);
    }
  }

  lemma SameFace(before: seq<int>, after: seq<int>, sx: nat, g: nat)
    requires sx > 0 && IsFace(before, sx, g) && 9 * g + 8 < |after|
    requires forall j :: 9 * g <= j < 9 * g + 9 ==> after[j] == before[j]
    ensures IsFace(after, sx, g)
  {
  }

  /** The points of the three corners of face `f` are in place. */
  lemma CornerPoints(points: seq<real>, s: Surface, sx: nat, sy: nat, f: nat)
    requires f < FaceCount(sx, sy) && PointsUpTo(points, s, sx, VertexCount(sx, sy))
    ensures sx > 0 && forall i :: 0 <= i < 3 ==>
              FaceCorner(sx, f, i) < VertexCount(sx, sy)
                  && IsVec(points, FaceCorner(sx, f, i), PointAt(s, sx, FaceCorner(sx, f, i)))
  {
    CornerInRange(sx, sy, f, 0);
    CornerInRange(sx, sy, f, 1);
    CornerInRange(sx, sy, f, 2);
  }

  method BuildFace(sx: nat, sy: nat, s: Surface, points: array<real>, normals: array<real>, faces: array<int>,
                   f: nat, a: nat, b: nat, c: nat)
    requires f < FaceCount(sx, sy) && sx > 0 && normals != points
    requires a == FaceCorner(sx, f, 0) && b == FaceCorner(sx, f, 1) && c == FaceCorner(sx, f, 2)
    requires normals.Length == 3 * FaceCount(sx, sy) && faces.Length == 9 * FaceCount(sx, sy)
    requires PointsUpTo(points[..], s, sx, VertexCount(sx, sy))
    requires NormalsUpTo(normals[..], s, sx, f) && FacesUpTo(faces[..], sx, f)
    modifies normals, faces
    ensures NormalsUpTo(normals[..], s, sx, f + 1) && FacesUpTo(faces[..], sx, f + 1)
  {
    CornerPoints(points[..], s, sx, sy, f);
    assert IsVec(points[..], a, PointAt(s, sx, a)) && IsVec(points[..], b, PointAt(s, sx, b))
           && IsVec(points[..], c, PointAt(s, sx, c));
    var normal := TriangleNormal(s, points, a, b, c);
    StoreNormal(normals, s, sx, f, normal);
    StoreFace(faces, sx, f, a, b, c);
  }

  /** A mesh of the given size and surface: every face slot filled as its triangle demands, every
      point and every normal that of the surface. */
  ghost predicate IsMesh(points: seq<real>, normals: seq<real>, faces: seq<int>, s: Surface, sx: nat, sy: nat)
    requires sx > 0
  {
    && |points| == 3 * VertexCount(sx, sy) && PointsUpTo(points, s, sx, VertexCount(sx, sy))
    && |normals| == 3 * FaceCount(sx, sy) && NormalsUpTo(normals, s, sx, FaceCount(sx, sy))
    && |faces| == 9 * FaceCount(sx, sy) && FacesUpTo(faces, sx, FaceCount(sx, sy))
  }

  /** The arrays of a mesh, index by index: point (x, y) of the grid, and the two triangles of cell
      (x, y) with the indices of their points, normals and texture coordinates. */
  lemma MeshSpelledOut(points: seq<real>, normals: seq<real>, faces: seq<int>, s: Surface, sx: nat, sy: nat,
                       x: nat, y: nat)
    requires sx > 0 && IsMesh(points, normals, faces, s, sx, sy) && x <= sx && y <= sy
    ensures |points| == 3 * ((sy + 1) * (sx + 1)) && |normals| == 6 * (sx * sy) && |faces| == 18 * (sx * sy)
    ensures var p := 3 * (y * (sx + 1) + x);
            && p + 2 < |points| && points[p] == s.lineX(x) && points[p + 1] == s.lineY(y)
            && points[p + 2] == s.height(x, y)
    ensures x < sx && y < sy ==>
              var f, p := 2 * (y * sx + x), y * (sx + 1) + x;
              && 9 * f + 17 < |faces|
              && faces[9 * f..9 * f + 9] == [p, f, p, p + sx + 1, f, p + sx + 1, p + sx + 2, f, p + sx + 2]
              && faces[9 * f + 9..9 * f + 18] == [p + sx + 2, f + 1, p + sx + 2, p + 1, f + 1, p + 1, p, f + 1, p]
  {
    var v := Vertex(sx, x, y);
    VertexBelow(sx, sy, x, y);
    Decode(sx + 1, y, x);
    assert IsVec(points, v, PointAt(s, sx, v));
    if x < sx && y < sy {
      FacesSpelledOut(faces, sx, sy, x, y);
    }
  }

  lemma FacesSpelledOut(faces: seq<int>, sx: nat, sy: nat, x: nat, y: nat)
    requires x < sx && y < sy && |faces| == 9 * FaceCount(sx, sy) && FacesUpTo(faces, sx, FaceCount(sx, sy))
    ensures var f, p := 2 * (y * sx + x), y * (sx + 1) + x;
            && 9 * f + 17 < |faces|
            && faces[9 * f..9 * f + 9] == [p, f, p, p + sx + 1, f, p + sx + 1, p + sx + 2, f, p + sx + 2]
            && faces[9 * f + 9..9 * f + 18] == [p + sx + 2, f + 1, p + sx + 2, p + 1, f + 1, p + 1, p, f + 1, p]
  {
    CellCorners(sx, sy, x, y);
    var f, g := Face(sx, x, y, 0), Face(sx, x, y, 1);
    hide FaceCorner, Face;
    assert IsFace(faces, sx, f) && IsFace(faces, sx, g);
  }

  /** A grid point of the surface. */
  function GridPoint(s: Surface, x: nat, y: nat): Vec {
    Vec(s.lineX(x), s.lineY(y), s.height(x, y))
  }

  lemma PointOf(s: Surface, sx: nat, x: nat, y: nat)
    requires x <= sx
    ensures PointAt(s, sx, y * (sx + 1) + x) == GridPoint(s, x, y)
  {
    Decode(sx + 1, y, x);
  }

  lemma NextRow(sx: nat, x: nat, y: nat)
    ensures (y + 1) * (sx + 1) + x == y * (sx + 1) + x + sx + 1
  {
  }

  lemma CellNormals(s: Surface, sx: nat, sy: nat, x: nat, y: nat)
    requires x < sx && y < sy
    ensures NormalAt(s, sx, Face(sx, x, y, 0))
         == s.normal(GridPoint(s, x, y), GridPoint(s, x, y + 1), GridPoint(s, x + 1, y + 1))
    ensures NormalAt(s, sx, Face(sx, x, y, 1))
         == s.normal(GridPoint(s, x + 1, y + 1), GridPoint(s, x + 1, y), GridPoint(s, x, y))
  {
    CellCorners(sx, sy, x, y);
    PointOf(s, sx, x, y);
    PointOf(s, sx, x + 1, y);
    PointOf(s, sx, x, y + 1);
    PointOf(s, sx, x + 1, y + 1);
    NextRow(sx, x, y);
    NextRow(sx, x + 1, y);
    hide FaceCorner, PointAt, Face, GridPoint;
    var a, b, c, d := PointAt(s, sx, y * (sx + 1) + x), PointAt(s, sx, y * (sx + 1) + (x + 1)),
                      PointAt(s, sx, (y + 1) * (sx + 1) + x), PointAt(s, sx, (y + 1) * (sx + 1) + (x + 1));
    assert NormalAt(s, sx, Face(sx, x, y, 0)) == s.normal(a, c, d);
    assert NormalAt(s, sx, Face(sx, x, y, 1)) == s.normal(d, b, a);
  }

  /** The normals of the two triangles of cell (x, y): those of their corners in this order. */
  lemma NormalsSpelledOut(normals: seq<real>, s: Surface, sx: nat, sy: nat, x: nat, y: nat)
    requires x < sx && y < sy && NormalsUpTo(normals, s, sx, FaceCount(sx, sy))
    ensures var f := 2 * (y * sx + x);
            && IsVec(normals, f, s.normal(GridPoint(s, x, y), GridPoint(s, x, y + 1), GridPoint(s, x + 1, y + 1)))
            && IsVec(normals, f + 1, s.normal(GridPoint(s, x + 1, y + 1), GridPoint(s, x + 1, y), GridPoint(s, x, y)))
  {
    CellCorners(sx, sy, x, y);
    CellNormals(s, sx, sy, x, y);
    var f, g := Face(sx, x, y, 0), Face(sx, x, y, 1);
    hide FaceCorner, PointAt, NormalAt, GridPoint;
    assert IsVec(normals, f, NormalAt(s, sx, f)) && IsVec(normals, g, NormalAt(s, sx, g));
  }

  method BuildTriangleMesh(sx: nat, sy: nat, s: Surface)
      returns (points: array<real>, normals: array<real>, faces: array<int>)
    requires sx > 0 && sy > 0
    ensures fresh(points) && fresh(normals) && fresh(faces)
    ensures IsMesh(points[..], normals[..], faces[..], s, sx, sy)
  {
    points := new real[3 * VertexCount(sx, sy)](_ => 0.0);
    normals := new real[3 * FaceCount(sx, sy)](_ => 0.0);
    faces := new int[9 * FaceCount(sx, sy)](_ => 0);
    FillPoints(sx, sy, s, points);
    var normalCount := 0;
    var y := 0;
    while y < sy
      invariant 0 <= y <= sy && normalCount == Face(sx, 0, y, 0)
      invariant PointsUpTo(points[..], s, sx, VertexCount(sx, sy))
      invariant NormalsUpTo(normals[..], s, sx, normalCount) && FacesUpTo(faces[..], sx, normalCount)
    {
      var x := 0;
      while x < sx
        invariant 0 <= x <= sx && normalCount == Face(sx, x, y, 0)
        invariant PointsUpTo(points[..], s, sx, VertexCount(sx, sy))
        invariant NormalsUpTo(normals[..], s, sx, normalCount) && FacesUpTo(faces[..], sx, normalCount)
      {
        BuildCell(sx, sy, x, y, s, points, normals, faces);
        normalCount := normalCount + 2;
        x := x + 1;
      }
      assert (y + 1) * sx == y * sx + sx;
      y := y + 1;
    }
    assert sy * sx == sx * sy;
  }

  method BuildCell(sx: nat, sy: nat, x: nat, y: nat, s: Surface,
                   points: array<real>, normals: array<real>, faces: array<int>)
    requires x < sx && y < sy && normals != points
    requires normals.Length == 3 * FaceCount(sx, sy) && faces.Length == 9 * FaceCount(sx, sy)
    requires PointsUpTo(points[..], s, sx, VertexCount(sx, sy))
    requires NormalsUpTo(normals[..], s, sx, Face(sx, x, y, 0)) && FacesUpTo(faces[..], sx, Face(sx, x, y, 0))
    modifies normals, faces
    ensures NormalsUpTo(normals[..], s, sx, Face(sx, x, y, 0) + 2) && FacesUpTo(faces[..], sx, Face(sx, x, y, 0) + 2)
  {
    var p00 := y * (sx + 1) + x;
    var p01 := p00 + 1;
    var p10 := p00 + (sx + 1);
    var p11 := p10 + 1;
    CellCorners(sx, sy, x, y);
    var index := (y * sx * 9 + x * 9) * 2;
    assert index == 9 * Face(sx, x, y, 0);
    BuildFace(sx, sy, s, points, normals, faces, Face(sx, x, y, 0), p00, p10, p11);
    BuildFace(sx, sy, s, points, normals, faces, Face(sx, x, y, 1), p11, p01, p00);
  }

  lemma CellCorners(sx: nat, sy: nat, x: nat, y: nat)
    requires x < sx && y < sy
    ensures Face(sx, x, y, 1) < FaceCount(sx, sy)
    ensures var p00 := y * (sx + 1) + x;
            var f, g := Face(sx, x, y, 0), Face(sx, x, y, 1);
            && FaceCorner(sx, f, 0) == FaceCorner(sx, g, 2) == p00
            && FaceCorner(sx, f, 1) == p00 + sx + 1 && FaceCorner(sx, g, 1) == p00 + 1
            && FaceCorner(sx, f, 2) == FaceCorner(sx, g, 0) == p00 + sx + 2
  {
    CellBelow(sx, sy, x, y);
    FaceCornerOf(sx, x, y, 0, 0);
    FaceCornerOf(sx, x, y, 0, 1);
    FaceCornerOf(sx, x, y, 0, 2);
    FaceCornerOf(sx, x, y, 1, 0);
    FaceCornerOf(sx, x, y, 1, 1);
    FaceCornerOf(sx, x, y, 1, 2);
    assert (y + 1) * (sx + 1) == y * (sx + 1) + (sx + 1);
  }

  /** Recompute in place for another surface, taking the topology from the faces array. */
  method ComputeMesh(sx: nat, sy: nat, s: Surface, points: array<real>, normals: array<real>, faces: array<int>,
                     ghost was: Surface)
    requires sx > 0 && sy > 0 && points != normals
    requires IsMesh(points[..], normals[..], faces[..], was, sx, sy)
    modifies points, normals
    ensures IsMesh(points[..], normals[..], faces[..], s, sx, sy)
  {
    FillPoints(sx, sy, s, points);
    var index := 0;
    ghost var f := 0;
    while index < faces.Length
      invariant index == 9 * f && 0 <= f <= FaceCount(sx, sy)
      invariant PointsUpTo(points[..], s, sx, VertexCount(sx, sy)) && FacesUpTo(faces[..], sx, FaceCount(sx, sy))
      invariant NormalsUpTo(normals[..], s, sx, f)
    {
      assert IsFace(faces[..], sx, f);
      assert faces[index + 1] == faces[index + 4] && faces[index + 1] == faces[index + 7];
      var a, b, c := faces[index], faces[index + 3], faces[index + 6];
      CornerPoints(points[..], s, sx, sy, f);
      assert IsVec(points[..], a, PointAt(s, sx, a)) && IsVec(points[..], b, PointAt(s, sx, b))
             && IsVec(points[..], c, PointAt(s, sx, c));
      var normal := TriangleNormal(s, points, a, b, c);
      StoreNormal(normals, s, sx, faces[index + 1], normal);
      index, f := index + 9, f + 1;
    }
  }

  /** Size and surface determine the arrays, so a recomputed mesh is a freshly built one. */
  lemma MeshUnique(points: seq<real>, normals: seq<real>, faces: seq<int>,
                   points': seq<real>, normals': seq<real>, faces': seq<int>, s: Surface, sx: nat, sy: nat)
    requires sx > 0 && IsMesh(points, normals, faces, s, sx, sy) && IsMesh(points', normals', faces', s, sx, sy)
    ensures points == points' && normals == normals' && faces == faces'
  {
    forall i | 0 <= i < |points| ensures points[i] == points'[i] {
      var v := i / 3;
      assert IsVec(points, v, PointAt(s, sx, v)) && IsVec(points', v, PointAt(s, sx, v));
    }
    forall i | 0 <= i < |normals| ensures normals[i] == normals'[i] {
      var f := i / 3;
      assert IsVec(normals, f, NormalAt(s, sx, f)) && IsVec(normals', f, NormalAt(s, sx, f));
    }
    FacesUnique(faces, faces', sx, FaceCount(sx, sy));
  }

  lemma FacesUnique(faces: seq<int>, faces': seq<int>, sx: nat, n: nat)
    requires sx > 0 && |faces| == |faces'| == 9 * n && FacesUpTo(faces, sx, n) && FacesUpTo(faces', sx, n)
    ensures faces == faces'
  {
    forall i | 0 <= i < |faces| ensures faces[i] == faces'[i] {
      var f := i / 9;
      assert IsFace(faces, sx, f) && IsFace(faces', sx, f);
    }
  }
}
