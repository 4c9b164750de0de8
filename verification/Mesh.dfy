/**
  The indexed mesh: subdivision in place with an appended tail, and the box it starts from.
 */
module Mesh {
  import opened TriangleSoup

  type Index = x: int | 0 <= x < 0x1_0000

  // ---- a mesh as values ----

  predicate Indexed(vertices: seq<Vec3>, indices: seq<Index>) {
    |indices| % 3 == 0 && forall i :: 0 <= i < |indices| ==> indices[i] < |vertices|
  }

  function TriAt(vertices: seq<Vec3>, indices: seq<Index>, k: nat): Tri
    requires Indexed(vertices, indices) && 3 * k < |indices|
  {
    Tri(vertices[indices[3 * k]], vertices[indices[3 * k + 1]], vertices[indices[3 * k + 2]])
  }

  function Soup(vertices: seq<Vec3>, indices: seq<Index>): (ts: seq<Tri>)
    requires Indexed(vertices, indices)
    ensures |ts| == |indices| / 3
  {
    seq(|indices| / 3, k requires 0 <= k < |indices| / 3 => TriAt(vertices, indices, k))
  }

  function NewVertices(t: Tri): seq<Vec3> {
    [Middle(t.a, t.b), Middle(t.c, t.a), Middle(t.b, t.c)]
  }

  /** Triangle `k` now joins the three new vertices, which start at `v`; its corners follow at the end. */
  function NewIndices(indices: seq<Index>, k: nat, v: nat): seq<Index>
    requires 3 * k + 2 < |indices| && v + 2 < 0x1_0000
  {
    var i1, i2, i3 := indices[3 * k], indices[3 * k + 1], indices[3 * k + 2];
    indices[3 * k := v + 1][3 * k + 1 := v][3 * k + 2 := v + 2] + [i1, v, v + 1, v, i2, v + 2, v + 2, i3, v + 1]
  }

  function WithThree(s: seq<Index>, at: nat, a: Index, b: Index, c: Index): (r: seq<Index>)
    requires at + 3 <= |s|
    ensures |r| == |s|
  {
    s[at := a][at + 1 := b][at + 2 := c]
  }

  /** Writing the triangle and its corners into the index buffer is appending the corners to the used part. */
  lemma ThreePut(s: seq<Index>, n: nat, k: nat, v: nat)
    requires 3 * k + 2 < n && n + 9 <= |s| && v + 2 < 0x1_0000
    ensures var i1, i2, i3 := s[3 * k], s[3 * k + 1], s[3 * k + 2];
            var s1 := WithThree(s, 3 * k, v + 1, v, v + 2);
            var s2 := WithThree(s1, n, i1, v, v + 1);
            var s3 := WithThree(s2, n + 3, v, i2, v + 2);
            var s4 := WithThree(s3, n + 6, v + 2, i3, v + 1);
            s4[..n + 9] == NewIndices(s[..n], k, v)
  {
  }

  lemma NewIndexed(vertices: seq<Vec3>, indices: seq<Index>, k: nat)
    requires Indexed(vertices, indices) && 3 * k < |indices| && |vertices| + 2 < 0x1_0000
    ensures Indexed(vertices + NewVertices(TriAt(vertices, indices, k)), NewIndices(indices, k, |vertices|))
  {
  }

  lemma OldTriangles(vertices: seq<Vec3>, indices: seq<Index>, k: nat, j: nat)
    requires Indexed(vertices, indices) && 3 * k < |indices| && |vertices| + 2 < 0x1_0000 && 3 * j < |indices|
    ensures Indexed(vertices + NewVertices(TriAt(vertices, indices, k)), NewIndices(indices, k, |vertices|))
    ensures TriAt(vertices + NewVertices(TriAt(vertices, indices, k)), NewIndices(indices, k, |vertices|), j)
         == if j == k then Inner(TriAt(vertices, indices, k)) else TriAt(vertices, indices, j)
  {
    NewIndexed(vertices, indices, k);
  }

  lemma NewTriangles(vertices: seq<Vec3>, indices: seq<Index>, k: nat, m: nat)
    requires Indexed(vertices, indices) && 3 * k < |indices| && |vertices| + 2 < 0x1_0000 && m < 3
    ensures Indexed(vertices + NewVertices(TriAt(vertices, indices, k)), NewIndices(indices, k, |vertices|))
    ensures TriAt(vertices + NewVertices(TriAt(vertices, indices, k)), NewIndices(indices, k, |vertices|), |indices| / 3 + m)
         == Corners(TriAt(vertices, indices, k))[m]
  {
    NewIndexed(vertices, indices, k);
  }

  /** One round of the subdivision, seen as triangles. */
  lemma SoupStep(vertices: seq<Vec3>, indices: seq<Index>, k: nat)
    requires Indexed(vertices, indices) && 3 * k < |indices| && |vertices| + 2 < 0x1_0000
    ensures var t := TriAt(vertices, indices, k);
            && Indexed(vertices + NewVertices(t), NewIndices(indices, k, |vertices|))
            && Soup(vertices + NewVertices(t), NewIndices(indices, k, |vertices|))
               == Soup(vertices, indices)[k := Inner(t)] + Corners(t)
  {
    var n := |indices| / 3;
    NewIndexed(vertices, indices, k);
    forall j: nat | j < n + 3
      ensures var t := TriAt(vertices, indices, k);
              TriAt(vertices + NewVertices(t), NewIndices(indices, k, |vertices|), j)
              == (Soup(vertices, indices)[k := Inner(t)] + Corners(t))[j]
    {
      if j < n {
        OldTriangles(vertices, indices, k, j);
      } else {
        NewTriangles(vertices, indices, k, j - n);
      }
    }
  }

  // ---- the box ----

  function BoxVertices(size: real): (vs: seq<Vec3>)
    ensures |vs| == 8
  {
    [Vec3(-size, -size, -size), Vec3(-size, size, -size), Vec3(size, size, -size), Vec3(size, -size, -size),
     Vec3(-size, -size, size), Vec3(-size, size, size), Vec3(size, size, size), Vec3(size, -size, size)]
  }

  const FRONT: seq<Index> := [0, 1, 2, 0, 2, 3]
  const BACK: seq<Index> := [4, 6, 5, 4, 7, 6]
  const LEFT: seq<Index> := [4, 5, 1, 4, 1, 0]
  const RIGHT: seq<Index> := [3, 2, 6, 3, 6, 7]
  const TOP: seq<Index> := [1, 5, 6, 1, 6, 2]
  const BOTTOM: seq<Index> := [4, 0, 3, 4, 3, 7]

  function BoxIndices(): (r: seq<Index>)
    ensures |r| == 36 && forall i :: 0 <= i < 36 ==> r[i] < 8
  {
    FRONT + (BACK + (LEFT + (RIGHT + (TOP + BOTTOM))))
  }

  /** What a directed edge between two vertex numbers counts for. */
  type EdgeWeight = (nat, nat) -> real

  /** The weights of all directed edges of the triangles, by vertex number. */
  function Weights(indices: seq<Index>, h: EdgeWeight): real
    decreases |indices|
  {
    if |indices| < 3 then 0.0
    else h(indices[0], indices[1]) + h(indices[1], indices[2]) + h(indices[2], indices[0]) + Weights(indices[3..], h)
  }

  lemma {:induction false} WeightsConcat(s: seq<Index>, t: seq<Index>, h: EdgeWeight)
    requires |s| % 3 == 0
    ensures Weights(s + t, h) == Weights(s, h) + Weights(t, h)
    decreases |s|
  {
    if s == [] {
      assert s + t == t;
    } else {
      assert (s + t)[3..] == s[3..] + t;
      WeightsConcat(s[3..], t, h);
    }
  }

  lemma WeightsOfTriangle(a: Index, b: Index, c: Index, h: EdgeWeight)
    ensures Weights([a, b, c], h) == h(a, b) + h(b, c) + h(c, a)
  {
    assert [a, b, c][3..] == [];
  }

  lemma WeightsOfFace(a: Index, b: Index, c: Index, d: Index, e: Index, f: Index, h: EdgeWeight)
    ensures Weights([a, b, c, d, e, f], h) == h(a, b) + h(b, c) + h(c, a) + h(d, e) + h(e, f) + h(f, d)
  {
    assert [a, b, c, d, e, f] == [a, b, c] + [d, e, f];
    WeightsConcat([a, b, c], [d, e, f], h);
    WeightsOfTriangle(a, b, c, h);
    WeightsOfTriangle(d, e, f, h);
  }

  lemma WeightsOfBox(h: EdgeWeight)
    ensures Weights(BoxIndices(), h)
         == Weights(FRONT, h) + Weights(BACK, h) + Weights(LEFT, h) + Weights(RIGHT, h) + Weights(TOP, h) + Weights(BOTTOM, h)
  {
    WeightsConcat(TOP, BOTTOM, h);
    WeightsConcat(RIGHT, TOP + BOTTOM, h);
    WeightsConcat(LEFT, RIGHT + (TOP + BOTTOM), h);
    WeightsConcat(BACK, LEFT + (RIGHT + (TOP + BOTTOM)), h);
    WeightsConcat(FRONT, BACK + (LEFT + (RIGHT + (TOP + BOTTOM))), h);
  }

  lemma WeightsOfFaces(h: EdgeWeight)
    ensures Weights(BoxIndices(), h)
         == h(0, 1) + h(1, 2) + h(2, 0) + h(0, 2) + h(2, 3) + h(3, 0)
          + h(4, 6) + h(6, 5) + h(5, 4) + h(4, 7) + h(7, 6) + h(6, 4)
          + h(4, 5) + h(5, 1) + h(1, 4) + h(4, 1) + h(1, 0) + h(0, 4)
          + h(3, 2) + h(2, 6) + h(6, 3) + h(3, 6) + h(6, 7) + h(7, 3)
          + h(1, 5) + h(5, 6) + h(6, 1) + h(1, 6) + h(6, 2) + h(2, 1)
          + h(4, 0) + h(0, 3) + h(3, 4) + h(4, 3) + h(3, 7) + h(7, 4)
  {
    WeightsOfBox(h);
    WeightsOfFace(0, 1, 2, 0, 2, 3, h);
    WeightsOfFace(4, 6, 5, 4, 7, 6, h);
    WeightsOfFace(4, 5, 1, 4, 1, 0, h);
    WeightsOfFace(3, 2, 6, 3, 6, 7, h);
    WeightsOfFace(1, 5, 6, 1, 6, 2, h);
    WeightsOfFace(4, 0, 3, 4, 3, 7, h);
  }

  ghost predicate Transposed(h: EdgeWeight, g: EdgeWeight) {
    forall i: nat, j: nat :: g(i, j) == h(j, i)
  }

  /** By vertex number every directed edge occurs as often as its reverse, whatever edges count for. */
  ghost predicate Balanced(indices: seq<Index>) {
    forall h: EdgeWeight, g: EdgeWeight :: Transposed(h, g) ==> Weights(indices, g) == Weights(indices, h)
  }

  lemma BoxIsBalanced()
    ensures Balanced(BoxIndices())
  {
    forall h: EdgeWeight, g: EdgeWeight | Transposed(h, g)
      ensures Weights(BoxIndices(), g) == Weights(BoxIndices(), h)
    {
      WeightsOfFaces(h);
      WeightsOfFaces(g);
    }
  }

  function EdgeTest(vertices: seq<Vec3>, p: Vec3, q: Vec3): EdgeWeight {
    (i: nat, j: nat) => if i < |vertices| && j < |vertices| then Is(vertices[i], vertices[j], p, q) else 0.0
  }

  lemma {:induction false} EdgesAreWeights(vertices: seq<Vec3>, indices: seq<Index>, p: Vec3, q: Vec3)
    requires Indexed(vertices, indices)
    ensures Edges(Soup(vertices, indices), p, q) == Weights(indices, EdgeTest(vertices, p, q))
    decreases |indices|
  {
    if indices != [] {
      EdgesAreWeights(vertices, indices[3..], p, q);
      assert Soup(vertices, indices)[1..] == Soup(vertices, indices[3..]);
      assert Soup(vertices, indices)[0] == TriAt(vertices, indices, 0);
    }
  }

  /** A mesh with balanced indices is closed, wherever its vertices lie. */
  lemma BalancedIsClosed(vertices: seq<Vec3>, indices: seq<Index>)
    requires Indexed(vertices, indices) && Balanced(indices)
    ensures Closed(Soup(vertices, indices))
  {
    forall p: Vec3, q: Vec3
      ensures Edges(Soup(vertices, indices), p, q) == Edges(Soup(vertices, indices), q, p)
    {
      EdgesAreWeights(vertices, indices, p, q);
      EdgesAreWeights(vertices, indices, q, p);
      assert Transposed(EdgeTest(vertices, p, q), EdgeTest(vertices, q, p));
    }
  }

  /** The box is closed, and stays so through any number of subdivisions. */
  lemma BoxStaysClosed(size: real, k: nat)
    ensures Indexed(BoxVertices(size), BoxIndices())
    ensures Closed(SubdividedTimes(Soup(BoxVertices(size), BoxIndices()), k))
  {
    BoxIsBalanced();
    BalancedIsClosed(BoxVertices(size), BoxIndices());
    RepeatedSubdivision(Soup(BoxVertices(size), BoxIndices()), k);
  }

  // ---- the shape of the box ----

  /** Every corner is one of the eight combinations of plus and minus `size`, and every combination is a corner. */
  lemma BoxCorners(size: real, x: real, y: real, z: real)
    requires size > 0.0
    ensures Vec3(x, y, z) in BoxVertices(size) <==> x in {-size, size} && y in {-size, size} && z in {-size, size}
    ensures forall i, j :: 0 <= i < j < 8 ==> BoxVertices(size)[i] != BoxVertices(size)[j]
  {
    var vs := BoxVertices(size);
    if x in {-size, size} && y in {-size, size} && z in {-size, size} {
      assert Vec3(x, y, z) == vs[0] || Vec3(x, y, z) == vs[1] || Vec3(x, y, z) == vs[2] || Vec3(x, y, z) == vs[3]
          || Vec3(x, y, z) == vs[4] || Vec3(x, y, z) == vs[5] || Vec3(x, y, z) == vs[6] || Vec3(x, y, z) == vs[7];
    }
  }

  /** The triangle lies in the plane at distance `size` along the axis `n` and faces that way with area 2 size^2. */
  predicate OnFace(t: Tri, n: Vec3, size: real) {
    && Dot(t.a, n) == size && Dot(t.b, n) == size && Dot(t.c, n) == size
    && AreaVector(t) == Vec3(Square(size, n.x), Square(size, n.y), Square(size, n.z))
  }

  /** The area of a square with sides of twice `size`, times `k`. */
  function Square(size: real, k: real): real {
    4.0 * size * size * k
  }

  function BoxTriangles(size: real): (ts: seq<Tri>)
    ensures |ts| == 12
  {
    Soup(BoxVertices(size), BoxIndices())
  }

  function BoxTriangle(size: real, i: nat, j: nat, k: nat): Tri
    requires i < 8 && j < 8 && k < 8
  {
    Tri(BoxVertices(size)[i], BoxVertices(size)[j], BoxVertices(size)[k])
  }

  lemma FaceIndices()
    ensures BoxIndices()[0..6] == [0, 1, 2, 0, 2, 3]
    ensures BoxIndices()[6..12] == [4, 6, 5, 4, 7, 6]
    ensures BoxIndices()[12..18] == [4, 5, 1, 4, 1, 0]
    ensures BoxIndices()[18..24] == [3, 2, 6, 3, 6, 7]
    ensures BoxIndices()[24..30] == [1, 5, 6, 1, 6, 2]
    ensures BoxIndices()[30..36] == [4, 0, 3, 4, 3, 7]
  {
  }

  lemma PairAt(vertices: seq<Vec3>, indices: seq<Index>, face: nat, ix: seq<Index>)
    requires Indexed(vertices, indices) && 6 * face + 6 <= |indices| && ix == indices[6 * face..6 * face + 6]
    ensures forall i :: 0 <= i < 6 ==> ix[i] < |vertices|
    ensures Soup(vertices, indices)[2 * face] == Tri(vertices[ix[0]], vertices[ix[1]], vertices[ix[2]])
    ensures Soup(vertices, indices)[2 * face + 1] == Tri(vertices[ix[3]], vertices[ix[4]], vertices[ix[5]])
  {
    assert forall i :: 0 <= i < 6 ==> ix[i] == indices[6 * face + i];
  }

  lemma FaceTriangles(size: real, face: nat, ix: seq<Index>)
    requires face < 6 && ix == BoxIndices()[6 * face..6 * face + 6]
    ensures forall i :: 0 <= i < 6 ==> ix[i] < 8
    ensures BoxTriangles(size)[2 * face] == BoxTriangle(size, ix[0], ix[1], ix[2])
    ensures BoxTriangles(size)[2 * face + 1] == BoxTriangle(size, ix[3], ix[4], ix[5])
  {
    PairAt(BoxVertices(size), BoxIndices(), face, ix);
  }

  /** The cross product of two sides that are multiples of twice `size` along the axes. */
  lemma SidesCross(t: Tri, size: real, k: Vec3, l: Vec3)
    requires Minus(t.b, t.a) == Vec3(2.0 * size * k.x, 2.0 * size * k.y, 2.0 * size * k.z)
    requires Minus(t.c, t.a) == Vec3(2.0 * size * l.x, 2.0 * size * l.y, 2.0 * size * l.z)
    ensures AreaVector(t) == Vec3(Square(size, k.y * l.z - k.z * l.y), Square(size, k.z * l.x - k.x * l.z),
                                  Square(size, k.x * l.y - k.y * l.x))
  {
  }

  lemma FrontFace(size: real)
    ensures OnFace(BoxTriangle(size, 0, 1, 2), Vec3(0.0, 0.0, -1.0), size)
    ensures OnFace(BoxTriangle(size, 0, 2, 3), Vec3(0.0, 0.0, -1.0), size)
  {
    SidesCross(BoxTriangle(size, 0, 1, 2), size, Vec3(0.0, 1.0, 0.0), Vec3(1.0, 1.0, 0.0));
    SidesCross(BoxTriangle(size, 0, 2, 3), size, Vec3(1.0, 1.0, 0.0), Vec3(1.0, 0.0, 0.0));
  }

  lemma BackFace(size: real)
    ensures OnFace(BoxTriangle(size, 4, 6, 5), Vec3(0.0, 0.0, 1.0), size)
    ensures OnFace(BoxTriangle(size, 4, 7, 6), Vec3(0.0, 0.0, 1.0), size)
  {
    SidesCross(BoxTriangle(size, 4, 6, 5), size, Vec3(1.0, 1.0, 0.0), Vec3(0.0, 1.0, 0.0));
    SidesCross(BoxTriangle(size, 4, 7, 6), size, Vec3(1.0, 0.0, 0.0), Vec3(1.0, 1.0, 0.0));
  }

  lemma LeftFace(size: real)
    ensures OnFace(BoxTriangle(size, 4, 5, 1), Vec3(-1.0, 0.0, 0.0), size)
    ensures OnFace(BoxTriangle(size, 4, 1, 0), Vec3(-1.0, 0.0, 0.0), size)
  {
    SidesCross(BoxTriangle(size, 4, 5, 1), size, Vec3(0.0, 1.0, 0.0), Vec3(0.0, 1.0, -1.0));
    SidesCross(BoxTriangle(size, 4, 1, 0), size, Vec3(0.0, 1.0, -1.0), Vec3(0.0, 0.0, -1.0));
  }

  lemma RightFace(size: real)
    ensures OnFace(BoxTriangle(size, 3, 2, 6), Vec3(1.0, 0.0, 0.0), size)
    ensures OnFace(BoxTriangle(size, 3, 6, 7), Vec3(1.0, 0.0, 0.0), size)
  {
    SidesCross(BoxTriangle(size, 3, 2, 6), size, Vec3(0.0, 1.0, 0.0), Vec3(0.0, 1.0, 1.0));
    SidesCross(BoxTriangle(size, 3, 6, 7), size, Vec3(0.0, 1.0, 1.0), Vec3(0.0, 0.0, 1.0));
  }

  lemma TopFace(size: real)
    ensures OnFace(BoxTriangle(size, 1, 5, 6), Vec3(0.0, 1.0, 0.0), size)
    ensures OnFace(BoxTriangle(size, 1, 6, 2), Vec3(0.0, 1.0, 0.0), size)
  {
    SidesCross(BoxTriangle(size, 1, 5, 6), size, Vec3(0.0, 0.0, 1.0), Vec3(1.0, 0.0, 1.0));
    SidesCross(BoxTriangle(size, 1, 6, 2), size, Vec3(1.0, 0.0, 1.0), Vec3(1.0, 0.0, 0.0));
  }

  lemma BottomFace(size: real)
    ensures OnFace(BoxTriangle(size, 4, 0, 3), Vec3(0.0, -1.0, 0.0), size)
    ensures OnFace(BoxTriangle(size, 4, 3, 7), Vec3(0.0, -1.0, 0.0), size)
  {
    SidesCross(BoxTriangle(size, 4, 0, 3), size, Vec3(0.0, 0.0, -1.0), Vec3(1.0, 0.0, -1.0));
    SidesCross(BoxTriangle(size, 4, 3, 7), size, Vec3(1.0, 0.0, -1.0), Vec3(1.0, 0.0, 0.0));
  }

  /** The outward direction of the faces. */
  function Outward(face: nat): Vec3
    requires face < 6
  {
    if face == 0 then Vec3(0.0, 0.0, -1.0) else if face == 1 then Vec3(0.0, 0.0, 1.0)
    else if face == 2 then Vec3(-1.0, 0.0, 0.0) else if face == 3 then Vec3(1.0, 0.0, 0.0)
    else if face == 4 then Vec3(0.0, 1.0, 0.0) else Vec3(0.0, -1.0, 0.0)
  }

  /** Two triangles to a face, each half of it, facing away from the centre. */
  lemma BoxFaces(size: real, face: nat)
    requires face < 6
    ensures OnFace(BoxTriangles(size)[2 * face], Outward(face), size)
    ensures OnFace(BoxTriangles(size)[2 * face + 1], Outward(face), size)
  {
    FaceIndices();
    FaceTriangles(size, face, BoxIndices()[6 * face..6 * face + 6]);
    if face == 0 {
      FrontFace(size);
    } else if face == 1 {
      BackFace(size);
    } else if face == 2 {
      LeftFace(size);
    } else if face == 3 {
      RightFace(size);
    } else if face == 4 {
      TopFace(size);
    } else {
      BottomFace(size);
    }
  }

  function Cube(size: real): real {
    size * size * size
  }

  lemma DotSquare(u: Vec3, n: Vec3, size: real)
    ensures Dot(u, Vec3(Square(size, n.x), Square(size, n.y), Square(size, n.z))) == Square(size, Dot(u, n))
  {
  }

  lemma FaceVolume(t: Tri, n: Vec3, size: real)
    requires OnFace(t, n, size)
    ensures Volume(t) == 4.0 * Cube(size)
  {
    DotSquare(t.a, n, size);
    assert Square(size, size) == 4.0 * Cube(size);
  }

  lemma {:induction false} EqualVolumes(ts: seq<Tri>, v: real)
    requires forall i :: 0 <= i < |ts| ==> Volume(ts[i]) == v
    ensures Enclosed(ts) == v * |ts| as real
  {
    if ts != [] {
      EqualVolumes(ts[1..], v);
    }
  }

  /** Six times the volume of a cube with sides of twice `size`, and so through any number of subdivisions. */
  lemma BoxVolume(size: real, k: nat)
    ensures Enclosed(BoxTriangles(size)) == 48.0 * size * size * size
    ensures Enclosed(SubdividedTimes(BoxTriangles(size), k)) == 48.0 * size * size * size
  {
    var ts := BoxTriangles(size);
    forall i | 0 <= i < 12
      ensures Volume(ts[i]) == 4.0 * Cube(size)
    {
      BoxFaces(size, i / 2);
      assert i == 2 * (i / 2) || i == 2 * (i / 2) + 1;
      FaceVolume(ts[i], Outward(i / 2), size);
    }
    EqualVolumes(ts, 4.0 * Cube(size));
    RepeatedSubdivision(ts, k);
  }

  lemma PrefixTransitive(a: seq<Vec3>, b: seq<Vec3>, c: seq<Vec3>)
    requires a <= b && b <= c
    ensures a <= c
  {
  }

  // ---- the mesh object ----

  class Mesh {
    const vertices: array<Vec3>
    const indices: array<Index>
    var numVertices: Index
    var numIndices: Index

    ghost predicate Valid()
      reads this, vertices, indices
    {
      && numVertices <= vertices.Length < 0x1_0000 && numIndices <= indices.Length < 0x1_0000
      && Indexed(Vertices(), Indices())
    }

    ghost function Vertices(): seq<Vec3>
      requires numVertices <= vertices.Length
      reads this, vertices
    {
      vertices[..numVertices]
    }

    ghost function Indices(): seq<Index>
      requires numIndices <= indices.Length
      reads this, indices
    {
      indices[..numIndices]
    }

    ghost function Triangles(): seq<Tri>
      requires Valid()
      reads this, vertices, indices
    {
      Soup(Vertices(), Indices())
    }

    constructor (vertexCapacity: Index, indexCapacity: Index)
      ensures Valid() && Vertices() == [] && Indices() == []
      ensures fresh(vertices) && fresh(indices) && vertices.Length == vertexCapacity && indices.Length == indexCapacity
    {
      vertices := new Vec3[vertexCapacity](_ => Vec3(0.0, 0.0, 0.0));
      indices := new Index[indexCapacity](_ => 0);
      numVertices, numIndices := 0, 0;
    }

    /** Appends the three middles of the triangle (v1, v2, v3). */
    method AddVertices(v1: Vec3, v2: Vec3, v3: Vec3) returns (i4: Index, i5: Index, i6: Index)
      requires numVertices + 3 <= vertices.Length < 0x1_0000
      modifies `numVertices, vertices
      ensures numVertices == old(numVertices) + 3
      ensures i4 == old(numVertices) && i5 == i4 + 1 && i6 == i4 + 2
      ensures Vertices() == old(Vertices()) + NewVertices(Tri(v1, v2, v3))
    {
      var v4 := Lerp(v1, v2, 0.5);
      var v6 := Lerp(v2, v3, 0.5);
      var v5 := Lerp(v3, v1, 0.5);
      i4 := numVertices;
      numVertices := numVertices + 1;
      i5 := numVertices;
      numVertices := numVertices + 1;
      i6 := numVertices;
      numVertices := numVertices + 1;
      vertices[i4], vertices[i5], vertices[i6] := v4, v5, v6;
    }

    /** Rewrites triangle `k` and appends its three corners. */
    method AddIndices(k: nat, i4: Index, i5: Index, i6: Index)
      requires 3 * k + 2 < numIndices && numIndices + 9 <= indices.Length < 0x1_0000
      requires i5 == i4 + 1 && i6 == i4 + 2
      modifies `numIndices, indices
      ensures numIndices == old(numIndices) + 9
      ensures Indices() == NewIndices(old(Indices()), k, i4)
    {
      ghost var before := indices[..];
      var idx: nat, pn: nat := 3 * k, numIndices;
      var i1, i2, i3 := indices[idx], indices[idx + 1], indices[idx + 2];
      Put(idx, i5, i4, i6);
      Put(pn, i1, i4, i5);
      Put(pn + 3, i4, i2, i6);
      Put(pn + 6, i6, i3, i5);
      ThreePut(before, pn, k, i4);
      numIndices := numIndices + 9;
    }

    method Put(at: nat, a: Index, b: Index, c: Index)
      requires at + 3 <= indices.Length
      modifies indices
      ensures indices[..] == WithThree(old(indices[..]), at, a, b, c)
    {
      indices[at], indices[at + 1], indices[at + 2] := a, b, c;
    }

    method SubdivideTriangle(k: nat)
      requires Valid() && 3 * k < numIndices && numVertices + 3 <= vertices.Length && numIndices + 9 <= indices.Length
      modifies this, vertices, indices
      ensures Valid() && numVertices == old(numVertices) + 3 && numIndices == old(numIndices) + 9
      ensures old(Vertices()) <= Vertices()
      ensures Triangles() == old(Triangles())[k := Inner(old(Triangles())[k])] + Corners(old(Triangles())[k])
    {
      SoupStep(Vertices(), Indices(), k);
      var v1, v2, v3 := vertices[indices[3 * k]], vertices[indices[3 * k + 1]], vertices[indices[3 * k + 2]];
      var i4, i5, i6 := AddVertices(v1, v2, v3);
      AddIndices(k, i4, i5, i6);
    }

    /** Splits every triangle in four, in place and with an appended tail. */
    method Subdivide()
      requires Valid()
      requires numVertices + numIndices <= vertices.Length && 4 * numIndices <= indices.Length
      modifies this, vertices, indices
      ensures Valid() && numVertices == old(numVertices) + old(numIndices) && numIndices == 4 * old(numIndices)
      ensures old(Vertices()) <= Vertices()
      ensures Triangles() == Subdivided(old(Triangles()))
    {
      ghost var start, ts := Vertices(), Triangles();
      var initialMax: nat, k: nat := numIndices, 0;
      while 3 * k < initialMax
        invariant 0 <= 3 * k <= initialMax && Valid()
        invariant numVertices == old(numVertices) + 3 * k && numIndices == initialMax + 9 * k
        invariant start <= Vertices() && Triangles() == Divided(ts, k)
      {
        ghost var before := Vertices();
        NextDivided(ts, k);
        SubdivideTriangle(k);
        PrefixTransitive(start, before, Vertices());
        k := k + 1;
      }
    }

    method CreateBox(size: real)
      requires Valid() && 8 < vertices.Length && 36 < indices.Length
      modifies this, vertices, indices
      ensures Valid() && Vertices() == BoxVertices(size) && Indices() == BoxIndices()
      ensures Closed(Triangles()) && |Triangles()| == 12
      ensures forall face: nat {:trigger Outward(face)} :: face < 6 ==>
                && OnFace(Triangles()[2 * face], Outward(face), size)
                && OnFace(Triangles()[2 * face + 1], Outward(face), size)
      ensures Enclosed(Triangles()) == 48.0 * size * size * size
    {
      var vs, ns := BoxVertices(size), BoxIndices();
      for i := 0 to |vs|
        invariant vertices[..i] == vs[..i]
      {
        vertices[i] := vs[i];
      }
      for i := 0 to |ns|
        invariant vertices[..|vs|] == vs && indices[..i] == ns[..i]
      {
        indices[i] := ns[i];
      }
      numVertices, numIndices := |vs|, |ns|;
      BoxIsBalanced();
      BalancedIsClosed(vs, ns);
      forall face: nat | face < 6
        ensures OnFace(Triangles()[2 * face], Outward(face), size)
        ensures OnFace(Triangles()[2 * face + 1], Outward(face), size)
      {
        BoxFaces(size, face);
      }
      BoxVolume(size, 0);
    }
  }
}
