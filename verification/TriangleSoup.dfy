/**
  Triangles as corner positions over the reals, and what replacing each of them by four does to
  edges and areas.
 */
module TriangleSoup {
  datatype Vec3 = Vec3(x: real, y: real, z: real)

  datatype Tri = Tri(a: Vec3, b: Vec3, c: Vec3)

  function Minus(u: Vec3, v: Vec3): Vec3 {
    Vec3(u.x - v.x, u.y - v.y, u.z - v.z)
  }

  function Lerp(u: Vec3, v: Vec3, f: real): Vec3 {
    Vec3(u.x + (v.x - u.x) * f, u.y + (v.y - u.y) * f, u.z + (v.z - u.z) * f)
  }

  function Middle(u: Vec3, v: Vec3): Vec3 {
    Lerp(u, v, 0.5)
  }

  /** The far end of the segment from `u` whose middle is `m`. */
  function Beyond(u: Vec3, m: Vec3): Vec3 {
    Vec3(2.0 * m.x - u.x, 2.0 * m.y - u.y, 2.0 * m.z - u.z)
  }

  // ---- one subdivision ----

  function Inner(t: Tri): Tri {
    Tri(Middle(t.c, t.a), Middle(t.a, t.b), Middle(t.b, t.c))
  }

  function CornerA(t: Tri): Tri {
    Tri(t.a, Middle(t.a, t.b), Middle(t.c, t.a))
  }

  function CornerB(t: Tri): Tri {
    Tri(Middle(t.a, t.b), t.b, Middle(t.b, t.c))
  }

  function CornerC(t: Tri): Tri {
    Tri(Middle(t.b, t.c), t.c, Middle(t.c, t.a))
  }

  function Corners(t: Tri): seq<Tri> {
    [CornerA(t), CornerB(t), CornerC(t)]
  }

  /** The first `k` triangles replaced by their inner ones, their corners appended behind all others. */
  function Divided(ts: seq<Tri>, k: nat): (r: seq<Tri>)
    requires k <= |ts|
    ensures |r| == |ts| + 3 * k
    ensures forall j :: k <= j < |ts| ==> r[j] == ts[j]
  {
    if k == 0 then ts else Divided(ts, k - 1)[k - 1 := Inner(ts[k - 1])] + Corners(ts[k - 1])
  }

  lemma NextDivided(ts: seq<Tri>, k: nat)
    requires k < |ts|
    ensures Divided(ts, k)[k] == ts[k]
    ensures Divided(ts, k + 1) == Divided(ts, k)[k := Inner(ts[k])] + Corners(ts[k])
  {
  }

  function Subdivided(ts: seq<Tri>): (r: seq<Tri>)
    ensures |r| == 4 * |ts|
  {
    Divided(ts, |ts|)
  }

  function SubdividedTimes(ts: seq<Tri>, k: nat): seq<Tri> {
    if k == 0 then ts else Subdivided(SubdividedTimes(ts, k - 1))
  }

  // ---- sums over triangles ----

  type Measure = Tri -> real

  function Total(ts: seq<Tri>, f: Measure): real {
    if ts == [] then 0.0 else f(ts[0]) + Total(ts[1..], f)
  }

  lemma {:induction false} TotalConcat(s: seq<Tri>, t: seq<Tri>, f: Measure)
    ensures Total(s + t, f) == Total(s, f) + Total(t, f)
    decreases |s|
  {
    if s == [] {
      assert s + t == t;
    } else {
      assert (s + t)[1..] == s[1..] + t;
      TotalConcat(s[1..], t, f);
    }
  }

  lemma {:induction false} TotalUpdate(s: seq<Tri>, i: nat, t: Tri, f: Measure)
    requires i < |s|
    ensures Total(s[i := t], f) == Total(s, f) - f(s[i]) + f(t)
    decreases |s|
  {
    if i == 0 {
      assert s[i := t][1..] == s[1..];
    } else {
      assert s[i := t][1..] == s[1..][i - 1 := t];
      TotalUpdate(s[1..], i - 1, t, f);
    }
  }

  lemma TotalCorners(t: Tri, f: Measure)
    ensures Total(Corners(t), f) == f(CornerA(t)) + f(CornerB(t)) + f(CornerC(t))
  {
    assert Corners(t) == [CornerA(t)] + ([CornerB(t)] + [CornerC(t)]);
    TotalConcat([CornerA(t)], [CornerB(t)] + [CornerC(t)], f);
    TotalConcat([CornerB(t)], [CornerC(t)], f);
  }

  /** f over the four parts of a triangle adds up to g of the triangle. */
  ghost predicate Splits(f: Measure, g: Measure) {
    forall t: Tri :: f(Inner(t)) + f(CornerA(t)) + f(CornerB(t)) + f(CornerC(t)) == g(t)
  }

  /** What holds part by part holds in total. */
  lemma {:induction false} TotalDivided(ts: seq<Tri>, k: nat, f: Measure, g: Measure)
    requires Splits(f, g) && k <= |ts|
    ensures Total(Divided(ts, k), f) == Total(ts[..k], g) + Total(ts[k..], f)
  {
    if k == 0 {
      assert ts[..k] == [] && ts[k..] == ts;
    } else {
      var before, t := Divided(ts, k - 1), ts[k - 1];
      TotalDivided(ts, k - 1, f, g);
      TotalUpdate(before, k - 1, Inner(t), f);
      TotalConcat(before[k - 1 := Inner(t)], Corners(t), f);
      TotalCorners(t, f);
      TotalShift(ts, k, f, g);
    }
  }

  /** Triangle k - 1 moves from the undivided part to the divided one. */
  lemma TotalShift(ts: seq<Tri>, k: nat, f: Measure, g: Measure)
    requires 0 < k <= |ts|
    ensures Total(ts[..k], g) == Total(ts[..k - 1], g) + g(ts[k - 1])
    ensures Total(ts[k - 1..], f) == f(ts[k - 1]) + Total(ts[k..], f)
  {
    assert ts[..k] == ts[..k - 1] + [ts[k - 1]];
    TotalConcat(ts[..k - 1], [ts[k - 1]], g);
    assert ts[k - 1..][1..] == ts[k..];
  }

  lemma TotalSubdivided(ts: seq<Tri>, f: Measure, g: Measure)
    requires Splits(f, g)
    ensures Total(Subdivided(ts), f) == Total(ts, g)
  {
    TotalDivided(ts, |ts|, f, g);
    assert ts[..|ts|] == ts && ts[|ts|..] == [];
  }

  lemma {:induction false} TotalSum(ts: seq<Tri>, f: Measure, g: Measure, h: Measure)
    requires forall t: Tri :: h(t) == f(t) + g(t)
    ensures Total(ts, h) == Total(ts, f) + Total(ts, g)
    decreases |ts|
  {
    if ts != [] {
      TotalSum(ts[1..], f, g, h);
    }
  }

  // ---- area vectors ----

  /** Twice the oriented area vector: the cross product of two sides. */
  function AreaVector(t: Tri): Vec3 {
    var u, v := Minus(t.b, t.a), Minus(t.c, t.a);
    Vec3(u.y * v.z - u.z * v.y, u.z * v.x - u.x * v.z, u.x * v.y - u.y * v.x)
  }

  function Quarter(v: Vec3): Vec3 {
    Vec3(v.x / 4.0, v.y / 4.0, v.z / 4.0)
  }

  /** The cross product of two half sides is a quarter, and so is that of two negated half sides. */
  lemma HalfSides(s: Tri, t: Tri, sign: real)
    requires sign == 1.0 || sign == -1.0
    requires Minus(s.b, s.a) == Vec3(sign * (t.b.x - t.a.x) / 2.0, sign * (t.b.y - t.a.y) / 2.0, sign * (t.b.z - t.a.z) / 2.0)
    requires Minus(s.c, s.a) == Vec3(sign * (t.c.x - t.a.x) / 2.0, sign * (t.c.y - t.a.y) / 2.0, sign * (t.c.z - t.a.z) / 2.0)
    ensures AreaVector(s) == Quarter(AreaVector(t))
  {
  }

  function Turned(t: Tri): Tri {
    Tri(t.b, t.c, t.a)
  }

  lemma AreaOfTurned(t: Tri)
    ensures AreaVector(Turned(t)) == AreaVector(t)
  {
  }

  /** Each of the four parts has a quarter of the area vector: same plane, same orientation. */
  lemma AreaOfParts(t: Tri)
    ensures AreaVector(Inner(t)) == Quarter(AreaVector(t))
    ensures AreaVector(CornerA(t)) == Quarter(AreaVector(t))
    ensures AreaVector(CornerB(t)) == Quarter(AreaVector(t))
    ensures AreaVector(CornerC(t)) == Quarter(AreaVector(t))
  {
    AreaOfTurned(t);
    HalfSides(Inner(t), Turned(t), -1.0);
    HalfSides(CornerA(t), t, 1.0);
    HalfSides(CornerB(t), t, 1.0);
    HalfSides(CornerC(t), Turned(t), 1.0);
  }

  function Axis(v: Vec3, i: nat): real {
    if i == 0 then v.x else if i == 1 then v.y else v.z
  }

  function AreaAlong(i: nat): Measure {
    (t: Tri) => Axis(AreaVector(t), i)
  }

  function AreaSum(ts: seq<Tri>): Vec3 {
    Vec3(Total(ts, AreaAlong(0)), Total(ts, AreaAlong(1)), Total(ts, AreaAlong(2)))
  }

  lemma AreaSplits(i: nat)
    ensures Splits(AreaAlong(i), AreaAlong(i))
  {
    var f := AreaAlong(i);
    forall t: Tri
      ensures f(Inner(t)) + f(CornerA(t)) + f(CornerB(t)) + f(CornerC(t)) == f(t)
    {
      AreaOfParts(t);
      FourQuarters(AreaVector(t), i);
    }
  }

  lemma FourQuarters(v: Vec3, i: nat)
    ensures Axis(Quarter(v), i) * 4.0 == Axis(v, i)
  {
  }

  lemma AreaTotal(ts: seq<Tri>, i: nat)
    ensures Total(Subdivided(ts), AreaAlong(i)) == Total(ts, AreaAlong(i))
  {
    AreaSplits(i);
    TotalSubdivided(ts, AreaAlong(i), AreaAlong(i));
  }

  /** Subdivision conserves the sum of the area vectors. */
  lemma SubdivisionConservesArea(ts: seq<Tri>)
    ensures AreaSum(Subdivided(ts)) == AreaSum(ts)
  {
    AreaTotal(ts, 0);
    AreaTotal(ts, 1);
    AreaTotal(ts, 2);
  }

  // ---- volume ----

  function Dot(u: Vec3, v: Vec3): real {
    u.x * v.x + u.y * v.y + u.z * v.z
  }

  /** Six times the signed volume of the cone from the origin over a triangle: the determinant of its corners. */
  function Volume(t: Tri): real {
    Dot(t.a, AreaVector(t))
  }

  lemma VolumeIsDeterminant(t: Tri)
    ensures Volume(t) == t.a.x * (t.b.y * t.c.z - t.b.z * t.c.y) + t.a.y * (t.b.z * t.c.x - t.b.x * t.c.z)
                       + t.a.z * (t.b.x * t.c.y - t.b.y * t.c.x)
  {
  }

  /** The area vector is square to both sides it comes from. */
  lemma SquareToSides(t: Tri)
    ensures Dot(Minus(t.b, t.a), AreaVector(t)) == 0.0
    ensures Dot(Minus(t.c, t.a), AreaVector(t)) == 0.0
  {
  }

  lemma DotMinus(u: Vec3, v: Vec3, n: Vec3)
    ensures Dot(Minus(u, v), n) == Dot(u, n) - Dot(v, n)
  {
  }

  lemma DotMiddle(u: Vec3, v: Vec3, n: Vec3)
    requires Dot(u, n) == Dot(v, n)
    ensures Dot(Middle(u, v), n) == Dot(u, n)
  {
    DotMinus(v, u, n);
    assert Dot(Middle(u, v), n) == Dot(u, n) + Dot(Minus(v, u), n) * 0.5;
  }

  lemma DotQuarter(u: Vec3, n: Vec3)
    ensures Dot(u, Quarter(n)) * 4.0 == Dot(u, n)
  {
  }

  /** Each of the four parts encloses a quarter of the cone. */
  lemma VolumeOfParts(t: Tri)
    ensures Volume(Inner(t)) * 4.0 == Volume(CornerA(t)) * 4.0 == Volume(t)
    ensures Volume(CornerB(t)) * 4.0 == Volume(CornerC(t)) * 4.0 == Volume(t)
  {
    var n := AreaVector(t);
    AreaOfParts(t);
    SquareToSides(t);
    DotMinus(t.b, t.a, n);
    DotMinus(t.c, t.a, n);
    DotMiddle(t.a, t.b, n);
    DotMiddle(t.b, t.c, n);
    DotMiddle(t.c, t.a, n);
    DotQuarter(Inner(t).a, n);
    DotQuarter(CornerA(t).a, n);
    DotQuarter(CornerB(t).a, n);
    DotQuarter(CornerC(t).a, n);
  }

  function VolumeOf(): Measure {
    (t: Tri) => Volume(t)
  }

  /** Six times the volume that a closed surface encloses, positive if its triangles face outward. */
  function Enclosed(ts: seq<Tri>): real {
    Total(ts, VolumeOf())
  }

  /** Subdivision conserves the enclosed volume. */
  lemma SubdivisionConservesVolume(ts: seq<Tri>)
    ensures Enclosed(Subdivided(ts)) == Enclosed(ts)
  {
    forall t: Tri
      ensures VolumeOf()(Inner(t)) + VolumeOf()(CornerA(t)) + VolumeOf()(CornerB(t)) + VolumeOf()(CornerC(t)) == VolumeOf()(t)
    {
      VolumeOfParts(t);
    }
    TotalSubdivided(ts, VolumeOf(), VolumeOf());
  }

  // ---- edges ----

  function Is(u: Vec3, v: Vec3, p: Vec3, q: Vec3): real {
    if u == p && v == q then 1.0 else 0.0
  }

  /** How many of the three directed edges of a triangle lead from `p` to `q`. */
  function Hits(t: Tri, p: Vec3, q: Vec3): real {
    Is(t.a, t.b, p, q) + Is(t.b, t.c, p, q) + Is(t.c, t.a, p, q)
  }

  function HitsOf(p: Vec3, q: Vec3): Measure {
    (t: Tri) => Hits(t, p, q)
  }

  /** How often the directed edge from `p` to `q` occurs. */
  function Edges(ts: seq<Tri>, p: Vec3, q: Vec3): real {
    Total(ts, HitsOf(p, q))
  }

  /** Every directed edge occurs as often as its reverse: the surface has no border. */
  ghost predicate Closed(ts: seq<Tri>) {
    forall p: Vec3, q: Vec3 :: Edges(ts, p, q) == Edges(ts, q, p)
  }

  /** The halves of an edge: the one from `p` to `q` comes from the edge it is the first or the last half of. */
  lemma Halves(u: Vec3, v: Vec3, p: Vec3, q: Vec3)
    ensures Is(u, Middle(u, v), p, q) == Is(u, v, p, Beyond(p, q))
    ensures Is(Middle(u, v), v, p, q) == Is(u, v, Beyond(q, p), q)
  {
    assert Beyond(u, Middle(u, v)) == v && Beyond(v, Middle(u, v)) == u;
    assert Middle(u, Beyond(u, q)) == q && Middle(Beyond(v, p), v) == p;
  }

  /** The six edges between midpoints come in opposite pairs. */
  function Middles(t: Tri, p: Vec3, q: Vec3): real {
    Hits(Inner(t), p, q) + Hits(Inner(t), q, p)
  }

  function MiddlesOf(p: Vec3, q: Vec3): Measure {
    (t: Tri) => Middles(t, p, q)
  }

  function HalvesOf(p: Vec3, q: Vec3): Measure {
    (t: Tri) => Hits(t, p, Beyond(p, q)) + Hits(t, Beyond(q, p), q)
  }

  function PartsOf(p: Vec3, q: Vec3): Measure {
    (t: Tri) => Hits(t, p, Beyond(p, q)) + Hits(t, Beyond(q, p), q) + Middles(t, p, q)
  }

  lemma HitsOfParts(t: Tri, p: Vec3, q: Vec3)
    ensures Hits(Inner(t), p, q) + Hits(CornerA(t), p, q) + Hits(CornerB(t), p, q) + Hits(CornerC(t), p, q)
         == Hits(t, p, Beyond(p, q)) + Hits(t, Beyond(q, p), q) + Middles(t, p, q)
  {
    Halves(t.a, t.b, p, q);
    Halves(t.b, t.c, p, q);
    Halves(t.c, t.a, p, q);
  }

  lemma HitsSplit(p: Vec3, q: Vec3)
    ensures Splits(HitsOf(p, q), PartsOf(p, q))
  {
    forall t: Tri
      ensures HitsOf(p, q)(Inner(t)) + HitsOf(p, q)(CornerA(t)) + HitsOf(p, q)(CornerB(t)) + HitsOf(p, q)(CornerC(t))
           == PartsOf(p, q)(t)
    {
      HitsOfParts(t, p, q);
    }
  }

  lemma EdgesOfSubdivided(ts: seq<Tri>, p: Vec3, q: Vec3)
    ensures Edges(Subdivided(ts), p, q)
         == Edges(ts, p, Beyond(p, q)) + Edges(ts, Beyond(q, p), q) + Total(ts, MiddlesOf(p, q))
  {
    HitsSplit(p, q);
    TotalSubdivided(ts, HitsOf(p, q), PartsOf(p, q));
    TotalSum(ts, HalvesOf(p, q), MiddlesOf(p, q), PartsOf(p, q));
    TotalSum(ts, HitsOf(p, Beyond(p, q)), HitsOf(Beyond(q, p), q), HalvesOf(p, q));
  }

  lemma {:induction false} MiddlesSymmetric(ts: seq<Tri>, p: Vec3, q: Vec3)
    ensures Total(ts, MiddlesOf(p, q)) == Total(ts, MiddlesOf(q, p))
    decreases |ts|
  {
    if ts != [] {
      MiddlesSymmetric(ts[1..], p, q);
    }
  }

  /** Subdivision keeps a closed surface closed. */
  lemma SubdivisionKeepsClosed(ts: seq<Tri>)
    requires Closed(ts)
    ensures Closed(Subdivided(ts))
  {
    forall p: Vec3, q: Vec3
      ensures Edges(Subdivided(ts), p, q) == Edges(Subdivided(ts), q, p)
    {
      EdgesOfSubdivided(ts, p, q);
      EdgesOfSubdivided(ts, q, p);
      MiddlesSymmetric(ts, p, q);
      assert Edges(ts, p, Beyond(p, q)) == Edges(ts, Beyond(p, q), p);
      assert Edges(ts, Beyond(q, p), q) == Edges(ts, q, Beyond(q, p));
    }
  }

  /** Any number of subdivisions: closed stays closed, area sum and enclosed volume stay. */
  lemma {:induction false} RepeatedSubdivision(ts: seq<Tri>, k: nat)
    ensures Closed(ts) ==> Closed(SubdividedTimes(ts, k))
    ensures AreaSum(SubdividedTimes(ts, k)) == AreaSum(ts) && Enclosed(SubdividedTimes(ts, k)) == Enclosed(ts)
  {
    if k > 0 {
      RepeatedSubdivision(ts, k - 1);
      var before := SubdividedTimes(ts, k - 1);
      if Closed(ts) {
        SubdivisionKeepsClosed(before);
      }
      SubdivisionConservesArea(before);
      SubdivisionConservesVolume(before);
    }
  }
}
