/**
  The 4 by 4 matrix kernel over the reals: determinant, cofactors, transpose, product and inverse.
  A matrix is sixteen numbers, column after column.
 */
module Matrix {
  function Determinant3(m11: real, m21: real, m31: real, m12: real, m22: real, m32: real, m13: real, m23: real,
          m33: real): real {
    m11 * m22 * m33 + m12 * m23 * m31 + m13 * m21 * m32 - m11 * m23 * m32 - m12 * m21 * m33 - m13 * m22 * m31
  }

  function Determinant(m: seq<real>): real
    requires |m| == 16
  {
    var m11, m21, m31, m41 := m[0], m[1], m[2], m[3];
    var m12, m22, m32, m42 := m[4], m[5], m[6], m[7];
    var m13, m23, m33, m43 := m[8], m[9], m[10], m[11];
    var m14, m24, m34, m44 := m[12], m[13], m[14], m[15];
    m14 * m23 * m32 * m41 - m13 * m24 * m32 * m41 - m14 * m22 * m33 * m41 + m12 * m24 * m33 * m41
      + m13 * m22 * m34 * m41 - m12 * m23 * m34 * m41 - m14 * m23 * m31 * m42 + m13 * m24 * m31 * m42
      + m14 * m21 * m33 * m42 - m11 * m24 * m33 * m42 - m13 * m21 * m34 * m42 + m11 * m23 * m34 * m42
      + m14 * m22 * m31 * m43 - m12 * m24 * m31 * m43 - m14 * m21 * m32 * m43 + m11 * m24 * m32 * m43
      + m12 * m21 * m34 * m43 - m11 * m22 * m34 * m43 - m13 * m22 * m31 * m44 + m12 * m23 * m31 * m44
      + m13 * m21 * m32 * m44 - m11 * m23 * m32 * m44 - m12 * m21 * m33 * m44 + m11 * m22 * m33 * m44
  }

  /** Each entry's signed minor, the entry's row and column left out. */
  function Cofactor(m: seq<real>): (r: seq<real>)
    requires |m| == 16
    ensures |r| == 16
  {
    [Determinant3(m[5], m[6], m[7], m[9], m[10], m[11], m[13], m[14], m[15]),
     -Determinant3(m[4], m[6], m[7], m[8], m[10], m[11], m[12], m[14], m[15]),
     Determinant3(m[4], m[5], m[7], m[8], m[9], m[11], m[12], m[13], m[15]),
     -Determinant3(m[4], m[5], m[6], m[8], m[9], m[10], m[12], m[13], m[14]),
     -Determinant3(m[1], m[2], m[3], m[9], m[10], m[11], m[13], m[14], m[15]),
     Determinant3(m[0], m[2], m[3], m[8], m[10], m[11], m[12], m[14], m[15]),
     -Determinant3(m[0], m[1], m[3], m[8], m[9], m[11], m[12], m[13], m[15]),
     Determinant3(m[0], m[1], m[2], m[8], m[9], m[10], m[12], m[13], m[14]),
     Determinant3(m[1], m[2], m[3], m[5], m[6], m[7], m[13], m[14], m[15]),
     -Determinant3(m[0], m[2], m[3], m[4], m[6], m[7], m[12], m[14], m[15]),
     Determinant3(m[0], m[1], m[3], m[4], m[5], m[7], m[12], m[13], m[15]),
     -Determinant3(m[0], m[1], m[2], m[4], m[5], m[6], m[12], m[13], m[14]),
     -Determinant3(m[1], m[2], m[3], m[5], m[6], m[7], m[9], m[10], m[11]),
     Determinant3(m[0], m[2], m[3], m[4], m[6], m[7], m[8], m[10], m[11]),
     -Determinant3(m[0], m[1], m[3], m[4], m[5], m[7], m[8], m[9], m[11]),
     Determinant3(m[0], m[1], m[2], m[4], m[5], m[6], m[8], m[9], m[10])]
  }

  function Transpose(m: seq<real>): (r: seq<real>)
    requires |m| == 16
    ensures |r| == 16
  {
    [m[0], m[4], m[8], m[12], m[1], m[5], m[9], m[13], m[2], m[6], m[10], m[14], m[3], m[7], m[11], m[15]]
  }

  /** Row `i` of the first matrix times column `j` of the second. */
  function Term(a: seq<real>, b: seq<real>, i: nat, j: nat): real
    requires |a| == 16 && |b| == 16 && i < 4 && j < 4
  {
    a[i] * b[4 * j] + a[4 + i] * b[4 * j + 1] + a[8 + i] * b[4 * j + 2] + a[12 + i] * b[4 * j + 3]
  }

  function Product(a: seq<real>, b: seq<real>): (r: seq<real>)
    requires |a| == 16 && |b| == 16
    ensures |r| == 16
  {
    [Term(a, b, 0, 0), Term(a, b, 1, 0), Term(a, b, 2, 0), Term(a, b, 3, 0),
     Term(a, b, 0, 1), Term(a, b, 1, 1), Term(a, b, 2, 1), Term(a, b, 3, 1),
     Term(a, b, 0, 2), Term(a, b, 1, 2), Term(a, b, 2, 2), Term(a, b, 3, 2),
     Term(a, b, 0, 3), Term(a, b, 1, 3), Term(a, b, 2, 3), Term(a, b, 3, 3)]
  }

  /** The product as a named operation. */
  function By(x: real, f: real): real {
    x * f
  }

  function Scaled(m: seq<real>, f: real): (r: seq<real>)
    requires |m| == 16
    ensures |r| == 16
  {
    seq(16, k requires 0 <= k < 16 => By(m[k], f))
  }

  const IDENTITY: seq<real> := [1.0, 0.0, 0.0, 0.0, 0.0, 1.0, 0.0, 0.0, 0.0, 0.0, 1.0, 0.0, 0.0, 0.0, 0.0, 1.0]

  /** The matrix that the inverse routine builds before it divides by the determinant. */
  function Unscaled(m: seq<real>): (r: seq<real>)
    requires |m| == 16
    ensures |r| == 16
  {
    var m11, m21, m31, m41 := m[0], m[1], m[2], m[3];
    var m12, m22, m32, m42 := m[4], m[5], m[6], m[7];
    var m13, m23, m33, m43 := m[8], m[9], m[10], m[11];
    var m14, m24, m34, m44 := m[12], m[13], m[14], m[15];
    [m22 * m33 * m44 - m22 * m43 * m34 - m23 * m32 * m44 + m23 * m42 * m34 + m24 * m32 * m43 - m24 * m42 * m33,
     -m21 * m33 * m44 + m21 * m43 * m34 + m23 * m31 * m44 - m23 * m41 * m34 - m24 * m31 * m43 + m24 * m41 * m33,
     m21 * m32 * m44 - m21 * m42 * m34 - m22 * m31 * m44 + m22 * m41 * m34 + m24 * m31 * m42 - m24 * m41 * m32,
     -m21 * m32 * m43 + m21 * m42 * m33 + m22 * m31 * m43 - m22 * m41 * m33 - m23 * m31 * m42 + m23 * m41 * m32,
     -m12 * m33 * m44 + m12 * m43 * m34 + m13 * m32 * m44 - m13 * m42 * m34 - m14 * m32 * m43 + m14 * m42 * m33,
     m11 * m33 * m44 - m11 * m43 * m34 - m13 * m31 * m44 + m13 * m41 * m34 + m14 * m31 * m43 - m14 * m41 * m33,
     -m11 * m32 * m44 + m11 * m42 * m34 + m12 * m31 * m44 - m12 * m41 * m34 - m14 * m31 * m42 + m14 * m41 * m32,
     m11 * m32 * m43 - m11 * m42 * m33 - m12 * m31 * m43 + m12 * m41 * m33 + m13 * m31 * m42 - m13 * m41 * m32,
     m12 * m23 * m44 - m12 * m43 * m24 - m13 * m22 * m44 + m13 * m42 * m24 + m14 * m22 * m43 - m14 * m42 * m23,
     -m11 * m23 * m44 + m11 * m43 * m24 + m13 * m21 * m44 - m13 * m41 * m24 - m14 * m21 * m43 + m14 * m41 * m23,
     m11 * m22 * m44 - m11 * m42 * m24 - m12 * m21 * m44 + m12 * m41 * m24 + m14 * m21 * m42 - m14 * m41 * m22,
     -m11 * m22 * m43 + m11 * m42 * m23 + m12 * m21 * m43 - m12 * m41 * m23 - m13 * m21 * m42 + m13 * m41 * m22,
     -m12 * m23 * m34 + m12 * m33 * m24 + m13 * m22 * m34 - m13 * m32 * m24 - m14 * m22 * m33 + m14 * m32 * m23,
     m11 * m23 * m34 - m11 * m33 * m24 - m13 * m21 * m34 + m13 * m31 * m24 + m14 * m21 * m33 - m14 * m31 * m23,
     -m11 * m22 * m34 + m11 * m32 * m24 + m12 * m21 * m34 - m12 * m31 * m24 - m14 * m21 * m32 + m14 * m31 * m22,
     m11 * m22 * m33 - m11 * m32 * m23 - m12 * m21 * m33 + m12 * m31 * m23 + m13 * m21 * m32 - m13 * m31 * m22]
  }

  /** The first column of a matrix times the first row of another. */
  function FirstEntry(m: seq<real>, u: seq<real>): real
    requires |m| == 16 && |u| == 16
  {
    m[0] * u[0] + m[1] * u[4] + m[2] * u[8] + m[3] * u[12]
  }

  /** The number the inverse routine divides by. */
  function Divisor(m: seq<real>): real
    requires |m| == 16
  {
    FirstEntry(m, Unscaled(m))
  }

  function Inverse(m: seq<real>): (r: seq<real>)
    requires |m| == 16 && Divisor(m) != 0.0
    ensures |r| == 16
  {
    Scaled(Unscaled(m), 1.0 / Divisor(m))
  }

  // ---- rows, columns and what is perpendicular to three of them ----

  datatype Vec4 = Vec4(x: real, y: real, z: real, w: real)

  function Dot(a: Vec4, b: Vec4): real {
    a.x * b.x + a.y * b.y + a.z * b.z + a.w * b.w
  }

  /** Expanding the determinant of (v, a, b, c) along v gives the product of v and this. */
  function Cross(a: Vec4, b: Vec4, c: Vec4): Vec4 {
    Vec4(Determinant3(a.y, a.z, a.w, b.y, b.z, b.w, c.y, c.z, c.w),
         -Determinant3(a.x, a.z, a.w, b.x, b.z, b.w, c.x, c.z, c.w),
         Determinant3(a.x, a.y, a.w, b.x, b.y, b.w, c.x, c.y, c.w),
         -Determinant3(a.x, a.y, a.z, b.x, b.y, b.z, c.x, c.y, c.z))
  }

  lemma SameFactor(x: real, y: real, f: real)
    requires x == y
    ensures x * f == y * f && f * x == f * y
  {
  }

  lemma Spread(x: real, p: real, q: real, r: real, s: real, t: real, u: real)
    ensures x * (p + q + r - s - t - u) == x * p + x * q + x * r - x * s - x * t - x * u
  {
  }

  lemma SpreadMinor(x: real, a: real, b: real, c: real, d: real, e: real, f: real, g: real, h: real, i: real)
    ensures x * Determinant3(a, b, c, d, e, f, g, h, i)
         == x * (a * e * i) + x * (d * h * c) + x * (g * b * f) - x * (a * h * f) - x * (d * b * i) - x * (g * e * c)
  {
    Spread(x, a * e * i, d * h * c, g * b * f, a * h * f, d * b * i, g * e * c);
    SameFactor(Determinant3(a, b, c, d, e, f, g, h, i),
        a * e * i + d * h * c + g * b * f - a * h * f - d * b * i - g * e * c, x);
  }

  lemma Opposite(x: real, y: real, z: real)
    requires y == -z
    ensures x * y == -(x * z)
  {
  }

  /** The determinant of four rows as its twenty-four products. */
  function Leibniz(v: Vec4, a: Vec4, b: Vec4, c: Vec4): real {
    v.x * (a.y * b.z * c.w) + v.x * (b.y * c.z * a.w) + v.x * (c.y * a.z * b.w)
      - v.x * (a.y * c.z * b.w) - v.x * (b.y * a.z * c.w) - v.x * (c.y * b.z * a.w)
      - v.y * (a.x * b.z * c.w) - v.y * (b.x * c.z * a.w) - v.y * (c.x * a.z * b.w)
      + v.y * (a.x * c.z * b.w) + v.y * (b.x * a.z * c.w) + v.y * (c.x * b.z * a.w)
      + v.z * (a.x * b.y * c.w) + v.z * (b.x * c.y * a.w) + v.z * (c.x * a.y * b.w)
      - v.z * (a.x * c.y * b.w) - v.z * (b.x * a.y * c.w) - v.z * (c.x * b.y * a.w)
      - v.w * (a.x * b.y * c.z) - v.w * (b.x * c.y * a.z) - v.w * (c.x * a.y * b.z)
      + v.w * (a.x * c.y * b.z) + v.w * (b.x * a.y * c.z) + v.w * (c.x * b.y * a.z)
  }

  lemma CrossIsLeibniz(v: Vec4, a: Vec4, b: Vec4, c: Vec4)
    ensures Dot(v, Cross(a, b, c)) == Leibniz(v, a, b, c)
  {
    var x := Determinant3(a.y, a.z, a.w, b.y, b.z, b.w, c.y, c.z, c.w);
    var y := Determinant3(a.x, a.z, a.w, b.x, b.z, b.w, c.x, c.z, c.w);
    var z := Determinant3(a.x, a.y, a.w, b.x, b.y, b.w, c.x, c.y, c.w);
    var w := Determinant3(a.x, a.y, a.z, b.x, b.y, b.z, c.x, c.y, c.z);
    var cross := Cross(a, b, c);
    SpreadMinor(v.x, a.y, a.z, a.w, b.y, b.z, b.w, c.y, c.z, c.w);
    SpreadMinor(v.y, a.x, a.z, a.w, b.x, b.z, b.w, c.x, c.z, c.w);
    SpreadMinor(v.z, a.x, a.y, a.w, b.x, b.y, b.w, c.x, c.y, c.w);
    SpreadMinor(v.w, a.x, a.y, a.z, b.x, b.y, b.z, c.x, c.y, c.z);
    SameFactor(cross.x, x, v.x);
    Opposite(v.y, cross.y, y);
    SameFactor(cross.z, z, v.z);
    Opposite(v.w, cross.w, w);
  }

  /** A determinant with two equal rows is zero. */
  lemma Perpendicular(a: Vec4, b: Vec4, c: Vec4)
    ensures Dot(a, Cross(a, b, c)) == 0.0
    ensures Dot(b, Cross(a, b, c)) == 0.0
    ensures Dot(c, Cross(a, b, c)) == 0.0
  {
    CrossIsLeibniz(a, a, b, c);
    CrossIsLeibniz(b, a, b, c);
    CrossIsLeibniz(c, a, b, c);
  }

  lemma SwapFirst(a: Vec4, b: Vec4, c: Vec4, d: Vec4)
    ensures Dot(a, Cross(b, c, d)) == -Dot(b, Cross(a, c, d))
  {
    CrossIsLeibniz(a, b, c, d);
    CrossIsLeibniz(b, a, c, d);
  }

  lemma SwapMiddle(a: Vec4, b: Vec4, c: Vec4, d: Vec4)
    ensures Dot(a, Cross(b, c, d)) == -Dot(a, Cross(c, b, d))
  {
    CrossIsLeibniz(a, b, c, d);
    CrossIsLeibniz(a, c, b, d);
  }

  lemma SwapLast(a: Vec4, b: Vec4, c: Vec4, d: Vec4)
    ensures Dot(a, Cross(b, c, d)) == -Dot(a, Cross(b, d, c))
  {
    CrossIsLeibniz(a, b, c, d);
    CrossIsLeibniz(a, b, d, c);
  }

  /** Expanding along another row gives the same determinant. */
  lemma Expansions(a: Vec4, b: Vec4, c: Vec4, d: Vec4)
    ensures Dot(b, Cross(a, d, c)) == Dot(a, Cross(b, c, d))
    ensures Dot(c, Cross(a, b, d)) == Dot(a, Cross(b, c, d))
    ensures Dot(d, Cross(a, c, b)) == Dot(a, Cross(b, c, d))
  {
    SwapFirst(a, b, c, d);
    SwapLast(b, a, c, d);
    SwapMiddle(a, b, c, d);
    SwapFirst(a, c, b, d);
    SwapLast(a, b, c, d);
    SwapMiddle(a, b, d, c);
    SwapFirst(a, d, b, c);
    SwapLast(d, a, b, c);
  }

  function Row(m: seq<real>, i: nat): Vec4
    requires |m| == 16 && i < 4
  {
    Vec4(m[i], m[4 + i], m[8 + i], m[12 + i])
  }

  function Column(m: seq<real>, j: nat): Vec4
    requires |m| == 16 && j < 4
  {
    if j == 0 then Vec4(m[0], m[1], m[2], m[3])
    else if j == 1 then Vec4(m[4], m[5], m[6], m[7])
    else if j == 2 then Vec4(m[8], m[9], m[10], m[11])
    else Vec4(m[12], m[13], m[14], m[15])
  }

  /** The cross product of the three vectors other than number `i`, with the sign of its place. */
  function Others(a: Vec4, b: Vec4, c: Vec4, d: Vec4, i: nat): Vec4
    requires i < 4
  {
    if i == 0 then Cross(b, c, d) else if i == 1 then Cross(a, d, c) else if i == 2 then Cross(a, b, d) else Cross(a, c, b)
  }

  function Pick(a: Vec4, b: Vec4, c: Vec4, d: Vec4, i: nat): Vec4
    requires i < 4
  {
    if i == 0 then a else if i == 1 then b else if i == 2 then c else d
  }

  /** Four vectors against their cofactors: the determinant on the diagonal, zero elsewhere. */
  lemma Duality(a: Vec4, b: Vec4, c: Vec4, d: Vec4, i: nat, j: nat)
    requires i < 4 && j < 4
    ensures Dot(Pick(a, b, c, d, i), Others(a, b, c, d, j)) == if i == j then Dot(a, Cross(b, c, d)) else 0.0
  {
    if i == j {
      Expansions(a, b, c, d);
    } else if j == 0 {
      Perpendicular(b, c, d);
    } else if j == 1 {
      Perpendicular(a, d, c);
    } else if j == 2 {
      Perpendicular(a, b, d);
    } else {
      Perpendicular(a, c, b);
    }
  }

  lemma CofactorsOfRow(m: seq<real>, i: nat)
    requires |m| == 16 && i < 4
    ensures Row(Cofactor(m), i) == Others(Row(m, 0), Row(m, 1), Row(m, 2), Row(m, 3), i)
  {
    if i == 0 {
    } else if i == 1 {
    } else if i == 2 {
    } else {
    }
  }

  lemma CofactorsOfColumn(m: seq<real>, j: nat)
    requires |m| == 16 && j < 4
    ensures Column(Cofactor(m), j) == Others(Column(m, 0), Column(m, 1), Column(m, 2), Column(m, 3), j)
  {
  }

  lemma DeterminantByRows(m: seq<real>)
    requires |m| == 16
    ensures Determinant(m) == Dot(Row(m, 0), Cross(Row(m, 1), Row(m, 2), Row(m, 3)))
  {
    CrossIsLeibniz(Row(m, 0), Row(m, 1), Row(m, 2), Row(m, 3));
  }

  lemma DeterminantByColumns(m: seq<real>)
    requires |m| == 16
    ensures Determinant(m) == Dot(Column(m, 0), Cross(Column(m, 1), Column(m, 2), Column(m, 3)))
  {
    CrossIsLeibniz(Column(m, 0), Column(m, 1), Column(m, 2), Column(m, 3));
  }

  // ---- products ----

  function At(m: seq<real>, i: nat, j: nat): real
    requires |m| == 16 && i < 4 && j < 4
  {
    m[4 * j + i]
  }

  lemma TermOfProduct(a: seq<real>, b: seq<real>, i: nat, j: nat)
    requires |a| == 16 && |b| == 16 && i < 4 && j < 4
    ensures At(Product(a, b), i, j) == Term(a, b, i, j)
  {
  }

  lemma TermIsDot(a: seq<real>, b: seq<real>, i: nat, j: nat)
    requires |a| == 16 && |b| == 16 && i < 4 && j < 4
    ensures Term(a, b, i, j) == Dot(Row(a, i), Column(b, j))
  {
  }

  lemma ProductEntry(a: seq<real>, b: seq<real>, i: nat, j: nat)
    requires |a| == 16 && |b| == 16 && i < 4 && j < 4
    ensures At(Product(a, b), i, j) == Dot(Row(a, i), Column(b, j))
  {
    TermOfProduct(a, b, i, j);
    TermIsDot(a, b, i, j);
  }

  lemma TransposedRow(m: seq<real>, i: nat)
    requires |m| == 16 && i < 4
    ensures Row(Transpose(m), i) == Column(m, i) && Column(Transpose(m), i) == Row(m, i)
  {
  }

  function Unit(i: nat, j: nat): real {
    if i == j then 1.0 else 0.0
  }

  /** A matrix times its transposed cofactors: the determinant on the diagonal and zero elsewhere, entry by entry. */
  lemma RightEntry(m: seq<real>, i: nat, j: nat)
    requires |m| == 16 && i < 4 && j < 4
    ensures At(Product(m, Transpose(Cofactor(m))), i, j) == By(Unit(i, j), Determinant(m))
  {
    ProductEntry(m, Transpose(Cofactor(m)), i, j);
    TransposedRow(Cofactor(m), j);
    CofactorsOfRow(m, j);
    DeterminantByRows(m);
    Duality(Row(m, 0), Row(m, 1), Row(m, 2), Row(m, 3), i, j);
  }

  lemma LeftEntry(m: seq<real>, i: nat, j: nat)
    requires |m| == 16 && i < 4 && j < 4
    ensures At(Product(Transpose(Cofactor(m)), m), i, j) == By(Unit(i, j), Determinant(m))
  {
    ProductEntry(Transpose(Cofactor(m)), m, i, j);
    TransposedRow(Cofactor(m), i);
    CofactorsOfColumn(m, i);
    DeterminantByColumns(m);
    DotCommutes(Column(Cofactor(m), i), Column(m, j));
    Duality(Column(m, 0), Column(m, 1), Column(m, 2), Column(m, 3), j, i);
  }

  lemma DotCommutes(a: Vec4, b: Vec4)
    ensures Dot(a, b) == Dot(b, a)
  {
  }

  lemma IdentityEntry(f: real, i: nat, j: nat)
    requires i < 4 && j < 4
    ensures At(Scaled(IDENTITY, f), i, j) == By(Unit(i, j), f)
  {
  }

  lemma SameEntries(a: seq<real>, b: seq<real>)
    requires |a| == 16 && |b| == 16 && forall i: nat, j: nat :: i < 4 && j < 4 ==> At(a, i, j) == At(b, i, j)
    ensures a == b
  {
    forall k: nat | k < 16
      ensures a[k] == b[k]
    {
      assert At(a, k % 4, k / 4) == At(b, k % 4, k / 4);
    }
  }

  /** m times the transpose of its cofactor matrix is its determinant times the identity, on either side. */
  lemma AdjugateProduct(m: seq<real>)
    requires |m| == 16
    ensures Product(m, Transpose(Cofactor(m))) == Scaled(IDENTITY, Determinant(m))
    ensures Product(Transpose(Cofactor(m)), m) == Scaled(IDENTITY, Determinant(m))
  {
    forall i: nat, j: nat | i < 4 && j < 4
      ensures At(Product(m, Transpose(Cofactor(m))), i, j) == At(Scaled(IDENTITY, Determinant(m)), i, j)
      ensures At(Product(Transpose(Cofactor(m)), m), i, j) == At(Scaled(IDENTITY, Determinant(m)), i, j)
    {
      RightEntry(m, i, j);
      LeftEntry(m, i, j);
      IdentityEntry(Determinant(m), i, j);
    }
    SameEntries(Product(m, Transpose(Cofactor(m))), Scaled(IDENTITY, Determinant(m)));
    SameEntries(Product(Transpose(Cofactor(m)), m), Scaled(IDENTITY, Determinant(m)));
  }

  // ---- the inverse ----

  /** What the inverse routine builds term by term is the transposed cofactor matrix. */
  lemma UnscaledIsAdjugate(m: seq<real>)
    requires |m| == 16
    ensures Unscaled(m) == Transpose(Cofactor(m))
  {
    var u, t := Unscaled(m), Transpose(Cofactor(m));
    assert u[0] == t[0] && u[1] == t[1] && u[2] == t[2] && u[3] == t[3];
    assert u[4] == t[4] && u[5] == t[5] && u[6] == t[6] && u[7] == t[7];
    assert u[8] == t[8] && u[9] == t[9] && u[10] == t[10] && u[11] == t[11];
    assert u[12] == t[12] && u[13] == t[13] && u[14] == t[14] && u[15] == t[15];
  }

  /** The routine divides by the determinant. */
  lemma DivisorIsDeterminant(m: seq<real>)
    requires |m| == 16
    ensures Divisor(m) == Determinant(m)
  {
    var u := Unscaled(m);
    UnscaledIsAdjugate(m);
    LeftEntry(m, 0, 0);
    TermOfProduct(u, m, 0, 0);
  }

  lemma ScaledEntry(m: seq<real>, f: real, i: nat, j: nat)
    requires |m| == 16 && i < 4 && j < 4
    ensures At(Scaled(m, f), i, j) == By(At(m, i, j), f)
  {
  }

  function Stretched(a: Vec4, f: real): Vec4 {
    Vec4(By(a.x, f), By(a.y, f), By(a.z, f), By(a.w, f))
  }

  lemma ScaledAt(m: seq<real>, f: real, k: nat)
    requires |m| == 16 && k < 16
    ensures Scaled(m, f)[k] == By(m[k], f)
  {
  }

  lemma ScaledRow(m: seq<real>, f: real, i: nat)
    requires |m| == 16 && i < 4
    ensures Row(Scaled(m, f), i) == Stretched(Row(m, i), f)
  {
    ScaledAt(m, f, i);
    ScaledAt(m, f, 4 + i);
    ScaledAt(m, f, 8 + i);
    ScaledAt(m, f, 12 + i);
  }

  lemma ScaledFour(m: seq<real>, f: real, k: nat)
    requires |m| == 16 && k + 3 < 16
    ensures Vec4(Scaled(m, f)[k], Scaled(m, f)[k + 1], Scaled(m, f)[k + 2], Scaled(m, f)[k + 3])
         == Stretched(Vec4(m[k], m[k + 1], m[k + 2], m[k + 3]), f)
  {
    ScaledAt(m, f, k);
    ScaledAt(m, f, k + 1);
    ScaledAt(m, f, k + 2);
    ScaledAt(m, f, k + 3);
  }

  lemma ScaledColumn(m: seq<real>, f: real, j: nat)
    requires |m| == 16 && j < 4
    ensures Column(Scaled(m, f), j) == Stretched(Column(m, j), f)
  {
    ScaledFour(m, f, 4 * j);
  }

  lemma StretchedDot(a: Vec4, b: Vec4, f: real)
    ensures Dot(Stretched(a, f), b) == By(Dot(a, b), f)
  {
    SpreadFour(a.x * b.x, a.y * b.y, a.z * b.z, a.w * b.w, f);
    Reorder(a.x, b.x, f);
    Reorder(a.y, b.y, f);
    Reorder(a.z, b.z, f);
    Reorder(a.w, b.w, f);
  }

  lemma DotWithStretched(u: Vec4, a: Vec4, b: Vec4, f: real)
    requires u == Stretched(a, f)
    ensures Dot(u, b) == By(Dot(a, b), f)
  {
    StretchedDot(a, b, f);
  }

  lemma SpreadFour(p: real, q: real, r: real, s: real, f: real)
    ensures By(p + q + r + s, f) == p * f + q * f + r * f + s * f
  {
  }

  lemma Reorder(x: real, y: real, f: real)
    ensures x * y * f == By(x, f) * y
  {
  }

  lemma ScaledProductEntry(a: seq<real>, b: seq<real>, f: real, i: nat, j: nat)
    requires |a| == 16 && |b| == 16 && i < 4 && j < 4
    ensures At(Scaled(Product(a, b), f), i, j) == By(Dot(Row(a, i), Column(b, j)), f)
  {
    ProductEntry(a, b, i, j);
    ScaledEntry(Product(a, b), f, i, j);
  }

  lemma ScaledLeft(a: seq<real>, b: seq<real>, f: real, i: nat, j: nat)
    requires |a| == 16 && |b| == 16 && i < 4 && j < 4
    ensures At(Product(Scaled(a, f), b), i, j) == By(Dot(Row(a, i), Column(b, j)), f)
  {
    ProductEntry(Scaled(a, f), b, i, j);
    ScaledRow(a, f, i);
    DotWithStretched(Row(Scaled(a, f), i), Row(a, i), Column(b, j), f);
  }

  lemma ScaledRight(a: seq<real>, b: seq<real>, f: real, i: nat, j: nat)
    requires |a| == 16 && |b| == 16 && i < 4 && j < 4
    ensures At(Product(a, Scaled(b, f)), i, j) == By(Dot(Row(a, i), Column(b, j)), f)
  {
    ProductEntry(a, Scaled(b, f), i, j);
    ScaledColumn(b, f, j);
    DotCommutes(Row(a, i), Column(Scaled(b, f), j));
    DotCommutes(Row(a, i), Column(b, j));
    DotWithStretched(Column(Scaled(b, f), j), Column(b, j), Row(a, i), f);
  }

  /** A factor of either matrix is a factor of the product. */
  lemma ScaledProduct(a: seq<real>, b: seq<real>, f: real)
    requires |a| == 16 && |b| == 16
    ensures Product(Scaled(a, f), b) == Scaled(Product(a, b), f) == Product(a, Scaled(b, f))
  {
    forall i: nat, j: nat | i < 4 && j < 4
      ensures At(Product(Scaled(a, f), b), i, j) == At(Scaled(Product(a, b), f), i, j)
      ensures At(Product(a, Scaled(b, f)), i, j) == At(Scaled(Product(a, b), f), i, j)
    {
      ScaledLeft(a, b, f, i, j);
      ScaledRight(a, b, f, i, j);
      ScaledProductEntry(a, b, f, i, j);
    }
    SameEntries(Product(Scaled(a, f), b), Scaled(Product(a, b), f));
    SameEntries(Product(a, Scaled(b, f)), Scaled(Product(a, b), f));
  }

  lemma ScaledBack(m: seq<real>, d: real)
    requires |m| == 16 && d != 0.0
    ensures Scaled(Scaled(m, d), 1.0 / d) == m
  {
    forall k: nat | k < 16
      ensures Scaled(Scaled(m, d), 1.0 / d)[k] == m[k]
    {
      ScaledAt(m, d, k);
      ScaledAt(Scaled(m, d), 1.0 / d, k);
      TimesAndBack(m[k], d);
    }
  }

  lemma TimesAndBack(x: real, d: real)
    requires d != 0.0
    ensures By(By(x, d), 1.0 / d) == x
  {
  }

  /** Main result: whenever the determinant is not zero the routine's result is the inverse on both sides. */
  lemma InverseIsInverse(m: seq<real>)
    requires |m| == 16 && Determinant(m) != 0.0
    ensures Divisor(m) != 0.0
    ensures Product(Inverse(m), m) == IDENTITY
    ensures Product(m, Inverse(m)) == IDENTITY
  {
    var d, u := Determinant(m), Unscaled(m);
    DivisorIsDeterminant(m);
    UnscaledIsAdjugate(m);
    AdjugateProduct(m);
    ScaledProduct(u, m, 1.0 / d);
    ScaledProduct(m, u, 1.0 / d);
    ScaledBack(IDENTITY, d);
  }

  // ---- what the layout and the order of the product mean ----

  function Combined(p: real, q: real, r: real, s: real, v: Vec4): real {
    p * v.x + q * v.y + r * v.z + s * v.w
  }

  /** The library's product of a vector and a matrix. */
  function Applied(v: Vec4, m: seq<real>): Vec4
    requires |m| == 16
  {
    Vec4(Combined(m[0], m[4], m[8], m[12], v), Combined(m[1], m[5], m[9], m[13], v),
         Combined(m[2], m[6], m[10], m[14], v), Combined(m[3], m[7], m[11], m[15], v))
  }

  lemma SumsExchange(a0: real, a1: real, a2: real, a3: real, b: seq<real>, v: Vec4)
    requires |b| == 16
    ensures Combined(a0 * b[0] + a1 * b[1] + a2 * b[2] + a3 * b[3], a0 * b[4] + a1 * b[5] + a2 * b[6] + a3 * b[7],
                     a0 * b[8] + a1 * b[9] + a2 * b[10] + a3 * b[11], a0 * b[12] + a1 * b[13] + a2 * b[14] + a3 * b[15], v)
         == Combined(a0, a1, a2, a3, Applied(v, b))
  {
  }

  lemma TermsOfRow(a: seq<real>, b: seq<real>, i: nat)
    requires |a| == 16 && |b| == 16 && i < 4
    ensures Term(a, b, i, 0) == a[i] * b[0] + a[4 + i] * b[1] + a[8 + i] * b[2] + a[12 + i] * b[3]
    ensures Term(a, b, i, 1) == a[i] * b[4] + a[4 + i] * b[5] + a[8 + i] * b[6] + a[12 + i] * b[7]
    ensures Term(a, b, i, 2) == a[i] * b[8] + a[4 + i] * b[9] + a[8 + i] * b[10] + a[12 + i] * b[11]
    ensures Term(a, b, i, 3) == a[i] * b[12] + a[4 + i] * b[13] + a[8 + i] * b[14] + a[12 + i] * b[15]
  {
  }

  lemma SameCombination(p: real, q: real, r: real, s: real, p': real, q': real, r': real, s': real, v: Vec4)
    requires p == p' && q == q' && r == r' && s == s'
    ensures Combined(p, q, r, s, v) == Combined(p', q', r', s', v)
  {
  }

  lemma NamedSumsExchange(a0: real, a1: real, a2: real, a3: real, t0: real, t1: real, t2: real, t3: real, b: seq<real>,
          v: Vec4)
    requires |b| == 16
    requires t0 == a0 * b[0] + a1 * b[1] + a2 * b[2] + a3 * b[3]
    requires t1 == a0 * b[4] + a1 * b[5] + a2 * b[6] + a3 * b[7]
    requires t2 == a0 * b[8] + a1 * b[9] + a2 * b[10] + a3 * b[11]
    requires t3 == a0 * b[12] + a1 * b[13] + a2 * b[14] + a3 * b[15]
    ensures Combined(t0, t1, t2, t3, v) == Combined(a0, a1, a2, a3, Applied(v, b))
  {
    SumsExchange(a0, a1, a2, a3, b, v);
    SameCombination(t0, t1, t2, t3, a0 * b[0] + a1 * b[1] + a2 * b[2] + a3 * b[3],
                    a0 * b[4] + a1 * b[5] + a2 * b[6] + a3 * b[7], a0 * b[8] + a1 * b[9] + a2 * b[10] + a3 * b[11],
                    a0 * b[12] + a1 * b[13] + a2 * b[14] + a3 * b[15], v);
  }

  /** One component: four sums of four, taken the other way round. */
  lemma RowActs(a: seq<real>, b: seq<real>, i: nat, v: Vec4)
    requires |a| == 16 && |b| == 16 && i < 4
    ensures Combined(Term(a, b, i, 0), Term(a, b, i, 1), Term(a, b, i, 2), Term(a, b, i, 3), v)
         == Combined(a[i], a[4 + i], a[8 + i], a[12 + i], Applied(v, b))
  {
    TermsOfRow(a, b, i);
    NamedSumsExchange(a[i], a[4 + i], a[8 + i], a[12 + i], Term(a, b, i, 0), Term(a, b, i, 1), Term(a, b, i, 2),
                      Term(a, b, i, 3), b, v);
  }

  /** A vector times a product is the vector times the second factor and then times the first. */
  lemma ProductActs(a: seq<real>, b: seq<real>, v: Vec4)
    requires |a| == 16 && |b| == 16
    ensures Applied(v, Product(a, b)) == Applied(Applied(v, b), a)
  {
    RowActs(a, b, 0, v);
    RowActs(a, b, 1, v);
    RowActs(a, b, 2, v);
    RowActs(a, b, 3, v);
  }

  lemma IdentityActs(v: Vec4)
    ensures Applied(v, IDENTITY) == v && Determinant(IDENTITY) == 1.0
  {
  }

  // ---- the routines ----

  /** The routines compute into scratch space first, so the result may be one of the arguments. */
  method Store(result: array<real>, m: seq<real>)
    requires result.Length == |m|
    modifies result
    ensures result[..] == m
  {
    for i := 0 to result.Length
      invariant result[..i] == m[..i]
    {
      result[i] := m[i];
    }
  }

  method Multiply(result: array<real>, m0: array<real>, m1: array<real>)
    requires result.Length == m0.Length == m1.Length == 16
    modifies result
    ensures result[..] == Product(old(m0[..]), old(m1[..]))
  {
    var multiplied := Product(m0[..], m1[..]);
    Store(result, multiplied);
  }

  method TransposeInto(result: array<real>, m0: array<real>)
    requires result.Length == m0.Length == 16
    modifies result
    ensures result[..] == Transpose(old(m0[..]))
    ensures forall i, j :: 0 <= i < 4 && 0 <= j < 4 ==> result[4 * j + i] == old(m0[..])[4 * i + j]
  {
    var transposed := Transpose(m0[..]);
    Store(result, transposed);
  }

  method CofactorInto(result: array<real>, m0: array<real>)
    requires result.Length == m0.Length == 16
    modifies result
    ensures result[..] == Cofactor(old(m0[..]))
  {
    var cofactor := Cofactor(m0[..]);
    Store(result, cofactor);
  }

  /** A matrix is overwritten by its inverse, and multiplying the old one back gives the identity. */
  method InverseInto(result: array<real>, m0: array<real>)
    requires result.Length == m0.Length == 16 && Determinant(m0[..]) != 0.0
    modifies result
    ensures Product(result[..], old(m0[..])) == IDENTITY && Product(old(m0[..]), result[..]) == IDENTITY
  {
    ghost var m := m0[..];
    InverseIsInverse(m);
    var inverse := Unscaled(m0[..]);
    var invertedDeterminant := 1.0 / FirstEntry(m0[..], inverse);
    Store(result, Scaled(inverse, invertedDeterminant));
  }
}
