/** src/game/observer.cpp: the orientation matrix of the game as a unit quaternion, over the reals.
    `Expand` is quat_to_matrix of include/ht2mp/protocol/pose_math.hpp. */
module MatrixQuaternion {

  /** Row-major, as in the game's memory. */
  datatype Matrix = Matrix(m0: real, m1: real, m2: real, m3: real, m4: real, m5: real, m6: real, m7: real, m8: real)

  datatype Quaternion = Quaternion(x: real, y: real, z: real, w: real)

  const IDENTITY := Quaternion(0.0, 0.0, 0.0, 1.0)
  const IDENTITY_BASIS := Matrix(1.0, 0.0, 0.0, 0.0, 1.0, 0.0, 0.0, 0.0, 1.0)

  /** The square root is a parameter with its defining property. */
  ghost predicate IsSqrt(sqrt: real -> real) {
    forall a {:trigger sqrt(a)} :: a >= 0.0 ==> sqrt(a) >= 0.0 && sqrt(a) * sqrt(a) == a
  }

  function Norm2(q: Quaternion): real { q.x * q.x + q.y * q.y + q.z * q.z + q.w * q.w }

  function Scaled(q: Quaternion, divisor: real): Quaternion
    requires divisor != 0.0
  {
    Quaternion(q.x / divisor, q.y / divisor, q.z / divisor, q.w / divisor)
  }

  function Negated(q: Quaternion): Quaternion { Quaternion(-q.x, -q.y, -q.z, -q.w) }

  datatype Pivot = W | X | Y | Z

  function PivotOf(m: Matrix): Pivot {
    if m.m0 + m.m4 + m.m8 > 0.0 then W
    else if m.m0 > m.m4 && m.m0 > m.m8 then X
    else if m.m4 > m.m8 then Y
    else Z
  }

  /** The value under the square root of the chosen branch. */
  function Radicand(m: Matrix): real {
    match PivotOf(m)
    case W => m.m0 + m.m4 + m.m8 + 1.0
    case X => 1.0 + m.m0 - m.m4 - m.m8
    case Y => 1.0 + m.m4 - m.m0 - m.m8
    case Z => 1.0 + m.m8 - m.m0 - m.m4
  }

  /** No branch divides by less than two. */
  function Scale(m: Matrix, sqrt: real -> real): (scale: real)
    requires IsSqrt(sqrt)
    ensures scale >= 2.0
  {
    RadicandAtLeastOne(m);
    SqrtAtLeast(sqrt, Radicand(m), 1.0);
    sqrt(Radicand(m)) * 2.0
  }

  lemma RadicandAtLeastOne(m: Matrix)
    ensures Radicand(m) >= 1.0
  {
  }

  lemma SqrtAtLeast(sqrt: real -> real, a: real, bound: real)
    requires IsSqrt(sqrt) && bound >= 0.0 && a >= bound * bound
    ensures sqrt(a) >= bound
  {
    if sqrt(a) < bound {
      SquareLess(sqrt(a), bound);
    }
  }

  lemma SquareLess(a: real, b: real)
    requires 0.0 <= a < b
    ensures a * a < b * b
  {
    Positive(b - a, b + a, (b - a) * (b + a));
    assert (b - a) * (b + a) == b * b - a * a;
  }

  // Products are passed by name: the solver then treats them as one value.

  lemma Positive(a: real, b: real, p: real)
    requires a > 0.0 && b > 0.0 && p == a * b
    ensures p > 0.0
  {
  }

  lemma Square(a: real, p: real)
    requires p == a * a
    ensures p >= 0.0 && (p == 0.0 ==> a == 0.0)
  {
    if a > 0.0 {
      Positive(a, a, p);
    } else if a < 0.0 {
      Positive(-a, -a, p);
    }
  }

  lemma SquareAtLeast(a: real, p: real, bound: real)
    requires a >= bound >= 0.0 && p == a * a
    ensures p >= bound * bound
  {
    if a > bound {
      SquareLess(bound, a);
    }
  }

  lemma QuotientProduct(a: real, b: real, d: real, p: real, d2: real)
    requires d != 0.0 && p == a * b && d2 == d * d
    ensures (a / d) * (b / d) * d2 == p
  {
    var u, v := a / d, b / d;
    assert u * d == a && v * d == b;
    assert u * v * (d * d) == (u * d) * (v * d);
  }

  lemma Cancel(a: real, b: real, c: real)
    requires c != 0.0 && a * c == b * c
    ensures a == b
  {
    assert (a - b) * c == 0.0;
  }

  function Divided(m: Matrix, s: real): Quaternion
    requires s != 0.0
  {
    match PivotOf(m)
    case W => Quaternion((m.m7 - m.m5) / s, (m.m2 - m.m6) / s, (m.m3 - m.m1) / s, 0.25 * s)
    case X => Quaternion(0.25 * s, (m.m1 + m.m3) / s, (m.m2 + m.m6) / s, (m.m7 - m.m5) / s)
    case Y => Quaternion((m.m1 + m.m3) / s, 0.25 * s, (m.m5 + m.m7) / s, (m.m2 - m.m6) / s)
    case Z => Quaternion((m.m2 + m.m6) / s, (m.m5 + m.m7) / s, 0.25 * s, (m.m3 - m.m1) / s)
  }

  function Raw(m: Matrix, sqrt: real -> real): Quaternion
    requires IsSqrt(sqrt)
  {
    Divided(m, Scale(m, sqrt))
  }

  function Component(q: Quaternion, p: Pivot): real {
    match p
    case W => q.w
    case X => q.x
    case Y => q.y
    case Z => q.z
  }

  function Normalized(q: Quaternion, sqrt: real -> real): Quaternion
    requires IsSqrt(sqrt)
  {
    var norm := sqrt(Norm2(q));
    if norm > 0.0001 then Scaled(q, norm) else IDENTITY
  }

  function MatrixToQuaternion(m: Matrix, sqrt: real -> real): Quaternion
    requires IsSqrt(sqrt)
  {
    var q := Normalized(Raw(m, sqrt), sqrt);
    if q.w < 0.0 then Negated(q) else q
  }

  // ----- every matrix -----------------------------------------------------------------------

  lemma SumOfSquaresAtLeast(a: real, b: real, c: real, e: real, bound: real)
    requires a >= bound >= 0.0
    ensures a * a + b * b + c * c + e * e >= bound * bound
  {
    SquareAtLeast(a, a * a, bound);
    Square(b, b * b);
    Square(c, c * c);
    Square(e, e * e);
  }

  lemma NormAtLeastPivot(m: Matrix, sqrt: real -> real)
    requires IsSqrt(sqrt)
    ensures Component(Raw(m, sqrt), PivotOf(m)) >= 0.5 && Norm2(Raw(m, sqrt)) >= 0.25
  {
    var q := Raw(m, sqrt);
    match PivotOf(m)
    case W => SumOfSquaresAtLeast(q.w, q.x, q.y, q.z, 0.5);
    case X => SumOfSquaresAtLeast(q.x, q.y, q.z, q.w, 0.5);
    case Y => SumOfSquaresAtLeast(q.y, q.x, q.z, q.w, 0.5);
    case Z => SumOfSquaresAtLeast(q.z, q.x, q.y, q.w, 0.5);
  }

  lemma SumTimes(a: real, b: real, c: real, e: real, d: real)
    ensures (a + b + c + e) * d == a * d + b * d + c * d + e * d
  {
  }

  lemma Shares(a: real, b: real, c: real, e: real, d: real, x: real, y: real, z: real, w: real)
    requires a * d == x && b * d == y && c * d == z && e * d == w && x + y + z + w == d && d != 0.0
    ensures a + b + c + e == 1.0
  {
    SumTimes(a, b, c, e, d);
    Cancel(a + b + c + e, 1.0, d);
  }

  lemma QuotientNorm(x: real, y: real, z: real, w: real, norm: real, d: real)
    requires norm > 0.0 && norm * norm == d && x * x + y * y + z * z + w * w == d
    ensures (x / norm) * (x / norm) + (y / norm) * (y / norm) + (z / norm) * (z / norm) + (w / norm) * (w / norm) == 1.0
  {
    QuotientProduct(x, x, norm, x * x, d);
    QuotientProduct(y, y, norm, y * y, d);
    QuotientProduct(z, z, norm, z * z, d);
    QuotientProduct(w, w, norm, w * w, d);
    Positive(norm, norm, d);
    Shares((x / norm) * (x / norm), (y / norm) * (y / norm), (z / norm) * (z / norm), (w / norm) * (w / norm), d,
           x * x, y * y, z * z, w * w);
  }

  lemma ScaledNorm2(q: Quaternion, norm: real)
    requires norm > 0.0 && norm * norm == Norm2(q)
    ensures Norm2(Scaled(q, norm)) == 1.0
  {
    QuotientNorm(q.x, q.y, q.z, q.w, norm, Norm2(q));
  }

  /** For every real matrix, rotation or not, the result is a unit quaternion of the hemisphere
      w >= 0, and the identity fallback is never taken. */
  lemma ResultIsUnit(m: Matrix, sqrt: real -> real)
    requires IsSqrt(sqrt)
    ensures sqrt(Norm2(Raw(m, sqrt))) >= 0.5
    ensures Norm2(MatrixToQuaternion(m, sqrt)) == 1.0 && MatrixToQuaternion(m, sqrt).w >= 0.0
  {
    NormAtLeastPivot(m, sqrt);
    var q := Raw(m, sqrt);
    var norm := sqrt(Norm2(q));
    SqrtAtLeast(sqrt, Norm2(q), 0.5);
    ScaledNorm2(q, norm);
    NegatedNorm2(Scaled(q, norm));
  }

  lemma NegatedNorm2(q: Quaternion)
    ensures Norm2(Negated(q)) == Norm2(q)
  {
  }

  // ----- proper rotations -------------------------------------------------------------------

  function Dot(a: real, b: real, c: real, d: real, e: real, f: real): real { a * d + b * e + c * f }

  function Triple(a: real, b: real, c: real, d: real, e: real, f: real, g: real, h: real, i: real): real {
    a * (e * i - f * h) + b * (f * g - d * i) + c * (d * h - e * g)
  }

  /** The rows (a, b, c), (d, e, f) and (g, h, i) are orthonormal and right-handed. */
  predicate Rotation(a: real, b: real, c: real, d: real, e: real, f: real, g: real, h: real, i: real) {
    && Dot(a, b, c, a, b, c) == 1.0 && Dot(d, e, f, d, e, f) == 1.0 && Dot(g, h, i, g, h, i) == 1.0
    && Dot(a, b, c, d, e, f) == 0.0 && Dot(a, b, c, g, h, i) == 0.0 && Dot(d, e, f, g, h, i) == 0.0
    && Triple(a, b, c, d, e, f, g, h, i) == 1.0
  }

  predicate IsRotation(m: Matrix) { Rotation(m.m0, m.m1, m.m2, m.m3, m.m4, m.m5, m.m6, m.m7, m.m8) }

  /** Two unit vectors with product one are equal. */
  lemma SameUnit(x: real, y: real, z: real, p: real, q: real, r: real)
    requires x * x + y * y + z * z == 1.0 && p * p + q * q + r * r == 1.0 && x * p + y * q + z * r == 1.0
    ensures x == p && y == q && z == r
  {
    SquareOfDifference(x, p);
    SquareOfDifference(y, q);
    SquareOfDifference(z, r);
    SquaresVanish(x - p, y - q, z - r);
  }

  lemma SquareOfDifference(a: real, b: real)
    ensures (a - b) * (a - b) == a * a + b * b - 2.0 * (a * b)
  {
  }

  lemma SquaresVanish(a: real, b: real, c: real)
    requires a * a + b * b + c * c == 0.0
    ensures a == 0.0 && b == 0.0 && c == 0.0
  {
    Square(a, a * a);
    Square(b, b * b);
    Square(c, c * c);
  }

  lemma Lagrange(a: real, b: real, c: real, d: real, e: real, f: real)
    ensures (b * f - c * e) * (b * f - c * e) + (c * d - a * f) * (c * d - a * f) + (a * e - b * d) * (a * e - b * d)
            == (a * a + b * b + c * c) * (d * d + e * e + f * f) - (a * d + b * e + c * f) * (a * d + b * e + c * f)
  {
  }

  lemma CrossIsUnit(a: real, b: real, c: real, d: real, e: real, f: real)
    requires a * a + b * b + c * c == 1.0 && d * d + e * e + f * f == 1.0 && a * d + b * e + c * f == 0.0
    ensures (b * f - c * e) * (b * f - c * e) + (c * d - a * f) * (c * d - a * f) + (a * e - b * d) * (a * e - b * d)
            == 1.0
  {
    Lagrange(a, b, c, d, e, f);
  }

  /** A right-handed unit vector orthogonal to two orthonormal ones is their cross product. */
  lemma CrossProduct(a: real, b: real, c: real, d: real, e: real, f: real, x: real, y: real, z: real)
    requires a * a + b * b + c * c == 1.0 && d * d + e * e + f * f == 1.0 && a * d + b * e + c * f == 0.0
    requires x * x + y * y + z * z == 1.0
    requires x * (b * f - c * e) + y * (c * d - a * f) + z * (a * e - b * d) == 1.0
    ensures x == b * f - c * e && y == c * d - a * f && z == a * e - b * d
  {
    CrossIsUnit(a, b, c, d, e, f);
    SameUnit(x, y, z, b * f - c * e, c * d - a * f, a * e - b * d);
  }

  lemma DeterminantTurns(a: real, b: real, c: real, d: real, e: real, f: real, g: real, h: real, i: real)
    ensures a * (e * i - f * h) + b * (f * g - d * i) + c * (d * h - e * g)
            == g * (b * f - c * e) + h * (c * d - a * f) + i * (a * e - b * d)
  {
  }

  lemma RowsTurn(a: real, b: real, c: real, d: real, e: real, f: real, g: real, h: real, i: real)
    requires Rotation(a, b, c, d, e, f, g, h, i)
    ensures Rotation(d, e, f, g, h, i, a, b, c)
  {
    DeterminantTurns(d, e, f, g, h, i, a, b, c);
  }

  lemma AxesTurn(a: real, b: real, c: real, d: real, e: real, f: real, g: real, h: real, i: real)
    requires Rotation(a, b, c, d, e, f, g, h, i)
    ensures Rotation(e, f, d, h, i, g, b, c, a)
  {
    RowsTurn(a, b, c, d, e, f, g, h, i);
  }

  lemma LastRow(a: real, b: real, c: real, d: real, e: real, f: real, g: real, h: real, i: real)
    requires Rotation(a, b, c, d, e, f, g, h, i)
    ensures g == b * f - c * e && h == c * d - a * f && i == a * e - b * d
  {
    DeterminantTurns(a, b, c, d, e, f, g, h, i);
    CrossProduct(a, b, c, d, e, f, g, h, i);
  }

  /** A proper rotation equals its own cofactors. */
  lemma Cofactors(a: real, b: real, c: real, d: real, e: real, f: real, g: real, h: real, i: real)
    requires Rotation(a, b, c, d, e, f, g, h, i)
    ensures a == e * i - f * h && b == f * g - d * i && c == d * h - e * g
    ensures d == h * c - i * b && e == i * a - g * c && f == g * b - h * a
    ensures g == b * f - c * e && h == c * d - a * f && i == a * e - b * d
  {
    LastRow(a, b, c, d, e, f, g, h, i);
    RowsTurn(a, b, c, d, e, f, g, h, i);
    LastRow(d, e, f, g, h, i, a, b, c);
    RowsTurn(d, e, f, g, h, i, a, b, c);
    LastRow(g, h, i, a, b, c, d, e, f);
  }

  /** Its columns are orthonormal too. */
  lemma Columns(a: real, b: real, c: real, d: real, e: real, f: real, g: real, h: real, i: real)
    requires Rotation(a, b, c, d, e, f, g, h, i)
    ensures a * a + d * d + g * g == 1.0 && b * b + e * e + h * h == 1.0 && c * c + f * f + i * i == 1.0
    ensures a * b + d * e + g * h == 0.0 && a * c + d * f + g * i == 0.0 && b * c + e * f + h * i == 0.0
  {
    Cofactors(a, b, c, d, e, f, g, h, i);
  }

  // Four times the products of the components of a rotation's quaternion form a matrix of rank one;
  // up to the order of the axes these are its minors.

  lemma MinorXxYy(a: real, b: real, c: real, d: real, e: real, f: real, g: real, h: real, i: real)
    requires Rotation(a, b, c, d, e, f, g, h, i)
    ensures (b + d) * (b + d) == (1.0 + a - e - i) * (1.0 + e - a - i)
  {
    Columns(a, b, c, d, e, f, g, h, i);
    Cofactors(a, b, c, d, e, f, g, h, i);
    assert i == a * e - b * d && c * c + f * f + i * i == 1.0;
  }

  lemma MinorXxWw(a: real, b: real, c: real, d: real, e: real, f: real, g: real, h: real, i: real)
    requires Rotation(a, b, c, d, e, f, g, h, i)
    ensures (h - f) * (h - f) == (1.0 + a - e - i) * (1.0 + a + e + i)
  {
    Columns(a, b, c, d, e, f, g, h, i);
    Cofactors(a, b, c, d, e, f, g, h, i);
  }

  lemma MinorXxYz(a: real, b: real, c: real, d: real, e: real, f: real, g: real, h: real, i: real)
    requires Rotation(a, b, c, d, e, f, g, h, i)
    ensures (b + d) * (c + g) == (1.0 + a - e - i) * (f + h)
  {
    Columns(a, b, c, d, e, f, g, h, i);
    Cofactors(a, b, c, d, e, f, g, h, i);
  }

  lemma MinorXxYw(a: real, b: real, c: real, d: real, e: real, f: real, g: real, h: real, i: real)
    requires Rotation(a, b, c, d, e, f, g, h, i)
    ensures (b + d) * (h - f) == (1.0 + a - e - i) * (c - g)
  {
    Columns(a, b, c, d, e, f, g, h, i);
    Cofactors(a, b, c, d, e, f, g, h, i);
  }

  lemma MinorXxZw(a: real, b: real, c: real, d: real, e: real, f: real, g: real, h: real, i: real)
    requires Rotation(a, b, c, d, e, f, g, h, i)
    ensures (c + g) * (h - f) == (1.0 + a - e - i) * (d - b)
  {
    Columns(a, b, c, d, e, f, g, h, i);
    Cofactors(a, b, c, d, e, f, g, h, i);
  }

  lemma MinorWwXy(a: real, b: real, c: real, d: real, e: real, f: real, g: real, h: real, i: real)
    requires Rotation(a, b, c, d, e, f, g, h, i)
    ensures (h - f) * (c - g) == (1.0 + a + e + i) * (b + d)
  {
    Columns(a, b, c, d, e, f, g, h, i);
    Cofactors(a, b, c, d, e, f, g, h, i);
  }

  /** Row and column of a rank-one matrix meeting in the pivot `p`, and the entries they determine. */
  predicate PivotRow(p: real, u: real, v: real, t: real, uu: real, vv: real, tt: real, uv: real, ut: real, vt: real) {
    && u * u == p * uu && v * v == p * vv && t * t == p * tt
    && u * v == p * uv && u * t == p * ut && v * t == p * vt
  }

  lemma RowX(a: real, b: real, c: real, d: real, e: real, f: real, g: real, h: real, i: real)
    requires Rotation(a, b, c, d, e, f, g, h, i)
    ensures PivotRow(1.0 + a - e - i, b + d, c + g, h - f, 1.0 + e - a - i, 1.0 + i - a - e, 1.0 + a + e + i, f + h,
                     c - g, d - b)
  {
    MinorXxYy(a, b, c, d, e, f, g, h, i);
    MinorXxWw(a, b, c, d, e, f, g, h, i);
    MinorXxYz(a, b, c, d, e, f, g, h, i);
    MinorXxYw(a, b, c, d, e, f, g, h, i);
    MinorXxZw(a, b, c, d, e, f, g, h, i);
    AxesTurn(a, b, c, d, e, f, g, h, i);
    AxesTurn(e, f, d, h, i, g, b, c, a);
    MinorXxYy(i, g, h, c, a, b, f, d, e);
  }

  lemma RowW(a: real, b: real, c: real, d: real, e: real, f: real, g: real, h: real, i: real)
    requires Rotation(a, b, c, d, e, f, g, h, i)
    ensures PivotRow(1.0 + a + e + i, h - f, c - g, d - b, 1.0 + a - e - i, 1.0 + e - a - i, 1.0 + i - a - e, b + d,
                     c + g, f + h)
  {
    MinorXxWw(a, b, c, d, e, f, g, h, i);
    MinorWwXy(a, b, c, d, e, f, g, h, i);
    AxesTurn(a, b, c, d, e, f, g, h, i);
    MinorXxWw(e, f, d, h, i, g, b, c, a);
    MinorWwXy(e, f, d, h, i, g, b, c, a);
    AxesTurn(e, f, d, h, i, g, b, c, a);
    MinorXxWw(i, g, h, c, a, b, f, d, e);
    MinorWwXy(i, g, h, c, a, b, f, d, e);
  }

  /** One product of two components computed from the pivot row. */
  lemma Share(u: real, v: real, s: real, p: real, uv: real)
    requires s > 0.0 && s * s == 4.0 * p && u * v == p * uv
    ensures 4.0 * ((u / s) * (v / s)) == uv
  {
    var product := (u / s) * (v / s);
    QuotientProduct(u, v, s, u * v, s * s);
    Positive(s, s, s * s);
    assert product * (4.0 * p) == p * uv;
    Cancel(4.0 * product, uv, p);
  }

  lemma PivotQuotient(s: real, p: real)
    requires s > 0.0 && s * s == 4.0 * p
    ensures p / s == 0.25 * s
  {
    Cancel(p / s, 0.25 * s, s);
  }

  /** Four times the ten products of the components x, y, z and w. */
  predicate FourTimes(x: real, y: real, z: real, w: real, xx: real, xy: real, xz: real, xw: real,
                      yy: real, zz: real, ww: real, yz: real, yw: real, zw: real)
  {
    && 4.0 * (x * x) == xx && 4.0 * (x * y) == xy && 4.0 * (x * z) == xz && 4.0 * (x * w) == xw && 4.0 * (y * y) == yy
    && 4.0 * (z * z) == zz && 4.0 * (w * w) == ww && 4.0 * (y * z) == yz && 4.0 * (y * w) == yw && 4.0 * (z * w) == zw
  }

  datatype Products = Products(xx: real, yy: real, zz: real, ww: real, xy: real, xz: real, yz: real, xw: real,
                               yw: real, zw: real)

  function ProductsOf(q: Quaternion): Products {
    Products(q.x * q.x, q.y * q.y, q.z * q.z, q.w * q.w, q.x * q.y, q.x * q.z, q.y * q.z, q.x * q.w, q.y * q.w,
             q.z * q.w)
  }

  function Targets(m: Matrix): Products {
    Products(1.0 + m.m0 - m.m4 - m.m8, 1.0 + m.m4 - m.m0 - m.m8, 1.0 + m.m8 - m.m0 - m.m4, 1.0 + m.m0 + m.m4 + m.m8,
             m.m1 + m.m3, m.m2 + m.m6, m.m5 + m.m7, m.m7 - m.m5, m.m2 - m.m6, m.m3 - m.m1)
  }

  predicate Quarter(p: Products, k: Products) {
    && 4.0 * p.xx == k.xx && 4.0 * p.yy == k.yy && 4.0 * p.zz == k.zz && 4.0 * p.ww == k.ww && 4.0 * p.xy == k.xy
    && 4.0 * p.xz == k.xz && 4.0 * p.yz == k.yz && 4.0 * p.xw == k.xw && 4.0 * p.yw == k.yw && 4.0 * p.zw == k.zw
  }

  lemma Renamed(x: real, y: real, z: real, w: real, xx: real, xy: real, xz: real, xw: real,
                yy: real, zz: real, ww: real, yz: real, yw: real, zw: real)
    requires FourTimes(x, y, z, w, xx, xy, xz, xw, yy, zz, ww, yz, yw, zw)
    ensures FourTimes(z, x, y, w, zz, xz, yz, zw, xx, yy, ww, xy, xw, yw)
    ensures FourTimes(y, z, w, x, yy, yz, yw, xy, zz, ww, xx, zw, xz, xw)
  {
  }

  /** The ten products of the four components, the pivot's own being a quarter of the divisor. */
  lemma Shared(p: real, u: real, v: real, t: real, uu: real, vv: real, tt: real, uv: real, ut: real, vt: real, s: real)
    requires PivotRow(p, u, v, t, uu, vv, tt, uv, ut, vt) && s > 0.0 && s * s == 4.0 * p
    ensures FourTimes(0.25 * s, u / s, v / s, t / s, p, u, v, t, uu, vv, tt, uv, ut, vt)
  {
    Share(u, u, s, p, uu);
    Share(v, v, s, p, vv);
    Share(t, t, s, p, tt);
    Share(u, v, s, p, uv);
    Share(u, t, s, p, ut);
    Share(v, t, s, p, vt);
    PivotQuotient(s, p);
    Share(p, p, s, p, p);
    Share(p, u, s, p, u);
    Share(p, v, s, p, v);
    Share(p, t, s, p, t);
  }

  lemma ProductsW(a: real, b: real, c: real, d: real, e: real, f: real, g: real, h: real, i: real, s: real)
    requires Rotation(a, b, c, d, e, f, g, h, i) && s > 0.0 && s * s == 4.0 * (1.0 + a + e + i)
    ensures FourTimes((h - f) / s, (c - g) / s, (d - b) / s, 0.25 * s, 1.0 + a - e - i, b + d, c + g, h - f,
                      1.0 + e - a - i, 1.0 + i - a - e, 1.0 + a + e + i, f + h, c - g, d - b)
  {
    RowW(a, b, c, d, e, f, g, h, i);
    Shared(1.0 + a + e + i, h - f, c - g, d - b, 1.0 + a - e - i, 1.0 + e - a - i, 1.0 + i - a - e, b + d, c + g,
           f + h, s);
    Renamed(0.25 * s, (h - f) / s, (c - g) / s, (d - b) / s, 1.0 + a + e + i, h - f, c - g, d - b,
            1.0 + a - e - i, 1.0 + e - a - i, 1.0 + i - a - e, b + d, c + g, f + h);
  }

  lemma ProductsX(a: real, b: real, c: real, d: real, e: real, f: real, g: real, h: real, i: real, s: real)
    requires Rotation(a, b, c, d, e, f, g, h, i) && s > 0.0 && s * s == 4.0 * (1.0 + a - e - i)
    ensures FourTimes(0.25 * s, (b + d) / s, (c + g) / s, (h - f) / s, 1.0 + a - e - i, b + d, c + g, h - f,
                      1.0 + e - a - i, 1.0 + i - a - e, 1.0 + a + e + i, f + h, c - g, d - b)
  {
    RowX(a, b, c, d, e, f, g, h, i);
    Shared(1.0 + a - e - i, b + d, c + g, h - f, 1.0 + e - a - i, 1.0 + i - a - e, 1.0 + a + e + i, f + h, c - g,
           d - b, s);
  }

  lemma ProductsY(a: real, b: real, c: real, d: real, e: real, f: real, g: real, h: real, i: real, s: real)
    requires Rotation(a, b, c, d, e, f, g, h, i) && s > 0.0 && s * s == 4.0 * (1.0 + e - a - i)
    ensures FourTimes((b + d) / s, 0.25 * s, (f + h) / s, (c - g) / s, 1.0 + a - e - i, b + d, c + g, h - f,
                      1.0 + e - a - i, 1.0 + i - a - e, 1.0 + a + e + i, f + h, c - g, d - b)
  {
    AxesTurn(a, b, c, d, e, f, g, h, i);
    RowX(e, f, d, h, i, g, b, c, a);
    Shared(1.0 + e - a - i, f + h, b + d, c - g, 1.0 + i - a - e, 1.0 + a - e - i, 1.0 + a + e + i, c + g, d - b,
           h - f, s);
    Renamed(0.25 * s, (f + h) / s, (b + d) / s, (c - g) / s, 1.0 + e - a - i, f + h, b + d, c - g,
            1.0 + i - a - e, 1.0 + a - e - i, 1.0 + a + e + i, c + g, d - b, h - f);
  }

  lemma ProductsZ(a: real, b: real, c: real, d: real, e: real, f: real, g: real, h: real, i: real, s: real)
    requires Rotation(a, b, c, d, e, f, g, h, i) && s > 0.0 && s * s == 4.0 * (1.0 + i - a - e)
    ensures FourTimes((c + g) / s, (f + h) / s, 0.25 * s, (d - b) / s, 1.0 + a - e - i, b + d, c + g, h - f,
                      1.0 + e - a - i, 1.0 + i - a - e, 1.0 + a + e + i, f + h, c - g, d - b)
  {
    AxesTurn(a, b, c, d, e, f, g, h, i);
    AxesTurn(e, f, d, h, i, g, b, c, a);
    RowX(i, g, h, c, a, b, f, d, e);
    Shared(1.0 + i - a - e, c + g, f + h, d - b, 1.0 + a - e - i, 1.0 + e - a - i, 1.0 + a + e + i, b + d, h - f,
           c - g, s);
    Renamed(0.25 * s, (c + g) / s, (f + h) / s, (d - b) / s, 1.0 + i - a - e, c + g, f + h, d - b,
            1.0 + a - e - i, 1.0 + e - a - i, 1.0 + a + e + i, b + d, h - f, c - g);
    Renamed((f + h) / s, 0.25 * s, (c + g) / s, (d - b) / s, 1.0 + e - a - i, f + h, b + d, c - g,
            1.0 + i - a - e, 1.0 + a - e - i, 1.0 + a + e + i, c + g, d - b, h - f);
  }

  lemma FourTimesMatch(x: real, y: real, z: real, w: real, k: Products)
    requires FourTimes(x, y, z, w, k.xx, k.xy, k.xz, k.xw, k.yy, k.zz, k.ww, k.yz, k.yw, k.zw)
    ensures Quarter(ProductsOf(Quaternion(x, y, z, w)), k)
  {
  }

  lemma BranchReals(a: real, b: real, c: real, d: real, e: real, f: real, g: real, h: real, i: real, s: real)
    requires Rotation(a, b, c, d, e, f, g, h, i) && s > 0.0
             && s * s == 4.0 * Radicand(Matrix(a, b, c, d, e, f, g, h, i))
    ensures var m := Matrix(a, b, c, d, e, f, g, h, i); Quarter(ProductsOf(Divided(m, s)), Targets(m))
  {
    var m := Matrix(a, b, c, d, e, f, g, h, i);
    match PivotOf(m)
    case W =>
      ProductsW(a, b, c, d, e, f, g, h, i, s);
      FourTimesMatch((h - f) / s, (c - g) / s, (d - b) / s, 0.25 * s, Targets(m));
    case X =>
      ProductsX(a, b, c, d, e, f, g, h, i, s);
      FourTimesMatch(0.25 * s, (b + d) / s, (c + g) / s, (h - f) / s, Targets(m));
    case Y =>
      ProductsY(a, b, c, d, e, f, g, h, i, s);
      FourTimesMatch((b + d) / s, 0.25 * s, (f + h) / s, (c - g) / s, Targets(m));
    case Z =>
      ProductsZ(a, b, c, d, e, f, g, h, i, s);
      FourTimesMatch((c + g) / s, (f + h) / s, 0.25 * s, (d - b) / s, Targets(m));
  }

  lemma BranchProducts(m: Matrix, s: real)
    requires IsRotation(m) && s > 0.0 && s * s == 4.0 * Radicand(m)
    ensures Quarter(ProductsOf(Divided(m, s)), Targets(m))
  {
    BranchReals(m.m0, m.m1, m.m2, m.m3, m.m4, m.m5, m.m6, m.m7, m.m8, s);
  }

  lemma ScaleSquared(m: Matrix, sqrt: real -> real)
    requires IsSqrt(sqrt)
    ensures Scale(m, sqrt) * Scale(m, sqrt) == 4.0 * Radicand(m)
  {
    RadicandAtLeastOne(m);
    DoubledSquare(sqrt(Radicand(m)), Scale(m, sqrt), Radicand(m));
  }

  lemma DoubledSquare(r: real, s: real, p: real)
    requires r * r == p && s == r * 2.0
    ensures s * s == 4.0 * p
  {
  }

  // ----- back to the matrix -----------------------------------------------------------------

  function Combined(p: Products): Matrix {
    Matrix(1.0 - 2.0 * (p.yy + p.zz), 2.0 * (p.xy - p.zw), 2.0 * (p.xz + p.yw),
           2.0 * (p.xy + p.zw), 1.0 - 2.0 * (p.xx + p.zz), 2.0 * (p.yz - p.xw),
           2.0 * (p.xz - p.yw), 2.0 * (p.yz + p.xw), 1.0 - 2.0 * (p.xx + p.yy))
  }

  /** The standard expansion of a unit quaternion. */
  function Basis(q: Quaternion): Matrix { Combined(ProductsOf(q)) }

  /** quat_to_matrix: a quaternion far from unit length gives the identity basis. */
  function Expand(q: Quaternion, sqrt: real -> real): Matrix
    requires IsSqrt(sqrt)
  {
    var norm := sqrt(Norm2(q));
    if norm < 0.5 then IDENTITY_BASIS else Basis(Scaled(q, norm))
  }

  lemma SqrtOfOne(sqrt: real -> real)
    requires IsSqrt(sqrt)
    ensures sqrt(1.0) == 1.0
  {
    var r := sqrt(1.0);
    if r < 1.0 {
      SquareLess(r, 1.0);
    } else if r > 1.0 {
      SquareLess(1.0, r);
    }
  }

  lemma ExpandUnit(q: Quaternion, sqrt: real -> real)
    requires IsSqrt(sqrt) && Norm2(q) == 1.0
    ensures Expand(q, sqrt) == Basis(q)
  {
    SqrtOfOne(sqrt);
    assert Scaled(q, 1.0) == q;
  }

  lemma MatchingProducts(p: Products, m: Matrix)
    requires Quarter(p, Targets(m))
    ensures p.xx + p.yy + p.zz + p.ww == 1.0 && Combined(p) == m
  {
  }

  lemma NegatedProducts(q: Quaternion)
    ensures ProductsOf(Negated(q)) == ProductsOf(q)
  {
  }

  lemma UnitRawStays(m: Matrix, sqrt: real -> real)
    requires IsSqrt(sqrt) && Norm2(Raw(m, sqrt)) == 1.0
    ensures MatrixToQuaternion(m, sqrt) in {Raw(m, sqrt), Negated(Raw(m, sqrt))}
  {
    SqrtOfOne(sqrt);
    assert Scaled(Raw(m, sqrt), 1.0) == Raw(m, sqrt);
  }

  /** For every proper rotation the quaternion has norm one even before it is normalised, and
      quat_to_matrix turns it back into the matrix. */
  lemma RotationRoundTrip(m: Matrix, sqrt: real -> real)
    requires IsSqrt(sqrt) && IsRotation(m)
    ensures Norm2(Raw(m, sqrt)) == 1.0
    ensures Expand(MatrixToQuaternion(m, sqrt), sqrt) == m
  {
    var q := Divided(m, Scale(m, sqrt));
    ScaleSquared(m, sqrt);
    BranchProducts(m, Scale(m, sqrt));
    MatchingProducts(ProductsOf(q), m);
    NegatedProducts(q);
    UnitRawStays(m, sqrt);
    NegatedNorm2(q);
    ExpandUnit(MatrixToQuaternion(m, sqrt), sqrt);
  }

  // ----- back to the quaternion -------------------------------------------------------------

  lemma Cofactor0(x: real, y: real, z: real, w: real)
    ensures (y * y + w * w - x * x - z * z) * (z * z + w * w - x * x - y * y)
            - (2.0 * (y * z - x * w)) * (2.0 * (y * z + x * w))
            == (x * x + y * y + z * z + w * w) * (x * x + w * w - y * y - z * z)
  {
  }

  lemma Cofactor1(x: real, y: real, z: real, w: real)
    ensures (2.0 * (y * z - x * w)) * (2.0 * (x * z - y * w))
            - (2.0 * (x * y + z * w)) * (z * z + w * w - x * x - y * y)
            == (x * x + y * y + z * z + w * w) * (2.0 * (x * y - z * w))
  {
  }

  lemma Cofactor2(x: real, y: real, z: real, w: real)
    ensures (2.0 * (x * y + z * w)) * (2.0 * (y * z + x * w))
            - (y * y + w * w - x * x - z * z) * (2.0 * (x * z - y * w))
            == (x * x + y * y + z * z + w * w) * (2.0 * (x * z + y * w))
  {
  }

  lemma RowNorm(x: real, y: real, z: real, w: real)
    ensures (x * x + w * w - y * y - z * z) * (x * x + w * w - y * y - z * z)
            + (2.0 * (x * y - z * w)) * (2.0 * (x * y - z * w)) + (2.0 * (x * z + y * w)) * (2.0 * (x * z + y * w))
            == (x * x + y * y + z * z + w * w) * (x * x + y * y + z * z + w * w)
  {
  }

  lemma RowProduct(x: real, y: real, z: real, w: real)
    ensures (x * x + w * w - y * y - z * z) * (2.0 * (x * y + z * w))
            + 2.0 * (x * y - z * w) * (y * y + w * w - x * x - z * z)
            + 2.0 * (x * z + y * w) * (2.0 * (y * z - x * w)) == 0.0
  {
  }

  lemma BasisRotates(x: real, y: real, z: real, w: real)
    requires x * x + y * y + z * z + w * w == 1.0
    ensures Rotation(x * x + w * w - y * y - z * z, 2.0 * (x * y - z * w), 2.0 * (x * z + y * w),
                     2.0 * (x * y + z * w), y * y + w * w - x * x - z * z, 2.0 * (y * z - x * w),
                     2.0 * (x * z - y * w), 2.0 * (y * z + x * w), z * z + w * w - x * x - y * y)
  {
    RowNorm(x, y, z, w);
    RowNorm(y, z, x, w);
    RowNorm(z, x, y, w);
    Cofactor0(x, y, z, w);
    Cofactor1(x, y, z, w);
    Cofactor2(x, y, z, w);
    RowProduct(x, y, z, w);
    RowProduct(y, z, x, w);
    RowProduct(z, x, y, w);
  }

  /** The expansion without the assumption of a unit norm. */
  function Homogeneous(p: Products): Matrix {
    Matrix(p.xx + p.ww - p.yy - p.zz, 2.0 * (p.xy - p.zw), 2.0 * (p.xz + p.yw),
           2.0 * (p.xy + p.zw), p.yy + p.ww - p.xx - p.zz, 2.0 * (p.yz - p.xw),
           2.0 * (p.xz - p.yw), 2.0 * (p.yz + p.xw), p.zz + p.ww - p.xx - p.yy)
  }

  lemma CombinedUnit(p: Products)
    requires p.xx + p.yy + p.zz + p.ww == 1.0
    ensures Combined(p) == Homogeneous(p)
  {
  }

  predicate TopRow(x: real, y: real, z: real, w: real, a: real, b: real, c: real) {
    a == x * x + w * w - y * y - z * z && b == 2.0 * (x * y - z * w) && c == 2.0 * (x * z + y * w)
  }

  predicate MiddleRow(x: real, y: real, z: real, w: real, d: real, e: real, f: real) {
    d == 2.0 * (x * y + z * w) && e == y * y + w * w - x * x - z * z && f == 2.0 * (y * z - x * w)
  }

  predicate BottomRow(x: real, y: real, z: real, w: real, g: real, h: real, i: real) {
    g == 2.0 * (x * z - y * w) && h == 2.0 * (y * z + x * w) && i == z * z + w * w - x * x - y * y
  }

  lemma TopEntries(q: Quaternion, m: Matrix)
    requires m == Homogeneous(ProductsOf(q))
    ensures TopRow(q.x, q.y, q.z, q.w, m.m0, m.m1, m.m2)
  {
  }

  lemma MiddleNamed(x: real, y: real, z: real, w: real, p: Products, d: real, e: real, f: real)
    requires p.xx == x * x && p.yy == y * y && p.zz == z * z && p.ww == w * w
    requires p.xy == x * y && p.zw == z * w && p.yz == y * z && p.xw == x * w
    requires d == 2.0 * (p.xy + p.zw) && e == p.yy + p.ww - p.xx - p.zz && f == 2.0 * (p.yz - p.xw)
    ensures MiddleRow(x, y, z, w, d, e, f)
  {
  }

  lemma MiddleEntries(q: Quaternion, m: Matrix)
    requires m == Homogeneous(ProductsOf(q))
    ensures MiddleRow(q.x, q.y, q.z, q.w, m.m3, m.m4, m.m5)
  {
    MiddleNamed(q.x, q.y, q.z, q.w, ProductsOf(q), m.m3, m.m4, m.m5);
  }

  lemma BottomNamed(x: real, y: real, z: real, w: real, p: Products, g: real, h: real, i: real)
    requires p.xx == x * x && p.yy == y * y && p.zz == z * z && p.ww == w * w
    requires p.xz == x * z && p.yw == y * w && p.yz == y * z && p.xw == x * w
    requires g == 2.0 * (p.xz - p.yw) && h == 2.0 * (p.yz + p.xw) && i == p.zz + p.ww - p.xx - p.yy
    ensures BottomRow(x, y, z, w, g, h, i)
  {
  }

  lemma BottomEntries(q: Quaternion, m: Matrix)
    requires m == Homogeneous(ProductsOf(q))
    ensures BottomRow(q.x, q.y, q.z, q.w, m.m6, m.m7, m.m8)
  {
    BottomNamed(q.x, q.y, q.z, q.w, ProductsOf(q), m.m6, m.m7, m.m8);
  }

  lemma EntriesRotate(x: real, y: real, z: real, w: real,
                      a: real, b: real, c: real, d: real, e: real, f: real, g: real, h: real, i: real)
    requires x * x + y * y + z * z + w * w == 1.0
    requires TopRow(x, y, z, w, a, b, c) && MiddleRow(x, y, z, w, d, e, f) && BottomRow(x, y, z, w, g, h, i)
    ensures Rotation(a, b, c, d, e, f, g, h, i)
  {
    BasisRotates(x, y, z, w);
  }

  lemma HomogeneousRotates(q: Quaternion, m: Matrix)
    requires m == Homogeneous(ProductsOf(q)) && Norm2(q) == 1.0
    ensures Rotation(m.m0, m.m1, m.m2, m.m3, m.m4, m.m5, m.m6, m.m7, m.m8)
  {
    TopEntries(q, m);
    MiddleEntries(q, m);
    BottomEntries(q, m);
    EntriesRotate(q.x, q.y, q.z, q.w, m.m0, m.m1, m.m2, m.m3, m.m4, m.m5, m.m6, m.m7, m.m8);
  }

  /** The expansion of a unit quaternion is a proper rotation. */
  lemma BasisIsRotation(q: Quaternion)
    requires Norm2(q) == 1.0
    ensures IsRotation(Basis(q))
  {
    CombinedUnit(ProductsOf(q));
    HomogeneousRotates(q, Homogeneous(ProductsOf(q)));
  }

  lemma BasisDeterminesProducts(p: Products, r: Products)
    requires p.xx + p.yy + p.zz + p.ww == 1.0 == r.xx + r.yy + r.zz + r.ww && Combined(p) == Combined(r)
    ensures p == r
  {
  }

  lemma SameSquare(a: real, b: real)
    requires a * a == b * b
    ensures a == b || a == -b
  {
    assert (a - b) * (a + b) == 0.0;
    if a != b {
      Cancel(a + b, 0.0, a - b);
    }
  }

  /** With one component known up to the sign and not zero, the products determine the others. */
  lemma SameFactors(a: real, b: real, c: real, d: real, a': real, b': real, c': real, d': real)
    requires a != 0.0 && a * a == a' * a'
    requires a * b == a' * b' && a * c == a' * c' && a * d == a' * d'
    ensures (a == a' && b == b' && c == c' && d == d') || (a == -a' && b == -b' && c == -c' && d == -d')
  {
    SameSquare(a, a');
    if a == a' {
      Cancel(b, b', a);
      Cancel(c, c', a);
      Cancel(d, d', a);
    } else {
      Cancel(b, -b', a);
      Cancel(c, -c', a);
      Cancel(d, -d', a);
    }
  }

  lemma ComponentsDetermined(x: real, y: real, z: real, w: real, x': real, y': real, z': real, w': real)
    requires x * x == x' * x' && y * y == y' * y' && z * z == z' * z' && w * w == w' * w'
    requires x * y == x' * y' && x * z == x' * z' && y * z == y' * z' && x * w == x' * w' && y * w == y' * w'
             && z * w == z' * w'
    requires x != 0.0 || y != 0.0 || z != 0.0 || w != 0.0
    ensures (x == x' && y == y' && z == z' && w == w') || (x == -x' && y == -y' && z == -z' && w == -w')
  {
    if w != 0.0 {
      SameFactors(w, x, y, z, w', x', y', z');
    } else if x != 0.0 {
      SameFactors(x, y, z, w, x', y', z', w');
    } else if y != 0.0 {
      SameFactors(y, x, z, w, y', x', z', w');
    } else {
      SameFactors(z, x, y, w, z', x', y', w');
    }
  }

  lemma ProductsDetermine(q: Quaternion, r: Quaternion)
    requires ProductsOf(q) == ProductsOf(r) && Norm2(q) == 1.0
    ensures r in {q, Negated(q)}
  {
    ComponentsDetermined(q.x, q.y, q.z, q.w, r.x, r.y, r.z, r.w);
  }

  /** For every unit quaternion, the quaternion of its matrix is the same rotation: itself when
      w > 0, its negation when w < 0. */
  lemma QuaternionRoundTrip(q: Quaternion, sqrt: real -> real)
    requires IsSqrt(sqrt) && Norm2(q) == 1.0
    ensures IsRotation(Expand(q, sqrt)) && MatrixToQuaternion(Expand(q, sqrt), sqrt) in {q, Negated(q)}
    ensures q.w > 0.0 ==> MatrixToQuaternion(Expand(q, sqrt), sqrt) == q
    ensures q.w < 0.0 ==> MatrixToQuaternion(Expand(q, sqrt), sqrt) == Negated(q)
  {
    ExpandUnit(q, sqrt);
    BasisIsRotation(q);
    var r := MatrixToQuaternion(Basis(q), sqrt);
    RotationRoundTrip(Basis(q), sqrt);
    ResultIsUnit(Basis(q), sqrt);
    ExpandUnit(r, sqrt);
    BasisDeterminesProducts(ProductsOf(q), ProductsOf(r));
    ProductsDetermine(q, r);
  }
}
