/**
 * Two-dimensional vectors and 2x2 matrices of the raycaster (`struct vec2`,
 * `struct mat2` and the `mat2_*` operations), over exact real arithmetic.
 */
module LinAlg {
  import opened Wrappers

  datatype Vec2 = Vec2(x: real, y: real)

  /** The matrix [[a, b], [c, d]]. */
  datatype Mat2 = Mat2(a: real, b: real, c: real, d: real)

  /** Determinants strictly between -SingularEps and SingularEps count as singular. */
  const SingularEps: real := 0.0000000001

  const Identity: Mat2 := Mat2(1.0, 0.0, 0.0, 1.0)

  function Add(u: Vec2, v: Vec2): Vec2 {
    Vec2(u.x + v.x, u.y + v.y)
  }

  function Sub(u: Vec2, v: Vec2): Vec2 {
    Vec2(u.x - v.x, u.y - v.y)
  }

  function Scale(k: real, v: Vec2): Vec2 {
    Vec2(k * v.x, k * v.y)
  }

  /** Matrix product m * n. */
  function Mul(m: Mat2, n: Mat2): Mat2 {
    Mat2(m.a * n.a + m.b * n.c, m.a * n.b + m.b * n.d,
         m.c * n.a + m.d * n.c, m.c * n.b + m.d * n.d)
  }

  function Determinant(m: Mat2): real {
    m.a * m.d - m.b * m.c
  }

  /** The adjugate [[d, -b], [-c, a]]: the inverse up to the factor 1/det. */
  function Adjugate(m: Mat2): Mat2 {
    Mat2(m.d, -m.b, -m.c, m.a)
  }

  /** The matrix-vector product m * v; the identity leaves v unchanged. */
  function LeftMultVec(m: Mat2, v: Vec2): (r: Vec2)
    ensures m == Identity ==> r == v
  {
    Vec2(m.a * v.x + m.b * v.y, m.c * v.x + m.d * v.y)
  }

  /**
   * The closed-form inverse, or None when the determinant is too close to zero.
   * Whatever is returned is a two-sided inverse of m.
   */
  function Invert(m: Mat2): (r: Option<Mat2>)
    ensures r.None? <==> -SingularEps < Determinant(m) < SingularEps
    ensures r.Some? ==> Mul(r.value, m) == Identity && Mul(m, r.value) == Identity
  {
    var det := Determinant(m);
    if det < SingularEps && det > -SingularEps then
      None
    else
      var inv := Mat2(m.d / det, -m.b / det, -m.c / det, m.a / det);
      ClosedFormInverse(m, det);
      Some(inv)
  }

  /** The closed-form inverse with divisor det multiplies with m, on both sides, to the identity. */
  lemma ClosedFormInverse(m: Mat2, det: real)
    requires det == Determinant(m) && det != 0.0
    ensures Mul(Mat2(m.d / det, -m.b / det, -m.c / det, m.a / det), m) == Identity
    ensures Mul(m, Mat2(m.d / det, -m.b / det, -m.c / det, m.a / det)) == Identity
  {
    var inv := Mat2(m.d / det, -m.b / det, -m.c / det, m.a / det);
    assert (m.a * m.d - m.b * m.c) / det == 1.0;
    // inv * m, entry by entry
    assert inv.a * m.a + inv.b * m.c == 1.0;
    assert inv.a * m.b + inv.b * m.d == 0.0;
    assert inv.c * m.a + inv.d * m.c == 0.0;
    assert inv.c * m.b + inv.d * m.d == 1.0;
    // m * inv, entry by entry
    assert m.a * inv.a + m.b * inv.c == 1.0;
    assert m.a * inv.b + m.b * inv.d == 0.0;
    assert m.c * inv.a + m.d * inv.c == 0.0;
    assert m.c * inv.b + m.d * inv.d == 1.0;
  }

  /** Applying a product is applying its factors one after the other. */
  lemma LeftMultVecMul(m: Mat2, n: Mat2, v: Vec2)
    ensures LeftMultVec(Mul(m, n), v) == LeftMultVec(m, LeftMultVec(n, v))
  {
  }

  /** The identity matrix leaves every vector unchanged. */
  lemma LeftMultVecIdentity(v: Vec2)
    ensures LeftMultVec(Identity, v) == v
  {
  }

  /**
   * The determinant is the factor by which m and its adjugate multiply, on
   * either side, to a multiple of the identity; it is 0 exactly when that
   * product vanishes.
   */
  lemma AdjugateProduct(m: Mat2)
    ensures Mul(m, Adjugate(m)) == Mat2(Determinant(m), 0.0, 0.0, Determinant(m))
    ensures Mul(Adjugate(m), m) == Mat2(Determinant(m), 0.0, 0.0, Determinant(m))
    ensures Determinant(m) == 0.0 <==> Mul(m, Adjugate(m)) == Mat2(0.0, 0.0, 0.0, 0.0)
  {
  }

  /** The determinant is multiplicative. */
  lemma DeterminantMul(m: Mat2, n: Mat2)
    ensures Determinant(Mul(m, n)) == Determinant(m) * Determinant(n)
  {
  }

  /** Hence the inverse of an invertible matrix has determinant 1/det. */
  lemma InverseDeterminant(m: Mat2)
    requires Invert(m).Some?
    ensures Determinant(Invert(m).value) * Determinant(m) == 1.0
  {
    DeterminantMul(Invert(m).value, m);
  }

  /**
   * Solving with the inverse: when m is invertible, m * u == v holds exactly when
   * u is the inverse applied to v.
   */
  lemma InverseSolves(m: Mat2, u: Vec2, v: Vec2)
    requires Invert(m).Some?
    ensures LeftMultVec(m, u) == v <==> u == LeftMultVec(Invert(m).value, v)
  {
    var inv := Invert(m).value;
    if LeftMultVec(m, u) == v {
      LeftMultVecMul(inv, m, u);
      LeftMultVecIdentity(u);
    }
    if u == LeftMultVec(inv, v) {
      LeftMultVecMul(m, inv, v);
      LeftMultVecIdentity(v);
    }
  }
}
