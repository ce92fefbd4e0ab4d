/**
 * Parametric lines (`struct line_t`) and the two-line intersection solver
 * `line_intersect` of raycast.c.
 */
module Lines {
  import opened Wrappers
  import opened LinAlg

  /** The line start + t * dir; for a wall, t in [0, 1] covers the segment. */
  datatype Line = Line(start: Vec2, dir: Vec2)

  /** The point of l at parameter t. */
  function At(l: Line, t: real): Vec2 {
    Add(l.start, Scale(t, l.dir))
  }

  /** The z-component of the cross product; zero exactly for parallel directions. */
  function Cross(u: Vec2, v: Vec2): real {
    u.x * v.y - u.y * v.x
  }

  /** The matrix [l1.dir | -l2.dir] of the system t1 * l1.dir - t2 * l2.dir == l2.start - l1.start. */
  function SystemMatrix(l1: Line, l2: Line): Mat2 {
    Mat2(l1.dir.x, -l2.dir.x, l1.dir.y, -l2.dir.y)
  }

  /**
   * The parameters (t1, t2) at which l1 and l2 meet, t1 along l1 and t2 along l2,
   * or None when the directions are (nearly) parallel. This is the corrected
   * reading of `line_intersect`: a singular system is reported instead of
   * being passed on to the matrix-vector product.
   */
  function Intersect(l1: Line, l2: Line): (r: Option<Vec2>)
    ensures r.None? <==> -SingularEps < Cross(l1.dir, l2.dir) < SingularEps
    ensures r.Some? ==> At(l1, r.value.x) == At(l2, r.value.y)
  {
    var a := SystemMatrix(l1, l2);
    assert Determinant(a) == -Cross(l1.dir, l2.dir);
    match Invert(a)
    case None => None
    case Some(inv) =>
      var ts := LeftMultVec(inv, Sub(l2.start, l1.start));
      SolutionMeets(l1, l2, ts);
      Some(ts)
  }

  /** The system matrix applied to (t1, t2) is l2.start - l1.start exactly when the lines meet there. */
  lemma SystemMeaning(l1: Line, l2: Line, ts: Vec2)
    ensures LeftMultVec(SystemMatrix(l1, l2), ts) == Sub(l2.start, l1.start)
        <==> At(l1, ts.x) == At(l2, ts.y)
  {
  }

  lemma SolutionMeets(l1: Line, l2: Line, ts: Vec2)
    requires Invert(SystemMatrix(l1, l2)).Some?
    requires ts == LeftMultVec(Invert(SystemMatrix(l1, l2)).value, Sub(l2.start, l1.start))
    ensures At(l1, ts.x) == At(l2, ts.y)
  {
    InverseSolves(SystemMatrix(l1, l2), ts, Sub(l2.start, l1.start));
    SystemMeaning(l1, l2, ts);
  }

  /**
   * The solution is the only meeting point: any (t1, t2) at which the two lines
   * meet is the one Intersect returns.
   */
  lemma IntersectUnique(l1: Line, l2: Line, t1: real, t2: real)
    ensures Intersect(l1, l2).Some? && At(l1, t1) == At(l2, t2) ==>
              Intersect(l1, l2).value == Vec2(t1, t2)
  {
    if Intersect(l1, l2).Some? && At(l1, t1) == At(l2, t2) {
      SystemMeaning(l1, l2, Vec2(t1, t2));
      InverseSolves(SystemMatrix(l1, l2), Vec2(t1, t2), Sub(l2.start, l1.start));
    }
  }

  /** Parallel lines never produce an intersection. */
  lemma ParallelNoIntersection(l1: Line, l2: Line, k: real)
    requires l2.dir == Scale(k, l1.dir)
    ensures Intersect(l1, l2).None?
  {
    assert Cross(l1.dir, l2.dir) == 0.0;
  }

  /** What `line_intersect` does, as written. */
  datatype Outcome =
    | Solved(ts: Vec2)   // returns the solved parameters
    | Sentinel           // returns the (-1, -1) sentinel
    | NullDeref          // calls mat2_left_mult_vec with a NULL matrix

  /**
   * `line_intersect` as written: the guard tests the freshly allocated system
   * matrix instead of its inverse, so the sentinel branch is dead and a
   * singular system reaches the matrix-vector product with a NULL inverse.
   * Allocation never fails in this model, so the system matrix is never NULL.
   */
  function IntersectAsWritten(l1: Line, l2: Line): (r: Outcome)
    ensures !r.Sentinel?
    ensures r.NullDeref? <==> Intersect(l1, l2).None?
    ensures r.Solved? ==> Intersect(l1, l2) == Some(r.ts)
  {
    var a := SystemMatrix(l1, l2);
    var inv := Invert(a);
    var systemIsNull := false;
    if systemIsNull then
      Sentinel
    else
      match inv
      case None => NullDeref
      case Some(m) => Solved(LeftMultVec(m, Sub(l2.start, l1.start)))
  }

  /** A concrete input showing the defect: a ray parallel to a wall dereferences NULL. */
  lemma ParallelRayDereferencesNull()
    ensures IntersectAsWritten(Line(Vec2(0.5, 1.0), Vec2(0.0, -1.0)),
                               Line(Vec2(0.2, 0.5), Vec2(0.0, -0.2))) == NullDeref
  {
    ParallelNoIntersection(Line(Vec2(0.5, 1.0), Vec2(0.0, -1.0)),
                           Line(Vec2(0.2, 0.5), Vec2(0.0, -0.2)), 0.2);
  }

  const SentinelTs: Vec2 := Vec2(-1.0, -1.0)

  /**
   * `line_intersect` as evidently intended: the sentinel (-1, -1) for a
   * singular system, the solved parameters otherwise.
   */
  function IntersectOrSentinel(l1: Line, l2: Line): (r: Vec2)
    ensures Intersect(l1, l2).None? ==> r == SentinelTs
    ensures Intersect(l1, l2).Some? ==> At(l1, r.x) == At(l2, r.y)
  {
    match Intersect(l1, l2)
    case None => SentinelTs
    case Some(ts) => ts
  }
}
