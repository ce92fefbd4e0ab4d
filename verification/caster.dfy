/**
 * Per-column ray casting of raycast.c: `cast_one_ray` (nearest valid wall
 * crossing along one ray) and the angle schedule of `cast_rays`.
 */
module Caster {
  import opened RealArith
  import opened Wrappers
  import opened LinAlg
  import opened Lines
  import opened Scene

  /**
   * A ray's hit: the ray parameter t, the index of the wall in the map's wall
   * sequence (the C code keeps a pointer into the same array), and the
   * parameter along that wall.
   */
  datatype Hit = Hit(t: real, wall: nat, wallTs: real)

  /** The acceptance test of `cast_one_ray`: ahead of the ray and strictly inside the wall. */
  predicate IsValid(ts: Vec2) {
    ts.x > 0.0 && ts.y > 0.0 && ts.y < 1.0
  }

  /** The parameters of a valid crossing of ray and wall, or None when the ray does not hit it. */
  function Candidate(ray: Line, w: Wall): Option<Vec2> {
    match Intersect(ray, w.line)
    case None => None
    case Some(ts) => if IsValid(ts) then Some(ts) else None
  }

  /**
   * The sentinel of the intended `line_intersect` is filtered out by the
   * validity test, so testing the sentinel-or-solution accepts exactly the
   * candidates: a singular ray/wall system never yields a hit.
   */
  lemma SentinelFiltered(ray: Line, w: Wall)
    ensures IsValid(IntersectOrSentinel(ray, w.line)) <==> Candidate(ray, w).Some?
    ensures Candidate(ray, w).Some? ==> Candidate(ray, w).value == IntersectOrSentinel(ray, w.line)
    ensures Intersect(ray, w.line).None? ==> Candidate(ray, w).None?
  {
  }

  /** Every valid crossing really is a point the ray and the wall segment share. */
  lemma CandidateOnBoth(ray: Line, w: Wall)
    requires Candidate(ray, w).Some?
    ensures var ts := Candidate(ray, w).value;
            At(ray, ts.x) == At(w.line, ts.y) && ts.x > 0.0 && 0.0 < ts.y < 1.0
  {
  }

  /** No wall among the first n is hit. */
  predicate NoHitIn(ray: Line, walls: seq<Wall>, n: nat)
    requires n <= |walls|
  {
    forall j :: 0 <= j < n ==> Candidate(ray, walls[j]).None?
  }

  /**
   * h is the nearest hit among the first n walls: it is a valid crossing of
   * wall h.wall, no valid crossing is nearer, and every earlier wall's valid
   * crossing is strictly farther (the first-seen minimum wins).
   */
  predicate IsNearestIn(ray: Line, walls: seq<Wall>, n: nat, h: Hit)
    requires n <= |walls|
  {
    && h.wall < n
    && Candidate(ray, walls[h.wall]) == Some(Vec2(h.t, h.wallTs))
    && (forall j :: 0 <= j < n && Candidate(ray, walls[j]).Some? ==>
          h.t <= Candidate(ray, walls[j]).value.x)
    && (forall j :: 0 <= j < h.wall && Candidate(ray, walls[j]).Some? ==>
          h.t < Candidate(ray, walls[j]).value.x)
  }

  /** Reference definition: the nearest hit among the first n walls, scanning in order. */
  function NearestIn(ray: Line, walls: seq<Wall>, n: nat): Option<Hit>
    requires n <= |walls|
    decreases n
  {
    if n == 0 then None
    else
      var prev := NearestIn(ray, walls, n - 1);
      match Candidate(ray, walls[n - 1])
      case None => prev
      case Some(ts) =>
        if prev.None? || ts.x < prev.value.t then Some(Hit(ts.x, n - 1, ts.y)) else prev
  }

  function NearestHit(ray: Line, walls: seq<Wall>): Option<Hit> {
    NearestIn(ray, walls, |walls|)
  }

  /**
   * The scan finds a hit exactly when some wall is hit, and what it finds is
   * the nearest hit with the first-seen tie-break.
   */
  lemma {:induction false} NearestInCorrect(ray: Line, walls: seq<Wall>, n: nat)
    requires n <= |walls|
    ensures NearestIn(ray, walls, n).None? <==> NoHitIn(ray, walls, n)
    ensures NearestIn(ray, walls, n).Some? ==> IsNearestIn(ray, walls, n, NearestIn(ray, walls, n).value)
  {
    if n > 0 {
      NearestInCorrect(ray, walls, n - 1);
      var prev := NearestIn(ray, walls, n - 1);
      if prev.Some? {
        var h := prev.value;
        assert IsNearestIn(ray, walls, n - 1, h);
      }
    }
  }

  /** At most one hit is the nearest, so the nearest hit is fully determined by the walls. */
  lemma NearestUnique(ray: Line, walls: seq<Wall>, h1: Hit, h2: Hit)
    ensures IsNearestIn(ray, walls, |walls|, h1) && IsNearestIn(ray, walls, |walls|, h2) ==> h1 == h2
  {
    if IsNearestIn(ray, walls, |walls|, h1) && IsNearestIn(ray, walls, |walls|, h2) {
      assert h1.t <= Candidate(ray, walls[h2.wall]).value.x;
      assert h2.t <= Candidate(ray, walls[h1.wall]).value.x;
      assert h1.t == h2.t;
    }
  }

  /**
   * `cast_one_ray`: scan the walls in order and keep the nearest valid
   * crossing, replacing it only on a strictly smaller ray parameter. An empty
   * `closest` plays the part of the NULL wall and the INFINITY minimum.
   */
  method CastOneRay(ray: Line, walls: seq<Wall>) returns (hit: Option<Hit>)
    ensures hit.None? <==> forall j :: 0 <= j < |walls| ==> Candidate(ray, walls[j]).None?
    ensures hit.Some? ==> IsNearestIn(ray, walls, |walls|, hit.value)
    ensures hit.Some? ==> hit.value.t > 0.0 && 0.0 < hit.value.wallTs < 1.0
    ensures hit == NearestHit(ray, walls)
  {
    var minTs: real := 0.0;
    var closest: Option<nat> := None;
    var wallTs: real := 0.0;
    for i := 0 to |walls|
      invariant closest.None? ==> NearestIn(ray, walls, i).None?
      invariant closest.Some? ==> NearestIn(ray, walls, i) == Some(Hit(minTs, closest.value, wallTs))
    {
      var ts := IntersectOrSentinel(ray, walls[i].line);
      SentinelFiltered(ray, walls[i]);
      if ts.x > 0.0 && ts.y > 0.0 && ts.y < 1.0 && (closest.None? || ts.x < minTs) {
        minTs := ts.x;
        closest := Some(i);
        wallTs := ts.y;
      }
    }
    if closest.Some? {
      hit := Some(Hit(minTs, closest.value, wallTs));
    } else {
      hit := None;
    }
    NearestInCorrect(ray, walls, |walls|);
  }

  /** The ray angle of column x: the centre of the x-th of nrays equal slices of the field of view. */
  function ColumnAngle(fov: real, nrays: nat, x: int): (ang: real)
    requires nrays > 0
    ensures (ang + fov / 2.0) * nrays as real == fov * (x as real + 0.5)
  {
    var dAng := fov / nrays as real;
    -fov / 2.0 + dAng * x as real + dAng / 2.0
  }

  /** Every column's angle lies strictly inside the field of view. */
  lemma ColumnAngleInside(fov: real, nrays: nat, x: nat)
    requires fov > 0.0 && 0 <= x < nrays
    ensures -fov / 2.0 < ColumnAngle(fov, nrays, x) < fov / 2.0
  {
    var n := nrays as real;
    var dAng := fov / n;
    assert fov == dAng * n;
    assert dAng > 0.0;
    assert ColumnAngle(fov, nrays, x) == dAng * (x as real + 0.5) - fov / 2.0;
    MulPosLess(dAng, x as real + 0.5, n);
  }

  /** Column angles strictly increase from left to right. */
  lemma ColumnAngleIncreasing(fov: real, nrays: nat, x: int, y: int)
    requires fov > 0.0 && nrays > 0 && x < y
    ensures ColumnAngle(fov, nrays, x) < ColumnAngle(fov, nrays, y)
  {
    var dAng := fov / nrays as real;
    assert dAng > 0.0;
    assert ColumnAngle(fov, nrays, y) - ColumnAngle(fov, nrays, x) == dAng * (y - x) as real;
    MulPosLess(dAng, 0.5, (y - x) as real);
  }

  /** The schedule is symmetric: mirrored columns have opposite angles. */
  lemma ColumnAngleSymmetric(fov: real, nrays: nat, x: int)
    requires nrays > 0
    ensures ColumnAngle(fov, nrays, nrays - 1 - x) == -ColumnAngle(fov, nrays, x)
  {
    var n := nrays as real;
    var dAng := fov / n;
    assert fov == dAng * n;
  }

  /**
   * The ray of column x: from the player's position along the facing vector
   * rotated by the column angle. The rotation (`vec2_rotate`, which needs sine
   * and cosine) is supplied by the caller.
   */
  function ColumnRay(player: Player, nrays: nat, x: int, rotate: (Vec2, real) -> Vec2): Line
    requires nrays > 0
  {
    Line(player.pos, rotate(player.dir, ColumnAngle(player.fov, nrays, x)))
  }

  /** `cast_rays`: one hit slot per column, each the nearest hit of that column's own ray. */
  method CastRays(walls: seq<Wall>, player: Player, nrays: nat, rotate: (Vec2, real) -> Vec2)
    returns (hits: seq<Option<Hit>>)
    ensures |hits| == nrays
    ensures forall x :: 0 <= x < nrays ==> hits[x] == NearestHit(ColumnRay(player, nrays, x, rotate), walls)
  {
    hits := [];
    for x := 0 to nrays
      invariant |hits| == x
      invariant forall k :: 0 <= k < x ==> hits[k] == NearestHit(ColumnRay(player, nrays, k, rotate), walls)
    {
      var ray := ColumnRay(player, nrays, x, rotate);
      var hit := CastOneRay(ray, walls);
      hits := hits + [hit];
    }
  }

  /** A map without walls gives no column a hit. */
  lemma EmptyMapNoHits(ray: Line)
    ensures NearestHit(ray, []) == None
  {
  }

  /**
   * The nearer of two crossed walls is chosen whatever their declaration
   * order; only the reported index follows the order.
   */
  lemma NearerWallWins(ray: Line, w1: Wall, w2: Wall)
    requires Candidate(ray, w1).Some? && Candidate(ray, w2).Some?
    requires Candidate(ray, w1).value.x < Candidate(ray, w2).value.x
    ensures var ts := Candidate(ray, w1).value;
            NearestHit(ray, [w1, w2]) == Some(Hit(ts.x, 0, ts.y)) &&
            NearestHit(ray, [w2, w1]) == Some(Hit(ts.x, 1, ts.y))
  {
    var ts1 := Candidate(ray, w1).value;
    var ts2 := Candidate(ray, w2).value;
    assert [w1, w2][0] == w1 && [w1, w2][1] == w2;
    assert NearestIn(ray, [w1, w2], 1) == Some(Hit(ts1.x, 0, ts1.y));
    assert [w2, w1][0] == w2 && [w2, w1][1] == w1;
    assert NearestIn(ray, [w2, w1], 1) == Some(Hit(ts2.x, 0, ts2.y));
  }

  /**
   * The candidate of a wall that the ray crosses, non-degenerately, at ray
   * parameter t1 and wall parameter t2.
   */
  lemma CandidateAt(ray: Line, w: Wall, t1: real, t2: real)
    requires Cross(ray.dir, w.line.dir) <= -SingularEps || SingularEps <= Cross(ray.dir, w.line.dir)
    requires At(ray, t1) == At(w.line, t2)
    ensures Candidate(ray, w) == if IsValid(Vec2(t1, t2)) then Some(Vec2(t1, t2)) else None
  {
    IntersectUnique(ray, w.line, t1, t2);
  }

  /** The ray from (0.5, 1) along (0, -1), the start ray of the fixed map's player. */
  const DownRay: Line := Line(Vec2(0.5, 1.0), Vec2(0.0, -1.0))

  /** With a single wall, the column's hit is that wall's valid crossing, if any. */
  lemma NearestOfOne(ray: Line, w: Wall)
    ensures NearestHit(ray, [w]) ==
      match Candidate(ray, w)
      case None => None
      case Some(ts) => Some(Hit(ts.x, 0, ts.y))
  {
    assert NearestIn(ray, [w], 0) == None;
  }

  /**
   * One wall from (0, 0) to (1, 0) seen from (0.5, 1) looking along (0, -1):
   * hit at distance 1, halfway along the wall.
   */
  lemma SingleWallScenario()
    ensures NearestHit(DownRay, [MakeWall(0.0, 0.0, 1.0, 0.0, 1.0, 0.0, 0.0)]) == Some(Hit(1.0, 0, 0.5))
  {
    var w := MakeWall(0.0, 0.0, 1.0, 0.0, 1.0, 0.0, 0.0);
    CrossingHorizontal(w, 0.0, 1.0, 0.0);
    NearestOfOne(DownRay, w);
  }

  /** DownRay against each wall of the fixed map. */
  lemma DownRayLoadMapCandidates(ws: seq<Wall>)
    requires ws == LoadMap()
    ensures |ws| == 5
    ensures Candidate(DownRay, ws[0]).None? && Candidate(DownRay, ws[1]).None?
    ensures Candidate(DownRay, ws[2]) == Some(Vec2(0.7, 0.5))
    ensures Candidate(DownRay, ws[3]).None? && Candidate(DownRay, ws[4]).None?
  {
    var ray := DownRay;
    LoadMapLines();
    CrossingHorizontal(ws[0], 0.0, 0.2, 0.5);
    CrossingVertical(ws[1]);
    CrossingHorizontal(ws[2], 0.2, 0.6, 0.3);
    CrossingVertical(ws[3]);
    CrossingHorizontal(ws[4], 0.8, 0.2, 0.5);
  }

  /** DownRay against a horizontal wall from (x0, y) to (x0 + len, y) below the ray's start. */
  lemma CrossingHorizontal(w: Wall, x0: real, len: real, y: real)
    requires w.line == Line(Vec2(x0, y), Vec2(len, 0.0))
    requires len >= SingularEps
    ensures Candidate(DownRay, w) ==
      if 1.0 - y > 0.0 && x0 < 0.5 < x0 + len then Some(Vec2(1.0 - y, (0.5 - x0) / len)) else None
  {
    var t2 := (0.5 - x0) / len;
    assert t2 * len == 0.5 - x0;
    assert At(DownRay, 1.0 - y) == At(w.line, t2);
    CandidateAt(DownRay, w, 1.0 - y, t2);
    assert 0.0 < t2 < 1.0 <==> x0 < 0.5 < x0 + len by {
      if 0.0 < t2 && t2 < 1.0 {
        assert t2 * len < 1.0 * len;
      }
      if x0 < 0.5 < x0 + len {
        assert t2 * len < 1.0 * len;
      }
    }
  }

  /** DownRay is parallel to every vertical wall, so it never hits one. */
  lemma CrossingVertical(w: Wall)
    requires w.line.dir.x == 0.0
    ensures Candidate(DownRay, w).None?
  {
    ParallelNoIntersection(DownRay, w.line, -w.line.dir.y);
  }

  /** Five walls of which only the third is hit: the column's hit is the third wall's crossing. */
  lemma NearestOfFiveOnlyThird(ray: Line, ws: seq<Wall>, ts: Vec2)
    requires |ws| == 5
    requires Candidate(ray, ws[0]).None? && Candidate(ray, ws[1]).None?
    requires Candidate(ray, ws[2]) == Some(ts)
    requires Candidate(ray, ws[3]).None? && Candidate(ray, ws[4]).None?
    ensures NearestHit(ray, ws) == Some(Hit(ts.x, 2, ts.y))
  {
    assert NearestIn(ray, ws, 2) == None;
    assert NearestIn(ray, ws, 3) == Some(Hit(ts.x, 2, ts.y));
    assert NearestIn(ray, ws, 4) == Some(Hit(ts.x, 2, ts.y));
  }

  /**
   * The fixed map seen from the start position (0.5, 1) along (0, -1): the two
   * vertical walls are parallel to the ray, the two outer horizontal walls are
   * missed, and the far wall 2 is hit at distance 0.7, halfway along it.
   */
  lemma LoadMapCenterRay()
    ensures NearestHit(DownRay, LoadMap()) == Some(Hit(0.7, 2, 0.5))
  {
    DownRayLoadMapCandidates(LoadMap());
    NearestOfFiveOnlyThird(DownRay, LoadMap(), Vec2(0.7, 0.5));
  }
}
