/**
 * The per-column arithmetic of `draw_colums` in raycast.c: sky and ground
 * runs, the fish-eye-corrected projected wall height, the vertically centred
 * wall strip and its distance-attenuated flat color. The cosine of the
 * column angle is a parameter.
 */
module Render {
  import opened RealArith
  import opened Wrappers
  import opened Lines
  import opened Scene
  import opened Caster

  /** A run of `rows` pixel rows starting at row `top`. */
  datatype Span = Span(top: int, rows: int)

  /** The wall strip of a column: top row, height (both before pixel rounding) and fill color. */
  datatype Strip = Strip(top: real, height: real, color: Color)

  /** What one column paints: sky, then ground, then possibly a wall strip over both. */
  datatype Column = Column(sky: Span, ground: Span, wall: Option<Strip>)

  /** The attenuation factor: 1 up to distance 1, then 1/t. */
  function Attenuation(t: real): real {
    if t > 1.0 then 1.0 / t else 1.0
  }

  /**
   * The flat color of a wall seen at ray parameter t: unchanged up to distance
   * 1, beyond it every channel divided by t.
   */
  function ShadeColor(c: Color, t: real): (r: Color)
    ensures t <= 1.0 ==> r == c
    ensures t > 1.0 ==> r.r * t == c.r && r.g * t == c.g && r.b * t == c.b
  {
    if t > 1.0 then Intensify(c, 1.0 / t) else c
  }

  /**
   * Near walls keep their color; beyond distance 1 every channel is scaled by
   * the same factor 1/t, so shading is scaling by the attenuation factor.
   */
  lemma ShadeColorSpec(c: Color, t: real)
    ensures t <= 1.0 ==> ShadeColor(c, t) == c
    ensures t > 1.0 ==> ShadeColor(c, t) == Color(c.r * (1.0 / t), c.g * (1.0 / t), c.b * (1.0 / t))
    ensures ShadeColor(c, t) == Intensify(c, Attenuation(t))
  {
  }

  /** The attenuation factor lies in (0, 1] and does not grow with distance. */
  lemma AttenuationBounds(t1: real, t2: real)
    requires t1 <= t2
    ensures 0.0 < Attenuation(t2) <= Attenuation(t1) <= 1.0
  {
    if t2 > 1.0 {
      DivLessOne(t2);
      if t1 > 1.0 {
        DivAntitone(t1, t2);
      }
    }
  }

  /** Shading keeps a unit color a unit color and never brightens a channel. */
  lemma ShadeDarkens(c: Color, t: real)
    requires IsUnitColor(c)
    ensures IsUnitColor(ShadeColor(c, t))
    ensures ShadeColor(c, t).r <= c.r && ShadeColor(c, t).g <= c.g && ShadeColor(c, t).b <= c.b
  {
    AttenuationBounds(t, t);
    ShadeColorSpec(c, t);
    IntensifyDarkens(c, Attenuation(t));
  }

  /** A farther wall is never lighter than a nearer one of the same color. */
  lemma ShadeMonotone(c: Color, t1: real, t2: real)
    requires IsUnitColor(c) && t1 <= t2
    ensures ShadeColor(c, t2).r <= ShadeColor(c, t1).r
    ensures ShadeColor(c, t2).g <= ShadeColor(c, t1).g
    ensures ShadeColor(c, t2).b <= ShadeColor(c, t1).b
  {
    AttenuationBounds(t1, t2);
    ShadeColorSpec(c, t1);
    ShadeColorSpec(c, t2);
    IntensifyMonotone(c, Attenuation(t2), Attenuation(t1));
  }

  /** A smaller factor never gives a lighter channel. */
  lemma IntensifyMonotone(c: Color, f: real, g: real)
    requires IsUnitColor(c) && f <= g
    ensures Intensify(c, f).r <= Intensify(c, g).r
    ensures Intensify(c, f).g <= Intensify(c, g).g
    ensures Intensify(c, f).b <= Intensify(c, g).b
  {
    var p, q := Intensify(c, f), Intensify(c, g);
    ScaleLe(c.r, f, g, p.r, q.r);
    ScaleLe(c.g, f, g, p.g, q.g);
    ScaleLe(c.b, f, g, p.b, q.b);
  }

  /**
   * The fish-eye-corrected projected height of a wall at ray parameter t in a
   * column whose angle has cosine c, on a canvas of height canvasH.
   */
  function ProjectedHeight(canvasH: real, t: real, c: real): (h: real)
    requires t * c != 0.0
    ensures h * (t * c) == canvasH * 0.25
  {
    canvasH * 0.25 / (t * c)
  }

  /** On a non-empty canvas, a wall ahead in a column within 90 degrees of facing has positive height. */
  lemma HeightPositive(canvasH: real, t: real, c: real)
    requires canvasH > 0.0 && t > 0.0 && c > 0.0
    ensures ProjectedHeight(canvasH, t, c) > 0.0
  {
    MulPos(t, c);
  }

  /** The farther the wall, the shorter its strip. */
  lemma HeightDecreasing(canvasH: real, c: real, t1: real, t2: real)
    requires canvasH > 0.0 && c > 0.0 && 0.0 < t1 < t2
    ensures ProjectedHeight(canvasH, t2, c) < ProjectedHeight(canvasH, t1, c)
  {
    MulPos(t1, c);
    var d1, d2 := t1 * c, t2 * c;
    assert d1 < d2 by {
      assert d2 - d1 == (t2 - t1) * c;
      MulPos(t2 - t1, c);
    }
    var k := canvasH * 0.25;
    var h1, h2 := k / d1, k / d2;
    assert h1 * d1 == k && h2 * d2 == k;
  }

  /** The height grows without bound as the wall approaches: every bound is exceeded by some near wall. */
  lemma HeightUnbounded(canvasH: real, c: real, bound: real)
    requires canvasH > 0.0 && c > 0.0
    ensures exists t :: t > 0.0 && t * c != 0.0 && ProjectedHeight(canvasH, t, c) > bound
  {
    var b := if bound > 0.0 then bound + 1.0 else 1.0;
    var k := canvasH * 0.25;
    var t := k / (c * b);
    MulPos(c, b);
    assert t > 0.0;
    MulPos(t, c);
    assert t * c == k / b;
    assert ProjectedHeight(canvasH, t, c) == b;
  }

  /**
   * One column of `draw_colums`: sky over the top half, ground over the bottom
   * half (integer halves of the canvas height), then, for a hit with positive
   * projected height, a wall strip centred vertically in the shaded wall color.
   * `cosAng` is the cosine of the column angle.
   */
  function DrawColumn(canvasH: nat, hit: Option<Hit>, walls: seq<Wall>, cosAng: real): (col: Column)
    requires hit.Some? ==> hit.value.wall < |walls| && hit.value.t * cosAng != 0.0
    ensures col.sky == Span(0, canvasH / 2) && col.ground == Span(canvasH / 2, canvasH / 2)
    ensures col.sky.top == 0 && col.sky.top + col.sky.rows == col.ground.top
    ensures col.ground.top + col.ground.rows <= canvasH <= col.ground.top + col.ground.rows + 1
    ensures col.wall.None? <==> hit.None? || ProjectedHeight(canvasH as real, hit.value.t, cosAng) <= 0.0
    ensures col.wall.Some? ==>
      && col.wall.value.height > 0.0
      && col.wall.value.top + col.wall.value.height / 2.0 == canvasH as real / 2.0
      && col.wall.value.height * (hit.value.t * cosAng) == canvasH as real * 0.25
      && col.wall.value.color == ShadeColor(walls[hit.value.wall].color, hit.value.t)
  {
    var half := canvasH / 2;
    var sky := Span(0, half);
    var ground := Span(half, half);
    match hit
    case None => Column(sky, ground, None)
    case Some(h) =>
      var height := ProjectedHeight(canvasH as real, h.t, cosAng);
      if height <= 0.0 then
        Column(sky, ground, None)
      else
        var color := ShadeColor(walls[h.wall].color, h.t);
        Column(sky, ground, Some(Strip((canvasH as real - height) / 2.0, height, color)))
  }

  /**
   * The defensive skip for a non-positive height never fires for a real hit:
   * on a non-empty canvas every hit the caster reports, in a column whose angle
   * has positive cosine, gets a wall strip.
   */
  lemma HitAlwaysDrawn(canvasH: nat, ray: Line, walls: seq<Wall>, cosAng: real)
    requires canvasH > 0 && cosAng > 0.0
    requires NearestHit(ray, walls).Some?
    ensures NearestHit(ray, walls).value.wall < |walls|
    ensures NearestHit(ray, walls).value.t * cosAng != 0.0
    ensures DrawColumn(canvasH, NearestHit(ray, walls), walls, cosAng).wall.Some?
  {
    NearestInCorrect(ray, walls, |walls|);
    var h := NearestHit(ray, walls).value;
    assert h.t > 0.0;
    MulPos(h.t, cosAng);
    HeightPositive(canvasH as real, h.t, cosAng);
  }

  /** With no walls, every column is exactly sky over ground. */
  lemma EmptyMapSkyAndGround(canvasH: nat, ray: Line, cosAng: real)
    ensures DrawColumn(canvasH, NearestHit(ray, []), [], cosAng).wall.None?
  {
    EmptyMapNoHits(ray);
  }
}
