/**
 * Colors, walls, the map and the player of raycast.c (`struct color_t`,
 * `struct wall_t`, `add_wall`, `load_map`, `struct player_t`).
 */
module Scene {
  import opened RealArith
  import opened LinAlg
  import opened Lines

  /** Channels are nominally in [0, 1]. */
  datatype Color = Color(r: real, g: real, b: real)

  datatype Wall = Wall(line: Line, color: Color)

  /** The player: position, facing vector and field of view in radians. */
  datatype Player = Player(pos: Vec2, dir: Vec2, fov: real)

  predicate InUnitRange(x: real) {
    0.0 <= x <= 1.0
  }

  predicate IsUnitColor(c: Color) {
    InUnitRange(c.r) && InUnitRange(c.g) && InUnitRange(c.b)
  }

  /** `color_intensify_inplace`: scale every channel by the same factor; 1 keeps the color, 0 makes it black. */
  function Intensify(c: Color, mult: real): (r: Color)
    ensures mult == 1.0 ==> r == c
    ensures mult == 0.0 ==> r == Color(0.0, 0.0, 0.0)
  {
    Color(c.r * mult, c.g * mult, c.b * mult)
  }

  /** Factor 1 changes nothing, and the channels keep their proportions whatever the factor. */
  lemma IntensifyPreservesHue(c: Color, mult: real)
    ensures Intensify(c, 1.0) == c
    ensures Intensify(c, mult).r * c.g == Intensify(c, mult).g * c.r
    ensures Intensify(c, mult).g * c.b == Intensify(c, mult).b * c.g
    ensures Intensify(c, mult).r * c.b == Intensify(c, mult).b * c.r
  {
    var d := Intensify(c, mult);
    assert d.r * c.g == mult * (c.r * c.g);
    assert d.g * c.r == mult * (c.r * c.g);
    assert d.g * c.b == mult * (c.g * c.b);
    assert d.b * c.g == mult * (c.g * c.b);
    assert d.r * c.b == mult * (c.r * c.b);
    assert d.b * c.r == mult * (c.r * c.b);
  }

  /** Intensifying twice is intensifying once by the product of the factors. */
  lemma IntensifyCompose(c: Color, m1: real, m2: real)
    ensures Intensify(Intensify(c, m1), m2) == Intensify(c, m1 * m2)
  {
  }

  /** A factor in [0, 1] keeps a unit color a unit color and never brightens a channel. */
  lemma IntensifyDarkens(c: Color, mult: real)
    requires IsUnitColor(c) && InUnitRange(mult)
    ensures IsUnitColor(Intensify(c, mult))
    ensures Intensify(c, mult).r <= c.r && Intensify(c, mult).g <= c.g && Intensify(c, mult).b <= c.b
  {
    var d := Intensify(c, mult);
    ScaleUnit(c.r, mult, d.r);
    ScaleUnit(c.g, mult, d.g);
    ScaleUnit(c.b, mult, d.b);
  }

  /**
   * The wall that `add_wall` stores: the segment from (startx, starty) to
   * (endx, endy) in start + direction form, with the color kept as given.
   */
  function MakeWall(startx: real, starty: real, endx: real, endy: real,
                    r: real, g: real, b: real): (w: Wall)
    ensures w.line.start == Vec2(startx, starty)
    ensures w.line.start.x + w.line.dir.x == endx && w.line.start.y + w.line.dir.y == endy
    ensures w.color == Color(r, g, b)
  {
    Wall(Line(Vec2(startx, starty), Vec2(endx - startx, endy - starty)), Color(r, g, b))
  }

  /** The stored wall runs from its start point (parameter 0) to its end point (parameter 1). */
  lemma MakeWallEndpoints(startx: real, starty: real, endx: real, endy: real,
                          r: real, g: real, b: real)
    ensures At(MakeWall(startx, starty, endx, endy, r, g, b).line, 0.0) == Vec2(startx, starty)
    ensures At(MakeWall(startx, starty, endx, endy, r, g, b).line, 1.0) == Vec2(endx, endy)
  {
  }

  /** `add_wall`: slot i of the wall array receives the new wall, and no other slot changes. */
  function AddWall(walls: seq<Wall>, i: nat, startx: real, starty: real, endx: real, endy: real,
                   r: real, g: real, b: real): (ws: seq<Wall>)
    requires i < |walls|
    ensures |ws| == |walls|
    ensures At(ws[i].line, 0.0) == Vec2(startx, starty)
    ensures At(ws[i].line, 1.0) == Vec2(endx, endy)
    ensures ws[i].color == Color(r, g, b)
    ensures forall j :: 0 <= j < |walls| && j != i ==> ws[j] == walls[j]
  {
    walls[i := MakeWall(startx, starty, endx, endy, r, g, b)]
  }

  /** Every point of a wall's line is the affine combination of its endpoints with weights 1 - t and t. */
  lemma WallSegmentBetweenEndpoints(w: Wall, t: real)
    ensures At(w.line, t) == Add(Scale(1.0 - t, At(w.line, 0.0)), Scale(t, At(w.line, 1.0)))
  {
  }

  /** The fixed five-wall map of `load_map`, wall i being the one `add_wall` stores in slot i. */
  function LoadMap(): (walls: seq<Wall>)
    ensures |walls| == 5
  {
    [ MakeWall(0.0, 0.5, 0.2, 0.5, 1.0, 0.0, 0.0),
      MakeWall(0.2, 0.5, 0.2, 0.3, 0.0, 1.0, 0.0),
      MakeWall(0.2, 0.3, 0.8, 0.3, 0.0, 0.0, 1.0),
      MakeWall(0.8, 0.3, 0.8, 0.5, 0.0, 1.0, 1.0),
      MakeWall(0.8, 0.5, 1.0, 0.5, 1.0, 1.0, 0.0) ]
  }

  /** The segments of the fixed map in start + direction form. */
  lemma LoadMapLines()
    ensures |LoadMap()| == 5
    ensures LoadMap()[0].line == Line(Vec2(0.0, 0.5), Vec2(0.2, 0.0))
    ensures LoadMap()[1].line == Line(Vec2(0.2, 0.5), Vec2(0.0, -0.2))
    ensures LoadMap()[2].line == Line(Vec2(0.2, 0.3), Vec2(0.6, 0.0))
    ensures LoadMap()[3].line == Line(Vec2(0.8, 0.3), Vec2(0.0, 0.2))
    ensures LoadMap()[4].line == Line(Vec2(0.8, 0.5), Vec2(0.2, 0.0))
  {
  }
}
