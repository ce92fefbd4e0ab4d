# Raycaster geometry in Dafny

A model of the geometric core of `raycast.c`, a single-file Wolfenstein-style
raycaster: a top-down map of line-segment walls is projected onto one
height/color strip per screen column. The model covers the 2x2 linear algebra
(`mat2_determinant`, `mat2_invert`, `mat2_left_mult_vec`), the parametric line
intersection `line_intersect`, wall construction (`add_wall`, `load_map`), the
per-column nearest-hit scan `cast_one_ray` with the angle schedule of
`cast_rays`, and the shading and projected-height arithmetic of `draw_colums`
(with `color_intensify_inplace`).

Every `float` is a Dafny `real`, so the algebra is exact: "inverse times matrix
is the identity" and "the two lines meet at the returned parameters" are proved
outright rather than up to rounding.

Modules, one per part of the program:

- `Wrappers` (wrappers.dfy): `Option`, standing for a pointer that may be NULL.
- `RealArith` (arith.dfy): small facts about products and quotients of reals.
- `LinAlg` (linalg.dfy): `Vec2` and `Mat2`, the determinant, the inverse with its
  `1e-10` singularity threshold, and the matrix-vector product.
- `Lines` (lines.dfy): `Line` as start + t * dir. It holds the intersection
  solver in three versions: as written, as evidently intended with the
  `(-1, -1)` sentinel, and as an `Option`.
- `Scene` (scene.dfy): `Color`, `Wall`, `Player`, `add_wall`, the fixed map and
  `color_intensify_inplace`.
- `Caster` (caster.dfy): `Hit` (ray parameter, wall index, wall parameter),
  `cast_one_ray` as a loop, a recursive reference definition of the nearest hit,
  and `cast_rays` with its column angles.
- `Render` (render.dfy): distance attenuation, projected height and one column of
  `draw_colums`.

A hit refers to its wall by index into the map's wall sequence. In the C code
it is a pointer into the same array. `vec2_rotate` is a caller-supplied
function `rotate`, because Dafny cannot compute sine and cosine. The cosine of
the column angle in `draw_colums` is likewise a parameter `cosAng`.

Two details of `raycast.c` shape the model:

- The `(-1, -1)` sentinel at raycast.c:95 is never returned, because the guard
  at raycast.c:93 tests the wrong pointer. `Lines.IntersectAsWritten` models
  that code as written. `Caster.CastOneRay` uses the corrected intersection
  `Lines.IntersectOrSentinel` (see Findings).
- The validity test at raycast.c:280-283 is strict: a hit needs `t > 0` and
  `0 < wall_ts < 1`, so a ray through a wall's endpoint does not hit it.

## Model

| member | source | states |
|---|---|---|
| LinAlg.AdjugateProduct | raycast.c:52-54 | m times its adjugate (d, -b, -c, a), on either side, is the determinant times the identity, so the determinant is 0 exactly when that product vanishes |
| LinAlg.LeftMultVec | raycast.c:65-68 | The identity matrix leaves the vector unchanged |
| LinAlg.Invert | raycast.c:56-63 | No inverse exactly when -1e-10 < det < 1e-10; otherwise the result is a two-sided inverse (inverse * m == m * inverse == identity) |
| LinAlg.ClosedFormInverse | raycast.c:61-62 | The closed-form matrix (d, -b, -c, a) / det multiplies with m on either side to the identity |
| LinAlg.InverseSolves | raycast.c:56-68 | For an invertible m, m * u == v holds exactly when u is the inverse applied to v |
| LinAlg.LeftMultVecMul | raycast.c:65-68 | Multiplying by a product of matrices is multiplying by each factor in turn |
| LinAlg.LeftMultVecIdentity | raycast.c:65-68 | The identity matrix leaves every vector unchanged |
| LinAlg.DeterminantMul | raycast.c:52-54 | The determinant of a product is the product of the determinants |
| LinAlg.InverseDeterminant | raycast.c:56-63 | The inverse's determinant times the matrix's determinant is 1 |
| Lines.Intersect | raycast.c:88-108 | None exactly when the directions' cross product is within 1e-10 of zero; otherwise (t1, t2) with l1.start + t1 * l1.dir == l2.start + t2 * l2.dir |
| Lines.SystemMeaning | raycast.c:89-99 | The 2x2 system [l1.dir, -l2.dir] * (t1, t2) == l2.start - l1.start holds exactly when the lines meet at (t1, t2) |
| Lines.SolutionMeets | raycast.c:98-101 | The inverse applied to l2.start - l1.start gives parameters at which the two lines meet |
| Lines.IntersectUnique | raycast.c:88-108 | Any (t1, t2) at which the lines meet equals the returned solution: the solution is the only meeting point |
| Lines.ParallelNoIntersection | raycast.c:56-59 | Lines with parallel directions never yield an intersection |
| Lines.IntersectAsWritten | raycast.c:88-108 | As written, the sentinel is never returned, and a singular system always reaches the product with a NULL inverse |
| Lines.ParallelRayDereferencesNull | raycast.c:92-101 | Concrete input: the start ray against wall 1 of the fixed map makes the code as written dereference NULL |
| Lines.IntersectOrSentinel | raycast.c:92-96 | The intended code returns (-1, -1) for a singular system and the meeting parameters otherwise |
| Scene.Intensify | raycast.c:122-126 | Factor 1 keeps the color and factor 0 makes it black |
| Scene.IntensifyPreservesHue | raycast.c:122-126 | Factor 1 changes nothing; r, g and b are scaled alike, so all three ratios r:g, g:b and r:b are kept |
| Scene.IntensifyCompose | raycast.c:122-126 | Intensifying by m1 and then by m2 is intensifying by m1 * m2 |
| Scene.IntensifyDarkens | raycast.c:122-126 | A factor in [0, 1] keeps a unit color a unit color and never brightens a channel |
| Scene.MakeWall | raycast.c:142-152 | The stored line starts at the start point, start + dir is the end point, and the color is stored unchanged |
| Scene.MakeWallEndpoints | raycast.c:145-149 | The stored line is at the start point for parameter 0 and at the end point for parameter 1 |
| Scene.AddWall | raycast.c:142-152 | Slot i receives the wall from start to end with the given color; no other slot changes and the length is kept |
| Scene.WallSegmentBetweenEndpoints | raycast.c:145-149 | For every parameter t, the wall's point at t is the affine combination (1 - t) * start + t * end of its endpoints |
| Scene.LoadMap | raycast.c:159-173 | The fixed map holds five walls |
| Scene.LoadMapLines | raycast.c:159-173 | The fixed map has five walls, whose start and direction follow from the endpoints given to add_wall |
| Caster.SentinelFiltered | raycast.c:277-282 | The validity test accepts the sentinel-or-solution exactly when the wall is a valid candidate; a singular system is never a candidate |
| Caster.CandidateOnBoth | raycast.c:277-282 | A valid candidate is a point on both ray and wall, with t_ray > 0 and 0 < t_wall < 1 |
| Caster.NearestInCorrect | raycast.c:270-295 | The scan finds no hit exactly when no wall is a valid candidate. Otherwise its hit is a valid candidate, no candidate is nearer, and every earlier candidate is strictly farther |
| Caster.NearestUnique | raycast.c:279-286 | At most one hit satisfies the nearest-with-first-seen-tie-break property |
| Caster.CastOneRay | raycast.c:268-296 | No hit iff no wall is a valid candidate. Otherwise the hit is the lowest-indexed nearest valid crossing, with t > 0 and 0 < wall_ts < 1 |
| Caster.ColumnAngle | raycast.c:300-305 | Column x's angle, measured from the left edge -fov/2 of the view, is x + 1/2 slices of width fov / nrays: the centre of the x-th slice |
| Caster.ColumnAngleInside | raycast.c:300-305 | For fov > 0 and 0 <= x < nrays, the column angle lies strictly inside (-fov/2, fov/2) |
| Caster.ColumnAngleIncreasing | raycast.c:300-305 | Column angles strictly increase with the column index |
| Caster.ColumnAngleSymmetric | raycast.c:300-305 | Mirrored columns x and nrays-1-x have opposite angles |
| Caster.CastRays | raycast.c:298-317 | Exactly nrays slots; slot x is the nearest hit of the ray from the player's position along the facing vector rotated by column x's angle |
| Caster.EmptyMapNoHits | raycast.c:270-295 | With no walls the column gets no hit |
| Caster.NearerWallWins | raycast.c:279-286 | Of two crossed walls, the nearer is chosen whichever is declared first |
| Caster.CandidateAt | raycast.c:277-282 | For a non-singular system meeting at (t1, t2), the wall is a candidate exactly when (t1, t2) passes the validity test |
| Caster.CrossingHorizontal | raycast.c:277-282 | The start ray hits a horizontal wall below it exactly when the wall spans x = 0.5, at wall parameter (0.5 - x0) / len |
| Caster.CrossingVertical | raycast.c:277-282 | The start ray never hits a vertical wall |
| Caster.NearestOfOne | raycast.c:270-295 | With one wall the hit is that wall's valid crossing, if any |
| Caster.NearestOfFiveOnlyThird | raycast.c:270-295 | With five walls of which only the third is a candidate, the hit is the third wall's crossing |
| Caster.SingleWallScenario | raycast.c:270-295 | A wall from (0,0) to (1,0), seen from (0.5,1) facing (0,-1), is hit at t = 1, halfway along |
| Caster.DownRayLoadMapCandidates | raycast.c:166-170 | From the start position facing (0,-1): walls 1 and 3 are parallel, walls 0 and 4 are missed, wall 2 is crossed at (0.7, 0.5) |
| Caster.LoadMapCenterRay | raycast.c:181-188 | From the player's start position and facing, the fixed map's hit is wall 2 at t = 0.7, halfway along |
| Render.ShadeColor | raycast.c:257-261 | For t <= 1 the wall color is unchanged; for t > 1 each shaded channel times t is the original channel |
| Render.AttenuationBounds | raycast.c:259-261 | The attenuation factor lies in (0, 1] and never grows with distance |
| Render.ShadeDarkens | raycast.c:257-261 | Shading keeps a unit color a unit color and never brightens a channel |
| Render.ShadeMonotone | raycast.c:257-261 | A farther wall of the same color is never lighter in any channel |
| Render.ProjectedHeight | raycast.c:246 | Projected height times t * cos(ang) is a quarter of the canvas height |
| Render.HeightPositive | raycast.c:246-248 | For canvas height > 0, t > 0 and cos(ang) > 0 the projected height is positive |
| Render.HeightDecreasing | raycast.c:246 | The projected height strictly decreases as t grows |
| Render.HeightUnbounded | raycast.c:246 | Every bound is exceeded by the height of some nearer wall: height grows without bound as t approaches 0 |
| Render.DrawColumn | raycast.c:223-264 | Sky covers rows [0, H/2) and ground the next H/2 rows (integer halving), together covering the column except at most one row. There is a wall strip exactly when there is a hit of positive height; it is centred on the middle row, has height * t * cos == H/4, and is filled with the shaded wall color |
| Render.HitAlwaysDrawn | raycast.c:243-248 | Every hit the caster reports is drawn when the canvas is non-empty and cos(ang) > 0, so the h <= 0 skip never fires for it |
| Render.EmptyMapSkyAndGround | raycast.c:223-244 | With no walls every column is sky over ground, without a wall strip |

## Left out

- `vec2_rotate` (raycast.c:28-35) needs sine and cosine. `CastRays` takes the rotation as a function parameter, and rotation's norm preservation is not stated.
- The `cos(ang)` of `draw_colums` (raycast.c:246) is the parameter `cosAng` of `DrawColumn`.
- The loop of `draw_colums` is not modelled. It recomputes the column angle as `d_ang * (x - w/2)` (raycast.c:221), the left edge of the slice with integer halving, whereas `cast_rays` uses the slice centre (raycast.c:305). It also runs to `SCREEN_WIDTH` rather than `canvas->w` (raycast.c:220). Both are discrepancies in the source, recorded here only.
- The SDL calls are not modelled: `SDL_FillRect`, `SDL_MapRGB`, the color macros, the surface, `SDL_Flip` and `main` are foreign library calls and I/O. The integer rounding of the wall strip into an `SDL_Rect` is also left out, so the strip's top and height stay real.
- `sdl_value_from_color` (raycast.c:128-133) is left out. Its `round(x * 255)` into a `char` is a float-to-character conversion whose overflow at 255 is implementation-defined.
- IEEE float rounding is not modelled, including the rounding of the `1e-10f` constant; every quantity is an exact real.
- `malloc`/`free` ownership, the leaked hit allocations and allocation failure are not modelled. `IntersectAsWritten` takes the freshly allocated system matrix to be non-NULL.
- `player_create` (raycast.c:181-188) is used only for its position (0.5, 1) and facing (0, -1). Its field of view M_PI/2 is irrational and is not a constant of the model.
- Render.DrawColumn: requires `t * cos(ang) != 0`, because the C code divides by it and, in floating point, gets an infinite height that is then drawn. The model has no infinity.
- Caster.CastRays: takes `nrays` as a natural number. In the C code a negative `int` is converted to `size_t` in the `malloc` size computation (raycast.c:301-302), so `malloc` receives a huge wrapped unsigned size rather than a negative one.

## Findings

| source | as written | input that shows it | evidently intended | confidence | as-written member | corrected member |
|---|---|---|---|---|---|---|
| raycast.c:93 | `if (A == NULL)` tests the just-allocated system matrix, so the `(-1, -1)` sentinel at raycast.c:95 is unreachable. A singular system then calls `mat2_left_mult_vec(NULL, b)` at raycast.c:101 | ray from (0.5, 1) along (0, -1) against wall 1 of the fixed map (start (0.2, 0.5), direction (0, -0.2)): parallel, determinant 0 (`Lines.ParallelRayDereferencesNull`) | `if (inv == NULL)`, returning the sentinel, which `cast_one_ray`'s validity test then rejects | high that the guard is wrong; in exact arithmetic no ray of the default 256-column view is parallel to a wall of the fixed map; not executed | Lines.IntersectAsWritten | Lines.Intersect |

`Lines.Intersect` reports a singular system as `None`. `Lines.IntersectOrSentinel`
is the intended sentinel version, and `Caster.CastOneRay` scans with it.
`Caster.SentinelFiltered` proves that the sentinel never passes the validity
test, so a singular ray/wall pair never becomes a hit.
