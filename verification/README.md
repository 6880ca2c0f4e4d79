# RadioSimulator ray engine, line geometry and scene saving in Dafny

This project models three parts of RadioSimulator, a 2-D radio-propagation
sandbox, and proves properties of them.

- **Free ray propagation** (`RadioSimulator/ray.py`, module `Rays`, file `ray.dfy`).
  - A `Ray` is a class whose fields are `transmitter`, `vec`, `ap` and `reflectionsList`.
  - `Propagate` runs the program's `while ap > 0` loop:
    - Each pass (`Advance`) intersects the probe line with every wall.
    - It skips walls whose direction equals `vec` exactly.
    - It keeps hits that lie on the wall and ahead of the ray.
    - It takes the first such hit, appends it, spends one unit of budget and reflects the direction.
  - With no wall ahead, the ray ends on the first of the four scene edges (500 by 300) that lies ahead.
  - It then restores `ap` and `vec`.
  - `Propagate` is proved against the ghost function `Walk`, which gives the entries appended and how the run ends. Lemmas about `Walk` state:
    - the bound on entries;
    - where the wall-less boundary entry sits;
    - which wall is chosen.
- **Line geometry** (`RadioSimulator/geometrics.py`, module `Geometrics`):
  - slope-intercept coefficients;
  - Cramer's-rule intersection;
  - point-to-line and point-to-point distance.
- **Scene saving** (`RadioSimulator/files.py`, module `Files`): `SaveScene` builds one record per wall and a material table keyed by name.
- **Scene records** (`RadioSimulator/props.py`, module `Props`): the datatypes the other modules share.

Where the behaviour of the code differs from what its comments or its
documentation suggest, the model follows the code.

- **The bounce is the first hit in wall order, not the nearest.** The candidates are sorted by distance, but the sorted copy is discarded (ray.py:55). `FirstWallHit` and `FirstBounce` prove this.
- **Appended entries are bounded by `ap`.** An edge entry is only appended when budget is left, so a walk appends at most `ap` entries, not `ap + 1` (`WalkShape`).
- **`reflections_list` is never cleared.** New entries are appended after whatever it already held.
- **A missing edge leaves `ap` and `vec` unrestored.** If no edge lies ahead, the program indexes an empty list and fails (ray.py:81). The model returns the outcome `BoundaryMissing(ap, vec)` at that point, and `ap` and `vec` keep the values they had when it failed.
- **A stored material is always truthy.** A `Material` is a non-empty named tuple, so the test `not materials_list.get(name)` is true exactly when `name` is not yet a key.

The helpers `intersection2`, `reflection_vec`, `vec_normalize` and
`point_on_line`, imported by `ray.py`, are defined in no visible file. They are
the four fields of a `Kernel` value that the caller passes in, and nothing is
assumed about them. `math.sqrt` is a parameter `sqrt` that must satisfy `IsSqrt`.

## Model

| member | source | states |
|---|---|---|
| Geometrics.Abc | RadioSimulator/geometrics.py:4-22 | requires the two x coordinates to differ; b is -1.0, a is the slope, and both defining points satisfy a*x + b*y + c == 0 |
| Geometrics.Intersection | RadioSimulator/geometrics.py:25-43 | for two non-vertical lines with non-zero denominators, the slopes differ and the returned x solves a1*x + c1 == a2*x + c2 |
| Geometrics.IntersectionOffFirstLine | RadioSimulator/geometrics.py:41 | for the lines (0,0)-(1,1) and (0,1)-(1,0), the program's y denominator is 1 instead of -2, and the returned point (0.5, -1.0) is not on the first line |
| Geometrics.IntersectionCorrected | RadioSimulator/geometrics.py:37-43 | with the y denominator a1*b2 - a2*b1, the returned point lies on both lines |
| Geometrics.CramerSolvesBoth | RadioSimulator/geometrics.py:40-41 | with b1 == b2 == -1, Cramer's rule over the common denominator solves both line equations |
| Geometrics.PointLineDistance | RadioSimulator/geometrics.py:46-63 | non-negative; equals the x offset for a vertical line; zero exactly on points collinear with the line; for other lines, its square times (a²+b²) is the squared residual of the general form |
| Geometrics.VerticalCollinear | RadioSimulator/geometrics.py:58-59 | on a vertical line with distinct points, collinearity is equality of x |
| Geometrics.ResidualCollinear | RadioSimulator/geometrics.py:61-63 | for a non-vertical line, the general-form residual is zero exactly on collinear points |
| Geometrics.PointLineDistanceAtEndpoints | RadioSimulator/geometrics.py:58-63 | both defining points are at distance zero, in both branches |
| Geometrics.PointPointDistance | RadioSimulator/geometrics.py:66-78 | non-negative; its square is dx² + dy²; zero exactly for identical points |
| Geometrics.PointPointDistanceSymmetric | RadioSimulator/geometrics.py:78 | the distance does not depend on the order of the points |
| Rays.CheckOnWallPointsOnly | RadioSimulator/ray.py:92-105 | the wall test is point_on_line on the wall's endpoints, so two walls with the same endpoints give the same answer whatever their material, width or normal |
| Rays.CheckDirection | RadioSimulator/ray.py:108-127 | a point that passes has moved from the last point unless the direction is zero; with a zero direction, only the last point itself passes |
| Rays.AheadPasses | RadioSimulator/ray.py:108-127 | every point p + t·vec with t > 0 passes the direction check |
| Rays.BehindFails | RadioSimulator/ray.py:108-127 | every point p + t·vec with t < 0 fails the direction check when vec is non-zero |
| Rays.StartPoint | RadioSimulator/ray.py:122-127 | the starting point fails the direction check when vec is non-zero; with a zero vec, only the starting point passes |
| Rays.WallHits | RadioSimulator/ray.py:36-45 | at most one candidate per wall, and every candidate carries a wall |
| Rays.EdgeHits | RadioSimulator/ray.py:69-78 | at most one candidate per edge, and every candidate carries no wall |
| Rays.Forward | RadioSimulator/ray.py:48 | keeps no more than it is given, and only candidates it is given |
| Rays.WallHitsMembers | RadioSimulator/ray.py:36-45 | the wall candidates are exactly the bounces off the walls that are not parallel and are met on the wall |
| Rays.ForwardMembers | RadioSimulator/ray.py:48 | a candidate is kept exactly when it is given and passes the direction check |
| Rays.ForwardFirst | RadioSimulator/ray.py:48-56 | the first kept candidate is the first in candidate order that passes the direction check |
| Rays.ForwardNone | RadioSimulator/ray.py:48-50 | nothing is kept exactly when no candidate passes the direction check |
| Rays.ForwardAppend | RadioSimulator/ray.py:48 | the direction filter distributes over concatenation |
| Rays.NoWallHit | RadioSimulator/ray.py:36-50 | a step has no wall candidate exactly when no wall survives all three tests |
| Rays.FirstWallHit | RadioSimulator/ray.py:36-56 | the chosen wall candidate is the bounce off the first surviving wall in wall order, not the nearest one |
| Rays.FirstBounce | RadioSimulator/ray.py:34-60 | a walk with budget starts with the bounce off the first surviving wall |
| Rays.EdgeEnd | RadioSimulator/ray.py:63-82 | with budget and no surviving wall, the walk ends at once: at the first edge candidate ahead, or in failure with ap and vec as they are; it fails exactly when no scene edge survives all three tests |
| Rays.EdgeHitsMembers | RadioSimulator/ray.py:69-78 | the edge candidates are exactly the wall-less entries at the edges that are not parallel and that point_on_line accepts |
| Rays.NoEdgeHit | RadioSimulator/ray.py:69-81 | the last step has no edge candidate, the case where the program indexes an empty list, exactly when no edge survives all three tests |
| Rays.FirstEdgeHit | RadioSimulator/ray.py:69-81 | the entry the ray ends on is the first surviving edge in edge order |
| Rays.Walk | RadioSimulator/ray.py:34-82 | the specification of the loop: at most ap entries, and exactly ap when the budget runs out |
| Rays.WalkShape | RadioSimulator/ray.py:18-82 | at most ap entries; none when ap <= 0; exactly ap wall entries when the budget runs out; only the last entry may have no wall, and it has none exactly when the ray reached an edge; a failure keeps 0 < ap <= the initial ap |
| Rays.CollectWallHits | RadioSimulator/ray.py:35-45 | the loop over the walls builds exactly WallHits, in wall order |
| Rays.CollectEdgeHits | RadioSimulator/ray.py:69-78 | the loop over the edges builds exactly EdgeHits, in edge order |
| Rays.NextWallHit | RadioSimulator/ray.py:35-56 | the chosen wall candidate is the first forward wall candidate of WallHits |
| Rays.NextEdgeHit | RadioSimulator/ray.py:64-81 | the chosen edge candidate is the first forward edge candidate of EdgeHits |
| Rays.Ray.constructor | RadioSimulator/ray.py:11-18 | the ray keeps its transmitter and budget, takes the normalised direction and has no entries |
| Rays.Ray.Advance | RadioSimulator/ray.py:35-82 | one pass: when a wall candidate is ahead, it spends one unit of ap, appends the first one, moves to its point and sets vec to reflection_vec off that wall's normal, and the walk from the new state is the rest of the old one; otherwise it appends the first edge candidate ahead and reports reaching the edge, or appends nothing and reports the failure, leaving ap and vec alone |
| Rays.Ray.Propagate | RadioSimulator/ray.py:20-86 | terminates; appends exactly Walk's entries after the old list; keeps the transmitter; restores ap and vec unless no edge was found, where it stops with them as they were at the failure |
| Files.SaveScene | RadioSimulator/files.py:4-21 | one record per wall, in order; the table's keys are exactly the material names in use; each name maps to the material of the first wall that uses it; no walls give an empty table and no records |
| Files.FirstMaterialWins | RadioSimulator/files.py:13-14 | a later wall with a material of the same name never replaces the first material |
| Files.RecordsNameSavedMaterials | RadioSimulator/files.py:7-21 | every record names a material that is in the table |
| Files.SavedMaterialsAreFirstUses | RadioSimulator/files.py:13-14 | every table entry is the material of the first wall that uses its name, and is filed under its own name |

## Left out

- The user interface, event handling, drawing and the demo windows are not part of this model. Neither are the global scene lists, apart from the scene size.
- The JSON output of `save_scene` is not part of this model. The saved scene is the value it prints: the material table and the wall records.
- Floating-point rounding is not modelled: every coordinate is a real number. Exact comparisons, such as the parallel-wall test, are taken exactly as the program writes them.
- The bodies of `intersection2`, `reflection_vec`, `vec_normalize` and `point_on_line` are not part of this model. They are the fields of `Kernel`, and `intersection2` is taken to always return a point.
- `Transmitter` is not part of this model. It is reduced to the point the ray starts from.
- A wall's `normal` is a field of `Wall`, because no visible code computes it.
- A wall's `line_id` is not modelled, because it only refers to the drawing.
- `math.sqrt` is the parameter `sqrt`, which is required to be an exact non-negative square root.
- Geometrics.Abc: requires x1 != x2 where the program raises a division-by-zero error. The error path is not modelled.
- Geometrics.Intersection: requires both lines to be non-vertical and both denominators to be non-zero, where the program raises a division-by-zero error. Nothing is promised about y, because its denominator is wrong (see Findings).
- Geometrics.PointLineDistance: when both points of the line coincide, the line counts as vertical. The result is then still non-negative and equal to the x offset. Only the equivalence between zero distance and collinearity is not stated for that case.
- Rays.Ray.Propagate: the failure at an empty edge list is the outcome `BoundaryMissing`, not an exception that propagates to the caller.

## Findings

| source | as written | input that shows it | evidently intended | confidence | as-written member | corrected member |
|---|---|---|---|---|---|---|
| RadioSimulator/geometrics.py:41 | y divides by a1*b2 - a2 - b1 | the lines (0,0)-(1,1) and (0,1)-(1,0) cross at (0.5, 0.5), but y comes out as -1.0 | y divides by a1*b2 - a2*b1, as x does, so the point lies on both lines | high (not executed) | Geometrics.IntersectionOffFirstLine | Geometrics.IntersectionCorrected |
