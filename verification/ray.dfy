/**
 * Free ray propagation (RadioSimulator/ray.py). A Ray bounces off the first
 * wall, in list order, that its current probe line meets ahead of it, until its
 * bounce budget `ap` runs out or no wall is met; then it ends on one of the
 * four edges of the scene.
 *
 * The geometry helpers the program imports for this (intersection2,
 * reflection_vec, vec_normalize and point_on_line) are not part of this
 * model: they are the fields of a Kernel, which the caller supplies, and
 * nothing is assumed about them.
 */
module Rays {
  import opened Wrappers
  import opened Props
  import opened Globals

  /** The helpers the ray engine calls but that are defined outside this model. */
  datatype Kernel = Kernel(
    intersection2: (Line, Line) -> Point,
    reflectionVec: (Vec, Vec) -> Vec,
    vecNormalize: Vec -> Vec,
    pointOnLine: (Line, Point) -> bool)

  /** The four edges of the scene, in the order the ray engine tries them. */
  const Boundaries: seq<Line> := [
    (0.0, 0.0, SceneSize.0, 0.0),
    (0.0, 0.0, 0.0, SceneSize.1),
    (SceneSize.0, 0.0, SceneSize.0, SceneSize.1),
    (0.0, SceneSize.1, SceneSize.0, SceneSize.1)]

  /**
   * `newPoint` lies in the direction of `vec` from `lastPoint`: per axis, the
   * coordinate moves the way the vector's component points, or stays put
   * when that component is zero.
   */
  predicate CheckDirection(vec: Vec, lastPoint: Point, newPoint: Point): (ahead: bool)
    ensures ahead ==> (newPoint == lastPoint <==> vec == (0.0, 0.0))
    ensures vec == (0.0, 0.0) ==> (ahead <==> newPoint == lastPoint)
  {
    ((vec.0 > 0.0 && newPoint.0 > lastPoint.0) ||
     (vec.0 < 0.0 && newPoint.0 < lastPoint.0) ||
     (vec.0 == 0.0 && newPoint.0 == lastPoint.0)) &&
    ((vec.1 > 0.0 && newPoint.1 > lastPoint.1) ||
     (vec.1 < 0.0 && newPoint.1 < lastPoint.1) ||
     (vec.1 == 0.0 && newPoint.1 == lastPoint.1))
  }

  /** A point is on a wall when point_on_line accepts it for the wall's two endpoints. */
  predicate CheckOnWall(k: Kernel, wall: Wall, point: Point) {
    k.pointOnLine(wall.points, point)
  }

  /** The wall test looks at the wall's endpoints only: material, width and normal play no part. */
  lemma CheckOnWallPointsOnly(k: Kernel, w1: Wall, w2: Wall, point: Point)
    requires w1.points == w2.points
    ensures CheckOnWall(k, w1, point) == CheckOnWall(k, w2, point)
    ensures CheckOnWall(k, w1, point) == k.pointOnLine(w1.points, point)
  {
  }

  /** A segment counts as parallel to the ray only when its (first - second) endpoint difference equals the direction exactly. */
  predicate ParallelTo(segment: Line, vec: Vec) {
    segment.0 - segment.2 == vec.0 && segment.1 - segment.3 == vec.1
  }

  /** The probe line from `point1` through `point1 + vec`. */
  function ProbeLine(point1: Point, vec: Vec): Line {
    (point1.0, point1.1, point1.0 + vec.0, point1.1 + vec.1)
  }

  /** Where the probe line from `point1` along `vec` meets the line of `segment`. */
  function HitPoint(k: Kernel, point1: Point, vec: Vec, segment: Line): Point {
    k.intersection2(ProbeLine(point1, vec), segment)
  }

  /** The probe line from `point1` along `vec` is not parallel to `wall` and meets it on the wall. */
  predicate Struck(k: Kernel, wall: Wall, point1: Point, vec: Vec) {
    !ParallelTo(wall.points, vec) && CheckOnWall(k, wall, HitPoint(k, point1, vec, wall.points))
  }

  /**
   * The wall candidates of one step, in wall order: every wall that is not
   * parallel to the ray and whose intersection with the probe line is on it.
   */
  function WallHits(k: Kernel, walls: seq<Wall>, point1: Point, vec: Vec): (hits: seq<Bounce>)
    ensures |hits| <= |walls|
    ensures forall b :: b in hits ==> b.wall.Some?
    decreases |walls|
  {
    if walls == [] then []
    else
      var wall := walls[|walls| - 1];
      var earlier := WallHits(k, walls[..|walls| - 1], point1, vec);
      var x := HitPoint(k, point1, vec, wall.points);
      if Struck(k, wall, point1, vec) then earlier + [Bounce(x, Some(wall))]
      else earlier
  }

  /** The boundary candidates of one step, in edge order, each marked with no wall. */
  function EdgeHits(k: Kernel, edges: seq<Line>, point1: Point, vec: Vec): (hits: seq<Bounce>)
    ensures |hits| <= |edges|
    ensures forall b :: b in hits ==> b.wall.None?
    decreases |edges|
  {
    if edges == [] then []
    else
      var edge := edges[|edges| - 1];
      var earlier := EdgeHits(k, edges[..|edges| - 1], point1, vec);
      var x := HitPoint(k, point1, vec, edge);
      if !ParallelTo(edge, vec) && k.pointOnLine(edge, x) then earlier + [Bounce(x, None)]
      else earlier
  }

  /** The candidates that lie in the direction of `vec` from `point1`, in their original order. */
  function Forward(vec: Vec, point1: Point, candidates: seq<Bounce>): (kept: seq<Bounce>)
    ensures |kept| <= |candidates|
    ensures forall b :: b in kept ==> b in candidates
  {
    if candidates == [] then []
    else
      (if CheckDirection(vec, point1, candidates[0].point) then [candidates[0]] else []) +
      Forward(vec, point1, candidates[1..])
  }

  /**
   * How a propagation ends: the budget ran out, the ray reached a scene edge,
   * or no edge was found ahead of it (the program then fails with an index
   * error, leaving `ap` and `vec` as they were at that moment).
   */
  datatype Outcome = BudgetExhausted | ReachedBoundary | BoundaryMissing(ap: int, vec: Vec)

  /** The entries a propagation appends, and how it ends. */
  datatype Run = Run(entries: seq<Bounce>, outcome: Outcome)

  /**
   * The propagation from `point1` along `vec` with budget `ap`, step by
   * step: the first forward wall candidate is a bounce that costs one unit
   * of budget and turns the direction by reflection_vec off that wall's
   * normal; with no wall candidate, the first forward edge candidate ends
   * the ray whatever budget is left.
   */
  ghost function Walk(k: Kernel, walls: seq<Wall>, point1: Point, vec: Vec, ap: int): (r: Run)
    ensures |r.entries| <= (if ap > 0 then ap else 0)
    ensures r.outcome == BudgetExhausted ==> |r.entries| == (if ap > 0 then ap else 0)
    decreases if ap < 0 then 0 else ap
  {
    if ap <= 0 then Run([], BudgetExhausted)
    else
      match First(Forward(vec, point1, WallHits(k, walls, point1, vec)))
      case Some(hit) =>
        var rest := Walk(k, walls, hit.point, Reflected(k, vec, hit), ap - 1);
        Run([hit] + rest.entries, rest.outcome)
      case None =>
        match First(Forward(vec, point1, EdgeHits(k, Boundaries, point1, vec)))
        case Some(edge) => Run([edge], ReachedBoundary)
        case None => Run([], BoundaryMissing(ap, vec))
  }

  /** The first candidate, if there is one. */
  function First(candidates: seq<Bounce>): (first: Option<Bounce>)
    ensures first.None? <==> candidates == []
    ensures first.Some? ==> first.value == candidates[0]
  {
    if candidates == [] then None else Some(candidates[0])
  }

  /** The direction after bouncing off `hit`: reflection_vec of the direction and the wall's normal (no turn at an edge). */
  function Reflected(k: Kernel, vec: Vec, hit: Bounce): Vec {
    if hit.wall.Some? then k.reflectionVec(vec, hit.wall.value.normal) else vec
  }

  lemma WallHitsNext(k: Kernel, walls: seq<Wall>, i: nat, point1: Point, vec: Vec)
    requires i < |walls|
    ensures var x := HitPoint(k, point1, vec, walls[i].points);
            WallHits(k, walls[..i + 1], point1, vec) ==
              WallHits(k, walls[..i], point1, vec) +
              (if Struck(k, walls[i], point1, vec) then [Bounce(x, Some(walls[i]))] else [])
  {
    assert walls[..i + 1][..i] == walls[..i];
  }

  lemma EdgeHitsNext(k: Kernel, edges: seq<Line>, i: nat, point1: Point, vec: Vec)
    requires i < |edges|
    ensures var x := HitPoint(k, point1, vec, edges[i]);
            EdgeHits(k, edges[..i + 1], point1, vec) ==
              EdgeHits(k, edges[..i], point1, vec) +
              (if !ParallelTo(edges[i], vec) && k.pointOnLine(edges[i], x) then [Bounce(x, None)] else [])
  {
    assert edges[..i + 1][..i] == edges[..i];
  }

  /** The wall candidates are exactly the bounces off the struck walls. */
  lemma {:induction false} WallHitsMembers(k: Kernel, walls: seq<Wall>, point1: Point, vec: Vec, b: Bounce)
    ensures b in WallHits(k, walls, point1, vec) <==>
            exists i :: 0 <= i < |walls| && Struck(k, walls[i], point1, vec) &&
                        b == Bounce(HitPoint(k, point1, vec, walls[i].points), Some(walls[i]))
    decreases |walls|
  {
    if walls != [] {
      var n := |walls| - 1;
      var init := walls[..n];
      WallHitsMembers(k, init, point1, vec, b);
      if exists i :: 0 <= i < |init| && Struck(k, init[i], point1, vec) &&
                     b == Bounce(HitPoint(k, point1, vec, init[i].points), Some(init[i])) {
        var i :| 0 <= i < |init| && Struck(k, init[i], point1, vec) &&
                 b == Bounce(HitPoint(k, point1, vec, init[i].points), Some(init[i]));
        assert walls[i] == init[i];
      }
      if exists i :: 0 <= i < |walls| && Struck(k, walls[i], point1, vec) &&
                     b == Bounce(HitPoint(k, point1, vec, walls[i].points), Some(walls[i])) {
        var i :| 0 <= i < |walls| && Struck(k, walls[i], point1, vec) &&
                 b == Bounce(HitPoint(k, point1, vec, walls[i].points), Some(walls[i]));
        if i < n {
          assert init[i] == walls[i];
        }
      }
    }
  }

  /** A candidate survives the direction filter exactly when it lies ahead of the ray. */
  lemma {:induction false} ForwardMembers(vec: Vec, point1: Point, candidates: seq<Bounce>, b: Bounce)
    ensures b in Forward(vec, point1, candidates) <==> b in candidates && CheckDirection(vec, point1, b.point)
    decreases |candidates|
  {
    if candidates != [] {
      ForwardMembers(vec, point1, candidates[1..], b);
      assert candidates == [candidates[0]] + candidates[1..];
    }
  }

  /**
   * The direction filter keeps nothing exactly when no candidate is ahead,
   * and otherwise the first candidate ahead, in candidate order, comes
   * first: no ordering by distance takes place.
   */
  lemma {:induction false} ForwardFirst(vec: Vec, point1: Point, candidates: seq<Bounce>, i: nat)
    requires i < |candidates| && CheckDirection(vec, point1, candidates[i].point)
    requires forall j :: 0 <= j < i ==> !CheckDirection(vec, point1, candidates[j].point)
    ensures First(Forward(vec, point1, candidates)) == Some(candidates[i])
    decreases i
  {
    if i > 0 {
      ForwardFirst(vec, point1, candidates[1..], i - 1);
    }
  }

  lemma {:induction false} ForwardNone(vec: Vec, point1: Point, candidates: seq<Bounce>)
    ensures Forward(vec, point1, candidates) == [] <==>
            forall j :: 0 <= j < |candidates| ==> !CheckDirection(vec, point1, candidates[j].point)
    decreases |candidates|
  {
    if candidates != [] {
      ForwardNone(vec, point1, candidates[1..]);
      if !CheckDirection(vec, point1, candidates[0].point) && Forward(vec, point1, candidates[1..]) == [] {
        forall j | 0 <= j < |candidates|
          ensures !CheckDirection(vec, point1, candidates[j].point)
        {
          if j > 0 {
            assert candidates[j] == candidates[1..][j - 1];
          }
        }
      }
    }
  }

  /** The direction filter distributes over concatenation. */
  lemma {:induction false} ForwardAppend(vec: Vec, point1: Point, a: seq<Bounce>, b: seq<Bounce>)
    ensures Forward(vec, point1, a + b) == Forward(vec, point1, a) + Forward(vec, point1, b)
    decreases |a|
  {
    if a != [] {
      ForwardAppend(vec, point1, a[1..], b);
      assert (a + b)[1..] == a[1..] + b;
    } else {
      assert a + b == b;
    }
  }

  /** Wall `wall` yields a candidate that survives the direction filter. */
  predicate Survives(k: Kernel, wall: Wall, point1: Point, vec: Vec) {
    Struck(k, wall, point1, vec) && CheckDirection(vec, point1, HitPoint(k, point1, vec, wall.points))
  }

  /** With no surviving wall, one step has no wall candidate, and conversely. */
  lemma {:induction false} NoWallHit(k: Kernel, walls: seq<Wall>, point1: Point, vec: Vec)
    ensures Forward(vec, point1, WallHits(k, walls, point1, vec)) == [] <==>
            forall j :: 0 <= j < |walls| ==> !Survives(k, walls[j], point1, vec)
    decreases |walls|
  {
    if walls != [] {
      var n := |walls| - 1;
      var init := walls[..n];
      NoWallHit(k, init, point1, vec);
      var x := HitPoint(k, point1, vec, walls[n].points);
      var tail := if Struck(k, walls[n], point1, vec) then [Bounce(x, Some(walls[n]))] else [];
      assert WallHits(k, walls, point1, vec) == WallHits(k, init, point1, vec) + tail;
      ForwardAppend(vec, point1, WallHits(k, init, point1, vec), tail);
      assert forall j :: 0 <= j < n ==> init[j] == walls[j];
    }
  }

  /**
   * The wall candidate a step picks is the bounce off the first surviving
   * wall in wall order, however far away it is.
   */
  lemma {:induction false} FirstWallHit(k: Kernel, walls: seq<Wall>, point1: Point, vec: Vec, i: nat)
    requires i < |walls| && Survives(k, walls[i], point1, vec)
    requires forall j :: 0 <= j < i ==> !Survives(k, walls[j], point1, vec)
    ensures First(Forward(vec, point1, WallHits(k, walls, point1, vec))) ==
            Some(Bounce(HitPoint(k, point1, vec, walls[i].points), Some(walls[i])))
    decreases |walls|
  {
    var n := |walls| - 1;
    var init := walls[..n];
    var x := HitPoint(k, point1, vec, walls[n].points);
    var tail := if Struck(k, walls[n], point1, vec) then [Bounce(x, Some(walls[n]))] else [];
    ForwardAppend(vec, point1, WallHits(k, init, point1, vec), tail);
    assert forall j :: 0 <= j < n ==> init[j] == walls[j];
    if i < n {
      FirstWallHit(k, init, point1, vec, i);
    } else {
      NoWallHit(k, init, point1, vec);
    }
  }

  /** The first entry of a walk with budget: the bounce off the first surviving wall. */
  lemma FirstBounce(k: Kernel, walls: seq<Wall>, point1: Point, vec: Vec, ap: int, i: nat)
    requires ap > 0
    requires i < |walls| && Survives(k, walls[i], point1, vec)
    requires forall j :: 0 <= j < i ==> !Survives(k, walls[j], point1, vec)
    ensures var r := Walk(k, walls, point1, vec, ap);
            r.entries != [] && r.entries[0] == Bounce(HitPoint(k, point1, vec, walls[i].points), Some(walls[i]))
  {
    FirstWallHit(k, walls, point1, vec, i);
  }

  /** A walk with budget but no surviving wall ends at once: at the first edge ahead, or in failure. */
  lemma EdgeEnd(k: Kernel, walls: seq<Wall>, point1: Point, vec: Vec, ap: int)
    requires ap > 0
    requires forall j :: 0 <= j < |walls| ==> !Survives(k, walls[j], point1, vec)
    ensures var r := Walk(k, walls, point1, vec, ap);
            var edges := Forward(vec, point1, EdgeHits(k, Boundaries, point1, vec));
            (r == if edges == [] then Run([], BoundaryMissing(ap, vec)) else Run([edges[0]], ReachedBoundary)) &&
            (r.outcome.BoundaryMissing? <==>
               forall j :: 0 <= j < |Boundaries| ==> !EdgeSurvives(k, Boundaries[j], point1, vec))
  {
    NoWallHit(k, walls, point1, vec);
    NoEdgeHit(k, Boundaries, point1, vec);
  }

  /** Edge `edge` yields a candidate that survives the direction filter. */
  predicate EdgeSurvives(k: Kernel, edge: Line, point1: Point, vec: Vec) {
    !ParallelTo(edge, vec) && k.pointOnLine(edge, HitPoint(k, point1, vec, edge)) &&
    CheckDirection(vec, point1, HitPoint(k, point1, vec, edge))
  }

  /** The edge candidates are exactly the wall-less entries at the edges that are not parallel and that point_on_line accepts. */
  lemma {:induction false} EdgeHitsMembers(k: Kernel, edges: seq<Line>, point1: Point, vec: Vec, b: Bounce)
    ensures b in EdgeHits(k, edges, point1, vec) <==>
            exists i :: 0 <= i < |edges| && !ParallelTo(edges[i], vec) &&
                        k.pointOnLine(edges[i], HitPoint(k, point1, vec, edges[i])) &&
                        b == Bounce(HitPoint(k, point1, vec, edges[i]), None)
    decreases |edges|
  {
    if edges != [] {
      var n := |edges| - 1;
      var init := edges[..n];
      EdgeHitsMembers(k, init, point1, vec, b);
      if exists i :: 0 <= i < |init| && !ParallelTo(init[i], vec) &&
                     k.pointOnLine(init[i], HitPoint(k, point1, vec, init[i])) &&
                     b == Bounce(HitPoint(k, point1, vec, init[i]), None) {
        var i :| 0 <= i < |init| && !ParallelTo(init[i], vec) &&
                 k.pointOnLine(init[i], HitPoint(k, point1, vec, init[i])) &&
                 b == Bounce(HitPoint(k, point1, vec, init[i]), None);
        assert edges[i] == init[i];
      }
      if exists i :: 0 <= i < |edges| && !ParallelTo(edges[i], vec) &&
                     k.pointOnLine(edges[i], HitPoint(k, point1, vec, edges[i])) &&
                     b == Bounce(HitPoint(k, point1, vec, edges[i]), None) {
        var i :| 0 <= i < |edges| && !ParallelTo(edges[i], vec) &&
                 k.pointOnLine(edges[i], HitPoint(k, point1, vec, edges[i])) &&
                 b == Bounce(HitPoint(k, point1, vec, edges[i]), None);
        if i < n {
          assert init[i] == edges[i];
        }
      }
    }
  }

  /** The last step finds no edge candidate exactly when no edge survives all three tests. */
  lemma {:induction false} NoEdgeHit(k: Kernel, edges: seq<Line>, point1: Point, vec: Vec)
    ensures Forward(vec, point1, EdgeHits(k, edges, point1, vec)) == [] <==>
            forall j :: 0 <= j < |edges| ==> !EdgeSurvives(k, edges[j], point1, vec)
    decreases |edges|
  {
    if edges != [] {
      var n := |edges| - 1;
      var init := edges[..n];
      NoEdgeHit(k, init, point1, vec);
      var x := HitPoint(k, point1, vec, edges[n]);
      var tail := if !ParallelTo(edges[n], vec) && k.pointOnLine(edges[n], x) then [Bounce(x, None)] else [];
      ForwardAppend(vec, point1, EdgeHits(k, init, point1, vec), tail);
      assert forall j :: 0 <= j < n ==> init[j] == edges[j];
    }
  }

  /** The edge the ray ends on is the first surviving edge in edge order. */
  lemma {:induction false} FirstEdgeHit(k: Kernel, edges: seq<Line>, point1: Point, vec: Vec, i: nat)
    requires i < |edges| && EdgeSurvives(k, edges[i], point1, vec)
    requires forall j :: 0 <= j < i ==> !EdgeSurvives(k, edges[j], point1, vec)
    ensures First(Forward(vec, point1, EdgeHits(k, edges, point1, vec))) ==
            Some(Bounce(HitPoint(k, point1, vec, edges[i]), None))
    decreases |edges|
  {
    var n := |edges| - 1;
    var init := edges[..n];
    var x := HitPoint(k, point1, vec, edges[n]);
    var tail := if !ParallelTo(edges[n], vec) && k.pointOnLine(edges[n], x) then [Bounce(x, None)] else [];
    assert EdgeHits(k, edges, point1, vec) == EdgeHits(k, init, point1, vec) + tail;
    ForwardAppend(vec, point1, EdgeHits(k, init, point1, vec), tail);
    var front := Forward(vec, point1, EdgeHits(k, init, point1, vec));
    assert forall j :: 0 <= j < n ==> init[j] == edges[j];
    if i < n {
      FirstEdgeHit(k, init, point1, vec, i);
      assert front != [] && front[0] == Bounce(HitPoint(k, point1, vec, edges[i]), None);
    } else {
      NoEdgeHit(k, init, point1, vec);
      assert front == [];
      assert Forward(vec, point1, tail) == [Bounce(x, None)];
    }
  }

  /**
   * The shape of every walk: at most `ap` entries; a walk that spends its
   * budget is `ap` wall bounces; a walk that reaches an edge is wall
   * bounces followed by that edge; a walk that finds no edge is wall
   * bounces, and fails with budget left.
   */
  lemma {:induction false} WalkShape(k: Kernel, walls: seq<Wall>, point1: Point, vec: Vec, ap: int)
    ensures var r := Walk(k, walls, point1, vec, ap);
            |r.entries| <= (if ap > 0 then ap else 0) &&
            (ap <= 0 ==> r == Run([], BudgetExhausted)) &&
            (r.outcome == BudgetExhausted ==> |r.entries| == (if ap > 0 then ap else 0)) &&
            (r.outcome == ReachedBoundary ==> r.entries != [] && r.entries[|r.entries| - 1].wall.None?) &&
            (r.outcome.BoundaryMissing? ==> 0 < r.outcome.ap <= ap) &&
            (forall j :: 0 <= j < |r.entries| ==>
              (r.entries[j].wall.Some? <==> !(r.outcome == ReachedBoundary && j == |r.entries| - 1)))
    decreases if ap < 0 then 0 else ap
  {
    if ap > 0 {
      var hits := Forward(vec, point1, WallHits(k, walls, point1, vec));
      if hits != [] {
        var hit := hits[0];
        assert hit in hits;
        WalkShape(k, walls, hit.point, Reflected(k, vec, hit), ap - 1);
      } else {
        var edges := Forward(vec, point1, EdgeHits(k, Boundaries, point1, vec));
        if edges != [] {
          assert edges[0] in edges;
        }
      }
    }
  }

  /** A direction that moves the point forward along `vec` passes the direction check. */
  lemma AheadPasses(vec: Vec, point: Point, t: real)
    requires t > 0.0
    ensures CheckDirection(vec, point, (point.0 + t * vec.0, point.1 + t * vec.1))
  {
    ProductSign(t, vec.0);
    ProductSign(t, vec.1);
  }

  /** A point behind the ray, on its line, never passes the direction check (unless the ray has no direction). */
  lemma BehindFails(vec: Vec, point: Point, t: real)
    requires t < 0.0 && vec != (0.0, 0.0)
    ensures !CheckDirection(vec, point, (point.0 + t * vec.0, point.1 + t * vec.1))
  {
    ProductSign(-t, vec.0);
    ProductSign(-t, vec.1);
  }

  /** The ray's own starting point is not ahead of it, unless it has no direction; then it is the only point that is. */
  lemma StartPoint(vec: Vec, point: Point, q: Point)
    ensures vec != (0.0, 0.0) ==> !CheckDirection(vec, point, point)
    ensures vec == (0.0, 0.0) ==> (CheckDirection(vec, point, q) <==> q == point)
  {
  }

  lemma ProductSign(t: real, x: real)
    requires t > 0.0
    ensures x > 0.0 ==> t * x > 0.0
    ensures x < 0.0 ==> t * x < 0.0
    ensures x == 0.0 ==> t * x == 0.0
  {
    if x > 0.0 {
      assert t * x > 0.0;
    } else if x < 0.0 {
      assert t * (-x) > 0.0;
    }
  }

  /** A run preceded by entries that were already appended. */
  function After(done: seq<Bounce>, run: Run): Run {
    Run(done + run.entries, run.outcome)
  }

  /** The loop over the walls in one step of a propagation: the wall candidates, in wall order. */
  method CollectWallHits(k: Kernel, walls: seq<Wall>, point1: Point, point2: Point, vec: Vec)
      returns (intersections: seq<Bounce>)
    requires point2 == (point1.0 + vec.0, point1.1 + vec.1)
    ensures intersections == WallHits(k, walls, point1, vec)
  {
    intersections := [];
    for i := 0 to |walls|
      invariant intersections == WallHits(k, walls[..i], point1, vec)
    {
      var wall := walls[i];
      WallHitsNext(k, walls, i, point1, vec);
      var wallDx := wall.points.0 - wall.points.2;
      var wallDy := wall.points.1 - wall.points.3;
      // exactly parallel walls are skipped
      if wallDx == vec.0 && wallDy == vec.1 {
        continue;
      }
      var intersection := k.intersection2((point1.0, point1.1, point2.0, point2.1), wall.points);
      if CheckOnWall(k, wall, intersection) {
        intersections := intersections + [Bounce(intersection, Some(wall))];
      }
    }
    assert walls[..|walls|] == walls;
  }

  /** The loop over the scene edges when no wall is ahead: the edge candidates, in edge order. */
  method CollectEdgeHits(k: Kernel, edges: seq<Line>, point1: Point, point2: Point, vec: Vec)
      returns (intersections: seq<Bounce>)
    requires point2 == (point1.0 + vec.0, point1.1 + vec.1)
    ensures intersections == EdgeHits(k, edges, point1, vec)
  {
    intersections := [];
    for i := 0 to |edges|
      invariant intersections == EdgeHits(k, edges[..i], point1, vec)
    {
      var edge := edges[i];
      EdgeHitsNext(k, edges, i, point1, vec);
      var wallDx := edge.0 - edge.2;
      var wallDy := edge.1 - edge.3;
      if wallDx == vec.0 && wallDy == vec.1 {
        continue;
      }
      var intersection := k.intersection2((point1.0, point1.1, point2.0, point2.1), edge);
      if k.pointOnLine(edge, intersection) {
        intersections := intersections + [Bounce(intersection, None)];
      }
    }
    assert edges[..|edges|] == edges;
  }

  /** The first forward wall candidate of one step, if any. */
  method NextWallHit(k: Kernel, walls: seq<Wall>, point1: Point, point2: Point, vec: Vec)
      returns (hit: Option<Bounce>)
    requires point2 == (point1.0 + vec.0, point1.1 + vec.1)
    ensures hit == First(Forward(vec, point1, WallHits(k, walls, point1, vec)))
  {
    var intersections := CollectWallHits(k, walls, point1, point2, vec);
    intersections := Forward(vec, point1, intersections);
    // The program sorts the candidates by distance here but discards the sorted copy.
    hit := if intersections == [] then None else Some(intersections[0]);
  }

  /** The first forward edge candidate of the last step, if any. */
  method NextEdgeHit(k: Kernel, point1: Point, point2: Point, vec: Vec)
      returns (hit: Option<Bounce>)
    requires point2 == (point1.0 + vec.0, point1.1 + vec.1)
    ensures hit == First(Forward(vec, point1, EdgeHits(k, Boundaries, point1, vec)))
  {
    var intersections := CollectEdgeHits(k, Boundaries, point1, point2, vec);
    intersections := Forward(vec, point1, intersections);
    hit := if intersections == [] then None else Some(intersections[0]);
  }

  class Ray {
    var transmitter: Transmitter
    var vec: Vec
    var ap: int
    var reflectionsList: seq<Bounce>

    /** A ray from `transmitter` along the normalised `vec`, with bounce budget `ap` and no entries yet. */
    constructor (k: Kernel, transmitter: Transmitter, vec: Vec, ap: int := 1)
      ensures this.transmitter == transmitter && this.vec == k.vecNormalize(vec)
      ensures this.ap == ap && reflectionsList == []
    {
      this.transmitter := transmitter;
      this.vec := k.vecNormalize(vec);
      this.ap := ap;
      reflectionsList := [];
    }

    /**
     * One pass of the propagation loop from `point1`, with budget left: either
     * a wall bounce, after which the walk goes on from the returned point
     * with one unit of budget less, or the end of the walk at an edge or at
     * the failure to find one.
     */
    method Advance(k: Kernel, walls: seq<Wall>, point1: Point) returns (next: Point, stop: Option<Outcome>)
      requires ap > 0
      modifies this
      ensures transmitter == old(transmitter)
      ensures After(old(reflectionsList), Walk(k, walls, point1, old(vec), old(ap))) ==
              if stop.None? then After(reflectionsList, Walk(k, walls, next, vec, ap)) else Run(reflectionsList, stop.value)
      ensures stop.None? ==> ap == old(ap) - 1
      ensures stop.Some? ==> ap == old(ap) && vec == old(vec)
      ensures stop.Some? ==> stop.value == ReachedBoundary || stop.value == BoundaryMissing(ap, vec)
      ensures stop.None? ==>
                var h := First(Forward(old(vec), point1, WallHits(k, walls, point1, old(vec))));
                h.Some? && reflectionsList == old(reflectionsList) + [h.value] &&
                next == h.value.point && vec == Reflected(k, old(vec), h.value)
      ensures stop.Some? ==>
                First(Forward(old(vec), point1, WallHits(k, walls, point1, old(vec)))).None? &&
                var e := First(Forward(old(vec), point1, EdgeHits(k, Boundaries, point1, old(vec))));
                (stop.value == ReachedBoundary <==> e.Some?) &&
                reflectionsList == old(reflectionsList) + (if e.Some? then [e.value] else [])
    {
      var point2 := (point1.0 + vec.0, point1.1 + vec.1);
      var hit := NextWallHit(k, walls, point1, point2, vec);
      if hit.Some? {
        ghost var rest := Walk(k, walls, hit.value.point, Reflected(k, vec, hit.value), ap - 1);
        assert reflectionsList + [hit.value] + rest.entries == reflectionsList + ([hit.value] + rest.entries);
        ap := ap - 1;
        reflectionsList := reflectionsList + [hit.value];
        vec := k.reflectionVec(vec, hit.value.wall.value.normal);
        return hit.value.point, None;
      }
      hit := NextEdgeHit(k, point1, point2, vec);
      if hit.None? {
        assert reflectionsList + [] == reflectionsList;
        return point1, Some(BoundaryMissing(ap, vec));
      }
      reflectionsList := reflectionsList + [hit.value];
      return point1, Some(ReachedBoundary);
    }

    /**
     * Appends the path of the ray to `reflectionsList` (which is not cleared
     * first) as Walk describes it, and restores `ap` and `vec` afterwards,
     * unless no scene edge was found ahead of the ray.
     */
    method Propagate(k: Kernel, walls: seq<Wall>) returns (outcome: Outcome)
      modifies this
      ensures transmitter == old(transmitter)
      ensures outcome == Walk(k, walls, old(transmitter).point, old(vec), old(ap)).outcome
      ensures reflectionsList == old(reflectionsList) + Walk(k, walls, old(transmitter).point, old(vec), old(ap)).entries
      ensures outcome.BoundaryMissing? ==> ap == outcome.ap && vec == outcome.vec
      ensures !outcome.BoundaryMissing? ==> ap == old(ap) && vec == old(vec)
    {
      var point1 := transmitter.point;
      // copies for restoration after the loop
      var initialAp := ap;
      var initialVec := vec;
      ghost var whole := After(reflectionsList, Walk(k, walls, point1, vec, ap));
      outcome := BudgetExhausted;

      while ap > 0
        invariant transmitter == old(transmitter)
        invariant whole == After(reflectionsList, Walk(k, walls, point1, vec, ap))
        decreases ap
      {
        var stop;
        point1, stop := Advance(k, walls, point1);
        if stop.Some? {
          outcome := stop.value;
          if outcome.BoundaryMissing? {
            return;
          }
          break;
        }
      }
      assert reflectionsList + [] == reflectionsList;

      ap := initialAp;
      vec := initialVec;
    }
  }
}
