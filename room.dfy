/**
 * A worked scene: a rectangular room like the one the tracer's
 * demonstration builds (`main.py` uses 1000 by 500), its walls as the
 * `Block` constructor lays them out, where a ray along +x first hits, and
 * which points the parity rule places inside.
 */
module Room {
  import opened Wrappers
  import opened Geometry
  import opened Scene
  import opened Rays

  /** The corners of a `w` by `h` room, counter-clockwise from the origin. */
  function Corners(w: real, h: real): seq<Vec2>
  {
    [Vec2(0.0, 0.0), Vec2(w, 0.0), Vec2(w, h), Vec2(0.0, h)]
  }

  /** Its walls: bottom, right, top, left. */
  function Walls(w: real, h: real): seq<Line>
  {
    [Line(Vec2(0.0, 0.0), Vec2(w, 0.0)), Line(Vec2(w, 0.0), Vec2(0.0, h)),
     Line(Vec2(w, h), Vec2(-w, 0.0)), Line(Vec2(0.0, h), Vec2(0.0, -h))]
  }

  lemma Wall0(w: real, h: real) ensures PolygonEdges(Corners(w, h))[0] == Walls(w, h)[0] { assert (0 + 1) % 4 == 1; }
  lemma Wall1(w: real, h: real) ensures PolygonEdges(Corners(w, h))[1] == Walls(w, h)[1] { assert (1 + 1) % 4 == 2; }
  lemma Wall2(w: real, h: real) ensures PolygonEdges(Corners(w, h))[2] == Walls(w, h)[2] { assert (2 + 1) % 4 == 3; }
  lemma Wall3(w: real, h: real) ensures PolygonEdges(Corners(w, h))[3] == Walls(w, h)[3] { assert (3 + 1) % 4 == 0; }

  /** The `Block` constructor lays out exactly those walls for those corners. */
  lemma RoomWalls(w: real, h: real)
    ensures PolygonEdges(Corners(w, h)) == Walls(w, h)
  {
    Wall0(w, h);
    Wall1(w, h);
    Wall2(w, h);
    Wall3(w, h);
  }

  /** The line from `(x, y)` along +x, as `find_direction(0)` aims it. */
  function Horizontal(x: real, y: real): Line
  {
    Line(Vec2(x, y), Vec2(1.0, 0.0))
  }

  /** It never meets the bottom wall, which is parallel to it. */
  lemma HorizontalMissesFloor(w: real, h: real, x: real, y: real)
    ensures ForwardHit(Walls(w, h)[0], Horizontal(x, y)).None?
  {
    ParallelMisses(Walls(w, h)[0], Horizontal(x, y));
  }

  /** Nor the top wall. */
  lemma HorizontalMissesCeiling(w: real, h: real, x: real, y: real)
    ensures ForwardHit(Walls(w, h)[2], Horizontal(x, y)).None?
  {
    ParallelMisses(Walls(w, h)[2], Horizontal(x, y));
  }

  /** At a height within the room it meets the right wall at parameter `w - x`. */
  lemma HorizontalMeetsRightWall(w: real, h: real, x: real, y: real)
    requires 0.0 <= y <= h && h > 0.0
    ensures Walls(w, h)[1].BoundaryIntersection(Horizontal(x, y)) == Some(w - x)
  {
    var u := y / h;
    assert u * h == y;
    assert Horizontal(x, y).PointAt(w - x) == Walls(w, h)[1].PointAt(u);
    BoundaryIntersectionIff(Walls(w, h)[1], Horizontal(x, y), w - x);
  }

  /** At a height within the room it meets the left wall at parameter `-x`. */
  lemma HorizontalMeetsLeftWall(w: real, h: real, x: real, y: real)
    requires 0.0 <= y <= h && h > 0.0
    ensures Walls(w, h)[3].BoundaryIntersection(Horizontal(x, y)) == Some(-x)
  {
    var u := 1.0 - y / h;
    assert (y / h) * h == y;
    assert Horizontal(x, y).PointAt(-x) == Walls(w, h)[3].PointAt(u);
    BoundaryIntersectionIff(Walls(w, h)[3], Horizontal(x, y), -x);
  }

  /** The right wall counts as hit when it lies beyond the threshold. */
  lemma RightWallForward(w: real, h: real, x: real, y: real)
    requires 0.0 <= y <= h && h > 0.0
    ensures ForwardHit(Walls(w, h)[1], Horizontal(x, y)) == if w - x > HitThreshold then Some(w - x) else None
  {
    HorizontalMeetsRightWall(w, h, x, y);
  }

  /** The left wall counts as hit when it lies beyond the threshold. */
  lemma LeftWallForward(w: real, h: real, x: real, y: real)
    requires 0.0 <= y <= h && h > 0.0
    ensures ForwardHit(Walls(w, h)[3], Horizontal(x, y)) == if -x > HitThreshold then Some(-x) else None
  {
    HorizontalMeetsLeftWall(w, h, x, y);
  }

  /** The scan over four walls when only the second is hit. */
  lemma NearestOnlySecond(edges: seq<Line>, ray: Line, t: real)
    requires |edges| == 4
    requires ForwardHit(edges[0], ray).None? && ForwardHit(edges[1], ray) == Some(t)
    requires ForwardHit(edges[2], ray).None? && ForwardHit(edges[3], ray).None?
    ensures Nearest(edges, ray, 4) == HitAt(1, t)
  {
    assert Nearest(edges, ray, 2) == HitAt(1, t);
  }

  /**
   * A ray heading along +x from a point at or right of the left wall first
   * hits the right wall (edge 1), after `w - x` direction-lengths, when
   * that wall is more than 0.01 ahead: the left wall lies behind it and the
   * other two are parallel.  Within 0.01 of the right wall, or past it, the
   * scan finds no wall at all, so the ray runs to its far end point.  In
   * the demonstration's 1000 by 500 room, from `(50, 50)` where it starts
   * its ray, the hit is at 950.
   */
  lemma RoomNearestWall(w: real, h: real, x: real, y: real)
    requires 0.0 <= x && 0.0 <= y <= h && h > 0.0
    ensures x < w - HitThreshold ==> Nearest(Walls(w, h), Horizontal(x, y), 4) == HitAt(1, w - x)
    ensures x >= w - HitThreshold ==> Nearest(Walls(w, h), Horizontal(x, y), 4).NoHit?
  {
    HorizontalMissesFloor(w, h, x, y);
    HorizontalMissesCeiling(w, h, x, y);
    RightWallForward(w, h, x, y);
    LeftWallForward(w, h, x, y);
    if x < w - HitThreshold {
      NearestOnlySecond(Walls(w, h), Horizontal(x, y), w - x);
    } else {
      NearestIsFirstLeast(Walls(w, h), Horizontal(x, y), 4);
    }
  }

  /** How many of four walls a line crosses, from which of them it crosses. */
  lemma CrossingsOfFour(edges: seq<Line>, test: Line)
    requires |edges| == 4
    ensures Crossings(edges, test, 4)
            == (if ForwardHit(edges[0], test).Some? then 1 else 0) + (if ForwardHit(edges[1], test).Some? then 1 else 0)
             + (if ForwardHit(edges[2], test).Some? then 1 else 0) + (if ForwardHit(edges[3], test).Some? then 1 else 0)
  {
    assert Crossings(edges, test, 1) == if ForwardHit(edges[0], test).Some? then 1 else 0;
  }

  /** What the parity probe from `(x, y)` along +x meets, wall by wall. */
  lemma ProbeHits(w: real, h: real, x: real, y: real)
    requires 0.0 <= y <= h && h > 0.0
    ensures TestLine(Vec2(x, y), Vec2(1.0, 0.0)) == Horizontal(x + ProbeOffset, y)
    ensures Crossings(Walls(w, h), Horizontal(x + ProbeOffset, y), 4)
            == (if w - (x + ProbeOffset) > HitThreshold then 1 else 0) + (if -(x + ProbeOffset) > HitThreshold then 1 else 0)
  {
    HorizontalMissesFloor(w, h, x + ProbeOffset, y);
    HorizontalMissesCeiling(w, h, x + ProbeOffset, y);
    RightWallForward(w, h, x + ProbeOffset, y);
    LeftWallForward(w, h, x + ProbeOffset, y);
    CrossingsOfFour(Walls(w, h), Horizontal(x + ProbeOffset, y));
  }

  /**
   * The parity rule, probing along +x, at any height within the room: the
   * probe starts 0.1 further on and counts a wall only more than 0.01 ahead,
   * so the point counts as inside exactly when one of the side walls, not
   * both, lies more than 0.11 ahead of it.
   */
  lemma RoomParity(w: real, h: real, x: real, y: real)
    requires 0.0 <= y <= h && h > 0.0
    ensures OddCrossings(Walls(w, h), Vec2(x, y), Vec2(1.0, 0.0))
            <==> (x < w - ProbeOffset - HitThreshold) != (x < -ProbeOffset - HitThreshold)
  {
    ProbeHits(w, h, x, y);
  }

  /**
   * From the left wall rightwards, the parity rule places a point inside
   * the room exactly when it is more than 0.11 from the right wall: a point
   * of the room within 0.11 of that wall counts as outside.
   */
  lemma RoomInside(w: real, h: real, x: real, y: real)
    requires 0.0 <= x && 0.0 <= y <= h && h > 0.0
    ensures OddCrossings(Walls(w, h), Vec2(x, y), Vec2(1.0, 0.0)) <==> x < w - ProbeOffset - HitThreshold
  {
    RoomParity(w, h, x, y);
  }

  /**
   * A point outside the room but within 0.11 left of the left wall counts
   * as inside: the probe's left-wall crossing lies at most 0.01 ahead.
   */
  lemma RoomLeftEdgeInside(w: real, h: real, x: real, y: real)
    requires -ProbeOffset - HitThreshold <= x < 0.0 && w >= ProbeOffset + HitThreshold && 0.0 <= y <= h && h > 0.0
    ensures OddCrossings(Walls(w, h), Vec2(x, y), Vec2(1.0, 0.0))
  {
    RoomParity(w, h, x, y);
  }

  /** It places a point to the right of the room outside it: the probe crosses no wall. */
  lemma RoomRightOutside(w: real, h: real, x: real, y: real)
    requires x >= w && w > 0.0 && 0.0 <= y <= h && h > 0.0
    ensures !OddCrossings(Walls(w, h), Vec2(x, y), Vec2(1.0, 0.0))
  {
    ProbeHits(w, h, x, y);
  }

  /** It places a point well to the left of the room outside it: the probe crosses both side walls. */
  lemma RoomLeftOutside(w: real, h: real, x: real, y: real)
    requires x < -ProbeOffset - HitThreshold && w > 0.0 && 0.0 <= y <= h && h > 0.0
    ensures !OddCrossings(Walls(w, h), Vec2(x, y), Vec2(1.0, 0.0))
  {
    ProbeHits(w, h, x, y);
  }
}
