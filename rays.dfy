/**
 * The `Ray` of `line_classes.py`: a line bound to a scene that keeps its
 * medium, its nearest boundary hit and its end point, and spawns reflected
 * and refracted rays.
 *
 * In the source `Ray` inherits from `Line`; here the ray holds the line's
 * fields itself (`startPoint`, `direction`, `normal`) and the inherited
 * mutators `change_start` and `change_direction` are methods of the ray,
 * which is the only kind of line that is ever changed in place.
 */
module Rays {
  import opened Wrappers
  import opened Geometry
  import opened Scene

  /** With nothing hit, the ray is drawn out to 100 direction-lengths. */
  const FarParam: real := 100.0

  /** A hit parameter, or `np.inf`. */
  datatype Extended = Finite(value: real) | Infinity

  predicate Below(t: real, e: Extended)
  {
    e.Infinity? || t < e.value
  }

  /** The outcome of the collision scan: nothing, or the winning index and parameter. */
  datatype Hit = NoHit | HitAt(index: nat, param: real)

  /**
   * The running minimum `collision` holds after the first `n` boundaries:
   * the least hit parameter beyond the threshold, won by the first boundary
   * that attains it.
   */
  function Nearest(edges: seq<Line>, ray: Line, n: nat): (h: Hit)
    requires n <= |edges|
    ensures h.HitAt? ==> h.index < n
  {
    if n == 0 then NoHit
    else
      var h := Nearest(edges, ray, n - 1);
      match ForwardHit(edges[n - 1], ray)
      case None => h
      case Some(t) => if h.NoHit? || t < h.param then HitAt(n - 1, t) else h
  }

  /**
   * What the collision scan finds: nothing exactly when no boundary is hit
   * beyond the threshold; otherwise a boundary that is hit, at a parameter
   * no other hit undercuts, and strictly nearer than every earlier hit.
   */
  lemma {:induction false} NearestIsFirstLeast(edges: seq<Line>, ray: Line, n: nat)
    requires n <= |edges|
    ensures Nearest(edges, ray, n).NoHit? <==> forall j :: 0 <= j < n ==> ForwardHit(edges[j], ray).None?
    ensures Nearest(edges, ray, n).HitAt? ==>
              ForwardHit(edges[Nearest(edges, ray, n).index], ray) == Some(Nearest(edges, ray, n).param)
    ensures Nearest(edges, ray, n).HitAt? ==> forall j :: 0 <= j < n && ForwardHit(edges[j], ray).Some? ==>
              Nearest(edges, ray, n).param <= ForwardHit(edges[j], ray).value
    ensures Nearest(edges, ray, n).HitAt? ==> forall j :: 0 <= j < Nearest(edges, ray, n).index && ForwardHit(edges[j], ray).Some? ==>
              Nearest(edges, ray, n).param < ForwardHit(edges[j], ray).value
  {
    if n > 0 {
      NearestIsFirstLeast(edges, ray, n - 1);
    }
  }

  function DistanceOf(h: Hit): Extended
  {
    if h.NoHit? then Infinity else Finite(h.param)
  }

  /** `end_point`: the hit point, or 100 direction-lengths out when nothing is hit. */
  function EndPointOf(ray: Line, h: Hit): Vec2
  {
    if h.NoHit? then ray.PointAt(FarParam) else ray.PointAt(h.param)
  }

  /** The component of `incidence` along the boundary, given the boundary's unit normal. */
  function ParallelPart(incidence: Vec2, normal: Vec2): Vec2
  {
    Sub(incidence, Scale(Dot(incidence, normal), normal))
  }

  /** `(-1) ** p`. */
  function MinusOnePow(p: nat): (r: real)
    ensures r == if p % 2 == 0 then 1.0 else -1.0
  {
    if p == 0 then 1.0 else -MinusOnePow(p - 1)
  }

  /**
   * The transmitted direction `refract` builds once the index ratio `eta`
   * is known, or `None` for total internal reflection: the parallel part is
   * scaled by `eta`, the perpendicular part is rebuilt with `sqrt` and takes
   * the sign -1 when the incidence points against the normal, +1 otherwise.
   */
  function Transmitted(num: Numerics, incidence: Vec2, normal: Vec2, eta: real): (r: Option<Vec2>)
    requires eta != 0.0
    ensures r.None? <==> num.norm(ParallelPart(incidence, normal)) > 1.0 / eta
    ensures r.Some? ==> Cross(Sub(r.value, Scale(eta, ParallelPart(incidence, normal))), normal) == 0.0
  {
    var dotProd := Dot(incidence, normal);
    var negPower := if dotProd < 0.0 then 1 else 2;
    var iPar := ParallelPart(incidence, normal);
    if num.norm(iPar) <= 1.0 / eta then
      var tPar := Scale(eta, iPar);
      var tPerp := Scale(MinusOnePow(negPower) * num.sqrt(1.0 - Dot(tPar, tPar)), normal);
      Some(Add(tPar, tPerp))
    else None
  }

  /** The parallel part is perpendicular to a unit normal. */
  lemma ParallelPartIsTangent(incidence: Vec2, normal: Vec2)
    requires Dot(normal, normal) == 1.0
    ensures Dot(ParallelPart(incidence, normal), normal) == 0.0
  {
    DotStep(incidence, -Dot(incidence, normal), normal);
    assert ParallelPart(incidence, normal) == Add(incidence, Scale(-Dot(incidence, normal), normal));
  }

  /** The sign `refract` gives the rebuilt perpendicular part. */
  function Sign(incidence: Vec2, normal: Vec2): real
  {
    MinusOnePow(if Dot(incidence, normal) < 0.0 then 1 else 2)
  }

  /** The signed length of the rebuilt perpendicular part. */
  function PerpendicularLength(num: Numerics, incidence: Vec2, normal: Vec2, eta: real): real
  {
    var tPar := Scale(eta, ParallelPart(incidence, normal));
    Sign(incidence, normal) * num.sqrt(1.0 - Dot(tPar, tPar))
  }

  /** The transmitted direction, taken apart: scaled parallel part plus signed normal. */
  lemma TransmittedParts(num: Numerics, incidence: Vec2, normal: Vec2, eta: real)
    requires eta != 0.0 && Dot(normal, normal) == 1.0
    requires Transmitted(num, incidence, normal, eta).Some?
    ensures Transmitted(num, incidence, normal, eta).value
            == Add(Scale(eta, ParallelPart(incidence, normal)), Scale(PerpendicularLength(num, incidence, normal, eta), normal))
    ensures Dot(Scale(eta, ParallelPart(incidence, normal)), normal) == 0.0
    ensures Dot(Transmitted(num, incidence, normal, eta).value, normal) == PerpendicularLength(num, incidence, normal, eta)
  {
    var tPar := Scale(eta, ParallelPart(incidence, normal));
    var s := PerpendicularLength(num, incidence, normal, eta);
    ParallelPartIsTangent(incidence, normal);
    DotScale(eta, ParallelPart(incidence, normal), normal);
    DotStep(tPar, s, normal);
  }

  /**
   * Snell's law in tangential form: the transmitted direction's component
   * along the boundary is the incidence's component scaled by `eta`.
   */
  lemma TransmittedTangential(num: Numerics, incidence: Vec2, normal: Vec2, eta: real)
    requires eta != 0.0 && Dot(normal, normal) == 1.0
    requires Transmitted(num, incidence, normal, eta).Some?
    ensures ParallelPart(Transmitted(num, incidence, normal, eta).value, normal)
            == Scale(eta, ParallelPart(incidence, normal))
  {
    TransmittedParts(num, incidence, normal, eta);
  }

  /**
   * Whenever `refract` transmits with exact roots, the ratio is positive and
   * the square root it takes is of a number in [0, 1].
   */
  lemma TransmittedRootReal(num: Numerics, incidence: Vec2, normal: Vec2, eta: real)
    requires ExactRoots(num) && eta != 0.0
    requires Transmitted(num, incidence, normal, eta).Some?
    ensures eta > 0.0
    ensures Dot(Scale(eta, ParallelPart(incidence, normal)), Scale(eta, ParallelPart(incidence, normal))) <= 1.0
  {
    var p := ParallelPart(incidence, normal);
    var m := num.norm(p);
    var k := 1.0 / eta;
    assert m >= 0.0 && m * m == Dot(p, p);
    assert m <= k;
    assert eta > 0.0;
    ScaledSquareAtMostOne(eta, m, k);
    DotScale(eta, p, p);
    assert (eta * eta) * Dot(p, p) == (eta * m) * (eta * m);
  }

  /**
   * A transmitted ray leaves on the far side of the boundary: its normal
   * component has the sign of the incidence's (-1 when the incidence points
   * against the normal, +1 otherwise).
   */
  lemma TransmittedKeepsSide(num: Numerics, incidence: Vec2, normal: Vec2, eta: real)
    requires ExactRoots(num) && eta != 0.0 && Dot(normal, normal) == 1.0
    requires Transmitted(num, incidence, normal, eta).Some?
    ensures Dot(incidence, normal) < 0.0 ==> Dot(Transmitted(num, incidence, normal, eta).value, normal) <= 0.0
    ensures Dot(incidence, normal) >= 0.0 ==> Dot(Transmitted(num, incidence, normal, eta).value, normal) >= 0.0
  {
    var tPar := Scale(eta, ParallelPart(incidence, normal));
    TransmittedRootReal(num, incidence, normal, eta);
    assert num.sqrt(1.0 - Dot(tPar, tPar)) >= 0.0;
    assert Sign(incidence, normal) == if Dot(incidence, normal) < 0.0 then -1.0 else 1.0;
    TransmittedParts(num, incidence, normal, eta);
  }

  /** With exact roots and a unit normal, the transmitted direction is a unit vector. */
  lemma TransmittedIsUnit(num: Numerics, incidence: Vec2, normal: Vec2, eta: real)
    requires ExactRoots(num) && eta != 0.0 && Dot(normal, normal) == 1.0
    requires Transmitted(num, incidence, normal, eta).Some?
    ensures Dot(Transmitted(num, incidence, normal, eta).value, Transmitted(num, incidence, normal, eta).value) == 1.0
  {
    PerpendicularSquare(num, incidence, normal, eta);
    TransmittedLength(num, incidence, normal, eta);
  }

  /** The rebuilt perpendicular part makes up what the parallel part leaves of unit length. */
  lemma PerpendicularSquare(num: Numerics, incidence: Vec2, normal: Vec2, eta: real)
    requires ExactRoots(num) && eta != 0.0
    requires Transmitted(num, incidence, normal, eta).Some?
    ensures PerpendicularLength(num, incidence, normal, eta) * PerpendicularLength(num, incidence, normal, eta)
            == 1.0 - Dot(Scale(eta, ParallelPart(incidence, normal)), Scale(eta, ParallelPart(incidence, normal)))
  {
    var tPar := Scale(eta, ParallelPart(incidence, normal));
    TransmittedRootReal(num, incidence, normal, eta);
    ExactSqrt(num, 1.0 - Dot(tPar, tPar));
    SignIsUnit(incidence, normal);
    SignedRootSquare(num, Sign(incidence, normal), 1.0 - Dot(tPar, tPar));
  }

  lemma SignIsUnit(incidence: Vec2, normal: Vec2)
    ensures Sign(incidence, normal) == 1.0 || Sign(incidence, normal) == -1.0
  {
  }

  lemma SignedRootSquare(num: Numerics, sign: real, a: real)
    requires sign == 1.0 || sign == -1.0
    requires num.sqrt(a) * num.sqrt(a) == a
    ensures (sign * num.sqrt(a)) * (sign * num.sqrt(a)) == a
  {
    SignedSquare(sign, num.sqrt(a));
  }

  lemma ExactSqrt(num: Numerics, a: real)
    requires ExactRoots(num) && a >= 0.0
    ensures num.sqrt(a) >= 0.0 && num.sqrt(a) * num.sqrt(a) == a
  {
  }

  /** The squared length of the transmitted direction: parallel and perpendicular parts add up. */
  lemma TransmittedLength(num: Numerics, incidence: Vec2, normal: Vec2, eta: real)
    requires eta != 0.0 && Dot(normal, normal) == 1.0
    requires Transmitted(num, incidence, normal, eta).Some?
    ensures Dot(Transmitted(num, incidence, normal, eta).value, Transmitted(num, incidence, normal, eta).value)
            == Dot(Scale(eta, ParallelPart(incidence, normal)), Scale(eta, ParallelPart(incidence, normal)))
             + PerpendicularLength(num, incidence, normal, eta) * PerpendicularLength(num, incidence, normal, eta)
  {
    var tPar := Scale(eta, ParallelPart(incidence, normal));
    var s := PerpendicularLength(num, incidence, normal, eta);
    TransmittedParts(num, incidence, normal, eta);
    DotStep(tPar, s, normal);
    StepSquare(Dot(tPar, tPar), Dot(tPar, normal), Dot(normal, normal), s, Dot(Add(tPar, Scale(s, normal)), Add(tPar, Scale(s, normal))));
  }

  /** For unit vectors, the parallel part's squared length is one minus the squared cosine. */
  lemma ParallelPartLength(incidence: Vec2, normal: Vec2)
    requires Dot(incidence, incidence) == 1.0 && Dot(normal, normal) == 1.0
    ensures Dot(ParallelPart(incidence, normal), ParallelPart(incidence, normal))
            == 1.0 - Dot(incidence, normal) * Dot(incidence, normal)
  {
    var d := Dot(incidence, normal);
    var p := ParallelPart(incidence, normal);
    assert p == Add(incidence, Scale(-d, normal)) by { SubIsAddNegated(incidence, d, normal); }
    assert Dot(p, p) == 1.0 + 2.0 * (-d) * d + ((-d) * (-d)) * 1.0 by { DotStep(incidence, -d, normal); }
    StepSquare(1.0, d, 1.0, -d, Dot(p, p));
  }

  /** Subtracting `k·n` is adding `(-k)·n`. */
  lemma SubIsAddNegated(a: Vec2, k: real, n: Vec2)
    ensures Sub(a, Scale(k, n)) == Add(a, Scale(-k, n))
  {
  }

  /**
   * Across a boundary between equal indices (`eta` = 1) a unit ray passes
   * straight through: `refract` returns the incidence itself.
   */
  lemma EqualIndicesPassStraight(num: Numerics, incidence: Vec2, normal: Vec2)
    requires ExactRoots(num)
    requires Dot(incidence, incidence) == 1.0 && Dot(normal, normal) == 1.0
    ensures Transmitted(num, incidence, normal, 1.0) == Some(incidence)
  {
    var d := Dot(incidence, normal);
    var p := ParallelPart(incidence, normal);
    ParallelPartLength(incidence, normal);
    var m := num.norm(p);
    assert m >= 0.0 && m * m == 1.0 - d * d;
    SquareAtMostOne(m);
    assert Transmitted(num, incidence, normal, 1.0).Some?;
    assert Scale(1.0, p) == p;
    var root := num.sqrt(1.0 - Dot(p, p));
    assert root >= 0.0 && root * root == d * d;
    RootOfSquare(root, d);
    assert Sign(incidence, normal) * root == d;
    TransmittedParts(num, incidence, normal, 1.0);
  }

  /**
   * The mirror image of `start` in the boundary line, as `reflect_ray` finds
   * it: through the crossing of the boundary with the line from `start`
   * along the boundary's unit normal, twice as far.
   */
  function MirrorPoint(num: Numerics, start: Vec2, boundary: Line): (r: Option<Vec2>)
    ensures r.Some? <==> Cross(num.unit(boundary.Normal()), boundary.direction) != 0.0
  {
    var perpLine := Line(start, num.unit(boundary.Normal()));
    match perpLine.FindLineIntersection(boundary)
    case None => None
    case Some(perpIntersection) => Some(perpLine.PointAt(2.0 * perpIntersection.selfParam))
  }

  /** `reflect_ray`: from the mirror image of the start to the crossing with the boundary. */
  function ReflectRay(num: Numerics, self: Line, boundary: Line): (r: Option<Vec2>)
    ensures r.Some? <==> Cross(self.direction, boundary.direction) != 0.0
                         && MirrorPoint(num, self.start, boundary).Some?
    ensures r.Some? ==> exists t, u :: Add(r.value, MirrorPoint(num, self.start, boundary).value) == self.PointAt(t)
                                     && self.PointAt(t) == boundary.PointAt(u)
  {
    match self.FindLineIntersection(boundary)
    case None => None
    case Some(intersection) =>
      match MirrorPoint(num, self.start, boundary)
      case None => None
      case Some(reflectedStart) =>
        var hit := self.PointAt(intersection.selfParam);
        assert Add(Sub(hit, reflectedStart), reflectedStart) == hit;
        assert hit == boundary.PointAt(intersection.otherParam);
        Some(Sub(hit, reflectedStart))
  }

  lemma QuotientNonZero(a: real, b: real)
    requires a != 0.0 && b != 0.0
    ensures a / b != 0.0
  {
  }

  /**
   * `MirrorPoint` is the reflection of `start` in the boundary line: the
   * midpoint of the two lies on the boundary, and the segment joining them
   * runs along the boundary's normal.
   */
  lemma MirrorPointReflects(num: Numerics, start: Vec2, boundary: Line)
    requires MirrorPoint(num, start, boundary).Some?
    ensures exists u :: Scale(0.5, Add(start, MirrorPoint(num, start, boundary).value)) == boundary.PointAt(u)
    ensures Cross(Sub(MirrorPoint(num, start, boundary).value, start), num.unit(boundary.Normal())) == 0.0
  {
    var n := num.unit(boundary.Normal());
    var perpLine := Line(start, n);
    var c := perpLine.FindLineIntersection(boundary).value;
    var m := MirrorPoint(num, start, boundary).value;
    assert m == Add(start, Scale(2.0 * c.selfParam, n));
    assert Scale(0.5, Add(start, m)) == perpLine.PointAt(c.selfParam);
    assert Sub(m, start) == Scale(2.0 * c.selfParam, n);
  }

  /**
   * When `unit` keeps the normal's direction, as `normal / norm(normal)`
   * does, `MirrorPoint` is the mirror image of `start` in the boundary line:
   * the midpoint lies on the line and the segment joining the two points is
   * perpendicular to it.
   */
  lemma MirrorPointIsMirrorImage(num: Numerics, start: Vec2, boundary: Line)
    requires MirrorPoint(num, start, boundary).Some?
    requires Cross(num.unit(boundary.Normal()), boundary.Normal()) == 0.0
    ensures exists u :: Scale(0.5, Add(start, MirrorPoint(num, start, boundary).value)) == boundary.PointAt(u)
    ensures Dot(Sub(MirrorPoint(num, start, boundary).value, start), boundary.direction) == 0.0
  {
    MirrorPointReflects(num, start, boundary);
    var n := num.unit(boundary.Normal());
    var c := Line(start, n).FindLineIntersection(boundary).value;
    assert Sub(MirrorPoint(num, start, boundary).value, start) == Scale(2.0 * c.selfParam, n);
    assert Dot(n, boundary.direction) == Cross(n, boundary.Normal());
    DotScale(2.0 * c.selfParam, n, boundary.direction);
  }

  /** The refractive index on one side of a boundary: a missing block is vacuum, index 1. */
  function IndexOf(b: Block?): real
  {
    if b == null then 1.0 else b.refractionIndex
  }

  class Ray {
    var startPoint: Vec2
    var direction: Vec2
    var normal: Vec2
    var power: real
    const roomMap: Map
    var medium: Block?
    var boundaryHit: Boundary?
    var shortestPath: Extended
    var endPoint: Vec2

    function AsLine(): Line
      reads this
    {
      Line(startPoint, direction)
    }

    /** The scene's boundaries as lines, in scan order. */
    function BoundaryLines(): (ls: seq<Line>)
      ensures |ls| == |roomMap.boundaries|
      ensures forall i :: 0 <= i < |ls| ==> ls[i] == roomMap.boundaries[i].line
    {
      seq(|roomMap.boundaries|, i requires 0 <= i < |roomMap.boundaries| => roomMap.boundaries[i].line)
    }

    /** The collision scan over the whole scene from the current line. */
    function Scan(): Hit
      reads this
    {
      Nearest(BoundaryLines(), AsLine(), |roomMap.boundaries|)
    }

    /** The cached collision fields agree with the current start and direction. */
    ghost predicate CollisionCurrent()
      reads this
    {
      var h := Scan();
      && boundaryHit == (if h.NoHit? then null else roomMap.boundaries[h.index])
      && shortestPath == DistanceOf(h)
      && endPoint == EndPointOf(AsLine(), h)
    }

    /** The cached normal is `find_normal` of the direction, and the collision is current. */
    ghost predicate Valid()
      reads this
    {
      normal == AsLine().Normal() && CollisionCurrent()
    }

    constructor (direction: Vec2, startingPower: real, startPoint: Vec2, roomMap: Map)
      ensures Valid()
      ensures this.startPoint == startPoint && this.direction == direction
      ensures power == startingPower && this.roomMap == roomMap
      ensures medium == roomMap.EnclosingBlock(startPoint, direction)
    {
      this.startPoint := startPoint;
      this.direction := direction;
      normal := Line(startPoint, direction).Normal();
      power := startingPower;
      this.roomMap := roomMap;
      new;
      medium := roomMap.BlockEnclosed(startPoint, direction);
      Recollide();
    }

    /** `Line.change_start`: moves the start and touches nothing else. */
    method ChangeStart(newStart: Vec2)
      modifies this`startPoint
      ensures startPoint == newStart
    {
      startPoint := newStart;
    }

    /** `Line.change_direction`: replaces the direction and re-derives the normal. */
    method ChangeDirection(newDirection: Vec2)
      modifies this`direction, this`normal
      ensures direction == newDirection
      ensures normal == AsLine().Normal() && Dot(normal, direction) == 0.0
    {
      direction := newDirection;
      normal := Line(startPoint, direction).Normal();
    }

    /**
     * `collision`: scans every boundary of the scene and keeps the least hit
     * parameter above the threshold; a later boundary replaces the current
     * one only when strictly nearer.
     */
    method Collision() returns (hit: Boundary?, shortest: Extended)
      ensures hit == (if Scan().NoHit? then null else roomMap.boundaries[Scan().index])
      ensures shortest == DistanceOf(Scan())
    {
      var boundaries, ray := roomMap.boundaries, AsLine();
      ghost var lines := BoundaryLines();
      shortest := Infinity;
      hit := null;
      ghost var h := NoHit;
      for i := 0 to |boundaries|
        invariant h == Nearest(lines, ray, i)
        invariant hit == (if h.NoHit? then null else boundaries[h.index])
        invariant shortest == DistanceOf(h)
      {
        var boundary := boundaries[i];
        var distance := boundary.line.BoundaryIntersection(ray);
        if distance.Some? {
          if distance.value <= HitThreshold {
            continue;
          }
        } else {
          continue;
        }
        if Below(distance.value, shortest) {
          shortest := Finite(distance.value);
          hit := boundary;
          h := HitAt(i, distance.value);
        }
      }
    }

    /** The tail shared by `__init__`, `move_start` and `new_trajectory`: rescan and set the end point. */
    method Recollide()
      modifies this`boundaryHit, this`shortestPath, this`endPoint
      ensures CollisionCurrent()
    {
      boundaryHit, shortestPath := Collision();
      endPoint := Add(startPoint, Scale(FarParam, direction));
      if boundaryHit != null {
        endPoint := AsLine().PointAt(shortestPath.value);
      }
    }

    /** `move_start`: moves the ray and recomputes medium, collision and end point. */
    method MoveStart(newStart: Vec2)
      requires Valid()
      modifies this
      ensures Valid()
      ensures startPoint == newStart && direction == old(direction) && power == old(power)
      ensures medium == roomMap.EnclosingBlock(newStart, direction)
    {
      ChangeStart(newStart);
      medium := roomMap.BlockEnclosed(startPoint, direction);
      Recollide();
    }

    /** `new_trajectory`: turns the ray and recomputes collision and end point, but not the medium. */
    method NewTrajectory(newDirection: Vec2)
      modifies this
      ensures Valid()
      ensures direction == newDirection && startPoint == old(startPoint) && power == old(power)
      ensures medium == old(medium)
    {
      ChangeDirection(newDirection);
      Recollide();
    }

    /**
     * `reflect`: nothing when nothing is hit; otherwise a new ray from the
     * end point along the reflected direction.  The source would crash on a
     * missing reflected direction, so callers must rule that out.
     */
    method Reflect(num: Numerics) returns (r: Ray?)
      requires boundaryHit != null ==> ReflectRay(num, AsLine(), boundaryHit.line).Some?
      ensures r == null <==> boundaryHit == null
      ensures r != null ==> fresh(r) && r.Valid() && r.roomMap == roomMap && r.power == power
      ensures r != null ==> r.startPoint == endPoint && r.direction == ReflectRay(num, AsLine(), boundaryHit.line).value
      ensures r != null ==> r.medium == roomMap.EnclosingBlock(endPoint, r.direction)
    {
      if boundaryHit == null {
        return null;
      }
      var reflectDirection := ReflectRay(num, AsLine(), boundaryHit.line);
      r := new Ray(reflectDirection.value, power, endPoint, roomMap);
    }

    /**
     * The two indices `refract` divides by are not zero: the medium's
     * (`1 / refraction_constant` divides by it) and that of the block at
     * the end point (`refraction_i / refraction_r`).
     */
    ghost predicate IndicesNonZero()
      reads this
    {
      && IndexOf(medium) != 0.0
      && IndexOf(roomMap.EnclosingBlock(endPoint, direction)) != 0.0
    }

    /** `n_i / n_r`: the medium's index over the index of the block at the end point. */
    function Eta(): (eta: real)
      reads this
      requires IndicesNonZero()
      ensures eta != 0.0
    {
      var exit := roomMap.EnclosingBlock(endPoint, direction);
      QuotientNonZero(IndexOf(medium), IndexOf(exit));
      IndexOf(medium) / IndexOf(exit)
    }

    /** The unit normal of the boundary hit, as `refract` uses it. */
    function HitNormal(num: Numerics): Vec2
      reads this
      requires boundaryHit != null
    {
      num.unit(boundaryHit.line.Normal())
    }

    /**
     * `refract`: no transmitted ray when nothing is hit, when the boundary
     * is a perfect mirror (reflectivity 1), or when the parallel part of the
     * unit incidence is longer than `1 / eta` (total internal reflection).
     */
    method Refract(num: Numerics) returns (r: Ray?)
      requires boundaryHit != null && boundaryHit.reflectivity != 1.0 ==> IndicesNonZero()
      ensures r == null <==> || boundaryHit == null
                             || boundaryHit.reflectivity == 1.0
                             || num.norm(ParallelPart(num.unit(direction), HitNormal(num))) > 1.0 / Eta()
      ensures r != null ==> fresh(r) && r.Valid() && r.roomMap == roomMap && r.power == power
      ensures r != null ==> r.startPoint == endPoint
                            && r.direction == Transmitted(num, num.unit(direction), HitNormal(num), Eta()).value
      ensures r != null ==> r.medium == roomMap.EnclosingBlock(endPoint, r.direction)
    {
      if boundaryHit == null {
        return null;
      }
      if boundaryHit.reflectivity == 1.0 {
        return null;
      }
      var blockEnclosed := roomMap.BlockEnclosed(endPoint, direction);
      var refractionR := if blockEnclosed == null then 1.0 else blockEnclosed.refractionIndex;
      var refractionI := if medium == null then 1.0 else medium.refractionIndex;
      var refractionConstant := refractionI / refractionR;
      assert refractionConstant == Eta();
      var incidence := num.unit(direction);
      var normal := num.unit(boundaryHit.line.Normal());
      var transmitted := Transmitted(num, incidence, normal, refractionConstant);
      if transmitted.Some? {
        r := new Ray(transmitted.value, power, endPoint, roomMap);
      } else {
        r := null;
      }
    }
  }
}
