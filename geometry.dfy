/**
 * Vector and line algebra of `line_classes.py` (class `Line`), over exact reals.
 *
 * A line is `start + t * direction`.  The floating-point parts of the source
 * (`np.linalg.norm`, unit vectors, `np.sqrt`) are not computed here: they are
 * supplied as uninterpreted functions in a `Numerics` value.
 */
module Geometry {
  import opened Wrappers

  datatype Vec2 = Vec2(x: real, y: real)

  const Origin := Vec2(0.0, 0.0)

  function Add(a: Vec2, b: Vec2): Vec2 { Vec2(a.x + b.x, a.y + b.y) }

  function Sub(a: Vec2, b: Vec2): Vec2 { Vec2(a.x - b.x, a.y - b.y) }

  function Scale(k: real, v: Vec2): Vec2 { Vec2(k * v.x, k * v.y) }

  function Dot(a: Vec2, b: Vec2): real { a.x * b.x + a.y * b.y }

  /** The 2x2 determinant `| a b |` with `a` and `b` as columns. */
  function Cross(a: Vec2, b: Vec2): real { a.x * b.y - a.y * b.x }

  /**
   * The floating-point primitives the source takes from numpy, left
   * uninterpreted: `unit(v)` stands for `v / np.linalg.norm(v)`, `norm` for
   * `np.linalg.norm` and `sqrt` for `np.sqrt`.
   */
  datatype Numerics = Numerics(unit: Vec2 -> Vec2, norm: Vec2 -> real, sqrt: real -> real)

  /** Numerics that behave as exact Euclidean norm and square root. */
  ghost predicate ExactRoots(num: Numerics)
  {
    && (forall v :: num.norm(v) >= 0.0 && num.norm(v) * num.norm(v) == Dot(v, v))
    && (forall a :: a >= 0.0 ==> num.sqrt(a) >= 0.0 && num.sqrt(a) * num.sqrt(a) == a)
  }

  /** The two parameters at which two lines meet: `selfParam` on the line
      asked, `otherParam` on the line passed in (`param[0]`, `param[1]`). */
  datatype Crossing = Crossing(selfParam: real, otherParam: real)

  datatype Line = Line(start: Vec2, direction: Vec2)
  {
    /** `find_normal`: the direction turned a quarter turn counter-clockwise. */
    function Normal(): (n: Vec2)
      ensures Dot(n, direction) == 0.0
      ensures Cross(direction, n) == Dot(direction, direction)
      ensures Dot(n, n) == Dot(direction, direction)
    {
      Vec2(-direction.y, direction.x)
    }

    /** `find_intersection_point`: the point at parameter `t`. */
    function PointAt(t: real): Vec2
    {
      Add(start, Scale(t, direction))
    }

    /**
     * `find_line_intersection`: solves `start + p0 * direction ==
     * other.start + p1 * other.direction` by inverting the matrix
     * `[other.direction | -direction]` (Cramer's rule).  The matrix is
     * singular exactly when the two directions are parallel, and then there
     * is no answer.
     */
    function FindLineIntersection(other: Line): (r: Option<Crossing>)
      ensures r.None? <==> Cross(direction, other.direction) == 0.0
      ensures r.Some? ==> PointAt(r.value.selfParam) == other.PointAt(r.value.otherParam)
    {
      var det := Cross(direction, other.direction);
      if det == 0.0 then None
      else
        var sub := Sub(start, other.start);
        var c := Crossing(Cross(other.direction, sub) / det, Cross(direction, sub) / det);
        CramerSolves(this, other, det, sub, c);
        Some(c)
    }

    /**
     * `Boundary.boundary_intersection`, with this line as the boundary: the
     * parameter at which `line` meets this boundary, kept only when the
     * boundary's own parameter lies in [0, 1], both ends included.
     */
    function BoundaryIntersection(line: Line): (r: Option<real>)
      ensures r.Some? ==> Cross(line.direction, direction) != 0.0
      ensures r.Some? ==> exists u :: 0.0 <= u <= 1.0 && line.PointAt(r.value) == PointAt(u)
    {
      match line.FindLineIntersection(this)
      case None => None
      case Some(param) =>
        if param.otherParam < 0.0 || param.otherParam > 1.0 then None
        else Some(param.selfParam)
    }
  }

  /**
   * `find_intersection_point` walks along the line: parameter 0 is the
   * start, parameters `d` apart give points `d` direction-lengths apart, and
   * on a line with a direction distinct parameters give distinct points.
   */
  lemma PointAtAffine(l: Line, s: real, t: real)
    ensures l.PointAt(0.0) == l.start
    ensures Sub(l.PointAt(t), l.PointAt(s)) == Scale(t - s, l.direction)
    ensures l.direction != Origin && l.PointAt(s) == l.PointAt(t) ==> s == t
  {
    var d := l.direction;
    assert (l.start.x + t * d.x) - (l.start.x + s * d.x) == (t - s) * d.x;
    assert (l.start.y + t * d.y) - (l.start.y + s * d.y) == (t - s) * d.y;
  }

  /** The arithmetic behind `FindLineIntersection`: both sides agree. */
  lemma CramerSolves(a: Line, b: Line, det: real, sub: Vec2, c: Crossing)
    requires det == Cross(a.direction, b.direction) && det != 0.0
    requires sub == Sub(a.start, b.start)
    requires c == Crossing(Cross(b.direction, sub) / det, Cross(a.direction, sub) / det)
    ensures a.PointAt(c.selfParam) == b.PointAt(c.otherParam)
  {
    var d1, d2 := a.direction, b.direction;
    var t, u := c.selfParam, c.otherParam;
    assert t * det == Cross(d2, sub);
    assert u * det == Cross(d1, sub);
    assert (t * d1.x - u * d2.x) * det == -sub.x * det by {
      calc {
        (t * d1.x - u * d2.x) * det;
        (t * det) * d1.x - (u * det) * d2.x;
        Cross(d2, sub) * d1.x - Cross(d1, sub) * d2.x;
        -sub.x * det;
      }
    }
    assert (t * d1.y - u * d2.y) * det == -sub.y * det by {
      calc {
        (t * d1.y - u * d2.y) * det;
        (t * det) * d1.y - (u * det) * d2.y;
        Cross(d2, sub) * d1.y - Cross(d1, sub) * d2.y;
        -sub.y * det;
      }
    }
  }

  /**
   * The crossing is the only one: any parameters at which the two lines
   * meet are the ones `FindLineIntersection` returns.
   */
  lemma IntersectionUnique(a: Line, b: Line, t: real, u: real)
    requires Cross(a.direction, b.direction) != 0.0
    requires a.PointAt(t) == b.PointAt(u)
    ensures a.FindLineIntersection(b) == Some(Crossing(t, u))
  {
    var d1, d2 := a.direction, b.direction;
    var det := Cross(d1, d2);
    var sub := Sub(a.start, b.start);
    // sub == u * d2 - t * d1; cross both sides with d2, then with d1
    assert sub == Sub(Scale(u, d2), Scale(t, d1));
    assert Cross(d2, sub) == t * det;
    assert Cross(d1, sub) == u * det;
    assert Cross(d2, sub) / det == t;
    assert Cross(d1, sub) / det == u;
  }

  /**
   * A line meets a boundary at parameter `t` exactly when the point at `t`
   * is the point of the boundary at some parameter in [0, 1] (directions
   * not parallel): the endpoints of the segment count as hits.
   */
  lemma BoundaryIntersectionIff(boundary: Line, line: Line, t: real)
    requires Cross(line.direction, boundary.direction) != 0.0
    ensures boundary.BoundaryIntersection(line) == Some(t)
        <==> exists u :: 0.0 <= u <= 1.0 && line.PointAt(t) == boundary.PointAt(u)
  {
    if u :| 0.0 <= u <= 1.0 && line.PointAt(t) == boundary.PointAt(u) {
      IntersectionUnique(line, boundary, t, u);
    }
  }

  /** A line parallel to a boundary never meets it. */
  lemma ParallelMisses(boundary: Line, line: Line)
    requires Cross(line.direction, boundary.direction) == 0.0
    ensures boundary.BoundaryIntersection(line).None?
  {
  }

  /** Dot products distribute over a scaled step along `n`. */
  lemma DotStep(a: Vec2, s: real, n: Vec2)
    ensures Dot(Add(a, Scale(s, n)), n) == Dot(a, n) + s * Dot(n, n)
    ensures Dot(Add(a, Scale(s, n)), Add(a, Scale(s, n))) == Dot(a, a) + 2.0 * s * Dot(a, n) + (s * s) * Dot(n, n)
  {
    assert Dot(Add(a, Scale(s, n)), n) == (a.x + s * n.x) * n.x + (a.y + s * n.y) * n.y;
  }

  /** Scaling one side scales the dot product. */
  lemma DotScale(k: real, a: Vec2, b: Vec2)
    ensures Dot(Scale(k, a), b) == k * Dot(a, b)
    ensures Dot(Scale(k, a), Scale(k, a)) == (k * k) * Dot(a, a)
  {
  }

  /** A non-negative number whose square is `a * a` is the magnitude of `a`. */
  lemma RootOfSquare(r: real, a: real)
    requires r >= 0.0 && r * r == a * a
    ensures r == if a < 0.0 then -a else a
  {
    var m := if a < 0.0 then -a else a;
    assert (r - m) * (r + m) == 0.0;
    if r + m != 0.0 {
      assert r - m == ((r - m) * (r + m)) / (r + m);
    }
  }

  /** `m <= 1 / eta` bounds the square of `eta * m` by one. */
  lemma ScaledSquareAtMostOne(eta: real, m: real, k: real)
    requires eta > 0.0 && 0.0 <= m <= k && eta * k == 1.0
    ensures (eta * m) * (eta * m) <= 1.0
  {
    var y := eta * m;
    assert 0.0 <= y <= eta * k;
    assert y * (1.0 - y) >= 0.0;
  }

  /** A non-negative number whose square is at most one is at most one. */
  lemma SquareAtMostOne(m: real)
    requires m >= 0.0 && m * m <= 1.0
    ensures m <= 1.0
  {
  }

  /** The scalar identity behind the length of a step: `aa + 2 s ad + s^2 nn` for the cases used. */
  lemma StepSquare(aa: real, ad: real, nn: real, s: real, x: real)
    requires x == aa + 2.0 * s * ad + (s * s) * nn
    requires nn == 1.0
    ensures ad == 0.0 ==> x == aa + s * s
    ensures aa == 1.0 && s == -ad ==> x == 1.0 - ad * ad
  {
  }

  /** A sign of plus or minus one does not change a square. */
  lemma SignedSquare(sign: real, r: real)
    requires sign == 1.0 || sign == -1.0
    ensures (sign * r) * (sign * r) == r * r
  {
  }
}
