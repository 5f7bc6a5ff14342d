/**
 * The scene of `line_classes.py`: polygon edges (`Boundary`), polygons
 * (`Block`) and the scene that collects them (`Map`).
 *
 * None of these objects is changed after it is built, so their fields are
 * `const`; they stay classes because the source compares boundaries and
 * blocks by identity (`boundary in block.edges`).
 */
module Scene {
  import opened Wrappers
  import opened Geometry

  /** Colours are carried along and never inspected. */
  type Colour = seq<int>

  /** Offset along the probe direction before the enclosure test line starts. */
  const ProbeOffset: real := 0.1
  /** Hit parameters at or below this are ignored (the ray's own origin). */
  const HitThreshold: real := 0.01

  /** A polygon edge: a line whose parameters 0 and 1 are its two vertices. */
  class Boundary {
    const startCoordinates: Vec2
    const endCoordinates: Vec2
    /** The `Line` part: starts at the first vertex, direction end - start. */
    const line: Line
    const colour: Colour
    const reflectivity: real

    constructor (startCoordinates: Vec2, endCoordinates: Vec2, colour: Colour, reflectivity: real)
      ensures this.startCoordinates == startCoordinates && this.endCoordinates == endCoordinates
      ensures line == Line(startCoordinates, Sub(endCoordinates, startCoordinates))
      ensures line.PointAt(0.0) == startCoordinates && line.PointAt(1.0) == endCoordinates
      ensures this.colour == colour && this.reflectivity == reflectivity
    {
      this.startCoordinates := startCoordinates;
      this.endCoordinates := endCoordinates;
      line := Line(startCoordinates, Sub(endCoordinates, startCoordinates));
      this.colour := colour;
      this.reflectivity := reflectivity;
    }
  }

  /**
   * The hit parameter of `test` on `edge`, when it lies beyond the threshold:
   * a point of `test` past 0.01 direction-lengths that lies on the segment.
   */
  function ForwardHit(edge: Line, test: Line): (r: Option<real>)
    ensures r.Some? ==> r.value > HitThreshold
    ensures Cross(test.direction, edge.direction) == 0.0 ==> r.None?
  {
    match edge.BoundaryIntersection(test)
    case Some(t) => if t > HitThreshold then Some(t) else None
    case None => None
  }

  /**
   * For a test line not parallel to the edge, `t` is the forward hit
   * exactly when it lies past the threshold and the point at `t` is on the
   * segment, endpoints included.
   */
  lemma ForwardHitIff(edge: Line, test: Line, t: real)
    requires Cross(test.direction, edge.direction) != 0.0
    ensures ForwardHit(edge, test) == Some(t)
        <==> t > HitThreshold && exists u :: 0.0 <= u <= 1.0 && test.PointAt(t) == edge.PointAt(u)
  {
    BoundaryIntersectionIff(edge, test, t);
  }

  /** How many of the first `n` edges `test` crosses beyond the threshold. */
  function Crossings(edges: seq<Line>, test: Line, n: nat): (c: nat)
    requires n <= |edges|
    ensures c <= n
    ensures c == n <==> forall i :: 0 <= i < n ==> ForwardHit(edges[i], test).Some?
    ensures c == 0 <==> forall i :: 0 <= i < n ==> ForwardHit(edges[i], test).None?
  {
    if n == 0 then 0
    else Crossings(edges, test, n - 1) + (if ForwardHit(edges[n - 1], test).Some? then 1 else 0)
  }

  /**
   * The line `enclosed_point` casts: the line from `point` along
   * `direction`, started 0.1 direction-lengths further on.
   */
  function TestLine(point: Vec2, direction: Vec2): (l: Line)
    ensures l.direction == direction
    ensures l.start == Line(point, direction).PointAt(ProbeOffset)
  {
    Line(Add(point, Scale(ProbeOffset, direction)), direction)
  }

  /** Parameter `t` on the test line is parameter `t + 0.1` on the line from `point`. */
  lemma TestLineShift(point: Vec2, direction: Vec2, t: real)
    ensures TestLine(point, direction).PointAt(t) == Line(point, direction).PointAt(t + ProbeOffset)
  {
    assert t * direction.x + ProbeOffset * direction.x == (t + ProbeOffset) * direction.x;
    assert t * direction.y + ProbeOffset * direction.y == (t + ProbeOffset) * direction.y;
  }

  /** The parity rule: a point is inside when the test line crosses an odd number of edges. */
  predicate OddCrossings(edges: seq<Line>, point: Vec2, direction: Vec2)
  {
    Crossings(edges, TestLine(point, direction), |edges|) % 2 == 1
  }

  /** `edge` runs from vertex `i` to the next vertex, wrapping round, with the block's material. */
  predicate EdgeFrom(edge: Boundary, vertices: seq<Vec2>, i: nat, colour: Colour, reflectivity: real)
    requires i < |vertices|
  {
    && edge.startCoordinates == vertices[i]
    && edge.endCoordinates == vertices[(i + 1) % |vertices|]
    && edge.line == Line(vertices[i], Sub(vertices[(i + 1) % |vertices|], vertices[i]))
    && edge.colour == colour && edge.reflectivity == reflectivity
  }

  /** The edge lines of the polygon with these vertices: vertex `i` to vertex `(i + 1) % n`. */
  function PolygonEdges(vertices: seq<Vec2>): (ls: seq<Line>)
    ensures |ls| == |vertices|
  {
    seq(|vertices|, i requires 0 <= i < |vertices| =>
      Line(vertices[i], Sub(vertices[(i + 1) % |vertices|], vertices[i])))
  }

  class Block {
    const name: string
    const refractionIndex: real
    const reflectivity: real
    const absorptionCoeff: real
    const vertices: seq<Vec2>
    const edges: seq<Boundary>
    const colour: Colour

    /** Edge `i` runs from vertex `i` to vertex `(i + 1) % n`, wrapping round. */
    constructor (name: string, refractionIndex: real, colour: Colour, absorptionCoeff: real,
                 reflectivity: real, vertices: seq<Vec2>)
      ensures this.name == name && this.refractionIndex == refractionIndex && this.colour == colour
      ensures this.absorptionCoeff == absorptionCoeff && this.reflectivity == reflectivity
      ensures this.vertices == vertices
      ensures Valid()
      ensures forall i :: 0 <= i < |edges| ==> fresh(edges[i])
      ensures forall i, j :: 0 <= i < j < |edges| ==> edges[i] != edges[j]
    {
      this.name := name;
      this.refractionIndex := refractionIndex;
      this.reflectivity := reflectivity;
      this.absorptionCoeff := absorptionCoeff;
      this.colour := colour;
      this.vertices := vertices;
      var numOfVertices := |vertices|;
      var es: seq<Boundary> := [];
      for i := 0 to numOfVertices
        invariant |es| == i
        invariant forall k :: 0 <= k < i ==> EdgeFrom(es[k], vertices, k, colour, reflectivity)
        invariant forall k :: 0 <= k < i ==> fresh(es[k])
        invariant forall k, j :: 0 <= k < j < i ==> es[k] != es[j]
      {
        var nextVertex := (i + 1) % numOfVertices;
        var edge := new Boundary(vertices[i], vertices[nextVertex], colour, reflectivity);
        es := es + [edge];
      }
      this.edges := es;
    }

    /** What the constructor establishes: one edge per vertex, in vertex order. */
    ghost predicate Valid()
    {
      && |edges| == |vertices|
      && forall i :: 0 <= i < |edges| ==> EdgeFrom(edges[i], vertices, i, colour, reflectivity)
    }

    /** The edges as lines, in vertex order. */
    function EdgeLines(): (ls: seq<Line>)
      ensures |ls| == |edges| && forall i :: 0 <= i < |edges| ==> ls[i] == edges[i].line
    {
      seq(|edges|, i requires 0 <= i < |edges| => edges[i].line)
    }

    /** A block's edges are the edges of the polygon its vertices describe. */
    lemma EdgesFollowVertices()
      requires Valid()
      ensures EdgeLines() == PolygonEdges(vertices)
    {
    }

    /** The specification of `enclosed_point`. */
    predicate Encloses(point: Vec2, direction: Vec2)
    {
      OddCrossings(EdgeLines(), point, direction)
    }

    /** `enclosed_point`: counts the edges the test line crosses beyond 0.01. */
    method EnclosedPoint(point: Vec2, direction: Vec2) returns (inside: bool)
      ensures inside == Encloses(point, direction)
    {
      var start := Add(point, Scale(ProbeOffset, direction));
      var testLine := Line(start, direction);
      var counter := 0;
      for i := 0 to |edges|
        invariant counter == Crossings(EdgeLines(), testLine, i)
      {
        var intersect := edges[i].line.BoundaryIntersection(testLine);
        if intersect.None? {
          continue;
        }
        if intersect.value > HitThreshold {
          counter := counter + 1;
        }
      }
      inside := counter % 2 == 1;
    }
  }

  /** The edge lists of `blocks`, concatenated in order. */
  function AllEdges(blocks: seq<Block>): seq<Boundary>
  {
    if blocks == [] then [] else AllEdges(blocks[..|blocks| - 1]) + blocks[|blocks| - 1].edges
  }

  /** A boundary is in the concatenation exactly when some block has it as an edge. */
  lemma {:induction false} AllEdgesMembership(blocks: seq<Block>, e: Boundary)
    ensures e in AllEdges(blocks) <==> exists k :: 0 <= k < |blocks| && e in blocks[k].edges
  {
    if blocks != [] {
      var init := blocks[..|blocks| - 1];
      AllEdgesMembership(init, e);
      if e in AllEdges(init) {
        var k :| 0 <= k < |init| && e in init[k].edges;
        assert blocks[k] == init[k];
      }
      if k :| 0 <= k < |blocks| && e in blocks[k].edges {
        if k < |init| {
          assert init[k] == blocks[k];
        }
      }
    }
  }

  /** Blocks that are different objects share no edge. */
  ghost predicate EdgesOwned(blocks: seq<Block>)
  {
    forall i, j, e :: 0 <= i < |blocks| && 0 <= j < |blocks| && blocks[i] != blocks[j] && e in blocks[i].edges
      ==> e !in blocks[j].edges
  }

  class Map {
    const boundaries: seq<Boundary>
    const blocks: seq<Block>

    constructor (blocks: seq<Block>)
      ensures this.blocks == blocks
      ensures boundaries == AllEdges(blocks)
    {
      var bs: seq<Boundary> := [];
      for i := 0 to |blocks|
        invariant bs == AllEdges(blocks[..i])
      {
        assert blocks[..i + 1][..i] == blocks[..i];
        bs := bs + blocks[i].edges;
      }
      assert blocks[..|blocks|] == blocks;
      boundaries := bs;
      this.blocks := blocks;
    }

    /** Index of the first block from `i` on, in construction order, that
        encloses the point; `|blocks|` when there is none. */
    function EnclosingIndex(point: Vec2, direction: Vec2, i: nat): (k: nat)
      requires i <= |blocks|
      decreases |blocks| - i
      ensures i <= k <= |blocks|
      ensures k < |blocks| ==> blocks[k].Encloses(point, direction)
      ensures forall j :: i <= j < k ==> !blocks[j].Encloses(point, direction)
    {
      if i == |blocks| || blocks[i].Encloses(point, direction) then i
      else EnclosingIndex(point, direction, i + 1)
    }

    /** The specification of `block_enclosed`. */
    function EnclosingBlock(point: Vec2, direction: Vec2): (b: Block?)
      ensures b != null ==> b in blocks && b.Encloses(point, direction)
    {
      var k := EnclosingIndex(point, direction, 0);
      if k == |blocks| then null else blocks[k]
    }

    /** Index of the first block from `i` on, in construction order, whose
        edges contain `boundary`; `|blocks|` when there is none. */
    function OwnerIndex(boundary: Boundary, i: nat): (k: nat)
      requires i <= |blocks|
      decreases |blocks| - i
      ensures i <= k <= |blocks|
      ensures k < |blocks| ==> boundary in blocks[k].edges
      ensures forall j :: i <= j < k ==> boundary !in blocks[j].edges
    {
      if i == |blocks| || boundary in blocks[i].edges then i
      else OwnerIndex(boundary, i + 1)
    }

    /** The specification of `block_boundary`. */
    function OwnerOf(boundary: Boundary): Block?
    {
      var k := OwnerIndex(boundary, 0);
      if k == |blocks| then null else blocks[k]
    }

    /**
     * Every boundary of the scene maps back to the block that created it,
     * provided distinct blocks share no edge (as blocks built by the `Block`
     * constructor never do: their edges are fresh).
     */
    lemma OwnerIsCreator(k: nat, e: Boundary)
      requires EdgesOwned(blocks)
      requires k < |blocks| && e in blocks[k].edges
      ensures OwnerOf(e) == blocks[k]
    {
      var j := OwnerIndex(e, 0);
      assert j <= k;
    }

    /** `block_enclosed`: scans the blocks in construction order. */
    method BlockEnclosed(point: Vec2, direction: Vec2) returns (r: Block?)
      ensures r == EnclosingBlock(point, direction)
    {
      for i := 0 to |blocks|
        invariant EnclosingIndex(point, direction, 0) == EnclosingIndex(point, direction, i)
      {
        var inside := blocks[i].EnclosedPoint(point, direction);
        if inside {
          return blocks[i];
        }
      }
      return null;
    }

    /** `block_boundary`: scans the blocks in construction order. */
    method BlockBoundary(boundary: Boundary) returns (r: Block?)
      ensures r == OwnerOf(boundary)
    {
      for i := 0 to |blocks|
        invariant OwnerIndex(boundary, 0) == OwnerIndex(boundary, i)
      {
        if boundary in blocks[i].edges {
          return blocks[i];
        }
      }
      return null;
    }
  }
}
