# light_tracer, modelled in Dafny

A model of the core of a 2D light-ray tracer. It covers three parts:

- **The scene.** Line segments (`Boundary`) are the edges of polygons (`Block`), and a `Map` collects the polygons.
- **Rays.** A ray finds the nearest boundary in its path, then spawns a reflected and a refracted ray.
- **The ray tree.** Every ray's reflection and refraction are traced again, down to a fixed depth, and the tree of rays is flattened into a list.

The modules follow the source files:

| module | file | models |
|---|---|---|
| `Wrappers` | `wrappers.dfy` | `Option`, for Python's `None` |
| `Geometry` | `geometry.dfy` | `Line` of `line_classes.py`: normal, point at a parameter, intersection of two lines, the `[0, 1]` boundary filter |
| `Scene` | `scene.dfy` | `Boundary`, `Block` (edges, `enclosed_point`), `Map` (edge list, `block_boundary`, `block_enclosed`) |
| `Rays` | `rays.dfy` | `Ray`: collision scan, end point, the mutators, `reflect_ray`, `reflect`, `refract` |
| `Room` | `room.dfy` | worked facts about a rectangular room (the shape of the demonstration scene) |
| `BinList` | `bin_list.dfy` | `Node` and `BinTree` of `bin_list.py`: pointers set in place, pre-order walk, data list, generation walk |
| `Tracer` | `tracer.dfy` | `trace_ray`, `get_all_rays` (in `tracer.py`, and the same code up to a type annotation in `main.py`), `receiver_hit`, `get_hit_medium` |

Coordinates are exact reals.

- **Abstract numerics.** `np.linalg.norm`, unit vectors and `np.sqrt` are the uninterpreted functions of a `Numerics` value. Where a proof needs them to behave as the exact norm and root, it requires `ExactRoots`.
- **Intersection.** `np.linalg.inv` of the 2×2 direction matrix becomes Cramer's rule. The matrix is singular exactly when its determinant is zero.
- **Thresholds.** The source's thresholds are the constants `HitThreshold` (0.01), `ProbeOffset` (0.1) and `FarParam` (100).
- **Near a wall.** The thresholds are ray parameters, that is, multiples of the direction's length, and reflected directions are not unit vectors. `collision` skips every boundary met at parameter 0.01 or less and goes on scanning. A ray that starts that close to a wall it faces passes it by and ends at the next boundary beyond, or at `start + 100·direction` when there is none. `Room.RoomNearestWall` states the second case for the bare rectangular room. `enclosed_point` starts its probe at parameter 0.1 and applies the same filter. Along the probe's direction, a point of a block within parameter 0.11 of an edge ahead counts as outside, and a point outside within parameter 0.11 behind an edge counts as inside. `Room.RoomInside` and `Room.RoomLeftEdgeInside` state this for the rectangular room, probing along the unit direction +x, where parameters are distances.

The ray tree is heap-allocated.

- **Node.** A `Node` has mutable `pointer1`/`pointer2` fields, plus two ghost fields:
  - `Repr`, the nodes under it;
  - `Shape`, the tree under it as a `Tree` value.
- **Node.Valid.** It says the pointers form a tree (no sharing, no cycles) recorded by `Shape`.
- **Tracer's ray type.** It is a type parameter. `Optics` supplies what `reflect()` and `refract()` return, as functions `R -> Option<R>`. The tree that `trace_ray` grows from a ray is `Grow`, a value, and the heap tree is proved to have that shape.

The flattened list for depth `D` has `2^(D+1) − 1` entries only when no ray above the last level is `None`: `trace_ray` never expands a node holding `None` (tracer.py:13). `Tracer.RayCount` proves at most `2^(D+1) − 1` entries, with equality exactly in that case.

## Model

| member | source | states |
|---|---|---|
| Geometry.Line.Normal | line_classes.py:19-24 | `find_normal` is perpendicular to the direction, has the same length, and lies a quarter turn counter-clockwise (its cross product with the direction is the direction's squared length) |
| Geometry.PointAtAffine | line_classes.py:25-28 | `find_intersection_point` at parameter 0 is the start; parameters `d` apart give points `d` direction-lengths apart; on a line with a non-zero direction, distinct parameters give distinct points |
| Geometry.Line.FindLineIntersection | line_classes.py:29-44 | `None` exactly when the matrix `[line2.direction, -self.direction]` is singular (zero determinant); otherwise `self` at `param[0]` and `line2` at `param[1]` are the same point |
| Geometry.IntersectionUnique | line_classes.py:29-44 | for non-parallel lines, any pair of meeting parameters is the pair `find_line_intersection` returns |
| Geometry.Line.BoundaryIntersection | line_classes.py:100-107 | a returned parameter means the lines are not parallel, and the hit point lies on the segment at a boundary parameter in `[0, 1]` |
| Geometry.BoundaryIntersectionIff | line_classes.py:100-107 | for non-parallel lines, `boundary_intersection` returns `t` if and only if the point at `t` is on the segment, endpoints included |
| Geometry.ParallelMisses | line_classes.py:100-107 | a line parallel to a boundary never hits it |
| Scene.Boundary.constructor | line_classes.py:87-93 | the direction is end − start, so parameter 0 is the start vertex and parameter 1 the end vertex; colour and reflectivity kept |
| Scene.ForwardHit | line_classes.py:139-143 | a counted hit lies past 0.01 direction-lengths, and a test line parallel to the edge never counts |
| Scene.ForwardHitIff | line_classes.py:139-143 | for a test line not parallel to the edge, `t` is counted exactly when `t > 0.01` and the point at `t` lies on the segment, endpoints included |
| Scene.TestLine | line_classes.py:135-136 | the test line has the given direction and starts at parameter 0.1 of the line from `point` |
| Scene.TestLineShift | line_classes.py:135-136 | parameter `t` on the test line is parameter `t + 0.1` on the line from `point` along `direction` |
| Scene.Crossings | line_classes.py:137-143 | the counter never exceeds the number of edges; it equals it exactly when every edge is hit, and it is zero exactly when none is |
| Scene.Block.constructor | line_classes.py:114-129 | one edge per vertex; edge `i` runs from vertex `i` to vertex `(i + 1) mod n` with the block's colour and reflectivity; the edges are new, distinct objects |
| Scene.Block.EdgesFollowVertices | line_classes.py:126-129 | the block's edges are the wrap-around edges of its vertex polygon |
| Scene.Block.EnclosedPoint | line_classes.py:134-147 | true exactly when an odd number of edges are hit beyond 0.01 by the test line starting at `point + 0.1·direction` |
| Scene.AllEdgesMembership | line_classes.py:161-165 | a boundary is in the concatenated edge list exactly when some block has it as an edge |
| Scene.Map.constructor | line_classes.py:161-165 | `boundaries` is the blocks' edge lists concatenated in argument order |
| Scene.Map.EnclosingIndex | line_classes.py:174-178 | the first block in construction order that encloses the point: it encloses it and no earlier block does |
| Scene.Map.EnclosingBlock | line_classes.py:174-178 | a returned block is one of the map's blocks and encloses the point |
| Scene.Map.BlockEnclosed | line_classes.py:174-178 | `block_enclosed` returns the first enclosing block in construction order, or `None` |
| Scene.Map.OwnerIndex | line_classes.py:167-172 | the first block in construction order whose edges contain the boundary, and no earlier block's edges do |
| Scene.Map.BlockBoundary | line_classes.py:167-172 | `block_boundary` returns the first block containing the boundary, or `None` |
| Scene.Map.OwnerIsCreator | line_classes.py:161-172 | when blocks share no edge, every edge of the map is mapped back to the block that created it |
| Rays.NearestIsFirstLeast | line_classes.py:205-220 | the scan finds nothing exactly when no boundary is hit beyond 0.01; otherwise the winner is hit at the returned parameter, no hit is nearer, and every earlier hit is strictly farther (first boundary wins ties) |
| Rays.Ray.Collision | line_classes.py:205-220 | `collision` returns `(None, ∞)` or the winning boundary and its parameter, as `Nearest` specifies |
| Rays.Ray.Recollide | line_classes.py:191-195 | boundary hit, shortest path and end point are recomputed: the end point is the hit point, or `start + 100·direction` when nothing is hit |
| Rays.Ray.constructor | line_classes.py:186-195 | a new ray has the given start, direction and power; its medium is the first block enclosing the start; its cached collision fields are current |
| Rays.Ray.ChangeStart | line_classes.py:72-75 | `change_start` replaces the start point and changes nothing else |
| Rays.Ray.ChangeDirection | line_classes.py:65-71 | `change_direction` replaces the direction and re-derives a normal that is `(−d.y, d.x)` and perpendicular to it; nothing else changes |
| Rays.Ray.MoveStart | line_classes.py:197-203 | `move_start` keeps direction and power, recomputes the medium at the new start, and leaves the collision fields current |
| Rays.Ray.NewTrajectory | line_classes.py:222-227 | `new_trajectory` keeps start, power and medium (the medium is not recomputed) and leaves the collision fields current |
| Rays.Transmitted | line_classes.py:252-270 | `None` exactly when `|i_par| > 1 / eta` (total internal reflection); otherwise the transmitted direction minus `eta·i_par` lies along the normal |
| Rays.MinusOnePow | line_classes.py:256-266 | `(-1) ** p` is 1 for even `p` and −1 for odd `p` |
| Rays.ParallelPartIsTangent | line_classes.py:261-262 | `i_par = incidence − (incidence·n) n` is perpendicular to a unit normal |
| Rays.TransmittedTangential | line_classes.py:264-267 | Snell's law in tangential form: the transmitted direction's component along the boundary is the incidence's component scaled by `n_i / n_r` |
| Rays.TransmittedRootReal | line_classes.py:264-266 | with exact roots, whenever a ray is transmitted the index ratio is positive and `1 − t_par·t_par` is non-negative, so the square root is real |
| Rays.TransmittedKeepsSide | line_classes.py:255-267 | the sign selection: the perpendicular part has sign −1 when `incidence·normal < 0` and +1 otherwise, so the ray leaves on the incidence's side of the normal |
| Rays.TransmittedIsUnit | line_classes.py:261-267 | with exact roots and a unit normal, the transmitted direction is a unit vector |
| Rays.EqualIndicesPassStraight | line_classes.py:252-267 | between equal indices a unit ray is transmitted unchanged |
| Rays.ReflectRay | line_classes.py:51-64 | `reflect_ray` returns a direction exactly when the ray meets the boundary line and the perpendicular from the start meets it too; the direction runs from the mirror image of the start to the point where the ray's own line crosses the boundary line |
| Rays.MirrorPoint | line_classes.py:58-62 | the mirror point exists exactly when the boundary's unit normal is not parallel to the boundary |
| Rays.MirrorPointReflects | line_classes.py:56-62 | the point `reflect_ray` builds and the start have their midpoint on the boundary line, and the segment between them runs along `unit(normal)` |
| Rays.MirrorPointIsMirrorImage | line_classes.py:56-62 | when `unit` keeps the normal's direction, as `normal / norm(normal)` (line_classes.py:17) does, that point is the mirror image of the start: the midpoint is on the boundary line and the segment is perpendicular to it |
| Rays.Ray.Reflect | line_classes.py:229-233 | `None` exactly when nothing was hit; otherwise a new ray in the same map with the same power, starting at the end point along the reflected direction, whose medium is the first block enclosing the end point |
| Rays.Ray.Eta | line_classes.py:241-252 | the ratio `n_i / n_r`, with a missing block counting as index 1, is never zero when the two indices it divides by are non-zero |
| Rays.Ray.Refract | line_classes.py:235-270 | `None` exactly when nothing was hit, the boundary has reflectivity 1, or the parallel part is longer than `1 / eta`; otherwise a new ray from the end point along the transmitted direction, in the same map with the same power, whose medium is the first block enclosing the end point |
| Room.RoomWalls | line_classes.py:126-129 | the `Block` constructor lays out the four walls of a `w` by `h` room in corner order |
| Room.RoomNearestWall | line_classes.py:205-220 | a ray along +x from `x ≥ 0` at a height within the room first hits the right wall, at parameter `w − x`, when `x < w − 0.01`; for `x ≥ w − 0.01` the scan finds no wall |
| Room.RoomParity | line_classes.py:134-147 | at a height within the room, the parity rule along +x places `(x, y)` inside exactly when one, not both, of `x < w − 0.11` and `x < −0.11` holds |
| Room.RoomInside | line_classes.py:134-147 | for `x ≥ 0`, the parity rule places the point inside exactly when `x < w − 0.11`: points of the room within 0.11 of the right wall count as outside |
| Room.RoomLeftEdgeInside | line_classes.py:134-147 | a point within 0.11 left of the left wall (`−0.11 ≤ x < 0`, room at least 0.11 wide) counts as inside |
| Room.RoomRightOutside | line_classes.py:134-147 | the parity rule places a point to the right of the room outside it (no crossing) |
| Room.RoomLeftOutside | line_classes.py:134-147 | the parity rule places a point well to the left of the room outside it (two crossings) |
| BinList.Node.constructor | bin_list.py:2-5 | a new node holds its data and has both pointers `None` |
| BinList.Node.AddPoint | bin_list.py:7-9 | `add_point` overwrites both pointers and leaves the data unchanged |
| BinList.PreOrderLength | bin_list.py:19-31 | a pre-order listing has one entry per node |
| BinList.BinTree.constructor | bin_list.py:16-17 | the tree wraps the given head node |
| BinList.BinTree.Traverse | bin_list.py:19-31 | `traverse` lists the node first (nothing for `None`), only nodes under it, one per entry of the pre-order of its tree, each holding that entry's data |
| BinList.BinTree.TraverseVisitsEachOnce | bin_list.py:19-31 | no node appears twice, and the walk's length is the number of nodes in the tree |
| BinList.BinTree.GetDataList | bin_list.py:33-36 | `get_data_list` is the pre-order of the data, entry for entry the data of `traverse()` |
| BinList.ExpandGeneration | bin_list.py:45-48 | each present node contributes `pointer_1` then `pointer_2`, in order; `None` contributes nothing |
| BinList.NextLength | bin_list.py:45-48 | the next generation has two entries per present node, so at most twice as many entries |
| BinList.GenBound | bin_list.py:42-50 | generation `g` has at most `2^g` entries |
| BinList.LevelLength | bin_list.py:42-52 | for `g > 0` the result has `2 ×` (present nodes at `g − 1`) entries, at most `2^g` |
| BinList.BinTree.SearchGeneration | bin_list.py:38-52 | generation 0 returns the head node itself; generation `g > 0` returns the data of generation `g` (`None` for a missing node), left to right; a negative generation runs no round and returns the head's data alone |
| Tracer.TraceRay | tracer.py:8-20 | with levels left and a ray in the node, the tree under it becomes `Grow` of the ray; with no levels left or no ray, no node changes; of the nodes that existed before, only the node itself may change (its pointers), and only new nodes are added; the tree stays valid (main.py:9-21 is the same function) |
| Tracer.Branch | tracer.py:13-20 | a node holding a ray gets two new children: `pointer_1` holds `reflect()`, `pointer_2` holds `refract()`, and each is traced one level less; no other node that existed before changes |
| Tracer.Sprout | tracer.py:14-18 | the two children are new leaves holding `reflect()` and `refract()`, hung under the node, whose data is unchanged |
| Tracer.GetAllRays | tracer.py:22-27 | the list is the pre-order of the traced tree: the head ray first, then the whole reflection subtree, then the refraction subtree (main.py:23-28 is the same function) |
| Tracer.GrowHeight | tracer.py:8-20 | no ray lies deeper than `k` levels below the head after tracing `k` levels |
| Tracer.GrowSize | tracer.py:8-20 | the traced tree has at most `2^(k+1) − 1` nodes, exactly that many when every node above level `k` holds a ray |
| Tracer.RayCount | tracer.py:22-27 | `get_all_rays` returns at most `2^(k+1) − 1` entries, with equality exactly when every ray above the last level holds a ray |
| Tracer.DefaultRayCount | main.py:23-28 | at the default depth of 3, `get_all_rays` returns at most 15 entries |
| Tracer.ReceiverHit | tracer.py:29-34 | `receiver_hit` returns the receivers of its input in input order, repeats kept |
| Tracer.ReceiversCount | tracer.py:29-34 | each receiver occurs in the result as often as in the input, and nothing else occurs |
| Tracer.ReceiversAppend | tracer.py:29-34 | filtering a concatenation filters each part in turn, so the input order is kept |
| Tracer.GetHitMedium | tracer.py:36-41 | `get_hit_medium` appends, for each ray that is not `None`, its medium and then its hit block |
| Tracer.HitMediaPairs | tracer.py:36-41 | the result has two entries per present ray: entry `2j` is the `j`-th ray's medium and entry `2j + 1` its hit block |

## Left out

- Drawing (`draw_boundary`, `draw_block`, `draw_map`, `draw_ray`), the pygame event loop, key handling and the scene literals of `main.py`: presentation and input. `Room` proves facts about a rectangular room of any size instead.
- `find_direction` (trigonometry): rays are built from a direction vector.
- Floating point. Coordinates are exact reals. `np.linalg.norm`, unit vectors and `np.sqrt` are uninterpreted. The near-singular behaviour of `np.linalg.inv` is not modelled: the model rejects only an exactly zero determinant.
- `Line.__init__`'s cached `unit_direction`, `unit_normal` and `line` arrays: they are always recomputed from `direction`, so the model recomputes them where they are used. The ray caches `normal`, and its `Valid` keeps it in step with the direction.
- `intersecting_point` (line_classes.py:45-50) is not a separate member: `ReflectRay` calls `FindLineIntersection` and `PointAt`, as it does.
- `Ray` inherits from `Line` in the source. Here the ray holds the line's fields, and `change_start`/`change_direction` are methods of the ray, the only line ever changed in place.
- The `block` module, where `Receiver` and `hit_block` live, is not part of this model. Being a receiver is a predicate parameter `isReceiver`. A ray's `medium` and `hit_block` are read through function parameters.
- Tracer.TraceRay: the ray type is a type parameter, and `reflect()`/`refract()` are the pure functions of `Optics`. The heap-allocating `Rays.Ray.Reflect`/`Refract` are not plugged in. Because rays are values, the model cannot mutate a ray; only `Node`s change.
- Tracer.TraceRay: `iteration` is a `nat`. With a negative iteration the source never reaches the stop at tracer.py:9 and recurses until every branch holds `None`, or until Python raises `RecursionError`. That unbounded recursion is not modelled.
- Tracer.GetAllRays: `iterations` is a `nat`, for the same reason; a negative count is passed straight to `trace_ray`.
- Tracer.TraceRay: the claim that the two children are new nodes holding `reflect()` and `refract()` is stated on `Tracer.Branch`, which `TraceRay` calls for that step, not repeated on `TraceRay` itself.
- Rays.MirrorPointReflects: `unit` is an uninterpreted function, so this lemma places the segment only along `unit(normal)`. The full mirror-image property needs `unit` to keep the normal's direction, and `Rays.MirrorPointIsMirrorImage` proves it under that premise.
- BinList.Node.Valid: the pointers are required to form a tree, with no node shared and no cycle. `trace_ray` only ever builds such trees. On a cyclic structure the source's `traverse` would recurse until Python raises `RecursionError`.
- BinList.BinTree.Traverse: the default argument `0` ("start at the head") is not a separate case; callers pass `headNode`.
- BinList.BinTree.GetDataList: the `else None` branch of the comprehension is dead, because `traverse` never lists `None`. The result holds `None` only where a node's data is `None`.
- BinList.BinTree.SearchGeneration: `Level` wraps the data of a present node in `Some` and gives `None` for a missing node. The source returns `node.data` itself, so there a present node holding `None` and a missing node both give `None`; the model keeps them apart.
- BinList.BinTree.SearchGeneration: the two result kinds (the head node for generation 0, a list otherwise) are the two constructors of `Generation`.
- BinList.ExpandGeneration: the inner loop of `search_generation` is its own method. The copy/reset of `next_generation_list` happens through its return value.
- Rays.Ray.Reflect: requires that `reflect_ray` returns a direction whenever a boundary was hit. When it does not, the source passes `None` into `Ray(...)`, which has no defined result.
- Rays.Ray.Refract: when a boundary was hit and its reflectivity is not 1, requires the medium's index and the index of the block the end point lies in to be non-zero. These are the two divisions at line_classes.py:252 and :264; past the early returns at :237-240 the source would raise `ZeroDivisionError` on either. Other blocks' indices are not required.
- Rays.Ray.MoveStart: requires the ray to be valid beforehand (the constructor makes it so). This only fixes the cached normal, which `move_start` does not recompute.
- `power`, `absorption_coeff`, `colour`, `name` and `__repr__` take part in no rule: they are carried along unchanged.
