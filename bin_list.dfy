/**
 * The ray tree of `bin_list.py`: binary nodes whose two child pointers are
 * set in place, and a tree wrapper that flattens the nodes in pre-order and
 * lists one generation at a time.
 *
 * Each node carries a ghost footprint `Repr`, the set of nodes reachable
 * from it, and a ghost `Shape`, the tree under it as a `Tree` value;
 * `Valid` says the pointers form a tree (no sharing, no cycles) that
 * `Shape` records, and the walks are specified against that value.
 */
module BinList {
  import opened Wrappers

  /** The shape under a node: `Nil` for a missing child (`None`). */
  datatype Tree<T> = Nil | Br(data: T, left: Tree<T>, right: Tree<T>)

  /** The data of a tree, node first, then the left subtree, then the right. */
  function PreOrder<T>(t: Tree<T>): seq<T>
  {
    match t
    case Nil => []
    case Br(d, l, r) => [d] + PreOrder(l) + PreOrder(r)
  }

  /** The number of nodes in a tree. */
  function Size<T>(t: Tree<T>): nat
  {
    match t
    case Nil => 0
    case Br(_, l, r) => 1 + Size(l) + Size(r)
  }

  /** A pre-order listing has one entry per node. */
  lemma {:induction false} PreOrderLength<T>(t: Tree<T>)
    ensures |PreOrder(t)| == Size(t)
  {
    match t
    case Nil =>
    case Br(_, l, r) =>
      PreOrderLength(l);
      PreOrderLength(r);
  }

  class Node<T> {
    var data: T
    var pointer1: Node?<T>
    var pointer2: Node?<T>
    /** The nodes of the tree under this one. */
    ghost var Repr: set<Node<T>>
    /** The shape of the tree under this one. */
    ghost var Shape: Tree<T>

    /**
     * The pointers form a tree (no node reached twice) whose nodes all lie
     * in `Repr`, and `Shape` records it.
     */
    ghost predicate Valid()
      reads this, Repr
      decreases Repr
    {
      && this in Repr
      && (pointer1 != null ==>
            pointer1 in Repr && pointer1.Repr <= Repr && this !in pointer1.Repr && pointer1.Valid())
      && (pointer2 != null ==>
            pointer2 in Repr && pointer2.Repr <= Repr && this !in pointer2.Repr && pointer2.Valid())
      && (pointer1 != null && pointer2 != null ==> pointer1.Repr !! pointer2.Repr)
      && Shape == Br(data, ShapeOf(pointer1), ShapeOf(pointer2))
    }

    /** `Node(data)`: a leaf holding `data`, both pointers `None`. */
    constructor (data: T)
      ensures this.data == data && pointer1 == null && pointer2 == null
      ensures Valid() && Repr == {this} && Shape == Br(data, Nil, Nil)
    {
      this.data := data;
      pointer1 := null;
      pointer2 := null;
      Repr := {this};
      Shape := Br(data, Nil, Nil);
    }

    /** `add_point`: overwrites both pointers and nothing else. */
    method AddPoint(node1: Node?<T>, node2: Node?<T>)
      modifies this`pointer1, this`pointer2
      ensures pointer1 == node1 && pointer2 == node2
      ensures data == old(data) && Repr == old(Repr) && Shape == old(Shape)
    {
      pointer1 := node1;
      pointer2 := node2;
    }
  }

  /** The nodes a valid node (or `None`) reaches. */
  ghost function Reach<T>(node: Node?<T>): set<Node<T>>
    reads node
  {
    if node == null then {} else node.Repr
  }

  /** The shape under a node; `Nil` for `None`. */
  ghost function ShapeOf<T>(node: Node?<T>): Tree<T>
    reads node
  {
    if node == null then Nil else node.Shape
  }

  /** The children of a valid node are valid, and its shape is built from theirs. */
  lemma Unfold<T>(node: Node<T>)
    requires node.Valid()
    ensures node.pointer1 == null || node.pointer1.Valid()
    ensures node.pointer2 == null || node.pointer2.Valid()
    ensures ShapeOf(node) == Br(node.data, ShapeOf(node.pointer1), ShapeOf(node.pointer2))
    ensures node.pointer1 != null ==> node.pointer1 in node.Repr && node.pointer1.Repr < node.Repr
    ensures node.pointer2 != null ==> node.pointer2 in node.Repr && node.pointer2.Repr < node.Repr
  {
  }

  /** A valid tree none of whose nodes changed is still valid and keeps its shape. */
  twostate lemma Unchanged<T>(node: Node<T>)
    requires old(node.Valid())
    requires unchanged(old(node.Repr))
    ensures node.Valid() && node.Repr == old(node.Repr) && node.Shape == old(node.Shape)
  {
  }

  /**
   * Records two valid, disjoint trees hung under a node outside both as the
   * node's own tree, which is then valid.
   */
  ghost method Close<T>(node: Node<T>, left: Node<T>, right: Node<T>)
    requires node.pointer1 == left && node.pointer2 == right
    requires left.Valid() && right.Valid()
    requires left.Repr !! right.Repr && node !in left.Repr && node !in right.Repr
    modifies node`Repr, node`Shape
    ensures node.Valid()
    ensures node.Repr == {node} + left.Repr + right.Repr
    ensures node.Shape == Br(node.data, left.Shape, right.Shape)
  {
    node.Repr := {node} + left.Repr + right.Repr;
    node.Shape := Br(node.data, left.Shape, right.Shape);
    assert left.Valid() && right.Valid();
  }

  /** Joining a node to the walks of two disjoint subtrees that miss it keeps the walk free of repeats. */
  lemma JoinDistinct<T>(node: Node<T>, a: seq<Node<T>>, b: seq<Node<T>>, sa: set<Node<T>>, sb: set<Node<T>>)
    requires forall i :: 0 <= i < |a| ==> a[i] in sa
    requires forall i :: 0 <= i < |b| ==> b[i] in sb
    requires forall i, j :: 0 <= i < j < |a| ==> a[i] != a[j]
    requires forall i, j :: 0 <= i < j < |b| ==> b[i] != b[j]
    requires sa !! sb && node !in sa && node !in sb
    ensures forall i :: 0 <= i < |[node] + a + b| ==> ([node] + a + b)[i] in {node} + sa + sb
    ensures forall i, j :: 0 <= i < j < |[node] + a + b| ==> ([node] + a + b)[i] != ([node] + a + b)[j]
  {
    var r := [node] + a + b;
    forall i, j | 0 <= i < j < |r|
      ensures r[i] != r[j]
    {
      if i == 0 {
        assert r[j] in sa + sb;
      } else if i <= |a| && j > |a| {
        assert r[i] == a[i - 1] && r[j] == b[j - 1 - |a|];
      }
    }
  }

  /** The data of a joined walk is the joined data when the pieces agree entry by entry. */
  lemma JoinData<T>(node: Node<T>, a: seq<Node<T>>, b: seq<Node<T>>, da: seq<T>, db: seq<T>)
    requires |a| == |da| && |b| == |db|
    requires forall i :: 0 <= i < |a| ==> a[i].data == da[i]
    requires forall i :: 0 <= i < |b| ==> b[i].data == db[i]
    ensures forall i :: 0 <= i < 1 + |a| + |b| ==> ([node] + a + b)[i].data == ([node.data] + da + db)[i]
  {
  }

  /** What `search_generation` returns: the head node itself for generation 0, else a list. */
  datatype Generation<T> = HeadNode(node: Node?<T>) | Level(entries: seq<Option<T>>)

  /** The subtrees one generation down: both children of every node, skipping missing ones. */
  function Next<T>(ts: seq<Tree<T>>): seq<Tree<T>>
  {
    if ts == [] then []
    else
      var last := ts[|ts| - 1];
      Next(ts[..|ts| - 1]) + (if last.Br? then [last.left, last.right] else [])
  }

  /** The subtrees at generation `g` (the root is generation 0), missing ones included as `Nil`. */
  function Gen<T>(t: Tree<T>, g: nat): seq<Tree<T>>
  {
    if g == 0 then [t] else Next(Gen(t, g - 1))
  }

  /** The entries `search_generation` reports: a missing node is `None`. */
  function Entries<T>(ts: seq<Tree<T>>): seq<Option<T>>
  {
    seq(|ts|, k requires 0 <= k < |ts| => if ts[k].Nil? then None else Some(ts[k].data))
  }

  /** `Next` on a prefix grows by the children of the following entry. */
  lemma NextStep<T>(ts: seq<Tree<T>>, j: nat)
    requires j < |ts|
    ensures Next(ts[..j + 1]) == Next(ts[..j]) + (if ts[j].Br? then [ts[j].left, ts[j].right] else [])
  {
    assert ts[..j + 1][..j] == ts[..j];
  }

  /** How many of `ts` are actual nodes. */
  function CountBr<T>(ts: seq<Tree<T>>): nat
  {
    if ts == [] then 0
    else CountBr(ts[..|ts| - 1]) + (if ts[|ts| - 1].Br? then 1 else 0)
  }

  function Pow2(n: nat): nat
  {
    if n == 0 then 1 else 2 * Pow2(n - 1)
  }

  /** Every actual node contributes exactly two entries to the next generation. */
  lemma {:induction false} NextLength<T>(ts: seq<Tree<T>>)
    ensures |Next(ts)| == 2 * CountBr(ts) <= 2 * |ts|
  {
    if ts != [] {
      NextLength(ts[..|ts| - 1]);
    }
  }

  /** Generation `g` has at most `2^g` entries. */
  lemma {:induction false} GenBound<T>(t: Tree<T>, g: nat)
    ensures |Gen(t, g)| <= Pow2(g)
  {
    if g > 0 {
      GenBound(t, g - 1);
      NextLength(Gen(t, g - 1));
    }
  }

  /**
   * A generation past the root lists two entries per node of the generation
   * before it, hence at most `2^g` entries.
   */
  lemma LevelLength<T>(t: Tree<T>, g: nat)
    requires g > 0
    ensures |Entries(Gen(t, g))| == 2 * CountBr(Gen(t, g - 1)) <= Pow2(g)
  {
    NextLength(Gen(t, g - 1));
    GenBound(t, g);
  }

  /**
   * The inner loop of `search_generation`: both pointers of every present
   * node, in order; a `None` entry contributes nothing.
   */
  method ExpandGeneration<T>(currentGenerationList: seq<Node?<T>>, ghost ts: seq<Tree<T>>)
    returns (nextGenerationList: seq<Node?<T>>)
    requires |currentGenerationList| == |ts|
    requires forall k :: 0 <= k < |currentGenerationList| ==>
               (currentGenerationList[k] == null || currentGenerationList[k].Valid())
               && ShapeOf(currentGenerationList[k]) == ts[k]
    ensures |nextGenerationList| == |Next(ts)|
    ensures forall k :: 0 <= k < |nextGenerationList| ==>
              (nextGenerationList[k] == null || nextGenerationList[k].Valid())
              && ShapeOf(nextGenerationList[k]) == Next(ts)[k]
  {
    nextGenerationList := [];
    for j := 0 to |currentGenerationList|
      invariant |nextGenerationList| == |Next(ts[..j])|
      invariant forall k :: 0 <= k < |nextGenerationList| ==>
                  (nextGenerationList[k] == null || nextGenerationList[k].Valid())
                  && ShapeOf(nextGenerationList[k]) == Next(ts[..j])[k]
    {
      NextStep(ts, j);
      var node := currentGenerationList[j];
      if node != null {
        Unfold(node);
        nextGenerationList := nextGenerationList + [node.pointer1, node.pointer2];
      }
    }
    assert ts[..|currentGenerationList|] == ts;
  }

  class BinTree<T> {
    const headNode: Node?<T>

    ghost predicate Valid()
      reads if headNode == null then {} else {headNode} + headNode.Repr
    {
      headNode == null || headNode.Valid()
    }

    constructor (headNode: Node?<T>)
      ensures this.headNode == headNode
    {
      this.headNode := headNode;
    }

    /**
     * `traverse`: the nodes under `node` in pre-order, `[]` for `None`.
     * (The source's default argument `0` stands for the head node; call
     * it with `headNode`.)  Every reachable node appears, exactly once.
     */
    function Traverse(node: Node?<T>): (r: seq<Node<T>>)
      requires node == null || node.Valid()
      reads if node == null then {} else {node} + node.Repr
      decreases Reach(node)
      ensures node != null ==> |r| > 0 && r[0] == node
      ensures forall i :: 0 <= i < |r| ==> r[i] in Reach(node)
      ensures |r| == |PreOrder(ShapeOf(node))|
      ensures forall i :: 0 <= i < |r| ==> r[i].data == PreOrder(ShapeOf(node))[i]
    {
      if node == null then []
      else
        var leftNode := node.pointer1;
        var rightNode := node.pointer2;
        Unfold(node);
        var a, b := Traverse(leftNode), Traverse(rightNode);
        JoinData(node, a, b, PreOrder(ShapeOf(leftNode)), PreOrder(ShapeOf(rightNode)));
        [node] + a + b
    }

    /** Every node reachable from `node` appears in its traversal exactly once. */
    lemma {:induction false} TraverseVisitsEachOnce(node: Node?<T>)
      requires node == null || node.Valid()
      decreases Reach(node)
      ensures forall i, j :: 0 <= i < j < |Traverse(node)| ==> Traverse(node)[i] != Traverse(node)[j]
      ensures |Traverse(node)| == Size(ShapeOf(node))
    {
      if node != null {
        Unfold(node);
        TraverseVisitsEachOnce(node.pointer1);
        TraverseVisitsEachOnce(node.pointer2);
        JoinDistinct(node, Traverse(node.pointer1), Traverse(node.pointer2), Reach(node.pointer1), Reach(node.pointer2));
      }
    }

    /** `get_data_list`: the data of the traversed nodes, in the same order. */
    function GetDataList(): (r: seq<T>)
      requires Valid()
      reads if headNode == null then {} else {headNode} + headNode.Repr
      ensures r == PreOrder(ShapeOf(headNode))
    {
      var tree := Traverse(headNode);
      seq(|tree|, i requires 0 <= i < |tree| reads tree => tree[i].data)
    }

    /**
     * `search_generation`: the head node itself for generation 0; otherwise
     * the data of generation `g`, built by expanding both pointers of every
     * present node of the previous generation, left to right.  A negative
     * generation runs no round (`range` is empty) and lists the head alone.
     */
    method SearchGeneration(generation: int) returns (r: Generation<T>)
      requires Valid()
      ensures generation == 0 ==> r == HeadNode(headNode)
      ensures generation > 0 ==> r == Level(Entries(Gen(ShapeOf(headNode), generation)))
      ensures generation < 0 ==> r == Level(Entries([ShapeOf(headNode)]))
    {
      if generation == 0 {
        return HeadNode(headNode);
      }
      ghost var t := ShapeOf(headNode);
      var rounds := if generation < 0 then 0 else generation;
      var currentGenerationList: seq<Node?<T>> := [headNode];
      for i := 0 to rounds
        invariant |currentGenerationList| == |Gen(t, i)|
        invariant forall k :: 0 <= k < |currentGenerationList| ==>
                    (currentGenerationList[k] == null || currentGenerationList[k].Valid())
                    && ShapeOf(currentGenerationList[k]) == Gen(t, i)[k]
      {
        currentGenerationList := ExpandGeneration(currentGenerationList, Gen(t, i));
      }
      var cur := currentGenerationList;
      var generationList := seq(|cur|, k requires 0 <= k < |cur| reads cur =>
        if cur[k] != null then Some(cur[k].data) else None);
      return Level(generationList);
    }
  }
}
