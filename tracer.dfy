/**
 * The ray tree builder of `tracer.py` (repeated in `main.py`) and the two
 * list filters that read the scene off a traced tree.
 *
 * The ray type is a parameter: `Optics` supplies what `Ray.reflect` and
 * `Ray.refract` return, `None` where no ray leaves.  `trace_ray` is modelled
 * on the heap nodes of `BinList`; the shape it grows is `Grow`, a value.
 */
module Tracer {
  import opened Wrappers
  import opened BinList

  /** A ray's two successors: its reflection and its refraction. */
  datatype Optics<!R> = Optics(reflect: R -> Option<R>, refract: R -> Option<R>)

  /** The default depth of `get_all_rays`. */
  const DefaultIterations: nat := 3

  /**
   * The tree `trace_ray` grows under a fresh node holding `data` with
   * `iteration` levels to go: a missing ray or an exhausted budget is a
   * leaf; otherwise the reflection goes left and the refraction right.
   */
  function Grow<R>(optics: Optics<R>, data: Option<R>, iteration: nat): Tree<Option<R>>
    decreases iteration
  {
    if iteration == 0 || data.None? then Br(data, Nil, Nil)
    else Br(data, Grow(optics, optics.reflect(data.value), iteration - 1),
                  Grow(optics, optics.refract(data.value), iteration - 1))
  }

  /**
   * `trace_ray`: with levels to go and a ray in the node, hangs two fresh
   * nodes holding the ray's reflection and refraction under it (replacing
   * whatever hung there) and traces both one level less.  A `None` node, a
   * node without a ray, or no levels left change nothing.
   */
  method TraceRay<R>(optics: Optics<R>, rayNode: Node?<Option<R>>, iteration: nat)
    requires rayNode != null ==> rayNode.Valid()
    modifies if rayNode == null then {} else {rayNode}
    decreases iteration, 1
    ensures rayNode != null ==> rayNode.Valid() && rayNode.data == old(rayNode.data)
    ensures rayNode != null ==> fresh(rayNode.Repr - old(rayNode.Repr))
    ensures rayNode != null && iteration > 0 && rayNode.data.Some? ==>
              ShapeOf(rayNode) == Grow(optics, rayNode.data, iteration)
    ensures rayNode != null && (iteration == 0 || rayNode.data.None?) ==>
              unchanged(old(rayNode.Repr)) && rayNode.Repr == old(rayNode.Repr)
  {
    if iteration == 0 || rayNode == null {
      return;
    }
    var remaining := iteration - 1;
    var rayData := rayNode.data;
    if rayData.Some? {
      Branch(optics, rayNode, rayData.value, remaining);
      GrowStep(optics, rayData.value, remaining);
    }
  }

  /**
   * The step of `trace_ray` for a node holding a ray: the node gets two
   * fresh children holding the reflection and the refraction, each traced
   * `remaining` levels.
   */
  method Branch<R>(optics: Optics<R>, rayNode: Node<Option<R>>, ray: R, remaining: nat)
    requires rayNode.Valid() && rayNode.data == Some(ray)
    modifies rayNode
    decreases remaining + 1, 0
    ensures rayNode.Valid() && rayNode.data == Some(ray)
    ensures fresh(rayNode.Repr - old(rayNode.Repr))
    ensures rayNode.Shape == Br(Some(ray), Grow(optics, optics.reflect(ray), remaining),
                                           Grow(optics, optics.refract(ray), remaining))
    ensures rayNode.pointer1 != null && fresh(rayNode.pointer1) && rayNode.pointer1.data == optics.reflect(ray)
    ensures rayNode.pointer2 != null && fresh(rayNode.pointer2) && rayNode.pointer2.data == optics.refract(ray)
  {
    var reflectedNode, refractedNode := Sprout(optics, rayNode, ray);
    TraceRay(optics, reflectedNode, remaining);
    LeafGrow(optics, reflectedNode.data, remaining);
    assert rayNode !in reflectedNode.Repr && refractedNode !in reflectedNode.Repr;
    label Left:
    TraceRay(optics, refractedNode, remaining);
    LeafGrow(optics, refractedNode.data, remaining);
    Unchanged@Left(reflectedNode);
    Close(rayNode, reflectedNode, refractedNode);
  }

  /**
   * The first half of `trace_ray`'s step: two fresh leaves holding the ray's
   * reflection and refraction, hung under the node in place of its children.
   */
  method Sprout<R>(optics: Optics<R>, rayNode: Node<Option<R>>, ray: R)
      returns (reflectedNode: Node<Option<R>>, refractedNode: Node<Option<R>>)
    modifies rayNode`pointer1, rayNode`pointer2
    ensures fresh(reflectedNode) && fresh(refractedNode) && reflectedNode != refractedNode
    ensures reflectedNode.Valid() && reflectedNode.Repr == {reflectedNode}
    ensures refractedNode.Valid() && refractedNode.Repr == {refractedNode}
    ensures reflectedNode.data == optics.reflect(ray) && refractedNode.data == optics.refract(ray)
    ensures rayNode.pointer1 == reflectedNode && rayNode.pointer2 == refractedNode
    ensures rayNode.data == old(rayNode.data) && rayNode.Repr == old(rayNode.Repr)
  {
    reflectedNode := new Node(optics.reflect(ray));
    refractedNode := new Node(optics.refract(ray));
    rayNode.AddPoint(reflectedNode, refractedNode);
  }

  /** One level of `Grow` under a present ray. */
  lemma GrowStep<R>(optics: Optics<R>, ray: R, iteration: nat)
    ensures Grow(optics, Some(ray), iteration + 1)
         == Br(Some(ray), Grow(optics, optics.reflect(ray), iteration), Grow(optics, optics.refract(ray), iteration))
  {
  }

  /** A leaf is what `Grow` gives when nothing is traced under it. */
  lemma LeafGrow<R>(optics: Optics<R>, data: Option<R>, iteration: nat)
    ensures iteration == 0 || data.None? ==> Grow(optics, data, iteration) == Br(data, Nil, Nil)
  {
  }

  /**
   * `get_all_rays`: traces a head ray `iterations` levels deep and returns
   * the tree's data in pre-order, `None` for each ray that did not leave.
   */
  method GetAllRays<R>(optics: Optics<R>, headRay: R, iterations: nat) returns (dataList: seq<Option<R>>)
    ensures dataList == PreOrder(Grow(optics, Some(headRay), iterations))
    ensures dataList[0] == Some(headRay)
    ensures iterations > 0 ==>
              dataList == [Some(headRay)]
                          + PreOrder(Grow(optics, optics.reflect(headRay), iterations - 1))
                          + PreOrder(Grow(optics, optics.refract(headRay), iterations - 1))
  {
    var headNode := new Node(Some(headRay));
    TraceRay(optics, headNode, iterations);
    LeafGrow(optics, Some(headRay), iterations);
    if iterations > 0 {
      GrowStep(optics, headRay, iterations - 1);
    }
    var tree := new BinTree(headNode);
    dataList := tree.GetDataList();
  }

  /** The number of levels of a tree; a leaf has height one. */
  function Height<T>(t: Tree<T>): nat
  {
    match t
    case Nil => 0
    case Br(_, l, r) => 1 + (if Height(l) < Height(r) then Height(r) else Height(l))
  }

  /** No ray of the tree traced with `iteration` levels lies deeper than level `iteration`. */
  lemma {:induction false} GrowHeight<R>(optics: Optics<R>, data: Option<R>, iteration: nat)
    decreases iteration
    ensures 1 <= Height(Grow(optics, data, iteration)) <= iteration + 1
  {
    if iteration > 0 && data.Some? {
      var reflected, refracted := optics.reflect(data.value), optics.refract(data.value);
      var left, right := Grow(optics, reflected, iteration - 1), Grow(optics, refracted, iteration - 1);
      GrowHeight(optics, reflected, iteration - 1);
      GrowHeight(optics, refracted, iteration - 1);
      assert Grow(optics, data, iteration) == Br(data, left, right);
    } else {
      assert Height(Grow(optics, data, iteration)) == Height(Br(data, Nil, Nil)) == 1;
    }
  }

  /** Every node above level `k` holds a ray. */
  ghost predicate Saturated<R>(t: Tree<Option<R>>, k: nat)
  {
    k == 0 || (t.Br? && t.data.Some? && Saturated(t.left, k - 1) && Saturated(t.right, k - 1))
  }

  /** The tree traced with `k` levels has at most `2^(k+1) - 1` nodes, exactly that many when saturated. */
  lemma {:induction false} GrowSize<R>(optics: Optics<R>, data: Option<R>, iteration: nat)
    decreases iteration
    ensures Size(Grow(optics, data, iteration)) <= Pow2(iteration + 1) - 1
    ensures (Size(Grow(optics, data, iteration)) == Pow2(iteration + 1) - 1)
              == Saturated(Grow(optics, data, iteration), iteration)
  {
    if iteration > 0 {
      assert Pow2(iteration + 1) - 1 == 1 + 2 * (Pow2(iteration) - 1);
      if data.Some? {
        var reflected, refracted := optics.reflect(data.value), optics.refract(data.value);
        var left, right := Grow(optics, reflected, iteration - 1), Grow(optics, refracted, iteration - 1);
        GrowSize(optics, reflected, iteration - 1);
        GrowSize(optics, refracted, iteration - 1);
        assert Grow(optics, data, iteration) == Br(data, left, right);
      } else {
        PowAtLeastTwo(iteration);
      }
    }
  }

  /**
   * The list `get_all_rays` returns has at most `2^(k+1) - 1` entries, and
   * exactly that many when no entry above the last level is `None`: only a
   * node holding a ray is expanded, whatever its children then hold.
   */
  lemma RayCount<R>(optics: Optics<R>, data: Option<R>, iteration: nat)
    ensures |PreOrder(Grow(optics, data, iteration))| <= Pow2(iteration + 1) - 1
    ensures (|PreOrder(Grow(optics, data, iteration))| == Pow2(iteration + 1) - 1)
              == Saturated(Grow(optics, data, iteration), iteration)
  {
    PreOrderLength(Grow(optics, data, iteration));
    GrowSize(optics, data, iteration);
  }

  lemma {:induction false} PowAtLeastTwo(n: nat)
    requires n > 0
    ensures Pow2(n) >= 2
  {
    if n > 1 {
      PowAtLeastTwo(n - 1);
    }
  }

  /** With the default depth of three, `get_all_rays` returns at most fifteen entries. */
  lemma DefaultRayCount<R>(optics: Optics<R>, headRay: R)
    ensures |PreOrder(Grow(optics, Some(headRay), DefaultIterations))| <= 15
  {
    RayCount(optics, Some(headRay), DefaultIterations);
    assert Pow2(4) == 16;
  }

  /** The media in `med_list` that are receivers, in their order, repeats kept. */
  function Receivers<M>(medList: seq<M>, isReceiver: M -> bool): seq<M>
  {
    if medList == [] then []
    else
      var medium := medList[|medList| - 1];
      Receivers(medList[..|medList| - 1], isReceiver) + (if isReceiver(medium) then [medium] else [])
  }

  /**
   * `receiver_hit`: keeps the media that are receivers.  Whether a medium
   * is a `Receiver` is the predicate `isReceiver`.
   */
  method ReceiverHit<M>(medList: seq<M>, isReceiver: M -> bool) returns (hitList: seq<M>)
    ensures hitList == Receivers(medList, isReceiver)
  {
    hitList := [];
    for i := 0 to |medList|
      invariant hitList == Receivers(medList[..i], isReceiver)
    {
      assert medList[..i + 1][..i] == medList[..i];
      var medium := medList[i];
      if isReceiver(medium) {
        hitList := hitList + [medium];
      }
    }
    assert medList[..|medList|] == medList;
  }

  /** Each receiver occurs in the result as often as in the input; nothing else occurs. */
  lemma {:induction false} ReceiversCount<M>(medList: seq<M>, isReceiver: M -> bool)
    ensures forall m :: multiset(Receivers(medList, isReceiver))[m]
                          == if isReceiver(m) then multiset(medList)[m] else 0
  {
    if medList != [] {
      var init := medList[..|medList| - 1];
      ReceiversCount(init, isReceiver);
      assert medList == init + [medList[|medList| - 1]];
    }
  }

  /** Filtering a concatenation filters each part in turn: the input order is kept. */
  lemma {:induction false} ReceiversAppend<M>(a: seq<M>, b: seq<M>, isReceiver: M -> bool)
    ensures Receivers(a + b, isReceiver) == Receivers(a, isReceiver) + Receivers(b, isReceiver)
  {
    if b != [] {
      var init := b[..|b| - 1];
      ReceiversAppend(a, init, isReceiver);
      assert (a + b)[..|a + b| - 1] == a + init;
    } else {
      assert a + b == a;
    }
  }

  /** The rays present in a data list, in order. */
  function Rays<R>(dataList: seq<Option<R>>): seq<R>
  {
    if dataList == [] then []
    else
      var ray := dataList[|dataList| - 1];
      Rays(dataList[..|dataList| - 1]) + (if ray.Some? then [ray.value] else [])
  }

  /** The media of the present rays: each ray's medium followed by the block it hit. */
  function HitMedia<R, M>(dataList: seq<Option<R>>, medium: R -> M, hitBlock: R -> M): seq<M>
  {
    if dataList == [] then []
    else
      var ray := dataList[|dataList| - 1];
      HitMedia(dataList[..|dataList| - 1], medium, hitBlock)
        + (if ray.Some? then [medium(ray.value), hitBlock(ray.value)] else [])
  }

  /**
   * `get_hit_medium`: for every ray that is not `None`, its medium and then
   * its hit block.  The ray's `medium` field and `hit_block` are read
   * through `medium` and `hitBlock`.
   */
  method GetHitMedium<R, M>(dataList: seq<Option<R>>, medium: R -> M, hitBlock: R -> M)
    returns (hitBlocks: seq<M>)
    ensures hitBlocks == HitMedia(dataList, medium, hitBlock)
  {
    hitBlocks := [];
    for i := 0 to |dataList|
      invariant hitBlocks == HitMedia(dataList[..i], medium, hitBlock)
    {
      assert dataList[..i + 1][..i] == dataList[..i];
      var ray := dataList[i];
      if ray.Some? {
        hitBlocks := hitBlocks + [medium(ray.value), hitBlock(ray.value)];
      }
    }
    assert dataList[..|dataList|] == dataList;
  }

  /**
   * The hit media come in pairs, one pair per present ray in the ray order:
   * entry `2j` is the medium of the `j`-th ray and entry `2j + 1` the block it hit.
   */
  lemma {:induction false} HitMediaPairs<R, M>(dataList: seq<Option<R>>, medium: R -> M, hitBlock: R -> M)
    ensures |HitMedia(dataList, medium, hitBlock)| == 2 * |Rays(dataList)|
    ensures forall j :: 0 <= j < |Rays(dataList)| ==>
              HitMedia(dataList, medium, hitBlock)[2 * j] == medium(Rays(dataList)[j])
              && HitMedia(dataList, medium, hitBlock)[2 * j + 1] == hitBlock(Rays(dataList)[j])
  {
    if dataList != [] {
      HitMediaPairs(dataList[..|dataList| - 1], medium, hitBlock);
    }
  }
}
