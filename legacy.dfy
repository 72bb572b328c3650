/** The earlier, f64-only layer of src/lib/node.rs. Its `Node` is modelled by
    `Nodes.Node`: `Node::new` is the same code as in src/library/node.rs, and
    `new_random` differs only in drawing with `gen_range(0.0..1.0)` instead of
    `gen()`, both one value in [0, 1) per draw, which is all `Nodes.NewRandom`
    keeps. Its layer also holds an optional next layer. */
module LegacyLayers {
  import opened Wrappers
  import opened Randomness
  import opened Nodes

  datatype NodeLayer = NodeLayer(nodes: seq<Node>, nextNodeLayer: Option<NodeLayer>)

  /** The loop of `NodeLayer::new`: every slot the vector already has is
      overwritten with a node from `Node::new_random(previousNodeCount)`; the loop
      runs over the vector's current length and never grows it. */
  method FillExisting(nodes: seq<Node>, previousNodeCount: nat, rng: Generator)
    returns (filled: seq<Node>, rest: Generator)
    ensures |filled| == |nodes|
    ensures forall k :: 0 <= k < |filled| ==> HasFanIn(filled[k], previousNodeCount)
    ensures rng.Valid() ==>
      forall k :: 0 <= k < |filled| ==> RandomlyInitialised(filled[k], previousNodeCount)
    ensures rest.sample == rng.sample
    ensures rest.next == rng.next + |nodes| * (2 * previousNodeCount)
  {
    filled, rest := nodes, rng;
    for i := 0 to |nodes|
      invariant |filled| == |nodes|
      invariant forall k :: 0 <= k < i ==> HasFanIn(filled[k], previousNodeCount)
      invariant rng.Valid() ==>
        rest.Valid() && forall k :: 0 <= k < i ==> RandomlyInitialised(filled[k], previousNodeCount)
      invariant rest.sample == rng.sample
      invariant rest.next == rng.next + i * (2 * previousNodeCount)
    {
      var drawn := Nodes.NewRandom(previousNodeCount, rest);
      filled, rest := filled[i := drawn.0], drawn.1;
    }
  }

  /** `NodeLayer::new` as written: the vector is created with room for `capacity`
      nodes but with length 0, and the filling loop runs over that length, so no
      node is ever drawn. The layer is empty whatever `capacity` is, and it has no
      next layer. */
  method New(previousNodeCount: nat, capacity: nat, rng: Generator)
    returns (layer: NodeLayer, rest: Generator)
    ensures layer.nodes == [] && layer.nextNodeLayer == None
    ensures rest.sample == rng.sample && rest.next == rng.next
  {
    var nodes: seq<Node> := [];
    nodes, rest := FillExisting(nodes, previousNodeCount, rng);
    layer := NodeLayer(nodes, None);
  }
}
