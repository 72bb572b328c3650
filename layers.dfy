/** A layer of nodes (`NodeLayer<T>` in src/library/node.rs): an ordered sequence
    of nodes that all read the same input vector, one output per node. The
    datatype constructor is `NodeLayer::new_from_nodes`, which checks nothing. */
module Layers {
  import opened Wrappers
  import opened Randomness
  import opened Nodes

  datatype NodeLayer = NodeLayer(nodes: seq<Node>)

  /** Every node of the layer accepts `fanIn` connections. */
  predicate Uniform(layer: NodeLayer, fanIn: nat)
  {
    forall k :: 0 <= k < |layer.nodes| ==> HasFanIn(layer.nodes[k], fanIn)
  }

  /** The outputs of `nodes` on `input`, node by node from the first: the first
      node whose evaluation fails stops the whole evaluation with its error. */
  function Outputs(nodes: seq<Node>, input: seq<real>): (r: Result<seq<real>, EvalError>)
    ensures r.Ok? ==> |r.value| == |nodes|
    ensures nodes != [] && input == [] ==> r == Err(EmptyInput)
    decreases |nodes|
  {
    if nodes == [] then Ok([])
    else
      match Outputs(nodes[..|nodes| - 1], input)
      case Err(e) => Err(e)
      case Ok(done) =>
        match Output(nodes[|nodes| - 1], input)
        case Err(e) => Err(e)
        case Ok(v) => Ok(done + [v])
  }

  /** What a layer's evaluation means: it succeeds exactly when every node's does;
      then there is one output per node, in node order; otherwise its error is that
      of the first node that fails. */
  lemma {:induction false} OutputsMeaning(nodes: seq<Node>, input: seq<real>)
    ensures Outputs(nodes, input).Ok? <==>
      forall k :: 0 <= k < |nodes| ==> Output(nodes[k], input).Ok?
    ensures Outputs(nodes, input).Ok? ==>
      |Outputs(nodes, input).value| == |nodes| &&
      forall k :: 0 <= k < |nodes| ==> Outputs(nodes, input).value[k] == Output(nodes[k], input).value
    ensures Outputs(nodes, input).Err? ==>
      exists k :: 0 <= k < |nodes| && Output(nodes[k], input) == Err(Outputs(nodes, input).error) &&
        forall j :: 0 <= j < k ==> Output(nodes[j], input).Ok?
    decreases |nodes|
  {
    if nodes != [] {
      var init := nodes[..|nodes| - 1];
      OutputsMeaning(init, input);
      assert forall k :: 0 <= k < |init| ==> init[k] == nodes[k];
    }
  }

  /** Once a prefix of the nodes fails, the remaining nodes do not change the
      outcome: the layer's evaluation fails with the prefix's error. */
  lemma {:induction false} FailureIsFinal(nodes: seq<Node>, input: seq<real>, i: nat)
    requires i <= |nodes| && Outputs(nodes[..i], input).Err?
    ensures Outputs(nodes, input) == Outputs(nodes[..i], input)
    decreases |nodes| - i
  {
    if i < |nodes| {
      assert nodes[..i + 1][..i] == nodes[..i];
      FailureIsFinal(nodes, input, i + 1);
    } else {
      assert nodes[..i] == nodes;
    }
  }

  /** `NodeLayer::evaluate`: the loop that pushes each node's output in turn. */
  method Evaluate(layer: NodeLayer, input: seq<real>) returns (r: Result<seq<real>, EvalError>)
    ensures r == Outputs(layer.nodes, input)
  {
    var output: seq<real> := [];
    for i := 0 to |layer.nodes|
      invariant Outputs(layer.nodes[..i], input) == Ok(output)
    {
      var v := Nodes.Evaluate(layer.nodes[i], input);
      assert layer.nodes[..i + 1][..i] == layer.nodes[..i];
      if v.Err? {
        FailureIsFinal(layer.nodes, input, i + 1);
        return Err(v.error);
      }
      output := output + [v.value];
    }
    assert layer.nodes[..|layer.nodes|] == layer.nodes;
    return Ok(output);
  }

  /** `NodeLayer::new_random`: `capacity` nodes, each built by `Node::new_random`
      with `previousNodeCount` connections, drawing from the generator in turn. */
  method NewRandom(previousNodeCount: nat, capacity: nat, rng: Generator)
    returns (layer: NodeLayer, rest: Generator)
    ensures |layer.nodes| == capacity && Uniform(layer, previousNodeCount)
    ensures rng.Valid() ==>
      forall k :: 0 <= k < capacity ==> RandomlyInitialised(layer.nodes[k], previousNodeCount)
    ensures rest.sample == rng.sample
    ensures rest.next == rng.next + capacity * (2 * previousNodeCount)
  {
    var nodes: seq<Node> := [];
    rest := rng;
    for i := 0 to capacity
      invariant |nodes| == i
      invariant forall k :: 0 <= k < i ==> HasFanIn(nodes[k], previousNodeCount)
      invariant rng.Valid() ==>
        rest.Valid() && forall k :: 0 <= k < i ==> RandomlyInitialised(nodes[k], previousNodeCount)
      invariant rest.sample == rng.sample
      invariant rest.next == rng.next + i * (2 * previousNodeCount)
    {
      var drawn := Nodes.NewRandom(previousNodeCount, rest);
      nodes, rest := nodes + [drawn.0], drawn.1;
    }
    layer := NodeLayer(nodes);
  }

  /** A layer whose nodes all have the input's length as fan-in evaluates to one
      output per node, whatever the input values, as long as the input is not
      empty. */
  lemma UniformLayerEvaluates(layer: NodeLayer, input: seq<real>)
    requires Uniform(layer, |input|) && |input| > 0
    ensures Outputs(layer.nodes, input).Ok?
    ensures |Outputs(layer.nodes, input).value| == |layer.nodes|
  {
    OutputsMeaning(layer.nodes, input);
  }

  /** A layer whose nodes were all randomly initialised, fed a non-empty input of
      matching length with values in [0, 1], yields one output per node, each in
      [0, 2). */
  lemma RandomLayerOutputBounds(layer: NodeLayer, fanIn: nat, input: seq<real>)
    requires forall k :: 0 <= k < |layer.nodes| ==> RandomlyInitialised(layer.nodes[k], fanIn)
    requires |input| == fanIn > 0
    requires forall i :: 0 <= i < |input| ==> 0.0 <= input[i] <= 1.0
    ensures Outputs(layer.nodes, input).Ok?
    ensures |Outputs(layer.nodes, input).value| == |layer.nodes|
    ensures forall k :: 0 <= k < |layer.nodes| ==>
      0.0 <= Outputs(layer.nodes, input).value[k] < 2.0
  {
    forall k | 0 <= k < |layer.nodes|
      ensures Output(layer.nodes[k], input).Ok? && 0.0 <= Output(layer.nodes[k], input).value < 2.0
    {
      RandomNodeOutputBounds(layer.nodes[k], input);
    }
    OutputsMeaning(layer.nodes, input);
  }
}
