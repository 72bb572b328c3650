/** The network (`LayerList<T>` in src/library/node.rs): the input values and the
    ordered layers, layer 0 nearest the input. The source declares the structure
    but its whole-network `evaluate` is commented out; `Forward` is the fold that
    commented-out code and the documented data flow describe, and is intent, not
    shipped behaviour. */
module Network {
  import opened Wrappers
  import opened Nodes
  import opened Layers

  /** `InputLayer<T>`: the network's entry vector; its datatype constructor is
      `InputLayer::new`. */
  datatype InputLayer = InputLayer(nodes: seq<real>)

  datatype LayerList = LayerList(layers: seq<NodeLayer>, inputLayer: InputLayer)

  /** The forward pass: each layer evaluates the previous layer's output, the first
      layer the input; the first failing layer stops the pass with its error. */
  function Forward(layers: seq<NodeLayer>, input: seq<real>): (r: Result<seq<real>, EvalError>)
    ensures layers == [] ==> r == Ok(input)
    ensures r.Ok? && layers != [] ==> |r.value| == |layers[|layers| - 1].nodes|
    decreases |layers|
  {
    if layers == [] then Ok(input)
    else
      match Outputs(layers[0].nodes, input)
      case Err(e) => Err(e)
      case Ok(next) => Forward(layers[1..], next)
  }

  /** The forward pass of a whole layer list, from its own input layer. */
  function Evaluate(list: LayerList): (r: Result<seq<real>, EvalError>)
    ensures list.layers == [] ==> r == Ok(list.inputLayer.nodes)
    ensures r.Ok? && list.layers != [] ==>
      |r.value| == |list.layers[|list.layers| - 1].nodes|
  {
    Forward(list.layers, list.inputLayer.nodes)
  }

  /** The layers are shaped for an input of `width` values: no layer is empty, the
      first layer's nodes take `width` inputs and every later layer's nodes take as
      many inputs as the layer before has nodes. */
  predicate Chained(width: nat, layers: seq<NodeLayer>)
    decreases |layers|
  {
    layers != [] ==>
      |layers[0].nodes| > 0 && Uniform(layers[0], width) && Chained(|layers[0].nodes|, layers[1..])
  }

  /** Appending a layer to the list adds one more stage at the output end of the
      forward pass. */
  lemma {:induction false} ForwardAppend(layers: seq<NodeLayer>, layer: NodeLayer, input: seq<real>)
    ensures Forward(layers + [layer], input) ==
      match Forward(layers, input)
      case Err(e) => Err(e)
      case Ok(last) => Outputs(layer.nodes, last)
    decreases |layers|
  {
    if layers != [] {
      assert (layers + [layer])[0] == layers[0];
      assert (layers + [layer])[1..] == layers[1..] + [layer];
      match Outputs(layers[0].nodes, input)
      case Err(e) =>
      case Ok(next) => ForwardAppend(layers[1..], layer, next);
    }
  }

  /** A network whose layers are chained to a non-empty input always evaluates, and
      its output has one value per node of the last layer (the input itself when
      there are no layers). */
  lemma {:induction false} ChainedNetworkEvaluates(layers: seq<NodeLayer>, input: seq<real>)
    requires |input| > 0 && Chained(|input|, layers)
    ensures Forward(layers, input).Ok?
    ensures |Forward(layers, input).value| ==
      if layers == [] then |input| else |layers[|layers| - 1].nodes|
    decreases |layers|
  {
    if layers != [] {
      UniformLayerEvaluates(layers[0], input);
      var next := Outputs(layers[0].nodes, input).value;
      ChainedNetworkEvaluates(layers[1..], next);
    }
  }
}
