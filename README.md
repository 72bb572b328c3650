# Feed-forward node and layer evaluator, modelled in Dafny

This project models the core of a small Rust neural-network crate: a **node**,
a **node layer**, and the holders that would make up a **network**.

- A node holds one weight and one bias **per incoming connection**. Biases are
  per connection, not one per node. The node evaluates to the mean over the
  connections of `weight * input + bias`.
- A node layer evaluates every node on the same input and keeps node order.
- Nodes and layers are built from explicit vectors, or from random draws in
  [0, 1).

Two versions of the source are modelled:

- `src/library/node.rs`, the generic version. Modules `Nodes`, `Layers` and
  `Network`.
- `src/lib/node.rs`, an earlier f64-only version. `Nodes.Node`, `Nodes.New`
  and `Nodes.NewRandom` model its node too. `Node::new` is the same code in
  both versions. `new_random` differs only in drawing with
  `gen_range(0.0..1.0)` instead of `gen()`. Each is one value in [0, 1) per
  draw, which is all `Generator.Valid()` keeps. Its different `NodeLayer`
  (with an optional next layer and a faulty constructor) is module
  `LegacyLayers`.

How the Rust is represented:

- Scalars (`T: NodeAble<T>`, and `f64`) are Dafny `real`.
- A panic, or the missing number from a division by zero, is an `Err` of a
  `Result`.
- `Vec`s are sequences, and the source's loops are `method`s with loops.
  `Nodes.Evaluate` and `Layers.Evaluate` are proved equal to a specification
  function. `Layers.NewRandom` and `LegacyLayers.FillExisting` are proved
  against `ensures` about the length, the fan-in and the value range of what
  they build.
- `rand::thread_rng()` is replaced by a caller-supplied `Generator`. It has a
  stream of samples and a cursor, and its `Valid()` says every sample is in
  [0, 1).
- The source spells the node evaluation `evalute`. Here it is
  `Nodes.Evaluate` (the loop) and `Nodes.Output` (its specification).
- `NodeLayer::new_from_nodes` is the datatype constructor `Layers.NodeLayer`.
  `InputLayer::new` is the datatype constructor `Network.InputLayer`. Both take
  their argument unchecked.

Four places where the code does less than its comments and structure suggest:

- Nothing checks that a node's input length equals its fan-in. `Node::evalute`
  only asserts that the input length equals itself. So a shorter input is
  accepted and the extra weights and biases are ignored
  (`Nodes.ShortInputIgnoresExtraConnections`). A longer input panics on an
  out-of-bounds index. `Nodes.OutputChecked` is the evaluation the field
  comments describe; see "## Findings".
- `LayerList` declares a network but its whole-network `evaluate` is commented
  out. `Network.Forward` is that evaluation, written as the evident intent.
  The source does not run it.
- The "fills unset values with 0's" comment on `Node::new` sits over
  `unwrap_or(Vec::with_capacity(..))`, which gives an empty vector. So an
  omitted vector is accepted only for capacity 0
  (`Nodes.OmittedVectorNeedsZeroCapacity`). `Nodes.NewZeroFilled` is the
  documented intent; see "## Findings".
- The earlier `NodeLayer::new` says it fills its nodes with
  `Node::new_random()`, but its loop runs over a vector that was just created
  empty and never executes. The layer always has zero nodes (`LegacyLayers.New`).
  `Layers.NewRandom` is the intended construction; see "## Findings".

## Model

| member | source | states |
|---|---|---|
| Nodes.New | src/library/node.rs:26-39 | Construction succeeds exactly when the weights and the biases each have `capacity` elements, an omitted vector counting as empty. The result then has fan-in `capacity` and holds the given vectors. A weights mismatch is reported first, with the length found. |
| Nodes.OmittedVectorNeedsZeroCapacity | src/library/node.rs:24-32 | When either vector is omitted, construction succeeds only for capacity 0 and yields the empty node, despite the "fills unset values with 0's" comment. |
| Nodes.OmittedWeightsRejected | src/lib/node.rs:16-23 | Concrete case of the gap: capacity 1 with no weights fails with a weights-length error (found 0, expected 1). |
| Nodes.NewZeroFilled | src/library/node.rs:24-25 | The documented intent: construction succeeds exactly when every GIVEN vector has `capacity` elements. An omitted vector becomes `capacity` zeros, and given values are kept position by position. |
| Nodes.ZeroFilledNodeOutputsZero | src/library/node.rs:25-29 | A node built with both vectors omitted and zero-filled outputs exactly 0 on every non-empty input of its fan-in. |
| Nodes.NewRandom | src/library/node.rs:42-54 | A random node has exactly `capacity` weights and `capacity` biases. It consumes 2 * `capacity` draws. From a valid generator every weight and bias is in [0, 1) and the generator stays valid. |
| Nodes.Output | src/library/node.rs:56-71 | Evaluation succeeds exactly when the input is non-empty and no longer than the weights or the biases. A longer input fails at index min(weights, biases), the first index the loop cannot read. An empty input fails on the division by zero. |
| Nodes.Evaluate | src/library/node.rs:56-71 | The accumulating loop returns exactly `Output`: the left-to-right sum of `weight * input + bias` over the input's indices, divided by the input length, or the same error. |
| Nodes.PerConnectionBias | src/library/node.rs:63-69 | Weights [2, 3], biases [1, 1] and input [1, 1] give 3.5: each connection adds its own bias before the division by the input length. |
| Nodes.AccumulatedPrefix | src/library/node.rs:63-67 | The sum over the first k connections depends only on the first k weights and biases. |
| Nodes.ShortInputIgnoresExtraConnections | src/library/node.rs:59-65 | The vacuous length assertion lets an input shorter than the fan-in through. The node then evaluates as if cut down to its first `input.len()` connections. |
| Nodes.OutputChecked | src/library/node.rs:14-19 | The intended evaluation: it succeeds exactly when the input is non-empty and as long as both the weights and the biases. It then equals `Output`. Otherwise it fails with the input length and the expected one, weights checked first. |
| Nodes.ShortInputAccepted | src/library/node.rs:59-65 | Concrete case of the gap: a node with two connections evaluates a one-value input to 2 as written, and the length-checked version rejects it (found 1, expected 2). |
| Nodes.ZeroParametersOutputZero | src/library/node.rs:58-69 | A node whose weights and biases are all zero outputs 0 on every non-empty input of its fan-in. |
| Nodes.AccumulatedBounds | src/library/node.rs:63-67 | With weights and biases in [0, 1) and inputs in [0, 1], the partial sum over k > 0 connections is in [0, 2k). |
| Nodes.RandomNodeOutputBounds | src/library/node.rs:41-71 | A node with weights and biases in [0, 1) (what `new_random` draws), given a non-empty input of its fan-in with values in [0, 1], evaluates successfully to a value in [0, 2). |
| Layers.Outputs | src/library/node.rs:110-123 | The specification of `NodeLayer::evaluate`. A success has one output per node, and a non-empty layer on an empty input fails. `Layers.OutputsMeaning` proves what each output is and which error a failure carries. |
| Layers.OutputsMeaning | src/library/node.rs:109-123 | A layer evaluates successfully exactly when every node does. On success there is one output per node, and output k is node k's value, in node order. On failure the error is that of the first failing node. |
| Layers.FailureIsFinal | src/library/node.rs:116-118 | Once a node fails, the nodes after it do not change the outcome: the layer fails with that error. |
| Layers.Evaluate | src/library/node.rs:110-123 | The pushing loop returns exactly the layer's specified outputs, or the first node's error. |
| Layers.NewRandom | src/library/node.rs:94-107 | A random layer has exactly `capacity` nodes, each with `previous_node_count` weights and biases. From a valid generator every parameter is in [0, 1). The generator advances by `capacity` * 2 * `previous_node_count` draws. |
| Layers.UniformLayerEvaluates | src/library/node.rs:110-123 | A layer whose nodes all have the input's length as fan-in evaluates any non-empty input to exactly one output per node. |
| Layers.RandomLayerOutputBounds | src/library/node.rs:96-123 | A layer of randomly initialised nodes, given a matching non-empty input with values in [0, 1], yields one output per node, each in [0, 2). |
| Network.Forward | src/library/node.rs:159-179 | Intent: the forward pass. With no layers it returns the input unchanged. On success its output has the last layer's node count. `Network.ForwardAppend` and `Network.ChainedNetworkEvaluates` prove how it grows with the layer list and when it succeeds. |
| Network.Evaluate | src/library/node.rs:159-179 | Intent: the zero-argument `LayerList::evaluate`, the forward pass from the list's own input layer. With no layers it returns the input layer's values. On success its output has the last layer's node count. |
| Network.ForwardAppend | src/library/node.rs:150-179 | Intent: appending a layer to a layer list adds one stage at the output end. The forward pass of the longer list is the new layer evaluated on the old pass's output, and an earlier failure is kept. |
| Network.ChainedNetworkEvaluates | src/library/node.rs:159-179 | Intent: when every layer is non-empty and its fan-in matches the previous layer's width (the input's length for the first layer), the forward pass on a non-empty input succeeds. Its output has the last layer's node count. |
| LegacyLayers.FillExisting | src/lib/node.rs:67-72 | The filling loop overwrites each existing slot with a random node of fan-in `previous_node_count` and never changes the vector's length. It draws 2 * `previous_node_count` values per slot. |
| LegacyLayers.New | src/lib/node.rs:65-79 | The early layer constructor yields a layer with zero nodes for every `capacity`, draws nothing, and sets no next layer. |

## Left out

- Nodes.Output: on an empty input the source divides 0 by 0. In `f64` that gives NaN, not a panic. The model reports it as the error `EmptyInput`, since reals have no NaN.
- Layers.Outputs: for the same reason, a non-empty layer on an empty input fails here with `EmptyInput`, where `NodeLayer::evaluate` returns one NaN per node. `Layers.Evaluate` inherits this gap, as does the intended `Network.Forward`. In `f64`, a fold would pass those NaNs on to the next layer, which could then panic on an index, for example at index 1 for a fan-in of 1 after a 3-node layer. Here the pass stops with `EmptyInput` instead.
- Layers.OutputsMeaning: for the same reason, a non-empty layer on an empty input fails here with `EmptyInput`, where the source returns a vector of NaNs.
- Floating-point semantics (rounding, overflow, infinities, NaN) and the distinct `f64`/`f32` instantiations are not modelled. All scalars are reals.
- The `NodeAble` trait and its arithmetic bounds are not modelled: the model is not generic over the scalar type.
- The type mismatches in `Node::evalute` are read as the evident meaning: a `T` divided by an `f64` count and returned as `f64`, and `0.into()` as the starting sum. The model starts from 0 and divides by the input length.
- `rand::thread_rng()` is a foreign generator. The model takes its samples as a caller-supplied `Generator`. Only the contract "every sample in [0, 1)" is kept, not the distribution.
- The `println!` calls in the early `NodeLayer::new` are console output and are not modelled.
- The early `NodeLayer::eval` has an empty body and returns `()`, so there is nothing to model.
- The whole-network `LayerList::evaluate` is commented out in the source. `Network.Forward` and `Network.Evaluate` model its evident intent, not shipped behaviour.
- A randomised whole-network constructor, a layer-append operation and rejection of zero-layer networks do not exist in the source, so they are not modelled.
- `Vec::with_capacity` reserves memory without changing a vector's length. Only the length is modelled. Capacities here are unbounded `nat`s. In Rust, `Vec::with_capacity(capacity)` panics with "capacity overflow" when `capacity` times the element size exceeds `isize::MAX`, and aborts when allocation fails. The rows for `Layers.NewRandom` ("exactly `capacity` nodes") and `LegacyLayers.New` ("zero nodes for every `capacity`") hold only for capacities that allocate.
- The program entry point (`src/main.rs`) and the dataset holder (`src/library/dataset.rs`) are driver code and a data holder. They are not part of this model.

## Findings

| source | as written | input that shows it | evidently intended | confidence | as-written member | corrected member |
|---|---|---|---|---|---|---|
| src/lib/node.rs:67-72 | The loop runs over `nodes.len()` of a vector just created empty, so it never draws a node. | `NodeLayer::new(5, 5)`, the call in `src/main.rs`, yields a layer with 0 nodes. | `capacity` nodes, each from `Node::new_random(previous_node_count)`. The later `NodeLayer::new_random` does exactly this. | high; not executed | LegacyLayers.New | Layers.NewRandom |
| src/library/node.rs:25-29 | An omitted weights or biases vector becomes an empty vector, and the length assertion then panics for any capacity above 0. | `Node::new(1, None, Some(vec![0.0]))` panics on the weights-length assertion. | An omitted vector is filled with `capacity` zeros, as the doc comment says. | medium; not executed | Nodes.OmittedWeightsRejected | Nodes.NewZeroFilled |
| src/library/node.rs:59-65 | The only length check compares `input.len()` with itself. An input shorter than the weights and biases is accepted, and the extra connections are ignored. | A node with weights [1, 1] and biases [0, 0], given input [2], evaluates to 2 instead of being rejected. | The input length equals the number of weights and biases, one per node of the previous layer, as the field comments at lines 14-19 say. A mismatch is rejected. | medium; not executed | Nodes.ShortInputIgnoresExtraConnections | Nodes.OutputChecked |
