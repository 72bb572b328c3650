/** A node of the feed-forward network (`Node<T>` in src/library/node.rs, and the
    f64-only `Node` of src/lib/node.rs). `Node::new` has the same code in both;
    `new_random` draws with `rng.gen()` in one and `rng.gen_range(0.0..1.0)` in
    the other, each one value in [0, 1) per draw.
    A node holds one weight AND one bias per incoming connection, and its output
    is the mean over the connections of `weight * input + bias`. Scalars are reals. */
module Nodes {
  import opened Wrappers
  import opened Randomness

  datatype Node = Node(weights: seq<real>, biases: seq<real>)

  /** The two `assert_eq!` panics of `Node::new`. */
  datatype BuildError =
    | WeightsLength(found: nat, expected: nat)
    | BiasesLength(found: nat, expected: nat)

  /** What stops an evaluation: an index past the end of the weights or biases
      (a panic), the division by an input length of zero, or (only in the
      length-checked evaluation) an input whose length differs from the fan-in. */
  datatype EvalError =
    | IndexOutOfBounds(index: nat)
    | EmptyInput
    | InputLength(found: nat, expected: nat)

  /** The node accepts `fanIn` connections: one weight and one bias for each. */
  predicate HasFanIn(node: Node, fanIn: nat)
  {
    |node.weights| == fanIn && |node.biases| == fanIn
  }

  /** The node is one that `Node::new_random(fanIn)` can produce. */
  predicate RandomlyInitialised(node: Node, fanIn: nat)
  {
    HasFanIn(node, fanIn) && InUnitInterval(node.weights) && InUnitInterval(node.biases)
  }

  function Min(a: nat, b: nat): (r: nat)
  {
    if a <= b then a else b
  }

  // ---------------------------------------------------------------- construction

  /** `Node::new`: an omitted vector becomes an empty one, then the weights and the
      biases (in that order) must both have exactly `capacity` elements. */
  function New(capacity: nat, weightsMaybe: Option<seq<real>>, biasesMaybe: Option<seq<real>>)
    : (r: Result<Node, BuildError>)
    ensures r.Ok? <==>
      ((weightsMaybe.Some? && |weightsMaybe.value| == capacity) || (weightsMaybe.None? && capacity == 0)) &&
      ((biasesMaybe.Some? && |biasesMaybe.value| == capacity) || (biasesMaybe.None? && capacity == 0))
    ensures r.Ok? ==> HasFanIn(r.value, capacity)
    ensures r.Ok? && weightsMaybe.Some? ==> r.value.weights == weightsMaybe.value
    ensures r.Ok? && biasesMaybe.Some? ==> r.value.biases == biasesMaybe.value
    ensures weightsMaybe.Some? && |weightsMaybe.value| != capacity ==>
      r == Err(WeightsLength(|weightsMaybe.value|, capacity))
    ensures weightsMaybe.None? && capacity != 0 ==> r == Err(WeightsLength(0, capacity))
    ensures |weightsMaybe.UnwrapOr([])| == capacity && |biasesMaybe.UnwrapOr([])| != capacity ==>
      r == Err(BiasesLength(|biasesMaybe.UnwrapOr([])|, capacity))
  {
    var weights := weightsMaybe.UnwrapOr([]);
    var biases := biasesMaybe.UnwrapOr([]);
    if |weights| != capacity then Err(WeightsLength(|weights|, capacity))
    else if |biases| != capacity then Err(BiasesLength(|biases|, capacity))
    else Ok(Node(weights, biases))
  }

  /** Despite the "fills unset values with 0's" comment, `Node::new` with an omitted
      vector succeeds only for a capacity of zero, and then yields the empty node. */
  lemma OmittedVectorNeedsZeroCapacity(capacity: nat, weightsMaybe: Option<seq<real>>, biasesMaybe: Option<seq<real>>)
    requires weightsMaybe.None? || biasesMaybe.None?
    ensures New(capacity, weightsMaybe, biasesMaybe).Ok? ==> capacity == 0
    ensures New(capacity, weightsMaybe, biasesMaybe).Ok? ==>
      New(capacity, weightsMaybe, biasesMaybe).value == Node([], [])
  {
  }

  /** The smallest input showing the gap: one connection, no weights given. */
  lemma OmittedWeightsRejected()
    ensures New(1, None, Some([0.0])) == Err(WeightsLength(0, 1))
  {
  }

  /** What the "fills unset values with 0's" comment describes: an omitted vector
      becomes `capacity` zeros, and only a given vector is checked against
      `capacity`. */
  function NewZeroFilled(capacity: nat, weightsMaybe: Option<seq<real>>, biasesMaybe: Option<seq<real>>)
    : (r: Result<Node, BuildError>)
    ensures r.Ok? <==>
      (weightsMaybe.None? || |weightsMaybe.value| == capacity) &&
      (biasesMaybe.None? || |biasesMaybe.value| == capacity)
    ensures r.Ok? ==> HasFanIn(r.value, capacity)
    ensures r.Ok? ==> forall i :: 0 <= i < capacity ==>
      r.value.weights[i] == (if weightsMaybe.Some? then weightsMaybe.value[i] else 0.0) &&
      r.value.biases[i] == (if biasesMaybe.Some? then biasesMaybe.value[i] else 0.0)
  {
    var zeros := seq(capacity, _ => 0.0);
    var weights := weightsMaybe.UnwrapOr(zeros);
    var biases := biasesMaybe.UnwrapOr(zeros);
    if |weights| != capacity then Err(WeightsLength(|weights|, capacity))
    else if |biases| != capacity then Err(BiasesLength(|biases|, capacity))
    else Ok(Node(weights, biases))
  }

  /** `Node::new_random`: `capacity` weights are drawn first, then `capacity` biases,
      each from the generator; the returned generator has advanced past them. */
  function NewRandom(capacity: nat, rng: Generator): (r: (Node, Generator))
    ensures HasFanIn(r.0, capacity)
    ensures r.1.sample == rng.sample && r.1.next == rng.next + 2 * capacity
    ensures rng.Valid() ==> RandomlyInitialised(r.0, capacity) && r.1.Valid()
  {
    var weights := rng.Take(capacity);
    var afterWeights := rng.Skip(capacity);
    var biases := afterWeights.Take(capacity);
    (Node(weights, biases), afterWeights.Skip(capacity))
  }

  // ---------------------------------------------------------------- evaluation

  /** The sum over the first `k` connections of `weight * input + bias`, added up
      from the first connection on, as the evaluation loop does. */
  function Accumulated(node: Node, input: seq<real>, k: nat): (r: real)
    requires k <= |input| && k <= |node.weights| && k <= |node.biases|
  {
    if k == 0 then 0.0
    else Accumulated(node, input, k - 1) + (node.weights[k - 1] * input[k - 1] + node.biases[k - 1])
  }

  /** The value of `Node::evalute(input)`. The loop runs over the INPUT's length:
      it panics at the first index past the weights or the biases, and divides the
      sum by the input length. The assertion in the source compares the input
      length with itself, so nothing ties the input length to the fan-in. */
  function Output(node: Node, input: seq<real>): (r: Result<real, EvalError>)
    ensures r.Ok? <==> 0 < |input| <= |node.weights| && |input| <= |node.biases|
    ensures |input| > |node.weights| || |input| > |node.biases| ==>
      r == Err(IndexOutOfBounds(Min(|node.weights|, |node.biases|)))
    ensures |input| == 0 ==> r == Err(EmptyInput)
  {
    var n := |input|;
    if n > |node.weights| || n > |node.biases| then
      Err(IndexOutOfBounds(Min(|node.weights|, |node.biases|)))
    else if n == 0 then
      Err(EmptyInput)
    else
      Ok(Accumulated(node, input, n) / n as real)
  }

  /** `Node::evalute`: the accumulating loop, proved to compute `Output`. */
  method Evaluate(node: Node, input: seq<real>) returns (r: Result<real, EvalError>)
    ensures r == Output(node, input)
  {
    var output := 0.0;
    var outputCount := |input|;
    for i := 0 to outputCount
      invariant i <= |node.weights| && i <= |node.biases|
      invariant output == Accumulated(node, input, i)
    {
      if i >= |node.weights| || i >= |node.biases| {
        return Err(IndexOutOfBounds(i));
      }
      output := output + (node.weights[i] * input[i] + node.biases[i]);
    }
    if outputCount == 0 {
      return Err(EmptyInput);
    }
    return Ok(output / outputCount as real);
  }

  /** The evaluation the field comments describe: the weights and the biases have
      one entry per input, so an input whose length differs from either is
      rejected before anything is summed; otherwise it is `Output`. */
  function OutputChecked(node: Node, input: seq<real>): (r: Result<real, EvalError>)
    ensures r.Ok? <==> HasFanIn(node, |input|) && |input| > 0
    ensures HasFanIn(node, |input|) ==> r == Output(node, input)
    ensures |input| != |node.weights| ==> r == Err(InputLength(|input|, |node.weights|))
    ensures |input| == |node.weights| && |input| != |node.biases| ==>
      r == Err(InputLength(|input|, |node.biases|))
  {
    if |input| != |node.weights| then Err(InputLength(|input|, |node.weights|))
    else if |input| != |node.biases| then Err(InputLength(|input|, |node.biases|))
    else Output(node, input)
  }

  /** The smallest input showing the gap: a node with two connections, given one
      input, evaluates as written but is rejected by the length-checked version. */
  lemma ShortInputAccepted()
    ensures Output(Node([1.0, 1.0], [0.0, 0.0]), [2.0]) == Ok(2.0)
    ensures OutputChecked(Node([1.0, 1.0], [0.0, 0.0]), [2.0]) == Err(InputLength(1, 2))
  {
    assert Accumulated(Node([1.0, 1.0], [0.0, 0.0]), [2.0], 1) == 2.0;
  }

  // ---------------------------------------------------------------- properties

  /** The per-connection bias: weights [2, 3], biases [1, 1], input [1, 1] give
      ((2 + 1) + (3 + 1)) / 2 = 3.5, not (2 + 3 + 1) / 2. */
  lemma PerConnectionBias()
    ensures Output(Node([2.0, 3.0], [1.0, 1.0]), [1.0, 1.0]) == Ok(3.5)
  {
    assert Accumulated(Node([2.0, 3.0], [1.0, 1.0]), [1.0, 1.0], 2) == 7.0;
  }

  /** The sum over the first `k` connections depends on nothing but those
      connections' weights, biases and inputs. */
  lemma {:induction false} AccumulatedPrefix(node: Node, other: Node, input: seq<real>, k: nat)
    requires k <= |input| && k <= |node.weights| && k <= |node.biases|
    requires k <= |other.weights| && k <= |other.biases|
    requires node.weights[..k] == other.weights[..k] && node.biases[..k] == other.biases[..k]
    ensures Accumulated(node, input, k) == Accumulated(other, input, k)
  {
    if k > 0 {
      assert node.weights[..k - 1] == node.weights[..k][..k - 1];
      assert other.weights[..k - 1] == other.weights[..k][..k - 1];
      assert node.biases[..k - 1] == node.biases[..k][..k - 1];
      assert other.biases[..k - 1] == other.biases[..k][..k - 1];
      assert node.weights[k - 1] == node.weights[..k][k - 1];
      assert other.weights[k - 1] == other.weights[..k][k - 1];
      assert node.biases[k - 1] == node.biases[..k][k - 1];
      assert other.biases[k - 1] == other.biases[..k][k - 1];
      AccumulatedPrefix(node, other, input, k - 1);
    }
  }

  /** Because the fan-in is never checked against the input, an input shorter than
      the fan-in is accepted and the node behaves as if it had only the first
      `|input|` connections: the remaining weights and biases are ignored. */
  lemma ShortInputIgnoresExtraConnections(node: Node, input: seq<real>)
    requires |input| <= |node.weights| && |input| <= |node.biases|
    ensures Output(node, input) ==
      Output(Node(node.weights[..|input|], node.biases[..|input|]), input)
  {
    var n := |input|;
    var cut := Node(node.weights[..n], node.biases[..n]);
    assert cut.weights[..n] == node.weights[..n];
    assert cut.biases[..n] == node.biases[..n];
    AccumulatedPrefix(node, cut, input, n);
  }

  /** With every weight and bias zero, the sum stays zero whatever the input. */
  lemma {:induction false} AccumulatedOfZeros(node: Node, input: seq<real>, k: nat)
    requires k <= |input| && k <= |node.weights| && k <= |node.biases|
    requires forall i :: 0 <= i < k ==> node.weights[i] == 0.0 && node.biases[i] == 0.0
    ensures Accumulated(node, input, k) == 0.0
  {
    if k > 0 {
      AccumulatedOfZeros(node, input, k - 1);
    }
  }

  /** A node whose weights and biases are all zero outputs zero on every input
      that matches its fan-in. */
  lemma ZeroParametersOutputZero(node: Node, input: seq<real>)
    requires HasFanIn(node, |input|) && |input| > 0
    requires forall i :: 0 <= i < |input| ==> node.weights[i] == 0.0 && node.biases[i] == 0.0
    ensures Output(node, input) == Ok(0.0)
  {
    AccumulatedOfZeros(node, input, |input|);
  }

  /** A node built by `NewZeroFilled` with both vectors omitted outputs zero. */
  lemma ZeroFilledNodeOutputsZero(capacity: nat, input: seq<real>)
    requires capacity == |input| > 0
    ensures NewZeroFilled(capacity, None, None).Ok?
    ensures Output(NewZeroFilled(capacity, None, None).value, input) == Ok(0.0)
  {
    ZeroParametersOutputZero(NewZeroFilled(capacity, None, None).value, input);
  }

  /** A weight in [0, 1) times an input in [0, 1] stays within [0, weight]. */
  lemma ScaledWeightBounds(w: real, x: real)
    requires 0.0 <= w < 1.0 && 0.0 <= x <= 1.0
    ensures 0.0 <= w * x <= w
  {
    assert w * x <= w * 1.0;
  }

  /** Each term of the sum is in [0, 2) when the weight and the bias are in [0, 1)
      and the input is in [0, 1]. */
  lemma {:induction false} AccumulatedBounds(node: Node, input: seq<real>, k: nat)
    requires k <= |input| && k <= |node.weights| && k <= |node.biases|
    requires InUnitInterval(node.weights) && InUnitInterval(node.biases)
    requires forall i :: 0 <= i < |input| ==> 0.0 <= input[i] <= 1.0
    ensures 0.0 <= Accumulated(node, input, k) <= 2.0 * k as real
    ensures k > 0 ==> Accumulated(node, input, k) < 2.0 * k as real
  {
    if k > 0 {
      AccumulatedBounds(node, input, k - 1);
      var w, x, b := node.weights[k - 1], input[k - 1], node.biases[k - 1];
      ScaledWeightBounds(w, x);
      var previous := Accumulated(node, input, k - 1);
      assert Accumulated(node, input, k) == previous + (w * x + b);
      assert previous <= 2.0 * (k - 1) as real;
      assert 2.0 * (k - 1) as real + 2.0 == 2.0 * k as real;
    }
  }

  /** A randomly initialised node, fed an input of its own fan-in whose values are
      in [0, 1], evaluates to a value in [0, 2). */
  lemma RandomNodeOutputBounds(node: Node, input: seq<real>)
    requires RandomlyInitialised(node, |input|) && |input| > 0
    requires forall i :: 0 <= i < |input| ==> 0.0 <= input[i] <= 1.0
    ensures Output(node, input).Ok?
    ensures 0.0 <= Output(node, input).value < 2.0
  {
    var n := |input|;
    var sum := Accumulated(node, input, n);
    AccumulatedBounds(node, input, n);
    assert sum / n as real < 2.0 by {
      assert sum < 2.0 * n as real;
    }
  }
}
