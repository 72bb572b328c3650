/** The random-number source used at construction time. `rand::thread_rng()` is
    replaced by an explicit, caller-supplied stream of samples and a cursor, so that
    the constructors that draw from it are ordinary functions of their inputs. */
module Randomness {

  /** `sample(i)` is the i-th value the generator yields; `next` is how many values
      have been drawn so far. */
  datatype Generator = Generator(sample: nat -> real, next: nat)
  {
    /** The generator keeps the contract of `rng.gen()` / `rng.gen_range(0.0..1.0)`
        for floating-point values: every sample lies in [0, 1). */
    ghost predicate Valid()
    {
      forall i: nat :: 0.0 <= sample(i) < 1.0
    }

    /** The next `count` samples, in the order they are drawn. */
    function Take(count: nat): (r: seq<real>)
      ensures |r| == count
      ensures forall i :: 0 <= i < count ==> r[i] == sample(next + i)
    {
      seq(count, i requires 0 <= i => sample(next + i))
    }

    /** The generator after `count` more samples have been drawn. */
    function Skip(count: nat): (r: Generator)
      ensures r.sample == sample && r.next == next + count
    {
      Generator(sample, next + count)
    }
  }

  /** Every element of `s` lies in [0, 1). */
  predicate InUnitInterval(s: seq<real>)
  {
    forall i :: 0 <= i < |s| ==> 0.0 <= s[i] < 1.0
  }
}
