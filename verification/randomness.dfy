/**
 * The injected java.util.Random, seen as a fixed stream of raw draws: the
 * k-th call of nextInt(bound) answers draws(k) % bound. Every operation that
 * consumes randomness advances the cursor by exactly one per call, so the
 * model can state which draw decided what.
 */
module Randomness {

  class Rng {
    const draws: nat -> nat
    var used: nat

    constructor (draws: nat -> nat)
      ensures this.draws == draws && used == 0
    {
      this.draws := draws;
      used := 0;
    }

    /** The answer the next nextInt(bound) will give. */
    function Peek(bound: nat): (v: nat)
      reads this
      requires bound > 0
      ensures v < bound
    {
      draws(used) % bound
    }

    /** nextInt(bound): a value in 0..bound-1; Java rejects a bound of 0. */
    method NextInt(bound: nat) returns (v: nat)
      requires bound > 0
      modifies this
      ensures v == old(Peek(bound)) && v < bound
      ensures used == old(used) + 1
    {
      v := draws(used) % bound;
      used := used + 1;
    }
  }
}
