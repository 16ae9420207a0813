/** Activation functions of the perceptron.

    The C++ code computes the logistic function `1 / (1 + e^-x)` in
    floating point. The model keeps it uninterpreted: `Sigmoid` is a fixed
    but arbitrary function on reals, and a lemma that needs a fact about it
    (such as `Sigmoid(0.0) == 0.5`) takes that fact as a precondition. */
module Activation {

  /** The logistic function, left uninterpreted. */
  const Sigmoid: real -> real

  /** `ActFunction` of neuron.h: `kLinear` is 0, `kSigmoid` is 1. */
  const Linear: int := 0
  const SigmoidMode: int := 1

  /** What `Neuron::Activate` applies to the weighted input sum in mode `mode`:
      the identity in linear mode, the sigmoid in every other mode. */
  function Apply(mode: int, x: real): real {
    if mode == Linear then x else Sigmoid(x)
  }

  /** The derivative of the sigmoid expressed through its output `v`. */
  function Slope(v: real): real {
    v * (1.0 - v)
  }
}
