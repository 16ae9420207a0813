/** The sizes both engines share (source_code/model/interfaceNetwork.hpp)
    and the shape of the pool of engines (model/network.hpp). */
module Interface {
  /** `kInputLayer`: one input per pixel of a 28 x 28 letter. */
  const InputWidth: nat := 784
  /** `kSumNeironsHiddenLayer`: the width of every hidden layer. */
  const HiddenWidth: nat := 140
  /** `kSumNeironsOutputLayer`: one output per letter of the alphabet. */
  const OutputWidth: nat := 26

  /** `kSumNetworks`: the pool holds one engine of each kind per depth. */
  const SumNetworks: nat := 4
  /** `TwoHids`: the shallowest engine in the pool has two hidden layers;
      slot `s` of the pool holds the engines with `MinDepth + s`. */
  const MinDepth: nat := 2
  /** `kLearningRate`: the rate the pool gives every graph engine. */
  const LearningRate: real := 0.12
}
