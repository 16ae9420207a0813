/** What the graph engine computes, as functions on values
    (graphNetwork.cpp). The class in module `Graph` is proved against
    these. Weights are held per neuron: `Ws[l][j][k]` is the weight with
    which neuron j of layer l (0 = first hidden layer, the last index = the
    output layer) reads neuron k of the layer before it. */
module GraphSpec {
  import opened Activation
  import opened Neurons
  import opened Matrix

  function Max0(x: int): nat {
    if x < 0 then 0 else x
  }

  /** What `Feed` leaves in an input layer of `n` neurons: `src` cut or
      padded with zeros to length `n`. */
  function Padded(src: seq<real>, n: nat): (r: seq<real>)
    ensures |r| == n
    ensures forall i :: 0 <= i < n && i < |src| ==> r[i] == src[i]
    ensures forall i :: |src| <= i < n ==> r[i] == 0.0
  {
    seq(n, i requires 0 <= i < n => if i < |src| then src[i] else 0.0)
  }

  /** `FormFeedVector`: every pixel divided by 255. */
  function FeedVector(src: seq<nat>): (r: seq<real>)
    ensures |r| == |src|
  {
    seq(|src|, i requires 0 <= i < |src| => src[i] as real / 255.0)
  }

  /** Pixels in 0..255 become inputs in [0, 1]. */
  lemma FeedVectorUnit(src: seq<nat>)
    requires forall i :: 0 <= i < |src| ==> src[i] <= 255
    ensures forall i :: 0 <= i < |src| ==> 0.0 <= FeedVector(src)[i] <= 1.0
  {
  }

  /** `FormExpectationVector(exp)` for an output layer of `width` neurons. */
  function ExpectationVector(exp: int, width: nat): (r: seq<real>)
    ensures |r| == width
  {
    seq(width, i requires 0 <= i < width => if i == exp then 1.0 else 0.0)
  }

  /** The one-hot target has its only 1 at the expected index, so the
      first-maximum scan `get_result` recovers that index from it. */
  lemma ExpectationVectorFirstMax(exp: int, width: nat)
    requires 0 <= exp < width
    ensures FirstMax(ExpectationVector(exp, width)) == exp
  {
    var v := ExpectationVector(exp, width);
    assert IsFirstMax(v, exp);
    FirstMaxUnique(v, exp, FirstMax(v));
  }

  /** An expected index outside the output layer gives an all-zero target. */
  lemma ExpectationVectorOutside(exp: int, width: nat)
    requires exp < 0 || width <= exp
    ensures ExpectationVector(exp, width) == seq(width, i => 0.0)
  {
  }

  /** `set_expected_values(val)` on an output layer of `width` neurons whose
      expected values are `cur`: a vector no longer than the layer replaces
      them, zero-padded; a longer one has its first `width` entries appended
      to the current ones. */
  function ExpectedAfterSet(cur: seq<real>, val: seq<real>, width: nat): seq<real> {
    if |val| <= width then val + seq(width - |val|, i => 0.0)
    else cur + val[..width]
  }

  /** A shorter vector is padded to exactly the layer width, keeping its
      entries and adding zeros. */
  lemma ExpectedAfterSetPads(cur: seq<real>, val: seq<real>, width: nat)
    requires |val| <= width
    ensures |ExpectedAfterSet(cur, val, width)| == width
    ensures ExpectedAfterSet(cur, val, width) == Padded(val, width)
  {
    var r := ExpectedAfterSet(cur, val, width);
    assert forall i :: 0 <= i < width ==> r[i] == Padded(val, width)[i];
  }

  /** The target of a learning step is stored exactly as formed. */
  lemma ExpectedAfterSetOneHot(cur: seq<real>, exp: int, width: nat)
    ensures ExpectedAfterSet(cur, ExpectationVector(exp, width), width) == ExpectationVector(exp, width)
  {
    var v := ExpectationVector(exp, width);
    assert v + seq(0, i => 0.0) == v;
  }

  /** `(int)(expected_value - 1)` in `LearnNetwork`: the subtraction is on a
      64-bit `size_t` and the cast keeps the low 32 bits as a signed `int`,
      so the result is the 32-bit integer congruent to x modulo 2^32. */
  function SizeToInt(x: int): (r: int)
    ensures -0x8000_0000 <= r < 0x8000_0000
    ensures (x - r) % 0x1_0000_0000 == 0
  {
    var m := x % 0x1_0000_0000;
    if m < 0x8000_0000 then m else m - 0x1_0000_0000
  }

  /** A 1-based class number 1..n becomes the index one below it and selects
      that output; class number 0 wraps round to -1 and gives an all-zero
      target. */
  lemma LearnLabelTarget(expected: nat, width: nat)
    ensures 1 <= expected <= width && width <= 0x8000_0000 ==>
      SizeToInt(expected - 1) == expected - 1 &&
      FirstMax(ExpectationVector(SizeToInt(expected - 1), width)) == expected - 1
    ensures expected == 0 ==> ExpectationVector(SizeToInt(expected - 1), width) == seq(width, i => 0.0)
  {
    if 1 <= expected <= width && width <= 0x8000_0000 {
      ExpectationVectorFirstMax(expected - 1, width);
    }
    if expected == 0 {
      assert SizeToInt(-1) == -1;
      ExpectationVectorOutside(-1, width);
    }
  }

  /** The values of a sigmoid layer whose neuron j has weights `W[j]`,
      reading the values `prev` of the layer before it. */
  function LayerOut(W: seq<seq<real>>, prev: seq<real>): (r: seq<real>)
    ensures |r| == |W|
  {
    seq(|W|, j requires 0 <= j < |W| => Sigmoid(WeightedSum(W[j], prev)))
  }

  /** The values of the last layer after the layers with weights `Ws` run
      one after the other on the input values `x`. */
  function Propagate(Ws: seq<seq<seq<real>>>, x: seq<real>): (r: seq<real>)
    ensures |r| == if Ws == [] then |x| else |Ws[|Ws| - 1]|
    decreases |Ws|
  {
    if Ws == [] then x else LayerOut(Ws[|Ws| - 1], Propagate(Ws[..|Ws| - 1], x))
  }

  /** The first m + 1 weight layers compute layer m from what the first m
      compute. */
  lemma PropagatePrefix(Ws: seq<seq<seq<real>>>, x: seq<real>, m: nat)
    requires m < |Ws|
    ensures Propagate(Ws[..m + 1], x) == LayerOut(Ws[m], Propagate(Ws[..m], x))
  {
    assert Ws[..m + 1][..m] == Ws[..m];
  }

  /** What `Prediction` answers for the pixels `px` on a network with
      weights `Ws` and `inWidth` input neurons: 1 + the first index of the
      largest output. */
  function Predict(Ws: seq<seq<seq<real>>>, inWidth: nat, px: seq<nat>): (c: nat)
    requires Ws != [] && Ws[|Ws| - 1] != []
    ensures 1 <= c <= |Ws[|Ws| - 1]|
  {
    FirstMax(Propagate(Ws, Padded(FeedVector(px), inWidth))) + 1
  }

  /** A network whose weights are all 0 sees Sigmoid(0) in every output, so
      it predicts class 1 whatever it is shown. */
  lemma {:induction false} ZeroWeightsPredictFirst(Ws: seq<seq<seq<real>>>, inWidth: nat, px: seq<nat>)
    requires Ws != [] && Ws[|Ws| - 1] != []
    requires forall l, j, k :: 0 <= l < |Ws| && 0 <= j < |Ws[l]| && 0 <= k < |Ws[l][j]| ==> Ws[l][j][k] == 0.0
    ensures Predict(Ws, inWidth, px) == 1
  {
    var x := Padded(FeedVector(px), inWidth);
    var last := Ws[|Ws| - 1];
    var prev := Propagate(Ws[..|Ws| - 1], x);
    var out := Propagate(Ws, x);
    forall j | 0 <= j < |last|
      ensures out[j] == Sigmoid(0.0)
    {
      WeightedSumZero(last[j], prev);
    }
    assert IsFirstMax(out, 0);
    FirstMaxUnique(out, 0, FirstMax(out));
  }

  /** `Roll(base)` with `r` the value `rand()` returned (never negative). */
  function Roll(base: int, r: nat): (res: int)
    ensures base > 0 ==> 0 <= res < base
    ensures base <= 0 ==> res == 0
  {
    if base > 0 then r % base else 0
  }

  /** The weight `InstallRandomWeights` draws from the value `r` of `rand()`:
      one of the 201 values -1, -0.99, ..., 1. */
  function RandomWeight(r: nat): (w: real)
    ensures -1.0 <= w <= 1.0
  {
    Roll(201, r) as real / 100.0 - 1.0
  }

  // ---- One step of back-propagation ----

  /** The weights `Ws` chain up from `n` inputs: each neuron of layer 0 has
      one weight per input, each neuron of a later layer one weight per
      neuron of the layer before it. */
  ghost predicate Fits(Ws: seq<seq<seq<real>>>, n: nat) {
    forall l, j :: 0 <= l < |Ws| && 0 <= j < |Ws[l]| ==> |Ws[l][j]| == if l == 0 then n else |Ws[l - 1]|
  }

  /** The values of every layer after a forward pass from the input values `x`. */
  function Acts(Ws: seq<seq<seq<real>>>, x: seq<real>): (r: seq<seq<real>>)
    ensures |r| == |Ws|
    ensures forall l :: 0 <= l < |Ws| ==> r[l] == Propagate(Ws[..l + 1], x) && |r[l]| == |Ws[l]|
  {
    seq(|Ws|, l requires 0 <= l < |Ws| => Propagate(Ws[..l + 1], x))
  }

  /** `CalcDerivOutput`: the derivative of output neuron i with value o[i]
      and target t[i] is (o[i] - t[i]) · o[i] · (1 - o[i]). */
  function OutDeltas(o: seq<real>, t: seq<real>): (r: seq<real>)
    requires |o| <= |t|
    ensures |r| == |o|
  {
    seq(|o|, i requires 0 <= i < |o| => (o[i] - t[i]) * o[i] * (1.0 - o[i]))
  }

  /** Σ_{k < |d|} d[k] · Wn[k][j]: what reaches neuron j of a layer from the
      layer after it, whose neurons have the weights `Wn` and the
      derivatives `d`, summed in the order of the loop of `CalcDerivHidden`.
      A term without a weight counts as 0. */
  function BackSum(Wn: seq<seq<real>>, d: seq<real>, j: nat): real
    decreases |d|
  {
    if d == [] then 0.0 else BackSum(Wn, d[..|d| - 1], j) + BackTerm(Wn, d, j)
  }

  function BackTerm(Wn: seq<seq<real>>, d: seq<real>, j: nat): real
    requires d != []
  {
    var k := |d| - 1;
    if k < |Wn| && j < |Wn[k]| then d[k] * Wn[k][j] else 0.0
  }

  /** `CalcDerivHidden` for one layer with values `v`: the derivative of
      neuron j is BackSum(Wn, dn, j) · v[j] · (1 - v[j]). */
  function HidDeltas(Wn: seq<seq<real>>, dn: seq<real>, v: seq<real>): (r: seq<real>)
    ensures |r| == |v|
  {
    seq(|v|, j requires 0 <= j < |v| => BackSum(Wn, dn, j) * Slope(v[j]))
  }

  /** The derivatives of layer l, given the values `acts` of every layer and
      the target `t`: the output layer's from the target, every other
      layer's from the layer after it. */
  function DeltaAt(Ws: seq<seq<seq<real>>>, acts: seq<seq<real>>, t: seq<real>, l: nat): (r: seq<real>)
    requires |acts| == |Ws| && l < |Ws| && |acts[|Ws| - 1]| <= |t|
    ensures |r| == |acts[l]|
    decreases |Ws| - l
  {
    if l == |Ws| - 1 then OutDeltas(acts[l], t)
    else HidDeltas(Ws[l + 1], DeltaAt(Ws, acts, t, l + 1), acts[l])
  }

  /** The values layer l reads: the inputs for layer 0, the layer before it otherwise. */
  function Feeding(acts: seq<seq<real>>, x: seq<real>, l: nat): seq<real>
    requires l <= |acts|
  {
    if l == 0 then x else acts[l - 1]
  }

  /** The weights after `EducateOneStep` on the input values `x` with the
      target `t` and the learning rate `lr`: every weight of every neuron
      takes one gradient step with that neuron's derivative. */
  function Trained(Ws: seq<seq<seq<real>>>, x: seq<real>, t: seq<real>, lr: real): (r: seq<seq<seq<real>>>)
    requires Ws != [] && Fits(Ws, |x|) && |Ws[|Ws| - 1]| <= |t|
    ensures |r| == |Ws| && forall l :: 0 <= l < |Ws| ==> |r[l]| == |Ws[l]|
  {
    var acts := Acts(Ws, x);
    seq(|Ws|, l requires 0 <= l < |Ws| =>
      seq(|Ws[l]|, j requires 0 <= j < |Ws[l]| =>
        Corrected(Ws[l][j], Feeding(acts, x, l), lr, DeltaAt(Ws, acts, t, l)[j])))
  }

  /** Neuron j of layer l after training: its own gradient step. */
  lemma TrainedAt(Ws: seq<seq<seq<real>>>, x: seq<real>, t: seq<real>, lr: real, l: nat, j: nat)
    requires Ws != [] && Fits(Ws, |x|) && |Ws[|Ws| - 1]| <= |t|
    requires l < |Ws| && j < |Ws[l]|
    ensures |Ws[l][j]| <= |Feeding(Acts(Ws, x), x, l)|
    ensures Trained(Ws, x, t, lr)[l][j] ==
      Corrected(Ws[l][j], Feeding(Acts(Ws, x), x, l), lr, DeltaAt(Ws, Acts(Ws, x), t, l)[j])
  {
  }

  /** Training keeps the shape of the weights, so training can go on. */
  lemma TrainedFits(Ws: seq<seq<seq<real>>>, x: seq<real>, t: seq<real>, lr: real)
    requires Ws != [] && Fits(Ws, |x|) && |Ws[|Ws| - 1]| <= |t|
    ensures Fits(Trained(Ws, x, t, lr), |x|)
    ensures forall l, j :: 0 <= l < |Ws| && 0 <= j < |Ws[l]| ==> |Trained(Ws, x, t, lr)[l][j]| == |Ws[l][j]|
  {
    var r := Trained(Ws, x, t, lr);
    forall l, j | 0 <= l < |Ws| && 0 <= j < |Ws[l]|
      ensures |r[l][j]| == |Ws[l][j]|
    {
      TrainedAt(Ws, x, t, lr, l, j);
    }
  }

  /** With learning rate 0 nothing changes. */
  lemma TrainedZeroRate(Ws: seq<seq<seq<real>>>, x: seq<real>, t: seq<real>)
    requires Ws != [] && Fits(Ws, |x|) && |Ws[|Ws| - 1]| <= |t|
    ensures Trained(Ws, x, t, 0.0) == Ws
  {
    var r := Trained(Ws, x, t, 0.0);
    forall l | 0 <= l < |Ws|
      ensures r[l] == Ws[l]
    {
      forall j | 0 <= j < |Ws[l]|
        ensures r[l][j] == Ws[l][j]
      {
        TrainedAt(Ws, x, t, 0.0, l, j);
      }
    }
  }

  /** Derivatives that are all 0 send nothing back. */
  lemma {:induction false} BackSumZero(Wn: seq<seq<real>>, d: seq<real>, j: nat)
    requires forall k :: 0 <= k < |d| ==> d[k] == 0.0
    ensures BackSum(Wn, d, j) == 0.0
    decreases |d|
  {
    if d != [] {
      BackSumZero(Wn, d[..|d| - 1], j);
    }
  }

  /** When the output already equals the target, every derivative is 0. */
  lemma {:induction false} DeltaAtTarget(Ws: seq<seq<seq<real>>>, acts: seq<seq<real>>, t: seq<real>, l: nat)
    requires |acts| == |Ws| && l < |Ws| && acts[|Ws| - 1] == t
    ensures forall j :: 0 <= j < |acts[l]| ==> DeltaAt(Ws, acts, t, l)[j] == 0.0
    decreases |Ws| - l
  {
    if l < |Ws| - 1 {
      DeltaAtTarget(Ws, acts, t, l + 1);
      forall j | 0 <= j < |acts[l]|
        ensures DeltaAt(Ws, acts, t, l)[j] == 0.0
      {
        BackSumZero(Ws[l + 1], DeltaAt(Ws, acts, t, l + 1), j);
      }
    }
  }

  /** A network whose output already equals the target is left as it is. */
  lemma TrainedAtTarget(Ws: seq<seq<seq<real>>>, x: seq<real>, t: seq<real>, lr: real)
    requires Ws != [] && Fits(Ws, |x|) && Propagate(Ws, x) == t
    ensures Trained(Ws, x, t, lr) == Ws
  {
    var acts := Acts(Ws, x);
    assert Ws[..|Ws|] == Ws;
    var r := Trained(Ws, x, t, lr);
    forall l | 0 <= l < |Ws|
      ensures r[l] == Ws[l]
    {
      DeltaAtTarget(Ws, acts, t, l);
      forall j | 0 <= j < |Ws[l]|
        ensures r[l][j] == Ws[l][j]
      {
        TrainedAt(Ws, x, t, lr, l, j);
        CorrectedZeroDeriv(Ws[l][j], Feeding(acts, x, l), lr);
      }
    }
  }

  /** On a sigmoid output strictly between 0 and 1, the output derivative
      is positive exactly when the output overshoots its target and
      negative exactly when it falls short: the derivative points away
      from the target. */
  lemma OutDeltaSign(o: seq<real>, t: seq<real>, i: nat)
    requires |o| <= |t| && i < |o| && 0.0 < o[i] < 1.0
    ensures OutDeltas(o, t)[i] > 0.0 <==> o[i] > t[i]
    ensures OutDeltas(o, t)[i] < 0.0 <==> o[i] < t[i]
  {
    var s := o[i] * (1.0 - o[i]);
    assert s > 0.0;
    assert OutDeltas(o, t)[i] == (o[i] - t[i]) * s;
  }

  /** Layer m of the derivatives `D` is computed from layer m + 1 as
      `CalcDerivHidden` computes it. */
  ghost predicate BackStep(Ws: seq<seq<seq<real>>>, acts: seq<seq<real>>, D: seq<seq<real>>, m: nat)
    requires m + 1 < |Ws| && |acts| == |Ws| == |D|
  {
    D[m] == HidDeltas(Ws[m + 1], D[m + 1], acts[m])
  }

  /** Derivatives computed from the output back, each layer's from the one
      after it, as `CalcDerivOutput` and `CalcDerivHidden` compute them, are
      the ones `DeltaAt` defines. */
  lemma {:induction false} DeltasFromBack(Ws: seq<seq<seq<real>>>, acts: seq<seq<real>>, t: seq<real>, D: seq<seq<real>>, l: nat)
    requires |acts| == |Ws| == |D| && l < |Ws| && |acts[|Ws| - 1]| <= |t|
    requires D[|Ws| - 1] == OutDeltas(acts[|Ws| - 1], t)
    requires forall m :: l <= m < |Ws| - 1 ==> BackStep(Ws, acts, D, m)
    ensures D[l] == DeltaAt(Ws, acts, t, l)
    decreases |Ws| - l
  {
    if l < |Ws| - 1 {
      DeltasFromBack(Ws, acts, t, D, l + 1);
      assert BackStep(Ws, acts, D, l);
    }
  }

  /** `D` holds the derivatives `DeltaAt` defines for every layer. */
  ghost predicate AreDeltas(Ws: seq<seq<seq<real>>>, acts: seq<seq<real>>, t: seq<real>, D: seq<seq<real>>)
    requires Ws != [] && |acts| == |Ws| && |acts[|Ws| - 1]| <= |t|
  {
    |D| == |Ws| && forall l :: 0 <= l < |Ws| ==> D[l] == DeltaAt(Ws, acts, t, l)
  }

  /** All the layers at once: derivatives computed from the output back are
      those of `DeltaAt`. */
  lemma DeltasFromBackAll(Ws: seq<seq<seq<real>>>, acts: seq<seq<real>>, t: seq<real>, D: seq<seq<real>>)
    requires Ws != [] && |acts| == |Ws| == |D| && |acts[|Ws| - 1]| <= |t|
    requires D[|Ws| - 1] == OutDeltas(acts[|Ws| - 1], t)
    requires forall m :: 0 <= m < |Ws| - 1 ==> BackStep(Ws, acts, D, m)
    ensures AreDeltas(Ws, acts, t, D)
  {
    forall l | 0 <= l < |Ws|
      ensures D[l] == DeltaAt(Ws, acts, t, l)
    {
      DeltasFromBack(Ws, acts, t, D, l);
    }
  }

  /** `CorrectWeights` on one layer whose neurons have the weights `Ws` and
      the derivatives `d` and read the values `vs`. */
  function CorrectedLayer(Ws: seq<seq<real>>, vs: seq<real>, lr: real, d: seq<real>): (r: seq<seq<real>>)
    requires |d| == |Ws| && forall j :: 0 <= j < |Ws| ==> |Ws[j]| <= |vs|
    ensures |r| == |Ws| && forall j :: 0 <= j < |Ws| ==> |r[j]| == |Ws[j]|
  {
    seq(|Ws|, j requires 0 <= j < |Ws| => Corrected(Ws[j], vs, lr, d[j]))
  }

  /** The layers of a network can take their gradient step: layer l reads
      the values `F[l]` and has the derivatives `D[l]`. */
  ghost predicate Steppable(Ws: seq<seq<seq<real>>>, F: seq<seq<real>>, D: seq<seq<real>>) {
    && |F| == |Ws| == |D|
    && forall l :: 0 <= l < |Ws| ==> |D[l]| == |Ws[l]| && forall j :: 0 <= j < |Ws[l]| ==> |Ws[l][j]| <= |F[l]|
  }

  /** `CorrectWeights` on every layer: layer l reads the values `F[l]` and
      has the derivatives `D[l]`. */
  function CorrectedNet(Ws: seq<seq<seq<real>>>, F: seq<seq<real>>, lr: real, D: seq<seq<real>>): (r: seq<seq<seq<real>>>)
    requires Steppable(Ws, F, D)
    ensures |r| == |Ws| && forall l :: 0 <= l < |Ws| ==> r[l] == CorrectedLayer(Ws[l], F[l], lr, D[l])
  {
    seq(|Ws|, l requires 0 <= l < |Ws| => CorrectedLayer(Ws[l], F[l], lr, D[l]))
  }

  /** A gradient step with the values of a forward pass from `x` and the
      derivatives `DeltaAt` defines for the target `t` is the step
      `Trained` describes. */
  lemma CorrectedNetIsTrained(Ws: seq<seq<seq<real>>>, x: seq<real>, t: seq<real>, lr: real, F: seq<seq<real>>, D: seq<seq<real>>)
    requires Ws != [] && Fits(Ws, |x|) && |Ws[|Ws| - 1]| <= |t|
    requires |F| == |Ws| && forall l :: 0 <= l < |Ws| ==> F[l] == Feeding(Acts(Ws, x), x, l)
    requires AreDeltas(Ws, Acts(Ws, x), t, D)
    ensures Steppable(Ws, F, D)
    ensures CorrectedNet(Ws, F, lr, D) == Trained(Ws, x, t, lr)
  {
    var r := Trained(Ws, x, t, lr);
    forall l | 0 <= l < |Ws|
      ensures |D[l]| == |Ws[l]| && forall j :: 0 <= j < |Ws[l]| ==> |Ws[l][j]| <= |F[l]|
    {
      forall j | 0 <= j < |Ws[l]|
        ensures |Ws[l][j]| <= |F[l]|
      {
        TrainedAt(Ws, x, t, lr, l, j);
      }
    }
    forall l | 0 <= l < |Ws|
      ensures CorrectedLayer(Ws[l], F[l], lr, D[l]) == r[l]
    {
      forall j | 0 <= j < |Ws[l]|
        ensures CorrectedLayer(Ws[l], F[l], lr, D[l])[j] == r[l][j]
      {
        TrainedAt(Ws, x, t, lr, l, j);
      }
    }
  }
}
