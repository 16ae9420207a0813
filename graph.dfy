/** The graph engine (source_code/model/graphNetwork.hpp, graphNetwork.cpp):
    a network of `Neuron` objects, each holding references to the neurons of
    the layer before it. */
module Graph {
  import opened Wrappers
  import opened Activation
  import opened Neurons
  import opened Matrix
  import opened GraphSpec
  import opened Text
  import opened WeightFile
  import opened GraphWeights
  import opened Interface

  function Ones(n: nat): (r: seq<real>)
    ensures |r| == n && forall i :: 0 <= i < n ==> r[i] == 1.0
  {
    seq(n, i => 1.0)
  }

  /** The weights of a freshly set up network with `depth` hidden layers
      of `wHid` neurons between `wIn` inputs and `wOut` outputs: every
      neuron has weight 1 on every input. */
  ghost function UnitWeights(wIn: nat, depth: nat, wHid: nat, wOut: nat): (W: seq<seq<seq<real>>>)
    requires depth >= 1
    ensures |W| == depth + 1 && |W[depth]| == wOut
    ensures forall l :: 0 <= l < depth ==> |W[l]| == wHid
    ensures forall j :: 0 <= j < wHid ==> W[0][j] == Ones(wIn)
    ensures forall l, j :: 1 <= l <= depth && 0 <= j < |W[l]| ==> W[l][j] == Ones(wHid)
    ensures forall l, j, k :: 0 <= l < |W| && 0 <= j < |W[l]| && 0 <= k < |W[l][j]| ==> W[l][j][k] == 1.0
  {
    var first := seq(wHid, j => Ones(wIn));
    var middle := seq(wHid, j => Ones(wHid));
    var last := seq(wOut, j => Ones(wHid));
    var W := [first] + seq(depth - 1, l => middle) + [last];
    assert W[0] == first && W[depth] == last;
    assert forall l :: 1 <= l < depth ==> W[l] == middle;
    W
  }

  /** A neuron as `new Neuron()` leaves it, after `set_mode(mode)`. */
  ghost predicate Blank(n: Neuron, mode: int)
    reads n
  {
    n.inputs == [] && n.weights == [] && n.value == 0.0 && n.deriv == 0.0 && n.mode == mode
  }

  /** The loop of `CreateInputLayer` / `CreateOutputLayer` (and one row of
      `CreateHiddenLayer`): `num` fresh neurons, none when `num` is not
      positive, switched to the sigmoid mode when `sigmoid` holds. `pos`
      records that neuron j sits at (`tag`, j). */
  method CreateLayer(num: int, sigmoid: bool, ghost tag: int) returns (layer: seq<Neuron>, ghost pos: map<Neuron, (int, int)>)
    ensures |layer| == Max0(num)
    ensures forall j :: 0 <= j < |layer| ==> fresh(layer[j])
    ensures forall j :: 0 <= j < |layer| ==> Blank(layer[j], if sigmoid then SigmoidMode else Linear)
    ensures forall j :: 0 <= j < |layer| ==> layer[j] in pos && pos[layer[j]] == (tag, j)
    ensures forall n :: n in pos ==> n in layer
  {
    layer := [];
    pos := map[];
    var i := 0;
    while i < num
      invariant 0 <= i && |layer| == i && (num >= 0 ==> i <= num) && (num < 0 ==> i == 0)
      invariant forall j :: 0 <= j < |layer| ==> fresh(layer[j])
      invariant forall j :: 0 <= j < |layer| ==> Blank(layer[j], if sigmoid then SigmoidMode else Linear)
      invariant forall j :: 0 <= j < |layer| ==> layer[j] in pos && pos[layer[j]] == (tag, j)
      invariant forall n :: n in pos ==> n in layer
    {
      var one := new Neuron();
      if sigmoid {
        one.SetMode(SigmoidMode);
      }
      pos := pos[one := (tag, |layer|)];
      layer := layer + [one];
      i := i + 1;
    }
  }

  /** The inner loop of the connecting functions: `n` reads every neuron
      of `src`, in order, with weight 1. */
  method ConnectOne(n: Neuron, src: seq<Neuron>)
    modifies n
    ensures n.inputs == old(n.inputs) + src && n.weights == old(n.weights) + Ones(|src|)
    ensures n.value == old(n.value) && n.mode == old(n.mode) && n.deriv == old(n.deriv)
  {
    var k := 0;
    while k < |src|
      invariant 0 <= k <= |src|
      invariant n.inputs == old(n.inputs) + src[..k] && n.weights == old(n.weights) + Ones(k)
      invariant n.value == old(n.value) && n.mode == old(n.mode) && n.deriv == old(n.deriv)
    {
      n.AddUnitInput(src[k]);
      assert src[..k + 1] == src[..k] + [src[k]];
      assert Ones(k + 1) == Ones(k) + [1.0];
      k := k + 1;
    }
    assert src[..k] == src;
  }

  /** `ConnectInputHidden`, `ConnectHiddenOutput` and each layer step of
      `StitchHidden`: every neuron of `dst` reads every neuron of `src`. */
  method Connect(dst: seq<Neuron>, src: seq<Neuron>)
    requires forall i, k :: 0 <= i < k < |dst| ==> dst[i] != dst[k]
    modifies set n | n in dst
    ensures forall j :: 0 <= j < |dst| ==>
      dst[j].inputs == old(dst[j].inputs) + src && dst[j].weights == old(dst[j].weights) + Ones(|src|)
    ensures forall j :: 0 <= j < |dst| ==>
      dst[j].value == old(dst[j].value) && dst[j].mode == old(dst[j].mode) && dst[j].deriv == old(dst[j].deriv)
  {
    var j := 0;
    while j < |dst|
      invariant 0 <= j <= |dst|
      invariant forall t :: 0 <= t < j ==>
        dst[t].inputs == old(dst[t].inputs) + src && dst[t].weights == old(dst[t].weights) + Ones(|src|)
      invariant forall t :: j <= t < |dst| ==> dst[t].inputs == old(dst[t].inputs) && dst[t].weights == old(dst[t].weights)
      invariant forall t :: 0 <= t < |dst| ==>
        dst[t].value == old(dst[t].value) && dst[t].mode == old(dst[t].mode) && dst[t].deriv == old(dst[t].deriv)
    {
      ConnectOne(dst[j], src);
      j := j + 1;
    }
  }

  /** `CreateHiddenLayer(depth, width)`: `depth` layers of `width` fresh
      sigmoid neurons, then `StitchHidden`, which connects each layer after
      the first to the one before it. `StitchHidden` reads the width off
      `hidden_layer_[1]`, so there must be at least two layers. */
  method CreateHiddenLayers(depth: int, width: int) returns (H: seq<seq<Neuron>>, ghost pos: map<Neuron, (int, int)>)
    requires depth >= 2
    ensures |H| == depth
    ensures forall l :: 0 <= l < depth ==> |H[l]| == Max0(width)
    ensures forall l, j :: 0 <= l < depth && 0 <= j < |H[l]| ==> fresh(H[l][j])
    ensures forall l, j :: 0 <= l < depth && 0 <= j < |H[l]| ==> H[l][j] in pos && pos[H[l][j]] == (l, j)
    ensures forall n :: n in pos ==> fresh(n)
    ensures forall l, j :: 0 <= l < depth && 0 <= j < |H[l]| ==>
      H[l][j].value == 0.0 && H[l][j].deriv == 0.0 && H[l][j].mode == SigmoidMode
    ensures forall j :: 0 <= j < |H[0]| ==> H[0][j].inputs == [] && H[0][j].weights == []
    ensures forall l, j :: 1 <= l < depth && 0 <= j < |H[l]| ==>
      H[l][j].inputs == H[l - 1] && H[l][j].weights == Ones(Max0(width))
  {
    H := [];
    pos := map[];
    var i := 0;
    while i < depth
      invariant 0 <= i <= depth && |H| == i
      invariant forall l :: 0 <= l < i ==> |H[l]| == Max0(width)
      invariant forall l, j :: 0 <= l < i && 0 <= j < |H[l]| ==> fresh(H[l][j])
      invariant forall l, j :: 0 <= l < i && 0 <= j < |H[l]| ==> H[l][j] in pos && pos[H[l][j]] == (l, j)
      invariant forall n :: n in pos ==> fresh(n)
      invariant forall l, j :: 0 <= l < i && 0 <= j < |H[l]| ==> Blank(H[l][j], SigmoidMode)
    {
      var layer, lpos := CreateLayer(width, true, i);
      pos := pos + lpos;
      H := H + [layer];
      i := i + 1;
    }
    // StitchHidden
    i := 1;
    while i < depth
      invariant 1 <= i <= depth
      invariant forall l, j :: 0 <= l < depth && 0 <= j < |H[l]| ==>
        H[l][j].value == 0.0 && H[l][j].deriv == 0.0 && H[l][j].mode == SigmoidMode
      invariant forall l, j :: 1 <= l < i && 0 <= j < |H[l]| ==>
        H[l][j].inputs == H[l - 1] && H[l][j].weights == Ones(Max0(width))
      invariant forall l, j :: (l == 0 || i <= l < depth) && 0 <= j < |H[l]| ==>
        H[l][j].inputs == [] && H[l][j].weights == []
    {
      Connect(H[i], H[i - 1]);
      i := i + 1;
    }
  }

  /** The creating part of `SetupNetwork`: `CreateInputLayer`,
      `CreateHiddenLayer` and `CreateOutputLayer`, on fresh neurons. */
  method CreateLayers(wdtIn: int, numHid: int, wdtHid: int, wdtOut: int)
    returns (ins: seq<Neuron>, hid: seq<seq<Neuron>>, outs: seq<Neuron>, ghost pos: map<Neuron, (int, int)>)
    requires numHid >= 2
    ensures |ins| == Max0(wdtIn) && |hid| == numHid && |outs| == Max0(wdtOut)
    ensures forall l :: 0 <= l < numHid ==> |hid[l]| == Max0(wdtHid)
    ensures forall n :: n in pos ==> fresh(n)
    ensures forall j :: 0 <= j < |ins| ==> ins[j] in pos && pos[ins[j]] == (-1, j)
    ensures forall l, j :: 0 <= l < numHid && 0 <= j < |hid[l]| ==> hid[l][j] in pos && pos[hid[l][j]] == (l, j)
    ensures forall j :: 0 <= j < |outs| ==> outs[j] in pos && pos[outs[j]] == (numHid, j)
    ensures forall j :: 0 <= j < |ins| ==> ins[j].value == 0.0
    ensures forall l, j :: 0 <= l < numHid && 0 <= j < |hid[l]| ==>
      hid[l][j].value == 0.0 && hid[l][j].mode == SigmoidMode
    ensures forall j :: 0 <= j < |hid[0]| ==> hid[0][j].inputs == [] && hid[0][j].weights == []
    ensures forall l, j :: 1 <= l < numHid && 0 <= j < |hid[l]| ==>
      hid[l][j].inputs == hid[l - 1] && hid[l][j].weights == Ones(Max0(wdtHid))
    ensures forall j :: 0 <= j < |outs| ==> Blank(outs[j], SigmoidMode)
  {
    ghost var inPos, hidPos, outPos;
    ins, inPos := CreateLayer(wdtIn, false, -1);
    hid, hidPos := CreateHiddenLayers(numHid, wdtHid);
    outs, outPos := CreateLayer(wdtOut, true, numHid);
    pos := inPos + hidPos + outPos;
    assert forall j :: 0 <= j < |ins| ==> ins[j] !in hidPos && ins[j] !in outPos;
    assert forall l, j :: 0 <= l < numHid && 0 <= j < |hid[l]| ==> hid[l][j] !in outPos;
  }

  /** The building part of `SetupNetwork`: the layers are created, then
      `ConnectInputHidden` and `ConnectHiddenOutput` wire the ends. */
  method BuildLayers(wdtIn: int, numHid: int, wdtHid: int, wdtOut: int)
    returns (ins: seq<Neuron>, hid: seq<seq<Neuron>>, outs: seq<Neuron>, ghost pos: map<Neuron, (int, int)>)
    requires numHid >= 2
    ensures |ins| == Max0(wdtIn) && |hid| == numHid && |outs| == Max0(wdtOut)
    ensures forall l :: 0 <= l < numHid ==> |hid[l]| == Max0(wdtHid)
    ensures forall n :: n in pos ==> fresh(n)
    ensures forall j :: 0 <= j < |ins| ==> ins[j] in pos && pos[ins[j]] == (-1, j)
    ensures forall l, j :: 0 <= l < numHid && 0 <= j < |hid[l]| ==> hid[l][j] in pos && pos[hid[l][j]] == (l, j)
    ensures forall j :: 0 <= j < |outs| ==> outs[j] in pos && pos[outs[j]] == (numHid, j)
    ensures forall j :: 0 <= j < |ins| ==> ins[j].value == 0.0
    ensures forall l, j :: 0 <= l < numHid && 0 <= j < |hid[l]| ==>
      hid[l][j].value == 0.0 && hid[l][j].mode == SigmoidMode
    ensures forall j :: 0 <= j < |outs| ==> outs[j].value == 0.0 && outs[j].mode == SigmoidMode
    ensures forall j :: 0 <= j < |hid[0]| ==> hid[0][j].inputs == ins && hid[0][j].weights == Ones(|ins|)
    ensures forall l, j :: 1 <= l < numHid && 0 <= j < |hid[l]| ==>
      hid[l][j].inputs == hid[l - 1] && hid[l][j].weights == Ones(Max0(wdtHid))
    ensures forall j :: 0 <= j < |outs| ==>
      outs[j].inputs == hid[numHid - 1] && outs[j].weights == Ones(Max0(wdtHid))
  {
    ins, hid, outs, pos := CreateLayers(wdtIn, numHid, wdtHid, wdtOut);
    assert forall i, k :: 0 <= i < k < |hid[0]| ==> pos[hid[0][i]] != pos[hid[0][k]];
    Connect(hid[0], ins);
    assert forall i, k :: 0 <= i < k < |outs| ==> pos[outs[i]] != pos[outs[k]];
    Connect(outs, hid[numHid - 1]);
  }

  /** The weights after `ResizeHidden` to `depth` layers of `wHid`
      neurons: the new hidden layers hold weight 1 on every input, and
      output neuron j keeps its old weights `outW[j]`, followed by one
      weight 1 per neuron of the new last hidden layer. */
  ghost function ResizedWeights(wIn: nat, depth: nat, wHid: nat, outW: seq<seq<real>>): (W: seq<seq<seq<real>>>)
    requires depth >= 1
    ensures |W| == depth + 1 && |W[depth]| == |outW|
    ensures forall l :: 0 <= l < depth ==> W[l] == UnitWeights(wIn, depth, wHid, |outW|)[l]
    ensures forall j :: 0 <= j < |outW| ==> W[depth][j] == outW[j] + Ones(wHid)
  {
    UnitWeights(wIn, depth, wHid, |outW|)[depth := seq(|outW|, j requires 0 <= j < |outW| => outW[j] + Ones(wHid))]
  }

  /** With no weights kept, the resized weights are those of a fresh
      network. */
  lemma ResizedFromNothing(wIn: nat, depth: nat, wHid: nat, outW: seq<seq<real>>)
    requires depth >= 1 && forall j :: 0 <= j < |outW| ==> outW[j] == []
    ensures ResizedWeights(wIn, depth, wHid, outW) == UnitWeights(wIn, depth, wHid, |outW|)
  {
    var U := UnitWeights(wIn, depth, wHid, |outW|);
    var R := ResizedWeights(wIn, depth, wHid, outW);
    forall j | 0 <= j < |outW|
      ensures R[depth][j] == U[depth][j]
    {
      assert outW[j] + Ones(wHid) == Ones(wHid);
    }
    assert R[depth] == U[depth];
  }

  /** As written, resizing a network whose output neurons hold one weight
      per neuron of a non-empty last hidden layer leaves each of them with
      twice as many weights as inputs. */
  lemma ResizeMisaligns(wIn: nat, depth: nat, wHid: nat, outW: seq<seq<real>>, j: nat)
    requires depth >= 1 && j < |outW| && |outW[j]| == wHid
    ensures |ResizedWeights(wIn, depth, wHid, outW)[depth][j]| == 2 * wHid
  {
  }

  /** The smallest case: `SetupNetwork(1, 2, 1, 1)` gives the output neuron
      the weights [1]; `ResizeHidden(3)` leaves it reading one neuron with
      the weights [1, 1], and a training step (`Neuron::CorrectWeights`,
      which walks the weight list) then reads a second input that does not
      exist. */
  lemma {:induction false} ResizeExample()
    ensures UnitWeights(1, 2, 1, 1)[2] == [[1.0]]
    ensures ResizedWeights(1, 3, 1, UnitWeights(1, 2, 1, 1)[2])[3] == [[1.0, 1.0]]
  {
    var U := UnitWeights(1, 2, 1, 1);
    assert U[2][0] == [1.0];
    var R := ResizedWeights(1, 3, 1, U[2]);
    assert Ones(1) == [1.0];
    assert R[3][0] == [1.0] + [1.0] == [1.0, 1.0];
    assert |R[3]| == 1;
    assert R[3] == [R[3][0]];
  }

  /** `SeparateHiddenOutput`: every output neuron drops its inputs with
      `ClearInput`, which keeps the weight list; with `dropWeights` (the
      corrected resize) the weight list goes too. */
  method SeparateOutputs(outs: seq<Neuron>, dropWeights: bool)
    requires Distinct(outs)
    modifies set n | n in outs
    ensures forall j :: 0 <= j < |outs| ==>
      outs[j].inputs == [] && outs[j].weights == (if dropWeights then [] else old(outs[j].weights))
    ensures forall j :: 0 <= j < |outs| ==>
      outs[j].value == old(outs[j].value) && outs[j].mode == old(outs[j].mode) && outs[j].deriv == old(outs[j].deriv)
  {
    var j := 0;
    while j < |outs|
      invariant 0 <= j <= |outs|
      invariant forall t :: 0 <= t < j ==>
        outs[t].inputs == [] && outs[t].weights == (if dropWeights then [] else old(outs[t].weights))
      invariant forall t :: j <= t < |outs| ==> outs[t].inputs == old(outs[t].inputs) && outs[t].weights == old(outs[t].weights)
      invariant forall t :: 0 <= t < |outs| ==>
        outs[t].value == old(outs[t].value) && outs[t].mode == old(outs[t].mode) && outs[t].deriv == old(outs[t].deriv)
    {
      if dropWeights {
        outs[j].ClearConnections();
      } else {
        outs[j].ClearInput();
      }
      j := j + 1;
    }
  }

  /** The rebuilding part of `ResizeHidden`: the output layer is separated,
      `depth` fresh hidden layers of `width` neurons are created and
      stitched (`CreateHiddenLayer` separates the output layer once more,
      which changes nothing), then connected to the input layer `ins` and
      to the output layer `outs`. */
  method Rewire(ins: seq<Neuron>, outs: seq<Neuron>, depth: nat, width: nat, dropWeights: bool)
    returns (hid: seq<seq<Neuron>>, ghost hpos: map<Neuron, (int, int)>)
    requires depth >= 2 && Distinct(outs)
    modifies set n | n in outs
    ensures |hid| == depth && forall l :: 0 <= l < depth ==> |hid[l]| == width
    ensures forall n :: n in hpos ==> fresh(n)
    ensures forall l, j :: 0 <= l < depth && 0 <= j < width ==> hid[l][j] in hpos && hpos[hid[l][j]] == (l, j)
    ensures forall l, j :: 0 <= l < depth && 0 <= j < width ==> hid[l][j].mode == SigmoidMode
    ensures forall j :: 0 <= j < width ==> hid[0][j].inputs == ins && hid[0][j].weights == Ones(|ins|)
    ensures forall l, j :: 1 <= l < depth && 0 <= j < width ==>
      hid[l][j].inputs == hid[l - 1] && hid[l][j].weights == Ones(width)
    ensures forall j :: 0 <= j < |outs| ==>
      outs[j].inputs == hid[depth - 1] && outs[j].weights == (if dropWeights then [] else old(outs[j].weights)) + Ones(width)
    ensures forall j :: 0 <= j < |outs| ==>
      outs[j].value == old(outs[j].value) && outs[j].mode == old(outs[j].mode) && outs[j].deriv == old(outs[j].deriv)
  {
    SeparateOutputs(outs, dropWeights);
    hid, hpos := CreateHiddenLayers(depth, width);
    assert forall i, k :: 0 <= i < k < |hid[0]| ==> hpos[hid[0][i]] != hpos[hid[0][k]];
    Connect(hid[0], ins);
    Connect(outs, hid[depth - 1]);
  }

  /** One step of `Execute`: neuron `n`, reading the neurons `ins` with
      weights `ws`, takes the sigmoid of its weighted input sum. */
  method ActivateNeuron(n: Neuron, ghost ins: seq<Neuron>, ghost ws: seq<real>, ghost prev: seq<real>)
    requires n.inputs == ins && n.weights == ws && |ins| <= |ws| && n.mode == SigmoidMode
    requires n !in ins && Values(ins) == prev
    modifies n
    ensures n.value == Sigmoid(WeightedSum(ws, prev)) && Values(ins) == prev
    ensures n.inputs == ins && n.weights == ws && n.mode == SigmoidMode && n.deriv == old(n.deriv)
  {
    n.Activate();
  }

  /** The loop of `Execute` over one layer: each neuron of `layer` in turn,
      reading the neurons `ins` with its weights in `ws`, takes the sigmoid
      of its weighted input sum. */
  method ActivateAll(layer: seq<Neuron>, ghost ins: seq<Neuron>, ghost ws: seq<seq<real>>)
    requires |ws| == |layer|
    requires forall t :: 0 <= t < |layer| ==>
      && layer[t].inputs == ins && layer[t].weights == ws[t] && |ins| <= |ws[t]|
      && layer[t].mode == SigmoidMode && layer[t] !in ins
    requires forall t, u :: 0 <= t < u < |layer| ==> layer[t] != layer[u]
    modifies set n | n in layer
    ensures forall n :: n in layer ==>
      && n.inputs == old(n.inputs) && n.weights == old(n.weights)
      && n.mode == old(n.mode) && n.deriv == old(n.deriv)
    ensures Values(ins) == old(Values(ins))
    ensures forall t :: 0 <= t < |layer| ==> layer[t].value == Sigmoid(WeightedSum(ws[t], Values(ins)))
  {
    ghost var prev := Values(ins);
    var j := 0;
    while j < |layer|
      invariant 0 <= j <= |layer|
      invariant forall n :: n in layer ==>
        && n.inputs == old(n.inputs) && n.weights == old(n.weights)
        && n.mode == old(n.mode) && n.deriv == old(n.deriv)
      invariant forall t :: 0 <= t < j ==> layer[t].value == Sigmoid(WeightedSum(ws[t], prev))
      invariant Values(ins) == prev
    {
      ActivateNeuron(layer[j], ins, ws[j], prev);
      j := j + 1;
    }
  }

  /** Neurons at different indexes of `ns` are different objects. */
  ghost predicate Distinct(ns: seq<Neuron>) {
    forall a, b :: 0 <= a < b < |ns| ==> ns[a] != ns[b]
  }

  /** The loop of `CalcDerivOutput` over the output neurons `outs` with the
      expected values `t`. */
  method SetOutputDerivs(outs: seq<Neuron>, t: seq<real>)
    requires |outs| <= |t| && Distinct(outs)
    modifies set n | n in outs
    ensures Values(outs) == old(Values(outs))
    ensures Derivs(outs) == OutDeltas(Values(outs), t)
    ensures forall n :: n in outs ==>
      n.inputs == old(n.inputs) && n.weights == old(n.weights) && n.mode == old(n.mode) && n.value == old(n.value)
  {
    ghost var o := Values(outs);
    var i := 0;
    while i < |outs|
      invariant 0 <= i <= |outs|
      invariant forall n :: n in outs ==>
        n.inputs == old(n.inputs) && n.weights == old(n.weights) && n.mode == old(n.mode) && n.value == old(n.value)
      invariant forall k :: 0 <= k < i ==> outs[k].deriv == OutDeltas(o, t)[k]
    {
      var value := outs[i].value;
      var deriv := (value - t[i]) * value * (1.0 - value);
      outs[i].SetDeriv(deriv);
      i := i + 1;
    }
    assert Values(outs) == o;
  }

  /** The inner loop of `CalcDerivHidden`: what neuron j of a layer receives
      from the neurons `next` of the layer after it. */
  method BackSumOf(next: seq<Neuron>, j: nat) returns (s: real)
    requires forall k :: 0 <= k < |next| ==> j < |next[k].weights|
    ensures s == BackSum(WeightsOf(next), Derivs(next), j)
  {
    ghost var Wn, d := WeightsOf(next), Derivs(next);
    s := 0.0;
    var k := 0;
    while k < |next|
      invariant 0 <= k <= |next|
      invariant s == BackSum(Wn, d[..k], j)
    {
      assert d[..k + 1][..k] == d[..k];
      s := s + next[k].deriv * next[k].weights[j];
      k := k + 1;
    }
    assert d[..k] == d;
  }

  /** The loop of `CalcDerivHidden` over one hidden layer `layer`, whose
      next layer is `next`. */
  method SetHiddenDerivs(layer: seq<Neuron>, next: seq<Neuron>)
    requires Distinct(layer)
    requires forall a, b :: 0 <= a < |layer| && 0 <= b < |next| ==> layer[a] != next[b]
    requires forall k :: 0 <= k < |next| ==> |layer| <= |next[k].weights|
    modifies set n | n in layer
    ensures Values(layer) == old(Values(layer))
    ensures Derivs(layer) == HidDeltas(WeightsOf(next), Derivs(next), Values(layer))
    ensures WeightsOf(next) == old(WeightsOf(next)) && Derivs(next) == old(Derivs(next))
    ensures forall n :: n in layer ==>
      n.inputs == old(n.inputs) && n.weights == old(n.weights) && n.mode == old(n.mode) && n.value == old(n.value)
  {
    ghost var v, Wn, d := Values(layer), WeightsOf(next), Derivs(next);
    var j := 0;
    while j < |layer|
      invariant 0 <= j <= |layer|
      invariant forall n :: n in layer ==>
        n.inputs == old(n.inputs) && n.weights == old(n.weights) && n.mode == old(n.mode) && n.value == old(n.value)
      invariant WeightsOf(next) == Wn && Derivs(next) == d
      invariant forall k :: 0 <= k < j ==> layer[k].deriv == HidDeltas(Wn, d, v)[k]
    {
      SetHiddenDeriv(layer, next, j, v, Wn, d);
      j := j + 1;
    }
    assert Values(layer) == v;
  }

  /** One step of `SetHiddenDerivs`: neuron j of `layer` gets its delta. */
  method SetHiddenDeriv(layer: seq<Neuron>, next: seq<Neuron>, j: nat,
                        ghost v: seq<real>, ghost Wn: seq<seq<real>>, ghost d: seq<real>)
    requires j < |layer| && Distinct(layer) && v == Values(layer)
    requires forall a, b :: 0 <= a < |layer| && 0 <= b < |next| ==> layer[a] != next[b]
    requires forall k :: 0 <= k < |next| ==> |layer| <= |next[k].weights|
    requires WeightsOf(next) == Wn && Derivs(next) == d
    modifies layer[j]
    ensures layer[j].deriv == HidDeltas(Wn, d, v)[j]
    ensures layer[j].inputs == old(layer[j].inputs) && layer[j].weights == old(layer[j].weights)
    ensures layer[j].mode == old(layer[j].mode) && layer[j].value == old(layer[j].value)
    ensures WeightsOf(next) == Wn && Derivs(next) == d
  {
    var sum := BackSumOf(next, j);
    var value := layer[j].value;
    var deriv := sum * Slope(value);
    assert deriv == HidDeltas(Wn, d, v)[j];
    layer[j].SetDeriv(deriv);
    assert WeightsOf(next) == Wn && Derivs(next) == d by {
      assert forall k :: 0 <= k < |next| ==> next[k].weights == Wn[k] && next[k].deriv == d[k];
    }
  }

  /** Neuron j of layer l of `L` is recorded at (l, j) in `pos`, so
      neurons at different places are different objects. */
  ghost predicate Indexed(L: seq<seq<Neuron>>, pos: map<Neuron, (int, int)>) {
    forall l, j :: 0 <= l < |L| && 0 <= j < |L[l]| ==> L[l][j] in pos && pos[L[l][j]] == (l, j)
  }

  /** Layer l of `L` holds the derivatives it takes from layer l + 1. */
  ghost predicate BackLinked(L: seq<seq<Neuron>>, l: int)
    requires 0 <= l < |L| - 1
    reads L[l], L[l + 1]
  {
    Derivs(L[l]) == HidDeltas(WeightsOf(L[l + 1]), Derivs(L[l + 1]), Values(L[l]))
  }

  /** The loop of `CalcDerivHidden` over the layers `L` (the hidden layers
      followed by the output layer): from the last hidden layer down to the
      first, each layer's derivatives from those of the layer after it. */
  method SetAllHiddenDerivs(L: seq<seq<Neuron>>, ghost pos: map<Neuron, (int, int)>)
    requires L != [] && Indexed(L, pos)
    requires forall l, k :: 0 < l < |L| && 0 <= k < |L[l]| ==> |L[l - 1]| <= |L[l][k].weights|
    modifies set n | n in pos && 0 <= pos[n].0 < |L| - 1
    ensures forall n :: n in pos ==>
      n.inputs == old(n.inputs) && n.weights == old(n.weights) && n.mode == old(n.mode) && n.value == old(n.value)
    ensures forall n :: n in pos && !(0 <= pos[n].0 < |L| - 1) ==> n.deriv == old(n.deriv)
    ensures forall l :: 0 <= l < |L| ==> Values(L[l]) == old(Values(L[l])) && WeightsOf(L[l]) == old(WeightsOf(L[l]))
    ensures Derivs(L[|L| - 1]) == old(Derivs(L[|L| - 1]))
    ensures forall l :: 0 <= l < |L| - 1 ==> BackLinked(L, l)
  {
    ghost var V, W, D := LayerValues(L), LayerWeights(L), LayerDerivs(L);
    ghost var last := D[|L| - 1];
    var i := |L| - 2;
    while i >= 0
      invariant -1 <= i <= |L| - 2 && |D| == |L|
      invariant forall n :: n in pos ==>
        n.inputs == old(n.inputs) && n.weights == old(n.weights) && n.mode == old(n.mode) && n.value == old(n.value)
      invariant forall l :: 0 <= l < |L| ==> Values(L[l]) == V[l] && WeightsOf(L[l]) == W[l] && Derivs(L[l]) == D[l]
      invariant D[|L| - 1] == last
      invariant |V| == |W| == |D| && BackChain(V, W, D, i)
    {
      ghost var D0 := D;
      D := HiddenDerivsStep(L, pos, i, V, W, D);
      BackChainStep(V, W, D0, i);
      i := i - 1;
    }
    forall l | 0 <= l < |L| - 1
      ensures BackLinked(L, l)
    {
      assert D[l] == HidDeltas(W[l + 1], D[l + 1], V[l]);
    }
  }

  /** Every derivative row of `D` after row `i`, except the last, comes from
      the row after it, the weights `W` and the values `V`. */
  ghost predicate BackChain(V: seq<seq<real>>, W: seq<seq<seq<real>>>, D: seq<seq<real>>, i: int)
    requires |V| == |W| == |D|
  {
    forall l :: 0 <= l < |D| - 1 && i < l ==> D[l] == HidDeltas(W[l + 1], D[l + 1], V[l])
  }

  /** Setting row i from row i + 1 extends the chain down to row i. */
  lemma BackChainStep(V: seq<seq<real>>, W: seq<seq<seq<real>>>, D: seq<seq<real>>, i: int)
    requires |V| == |W| == |D| && 0 <= i < |D| - 1 && BackChain(V, W, D, i)
    ensures BackChain(V, W, D[i := HidDeltas(W[i + 1], D[i + 1], V[i])], i - 1)
  {
    var D' := D[i := HidDeltas(W[i + 1], D[i + 1], V[i])];
    forall l | 0 <= l < |D'| - 1 && i - 1 < l
      ensures D'[l] == HidDeltas(W[l + 1], D'[l + 1], V[l])
    {
      assert D'[l + 1] == D[l + 1];
    }
  }

  /** The body of the loop of `SetAllHiddenDerivs`: layer i of `L` takes
      its derivatives from layer i + 1; nothing else changes. `V`, `W` and
      `D` are the values, weights and derivatives of the layers before the
      step, `D'` the derivatives after it. */
  method HiddenDerivsStep(L: seq<seq<Neuron>>, ghost pos: map<Neuron, (int, int)>, i: int,
                          ghost V: seq<seq<real>>, ghost W: seq<seq<seq<real>>>, ghost D: seq<seq<real>>)
    returns (ghost D': seq<seq<real>>)
    requires Indexed(L, pos) && 0 <= i < |L| - 1 && |V| == |W| == |D| == |L|
    requires forall l :: 0 <= l < |L| ==> Values(L[l]) == V[l] && WeightsOf(L[l]) == W[l] && Derivs(L[l]) == D[l]
    requires forall l, k :: 0 < l < |L| && 0 <= k < |L[l]| ==> |L[l - 1]| <= |L[l][k].weights|
    modifies set n | n in L[i]
    ensures forall n :: n in pos ==>
      n.inputs == old(n.inputs) && n.weights == old(n.weights) && n.mode == old(n.mode) && n.value == old(n.value)
    ensures D' == D[i := HidDeltas(W[i + 1], D[i + 1], V[i])]
    ensures forall l :: 0 <= l < |L| ==> Values(L[l]) == V[l] && WeightsOf(L[l]) == W[l] && Derivs(L[l]) == D'[l]
    ensures BackLinked(L, i)
  {
    SeparateLayers(L, pos, i, i + 1);
    SetHiddenDerivs(L[i], L[i + 1]);
    D' := D[i := HidDeltas(W[i + 1], D[i + 1], V[i])];
    forall l | 0 <= l < |L| && l != i
      ensures Values(L[l]) == V[l] && WeightsOf(L[l]) == W[l] && Derivs(L[l]) == D[l]
    {
      SeparateLayers(L, pos, i, l);
    }
  }

  /** Layers at different indexes of `L` share no neuron. */
  lemma SeparateLayers(L: seq<seq<Neuron>>, pos: map<Neuron, (int, int)>, a: int, b: int)
    requires Indexed(L, pos) && 0 <= a < |L| && 0 <= b < |L| && a != b
    ensures forall x, y :: 0 <= x < |L[a]| && 0 <= y < |L[b]| ==> L[a][x] != L[b][y]
    ensures forall y :: 0 <= y < |L[b]| ==> L[b][y] !in L[a]
  {
    forall y | 0 <= y < |L[b]|
      ensures L[b][y] !in L[a]
    {
      assert pos[L[b][y]].0 == b;
    }
  }

  /** The derivatives of every layer of `L`. */
  ghost function LayerDerivs(L: seq<seq<Neuron>>): (r: seq<seq<real>>)
    reads set l, j | 0 <= l < |L| && 0 <= j < |L[l]| :: L[l][j]
    ensures |r| == |L| && forall l :: 0 <= l < |L| ==> r[l] == Derivs(L[l])
  {
    if L == [] then [] else LayerDerivs(L[..|L| - 1]) + [Derivs(L[|L| - 1])]
  }

  /** The values of every layer of `L`. */
  ghost function LayerValues(L: seq<seq<Neuron>>): (r: seq<seq<real>>)
    reads set l, j | 0 <= l < |L| && 0 <= j < |L[l]| :: L[l][j]
    ensures |r| == |L| && forall l :: 0 <= l < |L| ==> r[l] == Values(L[l])
  {
    if L == [] then [] else LayerValues(L[..|L| - 1]) + [Values(L[|L| - 1])]
  }

  /** The weights of every layer of `L`. */
  ghost function LayerWeights(L: seq<seq<Neuron>>): (r: seq<seq<seq<real>>>)
    reads set l, j | 0 <= l < |L| && 0 <= j < |L[l]| :: L[l][j]
    ensures |r| == |L| && forall l :: 0 <= l < |L| ==> r[l] == WeightsOf(L[l])
  {
    if L == [] then [] else LayerWeights(L[..|L| - 1]) + [WeightsOf(L[|L| - 1])]
  }

  /** A gradient step keeps the number of weights of every neuron. */
  lemma SteppedLengths(W1: seq<seq<seq<real>>>, W0: seq<seq<seq<real>>>, F: seq<seq<real>>, lr: real, D: seq<seq<real>>)
    requires |W1| == |W0| == |F| == |D|
    requires forall l :: 0 <= l < |W0| ==> Stepped(W1[l], W0[l], F[l], lr, D[l])
    ensures forall l :: 0 <= l < |W0| ==> |W1[l]| == |W0[l]| && forall j :: 0 <= j < |W1[l]| ==> |W1[l][j]| == |W0[l][j]|
  {
  }

  /** The weights the layers `L` hold after each took its gradient step. */
  lemma SteppedHolds(L: seq<seq<Neuron>>, W0: Net, F: seq<seq<real>>, lr: real, D: seq<seq<real>>) returns (W1: Net)
    requires |W0| == |F| == |D| == |L|
    requires forall l :: 0 <= l < |L| ==> Stepped(WeightsOf(L[l]), W0[l], F[l], lr, D[l])
    ensures Holds(L, W1) && SameDims(W1, W0)
    ensures forall l :: 0 <= l < |W0| ==> Stepped(W1[l], W0[l], F[l], lr, D[l])
  {
    W1 := LayerWeights(L);
    SteppedLengths(W1, W0, F, lr, D);
  }

  /** Layers that each took their gradient step took the network's. */
  lemma SteppedNet(W1: seq<seq<seq<real>>>, W0: seq<seq<seq<real>>>, F: seq<seq<real>>, lr: real, D: seq<seq<real>>)
    requires |W1| == |W0| == |F| == |D|
    requires forall l :: 0 <= l < |W0| ==> Stepped(W1[l], W0[l], F[l], lr, D[l])
    ensures Steppable(W0, F, D) && W1 == CorrectedNet(W0, F, lr, D)
  {
  }

  lemma BackStepOfLinked(L: seq<seq<Neuron>>, Ws: seq<seq<seq<real>>>, acts: seq<seq<real>>, D: seq<seq<real>>, m: nat)
    requires m + 1 < |L| == |Ws| == |acts| == |D|
    requires D[m] == Derivs(L[m]) && D[m + 1] == Derivs(L[m + 1])
    requires Ws[m + 1] == WeightsOf(L[m + 1]) && acts[m] == Values(L[m])
    requires BackLinked(L, m)
    ensures BackStep(Ws, acts, D, m)
  {
  }

  /** The derivatives `D` of the layers `L`, whose neurons hold the weights
      `Ws` and the values `acts`, are computed layer by layer from the back
      when every layer but the last is `BackLinked`. */
  lemma LinkedBackSteps(L: seq<seq<Neuron>>, Ws: seq<seq<seq<real>>>, acts: seq<seq<real>>, D: seq<seq<real>>)
    requires |L| == |Ws| == |acts| == |D|
    requires forall l :: 0 <= l < |L| ==> D[l] == Derivs(L[l])
    requires forall l :: 0 <= l < |L| ==> Values(L[l]) == acts[l] && WeightsOf(L[l]) == Ws[l]
    requires forall l :: 0 <= l < |L| - 1 ==> BackLinked(L, l)
    ensures forall m :: 0 <= m < |L| - 1 ==> BackStep(Ws, acts, D, m)
  {
    forall m | 0 <= m < |L| - 1
      ensures BackStep(Ws, acts, D, m)
    {
      BackStepOfLinked(L, Ws, acts, D, m);
    }
  }

  /** Layers `L` holding the weights `Ws`, the values `acts` and the
      derivatives `D`, the last layer's from the expected values `t` and
      every other layer's from the layer after it: `D` are the derivatives
      `DeltaAt` defines. */
  lemma LinkedDeltas(L: seq<seq<Neuron>>, Ws: seq<seq<seq<real>>>, acts: seq<seq<real>>, t: seq<real>, D: seq<seq<real>>)
    requires L != [] && |L| == |Ws| == |acts| == |D| && |acts[|L| - 1]| <= |t|
    requires forall l :: 0 <= l < |L| ==> D[l] == Derivs(L[l])
    requires forall l :: 0 <= l < |L| ==> Values(L[l]) == acts[l] && WeightsOf(L[l]) == Ws[l]
    requires forall l :: 0 <= l < |L| - 1 ==> BackLinked(L, l)
    requires D[|L| - 1] == OutDeltas(acts[|L| - 1], t)
    ensures AreDeltas(Ws, acts, t, D)
  {
    LinkedBackSteps(L, Ws, acts, D);
    DeltasFromBackAll(Ws, acts, t, D);
  }

  /** The loop of the network's `CorrectWeights` over one layer `layer`,
      every neuron of which reads the neurons `ins`. */
  method CorrectLayer(layer: seq<Neuron>, ghost ins: seq<Neuron>, lr: real)
    requires Distinct(layer)
    requires forall t :: 0 <= t < |layer| ==>
      layer[t].inputs == ins && |layer[t].weights| <= |ins| && layer[t] !in ins
    modifies set n | n in layer
    ensures Values(ins) == old(Values(ins))
    ensures forall t :: 0 <= t < |layer| ==>
      layer[t].weights == Corrected(old(layer[t].weights), Values(ins), lr, layer[t].deriv)
    ensures forall n :: n in layer ==>
      n.inputs == old(n.inputs) && n.mode == old(n.mode) && n.value == old(n.value) && n.deriv == old(n.deriv)
  {
    ghost var vs := Values(ins);
    var j := 0;
    while j < |layer|
      invariant 0 <= j <= |layer|
      invariant forall n :: n in layer ==>
        n.inputs == old(n.inputs) && n.mode == old(n.mode) && n.value == old(n.value) && n.deriv == old(n.deriv)
      invariant Values(ins) == vs
      invariant forall t :: 0 <= t < j ==>
        layer[t].weights == Corrected(old(layer[t].weights), vs, lr, layer[t].deriv)
      invariant forall t :: j <= t < |layer| ==> layer[t].weights == old(layer[t].weights)
    {
      layer[j].CorrectWeights(lr);
      j := j + 1;
    }
  }

  /** The neurons layer l of `L` reads: `ins` for the first layer, the
      layer before it otherwise. */
  function Prev(L: seq<seq<Neuron>>, ins: seq<Neuron>, l: int): seq<Neuron>
    requires 0 <= l < |L|
  {
    if l == 0 then ins else L[l - 1]
  }

  /** A layer whose weights were `before`, reading the values `vs` and with
      the derivatives `d`, now has the weights `cur` its gradient step gives. */
  ghost predicate Stepped(cur: seq<seq<real>>, before: seq<seq<real>>, vs: seq<real>, lr: real, d: seq<real>) {
    && |d| == |before|
    && (forall j :: 0 <= j < |before| ==> |before[j]| <= |vs|)
    && cur == CorrectedLayer(before, vs, lr, d)
  }

  /** The loop of the network's `CorrectWeights` over the layers `L` (the
      hidden layers and the output layer), the first of which reads `ins`:
      layer l, with the weights `W0[l]`, reading the values `F[l]` and with
      the derivatives `D[l]`, takes its gradient step; values and
      derivatives stay. */
  method CorrectAll(L: seq<seq<Neuron>>, ins: seq<Neuron>, ghost pos: map<Neuron, (int, int)>, lr: real,
                    ghost W0: seq<seq<seq<real>>>, ghost F: seq<seq<real>>, ghost D: seq<seq<real>>)
    requires Indexed(L, pos)
    requires forall y :: 0 <= y < |ins| ==> ins[y] in pos && pos[ins[y]].0 < 0
    requires forall l, k :: 0 <= l < |L| && 0 <= k < |L[l]| ==>
      L[l][k].inputs == Prev(L, ins, l) && |L[l][k].weights| <= |Prev(L, ins, l)|
    requires |W0| == |F| == |D| == |L|
    requires forall l :: 0 <= l < |L| ==> WeightsOf(L[l]) == W0[l] && Values(Prev(L, ins, l)) == F[l] && Derivs(L[l]) == D[l]
    modifies set n | n in pos && 0 <= pos[n].0 < |L|
    ensures forall n :: n in pos ==>
      n.inputs == old(n.inputs) && n.mode == old(n.mode) && n.value == old(n.value) && n.deriv == old(n.deriv)
    ensures forall l :: 0 <= l < |L| ==> Stepped(WeightsOf(L[l]), W0[l], F[l], lr, D[l])
  {
    var i := 0;
    while i < |L|
      invariant 0 <= i <= |L|
      invariant forall n :: n in pos ==>
        n.inputs == old(n.inputs) && n.mode == old(n.mode) && n.value == old(n.value) && n.deriv == old(n.deriv)
      invariant forall l :: 0 <= l < |L| ==> Values(Prev(L, ins, l)) == F[l] && Derivs(L[l]) == D[l]
      invariant forall l :: i <= l < |L| ==> WeightsOf(L[l]) == W0[l]
      invariant forall l :: 0 <= l < i ==> Stepped(WeightsOf(L[l]), W0[l], F[l], lr, D[l])
    {
      CorrectStep(L, ins, pos, i, lr);
      i := i + 1;
    }
  }

  /** The body of the loop of `CorrectAll`: layer i of `L` takes its
      gradient step; no other weight, value or derivative changes. */
  method CorrectStep(L: seq<seq<Neuron>>, ins: seq<Neuron>, ghost pos: map<Neuron, (int, int)>, i: int, lr: real)
    requires Indexed(L, pos) && 0 <= i < |L|
    requires forall y :: 0 <= y < |ins| ==> ins[y] in pos && pos[ins[y]].0 < 0
    requires forall k :: 0 <= k < |L[i]| ==>
      L[i][k].inputs == Prev(L, ins, i) && |L[i][k].weights| <= |Prev(L, ins, i)|
    modifies set n | n in L[i]
    ensures forall n :: n in pos ==>
      n.inputs == old(n.inputs) && n.mode == old(n.mode) && n.value == old(n.value) && n.deriv == old(n.deriv)
    ensures forall l :: 0 <= l < |L| ==>
      Values(Prev(L, ins, l)) == old(Values(Prev(L, ins, l))) && Derivs(L[l]) == old(Derivs(L[l]))
    ensures forall l :: 0 <= l < |L| && l != i ==> WeightsOf(L[l]) == old(WeightsOf(L[l]))
    ensures Stepped(WeightsOf(L[i]), old(WeightsOf(L[i])), old(Values(Prev(L, ins, i))), lr, old(Derivs(L[i])))
  {
    var layer, from := L[i], Prev(L, ins, i);
    forall y | 0 <= y < |from|
      ensures from[y] !in layer
    {
      if i > 0 {
        SeparateLayers(L, pos, i, i - 1);
      }
    }
    ghost var before, vs, d := WeightsOf(layer), Values(from), Derivs(layer);
    CorrectLayer(layer, from, lr);
    forall j | 0 <= j < |layer|
      ensures WeightsOf(layer)[j] == CorrectedLayer(before, vs, lr, d)[j]
    {
    }
    assert Stepped(WeightsOf(layer), before, vs, lr, d);
    forall l | 0 <= l < |L| && l != i
      ensures WeightsOf(L[l]) == old(WeightsOf(L[l]))
    {
      SeparateLayers(L, pos, i, l);
    }
  }

  /** `get_result`: the first index of the largest value in the layer.
      The C++ code reads `output_layer_[0]` unconditionally. */
  method GetResult(layer: seq<Neuron>) returns (res: nat)
    requires layer != []
    ensures res == FirstMax(Values(layer))
  {
    ghost var vs := Values(layer);
    res := 0;
    var max := layer[0].value;
    var i := 1;
    while i < |layer|
      invariant 1 <= i <= |layer|
      invariant res == FirstMax(vs[..i]) && max == vs[res]
    {
      assert vs[..i + 1][..i] == vs[..i];
      var val := layer[i].value;
      if max < val {
        max := val;
        res := i;
      }
      i := i + 1;
    }
    assert vs[..i] == vs;
  }

  /** `FormFeedVector`: the pixels scaled to [0, 1], one by one. */
  method FormFeedVector(src: seq<nat>) returns (data: seq<real>)
    ensures data == FeedVector(src)
  {
    data := [];
    var i := 0;
    while i < |src|
      invariant 0 <= i <= |src|
      invariant data == FeedVector(src[..i])
    {
      assert src[..i + 1] == src[..i] + [src[i]];
      data := data + [src[i] as real / 255.0];
      i := i + 1;
    }
    assert src[..i] == src;
  }

  /** `FormExpectationVector(exp)` for an output layer of `width` neurons:
      1 at index `exp`, 0 elsewhere. */
  method FormExpectationVector(exp: int, width: nat) returns (res: seq<real>)
    ensures res == ExpectationVector(exp, width)
  {
    res := [];
    var i := 0;
    while i < width
      invariant 0 <= i <= width
      invariant res == ExpectationVector(exp, i)
    {
      if i != exp {
        res := res + [0.0];
      } else {
        res := res + [1.0];
      }
      i := i + 1;
    }
  }

  /** The vector `set_expected_values(val)` leaves for an output layer of
      `width` neurons whose expected values are `cur`. */
  method FillExpected(cur: seq<real>, val: seq<real>, width: nat) returns (ev: seq<real>)
    ensures ev == ExpectedAfterSet(cur, val, width)
  {
    var dif := width - |val|;
    if dif >= 0 {
      ev := val;
      var i := 0;
      while i < dif
        invariant 0 <= i <= dif
        invariant ev == val + seq(i, k => 0.0)
      {
        ev := ev + [0.0];
        i := i + 1;
      }
    } else {
      ev := cur;
      var i := 0;
      while i < width
        invariant 0 <= i <= width
        invariant ev == cur + val[..i]
      {
        assert val[..i + 1] == val[..i] + [val[i]];
        ev := ev + [val[i]];
        i := i + 1;
      }
    }
  }

  /** The weights of the layers `L` are `Ws`. */
  ghost predicate Holds(L: seq<seq<Neuron>>, Ws: Net)
    reads set l, j | 0 <= l < |L| && 0 <= j < |L[l]| :: L[l][j]
  {
    |Ws| == |L| && forall l :: 0 <= l < |L| ==> WeightsOf(L[l]) == Ws[l]
  }

  /** The innermost loop of `SaveWeights`: weight k of every neuron of
      `layer`, in order. */
  method SaveRow(layer: seq<Neuron>, k: nat) returns (row: seq<real>)
    requires forall j :: 0 <= j < |layer| ==> k < |layer[j].weights|
    ensures |row| == |layer| && forall j :: 0 <= j < |layer| ==> row[j] == layer[j].weights[k]
  {
    row := [];
    var j := 0;
    while j < |layer|
      invariant 0 <= j <= |layer|
      invariant |row| == j && forall t :: 0 <= t < j ==> row[t] == layer[t].weights[k]
    {
      row := row + [layer[j].weights[k]];
      j := j + 1;
    }
  }

  /** The loops of `SaveWeights` over one layer: for each of the `inputs`
      inputs, one line listing that weight of every neuron of `layer`. */
  method SaveLayer(layer: seq<Neuron>, inputs: nat) returns (lines: seq<string>)
    requires forall j :: 0 <= j < |layer| ==> inputs <= |layer[j].weights|
    ensures lines == GridLines(SavedGrid(WeightsOf(layer), inputs))
  {
    ghost var g := SavedGrid(WeightsOf(layer), inputs);
    lines := [];
    var k := 0;
    while k < inputs
      invariant 0 <= k <= inputs
      invariant lines == GridLines(g[..k])
    {
      var row := SaveRow(layer, k);
      assert row == g[k];
      GridLinesSnoc(g[..k], row);
      assert g[..k + 1] == g[..k] + [row];
      if row != [] {
        lines := lines + [RowLine(row)];
      }
      k := k + 1;
    }
    assert g[..k] == g;
  }

  /** The loop of `SaveWeights` over the layers `L` (the hidden layers,
      then the output layer), whose weights are `Ws` and whose layer l
      reads `ins[l]` neurons: each layer's block, then the sentinel. */
  method SaveLayers(L: seq<seq<Neuron>>, ghost Ws: Net, ins: seq<nat>) returns (body: seq<string>)
    requires Holds(L, Ws) && |ins| == |L|
    requires forall l, j :: 0 <= l < |Ws| && 0 <= j < |Ws[l]| ==> ins[l] <= |Ws[l][j]|
    ensures body == Body(Saved(Ws, ins))
  {
    ghost var gs := Saved(Ws, ins);
    body := [];
    var i := 0;
    while i < |L|
      invariant 0 <= i <= |L|
      invariant body == Body(gs[..i])
    {
      assert WeightsOf(L[i]) == Ws[i];
      var block := SaveLayer(L[i], ins[i]);
      BodySnoc(gs[..i], gs[i]);
      assert gs[..i + 1] == gs[..i] + [gs[i]];
      body := body + block + [Sentinel];
      i := i + 1;
    }
    assert gs[..i] == gs;
  }

  /** `get_neuron(layer, col)->weight(row) = v` on the layers `L` (the
      hidden layers, then the output layer) whose weights are `Ws`. */
  method StoreWeight(L: seq<seq<Neuron>>, ghost pos: map<Neuron, (int, int)>, ghost Ws: Net,
                     layer: nat, col: nat, row: nat, v: real) returns (o: Outcome, ghost Ws': Net)
    requires Indexed(L, pos) && Holds(L, Ws)
    modifies set n | n in pos && 0 <= pos[n].0 < |L|
    ensures Holds(L, Ws') && (o, Ws') == SetCell(Ws, layer, col, row, v)
    ensures forall n :: n in pos ==>
      n.inputs == old(n.inputs) && n.mode == old(n.mode) && n.value == old(n.value) && n.deriv == old(n.deriv)
  {
    o := if layer < |L| then Pass else Fail(OutOfRange);
    Ws' := SetCell(Ws, layer, col, row, v).1;
    if layer < |L| && col < |L[layer]| && row < |L[layer][col].weights| {
      assert pos[L[layer][col]] == (layer, col);
      L[layer][col].SetWeight(row, v);
      forall l | 0 <= l < |L|
        ensures WeightsOf(L[l]) == Ws'[l]
      {
        if l != layer {
          SeparateLayers(L, pos, layer, l);
        } else {
          forall j | 0 <= j < |L[l]|
            ensures L[l][j].weights == Ws'[l][j]
          {
            assert j != col ==> pos[L[l][j]] != pos[L[l][col]];
          }
        }
      }
    }
  }

  /** The loop of `LoadWeights` over the tokens `es` of one line, stored
      from column `col` of row `row` of layer `layer`. */
  method StoreLine(L: seq<seq<Neuron>>, ghost pos: map<Neuron, (int, int)>, ghost Ws: Net,
                   es: seq<Emit>, layer: nat, row: nat, col: nat) returns (o: Outcome, col': nat, ghost Ws': Net)
    requires Indexed(L, pos) && Holds(L, Ws)
    modifies set n | n in pos && 0 <= pos[n].0 < |L|
    ensures Holds(L, Ws') && (o, Ws') == ApplyNet(Ws, LinePuts(es, layer, row, col))
    ensures o.Pass? ==> col' == ColAfter(es, col)
    ensures forall n :: n in pos ==>
      n.inputs == old(n.inputs) && n.mode == old(n.mode) && n.value == old(n.value) && n.deriv == old(n.deriv)
  {
    o, col', Ws' := Pass, col, Ws;
    ghost var goal, end := ApplyNet(Ws, LinePuts(es, layer, row, col)), ColAfter(es, col);
    var k := 0;
    while k < |es|
      invariant 0 <= k <= |es| && Holds(L, Ws')
      invariant goal == ApplyNet(Ws', LinePuts(es[k..], layer, row, col'))
      invariant end == ColAfter(es[k..], col')
      invariant forall n :: n in pos ==>
        n.inputs == old(n.inputs) && n.mode == old(n.mode) && n.value == old(n.value) && n.deriv == old(n.deriv)
    {
      var r;
      r, col', Ws' := StoreToken(L, pos, Ws', es, k, layer, row, col');
      if r.Fail? {
        return r, col', Ws';
      }
      k := k + 1;
    }
    assert es[k..] == [];
  }

  /** Token k of the line `es`, stored at column `col`: the puts from token
      k on are this token's and, unless it failed, those from token k + 1
      on at column `col'`. */
  method StoreToken(L: seq<seq<Neuron>>, ghost pos: map<Neuron, (int, int)>, ghost Ws: Net,
                    es: seq<Emit>, k: nat, layer: nat, row: nat, col: nat) returns (o: Outcome, col': nat, ghost Ws': Net)
    requires Indexed(L, pos) && Holds(L, Ws) && k < |es|
    modifies set n | n in pos && 0 <= pos[n].0 < |L|
    ensures Holds(L, Ws')
    ensures ApplyNet(Ws, LinePuts(es[k..], layer, row, col)) ==
      if o.Fail? then (o, Ws') else ApplyNet(Ws', LinePuts(es[k + 1..], layer, row, col'))
    ensures ColAfter(es[k..], col) == ColAfter(es[k + 1..], col')
    ensures forall n :: n in pos ==>
      n.inputs == old(n.inputs) && n.mode == old(n.mode) && n.value == old(n.value) && n.deriv == old(n.deriv)
  {
    col' := if es[k].AtSep? then col + 1 else 0;
    match Stod(es[k].token)
    case Failure(e) =>
      TokenFails(Ws, es, k, layer, row, col, e);
      TokenNext(es, k, col, col');
      o, Ws' := Fail(e), Ws;
    case Success(v) =>
      o, Ws' := StoreWeight(L, pos, Ws, layer, col, row, v);
      TokenApplies(Ws, es, k, layer, row, col, v, o, Ws', col');
  }

  /** One turn of the loop of `LoadWeights` at line i: after a sentinel
      the next layer starts and the line after it is read at once; the
      tokens of the line read are stored. */
  method LoadTurn(L: seq<seq<Neuron>>, ghost pos: map<Neuron, (int, int)>, ghost Ws: Net, lines: seq<string>,
                  i: nat, layer: nat, row: nat, col: nat)
      returns (o: Outcome, i': nat, layer': nat, row': nat, col': nat, ghost Ws': Net)
    requires Indexed(L, pos) && Holds(L, Ws) && i < |lines|
    modifies set n | n in pos && 0 <= pos[n].0 < |L|
    ensures Holds(L, Ws') && i < i'
    ensures ApplyNet(Ws, GraphPuts(lines, i, layer, row, col)) ==
      if o.Fail? then (o, Ws') else ApplyNet(Ws', GraphPuts(lines, i', layer', row', col'))
    ensures forall n :: n in pos ==>
      n.inputs == old(n.inputs) && n.mode == old(n.mode) && n.value == old(n.value) && n.deriv == old(n.deriv)
  {
    var t := NextRead(lines, i, layer, row, col);
    var es := ScanLine(t.line, ' ');
    o, col', Ws' := StoreLine(L, pos, Ws, es, t.layer, t.row, t.col);
    i', layer', row' := t.next, t.layer, t.row + 1;
    TurnApplies(Ws, lines, i, layer, row, col, o, Ws', i', layer', row', col');
  }

  /** The loop of `LoadWeights` over the lines of a weight file after its
      two header lines, storing into the layers `L` whose weights are `Ws`. */
  method LoadLines(L: seq<seq<Neuron>>, ghost pos: map<Neuron, (int, int)>, ghost Ws: Net, lines: seq<string>)
      returns (o: Outcome, ghost Ws': Net)
    requires Indexed(L, pos) && Holds(L, Ws)
    modifies set n | n in pos && 0 <= pos[n].0 < |L|
    ensures Holds(L, Ws') && (o, Ws') == ApplyNet(Ws, GraphPuts(lines, 2, 0, 0, 0))
    ensures forall n :: n in pos ==>
      n.inputs == old(n.inputs) && n.mode == old(n.mode) && n.value == old(n.value) && n.deriv == old(n.deriv)
  {
    o, Ws' := Pass, Ws;
    var i: nat, layer: nat, row: nat, col: nat := 2, 0, 0, 0;
    while i < |lines|
      invariant o == Pass && Holds(L, Ws')
      invariant ApplyNet(Ws, GraphPuts(lines, 2, 0, 0, 0)) == ApplyNet(Ws', GraphPuts(lines, i, layer, row, col))
      invariant forall n :: n in pos ==>
        n.inputs == old(n.inputs) && n.mode == old(n.mode) && n.value == old(n.value) && n.deriv == old(n.deriv)
      decreases |lines| - i
    {
      o, i, layer, row, col, Ws' := LoadTurn(L, pos, Ws', lines, i, layer, row, col);
      if o.Fail? {
        return;
      }
    }
    assert GraphPuts(lines, i, layer, row, col) == [];
  }

  /** The innermost loop of `InstallRandomWeights` on neuron `n`: weight
      k, for k below `inputs`, takes `Roll(201) / 100.0 - 1.0` with the
      value of `rand()` call number `start + k`. */
  method RandomizeNeuron(n: Neuron, inputs: nat, rand: nat -> nat, start: nat)
    requires inputs <= |n.weights|
    modifies n
    ensures n.weights == RandomRow(old(n.weights), inputs, rand, start)
    ensures n.inputs == old(n.inputs) && n.mode == old(n.mode) && n.value == old(n.value) && n.deriv == old(n.deriv)
  {
    var k := 0;
    while k < inputs
      invariant 0 <= k <= inputs && |n.weights| == |old(n.weights)|
      invariant forall t :: 0 <= t < |n.weights| ==>
        n.weights[t] == if t < k then RandomWeight(rand(start + t)) else old(n.weights)[t]
      invariant n.inputs == old(n.inputs) && n.mode == old(n.mode) && n.value == old(n.value) && n.deriv == old(n.deriv)
    {
      n.SetWeight(k, Roll(201, rand(start + k)) as real / 100.0 - 1.0);
      k := k + 1;
    }
  }

  /** The middle loop of `InstallRandomWeights` on `layer`, whose weights
      are `ws` and whose neurons draw `inputs` values each, from call
      `start` on. */
  method RandomizeLayer(layer: seq<Neuron>, ghost ws: seq<seq<real>>, inputs: nat, rand: nat -> nat, start: nat)
    requires Distinct(layer) && WeightsOf(layer) == ws
    requires forall j :: 0 <= j < |ws| ==> inputs <= |ws[j]|
    modifies set n | n in layer
    ensures WeightsOf(layer) == RandomLayer(ws, inputs, rand, start)
    ensures forall n :: n in layer ==>
      n.inputs == old(n.inputs) && n.mode == old(n.mode) && n.value == old(n.value) && n.deriv == old(n.deriv)
  {
    var j := 0;
    while j < |layer|
      invariant 0 <= j <= |layer|
      invariant forall t :: 0 <= t < j ==> layer[t].weights == RandomRow(ws[t], inputs, rand, RowStart(start, t, inputs))
      invariant forall t :: j <= t < |layer| ==> layer[t].weights == ws[t]
      invariant forall n :: n in layer ==>
        n.inputs == old(n.inputs) && n.mode == old(n.mode) && n.value == old(n.value) && n.deriv == old(n.deriv)
    {
      RandomizeNeuron(layer[j], inputs, rand, RowStart(start, j, inputs));
      j := j + 1;
    }
  }

  /** One turn of the outer loop of `InstallRandomWeights`: layer i of `L`
      draws its weights from call `calls` on; no other layer changes, and
      `calls'` counts the calls made so far. */
  method RandomizeStep(L: seq<seq<Neuron>>, ghost pos: map<Neuron, (int, int)>, ghost X: Net,
                       ins: seq<nat>, rand: nat -> nat, i: nat, calls: nat) returns (ghost X': Net, calls': nat)
    requires Indexed(L, pos) && Holds(L, X) && |ins| == |L| && i < |L|
    requires forall j :: 0 <= j < |X[i]| ==> ins[i] <= |X[i][j]|
    modifies set n | n in L[i]
    ensures Holds(L, X') && X' == X[i := RandomLayer(X[i], ins[i], rand, calls)]
    ensures RandomFrom(X, ins, rand, i, calls) == RandomFrom(X', ins, rand, i + 1, calls')
    ensures forall n :: n in pos ==>
      n.inputs == old(n.inputs) && n.mode == old(n.mode) && n.value == old(n.value) && n.deriv == old(n.deriv)
  {
    assert Distinct(L[i]) by {
      forall a, b | 0 <= a < b < |L[i]|
        ensures L[i][a] != L[i][b]
      {
        assert pos[L[i][a]] != pos[L[i][b]];
      }
    }
    RandomizeLayer(L[i], X[i], ins[i], rand, calls);
    X' := X[i := RandomLayer(X[i], ins[i], rand, calls)];
    forall l | 0 <= l < |L| && l != i
      ensures WeightsOf(L[l]) == X'[l]
    {
      SeparateLayers(L, pos, i, l);
    }
    calls' := RowStart(calls, |L[i]|, ins[i]);
  }

  /** The outer loop of `InstallRandomWeights` over the layers `L` (the
      hidden layers, then the output layer), layer l reading `ins[l]`
      neurons: the weights become `RandomNet(Ws, ins, rand)`. */
  method RandomizeLayers(L: seq<seq<Neuron>>, ghost pos: map<Neuron, (int, int)>, ghost Ws: Net,
                         ins: seq<nat>, rand: nat -> nat) returns (ghost Ws': Net)
    requires Indexed(L, pos) && Holds(L, Ws) && |ins| == |L|
    requires forall l, j :: 0 <= l < |Ws| && 0 <= j < |Ws[l]| ==> ins[l] <= |Ws[l][j]|
    modifies set n | n in pos && 0 <= pos[n].0 < |L|
    ensures Holds(L, Ws') && Ws' == RandomNet(Ws, ins, rand)
    ensures forall n :: n in pos ==>
      n.inputs == old(n.inputs) && n.mode == old(n.mode) && n.value == old(n.value) && n.deriv == old(n.deriv)
  {
    Ws' := Ws;
    var i, calls := 0, 0;
    RandomFromStart(Ws, ins, rand);
    while i < |L|
      invariant 0 <= i <= |L| && Holds(L, Ws')
      invariant forall l :: i <= l < |L| ==> Ws'[l] == Ws[l]
      invariant RandomFrom(Ws', ins, rand, i, calls) == RandomNet(Ws, ins, rand)
      invariant forall n :: n in pos ==>
        n.inputs == old(n.inputs) && n.mode == old(n.mode) && n.value == old(n.value) && n.deriv == old(n.deriv)
    {
      Ws', calls := RandomizeStep(L, pos, Ws', ins, rand, i, calls);
      i := i + 1;
    }
  }

  class GraphNetwork {
    var inputLayer: seq<Neuron>
    var hiddenLayers: seq<seq<Neuron>>
    var outputLayer: seq<Neuron>
    var expectedValues: seq<real>
    var learningRate: real
    /** Where each neuron sits: its layer (-1 for the input layer, the
        hidden depth for the output layer) and its index in it. */
    ghost var Pos: map<Neuron, (int, int)>
    /** All the weights of the network: `W[l][j][k]` is weight k of neuron
        j of layer l (0 .. Depth()). */
    ghost var W: seq<seq<seq<real>>>

    /** `get_hid_depth`. */
    function Depth(): nat
      reads this
    {
      |hiddenLayers|
    }

    /** `get_hid_width`: the width of the first hidden layer, 0 without one. */
    function HidWidth(): nat
      reads this
    {
      if hiddenLayers == [] then 0 else |hiddenLayers[0]|
    }

    /** Layer `l`, counted as in the index helpers: -1 is the input layer,
        0 .. Depth()-1 the hidden layers, Depth() the output layer. */
    function Layer(l: int): seq<Neuron>
      reads this
      requires -1 <= l <= Depth()
    {
      if l == -1 then inputLayer else if l < Depth() then hiddenLayers[l] else outputLayer
    }

    ghost function Repr(): set<Neuron>
      reads this
    {
      Pos.Keys
    }

    /** Every neuron is recorded at its own position, so neurons at different
        positions are different objects. */
    ghost predicate Placed()
      reads this
    {
      forall l, j :: -1 <= l <= Depth() && 0 <= j < |Layer(l)| ==> Layer(l)[j] in Pos && Pos[Layer(l)[j]] == (l, j)
    }

    /** `W` has one entry per neuron of layers 0 .. Depth(). */
    ghost predicate Shaped()
      reads this
    {
      |W| == Depth() + 1 && forall l :: 0 <= l <= Depth() ==> |W[l]| == |Layer(l)|
    }

    /** Neuron j of layer l reads exactly the layer before it, holds the
        weights `W` records for it, at least one per input, and is a
        sigmoid neuron. */
    ghost predicate Linked(l: int, j: int)
      reads this, Repr()
      requires Placed() && Shaped() && 0 <= l <= Depth() && 0 <= j < |Layer(l)|
    {
      var n := Layer(l)[j];
      n.inputs == Layer(l - 1) && n.weights == W[l][j] && |n.inputs| <= |n.weights| && n.mode == SigmoidMode
    }

    /** The invariant of a graph network: hidden layers of one width, each
        layer fully connected to the one before it. */
    ghost predicate Valid()
      reads this, Repr()
    {
      && Placed()
      && Shaped()
      && (forall l :: 0 <= l < Depth() ==> |hiddenLayers[l]| == HidWidth())
      && (forall l, j :: 0 <= l <= Depth() && 0 <= j < |Layer(l)| ==> Linked(l, j))
    }

    /** Every neuron has exactly one weight per input (`ClearInput` is the
        only way to break this). */
    ghost predicate Aligned()
      reads this
      requires Shaped()
    {
      forall l, j :: 0 <= l <= Depth() && 0 <= j < |Layer(l)| ==> |W[l][j]| == |Layer(l - 1)|
    }

    /** Neuron j of layer l holds the sigmoid of the weighted sum of the
        values of the layer before it. */
    ghost predicate Settled(l: int, j: int)
      reads this, Repr()
      requires Placed() && Shaped() && 0 <= l <= Depth() && 0 <= j < |Layer(l)|
    {
      Layer(l)[j].value == Sigmoid(WeightedSum(W[l][j], Values(Layer(l - 1))))
    }

    /** Every neuron is settled: the state `Execute` leaves. */
    ghost predicate Consistent()
      reads this, Repr()
      requires Placed() && Shaped()
    {
      forall l, j :: 0 <= l <= Depth() && 0 <= j < |Layer(l)| ==> Settled(l, j)
    }

    /** Layers built as `SetupNetwork` builds them satisfy the invariant. */
    lemma InstalledValid(wHid: nat)
      requires Depth() >= 2 && HidWidth() == wHid
      requires forall l :: 0 <= l < Depth() ==> |hiddenLayers[l]| == wHid
      requires |W| == Depth() + 1 && |W[Depth()]| == |outputLayer|
      requires forall l :: 0 <= l < Depth() ==> |W[l]| == wHid
      requires forall j :: 0 <= j < |inputLayer| ==> inputLayer[j] in Pos && Pos[inputLayer[j]] == (-1, j)
      requires forall l, j :: 0 <= l < Depth() && 0 <= j < wHid ==>
        hiddenLayers[l][j] in Pos && Pos[hiddenLayers[l][j]] == (l, j)
      requires forall j :: 0 <= j < |outputLayer| ==> outputLayer[j] in Pos && Pos[outputLayer[j]] == (Depth(), j)
      requires forall j :: 0 <= j < wHid ==>
        var n := hiddenLayers[0][j];
        n.inputs == inputLayer && n.weights == W[0][j] && |W[0][j]| == |inputLayer| && n.mode == SigmoidMode
      requires forall l, j :: 1 <= l < Depth() && 0 <= j < wHid ==>
        var n := hiddenLayers[l][j];
        n.inputs == hiddenLayers[l - 1] && n.weights == W[l][j] && |W[l][j]| == wHid && n.mode == SigmoidMode
      requires forall j :: 0 <= j < |outputLayer| ==>
        var n := outputLayer[j];
        n.inputs == hiddenLayers[Depth() - 1] && n.weights == W[Depth()][j] && wHid <= |W[Depth()][j]| && n.mode == SigmoidMode
      ensures Valid()
      ensures (forall j :: 0 <= j < |outputLayer| ==> |W[Depth()][j]| == wHid) ==> Aligned()
    {
      forall l, j | -1 <= l <= Depth() && 0 <= j < |Layer(l)|
        ensures Layer(l)[j] in Pos && Pos[Layer(l)[j]] == (l, j)
      {
        if l == -1 {
        } else if l < Depth() {
        } else {
        }
      }
      assert Placed() && Shaped();
      forall l, j | 0 <= l <= Depth() && 0 <= j < |Layer(l)|
        ensures Linked(l, j) && (l < Depth() ==> |W[l][j]| == |Layer(l - 1)|)
      {
        if l == 0 {
        } else if l < Depth() {
        } else {
        }
      }
    }

    /** The end of `SetupNetwork` and `ResizeHidden`: the layers built
        become the layers of the network. Output neuron j holds the weights
        `outW[j]` it kept, then weight 1 per neuron of the last hidden layer;
        with nothing kept every neuron has one weight per input. */
    method Install(ins: seq<Neuron>, hid: seq<seq<Neuron>>, outs: seq<Neuron>, ghost pos: map<Neuron, (int, int)>,
                   ghost wHid: nat, ghost outW: seq<seq<real>>)
      requires |hid| >= 2 && forall l :: 0 <= l < |hid| ==> |hid[l]| == wHid
      requires forall j :: 0 <= j < |ins| ==> ins[j] in pos && pos[ins[j]] == (-1, j)
      requires forall l, j :: 0 <= l < |hid| && 0 <= j < |hid[l]| ==> hid[l][j] in pos && pos[hid[l][j]] == (l, j)
      requires forall j :: 0 <= j < |outs| ==> outs[j] in pos && pos[outs[j]] == (|hid|, j)
      requires forall l, j :: 0 <= l < |hid| && 0 <= j < |hid[l]| ==> hid[l][j].mode == SigmoidMode
      requires forall j :: 0 <= j < |outs| ==> outs[j].mode == SigmoidMode
      requires forall j :: 0 <= j < |hid[0]| ==> hid[0][j].inputs == ins && hid[0][j].weights == Ones(|ins|)
      requires forall l, j :: 1 <= l < |hid| && 0 <= j < |hid[l]| ==>
        hid[l][j].inputs == hid[l - 1] && hid[l][j].weights == Ones(wHid)
      requires |outW| == |outs|
      requires forall j :: 0 <= j < |outs| ==> outs[j].inputs == hid[|hid| - 1] && outs[j].weights == outW[j] + Ones(wHid)
      modifies this
      ensures Valid() && Repr() == pos.Keys
      ensures (forall j :: 0 <= j < |outW| ==> outW[j] == []) ==> Aligned()
      ensures inputLayer == ins && hiddenLayers == hid && outputLayer == outs
      ensures W == ResizedWeights(|ins|, |hid|, wHid, outW)
      ensures expectedValues == old(expectedValues) && learningRate == old(learningRate)
    {
      inputLayer, hiddenLayers, outputLayer := ins, hid, outs;
      Pos := pos;
      W := ResizedWeights(|ins|, |hid|, wHid, outW);
      InstalledValid(wHid);
    }

    /** The default constructor: no layers, so the engine is not set up. */
    constructor ()
      ensures Valid() && Aligned()
      ensures inputLayer == [] && hiddenLayers == [] && outputLayer == []
      ensures expectedValues == [] && learningRate == 0.2
    {
      inputLayer := [];
      hiddenLayers := [];
      outputLayer := [];
      expectedValues := [];
      learningRate := 0.2;
      Pos := map[];
      W := [[]];
    }

    /** `GraphNetwork(hidden_layers, learning_rate)`: 784 inputs,
        `hidden` hidden layers of 140, 26 outputs, every weight 1. */
    constructor WithDepth(hidden: int, rate: real)
      requires hidden >= 2
      ensures Valid() && Aligned() && fresh(Repr())
      ensures |inputLayer| == InputWidth && Depth() == hidden && HidWidth() == HiddenWidth
      ensures |outputLayer| == OutputWidth
      ensures W == UnitWeights(InputWidth, hidden, HiddenWidth, OutputWidth)
      ensures expectedValues == [] && learningRate == rate
    {
      expectedValues := [];
      learningRate := rate;
      inputLayer := [];
      hiddenLayers := [];
      outputLayer := [];
      Pos := map[];
      W := [[]];
      new;
      SetupNetwork(InputWidth, hidden, HiddenWidth, OutputWidth);
    }

    /** `SetupNetwork(wdt_in, num_hid, wdt_hid, wdt_out)`: the old neurons
        are dropped and fresh layers of the given widths (negative widths
        give empty layers) are built and fully connected with weight 1.
        Building the hidden layers indexes `hidden_layer_[1]`, hence at
        least two hidden layers. */
    method SetupNetwork(wdtIn: int, numHid: int, wdtHid: int, wdtOut: int)
      requires numHid >= 2
      modifies this
      ensures Valid() && Aligned() && fresh(Repr())
      ensures |inputLayer| == Max0(wdtIn) && Depth() == numHid && HidWidth() == Max0(wdtHid)
      ensures |outputLayer| == Max0(wdtOut)
      ensures W == UnitWeights(Max0(wdtIn), numHid, Max0(wdtHid), Max0(wdtOut))
      ensures expectedValues == old(expectedValues) && learningRate == old(learningRate)
    {
      var ins, hid, outs, pos := BuildLayers(wdtIn, numHid, wdtHid, wdtOut);
      ghost var none: seq<seq<real>> := seq(|outs|, j => []);
      assert forall j :: 0 <= j < |outs| ==> outs[j].weights == none[j] + Ones(Max0(wdtHid));
      Install(ins, hid, outs, pos, Max0(wdtHid), none);
      ResizedFromNothing(|ins|, numHid, Max0(wdtHid), none);
    }

    /** Where the input and output neurons sit once the hidden depth is
        `depth`. */
    ghost function EndsAt(depth: int): map<Neuron, (int, int)>
      reads this
    {
      map n | n in Pos && (Pos[n].0 == -1 || Pos[n].0 == Depth()) :: if Pos[n].0 == -1 then Pos[n] else (depth, Pos[n].1)
    }

    /** What rebuilding the hidden layers relies on: distinct output
        neurons, placed with the input neurons by `EndsAt(depth)`, and the
        old output weights. */
    lemma EndsReady(depth: int)
      requires Valid() && Depth() > 0
      ensures Distinct(outputLayer) && |W[Depth()]| == |outputLayer|
      ensures forall j :: 0 <= j < |inputLayer| ==> inputLayer[j] in EndsAt(depth) && EndsAt(depth)[inputLayer[j]] == (-1, j)
      ensures forall j :: 0 <= j < |outputLayer| ==> outputLayer[j] in EndsAt(depth) && EndsAt(depth)[outputLayer[j]] == (depth, j)
      ensures forall j :: 0 <= j < |outputLayer| ==> outputLayer[j].mode == SigmoidMode && outputLayer[j].weights == W[Depth()][j]
      ensures forall n :: n in EndsAt(depth) ==> n in Pos
    {
      forall a, b | 0 <= a < b < |outputLayer|
        ensures outputLayer[a] != outputLayer[b]
      {
        assert Pos[Layer(Depth())[a]] != Pos[Layer(Depth())[b]];
      }
      forall j | 0 <= j < |inputLayer|
        ensures inputLayer[j] in Pos && Pos[inputLayer[j]] == (-1, j)
      {
        assert Layer(-1) == inputLayer;
      }
      forall j | 0 <= j < |outputLayer|
        ensures outputLayer[j] in Pos && Pos[outputLayer[j]] == (Depth(), j)
        ensures outputLayer[j].mode == SigmoidMode && outputLayer[j].weights == W[Depth()][j]
      {
        assert Layer(Depth()) == outputLayer;
        assert Linked(Depth(), j);
      }
    }

    /** `ResizeHidden(depth)`. It changes nothing unless `depth` is positive,
        differs from the hidden depth and there are hidden layers; then the
        hidden layers are rebuilt, `depth` of them, as wide as before, with
        weight 1 everywhere, between the same input and output neurons.
        Each output neuron keeps its old weights (`ClearInput` leaves them)
        and gains one weight per new input, so on a network with one weight
        per input they end up with twice as many weights as inputs (see
        `ResizeMisaligns`). Rebuilding reads `hidden_layer_[1]`, so a
        rebuild to one layer is excluded. */
    method ResizeHidden(depth: nat)
      requires Valid()
      requires depth == 1 ==> Depth() <= 1
      modifies this, Repr()
      ensures Valid() && fresh(Repr() - old(Repr()))
      ensures inputLayer == old(inputLayer) && outputLayer == old(outputLayer)
      ensures expectedValues == old(expectedValues) && learningRate == old(learningRate)
      ensures !(depth > 0 && depth != old(Depth()) && old(Depth()) > 0) ==>
        hiddenLayers == old(hiddenLayers) && Pos == old(Pos) && W == old(W)
      ensures depth > 0 && depth != old(Depth()) && old(Depth()) > 0 ==>
        Depth() == depth && HidWidth() == old(HidWidth()) &&
        W == ResizedWeights(|inputLayer|, depth, HidWidth(), old(W[Depth()]))
    {
      if depth > 0 && depth != |hiddenLayers| && |hiddenLayers| > 0 {
        var width := |hiddenLayers[0]|;
        ghost var outW, ends := W[Depth()], EndsAt(depth);
        EndsReady(depth);
        var hid, hpos := Rewire(inputLayer, outputLayer, depth, width, false);
        Install(inputLayer, hid, outputLayer, ends + hpos, width, outW);
      }
    }

    /** `ResizeHidden` with the output neurons' weights cleared along with
        their inputs: every weight is 1 afterwards, one per input, as after
        `SetupNetwork` with the same widths. */
    method ResizeHiddenCleared(depth: nat)
      requires Valid()
      requires depth == 1 ==> Depth() <= 1
      modifies this, Repr()
      ensures Valid() && fresh(Repr() - old(Repr()))
      ensures inputLayer == old(inputLayer) && outputLayer == old(outputLayer)
      ensures expectedValues == old(expectedValues) && learningRate == old(learningRate)
      ensures !(depth > 0 && depth != old(Depth()) && old(Depth()) > 0) ==>
        hiddenLayers == old(hiddenLayers) && Pos == old(Pos) && W == old(W)
      ensures depth > 0 && depth != old(Depth()) && old(Depth()) > 0 ==>
        Aligned() && Depth() == depth && HidWidth() == old(HidWidth()) &&
        W == UnitWeights(|inputLayer|, depth, HidWidth(), |outputLayer|)
    {
      if depth > 0 && depth != |hiddenLayers| && |hiddenLayers| > 0 {
        var width := |hiddenLayers[0]|;
        ghost var ends := EndsAt(depth);
        ghost var none: seq<seq<real>> := seq(|outputLayer|, j => []);
        ResizedFromNothing(|inputLayer|, depth, width, none);
        EndsReady(depth);
        var hid, hpos := Rewire(inputLayer, outputLayer, depth, width, true);
        assert forall j :: 0 <= j < |outputLayer| ==> outputLayer[j].weights == none[j] + Ones(width);
        Install(inputLayer, hid, outputLayer, ends + hpos, width, none);
      }
    }

    /** `get_num_neuron(layer)`: the hidden width for a hidden layer, the
        output width for the output layer, 0 for any other index. */
    function NumNeurons(layer: int): int
      reads this
    {
      if layer > -1 then
        if layer < Depth() then HidWidth() else if layer == Depth() then |outputLayer| else 0
      else 0
    }

    /** `get_num_inputs(layer)`: the input width for layer 0, the hidden
        width for the later layers up to the output layer, 0 otherwise. */
    function NumInputs(layer: int): int
      reads this
    {
      if layer > -1 then
        if layer == 0 then |inputLayer| else if layer <= Depth() then HidWidth() else 0
      else 0
    }

    /** The index helpers agree with the layers the network holds: layer l
        has NumNeurons(l) neurons, each reading NumInputs(l) neurons; any
        other index has none. */
    lemma IndexHelpersMatchLayers(l: int)
      requires Valid()
      ensures 0 <= l <= Depth() ==> NumNeurons(l) == |Layer(l)| && NumInputs(l) == |Layer(l - 1)|
      ensures 0 <= l <= Depth() ==> forall j :: 0 <= j < |Layer(l)| ==> |Layer(l)[j].inputs| == NumInputs(l)
      ensures !(0 <= l <= Depth()) ==> NumNeurons(l) == 0 && NumInputs(l) == 0
    {
      if 0 <= l <= Depth() {
        forall j | 0 <= j < |Layer(l)|
          ensures |Layer(l)[j].inputs| == NumInputs(l)
        {
          assert Linked(l, j);
        }
      }
    }

    /** Reading through `weight(layer, num, inp)`: out_of_range unless
        0 <= layer <= Depth(); otherwise weight `inp` of neuron `num` of
        that layer, an access the C++ code does not check. */
    function WeightAt(layer: int, num: int, inp: int): (r: Result<real>)
      reads this, Repr()
      requires Valid()
      requires 0 <= layer <= Depth() ==> 0 <= num < |Layer(layer)| && 0 <= inp < |W[layer][num]|
      ensures r.Failure? <==> !(0 <= layer <= Depth())
      ensures r.Failure? ==> r.error == OutOfRange
      ensures r.Success? ==> r.value == W[layer][num][inp]
    {
      if layer > -1 then
        if layer < Depth() then
          assert Linked(layer, num);
          Success(hiddenLayers[layer][num].weights[inp])
        else if layer == Depth() then
          assert Linked(layer, num);
          Success(outputLayer[num].weights[inp])
        else Failure(OutOfRange)
      else Failure(OutOfRange)
    }

    /** `get_neuron(i, j)`: the neuron at position (i, j), out_of_range past
        the output layer. A negative `i` would index the hidden layers out of
        bounds, so it is excluded. */
    function GetNeuron(i: int, j: int): (r: Result<Neuron>)
      reads this, Repr()
      requires Valid() && 0 <= i
      requires i <= Depth() ==> 0 <= j < |Layer(i)|
      ensures r.Failure? <==> i > Depth()
      ensures r.Failure? ==> r.error == OutOfRange
      ensures r.Success? ==> r.value in Pos && Pos[r.value] == (i, j)
    {
      if i < Depth() then Success(hiddenLayers[i][j])
      else if i == Depth() then Success(outputLayer[j])
      else Failure(OutOfRange)
    }

    /** `is_set_up`. */
    predicate IsSetUp()
      reads this
    {
      inputLayer != []
    }

    /** Between the two states the network and the wiring of every neuron
        (inputs, weights, mode) are kept. */
    twostate predicate SameWiring()
      reads this, Repr()
    {
      && unchanged(this)
      && forall n :: n in old(Pos) ==>
           n.inputs == old(n.inputs) && n.weights == old(n.weights) && n.mode == old(n.mode)
    }

    /** Between the two states only neuron values changed, and only in
        layer l. */
    twostate predicate OnlyValuesOf(l: int)
      reads this, Repr()
    {
      && SameWiring()
      && forall n :: n in old(Pos) ==>
           n.deriv == old(n.deriv) && (old(Pos)[n].0 != l ==> n.value == old(n.value))
    }

    /** Between the two states only derivatives changed, and only in the
        layers lo .. hi-1. */
    twostate predicate OnlyDerivsIn(lo: int, hi: int)
      reads this, Repr()
    {
      && SameWiring()
      && forall n :: n in old(Pos) ==>
           n.value == old(n.value) && (!(lo <= old(Pos)[n].0 < hi) ==> n.deriv == old(n.deriv))
    }

    /** Changing values keeps the invariant. */
    twostate lemma ValidKept()
      requires old(Valid()) && SameWiring()
      ensures Valid()
    {
      forall m, j | 0 <= m <= Depth() && 0 <= j < |Layer(m)|
        ensures Linked(m, j)
      {
        assert old(Linked(m, j));
      }
    }

    /** The layers other than l keep their values. */
    twostate lemma OtherLayersKept(l: int)
      requires old(Placed()) && OnlyValuesOf(l)
      ensures forall m :: -1 <= m <= Depth() && m != l ==> Values(Layer(m)) == old(Values(Layer(m)))
    {
      forall m, k | -1 <= m <= Depth() && m != l && 0 <= k < |Layer(m)|
        ensures Layer(m)[k].value == old(Layer(m)[k].value)
      {
        assert old(Pos)[Layer(m)[k]] == (m, k);
      }
    }

    /** `Feed`: input neuron i takes `src[i]`, or 0 past the end of `src`. */
    method Feed(src: seq<real>)
      requires Valid()
      modifies Repr()
      ensures Valid() && OnlyValuesOf(-1)
      ensures Values(inputLayer) == Padded(src, |inputLayer|)
    {
      var i := 0;
      while i < |inputLayer|
        invariant 0 <= i <= |inputLayer|
        invariant Placed() && OnlyValuesOf(-1)
        invariant forall t :: 0 <= t < i ==> inputLayer[t].value == Padded(src, |inputLayer|)[t]
      {
        assert Layer(-1)[i] == inputLayer[i];
        if i < |src| {
          inputLayer[i].SetValue(src[i]);
        } else {
          inputLayer[i].SetValue(0.0);
        }
        i := i + 1;
      }
      ValidKept();
    }

    /** What `ActivateAll` needs of layer l. */
    lemma LayerWired(l: int)
      requires Valid() && 0 <= l <= Depth()
      ensures |W[l]| == |Layer(l)|
      ensures forall t :: 0 <= t < |Layer(l)| ==>
        && Layer(l)[t].inputs == Layer(l - 1) && Layer(l)[t].weights == W[l][t]
        && |Layer(l - 1)| <= |W[l][t]| && Layer(l)[t].mode == SigmoidMode && Layer(l)[t] !in Layer(l - 1)
      ensures forall t, u :: 0 <= t < u < |Layer(l)| ==> Layer(l)[t] != Layer(l)[u]
      ensures forall n :: n in Layer(l) ==> n in Pos && Pos[n].0 == l
    {
      var ins := Layer(l - 1);
      forall t | 0 <= t < |Layer(l)|
        ensures Layer(l)[t] !in ins && Linked(l, t)
      {
        assert Linked(l, t);
        assert forall k :: 0 <= k < |ins| ==> Pos[ins[k]] == (l - 1, k);
      }
    }

    /** Once every neuron of layer l has taken its new value, layer l is
        settled, the invariant holds and the other layers are as before. */
    twostate lemma LayerActivated(l: int)
      requires old(Valid()) && 0 <= l <= old(Depth()) && OnlyValuesOf(l)
      requires forall t :: 0 <= t < |Layer(l)| ==>
        Layer(l)[t].value == Sigmoid(WeightedSum(W[l][t], old(Values(Layer(l - 1)))))
      ensures Valid()
      ensures forall j :: 0 <= j < |Layer(l)| ==> Settled(l, j)
      ensures forall m :: -1 <= m <= Depth() && m != l ==> Values(Layer(m)) == old(Values(Layer(m)))
    {
      ValidKept();
      OtherLayersKept(l);
      assert Values(Layer(l - 1)) == old(Values(Layer(l - 1)));
    }

    /** `Execute` over layer l. */
    method ActivateLayer(l: int)
      requires Valid() && 0 <= l <= Depth()
      modifies Repr()
      ensures Valid() && unchanged(this)
      ensures forall j :: 0 <= j < |Layer(l)| ==> Settled(l, j)
      ensures forall m :: -1 <= m <= Depth() && m != l ==> Values(Layer(m)) == old(Values(Layer(m)))
    {
      var layer := if l < |hiddenLayers| then hiddenLayers[l] else outputLayer;
      LayerWired(l);
      ActivateAll(layer, Layer(l - 1), W[l]);
      LayerActivated(l);
    }

    /** `Execute`: the hidden layers in order, then the output layer. */
    method Execute()
      requires Valid()
      modifies Repr()
      ensures Valid() && Consistent() && unchanged(this)
      ensures Values(inputLayer) == old(Values(inputLayer))
    {
      var i := 0;
      while i < |hiddenLayers|
        invariant 0 <= i <= Depth()
        invariant Valid() && unchanged(this)
        invariant forall l, j :: 0 <= l < i && 0 <= j < |Layer(l)| ==> Settled(l, j)
        invariant Values(inputLayer) == old(Values(inputLayer))
      {
        label L:
        ActivateLayer(i);
        forall l, j | 0 <= l < i && 0 <= j < |Layer(l)|
          ensures Settled(l, j)
        {
          assert old@L(Settled(l, j));
          assert Layer(l)[j].value == Values(Layer(l))[j] == old@L(Values(Layer(l)))[j];
        }
        assert Values(Layer(-1)) == old@L(Values(Layer(-1)));
        i := i + 1;
      }
      label M:
      ActivateLayer(Depth());
      forall l, j | 0 <= l < Depth() && 0 <= j < |Layer(l)|
        ensures Settled(l, j)
      {
        assert old@M(Settled(l, j));
        assert Layer(l)[j].value == Values(Layer(l))[j] == old@M(Values(Layer(l)))[j];
      }
      assert Values(Layer(-1)) == old@M(Values(Layer(-1)));
    }

    /** In the state `Execute` leaves, layer m holds what the first m + 1
        weight layers compute from the input values. */
    lemma {:induction false} ConsistentPropagates(m: nat)
      requires Valid() && Consistent() && m <= Depth()
      ensures Values(Layer(m)) == Propagate(W[..m + 1], Values(inputLayer))
      decreases m
    {
      LayerIsOut(m);
      if m > 0 {
        ConsistentPropagates(m - 1);
      }
      PropagatePrefix(W, Values(inputLayer), m);
    }

    /** In a consistent state layer l holds what its weights compute from
        the layer before it. */
    lemma LayerIsOut(l: int)
      requires Valid() && Consistent() && 0 <= l <= Depth()
      ensures Values(Layer(l)) == LayerOut(W[l], Values(Layer(l - 1)))
    {
      forall j | 0 <= j < |Layer(l)|
        ensures Values(Layer(l))[j] == LayerOut(W[l], Values(Layer(l - 1)))[j]
      {
        assert Settled(l, j);
      }
    }

    /** After `Execute`, the output layer holds what the whole network
        computes from the input values. */
    lemma OutputPropagates()
      requires Valid() && Consistent()
      ensures Values(outputLayer) == Propagate(W, Values(inputLayer))
    {
      ConsistentPropagates(Depth());
      assert W[..Depth() + 1] == W;
    }

    /** `Feed` then `Execute`: the output layer ends up holding what the
        network computes from `src`. */
    method Forward(src: seq<real>)
      requires Valid()
      modifies Repr()
      ensures Valid() && Consistent() && unchanged(this)
      ensures Values(inputLayer) == Padded(src, |inputLayer|)
      ensures Values(outputLayer) == Propagate(W, Padded(src, |inputLayer|))
    {
      Feed(src);
      Execute();
      OutputPropagates();
    }

    /** `Run`: out_of_range when the network is not set up; otherwise the
        index of the first largest output after feeding `src` forward. */
    method Run(src: seq<real>) returns (r: Result<nat>)
      requires Valid() && (inputLayer != [] ==> outputLayer != [])
      modifies Repr()
      ensures Valid()
      ensures r.Failure? <==> !IsSetUp()
      ensures r.Failure? ==> r.error == OutOfRange
      ensures r.Success? ==> r.value == FirstMax(Propagate(W, Padded(src, |inputLayer|)))
    {
      if !IsSetUp() {
        return Failure(OutOfRange);
      }
      Forward(src);
      var res := GetResult(outputLayer);
      return Success(res);
    }

    /** `Prediction`: the 1-based class the network picks for the pixels. */
    method Prediction(px: seq<nat>) returns (r: Result<nat>)
      requires Valid() && (inputLayer != [] ==> outputLayer != [])
      modifies Repr()
      ensures Valid()
      ensures r.Failure? <==> !IsSetUp()
      ensures r.Failure? ==> r.error == OutOfRange
      ensures r.Success? ==> r.value == Predict(W, |inputLayer|, px)
    {
      var data := FormFeedVector(px);
      var res := Run(data);
      match res {
        case Failure(e) => return Failure(e);
        case Success(k) => return Success(k + 1);
      }
    }

    // ---- One step of back-propagation ----

    /** After a forward pass every layer holds what `Acts` says it holds. */
    lemma LayersPropagate()
      requires Valid() && Consistent()
      ensures forall l :: 0 <= l <= Depth() ==> Values(Layer(l)) == Acts(W, Values(inputLayer))[l]
    {
      forall l | 0 <= l <= Depth()
        ensures Values(Layer(l)) == Acts(W, Values(inputLayer))[l]
      {
        ConsistentPropagates(l);
      }
    }

    /** With one weight per input the weights chain up from the input layer. */
    lemma AlignedFits()
      requires Valid() && Aligned()
      ensures Fits(W, |inputLayer|)
    {
    }

    /** Only derivatives changed, and only in the layers span.0 .. span.1-1: the
        invariant holds, every layer keeps its values and the other layers
        keep their derivatives. */
    twostate lemma DerivsChanged(span: (int, int))
      requires old(Valid()) && SameWiring()
      requires forall n :: n in old(Pos) ==>
        n.value == old(n.value) && (!(span.0 <= old(Pos)[n].0 < span.1) ==> n.deriv == old(n.deriv))
      ensures Valid()
      ensures forall m :: -1 <= m <= Depth() ==> Values(Layer(m)) == old(Values(Layer(m)))
      ensures forall m :: -1 <= m <= Depth() && !(span.0 <= m < span.1) ==> Derivs(Layer(m)) == old(Derivs(Layer(m)))
    {
      ValidKept();
      forall m, k | -1 <= m <= Depth() && 0 <= k < |Layer(m)|
        ensures Layer(m)[k].value == old(Layer(m)[k].value)
        ensures !(span.0 <= m < span.1) ==> Layer(m)[k].deriv == old(Layer(m)[k].deriv)
      {
        assert old(Pos)[Layer(m)[k]] == (m, k);
      }
    }

    /** `CalcDerivOutput`: output neuron i takes the derivative of its
        squared error against expected value i. The C++ code reads
        `expected_values_[i]` unchecked. */
    method CalcDerivOutput()
      requires Valid() && |outputLayer| <= |expectedValues|
      modifies Repr()
      ensures Valid() && OnlyDerivsIn(Depth(), Depth() + 1)
      ensures forall m :: -1 <= m <= Depth() ==> Values(Layer(m)) == old(Values(Layer(m)))
      ensures forall m :: -1 <= m < Depth() ==> Derivs(Layer(m)) == old(Derivs(Layer(m)))
      ensures Derivs(outputLayer) == OutDeltas(Values(outputLayer), expectedValues)
    {
      LayerWired(Depth());
      SetOutputDerivs(outputLayer, expectedValues);
      assert forall n :: n in outputLayer ==> Pos[n].0 == Depth();
      DerivsChanged((Depth(), Depth() + 1));
    }

    /** `CalcDerivHidden`: the hidden layers from the last to the first,
        each from the derivatives of the layer after it. */
    method CalcDerivHidden()
      requires Valid()
      modifies Repr()
      ensures Valid() && OnlyDerivsIn(0, Depth())
      ensures forall m :: -1 <= m <= Depth() ==> Values(Layer(m)) == old(Values(Layer(m)))
      ensures Derivs(outputLayer) == old(Derivs(outputLayer))
      ensures forall l :: 0 <= l < Depth() ==> BackLinked(hiddenLayers + [outputLayer], l)
    {
      var L := hiddenLayers + [outputLayer];
      LayersIndexed();
      SetAllHiddenDerivs(L, Pos);
      HiddenDerivsSet(L);
    }

    /** What `SetAllHiddenDerivs` leaves, stated on the network. */
    twostate lemma HiddenDerivsSet(L: seq<seq<Neuron>>)
      requires old(Valid()) && unchanged(this) && L == hiddenLayers + [outputLayer]
      requires forall n :: n in old(Pos) ==>
        n.inputs == old(n.inputs) && n.weights == old(n.weights) && n.mode == old(n.mode) && n.value == old(n.value)
      requires forall n :: n in old(Pos) && !(0 <= old(Pos)[n].0 < |L| - 1) ==> n.deriv == old(n.deriv)
      ensures Valid() && OnlyDerivsIn(0, Depth())
      ensures forall m :: -1 <= m <= Depth() ==> Values(Layer(m)) == old(Values(Layer(m)))
      ensures Derivs(outputLayer) == old(Derivs(outputLayer))
    {
      DerivsChanged((0, Depth()));
      assert Layer(Depth()) == outputLayer;
    }

    /** The hidden layers followed by the output layer, as the loops over
        all the layers see them. */
    lemma LayersIndexed()
      requires Valid()
      ensures Indexed(hiddenLayers + [outputLayer], Pos)
      ensures forall l :: 0 <= l <= Depth() ==> (hiddenLayers + [outputLayer])[l] == Layer(l)
      ensures forall l, k :: 0 < l <= Depth() && 0 <= k < |Layer(l)| ==> |Layer(l - 1)| <= |Layer(l)[k].weights|
      ensures forall l :: 0 <= l <= Depth() ==> WeightsOf(Layer(l)) == W[l]
    {
      var L := hiddenLayers + [outputLayer];
      forall l, j | 0 <= l < |L| && 0 <= j < |L[l]|
        ensures L[l][j] in Pos && Pos[L[l][j]] == (l, j)
      {
        assert L[l] == Layer(l);
      }
      forall l | 0 <= l <= Depth()
        ensures WeightsOf(Layer(l)) == W[l]
      {
        var layer := Layer(l);
        forall j | 0 <= j < |layer|
          ensures WeightsOf(layer)[j] == W[l][j]
        {
          assert Linked(l, j);
        }
      }
      forall l, k | 0 < l <= Depth() && 0 <= k < |Layer(l)|
        ensures |Layer(l - 1)| <= |Layer(l)[k].weights|
      {
        assert Linked(l, k);
      }
    }

    /** What `CorrectAll` needs of the layers `L` of a network with one
        weight per input, whose layer l reads the values `F[l]` and has the
        derivatives `D[l]`. */
    lemma CorrectReady(L: seq<seq<Neuron>>, F: seq<seq<real>>, D: seq<seq<real>>)
      requires Valid() && Aligned() && L == hiddenLayers + [outputLayer] && |F| == |D| == Depth() + 1
      requires forall l :: 0 <= l <= Depth() ==> Values(Layer(l - 1)) == F[l] && Derivs(Layer(l)) == D[l]
      ensures Indexed(L, Pos)
      ensures forall y :: 0 <= y < |inputLayer| ==> inputLayer[y] in Pos && Pos[inputLayer[y]].0 < 0
      ensures forall l, k :: 0 <= l < |L| && 0 <= k < |L[l]| ==>
        L[l][k].inputs == Prev(L, inputLayer, l) && |L[l][k].weights| <= |Prev(L, inputLayer, l)|
      ensures |W| == |F| == |D| == |L|
      ensures forall l :: 0 <= l < |L| ==>
        WeightsOf(L[l]) == W[l] && Values(Prev(L, inputLayer, l)) == F[l] && Derivs(L[l]) == D[l]
    {
      LayersIndexed();
      forall y | 0 <= y < |inputLayer|
        ensures inputLayer[y] in Pos && Pos[inputLayer[y]].0 < 0
      {
        assert Layer(-1) == inputLayer;
      }
      forall l | 0 <= l < |L|
        ensures L[l] == Layer(l) && Prev(L, inputLayer, l) == Layer(l - 1)
      {
      }
      forall l, k | 0 <= l < |L| && 0 <= k < |L[l]|
        ensures L[l][k].inputs == Layer(l - 1) && |L[l][k].weights| <= |Layer(l - 1)|
      {
        assert Linked(l, k);
      }
    }

    /** The neurons' part of `CorrectWeights`: every neuron of the layers
        0 .. Depth(), reading the values `F[l]` and with the derivatives
        `D[l]`, takes one gradient step; `W1` is what the layers then hold. */
    method CorrectNeurons(ghost F: seq<seq<real>>, ghost D: seq<seq<real>>) returns (ghost W1: seq<seq<seq<real>>>)
      requires Valid() && Aligned() && |F| == |D| == Depth() + 1
      requires forall l :: 0 <= l <= Depth() ==> Values(Layer(l - 1)) == F[l] && Derivs(Layer(l)) == D[l]
      modifies Repr()
      ensures forall n :: n in Pos ==>
        n.inputs == old(n.inputs) && n.mode == old(n.mode) && n.value == old(n.value) && n.deriv == old(n.deriv)
      ensures Holds(hiddenLayers + [outputLayer], W1) && SameDims(W1, W)
      ensures forall l :: 0 <= l < |W| ==> Stepped(W1[l], W[l], F[l], learningRate, D[l])
    {
      var L := hiddenLayers + [outputLayer];
      CorrectReady(L, F, D);
      CorrectAll(L, inputLayer, Pos, learningRate, W, F, D);
      W1 := SteppedHolds(L, W, F, learningRate, D);
    }

    /** Only weights changed, keeping their number, and `W` records the new
        weights: the invariant holds, and so does the alignment if it held. */
    twostate lemma WeightsReplaced()
      requires old(Valid())
      requires inputLayer == old(inputLayer) && hiddenLayers == old(hiddenLayers) && outputLayer == old(outputLayer)
      requires Pos == old(Pos)
      requires forall n :: n in Pos ==> n.inputs == old(n.inputs) && n.mode == old(n.mode)
      requires Holds(hiddenLayers + [outputLayer], W) && SameDims(W, old(W))
      ensures Valid() && (old(Aligned()) ==> Aligned())
    {
      var L := hiddenLayers + [outputLayer];
      forall l | -1 <= l <= Depth()
        ensures Layer(l) == old(Layer(l))
      {
      }
      assert Placed() && Shaped();
      forall l, j | 0 <= l <= Depth() && 0 <= j < |Layer(l)|
        ensures Linked(l, j)
      {
        assert L[l] == Layer(l);
        assert old(Linked(l, j));
      }
      if old(Aligned()) {
        forall l, j | 0 <= l <= Depth() && 0 <= j < |Layer(l)|
          ensures |W[l][j]| == |Layer(l - 1)|
        {
          assert old(|W[l][j]| == |Layer(l - 1)|);
        }
      }
    }

    /** `CorrectWeights`: every neuron of the layers 0 .. Depth() takes one
        gradient step with the values it reads (`F[l]` for layer l) and its
        derivative (`D[l]`); `Neuron::CorrectWeights` reads one input per
        weight, hence one weight per input. */
    method CorrectWeights(ghost F: seq<seq<real>>, ghost D: seq<seq<real>>)
      requires Valid() && Aligned() && |F| == |D| == Depth() + 1
      requires forall l :: 0 <= l <= Depth() ==> Values(Layer(l - 1)) == F[l] && Derivs(Layer(l)) == D[l]
      modifies this, Repr()
      ensures Valid() && Aligned()
      ensures inputLayer == old(inputLayer) && hiddenLayers == old(hiddenLayers) && outputLayer == old(outputLayer)
      ensures Pos == old(Pos) && expectedValues == old(expectedValues) && learningRate == old(learningRate)
      ensures forall n :: n in Pos ==>
        n.inputs == old(n.inputs) && n.mode == old(n.mode) && n.value == old(n.value) && n.deriv == old(n.deriv)
      ensures Steppable(old(W), F, D) && W == CorrectedNet(old(W), F, learningRate, D)
    {
      ghost var W1 := CorrectNeurons(F, D);
      W := W1;
      WeightsReplaced();
      SteppedNet(W, old(W), F, learningRate, D);
    }

    /** `CalcDerivOutput` then `CalcDerivHidden`. */
    method BackDerivs()
      requires Valid() && |outputLayer| <= |expectedValues|
      modifies Repr()
      ensures Valid() && SameWiring()
      ensures forall l :: -1 <= l <= Depth() ==> Values(Layer(l)) == old(Values(Layer(l)))
      ensures Derivs(outputLayer) == OutDeltas(Values(outputLayer), expectedValues)
      ensures forall l :: 0 <= l < Depth() ==> BackLinked(hiddenLayers + [outputLayer], l)
    {
      CalcDerivOutput();
      ghost var out := Values(outputLayer);
      CalcDerivHidden();
      assert Layer(Depth()) == outputLayer;
      assert Values(outputLayer) == out;
    }

    /** The derivatives `BackDerivs` leaves on a network whose layers hold
        the values `acts` are the ones `DeltaAt` defines. */
    lemma DerivsAreDeltas(acts: seq<seq<real>>) returns (D: seq<seq<real>>)
      requires Valid() && |outputLayer| <= |expectedValues| && |acts| == Depth() + 1
      requires forall l :: 0 <= l <= Depth() ==> Values(Layer(l)) == acts[l]
      requires Derivs(outputLayer) == OutDeltas(Values(outputLayer), expectedValues)
      requires forall l :: 0 <= l < Depth() ==> BackLinked(hiddenLayers + [outputLayer], l)
      ensures |D| == Depth() + 1 && forall l :: 0 <= l <= Depth() ==> Derivs(Layer(l)) == D[l]
      ensures AreDeltas(W, acts, expectedValues, D)
    {
      var L := hiddenLayers + [outputLayer];
      LayersIndexed();
      D := LayerDerivs(L);
      assert L[Depth()] == outputLayer;
      LinkedDeltas(L, W, acts, expectedValues, D);
    }

    /** `CalcDerivOutput` then `CalcDerivHidden` after a forward pass:
        every layer l holds the derivatives D[l], those `DeltaAt` defines
        for the values the forward pass left and the expected values. */
    method Backpropagate() returns (ghost D: seq<seq<real>>)
      requires Valid() && Consistent() && |outputLayer| <= |expectedValues|
      modifies Repr()
      ensures Valid() && SameWiring()
      ensures forall l :: -1 <= l <= Depth() ==> Values(Layer(l)) == old(Values(Layer(l)))
      ensures |D| == Depth() + 1 && forall l :: 0 <= l <= Depth() ==> Derivs(Layer(l)) == D[l]
      ensures AreDeltas(W, Acts(W, old(Values(inputLayer))), expectedValues, D)
    {
      LayersPropagate();
      ghost var acts := Acts(W, Values(inputLayer));
      BackDerivs();
      D := DerivsAreDeltas(acts);
    }

    // ---- Training ----

    /** Only the settings (`expectedValues`, `learningRate`) changed: the
        invariant, the alignment and the settled state are kept. */
    twostate lemma SettingsChanged()
      requires old(Valid())
      requires inputLayer == old(inputLayer) && hiddenLayers == old(hiddenLayers) && outputLayer == old(outputLayer)
      requires Pos == old(Pos) && W == old(W)
      requires forall n :: n in Pos ==> unchanged(n)
      ensures Valid() && (old(Aligned()) ==> Aligned()) && (old(Consistent()) ==> Consistent())
    {
      forall l | -1 <= l <= Depth()
        ensures Layer(l) == old(Layer(l))
      {
      }
      assert Placed() && Shaped();
      forall l, j | 0 <= l <= Depth() && 0 <= j < |Layer(l)|
        ensures Linked(l, j) && (old(Settled(l, j)) ==> Settled(l, j))
      {
        assert old(Linked(l, j));
        assert Layer(l - 1) == old(Layer(l - 1));
        assert Values(Layer(l - 1)) == old(Values(Layer(l - 1)));
      }
    }

    /** `set_expected_values(val)`: a vector no longer than the output layer
        replaces the expected values, padded with zeros; a longer one has
        its first |outputLayer| entries appended to them. */
    method SetExpectedValues(val: seq<real>)
      requires Valid()
      modifies this
      ensures expectedValues == ExpectedAfterSet(old(expectedValues), val, |outputLayer|)
      ensures inputLayer == old(inputLayer) && hiddenLayers == old(hiddenLayers) && outputLayer == old(outputLayer)
      ensures Pos == old(Pos) && W == old(W) && learningRate == old(learningRate)
      ensures Valid() && (old(Aligned()) ==> Aligned()) && (old(Consistent()) ==> Consistent())
    {
      expectedValues := FillExpected(expectedValues, val, |outputLayer|);
      SettingsChanged();
    }

    /** `set_learning_rate(src)`: only a positive rate is taken. */
    method SetLearningRate(src: real)
      requires Valid()
      modifies this
      ensures learningRate == if src > 0.0 then src else old(learningRate)
      ensures inputLayer == old(inputLayer) && hiddenLayers == old(hiddenLayers) && outputLayer == old(outputLayer)
      ensures Pos == old(Pos) && W == old(W) && expectedValues == old(expectedValues)
      ensures Valid() && (old(Aligned()) ==> Aligned()) && (old(Consistent()) ==> Consistent())
    {
      if src > 0.0 {
        learningRate := src;
      }
      SettingsChanged();
    }

    /** The values each layer reads on a network whose input layer holds `x`
        and whose layer l holds acts[l]. */
    lemma FeedingLayers(x: seq<real>, acts: seq<seq<real>>, F: seq<seq<real>>)
      requires |acts| == |F| == Depth() + 1 && Values(inputLayer) == x
      requires forall l :: 0 <= l <= Depth() ==> Values(Layer(l)) == acts[l]
      requires forall l :: 0 <= l <= Depth() ==> F[l] == Feeding(acts, x, l)
      ensures forall l :: 0 <= l <= Depth() ==> Values(Layer(l - 1)) == F[l]
    {
      forall l | 0 <= l <= Depth()
        ensures Values(Layer(l - 1)) == F[l]
      {
        if l > 0 {
          assert Values(Layer(l - 1)) == acts[l - 1];
        }
      }
    }

    /** `CalcDerivOutput`, `CalcDerivHidden` and `CorrectWeights` after a
        forward pass: the weights take the step `Trained` describes for the
        input values and the expected values the network holds. */
    method BackpropStep()
      requires Valid() && Aligned() && Consistent() && |outputLayer| <= |expectedValues|
      modifies this, Repr()
      ensures Valid() && Aligned()
      ensures inputLayer == old(inputLayer) && hiddenLayers == old(hiddenLayers) && outputLayer == old(outputLayer)
      ensures Pos == old(Pos) && expectedValues == old(expectedValues) && learningRate == old(learningRate)
      ensures Fits(old(W), |old(Values(inputLayer))|)
      ensures W == Trained(old(W), old(Values(inputLayer)), expectedValues, learningRate)
    {
      LayersPropagate();
      AlignedFits();
      ghost var W0, x := W, Values(inputLayer);
      ghost var acts := Acts(W, x);
      ghost var D := Backpropagate();
      assert Layer(-1) == inputLayer;
      ghost var depth := Depth();
      ghost var F := seq(depth + 1, l requires 0 <= l <= depth => Feeding(acts, x, l));
      FeedingLayers(x, acts, F);
      CorrectWeights(F, D);
      CorrectedNetIsTrained(W0, x, expectedValues, learningRate, F, D);
    }

    /** The first half of `EducateOneStep`: a forward pass from `src`, then
        the one-hot target for `expectation` as the expected values. */
    method ShowExample(src: seq<real>, expectation: int)
      requires Valid() && Aligned()
      modifies this, Repr()
      ensures Valid() && Aligned() && Consistent()
      ensures inputLayer == old(inputLayer) && hiddenLayers == old(hiddenLayers) && outputLayer == old(outputLayer)
      ensures Pos == old(Pos) && W == old(W) && learningRate == old(learningRate)
      ensures Values(inputLayer) == Padded(src, |inputLayer|)
      ensures expectedValues == ExpectationVector(expectation, |outputLayer|)
    {
      var t := FormExpectationVector(expectation, |outputLayer|);
      Forward(src);
      ExpectedAfterSetOneHot(expectedValues, expectation, |outputLayer|);
      SetExpectedValues(t);
    }

    /** `EducateOneStep(src, expectation)`: out_of_range when the network is
        not set up; otherwise a forward pass from `src`, the one-hot target
        for `expectation` stored as the expected values, and one step of
        back-propagation, which leaves the weights `Trained` describes. */
    method EducateOneStep(src: seq<real>, expectation: int) returns (r: Outcome)
      requires Valid() && Aligned()
      modifies this, Repr()
      ensures Valid() && Aligned()
      ensures inputLayer == old(inputLayer) && hiddenLayers == old(hiddenLayers) && outputLayer == old(outputLayer)
      ensures Pos == old(Pos) && learningRate == old(learningRate)
      ensures r.Fail? <==> !IsSetUp()
      ensures r.Fail? ==> r.error == OutOfRange && W == old(W) && expectedValues == old(expectedValues)
      ensures r.Pass? ==> expectedValues == ExpectationVector(expectation, |outputLayer|)
      ensures r.Pass? ==> (Fits(old(W), |inputLayer|) &&
        W == Trained(old(W), Padded(src, |inputLayer|), ExpectationVector(expectation, |outputLayer|), learningRate))
    {
      if !IsSetUp() {
        return Fail(OutOfRange);
      }
      ShowExample(src, expectation);
      BackpropStep();
      return Pass;
    }

    /** `LearnNetwork(px, expected)`: one learning step on the scaled pixels,
        with the 1-based label turned into a 0-based output index. */
    method LearnNetwork(px: seq<nat>, expected: nat) returns (r: Outcome)
      requires Valid() && Aligned()
      modifies this, Repr()
      ensures Valid() && Aligned()
      ensures inputLayer == old(inputLayer) && hiddenLayers == old(hiddenLayers) && outputLayer == old(outputLayer)
      ensures Pos == old(Pos) && learningRate == old(learningRate)
      ensures r.Fail? <==> !IsSetUp()
      ensures r.Fail? ==> r.error == OutOfRange && W == old(W) && expectedValues == old(expectedValues)
      ensures r.Pass? ==> expectedValues == ExpectationVector(SizeToInt(expected - 1), |outputLayer|)
      ensures r.Pass? ==> (Fits(old(W), |inputLayer|) &&
        W == Trained(old(W), Padded(FeedVector(px), |inputLayer|),
                     ExpectationVector(SizeToInt(expected - 1), |outputLayer|), learningRate))
    {
      var data := FormFeedVector(px);
      r := EducateOneStep(data, SizeToInt(expected - 1));
    }

    /** `get_num_inputs` for the layers 0 .. Depth(). */
    function InputCounts(): (ins: seq<nat>)
      reads this
      ensures |ins| == Depth() + 1 && forall l :: 0 <= l <= Depth() ==> ins[l] == NumInputs(l)
    {
      seq(Depth() + 1, l reads this requires 0 <= l <= Depth() => Max0(NumInputs(l)))
    }

    /** Every neuron holds at least one weight per input the index helpers
        count, so `SaveWeights` reads no weight past the end. */
    ghost predicate Saveable()
      reads this
    {
      |W| == Depth() + 1 && forall l, j :: 0 <= l <= Depth() && 0 <= j < |W[l]| ==> InputCounts()[l] <= |W[l][j]|
    }

    /** The weight file `SaveWeights` writes. */
    ghost function SavedFile(): seq<string>
      reads this
      requires Saveable()
    {
      FileOf(Depth(), Saved(W, InputCounts()))
    }

    /** What `SaveWeights` reads of the neurons is what `W` records. */
    lemma SaveReady()
      requires Valid()
      ensures Saveable()
      ensures forall l :: 0 <= l <= Depth() ==> WeightsOf(Layer(l)) == W[l] && InputCounts()[l] == NumInputs(l)
    {
      LayersIndexed();
      forall l, j | 0 <= l <= Depth() && 0 <= j < |Layer(l)|
        ensures InputCounts()[l] == NumInputs(l) <= |W[l][j]|
      {
        IndexHelpersMatchLayers(l);
        assert Linked(l, j);
      }
      forall l | 0 <= l <= Depth()
        ensures InputCounts()[l] == NumInputs(l)
      {
        IndexHelpersMatchLayers(l);
      }
    }

    /** `SaveWeights`: nothing when the engine is not set up; otherwise the
        header, the depth line, then for each layer 0 .. Depth() one line
        per input k listing weight k of every neuron, and the sentinel. */
    method SaveWeights() returns (file: Option<seq<string>>)
      requires Valid()
      ensures !IsSetUp() ==> file == None
      ensures IsSetUp() ==> Saveable() && file == Some(SavedFile())
    {
      if !IsSetUp() {
        return None;
      }
      SaveReady();
      LayersIndexed();
      var body := SaveLayers(hiddenLayers + [outputLayer], W, InputCounts());
      return Some([Header, DepthLine(|hiddenLayers|)] + body);
    }

    /** `LoadWeights`: nothing when the file cannot be opened;
        invalid_argument on a wrong header or depth line; otherwise the
        tokens of the file are stored as the graph loader reads them, up to
        the first failure. Only weights change. */
    method LoadWeights(file: Option<seq<string>>) returns (o: Outcome)
      requires Valid()
      modifies this, Repr()
      ensures Valid() && (old(Aligned()) ==> Aligned())
      ensures inputLayer == old(inputLayer) && hiddenLayers == old(hiddenLayers) && outputLayer == old(outputLayer)
      ensures Pos == old(Pos) && expectedValues == old(expectedValues) && learningRate == old(learningRate)
      ensures forall n :: n in Pos ==>
        n.inputs == old(n.inputs) && n.mode == old(n.mode) && n.value == old(n.value) && n.deriv == old(n.deriv)
      ensures file.None? ==> o == Pass && W == old(W)
      ensures file.Some? && CheckHeader(file.value, Depth()).Fail? ==> o == CheckHeader(file.value, Depth()) && W == old(W)
      ensures file.Some? && CheckHeader(file.value, Depth()).Pass? ==>
        (o, W) == ApplyNet(old(W), GraphPuts(file.value, 2, 0, 0, 0))
    {
      if file.None? {
        return Pass;
      }
      var lines := file.value;
      o := CheckHeader(lines, |hiddenLayers|);
      if o.Fail? {
        return;
      }
      o := LoadBody(lines);
    }

    /** The body of `LoadWeights` once the header has passed: every weight
        line read, in file order, up to the first failure. */
    method LoadBody(lines: seq<string>) returns (o: Outcome)
      requires Valid()
      modifies this, Repr()
      ensures Valid() && (old(Aligned()) ==> Aligned())
      ensures inputLayer == old(inputLayer) && hiddenLayers == old(hiddenLayers) && outputLayer == old(outputLayer)
      ensures Pos == old(Pos) && expectedValues == old(expectedValues) && learningRate == old(learningRate)
      ensures forall n :: n in Pos ==>
        n.inputs == old(n.inputs) && n.mode == old(n.mode) && n.value == old(n.value) && n.deriv == old(n.deriv)
      ensures (o, W) == ApplyNet(old(W), GraphPuts(lines, 2, 0, 0, 0))
    {
      ghost var W1;
      o, W1 := LoadNeurons(lines);
      W := W1;
      WeightsReplaced();
    }

    /** The neuron writes of `LoadBody`, with `W1` the weights they leave. */
    method LoadNeurons(lines: seq<string>) returns (o: Outcome, ghost W1: seq<seq<seq<real>>>)
      requires Valid()
      modifies Repr()
      ensures forall n :: n in Pos ==>
        n.inputs == old(n.inputs) && n.mode == old(n.mode) && n.value == old(n.value) && n.deriv == old(n.deriv)
      ensures Holds(hiddenLayers + [outputLayer], W1) && SameDims(W1, W)
      ensures (o, W1) == ApplyNet(W, GraphPuts(lines, 2, 0, 0, 0))
    {
      var L := hiddenLayers + [outputLayer];
      LayersIndexed();
      o, W1 := LoadLines(L, Pos, W, lines);
      ApplyNetShape(W, GraphPuts(lines, 2, 0, 0, 0));
    }

    /** `InstallRandomWeights`, `rand(i)` being the value of the i-th
        `rand()` call after `srand(time(0))`: layer by layer, neuron by
        neuron, every weight below the neuron's input count is drawn from
        its own call (see `DrawsDistinct`) and lies in [-1, 1] (see
        `RandomNetRange`). */
    method InstallRandomWeights(rand: nat -> nat)
      requires Valid()
      modifies this, Repr()
      ensures Valid() && (old(Aligned()) ==> Aligned())
      ensures inputLayer == old(inputLayer) && hiddenLayers == old(hiddenLayers) && outputLayer == old(outputLayer)
      ensures Pos == old(Pos) && expectedValues == old(expectedValues) && learningRate == old(learningRate)
      ensures forall n :: n in Pos ==>
        n.inputs == old(n.inputs) && n.mode == old(n.mode) && n.value == old(n.value) && n.deriv == old(n.deriv)
      ensures W == RandomNet(old(W), old(InputCounts()), rand)
    {
      var ins := InputCounts();
      ghost var W1 := RandomNeurons(rand, ins);
      W := W1;
      WeightsReplaced();
    }

    /** The neuron writes of `InstallRandomWeights`, layer l reading `ins[l]`
        neurons, with `W1` the weights they leave. */
    method RandomNeurons(rand: nat -> nat, ins: seq<nat>) returns (ghost W1: seq<seq<seq<real>>>)
      requires Valid() && ins == InputCounts()
      modifies Repr()
      ensures forall n :: n in Pos ==>
        n.inputs == old(n.inputs) && n.mode == old(n.mode) && n.value == old(n.value) && n.deriv == old(n.deriv)
      ensures Holds(hiddenLayers + [outputLayer], W1) && SameDims(W1, W)
      ensures W1 == RandomNet(W, ins, rand)
    {
      SaveReady();
      LayersIndexed();
      W1 := RandomizeLayers(hiddenLayers + [outputLayer], Pos, W, ins, rand);
      RandomNetRange(W, ins, rand);
    }

    /** Saving then loading: the file `SaveWeights` writes for a set-up
        network with one weight per input and no empty layer passes the
        header check, loads without error, and leaves every weight holding
        the saved one, reread. */
    lemma SaveLoadRoundTrip()
      requires Valid() && Aligned() && IsSetUp() && HidWidth() > 0 && outputLayer != [] && Readable()
      ensures Saveable() && CheckHeader(SavedFile(), Depth()).Pass?
      ensures ApplyNet(W, GraphPuts(SavedFile(), 2, 0, 0, 0)) == (Pass, RereadNet(W))
    {
      SaveReady();
      var ins := InputCounts();
      forall l | 0 <= l <= Depth()
        ensures W[l] != [] && ins[l] > 0
        ensures forall j :: 0 <= j < |W[l]| ==> |W[l][j]| == ins[l]
      {
        IndexHelpersMatchLayers(l);
      }
      NetRoundTrip(W, W, Depth(), ins);
      HeaderOfFile(Depth(), Saved(W, ins), Depth());
    }
  }
}
