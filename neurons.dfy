/** The neuron of the graph engine (neuron.h, model/neuron.cpp).

    A neuron holds a list of input neurons and, in parallel, a list of
    weights. The two lists normally have the same length, but
    `ClearInput` empties only the first one, so the model keeps them as two
    separate fields and states the length relation wherever a method needs
    it. */
module Neurons {
  import opened Activation

  /** Σ_{i < |vs|} ws[i]·vs[i]: the weighted sum of the values `vs` of the
      inputs. Only the first |vs| weights take part, which is what the
      loop of `Neuron::SumInput` reads. A value without a weight would be
      read out of bounds by that loop; every caller excludes it, and the
      function counts such a term as 0 so that it needs no precondition. */
  function WeightedSum(ws: seq<real>, vs: seq<real>): real
    decreases |vs|
  {
    if vs == [] then 0.0
    else WeightedSum(ws, vs[..|vs| - 1]) + Term(ws, vs, |vs| - 1)
  }

  function Term(ws: seq<real>, vs: seq<real>, i: nat): real
    requires i < |vs|
  {
    if i < |ws| then ws[i] * vs[i] else 0.0
  }

  /** The weights after one gradient step: weight i moves by
      `-lr · vs[i] · deriv`. */
  function Corrected(ws: seq<real>, vs: seq<real>, lr: real, deriv: real): (r: seq<real>)
    requires |ws| <= |vs|
    ensures |r| == |ws|
  {
    seq(|ws|, i requires 0 <= i < |ws| => ws[i] - lr * vs[i] * deriv)
  }

  /** The current values of the neurons `ins`, in order. */
  function Values(ins: seq<Neuron>): (r: seq<real>)
    reads ins
    ensures |r| == |ins|
    ensures forall i :: 0 <= i < |ins| ==> r[i] == ins[i].value
    decreases |ins|
  {
    if ins == [] then [] else Values(ins[..|ins| - 1]) + [ins[|ins| - 1].value]
  }

  /** The current derivatives of the neurons `ns`, in order. */
  function Derivs(ns: seq<Neuron>): (r: seq<real>)
    reads ns
    ensures |r| == |ns|
    ensures forall i :: 0 <= i < |ns| ==> r[i] == ns[i].deriv
  {
    seq(|ns|, i reads ns requires 0 <= i < |ns| => ns[i].deriv)
  }

  /** The current weight lists of the neurons `ns`, in order. */
  function WeightsOf(ns: seq<Neuron>): (r: seq<seq<real>>)
    reads ns
    ensures |r| == |ns|
    ensures forall i :: 0 <= i < |ns| ==> r[i] == ns[i].weights
  {
    seq(|ns|, i reads ns requires 0 <= i < |ns| => ns[i].weights)
  }

  class Neuron {
    /** The neurons this one reads (`input_`). */
    var inputs: seq<Neuron>
    /** One weight per input (`weight_`). */
    var weights: seq<real>
    var value: real
    /** `act_mode_`: `Linear` (0) or `SigmoidMode` (1). */
    var mode: int
    var deriv: real

    /** A fresh neuron: no inputs or weights, value and derivative 0, linear mode. */
    constructor ()
      ensures inputs == [] && weights == []
      ensures value == 0.0 && deriv == 0.0 && mode == Linear
    {
      inputs := [];
      weights := [];
      value := 0.0;
      mode := Linear;
      deriv := 0.0;
    }

    /** The weighted sum of the current input values. */
    ghost function Sum(): real
      reads this, inputs
      requires |inputs| <= |weights|
    {
      WeightedSum(weights, Values(inputs))
    }

    /** Appends one input and its weight in lockstep. */
    method AddInput(inp: Neuron, wgt: real)
      modifies this
      ensures inputs == old(inputs) + [inp] && weights == old(weights) + [wgt]
      ensures value == old(value) && mode == old(mode) && deriv == old(deriv)
    {
      inputs := inputs + [inp];
      weights := weights + [wgt];
    }

    /** The one-argument `AddInput`: connects with weight 1. */
    method AddUnitInput(inp: Neuron)
      modifies this
      ensures inputs == old(inputs) + [inp] && weights == old(weights) + [1.0]
      ensures value == old(value) && mode == old(mode) && deriv == old(deriv)
    {
      AddInput(inp, 1.0);
    }

    /** Empties the input list; the weight list stays as it was. */
    method ClearInput()
      modifies this
      ensures inputs == [] && weights == old(weights)
      ensures value == old(value) && mode == old(mode) && deriv == old(deriv)
    {
      inputs := [];
    }

    /** `ClearInput` as its callers need it: the weight list is emptied
        together with the input list. */
    method ClearConnections()
      modifies this
      ensures inputs == [] && weights == []
      ensures value == old(value) && mode == old(mode) && deriv == old(deriv)
    {
      inputs := [];
      weights := [];
    }

    /** Changes the mode only to one of the two known modes. */
    method SetMode(src: int)
      modifies this
      ensures mode == (if src == Linear || src == SigmoidMode then src else old(mode))
      ensures inputs == old(inputs) && weights == old(weights)
      ensures value == old(value) && deriv == old(deriv)
    {
      if src == Linear || src == SigmoidMode {
        mode := src;
      }
    }

    method SetValue(v: real)
      modifies this
      ensures value == v
      ensures inputs == old(inputs) && weights == old(weights)
      ensures mode == old(mode) && deriv == old(deriv)
    {
      value := v;
    }

    method SetDeriv(d: real)
      modifies this
      ensures deriv == d
      ensures inputs == old(inputs) && weights == old(weights)
      ensures value == old(value) && mode == old(mode)
    {
      deriv := d;
    }

    /** Writing through the unchecked reference `weight(index)`. */
    method SetWeight(index: nat, w: real)
      requires index < |weights|
      modifies this
      ensures weights == old(weights)[index := w]
      ensures inputs == old(inputs)
      ensures value == old(value) && mode == old(mode) && deriv == old(deriv)
    {
      weights := weights[index := w];
    }

    /** The loop of `SumInput`: weight i times the value of input i, summed
        over the inputs. A weight list shorter than the input list would be
        read out of bounds, so it is excluded. */
    method SumInput() returns (s: real)
      requires |inputs| <= |weights|
      ensures s == Sum()
    {
      s := 0.0;
      var i := 0;
      while i < |inputs|
        invariant 0 <= i <= |inputs|
        invariant s == WeightedSum(weights, Values(inputs)[..i])
      {
        assert Values(inputs)[..i + 1][..i] == Values(inputs)[..i];
        s := s + weights[i] * inputs[i].value;
        i := i + 1;
      }
      assert Values(inputs)[..i] == Values(inputs);
    }

    /** Sets the value to the weighted input sum, passed through the
        sigmoid unless the neuron is linear. The sum is taken before the
        value changes, which matters only if the neuron reads itself. */
    method Activate()
      requires |inputs| <= |weights|
      modifies this
      ensures value == Apply(old(mode), old(Sum()))
      ensures inputs == old(inputs) && weights == old(weights)
      ensures mode == old(mode) && deriv == old(deriv)
    {
      var s := SumInput();
      if mode == Linear {
        value := s;
      } else {
        value := Sigmoid(s);
      }
    }

    /** `CorrectWeidht`: one weight moves against its input value times the
        derivative. */
    method CorrectWeight(index: nat, lr: real)
      requires index < |weights| && index < |inputs|
      modifies this
      ensures weights == old(weights)[index := old(weights)[index] - lr * old(inputs[index].value) * old(deriv)]
      ensures inputs == old(inputs)
      ensures value == old(value) && mode == old(mode) && deriv == old(deriv)
    {
      weights := weights[index := weights[index] - lr * inputs[index].value * deriv];
    }

    /** Every weight takes one gradient step. The loop runs over the weight
        list and reads the input at the same index, so there must be no more
        weights than inputs. */
    method CorrectWeights(lr: real)
      requires |weights| <= |inputs|
      modifies this
      ensures weights == Corrected(old(weights), old(Values(inputs)), lr, old(deriv))
      ensures inputs == old(inputs)
      ensures value == old(value) && mode == old(mode) && deriv == old(deriv)
    {
      ghost var vs, ws0, d := Values(inputs), weights, deriv;
      var i := 0;
      while i < |weights|
        invariant 0 <= i <= |weights|
        invariant inputs == old(inputs) && value == old(value) && mode == old(mode) && deriv == d
        invariant forall k :: 0 <= k < |inputs| ==> inputs[k].value == vs[k]
        invariant CorrectedUpTo(weights, ws0, vs, lr, d, i)
      {
        ghost var w := weights;
        CorrectWeight(i, lr);
        CorrectedUpToStep(w, ws0, vs, lr, d, i);
        i := i + 1;
      }
      CorrectedUpToAll(weights, ws0, vs, lr, d);
    }
  }

  /** The weights `ws` hold the first i weights of `ws0` after one gradient
      step and the others as they were. */
  ghost predicate CorrectedUpTo(ws: seq<real>, ws0: seq<real>, vs: seq<real>, lr: real, d: real, i: nat)
    requires |ws0| <= |vs|
  {
    |ws| == |ws0| && i <= |ws| &&
    forall k :: 0 <= k < |ws| ==> ws[k] == if k < i then ws0[k] - lr * vs[k] * d else ws0[k]
  }

  lemma CorrectedUpToStep(ws: seq<real>, ws0: seq<real>, vs: seq<real>, lr: real, d: real, i: nat)
    requires |ws0| <= |vs| && CorrectedUpTo(ws, ws0, vs, lr, d, i) && i < |ws|
    ensures CorrectedUpTo(ws[i := ws[i] - lr * vs[i] * d], ws0, vs, lr, d, i + 1)
  {
  }

  lemma CorrectedUpToAll(ws: seq<real>, ws0: seq<real>, vs: seq<real>, lr: real, d: real)
    requires |ws0| <= |vs| && CorrectedUpTo(ws, ws0, vs, lr, d, |ws|)
    ensures ws == Corrected(ws0, vs, lr, d)
  {
    var c := Corrected(ws0, vs, lr, d);
    assert |ws| == |c| && forall k :: 0 <= k < |c| ==> ws[k] == c[k];
  }

  // ---- Properties of the update ----

  /** A zero derivative leaves every weight as it was. */
  lemma CorrectedZeroDeriv(ws: seq<real>, vs: seq<real>, lr: real)
    requires |ws| <= |vs|
    ensures Corrected(ws, vs, lr, 0.0) == ws
  {
  }

  /** With a positive rate and derivative, a weight on a positive input
      strictly decreases and one on a zero input stays put. */
  lemma CorrectedMovesAgainstInput(ws: seq<real>, vs: seq<real>, lr: real, deriv: real, i: nat)
    requires |ws| <= |vs| && i < |ws|
    requires lr > 0.0 && deriv > 0.0
    ensures vs[i] > 0.0 ==> Corrected(ws, vs, lr, deriv)[i] < ws[i]
    ensures vs[i] == 0.0 ==> Corrected(ws, vs, lr, deriv)[i] == ws[i]
  {
    assert lr * vs[i] * deriv == lr * (vs[i] * deriv);
    if vs[i] > 0.0 {
      assert vs[i] * deriv > 0.0;
    }
  }

  /** Only the first |vs| weights take part in the sum: extra weights left
      behind by `ClearInput` do not change it. */
  lemma {:induction false} WeightedSumPrefix(ws: seq<real>, extra: seq<real>, vs: seq<real>)
    requires |vs| <= |ws|
    ensures WeightedSum(ws + extra, vs) == WeightedSum(ws, vs)
    decreases |vs|
  {
    if vs != [] {
      WeightedSumPrefix(ws, extra, vs[..|vs| - 1]);
    }
  }

  /** With every weight 1 (a freshly connected neuron) the weighted sum is
      the plain sum of the input values. */
  lemma {:induction false} WeightedSumUnit(ws: seq<real>, vs: seq<real>)
    requires |vs| <= |ws| && forall i :: 0 <= i < |ws| ==> ws[i] == 1.0
    ensures WeightedSum(ws, vs) == Total(vs)
    decreases |vs|
  {
    if vs != [] {
      WeightedSumUnit(ws, vs[..|vs| - 1]);
    }
  }

  /** With every weight 0 the weighted sum is 0. */
  lemma {:induction false} WeightedSumZero(ws: seq<real>, vs: seq<real>)
    requires forall i :: 0 <= i < |ws| ==> ws[i] == 0.0
    ensures WeightedSum(ws, vs) == 0.0
    decreases |vs|
  {
    if vs != [] {
      WeightedSumZero(ws, vs[..|vs| - 1]);
    }
  }

  lemma WeightedSumSingle(w: real, v: real)
    ensures WeightedSum([w], [v]) == w * v
  {
    assert [v][..0] == [];
  }

  function Total(vs: seq<real>): real
    decreases |vs|
  {
    if vs == [] then 0.0 else Total(vs[..|vs| - 1]) + vs[|vs| - 1]
  }

  // ---- The unit tests of the neuron as scenarios ----

  /** set_value then get_value, set_deriv then get_deriv. */
  method SetGetScenario() returns (v: real, d: real)
    ensures v == 1.1 && d == 0.9
  {
    var a := new Neuron();
    a.SetValue(1.1);
    a.SetDeriv(0.9);
    v, d := a.value, a.deriv;
  }

  /** A linear neuron fed by a neuron of value 1 over weight 1 takes value
      1; with the weight set to 0 and the sigmoid mode it takes Sigmoid(0). */
  method SimpleNetScenario() returns (first: real, second: real)
    ensures first == 1.0 && second == Sigmoid(0.0)
  {
    var a := new Neuron();
    var b := new Neuron();
    b.AddInput(a, 1.0);
    a.SetValue(1.0);
    assert b.inputs == [a] && b.weights == [1.0];
    assert b.Sum() == 1.0 by {
      ValuesSingle(a);
      WeightedSumSingle(1.0, 1.0);
    }
    b.Activate();
    first := b.value;
    b.SetWeight(0, 0.0);
    b.SetMode(SigmoidMode);
    assert b.inputs == [a] && b.weights == [0.0];
    assert b.Sum() == 0.0 by {
      ValuesSingle(a);
      WeightedSumSingle(0.0, 1.0);
    }
    b.Activate();
    second := b.value;
    b.ClearInput();
  }

  /** The values of a one-neuron list. */
  lemma ValuesSingle(n: Neuron)
    ensures Values([n]) == [n.value]
  {
  }

  /** A correction with derivative 0 keeps the weight at 1; one with a
      positive derivative lowers it. */
  method CorrectionScenario() returns (kept: real, lowered: real)
    ensures kept == 1.0 && lowered < 1.0
  {
    var a := new Neuron();
    var b := new Neuron();
    b.AddInput(a, 1.0);
    a.SetValue(1.0);
    b.SetMode(SigmoidMode);
    b.Activate();
    b.SetDeriv(0.0);
    b.CorrectWeights(0.1);
    kept := b.weights[0];
    b.SetDeriv(0.1);
    b.CorrectWeights(0.1);
    lowered := b.weights[0];
  }
}
