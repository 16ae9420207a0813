/** The pool of networks behind the interface (source_code/model/network.cpp):
    four matrix engines and four graph engines, with two to five hidden
    layers, one of which is current. The learning, testing and
    cross-validation runs drive the current engine over the lines of their
    files and are proved equal to the functions of module Evaluation. A file
    is the sequence of its lines, `None` when it cannot be opened. */
module Pool {
  import opened Wrappers
  import opened Interface
  import opened Matrix
  import opened Evaluation
  import MatrixSpec
  import GraphSpec
  import GraphWeights
  import WeightFile
  import Csv
  import Metrics
  import MatrixNet
  import Graph

  /** The learning rate of the engines of kind `k`: the matrix engines keep
      the rate the pool was built with, the graph engines `kLearningRate`. */
  function RateOf(k: Kind, rate: real): real {
    if k == MatrixKind then rate else LearningRate
  }

  /** The number of inputs of each layer of a graph engine with `depth`
      hidden layers: 784 for the first hidden layer, the hidden width for
      every later layer. */
  function InputCounts(depth: nat): (ins: seq<nat>)
    ensures |ins| == depth + 1
  {
    seq(depth + 1, l => if l == 0 then InputWidth else HiddenWidth)
  }

  /** The weights `InstallRandomWeights` gives the engine of kind `k` in
      slot `s`, holding `W`: the matrix engine draws a network of its
      depth, the graph engine one weight per input of every neuron. */
  function Restarted(k: Kind, s: nat, W: Net, rand: nat -> nat): Net
    requires k == GraphKind ==> |W| == MinDepth + s + 1
  {
    match k
    case MatrixKind => MatrixSpec.RandomNet(MinDepth + s, rand)
    case GraphKind => GraphWeights.RandomNet(W, InputCounts(MinDepth + s), rand)
  }

  /** The weights a run starts from: the current ones when it continues
      learning, fresh random ones otherwise. */
  function StartWeights(cont: bool, k: Kind, s: nat, W: Net, rand: nat -> nat): Net
    requires k == GraphKind ==> |W| == MinDepth + s + 1
  {
    if cont then W else Restarted(k, s, W, rand)
  }

  /** The test `StartLearnNetwork` runs after each epoch: only for a named
      test file and more than one epoch. */
  function TestPlan(testName: string, test: Option<seq<string>>, epochs: int): Option<Option<seq<string>>> {
    if |testName| > 0 && epochs > 1 then Some(test) else None
  }

  /** `LoadWeightsFromFile` on the two engines of one slot, of `depth`
      hidden layers: the matrix engine reads the file first and a failure
      there stops the load; then the graph engine reads it. */
  ghost function LoadPair(depth: nat, m: Net, g: Net, file: Option<seq<string>>): (r: (Outcome, Net, Net))
    requires |m| >= 1
  {
    if file.None? then (Pass, m, g)
    else
      var ml := MatrixSpec.LoadFile(m, file.value);
      if ml.0.Fail? then (ml.0, ml.1, g)
      else if WeightFile.CheckHeader(file.value, depth).Fail? then (WeightFile.CheckHeader(file.value, depth), ml.1, g)
      else
        var gl := GraphWeights.ApplyNet(g, WeightFile.GraphPuts(file.value, 2, 0, 0, 0));
        (gl.0, ml.1, gl.1)
  }

  class Network {
    /** `matrix_network_`: slot s holds the matrix engine of MinDepth + s
        hidden layers. */
    const matrix: seq<MatrixNet.MatrixNetwork>
    /** `graph_network_`: slot s holds the graph engine of MinDepth + s
        hidden layers. */
    const graph: seq<Graph.GraphNetwork>
    /** The learning rate the matrix engines were built with. */
    const rate: real
    /** `current_network_`: the kind and slot of the current engine. */
    var kind: Kind
    var slot: nat
    /** Every object of every engine. */
    ghost const Repr: set<object>

    /** The objects of the engine of kind `k` in slot `s`. */
    ghost function Foot(k: Kind, s: nat): set<object>
      reads graph
      requires s < SumNetworks && |matrix| == SumNetworks && |graph| == SumNetworks
    {
      EngineFoot(matrix, graph, k, s)
    }

    /** The engine of kind `k` in slot `s` is ready: valid, of the depth of
        its slot, with its rate; a graph engine also aligned, with the
        widths of the pool. */
    ghost predicate Ready(k: Kind, s: nat)
      reads graph, Foot(k, s)
      requires s < SumNetworks && |matrix| == SumNetworks && |graph| == SumNetworks
    {
      match k
      case MatrixKind =>
        var m := matrix[s];
        m.Valid() && |m.layers| == MinDepth + s + 1 && m.learningRate == rate
      case GraphKind =>
        var g := graph[s];
        && g.Valid() && g.Shaped() && g.Aligned()
        && g.Depth() == MinDepth + s && g.HidWidth() == HiddenWidth
        && |g.inputLayer| == InputWidth && |g.outputLayer| == OutputWidth && g.learningRate == LearningRate
    }

    /** The invariant of the pool: eight ready engines with separate
        objects, and a current slot. */
    ghost predicate Valid()
      reads this, Repr
    {
      && this !in Repr
      && |matrix| == SumNetworks && |graph| == SumNetworks && slot < SumNetworks
      && (forall s :: 0 <= s < SumNetworks ==> graph[s] in Repr)
      && (forall k, s :: 0 <= s < SumNetworks ==> Foot(k, s) <= Repr && Ready(k, s))
      && (forall k, s, k2, s2 :: 0 <= s < SumNetworks && 0 <= s2 < SumNetworks && (k != k2 || s != s2) ==>
            Foot(k, s) !! Foot(k2, s2))
    }

    /** The weights of the engine of kind `k` in slot `s`. */
    ghost function NetOf(k: Kind, s: nat): (W: Net)
      reads graph, Foot(k, s)
      requires s < SumNetworks && |matrix| == SumNetworks && |graph| == SumNetworks && Ready(k, s)
      ensures Fit(k, W)
    {
      match k
      case MatrixKind => matrix[s].Weights()
      case GraphKind => graph[s].W
    }

    /** The weights of the four engines of kind `k`, slot by slot. */
    ghost function Nets(k: Kind): (ns: seq<Net>)
      reads this, Repr
      requires Valid()
      ensures |ns| == SumNetworks && forall s :: 0 <= s < SumNetworks ==> ns[s] == NetOf(k, s)
    {
      seq(SumNetworks, s requires 0 <= s < SumNetworks && Valid() reads this, Repr => NetOf(k, s))
    }

    /** The weights of the current engine. */
    ghost function Current(): (W: Net)
      reads this, Repr
      requires Valid()
      ensures Fit(kind, W)
      ensures kind == GraphKind ==> |W| == MinDepth + slot + 1
    {
      assert Ready(kind, slot);
      NetOf(kind, slot)
    }

    /** Only the current engine changed since the weights `M0` of the
        matrix engines and `G0` of the graph engines. */
    ghost predicate Kept(M0: seq<Net>, G0: seq<Net>)
      reads this, Repr
      requires Valid() && |M0| == SumNetworks && |G0| == SumNetworks
    {
      && (forall s :: 0 <= s < SumNetworks && (kind != MatrixKind || s != slot) ==> NetOf(MatrixKind, s) == M0[s])
      && (forall s :: 0 <= s < SumNetworks && (kind != GraphKind || s != slot) ==> NetOf(GraphKind, s) == G0[s])
    }

    /** Weights kept since `M0`, `G0` agree with them off the current
        engine. */
    lemma KeptOff(M0: seq<Net>, G0: seq<Net>)
      requires Valid() && |M0| == SumNetworks && |G0| == SumNetworks && Kept(M0, G0)
      ensures Off(Nets(MatrixKind), M0, kind == MatrixKind, slot) && Off(Nets(GraphKind), G0, kind == GraphKind, slot)
    { }

    /** Weights kept since `M1`, `G1`, which agree with `M0`, `G0` off the
        current engine, are kept since `M0`, `G0`. */
    lemma KeptChain(M0: seq<Net>, G0: seq<Net>, M1: seq<Net>, G1: seq<Net>)
      requires Valid() && |M0| == SumNetworks && |G0| == SumNetworks && |M1| == SumNetworks && |G1| == SumNetworks
      requires Kept(M1, G1) && Off(M1, M0, kind == MatrixKind, slot) && Off(G1, G0, kind == GraphKind, slot)
      ensures Kept(M0, G0)
    { }

    /** A step that changed only the objects of engine `e` (its kind and
        slot), left its objects where they were and left it ready keeps
        the pool valid and every other engine's weights. */
    twostate lemma OnlyEngine(e: (Kind, nat))
      requires old(Valid()) && e.1 < SumNetworks && unchanged(this)
      requires forall x: object :: x in Repr && x !in old(Foot(e.0, e.1)) ==> unchanged(x)
      requires Foot(e.0, e.1) == old(Foot(e.0, e.1)) && Ready(e.0, e.1)
      ensures Valid()
      ensures forall k, t :: 0 <= t < SumNetworks && (k, t) != e ==> NetOf(k, t) == old(NetOf(k, t))
    {
      forall k, t | 0 <= t < SumNetworks && (k, t) != e
        ensures Foot(k, t) == old(Foot(k, t)) && Ready(k, t) && NetOf(k, t) == old(NetOf(k, t))
      {
        assert old(Foot(k, t) !! Foot(e.0, e.1));
        assert old(Foot(k, t) <= Repr);
        assert unchanged(old(Foot(k, t)));
      }
    }

    /** A step that changed no object of the pool keeps it valid, with
        the same current engine and the same weights everywhere. */
    twostate lemma Untouched()
      requires old(Valid()) && unchanged(this) && unchanged(Repr)
      ensures Valid() && Current() == old(Current())
      ensures forall k, t :: 0 <= t < SumNetworks ==> NetOf(k, t) == old(NetOf(k, t))
    {
      forall k, t | 0 <= t < SumNetworks
        ensures Foot(k, t) == old(Foot(k, t)) && Ready(k, t) && NetOf(k, t) == old(NetOf(k, t))
      {
        assert old(Foot(k, t) <= Repr);
      }
    }

    /** `Network(learning_rate)`: for each depth from two hidden layers on,
        a matrix engine of rate `lr` and a graph engine of rate
        kLearningRate, each holding the weights drawn from its own stream;
        the matrix engine with two hidden layers is current. */
    constructor (lr: real, mrand: seq<nat -> nat>, grand: seq<nat -> nat>)
      requires |mrand| == SumNetworks && |grand| == SumNetworks
      ensures Valid() && fresh(Repr) && rate == lr && kind == MatrixKind && slot == 0
      ensures forall s :: 0 <= s < SumNetworks ==> NetOf(MatrixKind, s) == MatrixSpec.RandomNet(MinDepth + s, mrand[s])
      ensures forall s :: 0 <= s < SumNetworks ==>
        NetOf(GraphKind, s) == GraphWeights.RandomNet(Graph.UnitWeights(InputWidth, MinDepth + s, HiddenWidth, OutputWidth),
                                                      InputCounts(MinDepth + s), grand[s])
    {
      var ms, gs, R := NewEngines(lr, mrand, grand);
      matrix, graph, rate, Repr := ms, gs, lr, R;
      kind, slot := MatrixKind, 0;
      new;
      FromBuilt(mrand, grand);
    }

    /** Engines built within `Repr` from the streams `mrand` and `grand`
        make a valid pool holding the weights drawn from them. */
    lemma FromBuilt(mrand: seq<nat -> nat>, grand: seq<nat -> nat>)
      requires |matrix| == SumNetworks && slot < SumNetworks && this !in Repr
      requires Built(matrix, graph, Repr, rate, mrand, grand)
      ensures Valid()
      ensures forall s :: 0 <= s < SumNetworks ==> NetOf(MatrixKind, s) == MatrixSpec.RandomNet(MinDepth + s, mrand[s])
      ensures forall s :: 0 <= s < SumNetworks ==>
        NetOf(GraphKind, s) == GraphWeights.RandomNet(Graph.UnitWeights(InputWidth, MinDepth + s, HiddenWidth, OutputWidth),
                                                      InputCounts(MinDepth + s), grand[s])
    {
      ReadyFromBuilt(mrand, grand);
      ApartFromBuilt(mrand, grand);
    }

    /** Built engines lie within `Repr`, are ready and hold their draws. */
    lemma ReadyFromBuilt(mrand: seq<nat -> nat>, grand: seq<nat -> nat>)
      requires |matrix| == SumNetworks && Built(matrix, graph, Repr, rate, mrand, grand)
      ensures forall s :: 0 <= s < SumNetworks ==> graph[s] in Repr
      ensures forall k, s :: 0 <= s < SumNetworks ==> Foot(k, s) <= Repr && Ready(k, s)
      ensures forall s :: 0 <= s < SumNetworks ==> Ready(MatrixKind, s) && NetOf(MatrixKind, s) == MatrixSpec.RandomNet(MinDepth + s, mrand[s])
      ensures forall s :: 0 <= s < SumNetworks ==>
        Ready(GraphKind, s) &&
        NetOf(GraphKind, s) == GraphWeights.RandomNet(Graph.UnitWeights(InputWidth, MinDepth + s, HiddenWidth, OutputWidth),
                                                      InputCounts(MinDepth + s), grand[s])
    {
      forall s | 0 <= s < SumNetworks
        ensures MatrixDrawn(matrix[s], s, rate, mrand[s]) && GraphDrawn(graph[s], s, grand[s])
      {
      }
    }

    /** Built engines share no object. */
    lemma ApartFromBuilt(mrand: seq<nat -> nat>, grand: seq<nat -> nat>)
      requires |matrix| == SumNetworks && Built(matrix, graph, Repr, rate, mrand, grand)
      ensures forall k, s, k2, s2 :: 0 <= s < SumNetworks && 0 <= s2 < SumNetworks && (k != k2 || s != s2) ==>
        Foot(k, s) !! Foot(k2, s2)
    {
      assert Apart(matrix, graph);
    }

    // ---- One example on the current engine ----

    /** `current_network_->LearnNetwork(pixels, expected)`. */
    method LearnCurrent(px: seq<nat>, ex: nat) returns (o: Outcome)
      requires Valid()
      modifies Repr
      ensures Valid() && Kept(old(Nets(MatrixKind)), old(Nets(GraphKind)))
      ensures (o, Current()) == Learn(kind, RateOf(kind, rate), old(Current()), px, ex)
    {
      if kind == MatrixKind {
        o := LearnMatrix(px, ex);
      } else {
        o := LearnGraph(px, ex);
      }
    }

    /** `LearnNetwork` of the current engine, a matrix engine. */
    method LearnMatrix(px: seq<nat>, ex: nat) returns (o: Outcome)
      requires Valid() && kind == MatrixKind
      modifies Repr
      ensures Valid() && Kept(old(Nets(MatrixKind)), old(Nets(GraphKind)))
      ensures (o, Current()) == Learn(MatrixKind, rate, old(Current()), px, ex)
    {
      assert Ready(MatrixKind, slot) && Foot(MatrixKind, slot) <= Repr;
      o := matrix[slot].LearnNetwork(px, ex);
      OnlyEngine((MatrixKind, slot));
    }

    /** `LearnNetwork` of the current engine, a graph engine. */
    method LearnGraph(px: seq<nat>, ex: nat) returns (o: Outcome)
      requires Valid() && kind == GraphKind
      modifies Repr
      ensures Valid() && Kept(old(Nets(MatrixKind)), old(Nets(GraphKind)))
      ensures (o, Current()) == Learn(GraphKind, LearningRate, old(Current()), px, ex)
    {
      assert Ready(GraphKind, slot) && Foot(GraphKind, slot) <= Repr;
      o := graph[slot].LearnNetwork(px, ex);
      OnlyEngine((GraphKind, slot));
    }

    /** `PredictionNetwork`: the class the current engine picks. */
    method PredictionNetwork(px: seq<nat>) returns (r: Result<nat>)
      requires Valid()
      modifies Repr
      ensures Valid() && Kept(old(Nets(MatrixKind)), old(Nets(GraphKind))) && Current() == old(Current())
      ensures r == Answer(kind, Current(), px)
    {
      assert Ready(kind, slot) && Foot(kind, slot) <= Repr;
      if kind == MatrixKind {
        r := matrix[slot].Prediction(px);
        OnlyEngine((MatrixKind, slot));
      } else {
        r := graph[slot].Prediction(px);
        OnlyEngine((GraphKind, slot));
      }
    }

    /** A graph engine of the pool counts 784 inputs for its first layer
        and the hidden width for every later one. */
    lemma GraphCounts(s: nat)
      requires Valid() && s < SumNetworks
      ensures graph[s].InputCounts() == InputCounts(MinDepth + s)
    {
      assert Ready(GraphKind, s);
    }

    /** `current_network_->InstallRandomWeights()`. */
    method RandomizeCurrent(rand: nat -> nat)
      requires Valid()
      modifies Repr
      ensures Valid() && Kept(old(Nets(MatrixKind)), old(Nets(GraphKind)))
      ensures Current() == Restarted(kind, slot, old(Current()), rand)
    {
      if kind == MatrixKind {
        RandomizeMatrix(slot, rand);
      } else {
        RandomizeGraph(slot, rand);
      }
    }

    /** Redraws the weights of the matrix engine in slot `s` alone. */
    method RandomizeMatrix(s: nat, rand: nat -> nat)
      requires Valid() && s < SumNetworks
      modifies Repr
      ensures Valid()
      ensures forall k, t :: 0 <= t < SumNetworks && (k, t) != (MatrixKind, s) ==> NetOf(k, t) == old(NetOf(k, t))
      ensures NetOf(MatrixKind, s) == MatrixSpec.RandomNet(MinDepth + s, rand)
    {
      assert Ready(MatrixKind, s) && Foot(MatrixKind, s) <= Repr;
      matrix[s].InstallRandomWeights(rand);
      OnlyEngine((MatrixKind, s));
    }

    /** Redraws the weights of the graph engine in slot `s` alone. */
    method RandomizeGraph(s: nat, rand: nat -> nat)
      requires Valid() && s < SumNetworks
      modifies Repr
      ensures Valid()
      ensures forall k, t :: 0 <= t < SumNetworks && (k, t) != (GraphKind, s) ==> NetOf(k, t) == old(NetOf(k, t))
      ensures NetOf(GraphKind, s) == GraphWeights.RandomNet(old(NetOf(GraphKind, s)), InputCounts(MinDepth + s), rand)
    {
      assert Ready(GraphKind, s) && Foot(GraphKind, s) <= Repr;
      GraphCounts(s);
      graph[s].InstallRandomWeights(rand);
      OnlyEngine((GraphKind, s));
    }

    // ---- Choosing, saving and loading engines ----

    /** `ChangeCurrentNetwork(index, type)`: invalid_argument for an index
        outside the pool; otherwise the engine of that kind and slot
        becomes current. No weight changes. */
    method ChangeCurrentNetwork(index: int, k: Kind) returns (o: Outcome)
      requires Valid()
      modifies this`kind, this`slot
      ensures Valid() && Nets(MatrixKind) == old(Nets(MatrixKind)) && Nets(GraphKind) == old(Nets(GraphKind))
      ensures o.Fail? <==> index < 0 || index >= SumNetworks
      ensures o.Fail? ==> o.error == InvalidArgument && kind == old(kind) && slot == old(slot)
      ensures o.Pass? ==> kind == k && slot == index && Current() == old(Nets(k))[index]
    {
      if index < 0 || index >= SumNetworks {
        return Fail(InvalidArgument);
      }
      kind, slot := k, index;
      o := Pass;
    }

    /** `SaveWeightsToFile`: the file the current engine writes. */
    method SaveWeightsToFile() returns (file: seq<string>)
      requires Valid()
      ensures kind == MatrixKind ==> file == WeightFile.FileOf(MinDepth + slot, Current())
      ensures kind == GraphKind ==> graph[slot].Saveable() && file == graph[slot].SavedFile()
    {
      assert Ready(kind, slot);
      if kind == MatrixKind {
        file := matrix[slot].SaveWeights();
      } else {
        var saved := graph[slot].SaveWeights();
        file := saved.value;
      }
    }

    /** `LoadWeightsFromFile(file, index)`: out_of_range for an index
        outside the pool; otherwise both engines of the slot read the
        file, the matrix engine first. */
    method LoadWeightsFromFile(file: Option<seq<string>>, index: int) returns (o: Outcome)
      requires Valid()
      modifies Repr
      ensures Valid() && kind == old(kind) && slot == old(slot)
      ensures (index < 0 || index >= SumNetworks) ==>
        o == Fail(OutOfRange) && Nets(MatrixKind) == old(Nets(MatrixKind)) && Nets(GraphKind) == old(Nets(GraphKind))
      ensures 0 <= index < SumNetworks ==>
        var r := LoadPair(MinDepth + index, old(Nets(MatrixKind))[index], old(Nets(GraphKind))[index], file);
        && o == r.0
        && Nets(MatrixKind) == old(Nets(MatrixKind))[index := r.1]
        && Nets(GraphKind) == old(Nets(GraphKind))[index := r.2]
    {
      if index < 0 || index >= SumNetworks {
        return Fail(OutOfRange);
      }
      o := LoadMatrix(file, index);
      if o.Fail? {
        return;
      }
      o := LoadGraph(file, index);
    }

    /** `matrix_network_[index]->LoadWeights(file)`. */
    method LoadMatrix(file: Option<seq<string>>, index: nat) returns (o: Outcome)
      requires Valid() && index < SumNetworks
      modifies Repr
      ensures Valid()
      ensures Nets(GraphKind) == old(Nets(GraphKind))
      ensures file.None? ==> o == Pass && Nets(MatrixKind) == old(Nets(MatrixKind))
      ensures file.Some? ==>
        var r := MatrixSpec.LoadFile(old(Nets(MatrixKind))[index], file.value);
        o == r.0 && Nets(MatrixKind) == old(Nets(MatrixKind))[index := r.1]
    {
      assert Ready(MatrixKind, index) && Foot(MatrixKind, index) <= Repr;
      o := matrix[index].LoadWeights(file);
      OnlyEngine((MatrixKind, index));
    }

    /** `graph_network_[index]->LoadWeights(file)`. */
    method LoadGraph(file: Option<seq<string>>, index: nat) returns (o: Outcome)
      requires Valid() && index < SumNetworks
      modifies Repr
      ensures Valid()
      ensures Nets(MatrixKind) == old(Nets(MatrixKind))
      ensures file.None? ==> o == Pass && Nets(GraphKind) == old(Nets(GraphKind))
      ensures file.Some? && WeightFile.CheckHeader(file.value, MinDepth + index).Fail? ==>
        o == WeightFile.CheckHeader(file.value, MinDepth + index) && Nets(GraphKind) == old(Nets(GraphKind))
      ensures file.Some? && WeightFile.CheckHeader(file.value, MinDepth + index).Pass? ==>
        var r := GraphWeights.ApplyNet(old(Nets(GraphKind))[index], WeightFile.GraphPuts(file.value, 2, 0, 0, 0));
        o == r.0 && Nets(GraphKind) == old(Nets(GraphKind))[index := r.1]
    {
      assert Ready(GraphKind, index) && Foot(GraphKind, index) <= Repr;
      o := graph[index].LoadWeights(file);
      OnlyEngine((GraphKind, index));
    }

    // ---- Passes over the lines of a file ----

    /** The body of the training loops for one line: an empty line is
        skipped, a line that does not decode stops with its error, and an
        example is learned by the current engine. */
    method LearnOneLine(line: string) returns (o: Outcome)
      requires Valid()
      modifies Repr
      ensures Valid() && Kept(old(Nets(MatrixKind)), old(Nets(GraphKind)))
      ensures (o, Current()) == LearnLine(kind, RateOf(kind, rate), old(Current()), line)
    {
      if line == [] {
        return Pass;
      }
      var example := Csv.ReadLineFromFileWithPixels(line);
      if example.Failure? {
        return Fail(example.error);
      }
      o := LearnCurrent(example.value.1, example.value.0);
    }

    /** The body of the testing loops for one line, on the counts so far. */
    method TestOneLine(line: string, counts: (nat, nat)) returns (r: Result<(nat, nat)>)
      requires Valid()
      modifies Repr
      ensures Valid() && Kept(old(Nets(MatrixKind)), old(Nets(GraphKind))) && Current() == old(Current())
      ensures r == TestLine(kind, Current(), line, counts)
    {
      if line == [] {
        return Success(counts);
      }
      var example := Csv.ReadLineFromFileWithPixels(line);
      if example.Failure? {
        return Failure(example.error);
      }
      var c := PredictionNetwork(example.value.1);
      r := Score(example.value.0, c, counts);
    }

    /** The training loop of one epoch of `StartLearnNetwork`: the lines in
        file order, stopping at the first error. */
    method TrainLines(lines: seq<string>) returns (o: Outcome)
      requires Valid()
      modifies Repr
      ensures Valid() && Kept(old(Nets(MatrixKind)), old(Nets(GraphKind)))
      ensures (o, Current()) == TrainFrom(kind, RateOf(kind, rate), old(Current()), lines)
    {
      ghost var M0, G0, W0 := Nets(MatrixKind), Nets(GraphKind), Current();
      var i := 0;
      while i < |lines|
        invariant i <= |lines| && Valid() && Kept(M0, G0)
        invariant TrainFrom(kind, RateOf(kind, rate), Current(), lines[i..]) == TrainFrom(kind, RateOf(kind, rate), W0, lines)
      {
        assert lines[i..][1..] == lines[i + 1..];
        ghost var M1, G1 := Nets(MatrixKind), Nets(GraphKind);
        KeptOff(M0, G0);
        o := LearnOneLine(lines[i]);
        KeptChain(M0, G0, M1, G1);
        if o.Fail? {
          return;
        }
        i := i + 1;
      }
      o := Pass;
    }

    /** The testing loop of `StartTestNetwork` over `lines`: the number of
        examples and of those the current engine classifies correctly. */
    method TestLines(lines: seq<string>) returns (r: Result<(nat, nat)>)
      requires Valid()
      modifies Repr
      ensures Valid() && Kept(old(Nets(MatrixKind)), old(Nets(GraphKind))) && Current() == old(Current())
      ensures r == TestFrom(kind, Current(), lines, 0, 0)
    {
      ghost var M0, G0, W0 := Nets(MatrixKind), Nets(GraphKind), Current();
      var counts := (0, 0);
      var i := 0;
      while i < |lines|
        invariant i <= |lines| && Valid() && Kept(M0, G0) && Current() == W0
        invariant TestFrom(kind, W0, lines[i..], counts.0, counts.1) == TestFrom(kind, W0, lines, 0, 0)
      {
        assert lines[i..][1..] == lines[i + 1..];
        ghost var M1, G1 := Nets(MatrixKind), Nets(GraphKind);
        KeptOff(M0, G0);
        r := TestOneLine(lines[i], counts);
        KeptChain(M0, G0, M1, G1);
        if r.Failure? {
          return;
        }
        counts := r.value;
        i := i + 1;
      }
      r := Success(counts);
    }

    /** The body of the training pass of a fold for one line: the example
        is learned unless its `line_index` is the fold. */
    method FoldLearnOneLine(line: string, fold: nat, index: nat) returns (o: Outcome)
      requires Valid()
      modifies Repr
      ensures Valid() && Kept(old(Nets(MatrixKind)), old(Nets(GraphKind)))
      ensures (o, Current()) == FoldLearnLine(kind, RateOf(kind, rate), old(Current()), line, fold, index)
    {
      if index == fold {
        return Pass;
      }
      o := LearnOneLine(line);
    }

    /** The body of the testing pass of a fold for one line: the example
        is predicted and counted only when its `line_index` is the fold. */
    method FoldTestOneLine(line: string, fold: nat, index: nat, counts: (nat, nat)) returns (r: Result<(nat, nat)>)
      requires Valid()
      modifies Repr
      ensures Valid() && Kept(old(Nets(MatrixKind)), old(Nets(GraphKind))) && Current() == old(Current())
      ensures r == FoldTestLine(kind, Current(), line, fold, index, counts)
    {
      if index != fold {
        return Success(counts);
      }
      r := TestOneLine(line, counts);
    }

    /** The training pass of fold `fold` of `StartCVLearn`: `line_index`
        runs 0, 1, ..., coef - 1 over the examples, and those whose index
        is not the fold are learned. */
    method FoldTrainLines(lines: seq<string>, coef: nat, fold: nat) returns (o: Outcome)
      requires Valid()
      modifies Repr
      ensures Valid() && Kept(old(Nets(MatrixKind)), old(Nets(GraphKind)))
      ensures (o, Current()) == FoldTrain(kind, RateOf(kind, rate), old(Current()), lines, coef, fold, 0)
    {
      ghost var M0, G0, W0 := Nets(MatrixKind), Nets(GraphKind), Current();
      var index := 0;
      var i := 0;
      while i < |lines|
        invariant i <= |lines| && Valid() && Kept(M0, G0)
        invariant FoldTrain(kind, RateOf(kind, rate), Current(), lines[i..], coef, fold, index)
               == FoldTrain(kind, RateOf(kind, rate), W0, lines, coef, fold, 0)
      {
        assert lines[i..][1..] == lines[i + 1..];
        ghost var M1, G1 := Nets(MatrixKind), Nets(GraphKind);
        KeptOff(M0, G0);
        o := FoldLearnOneLine(lines[i], fold, index);
        KeptChain(M0, G0, M1, G1);
        if o.Fail? {
          return;
        }
        index := IndexAfter(lines[i], index, coef);
        i := i + 1;
      }
      o := Pass;
    }

    /** The testing pass of fold `fold` of `StartCVLearn`: the examples
        whose `line_index` is the fold are predicted and counted. */
    method FoldTestLines(lines: seq<string>, coef: nat, fold: nat) returns (r: Result<(nat, nat)>)
      requires Valid()
      modifies Repr
      ensures Valid() && Kept(old(Nets(MatrixKind)), old(Nets(GraphKind))) && Current() == old(Current())
      ensures r == FoldTest(kind, Current(), lines, coef, fold, 0, 0, 0)
    {
      ghost var M0, G0, W0 := Nets(MatrixKind), Nets(GraphKind), Current();
      var counts := (0, 0);
      var index := 0;
      var i := 0;
      while i < |lines|
        invariant i <= |lines| && Valid() && Kept(M0, G0) && Current() == W0
        invariant FoldTest(kind, W0, lines[i..], coef, fold, index, counts.0, counts.1)
               == FoldTest(kind, W0, lines, coef, fold, 0, 0, 0)
      {
        assert lines[i..][1..] == lines[i + 1..];
        ghost var M1, G1 := Nets(MatrixKind), Nets(GraphKind);
        KeptOff(M0, G0);
        r := FoldTestOneLine(lines[i], fold, index, counts);
        KeptChain(M0, G0, M1, G1);
        if r.Failure? {
          return;
        }
        counts := r.value;
        index := IndexAfter(lines[i], index, coef);
        i := i + 1;
      }
      r := Success(counts);
    }

    // ---- The runs of the interface ----

    /** `StartTestNetwork(file)`: a file that cannot be opened counts no
        example. */
    method StartTestNetwork(file: Option<seq<string>>) returns (r: Result<(nat, nat)>)
      requires Valid()
      modifies Repr
      ensures Valid() && Kept(old(Nets(MatrixKind)), old(Nets(GraphKind))) && Current() == old(Current())
      ensures r == FileTest(kind, Current(), file)
    {
      if file.None? {
        return Success((0, 0));
      }
      r := TestLines(file.value);
    }

    /** `StartTestNetwork(file, p)`: invalid_argument unless 0 < p <= 1;
        otherwise the examples are counted, the count is scaled by p and
        truncated, and that many lines are predicted and counted. */
    method StartTestSample(file: Option<seq<string>>, p: real) returns (r: Result<(nat, nat)>)
      requires Valid()
      modifies Repr
      ensures Valid() && Kept(old(Nets(MatrixKind)), old(Nets(GraphKind))) && Current() == old(Current())
      ensures r == SampledTest(kind, Current(), file, p)
    {
      if p > 1.0 || p <= 0.0 {
        return Failure(InvalidArgument);
      }
      if file.None? {
        return Success((0, 0));
      }
      var lines := SampleLines(file.value, p);
      r := TestLines(lines);
    }

    /** The body of the counting loop of `StartConfusionTest` for one line:
        the example adds 1 to the cell of its label and predicted class. */
    method ConfusionOneLine(m: S21Matrix, line: string) returns (o: Outcome)
      requires Valid() && m.Valid() && m.rows == OutputWidth && m.cols == OutputWidth
      requires m !in Repr && m.data !in Repr
      modifies Repr, m, m.data
      ensures Valid() && Kept(old(Nets(MatrixKind)), old(Nets(GraphKind))) && Current() == old(Current())
      ensures m.Valid() && m.rows == OutputWidth && m.cols == OutputWidth && m.data == old(m.data)
      ensures var r := ConfusionLine(kind, Current(), line, old(m.Cells));
        && (o.Fail? <==> r.Failure?)
        && (o.Fail? ==> o.error == r.error)
        && (o.Pass? ==> m.Cells == r.value)
    {
      if line == [] {
        return Pass;
      }
      var example := Csv.ReadLineFromFileWithPixels(line);
      if example.Failure? {
        return Fail(example.error);
      }
      o := TallyExample(m, example.value.0, example.value.1);
    }

    /** One decoded example of label `ex` and pixels `px`: the current
        engine classifies it and the cell of the label and the class grows
        by 1. */
    method TallyExample(m: S21Matrix, ex: nat, px: seq<nat>) returns (o: Outcome)
      requires Valid() && m.Valid() && m.rows == OutputWidth && m.cols == OutputWidth
      requires m !in Repr && m.data !in Repr
      modifies Repr, m, m.data
      ensures Valid() && Kept(old(Nets(MatrixKind)), old(Nets(GraphKind))) && Current() == old(Current())
      ensures m.Valid() && m.rows == OutputWidth && m.cols == OutputWidth && m.data == old(m.data)
      ensures var r := Tally(ex, Answer(kind, Current(), px), old(m.Cells));
        && (o.Fail? <==> r.Failure?)
        && (o.Fail? ==> o.error == r.error)
        && (o.Pass? ==> m.Cells == r.value)
    {
      var c := PredictionNetwork(px);
      o := TallyAnswer(m, ex, c, old(Nets(MatrixKind)), old(Nets(GraphKind)));
    }

    /** `TallyInto` seen from the pool: the count in `m` changes, and
        nothing of the pool does: what the pool kept since the weights
        `M0`, `G0` it still keeps. */
    method TallyAnswer(m: S21Matrix, ex: nat, a: Result<nat>, ghost M0: seq<Net>, ghost G0: seq<Net>) returns (o: Outcome)
      requires Valid() && |M0| == SumNetworks && |G0| == SumNetworks && Kept(M0, G0)
      requires m.Valid() && m.rows == OutputWidth && m.cols == OutputWidth
      requires m !in Repr && m.data !in Repr
      requires a.Success? ==> 1 <= a.value <= OutputWidth
      modifies m, m.data
      ensures Valid() && Kept(M0, G0) && Current() == old(Current())
      ensures m.Valid() && m.rows == OutputWidth && m.cols == OutputWidth && m.data == old(m.data)
      ensures var r := Tally(ex, a, old(m.Cells));
        && (o.Fail? <==> r.Failure?)
        && (o.Fail? ==> o.error == r.error)
        && (o.Pass? ==> m.Cells == r.value)
    {
      o := TallyInto(m, ex, a);
      Untouched();
    }

    /** The counting loop of `StartConfusionTest` over the sampled lines,
        into the matrix `m`. */
    method ConfusionLines(m: S21Matrix, lines: seq<string>) returns (o: Outcome)
      requires Valid() && m.Valid() && m.rows == OutputWidth && m.cols == OutputWidth
      requires m !in Repr && m.data !in Repr
      modifies Repr, m, m.data
      ensures Valid() && Kept(old(Nets(MatrixKind)), old(Nets(GraphKind))) && Current() == old(Current())
      ensures m.Valid() && m.rows == OutputWidth && m.cols == OutputWidth && m.data == old(m.data)
      ensures var r := ConfusionFrom(kind, Current(), lines, old(m.Cells));
        && (o.Fail? <==> r.Failure?)
        && (o.Fail? ==> o.error == r.error)
        && (o.Pass? ==> m.Cells == r.value)
    {
      ghost var M0, G0, W0, C0 := Nets(MatrixKind), Nets(GraphKind), Current(), m.Cells;
      var i := 0;
      while i < |lines|
        invariant i <= |lines| && Valid() && Kept(M0, G0) && Current() == W0
        invariant m.Valid() && m.rows == OutputWidth && m.cols == OutputWidth && m.data == old(m.data)
        invariant ConfusionFrom(kind, W0, lines[i..], m.Cells) == ConfusionFrom(kind, W0, lines, C0)
      {
        assert lines[i..][1..] == lines[i + 1..];
        ghost var M1, G1 := Nets(MatrixKind), Nets(GraphKind);
        KeptOff(M0, G0);
        o := ConfusionOneLine(m, lines[i]);
        KeptChain(M0, G0, M1, G1);
        if o.Fail? {
          return;
        }
        i := i + 1;
      }
      o := Pass;
    }

    /** `StartConfusionTest(file, p)`: invalid_argument unless 0 < p <= 1;
        otherwise a new 26 x 26 matrix, of zeros when the file cannot be
        opened, counting each sampled example in the row of its label and
        the column of its predicted class. */
    method StartConfusionTest(file: Option<seq<string>>, p: real) returns (r: Result<S21Matrix>)
      requires Valid()
      modifies Repr
      ensures Valid() && Kept(old(Nets(MatrixKind)), old(Nets(GraphKind))) && Current() == old(Current())
      ensures var t := ConfusionTest(kind, Current(), file, p);
        && (r.Failure? <==> t.Failure?)
        && (r.Failure? ==> r.error == t.error)
        && (r.Success? ==> fresh(r.value) && r.value.Valid() && r.value.Cells == t.value)
    {
      if p > 1.0 || p <= 0.0 {
        return Failure(InvalidArgument);
      }
      if file.None? {
        var made := S21Matrix.New(OutputWidth, OutputWidth);
        return Success(made.value);
      }
      var lines := SampleLines(file.value, p);
      r := CountConfusion(lines);
    }

    /** A new 26 x 26 matrix of zeros, then the counting loop of
        `StartConfusionTest` over `lines`. */
    method CountConfusion(lines: seq<string>) returns (r: Result<S21Matrix>)
      requires Valid()
      modifies Repr
      ensures Valid() && Kept(old(Nets(MatrixKind)), old(Nets(GraphKind))) && Current() == old(Current())
      ensures var t := ConfusionFrom(kind, Current(), lines, Zeros(OutputWidth, OutputWidth));
        && (r.Failure? <==> t.Failure?)
        && (r.Failure? ==> r.error == t.error)
        && (r.Success? ==> fresh(r.value) && r.value.Valid() && r.value.Cells == t.value)
    {
      var made := S21Matrix.New(OutputWidth, OutputWidth);
      var m := made.value;
      var o := ConfusionLines(m, lines);
      if o.Fail? {
        return Failure(o.error);
      }
      r := Success(m);
    }

    /** One epoch of `StartLearnNetwork`: a training pass over the file
        when it opens, then, when `testing`, the test of the test file.
        Of a run of `n` epochs it either ends the run or leaves `n - 1`. */
    method OneEpoch(train: Option<seq<string>>, testing: bool, test: Option<seq<string>>, acc: seq<Metrics.Double>,
                    ghost M0: seq<Net>, ghost G0: seq<Net>, ghost n: nat)
      returns (r: Result<seq<Metrics.Double>>)
      requires Valid() && |M0| == SumNetworks && |G0| == SumNetworks && Kept(M0, G0) && n > 0
      modifies Repr
      ensures Valid() && Kept(old(Nets(MatrixKind)), old(Nets(GraphKind))) && Kept(M0, G0)
      ensures (r, Current()) == EpochStep(kind, RateOf(kind, rate), old(Current()), train, if testing then Some(test) else None, acc)
      ensures r.Failure? ==> (r, Current()) == EpochsFrom(kind, RateOf(kind, rate), old(Current()), train,
                                                         if testing then Some(test) else None, n, acc)
      ensures r.Success? ==> EpochsFrom(kind, RateOf(kind, rate), Current(), train, if testing then Some(test) else None, n - 1, r.value)
                             == EpochsFrom(kind, RateOf(kind, rate), old(Current()), train, if testing then Some(test) else None, n, acc)
    {
      ghost var M1, G1, W := Nets(MatrixKind), Nets(GraphKind), Current();
      KeptOff(M0, G0);
      r := Epoch(train, testing, test, acc);
      KeptChain(M0, G0, M1, G1);
      EpochsNext(kind, RateOf(kind, rate), W, Current(), train, if testing then Some(test) else None, n, acc, r);
    }

    /** The body of `OneEpoch`. */
    method Epoch(train: Option<seq<string>>, testing: bool, test: Option<seq<string>>, acc: seq<Metrics.Double>)
      returns (r: Result<seq<Metrics.Double>>)
      requires Valid()
      modifies Repr
      ensures Valid() && Kept(old(Nets(MatrixKind)), old(Nets(GraphKind)))
      ensures (r, Current()) == EpochStep(kind, RateOf(kind, rate), old(Current()), train, if testing then Some(test) else None, acc)
    {
      if train.Some? {
        var o := TrainLines(train.value);
        if o.Fail? {
          return Failure(o.error);
        }
      }
      if !testing {
        return Success(acc);
      }
      var t := StartTestNetwork(test);
      if t.Failure? {
        return Failure(t.error);
      }
      r := Success(acc + [Ratio(t.value)]);
    }

    /** `StartLearnNetwork(train, epochs, continue, test)`: invalid_argument
        for fewer than one epoch; otherwise fresh random weights unless
        learning continues, then every epoch one training pass over the
        file and, for a named test file and more than one epoch, the share
        of correct answers on the test file. */
    method StartLearnNetwork(train: Option<seq<string>>, epochs: int, cont: bool, testName: string,
                             test: Option<seq<string>>, rand: nat -> nat) returns (r: Result<seq<Metrics.Double>>)
      requires Valid()
      modifies Repr
      ensures Valid() && Kept(old(Nets(MatrixKind)), old(Nets(GraphKind)))
      ensures epochs < 1 ==> r == Failure(InvalidArgument) && Current() == old(Current())
      ensures epochs >= 1 ==>
        (r, Current()) == EpochsFrom(kind, RateOf(kind, rate), StartWeights(cont, kind, slot, old(Current()), rand),
                                     train, TestPlan(testName, test, epochs), epochs, [])
    {
      if epochs < 1 {
        return Failure(InvalidArgument);
      }
      if !cont {
        RandomizeCurrent(rand);
      }
      r := Epochs(train, epochs, |testName| > 0 && epochs > 1, test);
    }

    /** The epoch loop of `StartLearnNetwork`. */
    method Epochs(train: Option<seq<string>>, epochs: nat, testing: bool, test: Option<seq<string>>)
      returns (r: Result<seq<Metrics.Double>>)
      requires Valid()
      modifies Repr
      ensures Valid() && Kept(old(Nets(MatrixKind)), old(Nets(GraphKind)))
      ensures (r, Current()) == EpochsFrom(kind, RateOf(kind, rate), old(Current()), train,
                                           if testing then Some(test) else None, epochs, [])
    {
      r := EpochLoop(train, epochs, testing, test, Nets(MatrixKind), Nets(GraphKind));
    }

    /** The loop of `Epochs`, keeping every engine but the current one as
        in `M0`, `G0`. */
    method EpochLoop(train: Option<seq<string>>, epochs: nat, testing: bool, test: Option<seq<string>>,
                     ghost M0: seq<Net>, ghost G0: seq<Net>)
      returns (r: Result<seq<Metrics.Double>>)
      requires Valid() && |M0| == SumNetworks && |G0| == SumNetworks && Kept(M0, G0)
      modifies Repr
      ensures Valid() && Kept(M0, G0)
      ensures (r, Current()) == EpochsFrom(kind, RateOf(kind, rate), old(Current()), train,
                                           if testing then Some(test) else None, epochs, [])
    {
      ghost var W0 := Current();
      var res := [];
      var i := 0;
      while i < epochs
        invariant i <= epochs && Valid() && Kept(M0, G0)
        invariant EpochsFrom(kind, RateOf(kind, rate), Current(), train, if testing then Some(test) else None, epochs - i, res)
               == EpochsFrom(kind, RateOf(kind, rate), W0, train, if testing then Some(test) else None, epochs, [])
      {
        r := OneEpoch(train, testing, test, res, M0, G0, epochs - i);
        if r.Failure? {
          return;
        }
        res := r.value;
        i := i + 1;
      }
      r := Success(res);
    }

    /** One fold of `StartCVLearn`: the training pass outside the fold,
        then the testing pass inside it; an unopened file gives 0 / 0. */
    method OneFold(file: Option<seq<string>>, coef: nat, fold: nat, acc: seq<Metrics.Double>)
      returns (r: Result<seq<Metrics.Double>>)
      requires Valid()
      modifies Repr
      ensures Valid() && Kept(old(Nets(MatrixKind)), old(Nets(GraphKind)))
      ensures (r, Current()) == FoldStep(kind, RateOf(kind, rate), old(Current()), file, coef, fold, acc)
    {
      if file.None? {
        return Success(acc + [Metrics.Div(0.0, 0.0)]);
      }
      var o := FoldTrainLines(file.value, coef, fold);
      if o.Fail? {
        return Failure(o.error);
      }
      var t := FoldTestLines(file.value, coef, fold);
      if t.Failure? {
        return Failure(t.error);
      }
      r := Success(acc + [Ratio(t.value)]);
    }

    /** `StartCVLearn(file, coef, continue)`: fresh random weights unless
        learning continues, then for each of the `coef` folds a training
        pass over the examples outside the fold and the share of correct
        answers on the examples in it. */
    method StartCVLearn(file: Option<seq<string>>, coef: nat, cont: bool, rand: nat -> nat)
      returns (r: Result<seq<Metrics.Double>>)
      requires Valid()
      modifies Repr
      ensures Valid() && Kept(old(Nets(MatrixKind)), old(Nets(GraphKind)))
      ensures (r, Current()) == CrossFrom(kind, RateOf(kind, rate), StartWeights(cont, kind, slot, old(Current()), rand),
                                          file, coef, 0, [])
    {
      if !cont {
        RandomizeCurrent(rand);
      }
      ghost var M0, G0, W0 := Nets(MatrixKind), Nets(GraphKind), Current();
      var res := [];
      var fold := 0;
      while fold < coef
        invariant fold <= coef && Valid() && Kept(M0, G0)
        invariant CrossFrom(kind, RateOf(kind, rate), Current(), file, coef, fold, res)
               == CrossFrom(kind, RateOf(kind, rate), W0, file, coef, 0, [])
      {
        ghost var M1, G1 := Nets(MatrixKind), Nets(GraphKind);
        KeptOff(M0, G0);
        r := OneFold(file, coef, fold, res);
        KeptChain(M0, G0, M1, G1);
        if r.Failure? {
          return;
        }
        res := r.value;
        fold := fold + 1;
      }
      r := Success(res);
    }
  }

  /** `ns` and `ms` agree in every slot but `slot` when `current`, and
      in every slot otherwise. */
  predicate Off(ns: seq<Net>, ms: seq<Net>, current: bool, slot: nat) {
    |ns| == |ms| && forall s :: 0 <= s < |ns| && (!current || s != slot) ==> ns[s] == ms[s]
  }

  /** The objects of the engine of kind `k` in slot `s` of the engines
      `ms` and `gs`. */
  ghost function EngineFoot(ms: seq<MatrixNet.MatrixNetwork>, gs: seq<Graph.GraphNetwork>, k: Kind, s: nat): set<object>
    reads gs
    requires s < |ms| && s < |gs|
  {
    match k
    case MatrixKind => MatrixFoot(ms[s])
    case GraphKind => GraphFoot(gs[s])
  }

  /** The objects of a matrix engine: the engine and its layers. */
  ghost function MatrixFoot(m: MatrixNet.MatrixNetwork): set<object> {
    var engine: set<object> := {m};
    var layers: set<object> := set l | l in m.layers;
    engine + layers
  }

  /** The objects of a graph engine: the engine and its neurons. */
  ghost function GraphFoot(g: Graph.GraphNetwork): set<object>
    reads g
  {
    var engine: set<object> := {g};
    var neurons: set<object> := g.Repr();
    engine + neurons
  }

  /** The engines `ms` and `gs` of the first |ms| slots are built from
      their streams: ready, within `R`, and apart from each other. */
  ghost predicate Built(ms: seq<MatrixNet.MatrixNetwork>, gs: seq<Graph.GraphNetwork>, R: set<object>,
                        lr: real, mrand: seq<nat -> nat>, grand: seq<nat -> nat>)
    reads R
  {
    && |ms| == |gs| && |ms| <= |mrand| && |gs| <= |grand|
    && Inside(ms, gs, R) && Apart(ms, gs) && Drawn(ms, gs, R, lr, mrand, grand)
  }

  /** Every engine of `ms` and `gs` lies within `R`. */
  ghost predicate Inside(ms: seq<MatrixNet.MatrixNetwork>, gs: seq<Graph.GraphNetwork>, R: set<object>)
    reads R
  {
    && (forall s :: 0 <= s < |ms| ==> MatrixFoot(ms[s]) <= R)
    && (forall s :: 0 <= s < |gs| ==> gs[s] in R && GraphFoot(gs[s]) <= R)
  }

  /** No two engines of `ms` and `gs` share an object. */
  ghost predicate Apart(ms: seq<MatrixNet.MatrixNetwork>, gs: seq<Graph.GraphNetwork>)
    reads gs
    requires |ms| == |gs|
  {
    forall k, s, k2, s2 :: 0 <= s < |ms| && 0 <= s2 < |ms| && (k != k2 || s != s2) ==>
      EngineFoot(ms, gs, k, s) !! EngineFoot(ms, gs, k2, s2)
  }

  /** Engine s of `ms` and `gs` is ready for slot s and holds the weights
      drawn from stream s. */
  ghost predicate Drawn(ms: seq<MatrixNet.MatrixNetwork>, gs: seq<Graph.GraphNetwork>, R: set<object>,
                        lr: real, mrand: seq<nat -> nat>, grand: seq<nat -> nat>)
    reads R
    requires Inside(ms, gs, R) && |ms| <= |mrand| && |gs| <= |grand|
  {
    && (forall s :: 0 <= s < |ms| ==> MatrixDrawn(ms[s], s, lr, mrand[s]))
    && (forall s :: 0 <= s < |gs| ==> GraphDrawn(gs[s], s, grand[s]))
  }

  /** The matrix engine `m` is ready for slot `s` of a pool of rate `lr`
      (as `Network.Ready` asks) and holds the weights drawn from `rand`. */
  ghost predicate MatrixDrawn(m: MatrixNet.MatrixNetwork, s: nat, lr: real, rand: nat -> nat)
    reads MatrixFoot(m)
  {
    && m.Valid() && |m.layers| == MinDepth + s + 1 && m.learningRate == lr
    && m.Weights() == MatrixSpec.RandomNet(MinDepth + s, rand)
  }

  /** The graph engine `g` is ready for slot `s` (as `Network.Ready`
      asks) and holds the unit weights of its shape redrawn from `rand`. */
  ghost predicate GraphDrawn(g: Graph.GraphNetwork, s: nat, rand: nat -> nat)
    reads GraphFoot(g)
  {
    && g.Valid() && g.Shaped() && g.Aligned()
    && g.Depth() == MinDepth + s && g.HidWidth() == HiddenWidth
    && |g.inputLayer| == InputWidth && |g.outputLayer| == OutputWidth && g.learningRate == LearningRate
    && g.W == GraphWeights.RandomNet(Graph.UnitWeights(InputWidth, MinDepth + s, HiddenWidth, OutputWidth),
                                     InputCounts(MinDepth + s), rand)
  }

  /** The engine loop of the pool's constructor: for each slot a matrix
      engine drawn from `mrand[s]`, then a graph engine drawn from
      `grand[s]`, all of them new. */
  method NewEngines(lr: real, mrand: seq<nat -> nat>, grand: seq<nat -> nat>)
    returns (ms: seq<MatrixNet.MatrixNetwork>, gs: seq<Graph.GraphNetwork>, ghost R: set<object>)
    requires |mrand| == SumNetworks && |grand| == SumNetworks
    ensures |ms| == SumNetworks && fresh(R) && Built(ms, gs, R, lr, mrand, grand)
  {
    ms, gs, R := [], [], {};
    for i := 0 to SumNetworks
      invariant |ms| == i && fresh(R) && Built(ms, gs, R, lr, mrand, grand)
    {
      ms, gs, R := AddSlot(ms, gs, R, lr, mrand, grand);
    }
  }

  /** One pass of the constructor's loop: the engines of the next slot,
      new, added to those built so far. */
  method AddSlot(ms: seq<MatrixNet.MatrixNetwork>, gs: seq<Graph.GraphNetwork>, ghost R: set<object>,
                 lr: real, mrand: seq<nat -> nat>, grand: seq<nat -> nat>)
    returns (ms': seq<MatrixNet.MatrixNetwork>, gs': seq<Graph.GraphNetwork>, ghost R': set<object>)
    requires Built(ms, gs, R, lr, mrand, grand) && |ms| < |mrand| && |gs| < |grand|
    ensures Built(ms', gs', R', lr, mrand, grand) && |ms'| == |ms| + 1
    ensures R <= R' && fresh(R' - R)
  {
    var m, g := NewSlot(|ms|, lr, mrand[|ms|], grand[|gs|]);
    BuiltKept((ms, gs, R, lr, mrand, grand));
    assert MatrixFoot(m) !! R && GraphFoot(g) !! R;
    BuiltExtend(ms, gs, R, lr, mrand, grand, m, g);
    ms', gs', R' := ms + [m], gs + [g], R + MatrixFoot(m) + GraphFoot(g);
  }

  /** Engines built within `R` stay built while `R` does not change. */
  twostate lemma BuiltKept(e: (seq<MatrixNet.MatrixNetwork>, seq<Graph.GraphNetwork>, set<object>,
                               real, seq<nat -> nat>, seq<nat -> nat>))
    requires old(Built(e.0, e.1, e.2, e.3, e.4, e.5)) && unchanged(e.2)
    ensures Built(e.0, e.1, e.2, e.3, e.4, e.5)
  { }

  /** The engines of the next slot, ready and apart from `R` and from each
      other, extend the engines built within `R`. */
  lemma BuiltExtend(ms: seq<MatrixNet.MatrixNetwork>, gs: seq<Graph.GraphNetwork>, R: set<object>,
                    lr: real, mrand: seq<nat -> nat>, grand: seq<nat -> nat>,
                    m: MatrixNet.MatrixNetwork, g: Graph.GraphNetwork)
    requires Built(ms, gs, R, lr, mrand, grand) && |ms| < |mrand| && |gs| < |grand|
    requires MatrixFoot(m) !! R && GraphFoot(g) !! R && MatrixFoot(m) !! GraphFoot(g)
    requires MatrixDrawn(m, |ms|, lr, mrand[|ms|]) && GraphDrawn(g, |gs|, grand[|gs|])
    ensures Built(ms + [m], gs + [g], R + MatrixFoot(m) + GraphFoot(g), lr, mrand, grand)
  {
    InsideExtend(ms, gs, R, m, g);
    ApartExtend(ms, gs, R, m, g);
    DrawnExtend(ms, gs, R, lr, mrand, grand, m, g);
  }

  /** The objects of the next slot's engines join `R`. */
  lemma InsideExtend(ms: seq<MatrixNet.MatrixNetwork>, gs: seq<Graph.GraphNetwork>, R: set<object>,
                     m: MatrixNet.MatrixNetwork, g: Graph.GraphNetwork)
    requires Inside(ms, gs, R)
    ensures Inside(ms + [m], gs + [g], R + MatrixFoot(m) + GraphFoot(g))
  {
    var ms', gs', R' := ms + [m], gs + [g], R + MatrixFoot(m) + GraphFoot(g);
    forall s | 0 <= s < |ms'|
      ensures MatrixFoot(ms'[s]) <= R'
    {
      if s < |ms| {
        assert ms'[s] == ms[s];
      }
    }
    forall s | 0 <= s < |gs'|
      ensures gs'[s] in R' && GraphFoot(gs'[s]) <= R'
    {
      if s < |gs| {
        assert gs'[s] == gs[s];
      }
    }
  }

  /** Engines apart from `R` and from each other stay apart from those
      within `R`. */
  lemma ApartExtend(ms: seq<MatrixNet.MatrixNetwork>, gs: seq<Graph.GraphNetwork>, R: set<object>,
                    m: MatrixNet.MatrixNetwork, g: Graph.GraphNetwork)
    requires |ms| == |gs| && Inside(ms, gs, R) && Apart(ms, gs)
    requires MatrixFoot(m) !! R && GraphFoot(g) !! R && MatrixFoot(m) !! GraphFoot(g)
    ensures Apart(ms + [m], gs + [g])
  {
    var ms', gs' := ms + [m], gs + [g];
    forall k, s, k2, s2 | 0 <= s < |ms'| && 0 <= s2 < |ms'| && (k != k2 || s != s2)
      ensures EngineFoot(ms', gs', k, s) !! EngineFoot(ms', gs', k2, s2)
    {
      if s < |ms| {
        assert EngineFoot(ms', gs', k, s) == EngineFoot(ms, gs, k, s) <= R;
      }
      if s2 < |ms| {
        assert EngineFoot(ms', gs', k2, s2) == EngineFoot(ms, gs, k2, s2) <= R;
      }
    }
  }

  /** The next slot's engines, drawn from their streams, extend the drawn
      engines. */
  lemma DrawnExtend(ms: seq<MatrixNet.MatrixNetwork>, gs: seq<Graph.GraphNetwork>, R: set<object>,
                    lr: real, mrand: seq<nat -> nat>, grand: seq<nat -> nat>,
                    m: MatrixNet.MatrixNetwork, g: Graph.GraphNetwork)
    requires Inside(ms, gs, R) && |ms| < |mrand| && |gs| < |grand| && Drawn(ms, gs, R, lr, mrand, grand)
    requires MatrixDrawn(m, |ms|, lr, mrand[|ms|]) && GraphDrawn(g, |gs|, grand[|gs|])
    requires Inside(ms + [m], gs + [g], R + MatrixFoot(m) + GraphFoot(g))
    ensures Drawn(ms + [m], gs + [g], R + MatrixFoot(m) + GraphFoot(g), lr, mrand, grand)
  {
    MatricesExtend(ms, lr, mrand, m);
    GraphsExtend(gs, grand, g);
  }

  /** A drawn matrix engine extends the drawn matrix engines `ms`. */
  lemma MatricesExtend(ms: seq<MatrixNet.MatrixNetwork>, lr: real, mrand: seq<nat -> nat>, m: MatrixNet.MatrixNetwork)
    requires |ms| < |mrand| && forall s :: 0 <= s < |ms| ==> MatrixDrawn(ms[s], s, lr, mrand[s])
    requires MatrixDrawn(m, |ms|, lr, mrand[|ms|])
    ensures forall s :: 0 <= s < |ms| + 1 ==> MatrixDrawn((ms + [m])[s], s, lr, mrand[s])
  {
    forall s | 0 <= s < |ms| + 1
      ensures MatrixDrawn((ms + [m])[s], s, lr, mrand[s])
    {
      if s < |ms| {
        assert (ms + [m])[s] == ms[s];
      }
    }
  }

  /** A drawn graph engine extends the drawn graph engines `gs`. */
  lemma GraphsExtend(gs: seq<Graph.GraphNetwork>, grand: seq<nat -> nat>, g: Graph.GraphNetwork)
    requires |gs| < |grand| && forall s :: 0 <= s < |gs| ==> GraphDrawn(gs[s], s, grand[s])
    requires GraphDrawn(g, |gs|, grand[|gs|])
    ensures forall s :: 0 <= s < |gs| + 1 ==> GraphDrawn((gs + [g])[s], s, grand[s])
  {
    forall s | 0 <= s < |gs| + 1
      ensures GraphDrawn((gs + [g])[s], s, grand[s])
    {
      if s < |gs| {
        assert (gs + [g])[s] == gs[s];
      }
    }
  }

  /** One pass of the constructor's loop: the matrix engine of slot `s`,
      then its graph engine, apart from each other. */
  method NewSlot(s: nat, lr: real, mrand: nat -> nat, grand: nat -> nat)
    returns (m: MatrixNet.MatrixNetwork, g: Graph.GraphNetwork)
    ensures fresh(MatrixFoot(m)) && fresh(GraphFoot(g)) && MatrixFoot(m) !! GraphFoot(g)
    ensures MatrixDrawn(m, s, lr, mrand) && GraphDrawn(g, s, grand)
  {
    m := NewMatrix(s, lr, mrand);
    g := NewGraph(s, grand);
  }

  /** `new MatrixNetwork(MinDepth + s, learning_rate)` followed by
      `InstallRandomWeights()`: a fresh matrix engine of the depth of slot
      `s`, holding the weights drawn from `rand`. */
  method NewMatrix(s: nat, lr: real, rand: nat -> nat) returns (m: MatrixNet.MatrixNetwork)
    ensures fresh(MatrixFoot(m)) && MatrixDrawn(m, s, lr, rand)
  {
    m := new MatrixNet.MatrixNetwork(MinDepth + s, lr);
    m.InstallRandomWeights(rand);
  }

  /** `new GraphNetwork(MinDepth + s, kLearningRate)` followed by
      `InstallRandomWeights()`: a fresh graph engine of the depth of slot
      `s`, whose unit weights are redrawn from `rand`. */
  method NewGraph(s: nat, rand: nat -> nat) returns (g: Graph.GraphNetwork)
    ensures fresh(g) && fresh(g.Repr()) && GraphDrawn(g, s, rand)
  {
    g := new Graph.GraphNetwork.WithDepth(MinDepth + s, LearningRate);
    assert g.InputCounts() == InputCounts(MinDepth + s);
    g.InstallRandomWeights(rand);
  }

  /** `res(label - 1, class - 1) += 1` with the intended cell: the answer
      `a` of the engine, a failure, stops; a label outside 1 .. 26 is
      out_of_range; otherwise the cell of the label's row and the class's
      column grows by 1. */
  method TallyInto(m: S21Matrix, ex: nat, a: Result<nat>) returns (o: Outcome)
    requires m.Valid() && m.rows == OutputWidth && m.cols == OutputWidth
    requires a.Success? ==> 1 <= a.value <= OutputWidth
    modifies m, m.data
    ensures m.Valid() && m.rows == OutputWidth && m.cols == OutputWidth && m.data == old(m.data)
    ensures var r := Tally(ex, a, old(m.Cells));
      && (o.Fail? <==> r.Failure?)
      && (o.Fail? ==> o.error == r.error && m.Cells == old(m.Cells))
      && (o.Pass? ==> m.Cells == r.value)
  {
    if a.Failure? {
      return Fail(a.error);
    }
    var cell := Cell(ex, a.value);
    if cell.Failure? {
      return Fail(cell.error);
    }
    var v := m.Get(cell.value.0, cell.value.1);
    o := m.Set(cell.value.0, cell.value.1, v.value + 1.0);
  }

  /** The lines the sampled tests go through: the examples of the file
      are counted, the count is scaled by `p` and truncated, and that many
      lines are taken from the start of the file. */
  method SampleLines(lines: seq<string>, p: real) returns (s: seq<string>)
    requires 0.0 < p <= 1.0
    ensures s == Sample(lines, p)
  {
    var count := CountExamples(lines);
    var budget := (count as real * p).Floor;
    BudgetWithin(count, p);
    s := lines[..budget];
  }

  /** The counting loop of the sampled tests: the number of non-empty lines. */
  method CountExamples(lines: seq<string>) returns (n: nat)
    ensures n == NonEmpty(lines)
  {
    n := 0;
    var i := 0;
    while i < |lines|
      invariant i <= |lines| && n + NonEmpty(lines[i..]) == NonEmpty(lines)
    {
      assert lines[i..][1..] == lines[i + 1..];
      if lines[i] != [] {
        n := n + 1;
      }
      i := i + 1;
    }
  }
}
