/** The matrix engine `MatrixNetwork` (model/matrixNetwork.hpp,
    matrixNetwork.cpp): hidden layers and an output layer, each owning a
    weight matrix, an output matrix and a delta matrix. The three matrix
    references of a layer are held as values; `None` stands for a null
    reference. */
module MatrixNet {
  import opened Wrappers
  import opened Matrix
  import opened Text
  import opened WeightFile
  import opened Interface
  import opened MatrixSpec
  import GraphWeights

  // ---- The loops of one layer, on its matrices ----

  /** The loop of `set_input_layer`: cell i of a new zero row becomes
      pixel[i] / 255. */
  method ScaleInput(pixels: seq<nat>) returns (x: seq<real>)
    ensures x == Scaled(pixels)
  {
    x := seq(|pixels|, i => 0.0);
    for i := 0 to |pixels|
      invariant |x| == |pixels|
      invariant forall k :: 0 <= k < i ==> x[k] == Scaled(pixels)[k]
    {
      x := x[i := pixels[i] as real / 255.0];
    }
  }

  /** The loops of `HiddenLayer::CorrectWeights`: column by column, then row
      by row, each weight moves by prev[row] · d[col] · lr. */
  method UpdateWeights(W: Grid, R: nat, C: nat, prev: seq<real>, d: seq<real>, lr: real) returns (W': Grid)
    requires IsShape(W, R, C) && R <= |prev| && C <= |d|
    ensures W' == Updated(W, prev, d, lr)
  {
    W' := W;
    for c := 0 to C
      invariant IsShape(W', R, C)
      invariant forall r, c' :: 0 <= r < R && 0 <= c' < c ==> W'[r][c'] == W[r][c'] + prev[r] * d[c'] * lr
      invariant forall r, c' :: 0 <= r < R && c <= c' < C ==> W'[r][c'] == W[r][c']
    {
      for r := 0 to R
        invariant IsShape(W', R, C)
        invariant forall r', c' :: 0 <= r' < R && 0 <= c' < c ==> W'[r'][c'] == W[r'][c'] + prev[r'] * d[c'] * lr
        invariant forall r' :: 0 <= r' < r ==> W'[r'][c] == W[r'][c] + prev[r'] * d[c] * lr
        invariant forall r' :: r <= r' < R ==> W'[r'][c] == W[r'][c]
        invariant forall r', c' :: 0 <= r' < R && c < c' < C ==> W'[r'][c'] == W[r'][c']
      {
        W' := W'[r := W'[r][c := W'[r][c] + prev[r] * d[c] * lr]];
      }
    }
    ghost var U := Updated(W, prev, d, lr);
    forall r | 0 <= r < R
      ensures W'[r] == U[r]
    {
      assert forall c :: 0 <= c < C ==> W'[r][c] == U[r][c];
    }
  }

  /** The loop of `OutputLayer::CalcWeightsDeltaMatrix` over its `n`
      neurons, filling a new zero row. */
  method OutputDeltaRow(o: seq<real>, expected: nat, n: nat) returns (d: seq<real>)
    requires n <= |o|
    ensures d == OutputDelta(o[..n], expected)
  {
    d := seq(n, j => 0.0);
    for j := 0 to n
      invariant |d| == n
      invariant forall k :: 0 <= k < j ==> d[k] == OutputDelta(o[..n], expected)[k]
    {
      var sigmoid := o[j];
      var slope := sigmoid * (1.0 - sigmoid);
      if j + 1 == expected {
        d := d[j := (1.0 - sigmoid) * slope];
      } else {
        d := d[j := (0.0 - sigmoid) * slope];
      }
    }
  }

  /** The loops of `HiddenLayer::CalcWeightsDeltaMatrix`: for each of the
      `n` neurons, the sum along its row of the layer's own weights against
      the next delta, times the slope of its output. */
  method HiddenDeltaRow(o: seq<real>, W: Grid, dn: seq<real>, n: nat) returns (d: seq<real>)
    requires n <= |o| && n <= |W| && forall j :: 0 <= j < n ==> |dn| <= |W[j]|
    ensures d == HiddenDelta(o, W, dn, n)
  {
    d := seq(n, j => 0.0);
    for j := 0 to n
      invariant |d| == n
      invariant forall k :: 0 <= k < j ==> d[k] == HiddenDelta(o, W, dn, n)[k]
    {
      var sigmoid := o[j];
      var slope := sigmoid * (1.0 - sigmoid);
      var sum := 0.0;
      for i := 0 to |dn|
        invariant sum == Dot(W, Column(dn), j, 0, i)
      {
        sum := sum + W[j][i] * dn[i];
      }
      d := d[j := slope * sum];
    }
  }

  /** The loops of `HiddenLayer::InstallRandomWeights`: row by row, each
      cell takes the weight of the next rand() call, `start` calls having
      been made before. */
  method RandomFill(W: Grid, R: nat, C: nat, rand: nat -> nat, start: nat) returns (W': Grid, next: nat)
    requires IsShape(W, R, C)
    ensures W' == RandomGrid(R, C, rand, start)
    ensures next == GraphWeights.RowStart(start, R, C)
  {
    ghost var G := RandomGrid(R, C, rand, start);
    W', next := W, start;
    for i := 0 to R
      invariant IsShape(W', R, C) && next == GraphWeights.RowStart(start, i, C)
      invariant forall i', j :: 0 <= i' < i && 0 <= j < C ==> W'[i'][j] == G[i'][j]
    {
      for j := 0 to C
        invariant IsShape(W', R, C) && next == GraphWeights.RowStart(start, i, C) + j
        invariant forall i', j' :: 0 <= i' < i && 0 <= j' < C ==> W'[i'][j'] == G[i'][j']
        invariant forall j' :: 0 <= j' < j ==> W'[i][j'] == G[i][j']
      {
        W' := W'[i := W'[i][j := Draw(rand(next))]];
        next := next + 1;
      }
      assert (i + 1) * C == i * C + C;
    }
    assert forall i :: 0 <= i < R ==> W'[i] == G[i];
  }

  /** The tokens of one line stored from column `col` of row `row`: `stod`
      first, then the bounds check of `operator()`; a token after a space
      moves to the next column, the token ending the line back to 0. */
  method StoreLine(W: Grid, es: seq<Emit>, row: nat, col: nat) returns (o: Outcome, W': Grid, col': nat)
    ensures (o, W') == ApplyGrid(W, LinePuts(es, 0, row, col))
    ensures o.Pass? ==> col' == ColAfter(es, col)
  {
    W', col', o := W, col, Pass;
    var t := 0;
    while t < |es|
      invariant 0 <= t <= |es| && o == Pass
      invariant ApplyGrid(W', LinePuts(es[t..], 0, row, col')) == ApplyGrid(W, LinePuts(es, 0, row, col))
      invariant ColAfter(es[t..], col') == ColAfter(es, col)
    {
      assert es[t..][1..] == es[t + 1..];
      var v := Stod(es[t].token);
      if v.Failure? {
        return Fail(v.error), W', col';
      }
      if row >= |W'| || col' >= |W'[row]| {
        return Fail(OutOfRange), W', col';
      }
      W' := W'[row := W'[row][col' := v.value]];
      col' := if es[t].AtSep? then col' + 1 else 0;
      t := t + 1;
    }
  }

  /** Storing the puts `a + b` stores `a`, and then `b` unless `a` failed. */
  lemma {:induction false} ApplyGridConcat(g: Grid, a: seq<Put>, b: seq<Put>)
    ensures ApplyGrid(g, a + b) ==
      if ApplyGrid(g, a).0.Fail? then ApplyGrid(g, a) else ApplyGrid(ApplyGrid(g, a).1, b)
    decreases |a|
  {
    if a != [] {
      assert (a + b)[1..] == a[1..] + b;
      var p := a[0];
      match Stod(p.token)
      case Failure(e) =>
      case Success(v) =>
        if p.row < |g| && p.col < |g[p.row]| {
          ApplyGridConcat(g[p.row := g[p.row][p.col := v]], a[1..], b);
        }
    } else {
      assert a + b == b;
    }
  }

  /** The loop of `HiddenLayer::LoadWeights` from line i: while lines are
      left, each line up to the sentinel is split at spaces and stored as
      one row; the first failure ends the load with the cells stored so
      far. Without a failure it returns the line after the sentinel, or
      the end of the file. */
  method LoadBlock(W: Grid, lines: seq<string>, i: nat) returns (o: Outcome, W': Grid, next: nat)
    requires i <= |lines|
    ensures (o, W') == ApplyGrid(W, BlockPuts(lines, i, 0, 0, 0))
    ensures o.Pass? ==> next == BlockEnd(lines, i)
  {
    W', o := W, Pass;
    var k, row, col := i, 0, 0;
    while k < |lines|
      invariant i <= k <= |lines| && o == Pass
      invariant ApplyGrid(W', BlockPuts(lines, k, 0, row, col)) == ApplyGrid(W, BlockPuts(lines, i, 0, 0, 0))
      invariant BlockEnd(lines, k) == BlockEnd(lines, i)
      decreases |lines| - k
    {
      var line := lines[k];
      k := k + 1;
      if line == Sentinel {
        return Pass, W', k;
      }
      var es := ScanLine(line, ' ');
      ApplyGridConcat(W', LinePuts(es, 0, row, col), BlockPuts(lines, k, 0, row + 1, ColAfter(es, col)));
      o, W', col := StoreLine(W', es, row, col);
      if o.Fail? {
        return o, W', k;
      }
      row := row + 1;
    }
    next := k;
  }

  /** The loops of `HiddenLayer::SaveWeights`: one line per row, its cells
      separated by spaces, and then the sentinel. */
  method SaveBlock(W: Grid) returns (block: seq<string>)
    ensures block == GridLines(W) + [Sentinel]
  {
    block := [];
    for r := 0 to |W|
      invariant block == GridLines(W[..r])
    {
      GridLinesSnoc(W[..r], W[r]);
      assert W[..r + 1] == W[..r] + [W[r]];
      if W[r] != [] {
        block := block + [RowLine(W[r])];
      }
    }
    assert W[..|W|] == W;
    block := block + [Sentinel];
  }

  /** The scan of `ResultNeiron`: start at cell 0 and move to a later cell
      only when it is strictly larger. */
  method FirstMaxScan(s: seq<real>) returns (k: nat)
    requires s != []
    ensures k == FirstMax(s)
  {
    var best := s[0];
    k := 0;
    for j := 0 to |s|
      invariant k < |s| && best == s[k]
      invariant j == 0 ==> k == 0
      invariant j >= 1 ==> k == FirstMax(s[..j])
    {
      assert j >= 1 ==> s[..j + 1][..j] == s[..j];
      if best < s[j] {
        best := s[j];
        k := j;
      }
    }
    assert s[..|s|] == s;
  }

  // ---- Layers ----

  /** `HiddenLayer`, and `OutputLayer`, which adds the expected class, a
      delta computed from it instead of from a next layer, and
      `ResultNeiron`. */
  class Layer {
    /** Rows of the weight matrix: the width of the layer before. */
    const inputs: nat
    /** `sum_neirons_`, the columns of the weight matrix. */
    const neurons: nat
    /** `*m_weights_`. */
    var weights: Grid
    /** `m_output_`, `None` until the first forward pass. */
    var output: Option<Grid>
    /** `m_weights_delta_`, `None` until the first backward pass. */
    var delta: Option<Grid>
    /** `expected_value_` of the output layer, the class counted from 1. */
    var expected: nat
    /** The place of the layer in its network, which tells layers apart in
        proofs. */
    ghost const position: nat

    ghost predicate Valid()
      reads this
    {
      && inputs >= 1 && neurons >= 1
      && IsShape(weights, inputs, neurons)
      && (output.Some? ==> IsMatrix(output.value))
      && (delta.Some? ==> IsShape(delta.value, 1, neurons))
    }

    /** `HiddenLayer(rows, cols)` and `OutputLayer(rows, cols)`: a zero
        weight matrix with one row per input and one column per neuron, no
        output and no delta. */
    constructor (rows: nat, cols: nat, ghost position: nat)
      requires rows >= 1 && cols >= 1
      ensures Valid() && inputs == rows && neurons == cols && this.position == position
      ensures weights == Zeros(rows, cols) && output == None && delta == None && expected == 0
    {
      inputs, neurons, this.position := rows, cols, position;
      weights := Zeros(rows, cols);
      output, delta, expected := None, None, 0;
    }

    /** `CalcOutputMatrix(prev)`: the output becomes a copy of `prev`, which
        `MulMatrixWithSigmoid` replaces by Sigmoid(prev × W). When `prev`
        does not have one column per row of W the multiply throws
        invalid_argument and the copy stays behind. */
    method CalcOutput(prev: Grid) returns (o: Outcome)
      requires Valid() && IsMatrix(prev)
      modifies this`output
      ensures Valid()
      ensures o.Pass? <==> |prev[0]| == inputs
      ensures o.Pass? ==> output == Some(SigmoidProduct(prev, weights, neurons))
      ensures o.Fail? ==> o.error == InvalidArgument && output == Some(prev)
    {
      output := Some(prev);
      if |prev[0]| != inputs {
        return Fail(InvalidArgument);
      }
      output := Some(SigmoidProduct(prev, weights, neurons));
      o := Pass;
    }

    /** `OutputLayer::CalcWeightsDeltaMatrix()`: out_of_range before any
        forward pass; otherwise the delta becomes the row of output deltas
        against the expected class. */
    method CalcOutputDelta() returns (o: Outcome)
      requires Valid() && (output.Some? ==> neurons <= |output.value[0]|)
      modifies this`delta
      ensures Valid()
      ensures o.Fail? <==> output.None?
      ensures o.Fail? ==> o.error == OutOfRange && delta == old(delta)
      ensures o.Pass? ==> delta == Some([OutputDelta(output.value[0][..neurons], expected)])
    {
      if output.None? {
        return Fail(OutOfRange);
      }
      var d := OutputDeltaRow(output.value[0], expected, neurons);
      delta := Some([d]);
      o := Pass;
    }

    /** `HiddenLayer::CalcWeightsDeltaMatrix(next)`: out_of_range before any
        forward pass; otherwise the delta becomes the row computed from the
        delta row of the next layer along this layer's own weights. */
    method CalcHiddenDelta(next: Grid) returns (o: Outcome)
      requires Valid() && |next| == 1 && |next[0]| <= neurons <= inputs
      requires output.Some? ==> neurons <= |output.value[0]|
      modifies this`delta
      ensures Valid()
      ensures o.Fail? <==> output.None?
      ensures o.Fail? ==> o.error == OutOfRange && delta == old(delta)
      ensures o.Pass? ==> delta == Some([HiddenDelta(output.value[0], weights, next[0], neurons)])
    {
      if output.None? {
        return Fail(OutOfRange);
      }
      var d := HiddenDeltaRow(output.value[0], weights, next[0], neurons);
      delta := Some([d]);
      o := Pass;
    }

    /** `HiddenLayer::CorrectWeights(prev, lr)`: out_of_range without a
        delta; otherwise every weight (r, c) moves by prev[0][r] · delta[c] · lr. */
    method CorrectWeights(prev: Grid, lr: real) returns (o: Outcome)
      requires Valid() && IsMatrix(prev) && inputs <= |prev[0]|
      modifies this`weights
      ensures Valid()
      ensures o.Fail? <==> delta.None?
      ensures o.Fail? ==> o.error == OutOfRange && weights == old(weights)
      ensures o.Pass? ==> weights == Updated(old(weights), prev[0], delta.value[0], lr)
    {
      if delta.None? {
        return Fail(OutOfRange);
      }
      weights := UpdateWeights(weights, inputs, neurons, prev[0], delta.value[0], lr);
      o := Pass;
    }

    /** `HiddenLayer::InstallRandomWeights`, its rand() calls numbered from
        `start`; returns the number of the next call. */
    method InstallRandomWeights(rand: nat -> nat, start: nat) returns (next: nat)
      requires Valid()
      modifies this`weights
      ensures Valid()
      ensures weights == RandomGrid(inputs, neurons, rand, start)
      ensures next == GraphWeights.RowStart(start, inputs, neurons)
    {
      weights, next := RandomFill(weights, inputs, neurons, rand, start);
    }

    /** `HiddenLayer::LoadWeights` reading from line i; without a failure it
        returns where the next layer starts reading. */
    method LoadWeights(lines: seq<string>, i: nat) returns (o: Outcome, next: nat)
      requires Valid() && i <= |lines|
      modifies this`weights
      ensures Valid()
      ensures (o, weights) == ApplyGrid(old(weights), BlockPuts(lines, i, 0, 0, 0))
      ensures o.Pass? ==> next == BlockEnd(lines, i)
    {
      o, weights, next := LoadBlock(weights, lines, i);
    }

    /** `HiddenLayer::SaveWeights`: the block of the weight matrix and the
        sentinel. */
    method SaveWeights() returns (block: seq<string>)
      requires Valid()
      ensures block == GridLines(weights) + [Sentinel]
      ensures |block| == inputs + 1 && block[inputs] == Sentinel
    {
      block := SaveBlock(weights);
      GridLinesLength(weights);
    }

    /** `set_expected_value`. */
    method SetExpected(value: nat)
      requires Valid()
      modifies this`expected
      ensures Valid() && expected == value
    {
      expected := value;
    }

    /** `ResultNeiron`: out_of_range before any forward pass; otherwise
        1 + the first index of the largest cell of the output row. */
    method ResultNeiron() returns (r: Result<nat>)
      requires Valid()
      ensures r.Failure? <==> output.None?
      ensures r.Failure? ==> r.error == OutOfRange
      ensures r.Success? ==> 1 <= r.value <= |output.value[0]| && IsFirstMax(output.value[0], r.value - 1)
    {
      if output.None? {
        return Failure(OutOfRange);
      }
      var k := FirstMaxScan(output.value[0]);
      r := Success(k + 1);
    }

    /** `get_output_matrix`: invalid_argument before any forward pass. */
    method OutputMatrix() returns (r: Result<Grid>)
      requires Valid()
      ensures r.Failure? <==> output.None?
      ensures r.Failure? ==> r.error == InvalidArgument
      ensures r.Success? ==> IsMatrix(r.value) && Some(r.value) == output
    {
      if output.None? {
        return Failure(InvalidArgument);
      }
      r := Success(output.value);
    }

    /** `get_weights_delta_matrix`: invalid_argument before any backward pass. */
    method DeltaMatrix() returns (r: Result<Grid>)
      requires Valid()
      ensures r.Failure? <==> delta.None?
      ensures r.Failure? ==> r.error == InvalidArgument
      ensures r.Success? ==> IsShape(r.value, 1, neurons) && Some(r.value) == delta
    {
      if delta.None? {
        return Failure(InvalidArgument);
      }
      r := Success(delta.value);
    }
  }

  // ---- The network ----

  /** `MatrixNetwork`: the input row and its layers, `hidden_layers_`
      followed by `output_layer_`. Layer l reads RowsOf(l) values and has
      ColsOf(depth, l) neurons. */
  class MatrixNetwork {
    /** `input_layer_`, `None` before the first forward pass. */
    var input: Option<Grid>
    /** The hidden layers, then the output layer. */
    const layers: seq<Layer>
    /** `learning_rate_`. */
    const learningRate: real

    ghost predicate Valid()
      reads this, layers
    {
      && |layers| >= 2
      && (forall l :: 0 <= l < |layers| ==>
            && layers[l].position == l && layers[l].Valid()
            && layers[l].inputs == RowsOf(l) && layers[l].neurons == ColsOf(|layers| - 1, l))
      && (input.Some? ==> IsMatrix(input.value) && |input.value| == 1)
    }

    /** The weight matrices, layer by layer. */
    ghost function Weights(): (ws: seq<Grid>)
      reads layers`weights
      ensures |ws| == |layers| && forall l :: 0 <= l < |layers| ==> ws[l] == layers[l].weights
    {
      WeightsBelow(|layers|)
    }

    /** The weight matrices of the first `n` layers. */
    ghost function WeightsBelow(n: nat): (ws: seq<Grid>)
      requires n <= |layers|
      reads layers`weights
      ensures |ws| == n && forall l :: 0 <= l < n ==> ws[l] == layers[l].weights
    {
      if n == 0 then [] else WeightsBelow(n - 1) + [layers[n - 1].weights]
    }

    /** The first output row of every layer, empty where there is none. */
    ghost function OutRows(): (outs: seq<seq<real>>)
      reads layers`output
      ensures |outs| == |layers|
      ensures forall l :: 0 <= l < |layers| && layers[l].output.Some? && layers[l].output.value != [] ==>
        outs[l] == layers[l].output.value[0]
    {
      OutRowsBelow(|layers|)
    }

    /** The first output rows of the first `n` layers. */
    ghost function OutRowsBelow(n: nat): (outs: seq<seq<real>>)
      requires n <= |layers|
      reads layers`output
      ensures |outs| == n
      ensures forall l :: 0 <= l < n && layers[l].output.Some? && layers[l].output.value != [] ==>
        outs[l] == layers[l].output.value[0]
    {
      if n == 0 then []
      else
        var o := layers[n - 1].output;
        OutRowsBelow(n - 1) + [if o.Some? && o.value != [] then o.value[0] else []]
    }

    /** The weights of a valid network have the shapes of its layers. */
    lemma WeightsShaped()
      requires Valid()
      ensures Shaped(Weights())
    {
    }

    /** A forward pass has completed: the input row has the input width and
        every layer holds an output row of its width. */
    ghost predicate Ran()
      reads this, layers
    {
      && Valid()
      && input.Some? && IsShape(input.value, 1, InputWidth)
      && forall l :: 0 <= l < |layers| ==>
           layers[l].output.Some? && IsShape(layers[l].output.value, 1, ColsOf(|layers| - 1, l))
    }

    /** Weights that agree with `B` layer by layer are `B`. */
    lemma WeightsAre(B: seq<Grid>)
      requires |B| == |layers| && forall l :: 0 <= l < |layers| ==> layers[l].weights == B[l]
      ensures Weights() == B
    {
    }

    /** Layers that each hold the one-row matrix of `Ds[l]` as their delta
        hold the deltas of the backward pass. */
    lemma DeltasAre(ws: seq<Grid>, outs: seq<seq<real>>, e: nat, Ds: seq<seq<real>>)
      requires Shaped(ws) && Outputs(ws, outs) && |ws| == |layers| && Ds == DeltaRows(ws, outs, e)
      requires forall l :: 0 <= l < |layers| ==> layers[l].delta == Some([Ds[l]])
      ensures forall l :: 0 <= l < |layers| ==> layers[l].delta == Some([Deltas(ws, outs, e, l)])
    {
    }

    /** Layers that each hold the one-row matrix of `outs[l]` have the
        output rows `outs`. */
    lemma OutRowsAre(outs: seq<seq<real>>)
      requires |outs| == |layers| && forall l :: 0 <= l < |layers| ==> layers[l].output == Some([outs[l]])
      ensures OutRows() == outs
    {
    }

    /** After a forward pass the output rows have the widths of the layers
        and each layer holds its own row as a one-row matrix. */
    lemma RanOutputs()
      requires Ran()
      ensures Shaped(Weights()) && Outputs(Weights(), OutRows())
      ensures forall l :: 0 <= l < |layers| ==> layers[l].output == Some([OutRows()[l]])
    {
      forall l | 0 <= l < |layers|
        ensures layers[l].output == Some([OutRows()[l]])
      {
        assert layers[l].output.value == [layers[l].output.value[0]];
      }
    }

    /** `MatrixNetwork(depth, lr)` for depth >= 1: the first hidden layer
        reads the input, the others read the hidden width, the output layer
        has one neuron per class; every weight is 0. */
    constructor (depth: nat, lr: real)
      requires depth >= 1
      ensures Valid() && |layers| == depth + 1 && learningRate == lr
      ensures input == None && Weights() == ZeroNet(depth)
      ensures forall l :: 0 <= l < |layers| ==> fresh(layers[l])
      ensures forall l :: 0 <= l < |layers| ==>
        layers[l].output == None && layers[l].delta == None && layers[l].expected == 0
    {
      var first := new Layer(InputWidth, HiddenWidth, 0);
      var ls := [first];
      for i := 1 to depth
        invariant |ls| == i
        invariant forall k :: 0 <= k < i ==> fresh(ls[k])
        invariant forall k :: 0 <= k < i ==>
          && ls[k].position == k && ls[k].Valid() && ls[k].inputs == RowsOf(k) && ls[k].neurons == HiddenWidth
          && ls[k].weights == Zeros(RowsOf(k), HiddenWidth)
          && ls[k].output == None && ls[k].delta == None && ls[k].expected == 0
      {
        var h := new Layer(HiddenWidth, HiddenWidth, i);
        ls := ls + [h];
      }
      var last := new Layer(HiddenWidth, OutputWidth, depth);
      layers, learningRate := ls + [last], lr;
      input := None;
      new;
      assert Weights() == ZeroNet(depth);
    }

    /** The constructor behind its argument check: invalid_argument for
        fewer than one hidden layer. */
    static method Create(depth: int, lr: real) returns (r: Result<MatrixNetwork>)
      ensures r.Failure? <==> depth < 1
      ensures r.Failure? ==> r.error == InvalidArgument
      ensures r.Success? ==>
        && fresh(r.value) && r.value.Valid() && |r.value.layers| == depth + 1
        && r.value.Weights() == ZeroNet(depth) && r.value.input == None
    {
      if depth < 1 {
        return Failure(InvalidArgument);
      }
      var n := new MatrixNetwork(depth, lr);
      r := Success(n);
    }

    /** `set_input_layer`: the input becomes the 1 × n row of the pixels
        over 255. An empty list makes the 1 × 0 matrix throw
        invalid_argument after the old input was deleted: no input is left. */
    method SetInput(pixels: seq<nat>) returns (o: Outcome)
      requires Valid()
      modifies this
      ensures Valid()
      ensures o.Fail? <==> pixels == []
      ensures o.Fail? ==> o.error == InvalidArgument && input == None
      ensures o.Pass? ==> input == Some([Scaled(pixels)])
    {
      if pixels == [] {
        input := None;
        return Fail(InvalidArgument);
      }
      var row := ScaleInput(pixels);
      input := Some([row]);
      o := Pass;
    }

    /** `FeedForward`: sets the input, then each layer in turn computes its
        output from the output of the layer before it, the first hidden
        layer from the input. An input that is not `InputWidth` long fails
        in the first layer's multiply, which keeps a copy of the input as
        its output. */
    method FeedForward(pixels: seq<nat>) returns (o: Outcome)
      requires Valid()
      modifies this, layers`output
      ensures Valid()
      ensures o.Fail? <==> |pixels| != InputWidth
      ensures o.Fail? ==> o.error == InvalidArgument
      ensures pixels == [] ==> input == None
      ensures pixels != [] ==> input == Some([Scaled(pixels)])
      ensures o.Fail? ==> forall l :: 0 < l < |layers| ==> layers[l].output == old(layers[l].output)
      ensures o.Fail? ==> layers[0].output == if pixels == [] then old(layers[0].output) else input
      ensures o.Pass? ==> Ran() && OutRows() == Rows(Weights(), input.value)
    {
      o := SetInput(pixels);
      if o.Fail? {
        return;
      }
      var x := input.value;
      o := layers[0].CalcOutput(x);
      if o.Fail? {
        return;
      }
      Propagate(x);
    }

    /** Layer `i` computes its output from the output of layer `i - 1`,
        which holds row `i - 1` of the forward pass. */
    method FeedLayer(layer: Layer, i: nat, ghost ws: seq<Grid>, ghost x: Grid)
      requires 0 < i < |layers| && layer == layers[i] && layer.Valid()
      requires Shaped(ws) && |ws| == |layers| && IsShape(x, 1, InputWidth)
      requires layer.weights == ws[i] && layer.inputs == RowsOf(i) && layer.neurons == ColsOf(|ws| - 1, i)
      requires layers[i - 1].output == Some(Forward(ws, x, i - 1))
      modifies layer`output
      ensures layer.Valid() && layer.output == Some(Forward(ws, x, i))
    {
      var _ := layer.CalcOutput(layers[i - 1].output.value);
    }

    /** The loop of `FeedForward` over the layers after the first: `F` are
        the outputs of the forward pass from `x` with weights `ws`. */
    method FeedLayers(ghost ws: seq<Grid>, ghost x: Grid, ghost F: seq<Grid>)
      requires Valid() && Shaped(ws) && |ws| == |layers| && |F| == |layers| && IsShape(x, 1, InputWidth)
      requires forall l :: 0 <= l < |layers| ==> layers[l].weights == ws[l]
      requires forall l :: 0 <= l < |layers| ==> F[l] == Forward(ws, x, l)
      requires layers[0].output == Some(F[0])
      modifies layers`output
      ensures Valid() && Weights() == ws
      ensures forall l :: 0 <= l < |layers| ==> layers[l].output == Some(F[l])
    {
      for i := 1 to |layers|
        invariant forall l :: 0 <= l < |layers| ==> layers[l].position == l && layers[l].Valid()
        invariant forall l :: 0 <= l < i ==> layers[l].output == Some(F[l])
      {
        FeedLayer(layers[i], i, ws, x);
      }
      WeightsAre(ws);
    }

    /** The loop of `FeedForward` after the first hidden layer: each layer
        computes its output from the output of the layer before it. */
    method Propagate(x: Grid)
      requires Valid() && IsShape(x, 1, InputWidth) && input == Some(x)
      requires Shaped(Weights()) && layers[0].output == Some(Forward(Weights(), x, 0))
      modifies layers`output
      ensures Ran() && OutRows() == Rows(Weights(), x)
    {
      ghost var ws := Weights();
      ghost var F := seq(|layers|, l requires 0 <= l < |layers| => Forward(ws, x, l));
      FeedLayers(ws, x, F);
      RanFrom(ws, x, F);
    }

    /** Layers holding the outputs `F` of the forward pass from `x` have run,
        with the rows of that pass. */
    lemma RanFrom(ws: seq<Grid>, x: Grid, F: seq<Grid>)
      requires Valid() && IsShape(x, 1, InputWidth) && input == Some(x)
      requires Shaped(ws) && Weights() == ws && |F| == |layers|
      requires forall l :: 0 <= l < |layers| ==> F[l] == Forward(ws, x, l)
      requires forall l :: 0 <= l < |layers| ==> layers[l].output == Some(F[l])
      ensures Ran() && OutRows() == Rows(ws, x)
    {
      var R := Rows(ws, x);
      forall l | 0 <= l < |layers|
        ensures layers[l].output == Some([R[l]])
      {
        assert F[l] == [F[l][0]];
      }
      OutRowsAre(R);
    }

    /** `CorrectWeights`: the output layer computes its delta from the
        expected class and corrects its weights against the output of the
        last hidden layer; then, from the last hidden layer down, each
        hidden layer computes its delta from the delta of the layer after it
        and corrects its weights against the row it read. */
    method CorrectWeights()
      requires Ran()
      modifies layers`delta, layers`weights
      ensures Ran()
      ensures OutRows() == old(OutRows())
      ensures Weights() == Backprop(old(Weights()), old(input.value[0]), old(OutRows()), old(layers[|layers| - 1].expected), learningRate)
      ensures forall l :: 0 <= l < |layers| ==>
        layers[l].delta == Some([Deltas(old(Weights()), old(OutRows()), old(layers[|layers| - 1].expected), l)])
    {
      ghost var ws, outs, Ds, B := BackwardPlan();
      ghost var e := layers[|layers| - 1].expected;
      CorrectHidden(ws, outs, Ds, B);
      WeightsAre(B);
      OutRowsAre(outs);
      DeltasAre(ws, outs, e, Ds);
    }

    /** What `CorrectWeights` starts from: the weights `ws` and output rows
        `outs` of the forward pass, the delta rows `Ds` and new weights `B`
        the backward pass is to produce. */
    lemma BackwardPlan() returns (ws: seq<Grid>, outs: seq<seq<real>>, Ds: seq<seq<real>>, B: seq<Grid>)
      requires Ran()
      ensures ws == Weights() && outs == OutRows()
      ensures Ds == DeltaRows(ws, outs, layers[|layers| - 1].expected)
      ensures B == Backprop(ws, input.value[0], outs, layers[|layers| - 1].expected, learningRate)
      ensures |ws| == |layers| && |outs| == |layers| && |Ds| == |layers| && |B| == |layers|
      ensures Shaped(ws) && Outputs(ws, outs) && forall l :: 0 <= l < |layers| ==> layers[l].weights == ws[l]
      ensures forall l :: 0 <= l < |layers| ==> layers[l].output == Some([outs[l]])
      ensures forall l :: 0 <= l < |layers| ==> |outs[l]| == |Ds[l]| == ColsOf(|layers| - 1, l)
      ensures Ds[|layers| - 1] == OutputDelta(outs[|layers| - 1], layers[|layers| - 1].expected)
      ensures B[|layers| - 1] == Updated(ws[|layers| - 1], outs[|layers| - 2], Ds[|layers| - 1], learningRate)
      ensures forall l :: 0 <= l < |layers| - 1 ==> BackwardAt(ws, input.value[0], outs, Ds, B, learningRate, l)
    {
      RanOutputs();
      ws := Weights();
      outs := OutRows();
      var e := layers[|layers| - 1].expected;
      Ds := DeltaRows(ws, outs, e);
      B := Backprop(ws, input.value[0], outs, e, learningRate);
      BackpropSteps(ws, input.value[0], outs, e, learningRate, Ds, B);
    }

    /** The output layer's part of `CorrectWeights`: `o` is its output row
        and `p` the row it read, `d` and `w` its new delta row and weights. */
    method CorrectOutput(out: Layer, ghost o: seq<real>, ghost p: seq<real>, ghost d: seq<real>, ghost w: Grid)
      requires Ran() && out == layers[|layers| - 1]
      requires out.output == Some([o]) && layers[|layers| - 2].output == Some([p])
      requires d == OutputDelta(o, out.expected)
      requires w == Updated(out.weights, p, d, learningRate)
      modifies out`delta, out`weights
      ensures Ran()
      ensures out.delta == Some([d]) && out.weights == w
    {
      var _ := out.CalcOutputDelta();
      assert o[..OutputWidth] == o;
      var _ := out.CorrectWeights(layers[|layers| - 2].output.value, learningRate);
    }

    /** One step of the backward pass over hidden layer `idx`: its delta
        from the next layer's delta `dn`, then its weights from the row `p`
        that fed it. */
    method BackStep(layer: Layer, idx: nat, ghost p: seq<real>, ghost dn: seq<real>, ghost d: seq<real>, ghost w: Grid)
      requires idx < |layers| - 1 && layer == layers[idx]
      requires layer.Valid() && layer.neurons == HiddenWidth && layer.inputs == RowsOf(idx)
      requires layers[idx + 1].delta == Some([dn]) && |dn| <= HiddenWidth
      requires layer.output.Some? && |layer.output.value[0]| == HiddenWidth
      requires (if idx == 0 then input else layers[idx - 1].output) == Some([p]) && |p| == RowsOf(idx)
      requires d == HiddenDelta(layer.output.value[0], layer.weights, dn, HiddenWidth)
      requires w == Updated(layer.weights, p, d, learningRate)
      modifies layer`delta, layer`weights
      ensures layer.Valid() && layer.delta == Some([d]) && layer.weights == w
    {
      var _ := layer.CalcHiddenDelta(layers[idx + 1].delta.value);
      var row := if idx != 0 then layers[idx - 1].output.value else input.value;
      var _ := layer.CorrectWeights(row, learningRate);
    }

    /** The hidden layers' part of `CorrectWeights`, from the last one down:
        `ws` are the weights before, `Ds` the delta rows and `B` the new
        weights. */
    method CorrectHidden(ghost ws: seq<Grid>, ghost outs: seq<seq<real>>, ghost Ds: seq<seq<real>>, ghost B: seq<Grid>)
      requires Ran() && |ws| == |layers| && |outs| == |layers| && |Ds| == |layers| && |B| == |layers|
      requires Shaped(ws) && forall l :: 0 <= l < |layers| ==> layers[l].weights == ws[l]
      requires forall l :: 0 <= l < |layers| ==> layers[l].output == Some([outs[l]])
      requires forall l :: 0 <= l < |layers| ==> |outs[l]| == |Ds[l]| == ColsOf(|layers| - 1, l)
      requires Ds[|layers| - 1] == OutputDelta(outs[|layers| - 1], layers[|layers| - 1].expected)
      requires B[|layers| - 1] == Updated(ws[|layers| - 1], outs[|layers| - 2], Ds[|layers| - 1], learningRate)
      requires forall l :: 0 <= l < |layers| - 1 ==> BackwardAt(ws, input.value[0], outs, Ds, B, learningRate, l)
      modifies layers`delta, layers`weights
      ensures Ran()
      ensures forall l :: 0 <= l < |layers| ==> layers[l].weights == B[l] && layers[l].delta == Some([Ds[l]])
      ensures forall l :: 0 <= l < |layers| ==> layers[l].output == Some([outs[l]])
    {
      CorrectOutput(layers[|layers| - 1], outs[|layers| - 1], outs[|layers| - 2], Ds[|layers| - 1], B[|layers| - 1]);
      assert input.value == [input.value[0]];
      var idx := |layers| - 2;
      while idx >= 0
        invariant -1 <= idx < |layers| - 1
        invariant forall l :: 0 <= l < |layers| ==> layers[l].position == l && layers[l].Valid()
        invariant forall l :: idx < l < |layers| ==> layers[l].weights == B[l] && layers[l].delta == Some([Ds[l]])
        invariant forall l :: 0 <= l <= idx ==> layers[l].weights == ws[l]
        invariant forall l :: 0 <= l < |layers| ==> layers[l].output == Some([outs[l]])
        invariant input == Some([input.value[0]])
      {
        assert BackwardAt(ws, input.value[0], outs, Ds, B, learningRate, idx);
        BackStep(layers[idx], idx, if idx == 0 then input.value[0] else outs[idx - 1], Ds[idx + 1], Ds[idx], B[idx]);
        idx := idx - 1;
      }
    }

    // ---- Prediction and one learning step ----

    /** `Prediction`: a forward pass, then `ResultNeiron` of the output
        layer, the class counted from 1 whose output is first largest. The
        input-width failure of the forward pass comes through. */
    method Prediction(pixels: seq<nat>) returns (r: Result<nat>)
      requires Valid()
      modifies this, layers`output
      ensures Valid() && Weights() == old(Weights())
      ensures r.Failure? <==> |pixels| != InputWidth
      ensures r.Failure? ==> r.error == InvalidArgument
      ensures r.Success? ==> Ran() && OutRows() == Rows(Weights(), [Scaled(pixels)])
      ensures r.Success? ==>
        && 1 <= r.value <= OutputWidth
        && r.value == Predicted(Weights(), pixels)
    {
      var o := FeedForward(pixels);
      if o.Fail? {
        return Failure(o.error);
      }
      r := layers[|layers| - 1].ResultNeiron();
      ghost var last := layers[|layers| - 1].output.value[0];
      assert last == Forward(Weights(), [Scaled(pixels)], |layers| - 1)[0];
      FirstMaxUnique(last, r.value - 1, FirstMax(last));
    }

    /** `LearnNetwork`: the output layer takes the expected class, a
        forward pass runs, then `CorrectWeights` moves every weight one
        step against the error. A failed forward pass changes no weight. */
    method LearnNetwork(pixels: seq<nat>, expected: nat) returns (o: Outcome)
      requires Valid()
      modifies this, layers`output, layers`delta, layers`weights, layers`expected
      ensures Valid() && layers[|layers| - 1].expected == expected
      ensures o.Fail? <==> |pixels| != InputWidth
      ensures o.Fail? ==> o.error == InvalidArgument && Weights() == old(Weights())
      ensures o.Pass? ==> Ran() && |Scaled(pixels)| == InputWidth
      ensures o.Pass? ==>
        Weights() == Backprop(old(Weights()), Scaled(pixels), Rows(old(Weights()), [Scaled(pixels)]), expected, learningRate)
    {
      ghost var W0 := Weights();
      layers[|layers| - 1].SetExpected(expected);
      o := FeedForward(pixels);
      if o.Fail? {
        return;
      }
      Learn(W0, Scaled(pixels), expected);
    }

    /** The backward pass of `LearnNetwork`, after a forward pass of `x`
        through the weights `W0`. */
    method Learn(ghost W0: seq<Grid>, ghost x: seq<real>, ghost e: nat)
      requires Ran() && Weights() == W0 && input == Some([x]) && layers[|layers| - 1].expected == e
      requires Shaped(W0) && |x| == InputWidth && OutRows() == Rows(W0, [x])
      modifies layers`delta, layers`weights
      ensures Ran() && layers[|layers| - 1].expected == e
      ensures Weights() == Backprop(W0, x, Rows(W0, [x]), e, learningRate)
    {
      CorrectWeights();
    }

    // ---- Weights in and out ----

    /** `InstallRandomWeights`: the hidden layers, then the output layer,
        each fills its matrix from the rand() calls that follow those of
        the layer before it. */
    method InstallRandomWeights(rand: nat -> nat)
      requires Valid()
      modifies layers`weights
      ensures Valid() && Weights() == RandomNet(|layers| - 1, rand)
    {
      ghost var starts := RandomLayers(rand);
      RandomNetFrom(|layers| - 1, rand, starts, Weights());
    }

    /** The loop of `InstallRandomWeights`: layer l fills its matrix from
        call `starts[l]` on. */
    method RandomLayers(rand: nat -> nat) returns (ghost starts: seq<nat>)
      requires Valid()
      modifies layers`weights
      ensures Valid() && starts == Starts(|layers| - 1, |layers|)
      ensures forall k :: 0 <= k < |layers| ==>
        layers[k].weights == RandomGrid(RowsOf(k), ColsOf(|layers| - 1, k), rand, starts[k])
    {
      var next := 0;
      starts := [];
      for l := 0 to |layers|
        invariant forall k :: 0 <= k < |layers| ==> layers[k].position == k && layers[k].Valid()
        invariant next == Drawn(|layers| - 1, l) && starts == Starts(|layers| - 1, l)
        invariant forall k :: 0 <= k < l ==>
          layers[k].weights == RandomGrid(RowsOf(k), ColsOf(|layers| - 1, k), rand, starts[k])
      {
        starts := starts + [next];
        next := RandomLayer(layers[l], l, rand, next);
      }
    }

    /** Layer `l` of `InstallRandomWeights`, its rand() calls following
        those of the layers before it. */
    method RandomLayer(layer: Layer, l: nat, rand: nat -> nat, start: nat) returns (next: nat)
      requires |layers| >= 2 && l < |layers| && layer == layers[l] && layer.Valid()
      requires layer.inputs == RowsOf(l) && layer.neurons == ColsOf(|layers| - 1, l)
      requires start == Drawn(|layers| - 1, l)
      modifies layer`weights
      ensures layer.Valid() && layer.weights == RandomGrid(RowsOf(l), ColsOf(|layers| - 1, l), rand, start)
      ensures next == Drawn(|layers| - 1, l + 1)
    {
      next := layer.InstallRandomWeights(rand, start);
      DrawnStep(|layers| - 1, l);
    }

    /** `SaveWeights`: the header line, the depth line, then the block of
        every hidden layer and of the output layer. */
    method SaveWeights() returns (file: seq<string>)
      requires Valid()
      ensures file == FileOf(|layers| - 1, Weights())
    {
      ghost var ws := Weights();
      file := [Header, DepthLine(|layers| - 1)];
      for l := 0 to |layers|
        invariant file == [Header, DepthLine(|layers| - 1)] + Body(ws[..l])
      {
        var block := layers[l].SaveWeights();
        BodySnoc(ws[..l], ws[l]);
        assert ws[..l + 1] == ws[..l] + [ws[l]];
        file := file + block;
      }
      assert ws[..|layers|] == ws;
    }

    /** `LoadWeights`: nothing when the file cannot be opened;
        invalid_argument on a wrong header or depth line; otherwise each
        hidden layer, then the output layer, reads its block, and the
        first failure stops the load with the layers before it loaded. */
    method LoadWeights(file: Option<seq<string>>) returns (o: Outcome)
      requires Valid()
      modifies layers`weights
      ensures Valid()
      ensures file.None? ==> o == Pass && Weights() == old(Weights())
      ensures file.Some? ==> (o, Weights()) == LoadFile(old(Weights()), file.value)
    {
      if file.None? {
        return Pass;
      }
      var lines := file.value;
      o := CheckHeader(lines, |layers| - 1);
      if o.Fail? {
        return;
      }
      ghost var W0 := Weights();
      ghost var R := LoadLayers(W0, lines, 2);
      o := LoadLayerBlocks(lines, W0, R);
      WeightsAre(R.1);
    }

    /** The loop of `LoadWeights` once the header lines have passed: each
        layer reads its block, the first failure stopping the loop. */
    method LoadLayerBlocks(lines: seq<string>, ghost W0: seq<Grid>, ghost R: (Outcome, seq<Grid>)) returns (o: Outcome)
      requires Valid() && 2 <= |lines| && W0 == Weights() && R == LoadLayers(W0, lines, 2)
      modifies layers`weights
      ensures o == R.0 && LoadedTo(|layers|, W0, R)
    {
      var i: nat := 2;
      o := Pass;
      assert W0[0..] == W0 && R.1[0..] == R.1;
      for l := 0 to |layers|
        invariant LoadedTo(l, W0, R) && LoadsTail(W0, lines, i, l, R) && o == Pass
      {
        var next;
        o, next := LoadLayer(l, lines, i, W0, R);
        if o.Fail? {
          return;
        }
        i := next;
      }
      assert W0[|layers|..] == [];
    }

    /** The layers below l hold their loaded weights `R.1`, the others
        still their weights `W0` from before the load. */
    ghost predicate LoadedTo(l: nat, W0: seq<Grid>, R: (Outcome, seq<Grid>))
      reads this, layers
    {
      && l <= |layers| == |W0| == |R.1|
      && (forall k :: 0 <= k < |layers| ==> layers[k].position == k && layers[k].Valid())
      && (forall k :: 0 <= k < l ==> layers[k].weights == R.1[k])
      && (forall k :: l <= k < |layers| ==> layers[k].weights == W0[k])
    }

    /** Layer `l` of `LoadWeights` reading its block from line `i`; a
        failure leaves every layer with its final weights. */
    method LoadLayer(l: nat, lines: seq<string>, i: nat, ghost W0: seq<Grid>, ghost R: (Outcome, seq<Grid>))
      returns (o: Outcome, next: nat)
      requires l < |layers| && LoadedTo(l, W0, R) && LoadsTail(W0, lines, i, l, R)
      modifies layers`weights
      ensures o.Fail? ==> o == R.0 && LoadedTo(|layers|, W0, R)
      ensures o.Pass? ==> LoadedTo(l + 1, W0, R) && LoadsTail(W0, lines, next, l + 1, R)
    {
      LoadLayersAt(W0, lines, i, l, R);
      var layer: Layer := layers[l];
      o, next := layer.LoadWeights(lines, i);
    }
  }
}
