/** What the matrix engine (matrixNetwork.cpp) computes, as functions on
    values. The weight matrix of a layer has one row per input and one
    column per neuron; the input, every output and every delta is a
    matrix of one row. Layer l of a network with `depth` hidden layers is
    hidden layer l for l < depth and the output layer for l == depth. */
module MatrixSpec {
  import opened Wrappers
  import opened Activation
  import opened Matrix
  import opened Text
  import opened WeightFile
  import opened Interface
  import GraphSpec
  import GraphWeights

  // ---- Shapes ----

  /** `g` is what an `S21Matrix` built by its public constructor holds:
      at least one row and one column, every row of the same length. */
  ghost predicate IsMatrix(g: Grid) {
    |g| >= 1 && |g[0]| >= 1 && IsShape(g, |g|, |g[0]|)
  }

  /** Rows of the weight matrix of layer l: the first hidden layer reads
      the 784 pixels, every later layer the 140 neurons of a hidden layer. */
  function RowsOf(l: nat): nat {
    if l == 0 then InputWidth else HiddenWidth
  }

  /** Columns of the weight matrix of layer l: 26 for the output layer,
      140 for a hidden one. */
  function ColsOf(depth: nat, l: nat): nat {
    if l == depth then OutputWidth else HiddenWidth
  }

  /** The weight matrices `ws`, output layer last, have the shapes the
      constructor gives them, for at least one hidden layer. */
  ghost predicate Shaped(ws: seq<Grid>) {
    |ws| >= 2 && forall l :: 0 <= l < |ws| ==> IsShape(ws[l], RowsOf(l), ColsOf(|ws| - 1, l))
  }

  /** The weights of a network built by the constructor: zero matrices. */
  function ZeroNet(depth: nat): (ws: seq<Grid>)
    requires depth >= 1
    ensures Shaped(ws) && |ws| == depth + 1
  {
    seq(depth + 1, l requires 0 <= l <= depth => Zeros(RowsOf(l), ColsOf(depth, l)))
  }

  /** Layer shapes are kept by anything that keeps every dimension. */
  lemma SameDimsShaped(a: seq<Grid>, ws: seq<Grid>)
    requires Shaped(ws) && GraphWeights.SameDims(a, ws)
    ensures Shaped(a)
  {
  }

  // ---- Forward pass ----

  /** `set_input_layer`: pixel i becomes pixel[i] / 255, so a pixel of at
      most 255 lands in [0, 1]. */
  function Scaled(pixels: seq<nat>): (x: seq<real>)
    ensures |x| == |pixels|
    ensures forall i :: 0 <= i < |pixels| ==> 0.0 <= x[i] && (pixels[i] <= 255 ==> x[i] <= 1.0)
  {
    seq(|pixels|, i requires 0 <= i < |pixels| => pixels[i] as real / 255.0)
  }

  /** The output matrix of layer l after `FeedForward` from the input
      matrix `x`: layer 0 multiplies x by its weights, every later layer
      the output of the layer before it, and each product goes through
      the sigmoid. */
  function Forward(ws: seq<Grid>, x: Grid, l: nat): (o: Grid)
    requires Shaped(ws) && IsShape(x, 1, InputWidth) && l < |ws|
    ensures IsShape(o, 1, ColsOf(|ws| - 1, l))
    decreases l
  {
    var prev := if l == 0 then x else Forward(ws, x, l - 1);
    SigmoidProduct(prev, ws[l], ColsOf(|ws| - 1, l))
  }

  /** The class `Prediction` answers for the pixels after a forward pass:
      1 + the index of the first largest output of the last layer. */
  function Predicted(ws: seq<Grid>, pixels: seq<nat>): (c: nat)
    requires Shaped(ws) && |pixels| == InputWidth
    ensures 1 <= c <= OutputWidth
  {
    1 + FirstMax(Forward(ws, [Scaled(pixels)], |ws| - 1)[0])
  }

  /** The rows `outs` are one output row per layer, of the layer's width. */
  ghost predicate Outputs(ws: seq<Grid>, outs: seq<seq<real>>) {
    |ws| >= 1 && |outs| == |ws| && forall l :: 0 <= l < |ws| ==> |outs[l]| == ColsOf(|ws| - 1, l)
  }

  /** The output rows of every layer after `FeedForward` from `x`. */
  function Rows(ws: seq<Grid>, x: Grid): (outs: seq<seq<real>>)
    requires Shaped(ws) && IsShape(x, 1, InputWidth)
    ensures Outputs(ws, outs)
  {
    seq(|ws|, l requires 0 <= l < |ws| => Forward(ws, x, l)[0])
  }

  /** A network whose weights are all zero gives every output neuron
      Sigmoid(0), so `ResultNeiron` answers 1 whatever the input. */
  lemma ZeroNetPredictsFirst(depth: nat, x: Grid)
    requires depth >= 1 && IsShape(x, 1, InputWidth)
    ensures 1 + FirstMax(Forward(ZeroNet(depth), x, depth)[0]) == 1
  {
    var ws := ZeroNet(depth);
    var prev := if depth == 0 then x else Forward(ws, x, depth - 1);
    ProductWithZeros(prev, HiddenWidth, OutputWidth);
    var o := Forward(ws, x, depth)[0];
    assert forall j :: 0 <= j < |o| ==> o[j] == Sigmoid(0.0);
    assert IsFirstMax(o, 0);
    FirstMaxUnique(o, 0, FirstMax(o));
  }

  // ---- Back-propagation ----

  /** `OutputLayer::CalcWeightsDeltaMatrix` on the output row `o` with the
      expected class `expected` (counted from 1): neuron j aims at 1 when
      j + 1 is the expected class and at 0 otherwise, and its delta is
      (aim - o[j]) · o[j](1 - o[j]). */
  function OutputDelta(o: seq<real>, expected: nat): (d: seq<real>)
    ensures |d| == |o|
  {
    seq(|o|, j requires 0 <= j < |o| => ((if j + 1 == expected then 1.0 else 0.0) - o[j]) * Slope(o[j]))
  }

  /** On a sigmoid output strictly between 0 and 1 the delta is positive
      exactly at the expected neuron and negative everywhere else, so the
      update pulls the expected neuron up and the others down. */
  lemma OutputDeltaSign(o: seq<real>, expected: nat, j: nat)
    requires j < |o| && 0.0 < o[j] < 1.0
    ensures OutputDelta(o, expected)[j] > 0.0 <==> j + 1 == expected
    ensures OutputDelta(o, expected)[j] < 0.0 <==> j + 1 != expected
  {
    var s := Slope(o[j]);
    assert s > 0.0;
    if j + 1 == expected {
      assert OutputDelta(o, expected)[j] == (1.0 - o[j]) * s;
    } else {
      assert OutputDelta(o, expected)[j] == (0.0 - o[j]) * s;
    }
  }

  /** The output delta is the graph engine's output derivative with the
      sign flipped, against the one-hot target of class `expected - 1`:
      the matrix engine adds its step where the graph engine subtracts. */
  lemma OutputDeltaMirrorsGraph(o: seq<real>, expected: nat)
    ensures forall j :: 0 <= j < |o| ==>
      OutputDelta(o, expected)[j] == -GraphSpec.OutDeltas(o, GraphSpec.ExpectationVector(expected - 1, |o|))[j]
  {
  }

  /** The row `d` as a matrix of one column. */
  function Column(d: seq<real>): (c: Grid)
    ensures IsShape(c, |d|, 1)
  {
    seq(|d|, i requires 0 <= i < |d| => [d[i]])
  }

  /** `HiddenLayer::CalcWeightsDeltaMatrix` for a layer with output row
      `o`, weight matrix `W` and `n` neurons, against the delta row `dn` of
      the layer after it: the delta of neuron j is
      o[j](1 - o[j]) · Σ_i W[j][i] · dn[i]. The sum runs along row j of the
      layer's own weight matrix, not over the next layer's weights. */
  function HiddenDelta(o: seq<real>, W: Grid, dn: seq<real>, n: nat): (d: seq<real>)
    requires n <= |o| && n <= |W| && forall j :: 0 <= j < n ==> |dn| <= |W[j]|
    ensures |d| == n
  {
    seq(n, j requires 0 <= j < n => Slope(o[j]) * Dot(W, Column(dn), j, 0, |dn|))
  }

  /** Against a column of zeros every partial sum is 0. */
  lemma {:induction false} DotZeroColumn(W: Grid, dn: seq<real>, j: nat, k: nat)
    requires j < |W| && k <= |dn| && k <= |W[j]|
    requires forall i :: 0 <= i < |dn| ==> dn[i] == 0.0
    ensures Dot(W, Column(dn), j, 0, k) == 0.0
  {
    if k > 0 {
      DotZeroColumn(W, dn, j, k - 1);
    }
  }

  /** A hidden layer whose successor has a zero delta gets a zero delta. */
  lemma HiddenDeltaOfZero(o: seq<real>, W: Grid, dn: seq<real>, n: nat)
    requires n <= |o| && n <= |W| && forall j :: 0 <= j < n ==> |dn| <= |W[j]|
    requires forall i :: 0 <= i < |dn| ==> dn[i] == 0.0
    ensures forall j :: 0 <= j < n ==> HiddenDelta(o, W, dn, n)[j] == 0.0
  {
    forall j | 0 <= j < n
      ensures HiddenDelta(o, W, dn, n)[j] == 0.0
    {
      DotZeroColumn(W, dn, j, |dn|);
    }
  }

  /** `HiddenLayer::CorrectWeights`: cell (r, c) of `W` moves by
      prev[r] · d[c] · lr, `prev` being the row the layer read and `d` its
      delta. */
  function Updated(W: Grid, prev: seq<real>, d: seq<real>, lr: real): (W': Grid)
    requires |W| <= |prev| && forall r :: 0 <= r < |W| ==> |W[r]| <= |d|
    ensures |W'| == |W| && forall r :: 0 <= r < |W| ==> |W'[r]| == |W[r]|
  {
    seq(|W|, r requires 0 <= r < |W| =>
      seq(|W[r]|, c requires 0 <= c < |W[r]| => W[r][c] + prev[r] * d[c] * lr))
  }

  /** With a learning rate of 0 the update leaves every weight as it was. */
  lemma UpdatedZeroRate(W: Grid, prev: seq<real>, d: seq<real>)
    requires |W| <= |prev| && forall r :: 0 <= r < |W| ==> |W[r]| <= |d|
    ensures Updated(W, prev, d, 0.0) == W
  {
    var U := Updated(W, prev, d, 0.0);
    forall r | 0 <= r < |W|
      ensures U[r] == W[r]
    {
      assert forall c :: 0 <= c < |W[r]| ==> U[r][c] == W[r][c];
    }
  }

  /** With a positive rate, a weight from a positive input moves the way
      the neuron's delta points, and stays put on a zero delta. */
  lemma UpdatedDirection(W: Grid, prev: seq<real>, d: seq<real>, lr: real, r: nat, c: nat)
    requires |W| <= |prev| && forall r :: 0 <= r < |W| ==> |W[r]| <= |d|
    requires r < |W| && c < |W[r]| && prev[r] > 0.0 && lr > 0.0
    ensures Updated(W, prev, d, lr)[r][c] > W[r][c] <==> d[c] > 0.0
    ensures Updated(W, prev, d, lr)[r][c] < W[r][c] <==> d[c] < 0.0
  {
    var p := prev[r] * lr;
    assert p > 0.0;
    assert Updated(W, prev, d, lr)[r][c] == W[r][c] + d[c] * p;
  }

  /** The delta rows of every layer in one `CorrectWeights`, from the
      output rows `outs` of the forward pass and the expected class: the
      output layer's from the expected class, each hidden layer's from the
      delta of the layer after it and the layer's own weights. */
  function Deltas(ws: seq<Grid>, outs: seq<seq<real>>, expected: nat, l: nat): (d: seq<real>)
    requires Shaped(ws) && Outputs(ws, outs) && l < |ws|
    ensures |d| == ColsOf(|ws| - 1, l)
    decreases |ws| - l
  {
    if l == |ws| - 1 then OutputDelta(outs[l], expected)
    else HiddenDelta(outs[l], ws[l], Deltas(ws, outs, expected, l + 1), HiddenWidth)
  }

  /** The row layer l reads in the forward pass: the input row for the
      first hidden layer, the output row of the layer before it otherwise. */
  function Fed(x: seq<real>, outs: seq<seq<real>>, l: nat): seq<real>
    requires l <= |outs|
  {
    if l == 0 then x else outs[l - 1]
  }

  /** The weights after `CorrectWeights`: each layer updated against the
      row it read and its delta. */
  function Backprop(ws: seq<Grid>, x: seq<real>, outs: seq<seq<real>>, expected: nat, lr: real): (r: seq<Grid>)
    requires Shaped(ws) && Outputs(ws, outs) && |x| == InputWidth
    ensures Shaped(r)
  {
    seq(|ws|, l requires 0 <= l < |ws| => Updated(ws[l], Fed(x, outs, l), Deltas(ws, outs, expected, l), lr))
  }

  /** The delta rows of all layers, output layer last. */
  function DeltaRows(ws: seq<Grid>, outs: seq<seq<real>>, expected: nat): (Ds: seq<seq<real>>)
    requires Shaped(ws) && Outputs(ws, outs)
    ensures |Ds| == |ws| && forall l {:trigger Ds[l]} :: 0 <= l < |ws| ==> Ds[l] == Deltas(ws, outs, expected, l)
  {
    seq(|ws|, l requires 0 <= l < |ws| => Deltas(ws, outs, expected, l))
  }

  /** Hidden layer `l`'s step of the backward pass: its delta row `Ds[l]`
      from its own output row, its weights and the next layer's delta row,
      and its new weights `B[l]` from the row it read. */
  ghost predicate BackwardAt(ws: seq<Grid>, x: seq<real>, outs: seq<seq<real>>, Ds: seq<seq<real>>, B: seq<Grid>, lr: real, l: nat)
    requires l + 1 < |ws| && |outs| == |ws| && |Ds| == |ws| && |B| == |ws|
  {
    var p := Fed(x, outs, l);
    && HiddenWidth <= |outs[l]| && HiddenWidth <= |ws[l]|
    && (forall j :: 0 <= j < HiddenWidth ==> |Ds[l + 1]| <= |ws[l][j]|)
    && Ds[l] == HiddenDelta(outs[l], ws[l], Ds[l + 1], HiddenWidth)
    && |ws[l]| <= |p| && (forall r :: 0 <= r < |ws[l]| ==> |ws[l][r]| <= |Ds[l]|)
    && B[l] == Updated(ws[l], p, Ds[l], lr)
  }

  /** `Backprop` takes the backward step of every hidden layer, from the
      delta of the layer after it; the output layer's delta comes from the
      expected class and its weights are updated against the last hidden
      layer's row. */
  lemma BackpropSteps(ws: seq<Grid>, x: seq<real>, outs: seq<seq<real>>, expected: nat, lr: real, Ds: seq<seq<real>>, B: seq<Grid>)
    requires Shaped(ws) && Outputs(ws, outs) && |x| == InputWidth
    requires Ds == DeltaRows(ws, outs, expected) && B == Backprop(ws, x, outs, expected, lr)
    ensures |Ds| == |ws| && |B| == |ws|
    ensures forall l :: 0 <= l < |ws| ==> |outs[l]| == |Ds[l]| == ColsOf(|ws| - 1, l)
    ensures Ds[|ws| - 1] == OutputDelta(outs[|ws| - 1], expected)
    ensures B[|ws| - 1] == Updated(ws[|ws| - 1], outs[|ws| - 2], Ds[|ws| - 1], lr)
    ensures forall l :: 0 <= l < |ws| - 1 ==> BackwardAt(ws, x, outs, Ds, B, lr, l)
  {
    forall l | 0 <= l < |ws| - 1
      ensures BackwardAt(ws, x, outs, Ds, B, lr, l)
    {
      assert Ds[l] == HiddenDelta(outs[l], ws[l], Ds[l + 1], HiddenWidth);
    }
  }

  /** A learning rate of 0 leaves the whole network as it was. */
  lemma BackpropZeroRate(ws: seq<Grid>, x: seq<real>, outs: seq<seq<real>>, expected: nat)
    requires Shaped(ws) && Outputs(ws, outs) && |x| == InputWidth
    ensures Backprop(ws, x, outs, expected, 0.0) == ws
  {
    forall l | 0 <= l < |ws|
      ensures Backprop(ws, x, outs, expected, 0.0)[l] == ws[l]
    {
      UpdatedZeroRate(ws[l], Fed(x, outs, l), Deltas(ws, outs, expected, l));
    }
  }

  /** One learning step on an output strictly between 0 and 1, from a
      positive row of the last hidden layer and with a positive rate,
      raises every weight into the expected neuron and lowers every weight
      into the others. */
  lemma BackpropTowardsExpected(ws: seq<Grid>, x: seq<real>, outs: seq<seq<real>>, expected: nat, lr: real, r: nat, c: nat)
    requires Shaped(ws) && Outputs(ws, outs) && |x| == InputWidth && lr > 0.0
    requires r < HiddenWidth && c < OutputWidth
    requires outs[|ws| - 2][r] > 0.0 && 0.0 < outs[|ws| - 1][c] < 1.0
    ensures var D := |ws| - 1;
      Backprop(ws, x, outs, expected, lr)[D][r][c] > ws[D][r][c] <==> c + 1 == expected
    ensures var D := |ws| - 1;
      Backprop(ws, x, outs, expected, lr)[D][r][c] < ws[D][r][c] <==> c + 1 != expected
  {
    var D := |ws| - 1;
    var d := Deltas(ws, outs, expected, D);
    assert d == OutputDelta(outs[D], expected);
    OutputDeltaSign(outs[D], expected, c);
    UpdatedDirection(ws[D], Fed(x, outs, D), d, lr, r, c);
  }

  // ---- Random weights ----

  /** The weight `HiddenLayer::InstallRandomWeights` makes of the value `r`
      that rand() returned, (r % 201 - 100) · 0.01: the very weight the
      graph engine draws from r. */
  function Draw(r: nat): (w: real)
    ensures w == GraphSpec.RandomWeight(r)
    ensures -1.0 <= w <= 1.0
  {
    ((r % 201) as real - 100.0) * 0.01
  }

  /** The weight matrix of `R` rows and `C` columns filled row by row from
      the rand() call number `start` on, `rand(i)` being the value of call
      i after `srand`. */
  function RandomGrid(R: nat, C: nat, rand: nat -> nat, start: nat): (g: Grid)
    ensures IsShape(g, R, C)
  {
    seq(R, i requires 0 <= i < R =>
      seq(C, j requires 0 <= j < C => Draw(rand(GraphWeights.RowStart(start, i, C) + j))))
  }

  /** The rand() calls the layers before layer l make, one per cell: the
      first hidden layer has 784 x 140 cells, every later hidden layer
      140 x 140, and the output layer 140 x 26 (784 x 26 with no hidden
      layer). */
  function Drawn(depth: nat, l: nat): nat {
    if l == 0 then 0
    else if depth == 0 then InputWidth * OutputWidth
    else if l <= depth then InputWidth * HiddenWidth + (l - 1) * (HiddenWidth * HiddenWidth)
    else InputWidth * HiddenWidth + (depth - 1) * (HiddenWidth * HiddenWidth) + HiddenWidth * OutputWidth
  }

  /** Layer l draws one call per cell of its matrix, after the calls of
      the layers below it. */
  lemma DrawnStep(depth: nat, l: nat)
    requires l <= depth
    ensures Drawn(depth, l + 1) == GraphWeights.RowStart(Drawn(depth, l), RowsOf(l), ColsOf(depth, l))
  {
  }

  /** The weights after `MatrixNetwork::InstallRandomWeights`: the hidden
      layers in order, then the output layer, each filling its matrix. */
  function RandomNet(depth: nat, rand: nat -> nat): (ws: seq<Grid>)
    requires depth >= 1
    ensures Shaped(ws) && |ws| == depth + 1
  {
    seq(depth + 1, l requires 0 <= l <= depth => RandomGrid(RowsOf(l), ColsOf(depth, l), rand, Drawn(depth, l)))
  }

  /** The numbers of the first rand() calls of the layers below l. */
  function Starts(depth: nat, l: nat): (starts: seq<nat>)
    ensures |starts| == l
  {
    if l == 0 then [] else Starts(depth, l - 1) + [Drawn(depth, l - 1)]
  }

  /** Matrices that fill each layer from the first call `Starts` gives it
      are the random weights. */
  lemma RandomNetFrom(depth: nat, rand: nat -> nat, starts: seq<nat>, ws: seq<Grid>)
    requires depth >= 1 && starts == Starts(depth, depth + 1) && |ws| == depth + 1
    requires forall l :: 0 <= l <= depth ==> ws[l] == RandomGrid(RowsOf(l), ColsOf(depth, l), rand, starts[l])
    ensures ws == RandomNet(depth, rand)
  {
    StartsAt(depth, depth + 1);
    forall l | 0 <= l <= depth
      ensures ws[l] == RandomNet(depth, rand)[l]
    {
      assert starts[l] == Drawn(depth, l);
    }
  }

  /** Entry k of `Starts(depth, n)` is the number of calls below layer k. */
  lemma {:induction false} StartsAt(depth: nat, n: nat)
    ensures forall k {:trigger Starts(depth, n)[k]} :: 0 <= k < n ==> Starts(depth, n)[k] == Drawn(depth, k)
  {
    if n > 0 {
      StartsAt(depth, n - 1);
    }
  }

  /** Every random weight lies in [-1, 1]. */
  lemma RandomNetRange(depth: nat, rand: nat -> nat)
    requires depth >= 1
    ensures forall l, i, j :: 0 <= l <= depth && 0 <= i < RowsOf(l) && 0 <= j < ColsOf(depth, l) ==>
      -1.0 <= RandomNet(depth, rand)[l][i][j] <= 1.0
  {
    var ws := RandomNet(depth, rand);
    forall l | 0 <= l <= depth
      ensures forall i, j :: 0 <= i < RowsOf(l) && 0 <= j < ColsOf(depth, l) ==> -1.0 <= ws[l][i][j] <= 1.0
    {
      RandomGridRange(RowsOf(l), ColsOf(depth, l), rand, Drawn(depth, l));
    }
  }

  /** Every cell of a random matrix is one draw, so lies in [-1, 1]. */
  lemma RandomGridRange(R: nat, C: nat, rand: nat -> nat, start: nat)
    ensures forall i, j :: 0 <= i < R && 0 <= j < C ==> -1.0 <= RandomGrid(R, C, rand, start)[i][j] <= 1.0
  {
    var g := RandomGrid(R, C, rand, start);
    forall i, j | 0 <= i < R && 0 <= j < C
      ensures -1.0 <= g[i][j] <= 1.0
    {
      assert g[i][j] == Draw(rand(GraphWeights.RowStart(start, i, C) + j));
    }
  }

  // ---- Weight file ----

  /** `LoadWeights` after the header: each layer, output layer last, reads
      its block from where the previous one stopped. The first failure
      ends the load, the failing layer keeping the cells stored so far
      and the later layers untouched. */
  function LoadLayers(ws: seq<Grid>, lines: seq<string>, i: nat): (r: (Outcome, seq<Grid>))
    requires i <= |lines|
    ensures GraphWeights.SameDims(r.1, ws)
    ensures r.0.Fail? ==> r.0.error == InvalidArgument || r.0.error == OutOfRange
    decreases |ws|
  {
    if ws == [] then (Pass, [])
    else
      var (o, g) := ApplyGrid(ws[0], BlockPuts(lines, i, 0, 0, 0));
      if o.Fail? then (o, [g] + ws[1..])
      else
        var (o', rest) := LoadLayers(ws[1..], lines, BlockEnd(lines, i));
        (o', [g] + rest)
  }

  /** `MatrixNetwork::LoadWeights` on an opened file: the header and the
      depth line are checked first, then the layers are read. */
  function LoadFile(ws: seq<Grid>, lines: seq<string>): (r: (Outcome, seq<Grid>))
    requires |ws| >= 1
    ensures GraphWeights.SameDims(r.1, ws)
    ensures r.0.Fail? ==> r.0.error == InvalidArgument || r.0.error == OutOfRange
  {
    var h := CheckHeader(lines, |ws| - 1);
    if h.Fail? then (h, ws) else LoadLayers(ws, lines, 2)
  }

  /** Each weight of a block as it comes back from its saved token. */
  function RereadGrid(g: Grid): Grid {
    seq(|g|, r requires 0 <= r < |g| => seq(|g[r]|, c requires 0 <= c < |g[r]| => Reread(g[r][c])))
  }

  /** Each weight of every layer as it comes back from its saved token. */
  function RereadNet(ws: seq<Grid>): seq<Grid> {
    seq(|ws|, l requires 0 <= l < |ws| => RereadGrid(ws[l]))
  }

  /** Rereading a block of `R` rows of `C` cells. */
  lemma RereadGridShape(g: Grid, R: nat, C: nat)
    requires IsShape(g, R, C)
    ensures RereadGrid(g) == seq(R, r requires 0 <= r < R => seq(C, c requires 0 <= c < C => Reread(g[r][c])))
  {
    var a := RereadGrid(g);
    var b := seq(R, r requires 0 <= r < R => seq(C, c requires 0 <= c < C => Reread(g[r][c])));
    forall r | 0 <= r < R
      ensures a[r] == b[r]
    {
    }
  }

  /** A block of full rows has one line per row. */
  lemma {:induction false} GridLinesLength(g: Grid)
    requires Full(g)
    ensures |GridLines(g)| == |g|
    decreases |g|
  {
    if g != [] {
      GridLinesLength(g[1..]);
    }
  }

  /** `g0` is a matrix of the shape of `g`. */
  ghost predicate Alike(g0: Grid, g: Grid) {
    IsMatrix(g) && IsShape(g0, |g|, |g[0]|)
  }

  /** The layer reading a saved block from line i gets the block's cells
      back and stops just after the sentinel. */
  lemma BlockOfBody(g0: Grid, g: Grid, lines: seq<string>, i: nat, rest: seq<Grid>)
    requires Readable() && Alike(g0, g) && i <= |lines|
    requires lines[i..] == GridLines(g) + [Sentinel] + Body(rest)
    ensures ApplyGrid(g0, BlockPuts(lines, i, 0, 0, 0)) == (Pass, RereadGrid(g))
    ensures BlockEnd(lines, i) == i + |g| + 1 <= |lines|
    ensures lines[i + |g| + 1..] == Body(rest)
  {
    var R, C := |g|, |g[0]|;
    GridLinesLength(g);
    assert lines[i..i + R] == GridLines(g);
    assert lines[i + R] == Sentinel;
    BlockRead(lines, i, g, 0, 0);
    GridRoundTrip(g0, g, 0, R, C);
    RereadGridShape(g, R, C);
    assert lines[i + R + 1..] == lines[i..][R + 1..];
  }

  /** A layer that loads its block without error hands over to the next
      layer just after the block. */
  lemma LoadLayersStep(ws: seq<Grid>, lines: seq<string>, i: nat)
    requires i <= |lines| && ws != [] && ApplyGrid(ws[0], BlockPuts(lines, i, 0, 0, 0)).0 == Pass
    ensures var rest := LoadLayers(ws[1..], lines, BlockEnd(lines, i));
      LoadLayers(ws, lines, i) == (rest.0, [ApplyGrid(ws[0], BlockPuts(lines, i, 0, 0, 0)).1] + rest.1)
  {
  }

  /** The layers from l on, reading from line i, load to the tail of `R`. */
  ghost predicate LoadsTail(W0: seq<Grid>, lines: seq<string>, i: nat, l: nat, R: (Outcome, seq<Grid>)) {
    && i <= |lines| && l <= |W0| && l <= |R.1|
    && LoadLayers(W0[l..], lines, i) == (R.0, R.1[l..])
  }

  /** Layer l loading its block from line i, when the layers from l on
      load to the tail of `R`: it takes weights `R.1[l]`; a failure is the
      outcome of the whole load and leaves the later layers as they were;
      otherwise the later layers load the rest from just after the block. */
  lemma LoadLayersAt(W0: seq<Grid>, lines: seq<string>, i: nat, l: nat, R: (Outcome, seq<Grid>))
    requires i <= |lines| && l < |W0| == |R.1| && LoadsTail(W0, lines, i, l, R)
    ensures var (o, g) := ApplyGrid(W0[l], BlockPuts(lines, i, 0, 0, 0));
      && g == R.1[l]
      && (o.Fail? ==> o == R.0 && forall k :: l < k < |W0| ==> R.1[k] == W0[k])
      && (o.Pass? ==> LoadsTail(W0, lines, BlockEnd(lines, i), l + 1, R))
  {
    assert W0[l..][0] == W0[l] && W0[l..][1..] == W0[l + 1..];
    assert R.1[l..][0] == R.1[l] && R.1[l..][1..] == R.1[l + 1..];
    var (o, g) := ApplyGrid(W0[l], BlockPuts(lines, i, 0, 0, 0));
    if o.Fail? {
      forall k | l < k < |W0|
        ensures R.1[k] == W0[k]
      {
        assert R.1[k] == R.1[l..][k - l] && W0[k] == W0[l..][k - l];
      }
    }
  }

  /** The lines from i on are the saved blocks of `ws`: the layers read
      them back, every cell holding its saved weight reread. */
  lemma {:induction false} LoadLayersRead(ws0: seq<Grid>, ws: seq<Grid>, lines: seq<string>, i: nat)
    requires Readable() && |ws0| == |ws| && i <= |lines|
    requires forall l :: 0 <= l < |ws| ==> Alike(ws0[l], ws[l])
    requires lines[i..] == Body(ws)
    ensures LoadLayers(ws0, lines, i) == (Pass, RereadNet(ws))
    decreases |ws|
  {
    if ws != [] {
      assert Body(ws) == GridLines(ws[0]) + [Sentinel] + Body(ws[1..]);
      BlockOfBody(ws0[0], ws[0], lines, i, ws[1..]);
      var next := i + |ws[0]| + 1;
      LoadLayersRead(ws0[1..], ws[1..], lines, next);
      LoadLayersStep(ws0, lines, i);
      assert RereadNet(ws) == [RereadGrid(ws[0])] + RereadNet(ws[1..]);
    }
  }

  /** Round trip of the matrix engine: a file saved from the weights `ws`
      loads without error into a network of the same depth, and every
      weight comes back as its saved token reread. */
  lemma SaveLoadRoundTrip(ws0: seq<Grid>, ws: seq<Grid>)
    requires Readable() && Shaped(ws0) && Shaped(ws) && |ws0| == |ws|
    ensures LoadFile(ws0, FileOf(|ws| - 1, ws)) == (Pass, RereadNet(ws))
  {
    var lines := FileOf(|ws| - 1, ws);
    HeaderOfFile(|ws| - 1, ws, |ws| - 1);
    assert lines[2..] == Body(ws);
    assert forall l :: 0 <= l < |ws| ==> Alike(ws0[l], ws[l]);
    LoadLayersRead(ws0, ws, lines, 2);
  }

  /** A file saved by a network of one depth is refused by a network of
      another depth, which keeps its weights. */
  lemma LoadOtherDepth(ws0: seq<Grid>, ws: seq<Grid>)
    requires |ws0| >= 1 && |ws| >= 1 && |ws0| != |ws|
    ensures LoadFile(ws0, FileOf(|ws| - 1, ws)) == (Fail(InvalidArgument), ws0)
  {
    HeaderOfFile(|ws| - 1, ws, |ws0| - 1);
  }

  // ---- One weight file, two engines ----

  /** Graph-engine weights laid out like the weight matrices of this
      engine: layer l has one neuron per column and every neuron one
      weight per row, so weight k of neuron j sits where cell (k, j) does. */
  ghost predicate GraphLike(W: GraphWeights.Net) {
    |W| >= 2 && forall l :: 0 <= l < |W| ==>
      |W[l]| == ColsOf(|W| - 1, l) && forall j :: 0 <= j < |W[l]| ==> |W[l][j]| == RowsOf(l)
  }

  /** The number of inputs of each of `n` layers. */
  function InputsOf(n: nat): (ins: seq<nat>)
    ensures |ins| == n && forall l :: 0 <= l < n ==> ins[l] == RowsOf(l)
  {
    seq(n, l requires 0 <= l < n => RowsOf(l))
  }

  /** The graph engine's weights holding the matrices `ws`: weight k of
      neuron j of layer l is cell (k, j) of matrix l. */
  function Transposed(ws: seq<Grid>): (W: GraphWeights.Net)
    requires Shaped(ws)
    ensures GraphLike(W) && |W| == |ws|
  {
    seq(|ws|, l requires 0 <= l < |ws| =>
      seq(ColsOf(|ws| - 1, l), j requires 0 <= j < ColsOf(|ws| - 1, l) =>
        seq(RowsOf(l), k requires 0 <= k < RowsOf(l) => ws[l][k][j])))
  }

  /** What the graph engine saves from graph-like weights are matrices
      of this engine's shapes. */
  lemma SavedShaped(W: GraphWeights.Net)
    requires GraphLike(W)
    ensures Shaped(GraphWeights.Saved(W, InputsOf(|W|)))
  {
    var gs := GraphWeights.Saved(W, InputsOf(|W|));
    forall l | 0 <= l < |gs|
      ensures IsShape(gs[l], RowsOf(l), ColsOf(|gs| - 1, l))
    {
    }
  }

  /** The graph engine saves the transposed matrices `ws` as `ws` itself. */
  lemma SavedTransposed(ws: seq<Grid>)
    requires Shaped(ws)
    ensures GraphWeights.Saved(Transposed(ws), InputsOf(|ws|)) == ws
  {
    var gs := GraphWeights.Saved(Transposed(ws), InputsOf(|ws|));
    forall l | 0 <= l < |ws|
      ensures gs[l] == ws[l]
    {
      forall k | 0 <= k < RowsOf(l)
        ensures gs[l][k] == ws[l][k]
      {
      }
    }
  }

  /** `LoadWeightsFromFile` hands one file to both engines of a slot. A
      file the graph engine saved loads into this engine of the same
      depth without error, cell (k, j) of layer l holding weight k of
      neuron j, reread. */
  lemma GraphFileIntoMatrix(ws0: seq<Grid>, W: GraphWeights.Net)
    requires Readable() && Shaped(ws0) && GraphLike(W) && |ws0| == |W|
    ensures var r := LoadFile(ws0, FileOf(|W| - 1, GraphWeights.Saved(W, InputsOf(|W|))));
      && r.0 == Pass && |r.1| == |W|
      && forall l, k, j :: 0 <= l < |W| && 0 <= k < RowsOf(l) && 0 <= j < |W[l]| ==>
           |r.1[l]| == RowsOf(l) && |r.1[l][k]| == |W[l]| && r.1[l][k][j] == Reread(W[l][j][k])
  {
    var gs := GraphWeights.Saved(W, InputsOf(|W|));
    SavedShaped(W);
    SaveLoadRoundTrip(ws0, gs);
  }

  /** The other direction: a file this engine saved loads into the graph
      engine of the same depth without error, weight k of neuron j of
      layer l holding cell (k, j), reread. */
  lemma MatrixFileIntoGraph(W0: GraphWeights.Net, ws: seq<Grid>)
    requires Readable() && Shaped(ws) && GraphLike(W0) && |W0| == |ws|
    ensures var r := GraphWeights.ApplyNet(W0, GraphPuts(FileOf(|ws| - 1, ws), 2, 0, 0, 0));
      && r.0 == Pass && GraphLike(r.1) && |r.1| == |ws|
      && forall l, j, k :: 0 <= l < |ws| && 0 <= j < ColsOf(|ws| - 1, l) && 0 <= k < RowsOf(l) ==>
           r.1[l][j][k] == Reread(ws[l][k][j])
  {
    var T := Transposed(ws);
    SavedTransposed(ws);
    GraphWeights.NetRoundTrip(W0, T, |ws| - 1, InputsOf(|ws|));
    RereadTransposed(ws);
  }

  /** The transposed matrices, every weight reread. */
  lemma RereadTransposed(ws: seq<Grid>)
    requires Shaped(ws)
    ensures var R := GraphWeights.RereadNet(Transposed(ws));
      && GraphLike(R) && |R| == |ws|
      && forall l, j, k :: 0 <= l < |ws| && 0 <= j < ColsOf(|ws| - 1, l) && 0 <= k < RowsOf(l) ==>
           R[l][j][k] == Reread(ws[l][k][j])
  {
  }
}
