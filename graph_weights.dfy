/** What the graph engine's `SaveWeights` writes, what `LoadWeights` stores
    (graphNetwork.cpp:219-294) and what `InstallRandomWeights` draws
    (graphNetwork.cpp:296-305), on the weights of the network as values:
    `W[l][j][k]` is weight k of neuron j of layer l, layers counted from
    the first hidden layer (0) to the output layer. */
module GraphWeights {
  import opened Wrappers
  import opened Matrix
  import opened Text
  import opened WeightFile
  import opened GraphSpec

  type Net = seq<seq<seq<real>>>

  /** The block saved for a layer with the neuron weights `ws`, each
      reading `inputs` neurons: row k holds weight k of every neuron. */
  function SavedGrid(ws: seq<seq<real>>, inputs: nat): (g: Grid)
    requires forall j :: 0 <= j < |ws| ==> inputs <= |ws[j]|
    ensures IsShape(g, inputs, |ws|)
  {
    seq(inputs, k requires 0 <= k < inputs => seq(|ws|, j requires 0 <= j < |ws| => ws[j][k]))
  }

  /** The blocks saved for every layer, layer l reading `ins[l]` neurons. */
  function Saved(W: Net, ins: seq<nat>): (gs: seq<Grid>)
    requires |ins| == |W|
    requires forall l, j :: 0 <= l < |W| && 0 <= j < |W[l]| ==> ins[l] <= |W[l][j]|
    ensures |gs| == |W|
  {
    seq(|W|, l requires 0 <= l < |W| => SavedGrid(W[l], ins[l]))
  }

  /** Every weight of `W`, reread from its saved token. */
  function RereadNet(W: Net): (R: Net)
    ensures |R| == |W|
  {
    seq(|W|, l requires 0 <= l < |W| =>
      seq(|W[l]|, j requires 0 <= j < |W[l]| =>
        seq(|W[l][j]|, k requires 0 <= k < |W[l][j]| => Reread(W[l][j][k]))))
  }

  /** `get_neuron(layer, col)->weight(row) = v`: out_of_range past the
      output layer. An index past the layer's neurons or past the neuron's
      weights is an unchecked vector access in the C++ code, undefined
      behaviour, and stores nothing here. */
  function SetCell(W: Net, layer: nat, col: nat, row: nat, v: real): (r: (Outcome, Net))
    ensures r.0.Fail? <==> layer >= |W|
    ensures r.0.Fail? ==> r.0.error == OutOfRange && r.1 == W
    ensures |r.1| == |W| && forall l :: 0 <= l < |W| ==>
      |r.1[l]| == |W[l]| && forall j :: 0 <= j < |W[l]| ==> |r.1[l][j]| == |W[l][j]|
    ensures forall l, j, k :: 0 <= l < |W| && 0 <= j < |W[l]| && 0 <= k < |W[l][j]| ==>
      r.1[l][j][k] == if (l, j, k) == (layer, col, row) then v else W[l][j][k]
  {
    if layer >= |W| then (Fail(OutOfRange), W)
    else if col < |W[layer]| && row < |W[layer][col]| then
      (Pass, W[layer := W[layer][col := W[layer][col][row := v]]])
    else (Pass, W)
  }

  /** The graph loader storing the puts `ps` into the weights `W`: each
      token goes through `stod` before the neuron is looked up, and the
      first failure ends the load with the weights stored so far. */
  function ApplyNet(W: Net, ps: seq<Put>): (r: (Outcome, Net))
    ensures r.0.Fail? ==> r.0.error == InvalidArgument || r.0.error == OutOfRange
    decreases |ps|
  {
    if ps == [] then (Pass, W)
    else
      var p := ps[0];
      match Stod(p.token)
      case Failure(e) => (Fail(e), W)
      case Success(v) =>
        var (o, W') := SetCell(W, p.layer, p.col, p.row, v);
        if o.Fail? then (o, W) else ApplyNet(W', ps[1..])
  }

  /** `R` has as many layers as `W`, as many neurons in each layer and as
      many weights in each neuron. */
  ghost predicate SameDims(R: Net, W: Net)
  {
    |R| == |W| && forall l :: 0 <= l < |W| ==>
      |R[l]| == |W[l]| && forall j :: 0 <= j < |W[l]| ==> |R[l][j]| == |W[l][j]|
  }

  /** Storing puts keeps the number of layers, of neurons per layer and
      of weights per neuron. */
  lemma {:induction false} ApplyNetShape(W: Net, ps: seq<Put>)
    ensures SameDims(ApplyNet(W, ps).1, W)
    decreases |ps|
  {
    if ps != [] {
      match Stod(ps[0].token)
      case Failure(e) =>
      case Success(v) =>
        var (o, W') := SetCell(W, ps[0].layer, ps[0].col, ps[0].row, v);
        if o.Pass? {
          ApplyNetShape(W', ps[1..]);
        }
    }
  }

  /** Storing `a + b` is storing `a`, then, unless that failed, `b`. */
  lemma {:induction false} ApplyNetConcat(W: Net, a: seq<Put>, b: seq<Put>)
    ensures ApplyNet(W, a + b) ==
      if ApplyNet(W, a).0.Fail? then ApplyNet(W, a) else ApplyNet(ApplyNet(W, a).1, b)
    decreases |a|
  {
    if a == [] {
      assert a + b == b;
    } else {
      assert (a + b)[0] == a[0] && (a + b)[1..] == a[1..] + b;
      match Stod(a[0].token)
      case Failure(e) =>
      case Success(v) =>
        var (o, W') := SetCell(W, a[0].layer, a[0].col, a[0].row, v);
        if o.Pass? {
          ApplyNetConcat(W', a[1..], b);
        }
    }
  }

  /** Storing the tokens of a line from token k on, when token k converts
      to `v` and storing it gives `(o, W1)`. */
  lemma TokenApplies(W: Net, es: seq<Emit>, k: nat, layer: nat, row: nat, col: nat,
                     v: real, o: Outcome, W1: Net, next: nat)
    requires k < |es| && Stod(es[k].token) == Success(v) && (o, W1) == SetCell(W, layer, col, row, v)
    requires next == if es[k].AtSep? then col + 1 else 0
    ensures ApplyNet(W, LinePuts(es[k..], layer, row, col)) ==
      if o.Fail? then (o, W1) else ApplyNet(W1, LinePuts(es[k + 1..], layer, row, next))
    ensures ColAfter(es[k..], col) == ColAfter(es[k + 1..], next)
  {
    assert es[k..][0] == es[k] && es[k..][1..] == es[k + 1..];
  }

  /** The column after token k follows from the column token k + 1 starts
      at. */
  lemma TokenNext(es: seq<Emit>, k: nat, col: nat, next: nat)
    requires k < |es| && next == if es[k].AtSep? then col + 1 else 0
    ensures ColAfter(es[k..], col) == ColAfter(es[k + 1..], next)
  {
    assert es[k..][0] == es[k] && es[k..][1..] == es[k + 1..];
  }

  /** Storing the tokens of a line from token k on fails at once when
      token k does not convert. */
  lemma TokenFails(W: Net, es: seq<Emit>, k: nat, layer: nat, row: nat, col: nat, e: Error)
    requires k < |es| && Stod(es[k].token) == Failure(e)
    ensures ApplyNet(W, LinePuts(es[k..], layer, row, col)) == (Fail(e), W)
  {
    assert es[k..][0] == es[k];
  }

  /** One turn of the graph loader: storing the puts from line i is
      storing those of the line the turn reads and, unless that failed,
      those from where the turn leaves off. */
  lemma TurnApplies(Ws: Net, lines: seq<string>, i: nat, layer: nat, row: nat, col: nat,
                    o: Outcome, W1: Net, i': nat, layer': nat, row': nat, col': nat)
    requires i < |lines|
    requires var t := NextRead(lines, i, layer, row, col);
      var es := Scan(t.line, ' ');
      && i' == t.next && layer' == t.layer && row' == t.row + 1
      && (o, W1) == ApplyNet(Ws, LinePuts(es, t.layer, t.row, t.col))
      && (o.Pass? ==> col' == ColAfter(es, t.col))
    ensures ApplyNet(Ws, GraphPuts(lines, i, layer, row, col)) ==
      if o.Fail? then (o, W1) else ApplyNet(W1, GraphPuts(lines, i', layer', row', col'))
  {
    var t := NextRead(lines, i, layer, row, col);
    var es := Scan(t.line, ' ');
    GraphPutsStep(lines, i, layer, row, col);
    ApplyNetConcat(Ws, LinePuts(es, t.layer, t.row, t.col), GraphPuts(lines, t.next, t.layer, t.row + 1, ColAfter(es, t.col)));
  }

  /** Puts that all convert and all address a weight of `W` succeed, and
      each weight ends up holding its last write: weight k of neuron j is
      row k, column j of its layer's block. */
  lemma {:induction false} ApplyNetCells(W: Net, ps: seq<Put>)
    requires forall i :: 0 <= i < |ps| ==> Stod(ps[i].token).Success?
    requires forall i :: 0 <= i < |ps| ==>
      ps[i].layer < |W| && ps[i].col < |W[ps[i].layer]| && ps[i].row < |W[ps[i].layer][ps[i].col]|
    ensures ApplyNet(W, ps).0 == Pass && SameDims(ApplyNet(W, ps).1, W)
    ensures forall l, j, k :: 0 <= l < |W| && 0 <= j < |W[l]| && 0 <= k < |W[l][j]| ==>
      ApplyNet(W, ps).1[l][j][k] == match LastWrite(ps, l, k, j) case Some(t) => Parse(t) case None => W[l][j][k]
    decreases |ps|
  {
    ApplyNetShape(W, ps);
    if ps != [] {
      var p := ps[0];
      var W' := SetCell(W, p.layer, p.col, p.row, Parse(p.token)).1;
      ApplyNetCells(W', ps[1..]);
    }
  }

  /** Every put of saved layers carries a converting token for a cell of
      its layer's block. */
  lemma {:induction false} BodyPutAt(gs: seq<Grid>, layer: nat, i: nat)
    requires Readable() && i < |BodyPuts(gs, layer)|
    ensures var p := BodyPuts(gs, layer)[i];
      layer <= p.layer < layer + |gs| && p.row < |gs[p.layer - layer]| &&
      p.col < |gs[p.layer - layer][p.row]| && p.token == Fmt(gs[p.layer - layer][p.row][p.col])
    ensures Stod(BodyPuts(gs, layer)[i].token).Success?
    decreases |gs|
  {
    var ps := BodyPuts(gs, layer);
    var head := GridPuts(gs[0], layer, 0);
    assert ps == head + BodyPuts(gs[1..], layer + 1);
    if i >= |head| {
      BodyPutAt(gs[1..], layer + 1, i - |head|);
    } else {
      GridPutAt(gs[0], layer, 0, i);
    }
  }

  /** The shape the round trip needs: `depth` + 1 layers, each with at
      least one neuron, every neuron of layer l with `ins[l]` > 0 weights
      in both `W` and `W0`. */
  ghost predicate SameShape(W0: Net, W: Net, depth: nat, ins: seq<nat>) {
    && |W| == |W0| == |ins| == depth + 1
    && (forall l :: 0 <= l <= depth ==> W[l] != [] && ins[l] > 0 && |W0[l]| == |W[l]|)
    && (forall l, j :: 0 <= l <= depth && 0 <= j < |W[l]| ==> |W[l][j]| == ins[l] && |W0[l][j]| == ins[l])
  }

  /** Every saved block has at least one row, and every row a cell. */
  lemma SavedFull(W0: Net, W: Net, depth: nat, ins: seq<nat>)
    requires SameShape(W0, W, depth, ins)
    ensures forall m :: 0 <= m < |Saved(W, ins)| ==> Full(Saved(W, ins)[m]) && Saved(W, ins)[m] != []
  {
    var gs := Saved(W, ins);
    forall m | 0 <= m < |gs|
      ensures Full(gs[m]) && gs[m] != []
    {
      assert gs[m] == SavedGrid(W[m], ins[m]);
    }
  }

  /** Every put of the saved layers converts and addresses a weight of `W0`. */
  lemma SavedPutsFit(W0: Net, W: Net, depth: nat, ins: seq<nat>)
    requires Readable() && SameShape(W0, W, depth, ins)
    ensures var ps := BodyPuts(Saved(W, ins), 0);
      forall i :: 0 <= i < |ps| ==>
        Stod(ps[i].token).Success? && ps[i].layer < |W0| && ps[i].col < |W0[ps[i].layer]| && ps[i].row < |W0[ps[i].layer][ps[i].col]|
  {
    var gs := Saved(W, ins);
    var ps := BodyPuts(gs, 0);
    forall i | 0 <= i < |ps|
      ensures Stod(ps[i].token).Success?
      ensures ps[i].layer < |W0| && ps[i].col < |W0[ps[i].layer]| && ps[i].row < |W0[ps[i].layer][ps[i].col]|
    {
      BodyPutAt(gs, 0, i);
      var l := ps[i].layer;
      assert gs[l] == SavedGrid(W[l], ins[l]);
    }
  }

  /** The last write of the saved layers to weight k of neuron j of layer
      l carries that weight's token. */
  lemma SavedLastWrite(W0: Net, W: Net, depth: nat, ins: seq<nat>, l: nat, j: nat, k: nat)
    requires SameShape(W0, W, depth, ins) && l < |W| && j < |W[l]| && k < |W[l][j]|
    ensures LastWrite(BodyPuts(Saved(W, ins), 0), l, k, j) == Some(Fmt(W[l][j][k]))
  {
    var gs := Saved(W, ins);
    LastWriteBody(gs, 0, l, k, j);
    assert gs[l] == SavedGrid(W[l], ins[l]);
  }

  /** Weights holding the last writes of the saved layers are the saved
      weights, reread. */
  lemma SavedCells(W0: Net, W: Net, depth: nat, ins: seq<nat>, res: Net)
    requires SameShape(W0, W, depth, ins)
    requires |res| == |W0| && forall l :: 0 <= l < |W0| ==>
      |res[l]| == |W0[l]| && forall j :: 0 <= j < |W0[l]| ==> |res[l][j]| == |W0[l][j]|
    requires forall l, j, k :: 0 <= l < |W0| && 0 <= j < |W0[l]| && 0 <= k < |W0[l][j]| ==>
      res[l][j][k] == match LastWrite(BodyPuts(Saved(W, ins), 0), l, k, j) case Some(t) => Parse(t) case None => W0[l][j][k]
    ensures res == RereadNet(W)
  {
    var R := RereadNet(W);
    forall l | 0 <= l < |W|
      ensures res[l] == R[l]
    {
      forall j | 0 <= j < |W[l]|
        ensures res[l][j] == R[l][j]
      {
        forall k | 0 <= k < |W[l][j]|
          ensures res[l][j][k] == Reread(W[l][j][k])
        {
          SavedLastWrite(W0, W, depth, ins, l, j, k);
        }
      }
    }
  }

  /** Round trip of the graph engine: the file saved from the weights `W`
      of a network with `depth` hidden layers, every layer holding at
      least one neuron that reads at least one neuron, loads into weights
      `W0` of the same shape as `W` without error, and every weight then
      holds the saved one, reread. */
  lemma NetRoundTrip(W0: Net, W: Net, depth: nat, ins: seq<nat>)
    requires Readable() && SameShape(W0, W, depth, ins)
    ensures ApplyNet(W0, GraphPuts(FileOf(depth, Saved(W, ins)), 2, 0, 0, 0)) == (Pass, RereadNet(W))
  {
    var gs := Saved(W, ins);
    SavedFull(W0, W, depth, ins);
    FileRead(depth, gs);
    var ps := BodyPuts(gs, 0);
    SavedPutsFit(W0, W, depth, ins);
    ApplyNetCells(W0, ps);
    ApplyNetShape(W0, ps);
    SavedCells(W0, W, depth, ins, ApplyNet(W0, ps).1);
  }

  // ---- InstallRandomWeights ----

  /** Weights `ws` of one neuron after its innermost loop: weight k, for k
      below `inputs`, takes `rand()` number `start + k`. */
  function RandomRow(ws: seq<real>, inputs: nat, rand: nat -> nat, start: nat): (r: seq<real>)
  {
    seq(|ws|, k requires 0 <= k < |ws| => if k < inputs then RandomWeight(rand(start + k)) else ws[k])
  }

  /** The first `rand()` call of neuron j of a layer whose calls start at
      `start`, each neuron making `inputs` of them. */
  function RowStart(start: nat, j: nat, inputs: nat): nat {
    start + j * inputs
  }

  /** How many `rand()` calls the layers before layer l make: each of its
      neurons draws one weight per input. */
  function Drawn(W: Net, ins: seq<nat>, l: nat): nat
    requires l <= |W| && |ins| == |W|
  {
    if l == 0 then 0 else RowStart(Drawn(W, ins, l - 1), |W[l - 1]|, ins[l - 1])
  }

  /** The weights of one layer after its loop: neuron j draws from `rand()`
      number `RowStart(start, j, inputs)` on. */
  function RandomLayer(ws: seq<seq<real>>, inputs: nat, rand: nat -> nat, start: nat): (r: seq<seq<real>>)
  {
    seq(|ws|, j requires 0 <= j < |ws| => RandomRow(ws[j], inputs, rand, RowStart(start, j, inputs)))
  }

  /** The weights after `InstallRandomWeights`, layer l reading `ins[l]`
      neurons and `rand(i)` being the value of the i-th `rand()` call after
      `srand`. */
  function RandomNet(W: Net, ins: seq<nat>, rand: nat -> nat): (r: Net)
    requires |ins| == |W|
  {
    seq(|W|, l requires 0 <= l < |W| => RandomLayer(W[l], ins[l], rand, Drawn(W, ins, l)))
  }

  /** What the turns i .. |X| - 1 of the outer loop of
      `InstallRandomWeights` make of the weights `X`, turn i drawing from
      `rand()` call number `calls` on. */
  ghost function RandomFrom(X: Net, ins: seq<nat>, rand: nat -> nat, i: nat, calls: nat): Net
    requires |ins| == |X|
    decreases |X| - i
  {
    if i >= |X| then X
    else RandomFrom(X[i := RandomLayer(X[i], ins[i], rand, calls)], ins, rand, i + 1, RowStart(calls, |X[i]|, ins[i]))
  }

  /** When `X` holds the weights `Ws` with their first i layers drawn, the
      remaining turns complete `RandomNet(Ws, ins, rand)`. */
  lemma {:induction false} RandomFromRest(X: Net, Ws: Net, ins: seq<nat>, rand: nat -> nat, i: nat)
    requires |ins| == |Ws| == |X| && i <= |Ws|
    requires forall l :: 0 <= l < |Ws| ==>
      X[l] == if l < i then RandomLayer(Ws[l], ins[l], rand, Drawn(Ws, ins, l)) else Ws[l]
    ensures RandomFrom(X, ins, rand, i, Drawn(Ws, ins, i)) == RandomNet(Ws, ins, rand)
    decreases |Ws| - i
  {
    if i < |Ws| {
      var X' := X[i := RandomLayer(X[i], ins[i], rand, Drawn(Ws, ins, i))];
      assert Drawn(Ws, ins, i + 1) == RowStart(Drawn(Ws, ins, i), |X[i]|, ins[i]);
      RandomFromRest(X', Ws, ins, rand, i + 1);
    }
  }

  /** All the turns of the outer loop make `RandomNet(Ws, ins, rand)`. */
  lemma RandomFromStart(Ws: Net, ins: seq<nat>, rand: nat -> nat)
    requires |ins| == |Ws|
    ensures RandomFrom(Ws, ins, rand, 0, 0) == RandomNet(Ws, ins, rand)
  {
    RandomFromRest(Ws, Ws, ins, rand, 0);
  }

  /** Every weight the loops reach is drawn from its own `rand()` call: the
      call numbers of two different weights differ, and all of them lie
      below the total number of calls. */
  lemma {:induction false} DrawsDistinct(W: Net, ins: seq<nat>, l: nat, j: nat, k: nat, l': nat, j': nat, k': nat)
    requires |ins| == |W| && l < |W| && l' < |W|
    requires j < |W[l]| && k < ins[l] && j' < |W[l']| && k' < ins[l']
    requires (l, j, k) != (l', j', k')
    ensures RowStart(Drawn(W, ins, l), j, ins[l]) + k != RowStart(Drawn(W, ins, l'), j', ins[l']) + k'
    ensures RowStart(Drawn(W, ins, l), j, ins[l]) + k < Drawn(W, ins, |W|)
  {
    DrawnBounds(W, ins, l, j, k);
    DrawnBounds(W, ins, l', j', k');
    if l < l' {
      DrawnGrows(W, ins, l + 1, l');
    } else if l' < l {
      DrawnGrows(W, ins, l' + 1, l);
    } else if j < j' {
      RowsBefore(j, j', ins[l]);
    } else if j' < j {
      RowsBefore(j', j, ins[l]);
    }
  }

  /** The calls of weight (l, j, k) lie inside layer l's share. */
  lemma DrawnBounds(W: Net, ins: seq<nat>, l: nat, j: nat, k: nat)
    requires |ins| == |W| && l < |W| && j < |W[l]| && k < ins[l]
    ensures Drawn(W, ins, l) <= RowStart(Drawn(W, ins, l), j, ins[l]) + k < Drawn(W, ins, l + 1)
    ensures Drawn(W, ins, l + 1) <= Drawn(W, ins, |W|)
  {
    var m, n := |W[l]|, ins[l];
    assert Drawn(W, ins, l + 1) == RowStart(Drawn(W, ins, l), m, n);
    RowsBefore(j, m, n);
    DrawnGrows(W, ins, l + 1, |W|);
  }

  /** Rows 0 .. j of `n` entries each fit in `m > j` rows. */
  lemma RowsBefore(j: nat, m: nat, n: nat)
    requires j < m
    ensures 0 <= j * n && j * n + n <= m * n
  {
    assert (j + 1) * n <= m * n;
  }

  /** Later layers start no earlier. */
  lemma {:induction false} DrawnGrows(W: Net, ins: seq<nat>, a: nat, b: nat)
    requires a <= b <= |W| && |ins| == |W|
    ensures Drawn(W, ins, a) <= Drawn(W, ins, b)
    decreases b - a
  {
    if a < b {
      DrawnGrows(W, ins, a, b - 1);
    }
  }

  /** Weight k of neuron j of layer l after `InstallRandomWeights`: the
      value of its own `rand()` call when k is below the layer's input
      count, the old weight otherwise. */
  lemma RandomCell(W: Net, ins: seq<nat>, rand: nat -> nat, l: nat, j: nat, k: nat)
    requires |ins| == |W| && l < |W| && j < |W[l]| && k < |W[l][j]|
    ensures var R := RandomNet(W, ins, rand);
      |R| == |W| && |R[l]| == |W[l]| && |R[l][j]| == |W[l][j]| &&
      R[l][j][k] == if k < ins[l] then RandomWeight(rand(RowStart(Drawn(W, ins, l), j, ins[l]) + k)) else W[l][j][k]
  {
    var R := RandomNet(W, ins, rand);
    assert R[l] == RandomLayer(W[l], ins[l], rand, Drawn(W, ins, l));
    assert R[l][j] == RandomRow(W[l][j], ins[l], rand, RowStart(Drawn(W, ins, l), j, ins[l]));
  }

  /** `InstallRandomWeights` keeps the shape of the weights, sets every
      weight below its neuron's input count to a value in [-1, 1] and leaves
      the weights past it as they were. */
  lemma RandomNetRange(W: Net, ins: seq<nat>, rand: nat -> nat)
    requires |ins| == |W|
    ensures SameDims(RandomNet(W, ins, rand), W)
    ensures forall l, j, k :: 0 <= l < |W| && 0 <= j < |W[l]| && 0 <= k < |W[l][j]| ==>
      var x := RandomNet(W, ins, rand)[l][j][k];
      if k < ins[l] then -1.0 <= x <= 1.0 else x == W[l][j][k]
  {
    var R := RandomNet(W, ins, rand);
    forall l, j, k | 0 <= l < |W| && 0 <= j < |W[l]| && 0 <= k < |W[l][j]|
      ensures |R[l]| == |W[l]| && |R[l][j]| == |W[l][j]|
      ensures if k < ins[l] then -1.0 <= R[l][j][k] <= 1.0 else R[l][j][k] == W[l][j][k]
    {
      RandomCell(W, ins, rand, l, j, k);
    }
    forall l, j | 0 <= l < |W| && 0 <= j < |W[l]|
      ensures |R[l]| == |W[l]| && |R[l][j]| == |W[l][j]|
    {
      assert R[l] == RandomLayer(W[l], ins[l], rand, Drawn(W, ins, l));
    }
  }
}
