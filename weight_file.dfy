/** The weight file both engines write and read (graphNetwork.cpp:219-294,
    matrixNetwork.cpp:55-108 and 213-261).

    A weight file is a header line, a line giving the number of hidden
    layers, then one block per weight layer (the hidden layers in order,
    then the output layer): one line per row of the layer's grid with its
    cells separated by spaces, and a sentinel line closing the block. In
    both engines row r of a layer's grid is input r and column c is
    neuron c, which is why one file loads into either engine.

    Writing a weight as decimal text (`<<`) and reading a token back with
    `std::stod` are not modelled: `Fmt` and `Parse` stand for them and
    `Converts` says whether `stod` accepts a token. The round trip is
    therefore stated position by position: the cell saved from w is read
    back as Parse(Fmt(w)). A file is the sequence of lines `getline`
    returns before the end of the stream. */
module WeightFile {
  import opened Wrappers
  import opened Text
  import opened Matrix

  const Header: string := "Weights Network"
  const Sentinel: string := "Layer weights are over"

  /** The second line: `std::to_string(depth) + " Hiddens Layers"`. */
  function DepthLine(depth: nat): string {
    NatToString(depth) + " Hiddens Layers"
  }

  /** The decimal text `<<` writes for a weight. */
  const Fmt: real -> string
  /** Whether `std::stod` converts a token. */
  const Converts: string -> bool
  /** The value `std::stod` reads from a token it converts. */
  const Parse: string -> real

  /** `std::stod` on a token: invalid_argument unless it converts; an
      empty token (two separators in a row) never does. */
  function Stod(t: string): (r: Result<real>)
    ensures t == [] ==> r == Failure(InvalidArgument)
    ensures r.Failure? ==> r.error == InvalidArgument
  {
    if t != [] && Converts(t) then Success(Parse(t)) else Failure(InvalidArgument)
  }

  /** What the round trip needs of the decimal text: every weight is
      written as one token `stod` converts, and `stod` rejects the first
      word of the sentinel. */
  ghost predicate Readable() {
    && !Converts("Layer")
    && forall w: real :: IsToken(Fmt(w), ' ') && Converts(Fmt(w))
  }

  /** One weight's token under `Readable`. */
  lemma ReadableAt(w: real)
    requires Readable()
    ensures IsToken(Fmt(w), ' ') && Converts(Fmt(w))
  {
  }

  /** The value a saved weight is read back as. */
  function Reread(w: real): real {
    Parse(Fmt(w))
  }

  // ---- Writing ----

  function RowTokens(row: seq<real>): (ts: seq<string>)
    ensures |ts| == |row| && forall c :: 0 <= c < |row| ==> ts[c] == Fmt(row[c])
  {
    seq(|row|, c requires 0 <= c < |row| => Fmt(row[c]))
  }

  /** One row as the savers write it: a space after every cell but the
      last, which ends the line. */
  function RowLine(row: seq<real>): string {
    Join(RowTokens(row), ' ')
  }

  /** The lines of one block. A row without cells writes nothing at all,
      not even a line break. */
  function GridLines(g: Grid): seq<string>
    decreases |g|
  {
    if g == [] then []
    else (if g[0] == [] then [] else [RowLine(g[0])]) + GridLines(g[1..])
  }

  /** The blocks of the layers `gs`, each closed by the sentinel. */
  function Body(gs: seq<Grid>): seq<string>
    decreases |gs|
  {
    if gs == [] then [] else GridLines(gs[0]) + [Sentinel] + Body(gs[1..])
  }

  /** The whole file saved for a network with `depth` hidden layers whose
      weight layers are `gs`. */
  function FileOf(depth: nat, gs: seq<Grid>): seq<string> {
    [Header, DepthLine(depth)] + Body(gs)
  }

  /** Saving one more row appends its line, if it has cells. */
  lemma {:induction false} GridLinesSnoc(g: Grid, row: seq<real>)
    ensures GridLines(g + [row]) == GridLines(g) + (if row == [] then [] else [RowLine(row)])
    decreases |g|
  {
    if g == [] {
      assert [row][1..] == [];
    } else {
      assert (g + [row])[0] == g[0] && (g + [row])[1..] == g[1..] + [row];
      GridLinesSnoc(g[1..], row);
    }
  }

  /** Saving one more layer appends its block and a sentinel. */
  lemma {:induction false} BodySnoc(gs: seq<Grid>, g: Grid)
    ensures Body(gs + [g]) == Body(gs) + GridLines(g) + [Sentinel]
    decreases |gs|
  {
    if gs == [] {
      assert [g][1..] == [];
    } else {
      assert (gs + [g])[0] == gs[0] && (gs + [g])[1..] == gs[1..] + [g];
      BodySnoc(gs[1..], g);
    }
  }

  /** Every row of `g` has at least one cell, so every row is a line. */
  ghost predicate Full(g: Grid) {
    forall r :: 0 <= r < |g| ==> g[r] != []
  }

  // ---- Reading ----

  /** The line `getline` returns at index i: once the stream is exhausted
      it returns the empty string. */
  function LineAt(lines: seq<string>, i: nat): string {
    if i < |lines| then lines[i] else ""
  }

  /** The two checks both loaders make before any weight: the header, then
      the depth line for a network with `depth` hidden layers; either
      mismatch throws invalid_argument. */
  function CheckHeader(lines: seq<string>, depth: nat): (o: Outcome)
    ensures o.Pass? <==> LineAt(lines, 0) == Header && LineAt(lines, 1) == DepthLine(depth)
    ensures o.Fail? ==> o.error == InvalidArgument
  {
    if LineAt(lines, 0) != Header then Fail(InvalidArgument)
    else if LineAt(lines, 1) != DepthLine(depth) then Fail(InvalidArgument)
    else Pass
  }

  /** A token to be stored at (`layer`, `row`, `col`) of the weight grids. */
  datatype Put = Put(layer: nat, row: nat, col: nat, token: string)

  /** The tokens of one line stored from column `col` of row `row`: a token
      a separator emits moves to the next column; the token that ends the
      line sends the column back to 0. */
  function LinePuts(es: seq<Emit>, layer: nat, row: nat, col: nat): (ps: seq<Put>)
    ensures |ps| == |es|
    decreases |es|
  {
    if es == [] then []
    else [Put(layer, row, col, es[0].token)] + LinePuts(es[1..], layer, row, if es[0].AtSep? then col + 1 else 0)
  }

  /** The column after the tokens `es`; a line ending in a separator
      leaves it where it got to, so the next line continues from there. */
  function ColAfter(es: seq<Emit>, col: nat): nat
    decreases |es|
  {
    if es == [] then col else ColAfter(es[1..], if es[0].AtSep? then col + 1 else 0)
  }

  /** `HiddenLayer::LoadWeights` of the matrix engine reading from line i:
      one row per line until the sentinel or the end of the file. */
  function BlockPuts(lines: seq<string>, i: nat, layer: nat, row: nat, col: nat): seq<Put>
    decreases |lines| - i
  {
    if i >= |lines| || lines[i] == Sentinel then []
    else
      var es := Scan(lines[i], ' ');
      LinePuts(es, layer, row, col) + BlockPuts(lines, i + 1, layer, row + 1, ColAfter(es, col))
  }

  /** Where the next block starts: just after the sentinel, or at the end. */
  function BlockEnd(lines: seq<string>, i: nat): (e: nat)
    requires i <= |lines|
    ensures i <= e <= |lines|
    decreases |lines| - i
  {
    if i == |lines| then i else if lines[i] == Sentinel then i + 1 else BlockEnd(lines, i + 1)
  }

  /** The loop of `GraphNetwork::LoadWeights` from line i: the sentinel
      moves to the next layer and the line after it is read at once as
      that layer's row 0. Past the end `getline` returns an empty line,
      which stores nothing. */
  function GraphPuts(lines: seq<string>, i: nat, layer: nat, row: nat, col: nat): seq<Put>
    decreases |lines| - i
  {
    if i >= |lines| then []
    else if lines[i] == Sentinel then
      if i + 1 < |lines| then
        var es := Scan(lines[i + 1], ' ');
        LinePuts(es, layer + 1, 0, 0) + GraphPuts(lines, i + 2, layer + 1, 1, ColAfter(es, 0))
      else []
    else
      var es := Scan(lines[i], ' ');
      LinePuts(es, layer, row, col) + GraphPuts(lines, i + 1, layer, row + 1, ColAfter(es, col))
  }

  /** Where one turn of the graph loader's loop at line i goes: the line
      it reads, the line after it, and the layer, row and column that
      line is stored from. */
  datatype Turn = Turn(line: string, next: nat, layer: nat, row: nat, col: nat)

  /** A sentinel moves to row 0 of the next layer, whose first line (an
      empty one past the end) is read at once; any other line is read as
      row `row`. */
  function NextRead(lines: seq<string>, i: nat, layer: nat, row: nat, col: nat): (t: Turn)
    requires i < |lines|
    ensures i < t.next
  {
    if lines[i] == Sentinel then Turn(LineAt(lines, i + 1), i + 2, layer + 1, 0, 0)
    else Turn(lines[i], i + 1, layer, row, col)
  }

  /** The puts of the graph loader from line i are those of the line one
      turn reads, then those from where the turn leaves off. */
  lemma GraphPutsStep(lines: seq<string>, i: nat, layer: nat, row: nat, col: nat)
    requires i < |lines|
    ensures var t := NextRead(lines, i, layer, row, col);
      var es := Scan(t.line, ' ');
      GraphPuts(lines, i, layer, row, col) ==
        LinePuts(es, t.layer, t.row, t.col) + GraphPuts(lines, t.next, t.layer, t.row + 1, ColAfter(es, t.col))
  {
    if lines[i] == Sentinel && i + 1 >= |lines| {
      assert Scan("", ' ') == [];
    }
  }

  // ---- What a saved file stores ----

  function RowPuts(row: seq<real>, layer: nat, r: nat): (ps: seq<Put>)
    ensures |ps| == |row|
  {
    seq(|row|, c requires 0 <= c < |row| => Put(layer, r, c, Fmt(row[c])))
  }

  /** The cells of `g` in row-major order, its rows numbered from `r`. */
  function GridPuts(g: Grid, layer: nat, r: nat): seq<Put>
    decreases |g|
  {
    if g == [] then [] else RowPuts(g[0], layer, r) + GridPuts(g[1..], layer, r + 1)
  }

  /** The cells of the layers `gs`, numbered from `layer`. */
  function BodyPuts(gs: seq<Grid>, layer: nat): seq<Put>
    decreases |gs|
  {
    if gs == [] then [] else GridPuts(gs[0], layer, 0) + BodyPuts(gs[1..], layer + 1)
  }

  /** The token the last put to cell (layer, row, col) carries, if any. */
  function LastWrite(ps: seq<Put>, layer: nat, row: nat, col: nat): Option<string>
    decreases |ps|
  {
    if ps == [] then None
    else
      var later := LastWrite(ps[1..], layer, row, col);
      if later.Some? then later
      else if ps[0].layer == layer && ps[0].row == row && ps[0].col == col then Some(ps[0].token)
      else None
  }

  /** `HiddenLayer::LoadWeights` storing the puts of a block into the
      weight matrix `g`: each token goes through `stod` first, then
      `operator()` checks the cell; the first failure ends the load with
      the cells stored so far. */
  function ApplyGrid(g: Grid, ps: seq<Put>): (r: (Outcome, Grid))
    ensures r.0.Fail? ==> r.0.error == InvalidArgument || r.0.error == OutOfRange
    ensures |r.1| == |g| && forall i :: 0 <= i < |g| ==> |r.1[i]| == |g[i]|
    decreases |ps|
  {
    if ps == [] then (Pass, g)
    else
      var p := ps[0];
      match Stod(p.token)
      case Failure(e) => (Fail(e), g)
      case Success(v) =>
        if p.row < |g| && p.col < |g[p.row]| then ApplyGrid(g[p.row := g[p.row][p.col := v]], ps[1..])
        else (Fail(OutOfRange), g)
  }

  // ---- Round trip ----

  /** The tokens of a line read from column `c0` land in consecutive
      columns, and the end of the line sends the column back to 0. */
  lemma {:induction false} SepsPuts(ts: seq<string>, layer: nat, r: nat, c0: nat)
    requires ts != []
    ensures LinePuts(SepsThenEnd(ts), layer, r, c0) == seq(|ts|, c requires 0 <= c < |ts| => Put(layer, r, c0 + c, ts[c]))
    ensures ColAfter(SepsThenEnd(ts), c0) == 0
    decreases |ts|
  {
    if |ts| > 1 {
      SepsPuts(ts[1..], layer, r, c0 + 1);
    }
  }

  /** A saved row reads back as its cells, in order, from column 0. */
  lemma RowRead(row: seq<real>, layer: nat, r: nat)
    requires Readable() && row != []
    ensures LinePuts(Scan(RowLine(row), ' '), layer, r, 0) == RowPuts(row, layer, r)
    ensures ColAfter(Scan(RowLine(row), ' '), 0) == 0
  {
    var ts := RowTokens(row);
    forall c | 0 <= c < |ts|
      ensures IsToken(ts[c], ' ')
    {
      ReadableAt(row[c]);
    }
    ScanJoin(ts, ' ');
    SepsPuts(ts, layer, r, 0);
  }

  /** A joined line starts with its first token, followed by the
      separator when more tokens follow. */
  lemma JoinHead(ts: seq<string>, sep: char)
    requires ts != []
    ensures |ts| == 1 ==> Join(ts, sep) == ts[0]
    ensures |ts| > 1 ==> |Join(ts, sep)| > |ts[0]| && Join(ts, sep)[..|ts[0]|] == ts[0] && Join(ts, sep)[|ts[0]|] == sep
  {
  }

  /** A saved row is never mistaken for the sentinel: its first token
      converts, and the sentinel's first word does not. */
  lemma RowNotSentinel(row: seq<real>)
    requires Readable() && row != []
    ensures RowLine(row) != Sentinel
  {
    var ts := RowTokens(row);
    var t := ts[0];
    ReadableAt(row[0]);
    JoinHead(ts, ' ');
    var S := Sentinel;
    assert S[5] == ' ' && S[..5] == "Layer";
    assert S[0] != ' ' && S[1] != ' ' && S[2] != ' ' && S[3] != ' ' && S[4] != ' ';
  }

  /** The matrix engine reads a saved block back cell by cell and stops
      just after its sentinel. */
  lemma {:induction false} BlockRead(lines: seq<string>, i: nat, g: Grid, layer: nat, r: nat)
    requires Readable() && Full(g)
    requires i + |g| < |lines| && lines[i..i + |g|] == GridLines(g) && lines[i + |g|] == Sentinel
    ensures BlockPuts(lines, i, layer, r, 0) == GridPuts(g, layer, r)
    ensures BlockEnd(lines, i) == i + |g| + 1
    decreases |g|
  {
    if g != [] {
      assert GridLines(g) == [RowLine(g[0])] + GridLines(g[1..]);
      assert lines[i] == RowLine(g[0]);
      assert lines[i + 1..i + |g|] == GridLines(g[1..]);
      RowNotSentinel(g[0]);
      RowRead(g[0], layer, r);
      BlockRead(lines, i + 1, g[1..], layer, r + 1);
    }
  }

  /** The line at i is a saved row of `g`, and the lines after it are the
      rest of the file. */
  lemma RowThenRest(lines: seq<string>, i: nat, g: Grid, r: nat, gs: seq<Grid>)
    requires Full(g) && r < |g| && i <= |lines|
    requires lines[i..] == GridLines(g[r..]) + [Sentinel] + Body(gs)
    ensures i < |lines| && lines[i] == RowLine(g[r])
    ensures lines[i + 1..] == GridLines(g[r + 1..]) + [Sentinel] + Body(gs)
  {
    assert g[r..][0] == g[r] && g[r..][1..] == g[r + 1..];
    assert GridLines(g[r..]) == [RowLine(g[r])] + GridLines(g[r + 1..]);
    assert lines[i..][1..] == lines[i + 1..];
  }

  /** The line at i is a sentinel followed by the first row of the next
      layer, and the lines after that are the rest of the file. */
  lemma SentinelThenRow(lines: seq<string>, i: nat, gs: seq<Grid>)
    requires gs != [] && Full(gs[0]) && gs[0] != [] && i <= |lines|
    requires lines[i..] == [Sentinel] + Body(gs)
    ensures i + 1 < |lines| && lines[i] == Sentinel && lines[i + 1] == RowLine(gs[0][0])
    ensures lines[i + 2..] == GridLines(gs[0][1..]) + [Sentinel] + Body(gs[1..])
  {
    var h := gs[0];
    BodyHead(gs);
    LinesFrom(lines, i, Sentinel, RowLine(h[0]), GridLines(h[1..]) + [Sentinel] + Body(gs[1..]));
  }

  /** The body of layers whose first row has cells starts with that row's
      line. */
  lemma BodyHead(gs: seq<Grid>)
    requires gs != [] && gs[0] != [] && gs[0][0] != []
    ensures Body(gs) == [RowLine(gs[0][0])] + (GridLines(gs[0][1..]) + [Sentinel] + Body(gs[1..]))
  {
    var h := gs[0];
    var r, g, s, b := [RowLine(h[0])], GridLines(h[1..]), [Sentinel], Body(gs[1..]);
    assert GridLines(h) == r + g;
    assert Body(gs) == r + g + s + b;
    ConcatAssoc(r, g, s, b);
  }

  lemma ConcatAssoc(a: seq<string>, b: seq<string>, c: seq<string>, d: seq<string>)
    ensures a + b + c + d == a + (b + c + d)
  {
  }

  /** The lines from i on are `a`, `b`, then `rest`. */
  lemma LinesFrom(lines: seq<string>, i: nat, a: string, b: string, rest: seq<string>)
    requires i <= |lines| && lines[i..] == [a] + ([b] + rest)
    ensures i + 1 < |lines| && lines[i] == a && lines[i + 1] == b && lines[i + 2..] == rest
  {
    assert lines[i..][0] == a && lines[i..][1] == b;
    assert lines[i + 2..] == lines[i..][2..];
  }

  /** The graph engine reads the rest of a saved file, from row `r` of
      layer `layer` on, back cell by cell. */
  lemma {:induction false} GraphRead(lines: seq<string>, i: nat, g: Grid, r: nat, layer: nat, gs: seq<Grid>)
    requires Readable() && Full(g) && r <= |g| && i <= |lines|
    requires forall m :: 0 <= m < |gs| ==> Full(gs[m]) && gs[m] != []
    requires lines[i..] == GridLines(g[r..]) + [Sentinel] + Body(gs)
    ensures GraphPuts(lines, i, layer, r, 0) == GridPuts(g[r..], layer, r) + BodyPuts(gs, layer + 1)
    decreases |lines| - i, 1
  {
    if r < |g| {
      RowThenRest(lines, i, g, r, gs);
      RowNotSentinel(g[r]);
      RowRead(g[r], layer, r);
      GraphRead(lines, i + 1, g, r + 1, layer, gs);
      assert g[r..][1..] == g[r + 1..];
    } else {
      assert g[r..] == [];
      NextLayerRead(lines, i, layer, r, gs);
    }
  }

  /** At a sentinel the graph engine moves to the next layer and reads
      the rest of the file from that layer's row 0. */
  lemma {:induction false} NextLayerRead(lines: seq<string>, i: nat, layer: nat, row: nat, gs: seq<Grid>)
    requires Readable() && i <= |lines|
    requires forall m :: 0 <= m < |gs| ==> Full(gs[m]) && gs[m] != []
    requires lines[i..] == [Sentinel] + Body(gs)
    ensures GraphPuts(lines, i, layer, row, 0) == BodyPuts(gs, layer + 1)
    decreases |lines| - i, 0
  {
    if gs == [] {
      assert lines[i..] == [Sentinel];
    } else {
      var h := gs[0];
      SentinelThenRow(lines, i, gs);
      RowRead(h[0], layer + 1, 0);
      GraphRead(lines, i + 2, h, 1, layer + 1, gs[1..]);
      var a, b, c := RowPuts(h[0], layer + 1, 0), GridPuts(h[1..], layer + 1, 1), BodyPuts(gs[1..], layer + 2);
      assert GraphPuts(lines, i, layer, row, 0) == a + (b + c);
      assert GridPuts(h, layer + 1, 0) == a + b;
      PutsAssoc(a, b, c);
    }
  }

  lemma PutsAssoc(a: seq<Put>, b: seq<Put>, c: seq<Put>)
    ensures a + b + c == a + (b + c)
  {
  }

  /** The graph engine reads saved layers back as their cells, in order. */
  lemma BodyRead(lines: seq<string>, i: nat, gs: seq<Grid>, layer: nat)
    requires Readable() && gs != [] && i <= |lines|
    requires forall m :: 0 <= m < |gs| ==> Full(gs[m]) && gs[m] != []
    requires lines[i..] == Body(gs)
    ensures GraphPuts(lines, i, layer, 0, 0) == BodyPuts(gs, layer)
  {
    var g := gs[0];
    assert g[0..] == g;
    GraphRead(lines, i, g, 0, layer, gs[1..]);
  }

  /** The graph engine reads a whole saved file back as the cells of its
      layers, layer 0 first. */
  lemma FileRead(depth: nat, gs: seq<Grid>)
    requires Readable() && gs != []
    requires forall m :: 0 <= m < |gs| ==> Full(gs[m]) && gs[m] != []
    ensures GraphPuts(FileOf(depth, gs), 2, 0, 0, 0) == BodyPuts(gs, 0)
  {
    var lines := FileOf(depth, gs);
    assert lines[2..] == Body(gs);
    BodyRead(lines, 2, gs, 0);
  }

  /** A saved file passes the header check exactly for its own depth. */
  lemma HeaderOfFile(depth: nat, gs: seq<Grid>, d: nat)
    ensures CheckHeader(FileOf(depth, gs), d).Pass? <==> d == depth
  {
    var suffix := " Hiddens Layers";
    if DepthLine(d) == DepthLine(depth) {
      NatToStringDigits(d);
      NatToStringDigits(depth);
      var a, b := NatToString(d), NatToString(depth);
      assert |a| == |b|;
      assert a == (a + suffix)[..|a|] == (b + suffix)[..|b|] == b;
      NatToStringInjective(d, depth);
    }
  }

  /** The last write to a cell in `a + b` comes from `b` when `b` writes
      it at all. */
  lemma {:induction false} LastWriteConcat(a: seq<Put>, b: seq<Put>, layer: nat, row: nat, col: nat)
    ensures LastWrite(a + b, layer, row, col) ==
      if LastWrite(b, layer, row, col).Some? then LastWrite(b, layer, row, col) else LastWrite(a, layer, row, col)
    decreases |a|
  {
    if a != [] {
      assert (a + b)[1..] == a[1..] + b;
      LastWriteConcat(a[1..], b, layer, row, col);
    } else {
      assert a + b == b;
    }
  }

  /** A row writes exactly its own cells. */
  lemma {:induction false} LastWriteRow(row: seq<real>, layer: nat, r: nat, l': nat, r': nat, c': nat)
    ensures LastWrite(RowPuts(row, layer, r), l', r', c') ==
      if l' == layer && r' == r && c' < |row| then Some(Fmt(row[c'])) else None
    decreases |row|
  {
    var ps := RowPuts(row, layer, r);
    if row != [] {
      var last := |row| - 1;
      assert ps == RowPuts(row[..last], layer, r) + [ps[last]];
      LastWriteConcat(RowPuts(row[..last], layer, r), [ps[last]], l', r', c');
      assert [ps[last]][1..] == [];
      LastWriteRow(row[..last], layer, r, l', r', c');
    }
  }

  /** A grid writes exactly its own cells, rows numbered from `r`. */
  lemma {:induction false} LastWriteGrid(g: Grid, layer: nat, r: nat, l': nat, r': nat, c': nat)
    ensures LastWrite(GridPuts(g, layer, r), l', r', c') ==
      if l' == layer && r <= r' < r + |g| && c' < |g[r' - r]| then Some(Fmt(g[r' - r][c'])) else None
    decreases |g|
  {
    if g != [] {
      LastWriteConcat(RowPuts(g[0], layer, r), GridPuts(g[1..], layer, r + 1), l', r', c');
      LastWriteRow(g[0], layer, r, l', r', c');
      LastWriteGrid(g[1..], layer, r + 1, l', r', c');
    }
  }

  /** The layers of a file write exactly their own cells, layers numbered
      from `layer`. */
  lemma {:induction false} LastWriteBody(gs: seq<Grid>, layer: nat, l': nat, r': nat, c': nat)
    ensures LastWrite(BodyPuts(gs, layer), l', r', c') ==
      if layer <= l' < layer + |gs| && r' < |gs[l' - layer]| && c' < |gs[l' - layer][r']|
      then Some(Fmt(gs[l' - layer][r'][c'])) else None
    decreases |gs|
  {
    if gs != [] {
      LastWriteConcat(GridPuts(gs[0], layer, 0), BodyPuts(gs[1..], layer + 1), l', r', c');
      LastWriteGrid(gs[0], layer, 0, l', r', c');
      LastWriteBody(gs[1..], layer + 1, l', r', c');
    }
  }

  /** Puts that all convert and all land inside `g` succeed, and each cell
      ends up holding its last write. */
  lemma {:induction false} ApplyGridCells(g: Grid, ps: seq<Put>, layer: nat)
    requires forall i :: 0 <= i < |ps| ==> ps[i].layer == layer && Stod(ps[i].token).Success?
    requires forall i :: 0 <= i < |ps| ==> ps[i].row < |g| && ps[i].col < |g[ps[i].row]|
    ensures ApplyGrid(g, ps).0 == Pass
    ensures forall r, c :: 0 <= r < |g| && 0 <= c < |g[r]| ==>
      ApplyGrid(g, ps).1[r][c] == match LastWrite(ps, layer, r, c) case Some(t) => Parse(t) case None => g[r][c]
    decreases |ps|
  {
    if ps != [] {
      var p := ps[0];
      var g' := g[p.row := g[p.row][p.col := Parse(p.token)]];
      ApplyGridCells(g', ps[1..], layer);
    }
  }

  /** Round trip of one block in the matrix engine: a grid saved and read
      back into a grid of the same shape leaves every cell holding what
      was saved, reread. */
  lemma GridRoundTrip(g0: Grid, g: Grid, layer: nat, rows: nat, cols: nat)
    requires Readable() && IsShape(g0, rows, cols) && IsShape(g, rows, cols)
    ensures ApplyGrid(g0, GridPuts(g, layer, 0)).0 == Pass
    ensures ApplyGrid(g0, GridPuts(g, layer, 0)).1 ==
      seq(rows, r requires 0 <= r < rows => seq(cols, c requires 0 <= c < cols => Reread(g[r][c])))
  {
    var ps := GridPuts(g, layer, 0);
    forall i | 0 <= i < |ps|
      ensures ps[i].layer == layer && Stod(ps[i].token).Success?
      ensures ps[i].row < |g0| && ps[i].col < |g0[ps[i].row]|
    {
      GridPutAt(g, layer, 0, i);
    }
    ApplyGridCells(g0, ps, layer);
    var res := ApplyGrid(g0, ps).1;
    forall r | 0 <= r < rows
      ensures res[r] == seq(cols, c requires 0 <= c < cols => Reread(g[r][c]))
    {
      forall c | 0 <= c < cols
        ensures res[r][c] == Reread(g[r][c])
      {
        LastWriteGrid(g, layer, 0, layer, r, c);
      }
    }
  }

  /** Every put of a saved grid carries a converting token for a cell of
      the grid. */
  lemma {:induction false} GridPutAt(g: Grid, layer: nat, r: nat, i: nat)
    requires Readable() && i < |GridPuts(g, layer, r)|
    ensures var p := GridPuts(g, layer, r)[i];
      p.layer == layer && r <= p.row < r + |g| && p.col < |g[p.row - r]| && p.token == Fmt(g[p.row - r][p.col])
    ensures Stod(GridPuts(g, layer, r)[i].token).Success?
    decreases |g|
  {
    var ps := GridPuts(g, layer, r);
    var head := RowPuts(g[0], layer, r);
    assert ps == head + GridPuts(g[1..], layer, r + 1);
    if i >= |head| {
      GridPutAt(g[1..], layer, r + 1, i - |head|);
    }
    ReadableAt(g[ps[i].row - r][ps[i].col]);
  }
}
