/** The quality measures of a confusion matrix (source_code/model/network.cpp:244-295):
    accuracy, and the precision, recall and F-measure averaged over the
    classes. Row i of the matrix counts the examples of class i + 1, column
    j the answers j + 1; only the 26 x 26 corner is read. Doubles are reals,
    except where a division by zero makes NaN or an infinity. */
module Metrics {
  import opened Wrappers
  import opened Matrix
  import opened Interface

  /** A `double` as these computations produce it: a number, or the result
      of a division by zero. */
  datatype Double = Num(value: real) | NaN | PosInf | NegInf

  /** IEEE division of two finite doubles: 0 / 0 is NaN, another number
      over 0 an infinity of its sign (the sign of a zero is not modelled). */
  function Div(a: real, b: real): (r: Double)
    ensures r.Num? <==> b != 0.0
    ensures r.Num? ==> r.value * b == a
    ensures r.NaN? <==> a == 0.0 && b == 0.0
  {
    if b != 0.0 then Num(a / b)
    else if a == 0.0 then NaN
    else if a > 0.0 then PosInf
    else NegInf
  }

  // ---- Sums ----

  /** The sum of `s`, added from the first entry to the last. */
  function Sum(s: seq<real>): real
    decreases |s|
  {
    if s == [] then 0.0 else Sum(s[..|s| - 1]) + s[|s| - 1]
  }

  /** Extending a prefix by one entry adds that entry. */
  lemma SumPrefix(s: seq<real>, j: nat)
    requires j < |s|
    ensures Sum(s[..j + 1]) == Sum(s[..j]) + s[j]
  {
    assert s[..j + 1][..j] == s[..j];
  }

  /** Changing one entry changes the sum by the difference. */
  lemma {:induction false} SumUpdate(s: seq<real>, k: nat, v: real)
    requires k < |s|
    ensures Sum(s[k := v]) == Sum(s) - s[k] + v
    decreases |s|
  {
    var t := s[k := v];
    if k < |s| - 1 {
      assert t[..|t| - 1] == s[..|s| - 1][k := v];
      SumUpdate(s[..|s| - 1], k, v);
    } else {
      assert t[..|t| - 1] == s[..|s| - 1];
    }
  }

  /** The matrix has the 26 x 26 corner the measures read. */
  ghost predicate Covers(g: Grid) {
    |g| >= OutputWidth && forall i :: 0 <= i < OutputWidth ==> |g[i]| >= OutputWidth
  }

  /** Every count is at least 0. */
  ghost predicate NonNegative(g: Grid) {
    forall i, j :: 0 <= i < |g| && 0 <= j < |g[i]| ==> g[i][j] >= 0.0
  }

  /** The cells (i, i) of the corner: the correct answers per class. */
  function Diagonal(g: Grid): (d: seq<real>)
    requires Covers(g)
    ensures |d| == OutputWidth && forall i :: 0 <= i < OutputWidth ==> d[i] == g[i][i]
  {
    seq(OutputWidth, i requires 0 <= i < OutputWidth => g[i][i])
  }

  /** Row i of the corner. */
  function Row(g: Grid, i: nat): (r: seq<real>)
    requires Covers(g) && i < OutputWidth
    ensures |r| == OutputWidth && forall j :: 0 <= j < OutputWidth ==> r[j] == g[i][j]
  {
    g[i][..OutputWidth]
  }

  /** Column j of the corner. */
  function Column(g: Grid, j: nat): (c: seq<real>)
    requires Covers(g) && j < OutputWidth
    ensures |c| == OutputWidth && forall i :: 0 <= i < OutputWidth ==> c[i] == g[i][j]
  {
    seq(OutputWidth, i requires 0 <= i < OutputWidth => g[i][j])
  }

  /** The examples of each class: the row sums. */
  function RowSums(g: Grid): (s: seq<real>)
    requires Covers(g)
    ensures |s| == OutputWidth && forall i :: 0 <= i < OutputWidth ==> s[i] == Sum(Row(g, i))
  {
    seq(OutputWidth, i requires 0 <= i < OutputWidth => Sum(Row(g, i)))
  }

  /** The answers of each class: the column sums. */
  function ColumnSums(g: Grid): (s: seq<real>)
    requires Covers(g)
    ensures |s| == OutputWidth && forall j :: 0 <= j < OutputWidth ==> s[j] == Sum(Column(g, j))
  {
    seq(OutputWidth, j requires 0 <= j < OutputWidth => Sum(Column(g, j)))
  }

  /** All the counts of the corner. */
  function Total(g: Grid): real
    requires Covers(g)
  {
    Sum(RowSums(g))
  }

  /** A matrix of counts has a total of at least 0. */
  lemma TotalNonNegative(g: Grid)
    requires Covers(g) && NonNegative(g)
    ensures Total(g) >= 0.0
  {
    forall i | 0 <= i < OutputWidth
      ensures RowSums(g)[i] >= 0.0
    {
      SumNonNegative(Row(g, i));
    }
    SumNonNegative(RowSums(g));
  }

  /** Adding 1 to cell (r, c) of the corner adds 1 to the total. */
  lemma TotalBump(g: Grid, r: nat, c: nat)
    requires Covers(g) && r < OutputWidth && c < OutputWidth
    ensures Covers(g[r := g[r][c := g[r][c] + 1.0]])
    ensures Total(g[r := g[r][c := g[r][c] + 1.0]]) == Total(g) + 1.0
  {
    var h := g[r := g[r][c := g[r][c] + 1.0]];
    assert Row(h, r) == Row(g, r)[c := g[r][c] + 1.0];
    SumUpdate(Row(g, r), c, g[r][c] + 1.0);
    assert RowSums(h) == RowSums(g)[r := RowSums(g)[r] + 1.0];
    SumUpdate(RowSums(g), r, RowSums(g)[r] + 1.0);
  }

  // ---- The measures ----

  /** `CalcAccuracy`: the correct answers over all examples. */
  function Accuracy(g: Grid): Double
    requires Covers(g)
  {
    Div(Sum(Diagonal(g)), Total(g))
  }

  /** Σ correct[k] / positives[k] over the first `n` classes that have
      positives. */
  function MacroSum(correct: seq<real>, positives: seq<real>, n: nat): real
    requires n <= |correct| == |positives|
  {
    if n == 0 then 0.0
    else MacroSum(correct, positives, n - 1)
         + (if positives[n - 1] > 0.0 then correct[n - 1] / positives[n - 1] else 0.0)
  }

  /** The number of the first `n` classes that have positives
      (`existing_cases`). */
  function Cases(positives: seq<real>, n: nat): nat
    requires n <= |positives|
  {
    if n == 0 then 0 else Cases(positives, n - 1) + (if positives[n - 1] > 0.0 then 1 else 0)
  }

  /** The average of correct[k] / positives[k] over the classes that have
      positives; NaN when none has. */
  function MacroAverage(correct: seq<real>, positives: seq<real>): Double
    requires |correct| == |positives|
  {
    Div(MacroSum(correct, positives, |positives|), Cases(positives, |positives|) as real)
  }

  /** `CalcPrecision`: per answer class, the share of its answers that are
      right, averaged over the classes that were answered. */
  function Precision(g: Grid): Double
    requires Covers(g)
  {
    MacroAverage(Diagonal(g), ColumnSums(g))
  }

  /** `CalcRecall`: per class, the share of its examples answered right,
      averaged over the classes that have examples. */
  function Recall(g: Grid): Double
    requires Covers(g)
  {
    MacroAverage(Diagonal(g), RowSums(g))
  }

  /** `CalcFMeasure`: 2PR / (P + R). An infinite or NaN operand makes the
      result NaN. */
  function FMeasure(p: Double, r: Double): Double {
    if p.Num? && r.Num? then Div(2.0 * p.value * r.value, p.value + r.value) else NaN
  }

  // ---- What the measures promise ----

  /** A sum of counts is a count. */
  lemma {:induction false} SumNonNegative(s: seq<real>)
    requires forall k :: 0 <= k < |s| ==> s[k] >= 0.0
    ensures Sum(s) >= 0.0
    decreases |s|
  {
    if s != [] {
      SumNonNegative(s[..|s| - 1]);
    }
  }

  /** Sums are monotone entry by entry. */
  lemma {:induction false} SumMonotone(a: seq<real>, b: seq<real>)
    requires |a| == |b| && forall k :: 0 <= k < |a| ==> a[k] <= b[k]
    ensures Sum(a) <= Sum(b)
    decreases |a|
  {
    if a != [] {
      SumMonotone(a[..|a| - 1], b[..|b| - 1]);
    }
  }

  /** One count is at most the sum of all of them. */
  lemma {:induction false} EntryBelowSum(s: seq<real>, k: nat)
    requires k < |s| && forall t :: 0 <= t < |s| ==> s[t] >= 0.0
    ensures s[k] <= Sum(s)
    decreases |s|
  {
    if k == |s| - 1 {
      SumNonNegative(s[..|s| - 1]);
    } else {
      EntryBelowSum(s[..|s| - 1], k);
    }
  }

  /** The correct answers of a class are among its examples and among its
      answers. */
  lemma DiagonalBelowSums(g: Grid)
    requires Covers(g) && NonNegative(g)
    ensures forall i :: 0 <= i < OutputWidth ==> 0.0 <= Diagonal(g)[i] <= RowSums(g)[i]
    ensures forall j :: 0 <= j < OutputWidth ==> 0.0 <= Diagonal(g)[j] <= ColumnSums(g)[j]
  {
    forall i | 0 <= i < OutputWidth
      ensures Diagonal(g)[i] <= RowSums(g)[i] && Diagonal(g)[i] <= ColumnSums(g)[i]
    {
      EntryBelowSum(Row(g, i), i);
      EntryBelowSum(Column(g, i), i);
    }
  }

  /** Accuracy is NaN on an empty matrix and a share in [0, 1] otherwise. */
  lemma AccuracyRange(g: Grid)
    requires Covers(g) && NonNegative(g)
    ensures Accuracy(g).NaN? || Accuracy(g).Num?
    ensures Accuracy(g).Num? <==> Total(g) > 0.0
    ensures Accuracy(g).Num? ==> 0.0 <= Accuracy(g).value <= 1.0
  {
    DiagonalBelowSums(g);
    SumNonNegative(Diagonal(g));
    SumMonotone(Diagonal(g), RowSums(g));
  }

  /** Each term of the average is a share in [0, 1], so the sum lies
      between 0 and the number of terms. */
  lemma {:induction false} MacroSumBounds(correct: seq<real>, positives: seq<real>, n: nat)
    requires n <= |correct| == |positives|
    requires forall k :: 0 <= k < |correct| ==> 0.0 <= correct[k] <= positives[k]
    ensures 0.0 <= MacroSum(correct, positives, n) <= Cases(positives, n) as real
  {
    if n > 0 {
      MacroSumBounds(correct, positives, n - 1);
      var k := n - 1;
      if positives[k] > 0.0 {
        assert correct[k] / positives[k] <= 1.0;
      }
    }
  }

  /** The class average is NaN when no class counts and a share in [0, 1]
      otherwise. */
  lemma MacroAverageRange(correct: seq<real>, positives: seq<real>)
    requires |correct| == |positives|
    requires forall k :: 0 <= k < |correct| ==> 0.0 <= correct[k] <= positives[k]
    ensures MacroAverage(correct, positives).NaN? <==> Cases(positives, |positives|) == 0
    ensures MacroAverage(correct, positives).NaN? || MacroAverage(correct, positives).Num?
    ensures MacroAverage(correct, positives).Num? ==> 0.0 <= MacroAverage(correct, positives).value <= 1.0
  {
    MacroSumBounds(correct, positives, |positives|);
  }

  /** Precision and recall of a matrix of counts are NaN when no class
      counts and shares in [0, 1] otherwise. */
  lemma PrecisionRecallRange(g: Grid)
    requires Covers(g) && NonNegative(g)
    ensures Precision(g).NaN? <==> Cases(ColumnSums(g), OutputWidth) == 0
    ensures Precision(g).Num? ==> 0.0 <= Precision(g).value <= 1.0
    ensures Recall(g).NaN? <==> Cases(RowSums(g), OutputWidth) == 0
    ensures Recall(g).Num? ==> 0.0 <= Recall(g).value <= 1.0
  {
    DiagonalBelowSums(g);
    MacroAverageRange(Diagonal(g), ColumnSums(g));
    MacroAverageRange(Diagonal(g), RowSums(g));
  }

  /** The F-measure of two positive shares is their harmonic mean: it lies
      between them, and equals them when they agree. */
  lemma FMeasureBetween(p: real, r: real)
    requires p > 0.0 && r > 0.0
    ensures FMeasure(Num(p), Num(r)).Num?
    ensures var f := FMeasure(Num(p), Num(r)).value;
      (if p <= r then p else r) <= f <= (if p <= r then r else p)
    ensures p == r ==> FMeasure(Num(p), Num(r)) == Num(p)
  {
    var f := FMeasure(Num(p), Num(r)).value;
    assert f * (p + r) == 2.0 * p * r;
    var lo, hi := if p <= r then p else r, if p <= r then r else p;
    assert lo * (p + r) <= 2.0 * p * r <= hi * (p + r);
  }

  /** A part over a positive whole is a share in [0, 1]. */
  lemma ShareRange(part: real, whole: real)
    requires 0.0 <= part <= whole && whole > 0.0
    ensures Div(part, whole).Num? && 0.0 <= Div(part, whole).value <= 1.0
  {
    assert part / whole <= 1.0;
  }

  /** A network that is never right has F-measure NaN: 0 / 0. */
  lemma FMeasureOfZeros()
    ensures FMeasure(Num(0.0), Num(0.0)) == NaN
  {
  }

  // ---- The loops ----

  /** `CalcAccuracy`: both counts accumulate over the corner row by row;
      reading a cell outside a smaller matrix throws out_of_range. */
  method CalcAccuracy(m: S21Matrix) returns (r: Result<Double>)
    requires m.Valid()
    ensures r.Failure? <==> m.rows < OutputWidth || m.cols < OutputWidth
    ensures r.Failure? ==> r.error == OutOfRange
    ensures r.Success? ==> Covers(m.Cells) && r.value == Accuracy(m.Cells)
  {
    ghost var g := m.Cells;
    var correct, total := 0.0, 0.0;
    for i := 0 to OutputWidth
      invariant i > 0 ==> m.rows >= i && m.cols >= OutputWidth
      invariant Covers(g) ==> correct == Sum(Diagonal(g)[..i]) && total == Sum(RowSums(g)[..i])
    {
      for j := 0 to OutputWidth
        invariant j > 0 ==> m.rows > i && m.cols >= j
        invariant i > 0 ==> m.rows >= i && m.cols >= OutputWidth
        invariant Covers(g) ==> total == Sum(RowSums(g)[..i]) + Sum(Row(g, i)[..j])
        invariant Covers(g) ==> correct == Sum(Diagonal(g)[..i]) + (if i < j then g[i][i] else 0.0)
      {
        var c := m.Get(i, j);
        if c.Failure? {
          return Failure(c.error);
        }
        if i == j {
          correct := correct + c.value;
        }
        total := total + c.value;
        if Covers(g) {
          SumPrefix(Row(g, i), j);
        }
      }
      if Covers(g) {
        assert Row(g, i)[..OutputWidth] == Row(g, i);
        SumPrefix(RowSums(g), i);
        SumPrefix(Diagonal(g), i);
      }
    }
    assert Covers(g);
    assert Diagonal(g)[..OutputWidth] == Diagonal(g) && RowSums(g)[..OutputWidth] == RowSums(g);
    r := Success(Div(correct, total));
  }

  /** The first `n` entries of column `j`, added row by row. */
  ghost function ColumnPrefix(g: Grid, j: nat, n: nat): real
    requires Covers(g) && j < OutputWidth && n <= OutputWidth
  {
    Sum(Column(g, j)[..n])
  }

  /** The column sums while row `i` is being read: the columns before `j`
      have row `i` added, the others not yet. */
  ghost function Frontier(g: Grid, i: nat, j: nat): (f: seq<real>)
    requires Covers(g) && i < OutputWidth && j <= OutputWidth
    ensures |f| == OutputWidth
    ensures forall k :: 0 <= k < OutputWidth ==> f[k] == ColumnPrefix(g, k, if k < j then i + 1 else i)
  {
    seq(OutputWidth, k requires 0 <= k < OutputWidth => ColumnPrefix(g, k, if k < j then i + 1 else i))
  }

  /** Adding cell (i, j) to column j moves the frontier by one column. */
  lemma FrontierStep(g: Grid, i: nat, j: nat)
    requires Covers(g) && i < OutputWidth && j < OutputWidth
    ensures Frontier(g, i, j + 1) == Frontier(g, i, j)[j := ColumnPrefix(g, j, i) + g[i][j]]
  {
    var f := Frontier(g, i, j)[j := ColumnPrefix(g, j, i) + g[i][j]];
    forall k | 0 <= k < OutputWidth
      ensures Frontier(g, i, j + 1)[k] == f[k]
    {
      if k == j {
        SumPrefix(Column(g, j), i);
      }
    }
  }

  /** Before any row is read every column sum is 0. */
  lemma FrontierStart(g: Grid)
    requires Covers(g)
    ensures forall k :: 0 <= k < OutputWidth ==> Frontier(g, 0, 0)[k] == 0.0
  {
    forall k | 0 <= k < OutputWidth
      ensures Frontier(g, 0, 0)[k] == 0.0
    {
      assert Column(g, k)[..0] == [];
    }
  }

  /** Reading row `i` completely is starting row `i + 1`. */
  lemma FrontierRow(g: Grid, i: nat)
    requires Covers(g) && i < OutputWidth
    ensures i + 1 < OutputWidth ==> Frontier(g, i, OutputWidth) == Frontier(g, i + 1, 0)
    ensures i + 1 == OutputWidth ==> Frontier(g, i, OutputWidth) == ColumnSums(g)
  {
    if i + 1 == OutputWidth {
      forall k | 0 <= k < OutputWidth
        ensures Frontier(g, i, OutputWidth)[k] == ColumnSums(g)[k]
      {
        assert Frontier(g, i, OutputWidth)[k] == Sum(Column(g, k)[..OutputWidth]);
        assert Column(g, k)[..OutputWidth] == Column(g, k);
      }
    }
  }

  /** The closing loop of `CalcPrecision` and `CalcRecall`: the shares of
      the classes that have positives, added up and divided by their number. */
  method Average(correct: array<real>, positives: array<real>) returns (d: Double)
    requires correct.Length == positives.Length
    ensures d == MacroAverage(correct[..], positives[..])
  {
    var res := 0.0;
    var existingCases: nat := 0;
    for i := 0 to positives.Length
      invariant res == MacroSum(correct[..], positives[..], i)
      invariant existingCases == Cases(positives[..], i)
    {
      if positives[i] > 0.0 {
        res := res + correct[i] / positives[i];
        existingCases := existingCases + 1;
      }
    }
    d := Div(res, existingCases as real);
  }

  /** `CalcPrecision`: the right answers and all answers of each column are
      gathered row by row into two arrays, then averaged; reading a cell
      outside a smaller matrix throws out_of_range. */
  method CalcPrecision(m: S21Matrix) returns (r: Result<Double>)
    requires m.Valid()
    ensures r.Failure? <==> m.rows < OutputWidth || m.cols < OutputWidth
    ensures r.Failure? ==> r.error == OutOfRange
    ensures r.Success? ==> Covers(m.Cells) && r.value == Precision(m.Cells)
  {
    ghost var g := m.Cells;
    var correct := new real[OutputWidth](_ => 0.0);
    var positives := new real[OutputWidth](_ => 0.0);
    if Covers(g) {
      FrontierStart(g);
    }
    for i := 0 to OutputWidth
      invariant i > 0 ==> m.rows >= i && m.cols >= OutputWidth
      invariant Covers(g) && i < OutputWidth ==> positives[..] == Frontier(g, i, 0)
      invariant Covers(g) && i == OutputWidth ==> positives[..] == ColumnSums(g)
      invariant Covers(g) ==> forall k :: 0 <= k < OutputWidth ==> correct[k] == if k < i then g[k][k] else 0.0
    {
      var o := PrecisionRow(m, correct, positives, i);
      if o.Fail? {
        return Failure(o.error);
      }
      if Covers(g) {
        FrontierRow(g, i);
      }
    }
    assert Covers(g);
    assert correct[..] == Diagonal(g);
    var d := Average(correct, positives);
    r := Success(d);
  }

  /** Row `i` of `CalcPrecision`: cell (i, j) goes into column j's count,
      and into its right answers when i == j. */
  method PrecisionRow(m: S21Matrix, correct: array<real>, positives: array<real>, i: nat) returns (o: Outcome)
    requires m.Valid() && correct.Length == positives.Length == OutputWidth && correct != positives
    requires i < OutputWidth && (i > 0 ==> m.rows >= i && m.cols >= OutputWidth)
    requires Covers(m.Cells) ==> positives[..] == Frontier(m.Cells, i, 0)
    requires Covers(m.Cells) ==> forall k :: 0 <= k < OutputWidth ==> correct[k] == if k < i then m.Cells[k][k] else 0.0
    modifies correct, positives
    ensures o.Fail? <==> m.rows <= i || m.cols < OutputWidth
    ensures o.Fail? ==> o.error == OutOfRange
    ensures o.Pass? && Covers(m.Cells) ==> positives[..] == Frontier(m.Cells, i, OutputWidth)
    ensures o.Pass? && Covers(m.Cells) ==>
      forall k :: 0 <= k < OutputWidth ==> correct[k] == if k <= i then m.Cells[k][k] else 0.0
  {
    ghost var g := m.Cells;
    for j := 0 to OutputWidth
      invariant j > 0 ==> m.rows > i && m.cols >= j
      invariant Covers(g) ==> positives[..] == Frontier(g, i, j)
      invariant Covers(g) ==> forall k :: 0 <= k < OutputWidth ==>
        correct[k] == if k < i || (k == i && k < j) then g[k][k] else 0.0
    {
      var c := m.Get(i, j);
      if c.Failure? {
        return Fail(c.error);
      }
      if i == j {
        correct[j] := correct[j] + c.value;
      }
      positives[j] := positives[j] + c.value;
      if Covers(g) {
        SumPrefix(Column(g, j), i);
        FrontierStep(g, i, j);
      }
    }
    return Pass;
  }

  /** `CalcRecall`: the right answers and all examples of each row are
      gathered into two arrays, then averaged; reading a cell outside a
      smaller matrix throws out_of_range. */
  method CalcRecall(m: S21Matrix) returns (r: Result<Double>)
    requires m.Valid()
    ensures r.Failure? <==> m.rows < OutputWidth || m.cols < OutputWidth
    ensures r.Failure? ==> r.error == OutOfRange
    ensures r.Success? ==> Covers(m.Cells) && r.value == Recall(m.Cells)
  {
    ghost var g := m.Cells;
    var correct := new real[OutputWidth](_ => 0.0);
    var positives := new real[OutputWidth](_ => 0.0);
    for i := 0 to OutputWidth
      invariant i > 0 ==> m.rows >= i && m.cols >= OutputWidth
      invariant Covers(g) ==> forall k :: 0 <= k < OutputWidth ==> positives[k] == if k < i then RowSums(g)[k] else 0.0
      invariant Covers(g) ==> forall k :: 0 <= k < OutputWidth ==> correct[k] == if k < i then g[k][k] else 0.0
    {
      for j := 0 to OutputWidth
        invariant j > 0 ==> m.rows > i && m.cols >= j
        invariant i > 0 ==> m.rows >= i && m.cols >= OutputWidth
        invariant Covers(g) ==> forall k :: 0 <= k < OutputWidth && k != i ==>
          positives[k] == if k < i then RowSums(g)[k] else 0.0
        invariant Covers(g) ==> forall k :: 0 <= k < OutputWidth && k != i ==>
          correct[k] == if k < i then g[k][k] else 0.0
        invariant Covers(g) ==> positives[i] == Sum(Row(g, i)[..j])
        invariant Covers(g) ==> correct[i] == if i < j then g[i][i] else 0.0
      {
        var c := m.Get(i, j);
        if c.Failure? {
          return Failure(c.error);
        }
        if i == j {
          correct[i] := correct[i] + c.value;
        }
        positives[i] := positives[i] + c.value;
        if Covers(g) {
          SumPrefix(Row(g, i), j);
        }
      }
      if Covers(g) {
        assert Row(g, i)[..OutputWidth] == Row(g, i);
      }
    }
    assert Covers(g);
    assert correct[..] == Diagonal(g) && positives[..] == RowSums(g);
    var d := Average(correct, positives);
    r := Success(d);
  }
}
