/** What the `Network` facade (source_code/model/network.cpp:48-242) computes
    from the lines of its data files, as functions of the weights of the
    current engine. A file is the sequence of lines `std::getline` returns,
    or None when it cannot be opened; empty lines are skipped, every other
    one is decoded by `ReadLineFromFileWithPixels` and handed to the engine.
    The first exception thrown stops the whole run. */
module Evaluation {
  import opened Wrappers
  import opened Interface
  import opened Matrix
  import MatrixSpec
  import GraphSpec
  import Csv
  import Metrics

  /** The engine `ChangeCurrentNetwork` selects: `NetworkType` false is the
      matrix engine, true the graph engine. */
  datatype Kind = MatrixKind | GraphKind

  /** The weights of either engine, one matrix per layer, output layer last. */
  type Net = seq<Grid>

  /** Weights the engine of kind `k` can hold in the pool: the matrix engine
      has its layer shapes, the graph engine reads 784 inputs and has 26
      output neurons. */
  ghost predicate Fit(k: Kind, W: Net) {
    match k
    case MatrixKind => MatrixSpec.Shaped(W)
    case GraphKind => W != [] && GraphSpec.Fits(W, InputWidth) && |W[|W| - 1]| == OutputWidth
  }

  // ---- One example ----

  /** `LearnNetwork` of the engine on one example: the matrix engine throws
      invalid_argument unless there are 784 pixels, the graph engine pads or
      cuts the pixels to its input layer. */
  function Learn(k: Kind, lr: real, W: Net, px: seq<nat>, ex: nat): (r: (Outcome, Net))
    requires Fit(k, W)
    ensures Fit(k, r.1)
    ensures r.0.Fail? <==> k == MatrixKind && |px| != InputWidth
    ensures r.0.Fail? ==> r.0.error == InvalidArgument && r.1 == W
  {
    match k
    case MatrixKind =>
      if |px| != InputWidth then (Fail(InvalidArgument), W)
      else
        var x := MatrixSpec.Scaled(px);
        (Pass, MatrixSpec.Backprop(W, x, MatrixSpec.Rows(W, [x]), ex, lr))
    case GraphKind =>
      var x := GraphSpec.Padded(GraphSpec.FeedVector(px), InputWidth);
      var t := GraphSpec.ExpectationVector(GraphSpec.SizeToInt(ex - 1), OutputWidth);
      GraphSpec.TrainedFits(W, x, t, lr);
      (Pass, GraphSpec.Trained(W, x, t, lr))
  }

  /** `Prediction` of the engine: the class counted from 1. */
  function Answer(k: Kind, W: Net, px: seq<nat>): (r: Result<nat>)
    requires Fit(k, W)
    ensures r.Failure? <==> k == MatrixKind && |px| != InputWidth
    ensures r.Failure? ==> r.error == InvalidArgument
    ensures r.Success? ==> 1 <= r.value <= OutputWidth
  {
    match k
    case MatrixKind =>
      if |px| != InputWidth then Failure(InvalidArgument)
      else Success(MatrixSpec.Predicted(W, px))
    case GraphKind => Success(GraphSpec.Predict(W, InputWidth, px))
  }

  /** At learning rate 0 an example changes no weight. */
  lemma LearnZeroRate(k: Kind, W: Net, px: seq<nat>, ex: nat)
    requires Fit(k, W)
    ensures Learn(k, 0.0, W, px, ex).1 == W
  {
    match k
    case MatrixKind =>
      if |px| == InputWidth {
        var x := MatrixSpec.Scaled(px);
        MatrixSpec.BackpropZeroRate(W, x, MatrixSpec.Rows(W, [x]), ex);
      }
    case GraphKind =>
      var x := GraphSpec.Padded(GraphSpec.FeedVector(px), InputWidth);
      var t := GraphSpec.ExpectationVector(GraphSpec.SizeToInt(ex - 1), OutputWidth);
      GraphSpec.TrainedZeroRate(W, x, t);
  }

  // ---- Whole files ----

  /** The number of non-empty lines: the examples of a file. */
  function NonEmpty(lines: seq<string>): (n: nat)
    ensures n <= |lines|
    decreases |lines|
  {
    if lines == [] then 0 else (if lines[0] != [] then 1 else 0) + NonEmpty(lines[1..])
  }

  /** The body of the training loop for one line: an empty line is
      skipped, a line that does not decode stops the pass with its error,
      and an example is learned. */
  function LearnLine(k: Kind, lr: real, W: Net, line: string): (r: (Outcome, Net))
    requires Fit(k, W)
    ensures Fit(k, r.1)
    ensures r.0.Fail? ==> r.1 == W
  {
    if line == [] then (Pass, W)
    else
      match Csv.Decode(line)
      case Failure(e) => (Fail(e), W)
      case Success(example) => Learn(k, lr, W, example.1, example.0)
  }

  /** The training loop of `StartLearnNetwork` over the lines of one pass:
      every example in file order, each one learned by the weights the
      one before it left. */
  function TrainFrom(k: Kind, lr: real, W: Net, lines: seq<string>): (r: (Outcome, Net))
    requires Fit(k, W)
    ensures Fit(k, r.1)
    decreases |lines|
  {
    if lines == [] then (Pass, W)
    else
      var s := LearnLine(k, lr, W, lines[0]);
      if s.0.Fail? then s else TrainFrom(k, lr, s.1, lines[1..])
  }

  /** The body of the testing loop for one line, on the counts `(all,
      correct)` so far: an empty line counts nothing; an example counts
      once, and once among the correct ones when the class the engine
      picks is its label. */
  function TestLine(k: Kind, W: Net, line: string, counts: (nat, nat)): (r: Result<(nat, nat)>)
    requires Fit(k, W)
    ensures r.Success? && line == [] ==> r.value == counts
    ensures r.Success? && line != [] ==> r.value.0 == counts.0 + 1 && counts.1 <= r.value.1 <= counts.1 + 1
  {
    if line == [] then Success(counts)
    else
      match Csv.Decode(line)
      case Failure(e) => Failure(e)
      case Success(example) => Score(example.0, Answer(k, W, example.1), counts)
  }

  /** An example of label `ex` to which the engine answered `a`, added to
      the counts: once among all, and once among the correct ones when the
      answer is the label. */
  function Score(ex: nat, a: Result<nat>, counts: (nat, nat)): (r: Result<(nat, nat)>)
    ensures r.Success? <==> a.Success?
    ensures r.Success? ==> r.value == (counts.0 + 1, if a.value == ex then counts.1 + 1 else counts.1)
  {
    match a
    case Failure(e) => Failure(e)
    case Success(c) => Success((counts.0 + 1, if c == ex then counts.1 + 1 else counts.1))
  }

  /** The testing loop of `StartTestNetwork`: `all` counts the examples,
      `correct` those whose predicted class equals their label. */
  function TestFrom(k: Kind, W: Net, lines: seq<string>, all: nat, correct: nat): (r: Result<(nat, nat)>)
    requires Fit(k, W)
    decreases |lines|
  {
    if lines == [] then Success((all, correct))
    else
      match TestLine(k, W, lines[0], (all, correct))
      case Failure(e) => Failure(e)
      case Success(counts) => TestFrom(k, W, lines[1..], counts.0, counts.1)
  }

  /** `StartTestNetwork(file)`: a file that cannot be opened counts nothing. */
  function FileTest(k: Kind, W: Net, file: Option<seq<string>>): Result<(nat, nat)>
    requires Fit(k, W)
  {
    if file.None? then Success((0, 0)) else TestFrom(k, W, file.value, 0, 0)
  }

  /** `(double)correct / (double)all` of a test. */
  function Ratio(counts: (nat, nat)): Metrics.Double {
    Metrics.Div(counts.1 as real, counts.0 as real)
  }

  /** A test counts every example once and counts at most those as
      correct. */
  lemma {:induction false} TestCounts(k: Kind, W: Net, lines: seq<string>, all: nat, correct: nat)
    requires Fit(k, W)
    ensures var r := TestFrom(k, W, lines, all, correct);
      r.Success? ==> r.value.0 == all + NonEmpty(lines) && correct <= r.value.1 && r.value.1 - correct <= r.value.0 - all
    decreases |lines|
  {
    if lines != [] {
      var t := TestLine(k, W, lines[0], (all, correct));
      if t.Success? {
        TestCounts(k, W, lines[1..], t.value.0, t.value.1);
      }
    }
  }

  /** The share a test reports is NaN for a file without examples and a
      share in [0, 1] otherwise. */
  lemma RatioRange(k: Kind, W: Net, lines: seq<string>)
    requires Fit(k, W) && TestFrom(k, W, lines, 0, 0).Success?
    ensures Ratio(TestFrom(k, W, lines, 0, 0).value).NaN? <==> NonEmpty(lines) == 0
    ensures NonEmpty(lines) > 0 ==> Ratio(TestFrom(k, W, lines, 0, 0).value).Num?
    ensures NonEmpty(lines) > 0 ==> 0.0 <= Ratio(TestFrom(k, W, lines, 0, 0).value).value <= 1.0
  {
    TestCounts(k, W, lines, 0, 0);
    var counts := TestFrom(k, W, lines, 0, 0).value;
    if counts.0 > 0 {
      Metrics.ShareRange(counts.1 as real, counts.0 as real);
    }
  }

  /** Training on `a`, then on `b`, is training on `a + b`; a failure in
      `a` stops before `b`. */
  lemma {:induction false} TrainAppend(k: Kind, lr: real, W: Net, a: seq<string>, b: seq<string>)
    requires Fit(k, W)
    ensures TrainFrom(k, lr, W, a + b) ==
      var s := TrainFrom(k, lr, W, a); if s.0.Fail? then s else TrainFrom(k, lr, s.1, b)
    decreases |a|
  {
    if a == [] {
      assert a + b == b;
    } else {
      assert (a + b)[0] == a[0] && (a + b)[1..] == a[1..] + b;
      var s := LearnLine(k, lr, W, a[0]);
      if s.0.Pass? {
        TrainAppend(k, lr, s.1, a[1..], b);
      }
    }
  }

  /** At learning rate 0 training changes no weight, whatever it reads. */
  lemma {:induction false} TrainZeroRate(k: Kind, W: Net, lines: seq<string>)
    requires Fit(k, W)
    ensures TrainFrom(k, 0.0, W, lines).1 == W
    decreases |lines|
  {
    if lines != [] {
      if lines[0] != [] && Csv.Decode(lines[0]).Success? {
        var example := Csv.Decode(lines[0]).value;
        LearnZeroRate(k, W, example.1, example.0);
      }
      TrainZeroRate(k, W, lines[1..]);
    }
  }

  // ---- Sampled tests ----

  /** `sum_test_in_file *= sample_percentage`: the count scaled, truncated
      back to an `int`. */
  function Budget(count: nat, p: real): int {
    (count as real * p).Floor
  }

  /** A share in (0, 1] of a count is a count no larger. */
  lemma BudgetWithin(count: nat, p: real)
    requires 0.0 < p <= 1.0
    ensures 0 <= Budget(count, p) <= count
  {
    assert 0.0 <= count as real * p <= count as real;
  }

  /** The first `Budget` lines of the file: empty ones are counted too. */
  function Sample(lines: seq<string>, p: real): (s: seq<string>)
    requires 0.0 < p <= 1.0
    ensures |s| == Budget(NonEmpty(lines), p)
  {
    BudgetWithin(NonEmpty(lines), p);
    lines[..Budget(NonEmpty(lines), p)]
  }

  /** `StartTestNetwork(file, p)`: invalid_argument unless 0 < p <= 1. */
  function SampledTest(k: Kind, W: Net, file: Option<seq<string>>, p: real): (r: Result<(nat, nat)>)
    requires Fit(k, W)
    ensures (p > 1.0 || p <= 0.0) ==> r == Failure(InvalidArgument)
  {
    if p > 1.0 || p <= 0.0 then Failure(InvalidArgument)
    else if file.None? then Success((0, 0))
    else TestFrom(k, W, Sample(file.value, p), 0, 0)
  }

  /** No line of the file is empty. */
  ghost predicate NoBlank(lines: seq<string>) {
    forall i :: 0 <= i < |lines| ==> lines[i] != []
  }

  /** Without empty lines a line is an example. */
  lemma {:induction false} NoBlankCount(lines: seq<string>)
    requires NoBlank(lines)
    ensures NonEmpty(lines) == |lines|
    decreases |lines|
  {
    if lines != [] {
      assert NoBlank(lines[1..]);
      NoBlankCount(lines[1..]);
    }
  }

  /** A sampled test counts at most the budget of examples, because the
      empty lines among the first `Budget` lines use up the budget too;
      without empty lines it counts exactly the budget. */
  lemma SampledCounts(k: Kind, W: Net, lines: seq<string>, p: real)
    requires Fit(k, W) && 0.0 < p <= 1.0
    ensures var r := SampledTest(k, W, Some(lines), p);
      r.Success? ==> r.value.0 == NonEmpty(Sample(lines, p)) <= Budget(NonEmpty(lines), p)
    ensures var r := SampledTest(k, W, Some(lines), p);
      r.Success? && NoBlank(lines) ==> r.value.0 == Budget(NonEmpty(lines), p)
  {
    BudgetWithin(NonEmpty(lines), p);
    TestCounts(k, W, Sample(lines, p), 0, 0);
    if NoBlank(lines) {
      assert Sample(lines, p) == lines[..Budget(NonEmpty(lines), p)];
      assert NoBlank(Sample(lines, p));
      NoBlankCount(Sample(lines, p));
    }
  }

  // ---- Cross-validation ----

  /** `line_index` after an example: it counts 0, 1, ..., coef - 1 and
      starts again. */
  function NextIndex(idx: nat, coef: nat): nat {
    if idx + 1 == coef then 0 else idx + 1
  }

  /** The body of the training pass of fold `fold` for one line with
      `line_index` `idx`: the example is skipped when its index is the
      fold. */
  function FoldLearnLine(k: Kind, lr: real, W: Net, line: string, fold: nat, idx: nat): (r: (Outcome, Net))
    requires Fit(k, W)
    ensures Fit(k, r.1)
  {
    if idx == fold then (Pass, W) else LearnLine(k, lr, W, line)
  }

  /** The body of the testing pass of fold `fold` for one line with
      `line_index` `idx`: only an example whose index is the fold is
      predicted and counted. */
  function FoldTestLine(k: Kind, W: Net, line: string, fold: nat, idx: nat, counts: (nat, nat)): (r: Result<(nat, nat)>)
    requires Fit(k, W)
  {
    if idx != fold then Success(counts) else TestLine(k, W, line, counts)
  }

  /** `line_index` after a line: only an example advances it. */
  function IndexAfter(line: string, idx: nat, coef: nat): nat {
    if line == [] then idx else NextIndex(idx, coef)
  }

  /** The training pass of fold `fold`: the examples whose `line_index`
      differs from the fold are learned. */
  function FoldTrain(k: Kind, lr: real, W: Net, lines: seq<string>, coef: nat, fold: nat, idx: nat): (r: (Outcome, Net))
    requires Fit(k, W)
    ensures Fit(k, r.1)
    decreases |lines|
  {
    if lines == [] then (Pass, W)
    else
      var s := FoldLearnLine(k, lr, W, lines[0], fold, idx);
      if s.0.Fail? then s else FoldTrain(k, lr, s.1, lines[1..], coef, fold, IndexAfter(lines[0], idx, coef))
  }

  /** The testing pass of fold `fold`: the examples whose `line_index`
      equals the fold are predicted. */
  function FoldTest(k: Kind, W: Net, lines: seq<string>, coef: nat, fold: nat, idx: nat, all: nat, correct: nat)
    : (r: Result<(nat, nat)>)
    requires Fit(k, W)
    decreases |lines|
  {
    if lines == [] then Success((all, correct))
    else
      match FoldTestLine(k, W, lines[0], fold, idx, (all, correct))
      case Failure(e) => Failure(e)
      case Success(counts) => FoldTest(k, W, lines[1..], coef, fold, IndexAfter(lines[0], idx, coef), counts.0, counts.1)
  }

  /** The examples of fold `fold`, from the `n`-th example on (counted from
      0): those whose number modulo `coef` is the fold (`test`), or the
      others. */
  function Select(lines: seq<string>, coef: nat, fold: nat, test: bool, n: nat): (s: seq<string>)
    requires coef > 0
    decreases |lines|
  {
    if lines == [] then []
    else if lines[0] == [] then Select(lines[1..], coef, fold, test, n)
    else (if (n % coef == fold) == test then [lines[0]] else []) + Select(lines[1..], coef, fold, test, n + 1)
  }

  /** A multiple of `d` strictly between -d and d is 0. */
  lemma MultipleNearZero(x: int, d: nat)
    requires d > 0 && -(d as int) < x * d < d
    ensures x == 0
  {
  }

  /** Division leaves one remainder. */
  lemma ModUnique(a: nat, q: nat, r: nat, d: nat)
    requires 0 <= r < d && a == q * d + r
    ensures a % d == r
  {
    var q', r' := a / d, a % d;
    assert a == q' * d + r';
    assert (q - q') * d == r' - r;
    MultipleNearZero(q - q', d);
  }

  /** `line_index` is the number of the example modulo `coef`. */
  lemma NextIndexMod(n: nat, coef: nat)
    requires coef > 0
    ensures NextIndex(n % coef, coef) == (n + 1) % coef
  {
    var q, r := n / coef, n % coef;
    if r + 1 < coef {
      ModUnique(n + 1, q, r + 1, coef);
    } else {
      assert n + 1 == (q + 1) * coef + 0;
      ModUnique(n + 1, q + 1, 0, coef);
    }
  }

  /** The training pass of a fold trains on exactly the examples outside
      the fold, in file order. */
  lemma {:induction false} FoldTrainSelects(k: Kind, lr: real, W: Net, lines: seq<string>, coef: nat, fold: nat, n: nat)
    requires Fit(k, W) && coef > 0
    ensures FoldTrain(k, lr, W, lines, coef, fold, n % coef) == TrainFrom(k, lr, W, Select(lines, coef, fold, false, n))
    decreases |lines|
  {
    if lines != [] {
      NextIndexMod(n, coef);
      var rest := Select(lines[1..], coef, fold, false, n + 1);
      if lines[0] == [] {
        FoldTrainSelects(k, lr, W, lines[1..], coef, fold, n);
      } else if n % coef == fold {
        FoldTrainSelects(k, lr, W, lines[1..], coef, fold, n + 1);
        assert Select(lines, coef, fold, false, n) == rest;
      } else {
        assert Select(lines, coef, fold, false, n) == [lines[0]] + rest;
        assert ([lines[0]] + rest)[0] == lines[0] && ([lines[0]] + rest)[1..] == rest;
        var s := LearnLine(k, lr, W, lines[0]);
        if s.0.Pass? {
          FoldTrainSelects(k, lr, s.1, lines[1..], coef, fold, n + 1);
        }
      }
    }
  }

  /** The testing pass of a fold tests exactly the examples in the fold. */
  lemma {:induction false} FoldTestSelects(k: Kind, W: Net, lines: seq<string>, coef: nat, fold: nat, n: nat, all: nat, correct: nat)
    requires Fit(k, W) && coef > 0
    ensures FoldTest(k, W, lines, coef, fold, n % coef, all, correct) == TestFrom(k, W, Select(lines, coef, fold, true, n), all, correct)
    decreases |lines|
  {
    if lines != [] {
      NextIndexMod(n, coef);
      var rest := Select(lines[1..], coef, fold, true, n + 1);
      if lines[0] == [] {
        FoldTestSelects(k, W, lines[1..], coef, fold, n, all, correct);
      } else if n % coef != fold {
        FoldTestSelects(k, W, lines[1..], coef, fold, n + 1, all, correct);
        assert Select(lines, coef, fold, true, n) == rest;
      } else {
        assert Select(lines, coef, fold, true, n) == [lines[0]] + rest;
        assert ([lines[0]] + rest)[0] == lines[0] && ([lines[0]] + rest)[1..] == rest;
        var t := TestLine(k, W, lines[0], (all, correct));
        if t.Success? {
          FoldTestSelects(k, W, lines[1..], coef, fold, n + 1, t.value.0, t.value.1);
        }
      }
    }
  }

  /** A fold splits the examples: each one is either predicted or learned. */
  lemma {:induction false} SelectSplits(lines: seq<string>, coef: nat, fold: nat, n: nat)
    requires coef > 0
    ensures |Select(lines, coef, fold, true, n)| + |Select(lines, coef, fold, false, n)| == NonEmpty(lines)
    decreases |lines|
  {
    if lines != [] {
      SelectSplits(lines[1..], coef, fold, n + (if lines[0] == [] then 0 else 1));
    }
  }

  /** `StartCVLearn` from fold `fold` on, after the shares `acc` of the
      folds before it: each fold trains the weights the fold before it left
      and reports its share; an unopened file reports 0 / 0. */
  function CrossFrom(k: Kind, lr: real, W: Net, file: Option<seq<string>>, coef: nat, fold: nat, acc: seq<Metrics.Double>)
    : (r: (Result<seq<Metrics.Double>>, Net))
    requires Fit(k, W)
    ensures Fit(k, r.1)
    decreases coef - fold
  {
    if coef <= fold then (Success(acc), W)
    else
      var s := FoldStep(k, lr, W, file, coef, fold, acc);
      if s.0.Failure? then s else CrossFrom(k, lr, s.1, file, coef, fold + 1, s.0.value)
  }

  /** Fold `fold` of `StartCVLearn`, after the shares `acc`: its training
      pass, then its testing pass, whose share is appended; an unopened
      file appends 0 / 0. */
  function FoldStep(k: Kind, lr: real, W: Net, file: Option<seq<string>>, coef: nat, fold: nat, acc: seq<Metrics.Double>)
    : (r: (Result<seq<Metrics.Double>>, Net))
    requires Fit(k, W)
    ensures Fit(k, r.1)
    ensures r.0.Success? ==> |r.0.value| == |acc| + 1 && r.0.value[..|acc|] == acc
  {
    if file.None? then (Success(acc + [Metrics.Div(0.0, 0.0)]), W)
    else
      var t := FoldTrain(k, lr, W, file.value, coef, fold, 0);
      if t.0.Fail? then (Failure(t.0.error), t.1)
      else
        match FoldTest(k, t.1, file.value, coef, fold, 0, 0, 0)
        case Failure(e) => (Failure(e), t.1)
        case Success(counts) => (Success(acc + [Ratio(counts)]), t.1)
  }

  /** Cross-validation reports one share per fold. */
  lemma {:induction false} CrossCount(k: Kind, lr: real, W: Net, file: Option<seq<string>>, coef: nat, fold: nat, acc: seq<Metrics.Double>)
    requires Fit(k, W) && fold <= coef
    ensures var r := CrossFrom(k, lr, W, file, coef, fold, acc).0;
      r.Success? ==> |r.value| == |acc| + coef - fold
    decreases coef - fold
  {
    if fold < coef {
      var s := FoldStep(k, lr, W, file, coef, fold, acc);
      if s.0.Success? {
        CrossCount(k, lr, s.1, file, coef, fold + 1, s.0.value);
      }
    }
  }

  // ---- Epochs ----

  /** `StartLearnNetwork` for `n` more epochs after the shares `acc`: each
      epoch trains on the file (when it opens) and, when a test was asked
      for, reports the share of the test file. */
  function EpochsFrom(k: Kind, lr: real, W: Net, train: Option<seq<string>>, test: Option<Option<seq<string>>>,
                      n: nat, acc: seq<Metrics.Double>): (r: (Result<seq<Metrics.Double>>, Net))
    requires Fit(k, W)
    ensures Fit(k, r.1)
    decreases n
  {
    if n == 0 then (Success(acc), W)
    else
      var s := EpochStep(k, lr, W, train, test, acc);
      if s.0.Failure? then s else EpochsFrom(k, lr, s.1, train, test, n - 1, s.0.value)
  }

  /** One epoch of `StartLearnNetwork` after the shares `acc`: a training
      pass over the file when it opens, then, when a test was asked for,
      the share of the test file appended. */
  function EpochStep(k: Kind, lr: real, W: Net, train: Option<seq<string>>, test: Option<Option<seq<string>>>,
                     acc: seq<Metrics.Double>): (r: (Result<seq<Metrics.Double>>, Net))
    requires Fit(k, W)
    ensures Fit(k, r.1)
    ensures r.0.Success? ==> |r.0.value| == |acc| + (if test.Some? then 1 else 0) && r.0.value[..|acc|] == acc
  {
    var t := if train.Some? then TrainFrom(k, lr, W, train.value) else (Pass, W);
    if t.0.Fail? then (Failure(t.0.error), t.1)
    else if test.None? then (Success(acc), t.1)
    else
      match FileTest(k, t.1, test.value)
      case Failure(e) => (Failure(e), t.1)
      case Success(counts) => (Success(acc + [Ratio(counts)]), t.1)
  }

  /** With a test the run reports one share per epoch, without one none. */
  lemma {:induction false} EpochsCount(k: Kind, lr: real, W: Net, train: Option<seq<string>>, test: Option<Option<seq<string>>>,
                                       n: nat, acc: seq<Metrics.Double>)
    requires Fit(k, W)
    ensures var r := EpochsFrom(k, lr, W, train, test, n, acc).0;
      r.Success? ==> |r.value| == |acc| + (if test.Some? then n else 0)
    decreases n
  {
    if n > 0 {
      var s := EpochStep(k, lr, W, train, test, acc);
      if s.0.Success? {
        EpochsCount(k, lr, s.1, train, test, n - 1, s.0.value);
      }
    }
  }

  /** One epoch taken off the front of `n`: the outcome `(r, W')` of the
      epoch either ends the run or starts the remaining `n - 1`. */
  lemma EpochsNext(k: Kind, lr: real, W: Net, W': Net, train: Option<seq<string>>, test: Option<Option<seq<string>>>,
                   n: nat, acc: seq<Metrics.Double>, r: Result<seq<Metrics.Double>>)
    requires Fit(k, W) && n > 0 && (r, W') == EpochStep(k, lr, W, train, test, acc)
    ensures r.Failure? ==> EpochsFrom(k, lr, W, train, test, n, acc) == (r, W')
    ensures r.Success? ==> Fit(k, W') && EpochsFrom(k, lr, W, train, test, n, acc) == EpochsFrom(k, lr, W', train, test, n - 1, r.value)
  {
  }

  /** One epoch of training without a test is one pass over the file. */
  lemma EpochsOne(k: Kind, lr: real, W: Net, lines: seq<string>)
    requires Fit(k, W)
    ensures EpochsFrom(k, lr, W, Some(lines), None, 1, []).1 == TrainFrom(k, lr, W, lines).1
  {
  }

  // ---- Confusion matrix ----

  /** The cell `res(expected_value - 1, Prediction - 1)` as written: the
      label minus 1 is taken modulo 2^64 as a `size_t` and passed as an
      `int`, and the operator checks only the upper bounds. */
  function CellAsWritten(ex: nat, pred: nat): (r: Result<(int, int)>)
    ensures r.Success? ==> r.value.0 < OutputWidth && r.value.1 < OutputWidth
  {
    var row, col := GraphSpec.SizeToInt(ex - 1), pred - 1;
    if OutputWidth <= row || OutputWidth <= col then Failure(OutOfRange) else Success((row, col))
  }

  /** Label 0 passes the bounds test of `operator()` with row -1: the count goes to the cell
      before the matrix. */
  lemma LabelZeroAsWritten()
    ensures CellAsWritten(0, 1) == Success((-1, 0))
  {
    assert GraphSpec.SizeToInt(-1) == -1;
  }

  /** Label 2^32 + 1 wraps round to row 0 and is counted as class 1. */
  lemma LabelWrapsAsWritten()
    ensures CellAsWritten(0x1_0000_0001, 1) == Success((0, 0))
  {
    assert GraphSpec.SizeToInt(0x1_0000_0000) == 0;
  }

  /** The cell as intended: labels 1 .. 26 count in their own row, any
      other label is out of range. */
  function Cell(ex: nat, pred: nat): (r: Result<(nat, nat)>)
    requires 1 <= pred <= OutputWidth
  {
    if 1 <= ex <= OutputWidth then Success((ex - 1, pred - 1)) else Failure(OutOfRange)
  }

  /** The intended cell agrees with the code on every label 1 .. 26, counts
      every example in row label - 1 and column prediction - 1, and
      refuses exactly the labels whose row the code gets wrong. */
  lemma CellCorrects(ex: nat, pred: nat)
    requires 1 <= pred <= OutputWidth
    ensures Cell(ex, pred).Success? <==> 1 <= ex <= OutputWidth
    ensures Cell(ex, pred).Success? ==>
      Cell(ex, pred).value == (ex - 1, pred - 1) && CellAsWritten(ex, pred) == Success((ex - 1, pred - 1))
    ensures Cell(ex, pred).Failure? ==>
      Cell(ex, pred).error == OutOfRange &&
      (CellAsWritten(ex, pred).Success? ==> CellAsWritten(ex, pred).value.0 < 0 || CellAsWritten(ex, pred).value.0 != ex - 1)
  {
  }

  /** The matrix after one more example in cell (r, c). */
  function Bump(g: Grid, r: nat, c: nat): (h: Grid)
    requires IsShape(g, OutputWidth, OutputWidth) && r < OutputWidth && c < OutputWidth
    ensures IsShape(h, OutputWidth, OutputWidth)
  {
    g[r := g[r][c := g[r][c] + 1.0]]
  }

  /** The body of the counting loop of `StartConfusionTest` for one line:
      an empty line counts nothing; an example adds 1 in the row of its
      label and the column of its predicted class. */
  function ConfusionLine(k: Kind, W: Net, line: string, g: Grid): (r: Result<Grid>)
    requires Fit(k, W) && IsShape(g, OutputWidth, OutputWidth)
    ensures r.Success? ==> IsShape(r.value, OutputWidth, OutputWidth)
  {
    if line == [] then Success(g)
    else
      match Csv.Decode(line)
      case Failure(e) => Failure(e)
      case Success(example) => Tally(example.0, Answer(k, W, example.1), g)
  }

  /** An example of label `ex` to which the engine answered `a`, counted
      in its cell. */
  function Tally(ex: nat, a: Result<nat>, g: Grid): (r: Result<Grid>)
    requires IsShape(g, OutputWidth, OutputWidth) && (a.Success? ==> 1 <= a.value <= OutputWidth)
    ensures r.Success? ==> IsShape(r.value, OutputWidth, OutputWidth)
  {
    match a
    case Failure(e) => Failure(e)
    case Success(c) =>
      match Cell(ex, c)
      case Failure(e) => Failure(e)
      case Success(cell) => Success(Bump(g, cell.0, cell.1))
  }

  /** The counting loop of `StartConfusionTest`, line by line. */
  function ConfusionFrom(k: Kind, W: Net, lines: seq<string>, g: Grid): (r: Result<Grid>)
    requires Fit(k, W) && IsShape(g, OutputWidth, OutputWidth)
    ensures r.Success? ==> IsShape(r.value, OutputWidth, OutputWidth)
    decreases |lines|
  {
    if lines == [] then Success(g)
    else
      match ConfusionLine(k, W, lines[0], g)
      case Failure(e) => Failure(e)
      case Success(h) => ConfusionFrom(k, W, lines[1..], h)
  }

  /** One line adds one count when it is an example and none otherwise,
      and keeps every cell a count. */
  lemma ConfusionLineCounts(k: Kind, W: Net, line: string, g: Grid)
    requires Fit(k, W) && IsShape(g, OutputWidth, OutputWidth)
    ensures var r := ConfusionLine(k, W, line, g);
      r.Success? ==> Metrics.Total(r.value) == Metrics.Total(g) + (if line == [] then 0.0 else 1.0)
    ensures var r := ConfusionLine(k, W, line, g);
      r.Success? && Metrics.NonNegative(g) ==> Metrics.NonNegative(r.value)
  {
    var r := ConfusionLine(k, W, line, g);
    if line != [] && r.Success? {
      var example := Csv.Decode(line).value;
      var cell := Cell(example.0, Answer(k, W, example.1).value).value;
      assert r.value == Bump(g, cell.0, cell.1);
      Metrics.TotalBump(g, cell.0, cell.1);
      if Metrics.NonNegative(g) {
        var h := r.value;
        forall i, j | 0 <= i < |h| && 0 <= j < |h[i]|
          ensures h[i][j] >= 0.0
        {
          assert g[i][j] >= 0.0;
        }
      }
    }
  }

  /** `StartConfusionTest(file, p)`: invalid_argument unless 0 < p <= 1; a
      26 x 26 matrix of zeros when the file cannot be opened. */
  function ConfusionTest(k: Kind, W: Net, file: Option<seq<string>>, p: real): (r: Result<Grid>)
    requires Fit(k, W)
    ensures (p > 1.0 || p <= 0.0) ==> r == Failure(InvalidArgument)
    ensures r.Success? ==> IsShape(r.value, OutputWidth, OutputWidth)
  {
    if p > 1.0 || p <= 0.0 then Failure(InvalidArgument)
    else if file.None? then Success(Zeros(OutputWidth, OutputWidth))
    else ConfusionFrom(k, W, Sample(file.value, p), Zeros(OutputWidth, OutputWidth))
  }

  /** Every example lands in exactly one cell: the counts grow by the number
      of examples. */
  lemma {:induction false} ConfusionCounts(k: Kind, W: Net, lines: seq<string>, g: Grid)
    requires Fit(k, W) && IsShape(g, OutputWidth, OutputWidth)
    ensures var r := ConfusionFrom(k, W, lines, g);
      r.Success? ==> Metrics.Total(r.value) == Metrics.Total(g) + NonEmpty(lines) as real
    decreases |lines|
  {
    if lines != [] {
      var t := ConfusionLine(k, W, lines[0], g);
      ConfusionLineCounts(k, W, lines[0], g);
      if t.Success? {
        ConfusionCounts(k, W, lines[1..], t.value);
      }
    }
  }

  /** Counting keeps every cell a count. */
  lemma {:induction false} ConfusionNonNegative(k: Kind, W: Net, lines: seq<string>, g: Grid)
    requires Fit(k, W) && IsShape(g, OutputWidth, OutputWidth) && Metrics.NonNegative(g)
    ensures var r := ConfusionFrom(k, W, lines, g); r.Success? ==> Metrics.NonNegative(r.value)
    decreases |lines|
  {
    if lines != [] {
      var t := ConfusionLine(k, W, lines[0], g);
      ConfusionLineCounts(k, W, lines[0], g);
      if t.Success? {
        ConfusionNonNegative(k, W, lines[1..], t.value);
      }
    }
  }

  /** The accuracy of a confusion matrix counted from at least one example
      is a share in [0, 1]. */
  lemma ConfusionAccuracy(k: Kind, W: Net, lines: seq<string>, g: Grid)
    requires Fit(k, W) && NonEmpty(lines) > 0
    requires ConfusionFrom(k, W, lines, Zeros(OutputWidth, OutputWidth)) == Success(g)
    ensures Metrics.Covers(g) && Metrics.Accuracy(g).Num?
    ensures 0.0 <= Metrics.Accuracy(g).value <= 1.0
  {
    var z := Zeros(OutputWidth, OutputWidth);
    assert Metrics.NonNegative(z);
    ConfusionCounts(k, W, lines, z);
    ConfusionNonNegative(k, W, lines, z);
    Metrics.TotalNonNegative(z);
    Metrics.AccuracyRange(g);
  }
}
