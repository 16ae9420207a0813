# perceptron — a Dafny model of the letter-recognition MLP core

The program recognises the 26 letters of the Latin alphabet from 28 x 28
images (784 pixels). It does this with a multilayer perceptron that has
140 neurons in each hidden layer and 26 outputs. The network comes in two
interchangeable engines:

* **The matrix engine** (`MatrixNetwork`, matrixNetwork.cpp). It keeps one
  `S21Matrix` of weights per layer, runs the forward pass as
  vector-matrix products with a sigmoid, and learns by back-propagation
  with deltas stored per layer. The Dafny classes are `Matrix.S21Matrix`
  (over an `array2<real>`), `MatrixNet.Layer` and
  `MatrixNet.MatrixNetwork`. The specification functions are in
  `MatrixSpec`.
* **The graph engine** (`GraphNetwork`, graphNetwork.cpp, and `Neuron`,
  model/neuron.cpp). It is a graph of `Neuron` objects. Each neuron holds
  links to the neurons feeding it, one weight per input, its value and
  its derivative. The Dafny classes are `Neurons.Neuron` and
  `Graph.GraphNetwork`, which keeps a ghost map placing every neuron at
  its layer and index and a ghost copy `W` of the weights. The
  specification functions are in `GraphSpec` and `GraphWeights`.

Both engines write and read the same text **weight file**:
* a line `Weights Network`;
* a line `<n> Hiddens Layers`;
* one block per weight layer: the hidden layers in order, then the output
  layer.

Each block has one line per input with the weights of all neurons
separated by spaces, and ends with the line `Layer weights are over`.
`WeightFile` models this format and both loaders. Each engine's
save-then-load round trip is proved. So is the exchange between engines:
a file either engine saves loads into the other engine of the same
depth, which is what the pool relies on when it hands one file to both
engines of a slot.

**The pool** (`Network`, source_code/model/network.cpp) owns four matrix
engines and four graph engines, with 2, 3, 4 and 5 hidden layers. The
matrix engine with two hidden layers is current at first, and the pool
forwards learning, prediction, saving and loading to it. The pool's other
tasks:
* it reads the CSV data sets: a line is a label 1..26 followed by 784
  pixel values (`Csv`, `Text.Stoul`);
* it trains for a number of epochs, or by k-fold cross-validation;
* it tests on a whole file or on a sample of it;
* it builds a 26 x 26 confusion matrix;
* it computes accuracy, macro precision, recall and the F-measure from
  that matrix.

`Pool.Network` models the object. `Evaluation` gives the learning and
testing passes as functions over the weights of the current engine, and
`Metrics` gives the measures, with the IEEE division of doubles (0 / 0 is
NaN) written out.

Modelling conventions:
* float and double arithmetic is over `real`;
* the logistic sigmoid is the uninterpreted `Activation.Sigmoid`, and its
  derivative at an output v is `Activation.Slope(v) = v * (1 - v)`;
* `rand()` is a parameter `rand: nat -> nat` giving the value of each
  call in turn;
* a file is `Option<seq<string>>` (`None` when it cannot be opened; else
  the lines `getline` returns);
* exceptions become `Outcome`/`Result` values carrying `InvalidArgument`
  or `OutOfRange`.

Every stateful operation is a method whose `ensures` ties the new state to
a specification function of the old state. The properties are proved about
those functions:
* each weight file round-trips;
* the output derivatives point away from the target, so each gradient
  step moves a weight on a positive input against its derivative; in the
  matrix engine, when the last hidden layer's outputs are positive, the
  weights into the expected output rise and the other
  output weights fall;
* a fold trains on exactly the examples outside it and tests exactly those
  inside it;
* the confusion matrix counts every example once;
* every measure lies in [0, 1] or is NaN exactly when its divisor is 0.

The two engines differ in two places, and the model keeps each as written:
* **Hidden deltas.** The matrix engine's hidden-layer deltas
  (matrixNetwork.cpp:312-320) sum the next deltas along the layer's *own*
  weight grid (`MatrixSpec.HiddenDelta`). The graph engine sums along the
  weights of the next layer (graphNetwork.cpp:371-373).
* **Sign convention.** The matrix engine adds `lr * delta * input`, with
  delta `(t - o) o (1 - o)`. The graph engine subtracts `lr * deriv *
  input`, with deriv `(o - t) o (1 - o)`. `MatrixSpec.OutputDeltaMirrorsGraph`
  states that the two agree.

## Model

| member | source | states |
|---|---|---|
| Matrix.Zeros | model/s21_matrix_oop.h:14-21 | a fresh r x c buffer: exactly r rows of c cells, every one 0 |
| Matrix.Product | model/s21_matrix_oop.h:75-86 | the product of an n x m and an m x c matrix has shape n x c |
| Matrix.MapSigmoid | model/s21_matrix_oop.h:12 | applying the sigmoid cell by cell keeps the shape |
| Matrix.SigmoidProduct | model/s21_matrix_oop.h:88-100 | the fused multiply-and-squash has the shape of the product |
| Matrix.FirstMax | graphNetwork.cpp:185-196 | the left-to-right strict-improvement scan returns the first index holding the maximum |
| Matrix.FirstMaxUnique | graphNetwork.cpp:185-196 | a sequence has exactly one first maximum, so every scan that finds one finds the same index |
| Matrix.DotWithZeros | tests.cpp:27-28 | every partial dot product against a zero column is 0 |
| Matrix.ProductWithZeros | tests.cpp:27-28 | multiplying by a zero matrix gives the zero matrix of the product's shape |
| Matrix.SigmoidProductWithZeros | tests.cpp:24-26 | the fused multiply against zeros puts Sigmoid(0) = 0.5 in every cell |
| Matrix.ProductOfScalars | tests.cpp:17-23 | [[2]] times [[3]] is [[6]] |
| Matrix.FirstMaxCellOfRow | model/s21_matrix_oop.h:143-160 | in a one-row matrix the first maximal cell is the first maximal entry, tying the matrix search to the vector scan |
| Matrix.S21Matrix.Allocate | model/s21_matrix_oop.h:14-21 | memory distribution yields a valid r x c matrix of zeros in a buffer of its own |
| Matrix.S21Matrix.New | model/s21_matrix_oop.h:32-37 | the public constructor fails with invalid_argument exactly when a dimension is below 1, otherwise yields an r x c zero matrix |
| Matrix.S21Matrix.Copy | model/s21_matrix_oop.h:39 | the copy has the same dimensions and cells in a fresh buffer, never released |
| Matrix.S21Matrix.Clear | model/s21_matrix_oop.h:49-60 | the buffer is released and the matrix becomes 0 x 0; clearing a released matrix changes nothing |
| Matrix.S21Matrix.Swap | model/s21_matrix_oop.h:62-69 | swapping with itself fails with out_of_range and changes nothing; otherwise the two matrices exchange dimensions, buffers and cells |
| Matrix.S21Matrix.Get | model/s21_matrix_oop.h:136-141 | out_of_range exactly when a coordinate reaches its dimension; otherwise the cell's value |
| Matrix.S21Matrix.Set | model/s21_matrix_oop.h:129-134 | out_of_range and no change exactly when a coordinate reaches its dimension; otherwise that one cell takes the value and no other cell changes |
| Matrix.S21Matrix.MulMatrix | model/s21_matrix_oop.h:75-86 | invalid_argument and no change exactly when the inner dimensions differ or the result would be empty; otherwise the cells become the matrix product |
| Matrix.S21Matrix.MulMatrixWithSigmoid | model/s21_matrix_oop.h:88-100 | the same failure cases; otherwise the cells become the product with the sigmoid applied to every cell |
| Matrix.S21Matrix.Accumulate | model/s21_matrix_oop.h:75-100 | the triple loop leaves in a new buffer every cell of the product, squashed when asked |
| Matrix.S21Matrix.Assign | model/s21_matrix_oop.h:103-116 | self-assignment fails with invalid_argument and changes nothing; otherwise this matrix gets the other's dimensions and cells in a buffer of its own |
| Matrix.S21Matrix.Times | model/s21_matrix_oop.h:118-122 | the product in a new matrix, with the failure cases of MulMatrix, and neither operand changed |
| Matrix.S21Matrix.SearchMaxElement | model/s21_matrix_oop.h:143-160 | out_of_range exactly when the buffer was released by `Clear`; otherwise the first cell in row-major order holding the maximum |
| Matrix.SearchExample | tests.cpp:31-37 | in [1, 3, 2] the maximum is found at row 0, column 1 |
| Neurons.Corrected | model/neuron.cpp:44-52 | one gradient step keeps the number of weights |
| Neurons.Values | neuron.h:19 | the values of a list of neurons, entry by entry |
| Neurons.Derivs | model/neuron.cpp:33-35 | the derivatives of a list of neurons, entry by entry |
| Neurons.WeightsOf | neuron.h:20 | the weight lists of a list of neurons, entry by entry |
| Neurons.Neuron.constructor | neuron.h:10-17 | a fresh neuron has no inputs and no weights, value and derivative 0, linear mode |
| Neurons.Neuron.AddInput | model/neuron.cpp:9-12 | appends one input and its weight in lockstep; nothing else changes |
| Neurons.Neuron.AddUnitInput | neuron.h:24 | appends one input with weight 1; nothing else changes |
| Neurons.Neuron.ClearInput | model/neuron.cpp:14 | empties the input list and leaves the weight list as it was |
| Neurons.Neuron.ClearConnections | model/neuron.cpp:14 | the corrected clear: inputs and weights are both emptied (see Findings) |
| Neurons.Neuron.SetMode | model/neuron.cpp:16-19 | the mode changes only to one of the two known modes; any other code is ignored |
| Neurons.Neuron.SetValue | neuron.h:21 | sets the value and nothing else |
| Neurons.Neuron.SetDeriv | model/neuron.cpp:29-31 | sets the derivative and nothing else |
| Neurons.Neuron.SetWeight | neuron.h:20 | a write through `weight(index)` changes that one weight only |
| Neurons.Neuron.SumInput | model/neuron.cpp:37-42 | the loop returns the weighted sum of the input values over the inputs |
| Neurons.Neuron.Activate | model/neuron.cpp:21-27 | the value becomes the weighted input sum, squashed unless the neuron is linear; nothing else changes |
| Neurons.Neuron.CorrectWeight | model/neuron.cpp:50-52 | one weight moves by -rate * input value * derivative; nothing else changes |
| Neurons.Neuron.CorrectWeights | model/neuron.cpp:44-48 | every weight takes its gradient step (the weights become Corrected of the old weights and input values) |
| Neurons.CorrectedZeroDeriv | model/neuron.cpp:44-52 | with derivative 0 the weights are unchanged |
| Neurons.CorrectedMovesAgainstInput | model/neuron.cpp:50-52 | with positive rate and derivative a weight on a positive input strictly decreases and one on a zero input stays |
| Neurons.WeightedSumPrefix | model/neuron.cpp:37-42 | weights past the inputs take no part in the sum |
| Neurons.WeightedSumUnit | neuron.h:24 | with every weight 1 the weighted sum is the plain sum of the input values |
| Neurons.WeightedSumZero | model/neuron.cpp:37-42 | with every weight 0 the weighted sum is 0 |
| Neurons.SetGetScenario | tests.cpp:39-45 | set_value(1.1) then get_value gives 1.1; set_deriv(0.9) then get_deriv gives 0.9 |
| Neurons.SimpleNetScenario | tests.cpp:47-58 | a linear neuron fed by value 1 over weight 1 takes value 1; with weight 0 in sigmoid mode it takes Sigmoid(0) |
| Neurons.CorrectionScenario | tests.cpp:60-72 | a correction with derivative 0 keeps weight 1; one with a positive derivative lowers it |
| Text.ScanLine | graphNetwork.cpp:265-279 | the character loop emits exactly the tokens Scan describes: a separator emits the accumulated token, the last character completes and emits it |
| Text.ScanTokenThenSep | matrixNetwork.cpp:228-241 | a token followed by a separator is emitted whole at the separator and scanning restarts after it |
| Text.ScanLastToken | matrixNetwork.cpp:228-241 | a final token is emitted whole by the end of the line |
| Text.ScanJoin | graphNetwork.cpp:227-237 | a line written by joining tokens with the separator scans back to those tokens, all but the last emitted by a separator |
| Text.DigitPrefix | source_code/model/network.cpp:329-337 | the longest prefix made of digits: every character of it is a digit and the next one is not |
| Text.SkipSpace | source_code/model/network.cpp:329-337 | the rest of the token after its leading white space starts with no white space |
| Text.Stoul | source_code/model/network.cpp:329-337 | `std::stoul` either yields a value below 2^64 or fails with invalid_argument or out_of_range |
| Text.StoulDigitRun | source_code/model/network.cpp:329-337 | the value of a digit run, negated modulo 2^64 after a minus sign, stays below 2^64 |
| Text.StoulDigits | source_code/model/network.cpp:329-337 | a token of digits reads as the number it writes when that fits 64 bits and fails with out_of_range otherwise |
| Text.StoulUnsigned | source_code/model/network.cpp:329-337 | a token starting with a digit is read without a sign, as its digit prefix |
| Text.StoulRefuses | source_code/model/network.cpp:329-337 | a token starting with anything but white space, a sign or a digit fails with invalid_argument |
| Text.NatToStringDigits | graphNetwork.cpp:226 | `std::to_string` writes at least one character, all of them digits |
| Text.NatToStringValue | graphNetwork.cpp:226 | the digits `std::to_string` writes denote the number written |
| Text.StoulNatToString | source_code/model/network.cpp:329-337 | `std::stoul` reads back what `std::to_string` writes, for every value below 2^64 |
| Text.NatToStringInjective | graphNetwork.cpp:255 | different depths have different depth lines, so the loader's comparison is a comparison of depths |
| Csv.Take | source_code/model/network.cpp:327-340 | one token read: the first a comma ends becomes the label, every later one a pixel truncated to 32 bits, so the pixels keep fitting `unsigned` |
| Csv.Convert | source_code/model/network.cpp:326-341 | reading the tokens in order keeps the label below 2^64 and the pixels within 32 bits; the first refused token ends the line with its exception |
| Csv.Decode | source_code/model/network.cpp:320-342 | a decoded line has a label that fits `size_t` and pixels that fit `unsigned` |
| Csv.ReadLineFromFileWithPixels | source_code/model/network.cpp:320-342 | the reading loop yields exactly Decode of the line |
| Csv.ConvertFirst | source_code/model/network.cpp:327-334 | a token that converts is taken and the rest is read from the new state |
| Csv.ConvertPixels | source_code/model/network.cpp:328-337 | pixel tokens after the label are appended in order, the last one by the end of the line |
| Csv.DecodeEncode | source_code/model/network.cpp:320-342 | round trip of the data-set format: a line written from a label and at least one pixel reads back as that label and those pixels |
| Csv.DecodeUnlabelled | source_code/model/network.cpp:335-337 | a line without a comma keeps label 0 and is read as one pixel |
| WeightFile.Stod | graphNetwork.cpp:268 | `std::stod` fails with invalid_argument on a token that does not convert, and always on the empty token two separators in a row leave |
| WeightFile.ReadableAt | graphNetwork.cpp:231-233 | under the hypothesis that written weights read back, each written weight is a separator-free token that converts |
| WeightFile.GridLinesSnoc | matrixNetwork.cpp:250-258 | saving one more row appends its line, if it has cells |
| WeightFile.BodySnoc | graphNetwork.cpp:227-237 | saving one more layer appends its block and the "Layer weights are over" line |
| WeightFile.CheckHeader | graphNetwork.cpp:252-255 | the load proceeds exactly when line 0 is "Weights Network" and line 1 is the depth line of this network; otherwise invalid_argument |
| WeightFile.LinePuts | graphNetwork.cpp:266-279 | one store per token of the line, a separator moving to the next column and the end of the line back to column 0 |
| WeightFile.BlockEnd | matrixNetwork.cpp:220-225 | the matrix loader's next block starts after the sentinel or at the end of the file |
| WeightFile.NextRead | graphNetwork.cpp:257-264 | each turn of the graph loader consumes at least one line; a sentinel moves to row 0 of the next layer and reads its first line at once |
| WeightFile.GraphPutsStep | graphNetwork.cpp:257-281 | the graph loader's stores from line i are those of one turn followed by those from where it leaves off |
| WeightFile.ApplyGrid | matrixNetwork.cpp:228-241 | storing a block keeps the matrix shape; a failure is invalid_argument from `stod` or out_of_range from `operator()` |
| WeightFile.SepsPuts | matrixNetwork.cpp:228-241 | the tokens of a line go to consecutive columns from where the line starts, and the end of the line returns to column 0 |
| WeightFile.RowRead | graphNetwork.cpp:266-279 | a saved row reads back as its cells, in order, from column 0 |
| WeightFile.RowNotSentinel | graphNetwork.cpp:259 | a saved row is never mistaken for the sentinel line |
| WeightFile.BlockRead | matrixNetwork.cpp:220-243 | the matrix engine reads a saved block back cell by cell and stops just after its sentinel |
| WeightFile.RowThenRest | graphNetwork.cpp:257-281 | in a saved file, the line at a row position is that row's line and the lines after it are the rest of the file |
| WeightFile.SentinelThenRow | graphNetwork.cpp:259-264 | in a saved file, a sentinel is followed by the first row of the next layer and then by the rest of the file |
| WeightFile.GraphRead | graphNetwork.cpp:257-281 | the graph engine reads the rest of a saved file back as the remaining cells of the current layer, then those of the later layers |
| WeightFile.NextLayerRead | graphNetwork.cpp:259-264 | at a sentinel the graph engine reads the remaining layers from row 0 of the next one |
| WeightFile.BodyRead | graphNetwork.cpp:257-281 | the graph engine reads saved layers back as their cells, in order |
| WeightFile.FileRead | graphNetwork.cpp:242-281 | the graph engine reads a whole saved file back as the cells of its layers, layer 0 first |
| WeightFile.HeaderOfFile | graphNetwork.cpp:225-226 | a saved file passes the header check exactly for its own depth |
| WeightFile.LastWriteConcat | graphNetwork.cpp:268 | the last write to a cell comes from the later stores whenever they write it |
| WeightFile.LastWriteRow | graphNetwork.cpp:231-233 | a saved row writes exactly its own cells |
| WeightFile.LastWriteGrid | matrixNetwork.cpp:250-258 | a saved block writes exactly its own cells |
| WeightFile.LastWriteBody | graphNetwork.cpp:227-237 | the saved layers write exactly their own cells |
| WeightFile.ApplyGridCells | matrixNetwork.cpp:228-241 | stores that all convert and land inside the matrix succeed and leave each cell holding its last write |
| WeightFile.GridRoundTrip | matrixNetwork.cpp:213-261 | round trip of one matrix-engine block: saved and read back into a matrix of the same shape, every cell holds what was saved, reread |
| WeightFile.GridPutAt | matrixNetwork.cpp:250-258 | every store of a saved block carries a converting token for a cell of the block |
| GraphWeights.SavedGrid | graphNetwork.cpp:227-237 | the block saved for a layer has one row per input and one column per neuron: row k holds weight k of every neuron |
| GraphWeights.Saved | graphNetwork.cpp:227-237 | one saved block per layer |
| GraphWeights.RereadNet | graphNetwork.cpp:268 | every weight replaced by what its written token reads back as, keeping the layer count |
| GraphWeights.SetCell | graphNetwork.cpp:393-399 | storing one weight fails with out_of_range and changes nothing exactly when the layer is past the output layer; otherwise only the addressed weight changes |
| GraphWeights.ApplyNet | graphNetwork.cpp:257-281 | the graph loader's stores applied in order; the first failure is invalid_argument from `stod` or out_of_range from `get_neuron` |
| GraphWeights.ApplyNetShape | graphNetwork.cpp:257-281 | loading keeps the number of layers, of neurons per layer and of weights per neuron |
| GraphWeights.ApplyNetConcat | graphNetwork.cpp:257-281 | storing two runs of stores is storing the first and then, unless it failed, the second |
| GraphWeights.TokenApplies | graphNetwork.cpp:266-279 | a converting token is stored and the rest of the line continues from the next column, or from column 0 after the last token |
| GraphWeights.TokenFails | graphNetwork.cpp:268 | a token `stod` refuses ends the load at once with its exception and no further store |
| GraphWeights.TurnApplies | graphNetwork.cpp:257-281 | one turn of the loader's outer loop: the stores of the line it reads, then, unless they failed, those of the rest |
| GraphWeights.ApplyNetCells | graphNetwork.cpp:257-281 | stores that all convert and address existing weights succeed, keep the shape and leave each weight holding its last write (weight k of neuron j is row k, column j of its block) |
| GraphWeights.BodyPutAt | graphNetwork.cpp:227-237 | every store of saved layers carries a converting token for a cell of its block |
| GraphWeights.SavedFull | graphNetwork.cpp:227-237 | every saved block has a row and every row a cell |
| GraphWeights.SavedPutsFit | graphNetwork.cpp:227-281 | every store of the saved layers converts and addresses a weight of the network loading it |
| GraphWeights.SavedLastWrite | graphNetwork.cpp:227-281 | the last write of the saved file to each weight carries that weight's own token |
| GraphWeights.SavedCells | graphNetwork.cpp:227-281 | weights holding the last writes of a saved file are the saved weights, reread |
| GraphWeights.NetRoundTrip | graphNetwork.cpp:219-294 | round trip of the graph engine: the file saved from a network loads without error into a network of the same shape, and every weight then holds the saved one, reread |
| GraphWeights.RandomFromRest | graphNetwork.cpp:298-304 | the remaining turns of the outer loop complete the random network |
| GraphWeights.RandomFromStart | graphNetwork.cpp:296-305 | all turns of the loops make exactly the random network RandomNet describes |
| GraphWeights.DrawsDistinct | graphNetwork.cpp:296-305 | every weight the loops reach takes its own `rand()` call: two different weights take different calls, all below the total number of calls |
| GraphWeights.DrawnBounds | graphNetwork.cpp:298-302 | the calls for a layer's weights lie inside that layer's share of the calls |
| GraphWeights.DrawnGrows | graphNetwork.cpp:298 | later layers start drawing no earlier |
| GraphWeights.RandomCell | graphNetwork.cpp:300-302 | after randomising, a weight below its layer's input count holds the value of its own call; a weight past it keeps its old value |
| GraphWeights.RandomNetRange | graphNetwork.cpp:296-305 | randomising keeps the shape, sets every reached weight to a value in [-1, 1] and leaves the others as they were |
| GraphSpec.Padded | graphNetwork.cpp:168-176 | the fed layer has exactly its width: the source's entries where there are some, zeros after them |
| GraphSpec.FeedVector | graphNetwork.cpp:414-419 | one input per pixel |
| GraphSpec.FeedVectorUnit | graphNetwork.cpp:414-419 | pixels in 0..255 become inputs in [0, 1] |
| GraphSpec.ExpectationVector | graphNetwork.cpp:401-412 | the target has one entry per output neuron |
| GraphSpec.ExpectationVectorFirstMax | graphNetwork.cpp:401-412 | the one-hot target's first maximum is the expected index, so the prediction scan recovers it |
| GraphSpec.ExpectationVectorOutside | graphNetwork.cpp:401-412 | an expected index outside the layer gives an all-zero target |
| GraphSpec.ExpectedAfterSetPads | graphNetwork.cpp:139-148 | a shorter target vector is stored padded with zeros to the output width |
| GraphSpec.ExpectedAfterSetOneHot | graphNetwork.cpp:139-148 | a target formed for the output layer is stored exactly as formed |
| GraphSpec.SizeToInt | graphNetwork.cpp:311-314 | the `size_t` to `int` conversion yields the 32-bit signed integer congruent to its argument modulo 2^32 |
| GraphSpec.LearnLabelTarget | graphNetwork.cpp:311-314 | class number c in 1..n trains towards output c - 1; class number 0 wraps to -1 and trains towards all zeros |
| GraphSpec.LayerOut | graphNetwork.cpp:178-183 | a sigmoid layer has one value per neuron |
| GraphSpec.Propagate | graphNetwork.cpp:178-183 | the forward pass ends with one value per neuron of the last layer |
| GraphSpec.PropagatePrefix | graphNetwork.cpp:178-183 | running the first m + 1 layers is running layer m on what the first m compute |
| GraphSpec.Predict | graphNetwork.cpp:307-309 | the answer is a class number between 1 and the output width |
| GraphSpec.ZeroWeightsPredictFirst | graphNetwork.cpp:307-309 | a network with all weights 0 answers class 1 whatever it is shown |
| GraphSpec.Roll | graphNetwork.cpp:317-321 | `Roll(base)` lies in 0..base-1 for a positive base and is 0 otherwise |
| GraphSpec.RandomWeight | graphNetwork.cpp:301 | every random weight lies in [-1, 1] |
| GraphSpec.Acts | graphNetwork.cpp:178-183 | the value of every layer after a forward pass is the forward pass of the layers up to it |
| GraphSpec.OutDeltas | graphNetwork.cpp:359-365 | one derivative per output neuron |
| GraphSpec.HidDeltas | graphNetwork.cpp:367-379 | one derivative per hidden neuron |
| GraphSpec.DeltaAt | graphNetwork.cpp:359-379 | one derivative per neuron of the layer, the output layer's from the target and every other from the layer after it |
| GraphSpec.Trained | graphNetwork.cpp:155-164 | a training step keeps the number of layers and of neurons per layer |
| GraphSpec.TrainedAt | graphNetwork.cpp:421-427 | after training, each neuron's weights are its own gradient step with its own derivative and the values of the layer feeding it |
| GraphSpec.TrainedFits | graphNetwork.cpp:155-164 | training keeps every weight list's length, so training can go on |
| GraphSpec.TrainedZeroRate | graphNetwork.cpp:155-164 | with learning rate 0 no weight changes |
| GraphSpec.BackSumZero | graphNetwork.cpp:370-373 | derivatives that are all 0 send nothing back |
| GraphSpec.DeltaAtTarget | graphNetwork.cpp:359-379 | when the output equals the target every derivative of every layer is 0 |
| GraphSpec.TrainedAtTarget | graphNetwork.cpp:155-164 | a network whose output already equals the target is left as it is by a training step |
| GraphSpec.OutDeltaSign | graphNetwork.cpp:359-365 | for an output strictly between 0 and 1 the derivative is positive exactly when the output overshoots the target and negative exactly when it undershoots |
| GraphSpec.DeltasFromBack | graphNetwork.cpp:359-379 | derivatives computed from the output back, each layer from the one after it, are those DeltaAt defines |
| GraphSpec.DeltasFromBackAll | graphNetwork.cpp:359-379 | the same for all layers at once |
| GraphSpec.CorrectedLayer | graphNetwork.cpp:421-427 | correcting a layer keeps its neurons and their weight counts |
| GraphSpec.CorrectedNet | graphNetwork.cpp:421-427 | correcting the network corrects each layer with its own values and derivatives |
| GraphSpec.CorrectedNetIsTrained | graphNetwork.cpp:155-164 | a correction with the values of a forward pass and the derivatives of the back pass is exactly the training step Trained describes |
| Graph.UnitWeights | graphNetwork.cpp:102-112 | a freshly set-up network has depth + 1 weight layers of the given widths and weight 1 on every input of every neuron |
| Graph.CreateLayer | graphNetwork.cpp:57-64 | `num` fresh blank neurons (none for a non-positive count), in sigmoid mode when asked, each recorded at its position |
| Graph.ConnectOne | graphNetwork.cpp:78-88 | the neuron reads every neuron of the source layer, in order, with weight 1 appended per input; nothing else of it changes |
| Graph.Connect | graphNetwork.cpp:78-88 | every neuron of the destination layer reads every neuron of the source layer with weight 1 |
| Graph.CreateHiddenLayers | graphNetwork.cpp:42-55 | `depth` layers of `width` fresh sigmoid neurons; the first reads nothing, every later one reads all of the layer before it with weight 1 |
| Graph.CreateLayers | graphNetwork.cpp:33-64 | fresh input, hidden and output layers of the given widths, input neurons at value 0, output neurons blank sigmoid neurons |
| Graph.BuildLayers | graphNetwork.cpp:102-112 | the created layers fully connected: the first hidden layer reads the inputs, each later hidden layer the one before, the outputs the last hidden layer, all with weight 1 |
| Graph.ResizedWeights | graphNetwork.cpp:120-129 | after a resize the hidden layers have unit weights and output neuron j keeps its old weights followed by one weight 1 per new last-hidden neuron |
| Graph.ResizedFromNothing | graphNetwork.cpp:120-129 | with no old output weights a resize gives the weights of a fresh network |
| Graph.ResizeMisaligns | graphNetwork.cpp:120-129 | as written, resizing leaves each output neuron with twice as many weights as inputs (see Findings) |
| Graph.ResizeExample | graphNetwork.cpp:120-129 | SetupNetwork(1, 2, 1, 1) then ResizeHidden(3) leaves the output neuron one input and the weights [1, 1] (see Findings) |
| Graph.SeparateOutputs | graphNetwork.cpp:96-100 | every output neuron loses its inputs and, as written, keeps its weights |
| Graph.Rewire | graphNetwork.cpp:120-129 | the rebuilt hidden layers are fresh sigmoid neurons of the old width, connected to the input layer and to the output layer |
| Graph.ActivateNeuron | graphNetwork.cpp:178-183 | one neuron takes the sigmoid of its weighted input sum; its wiring is unchanged |
| Graph.ActivateAll | graphNetwork.cpp:178-183 | every neuron of a layer takes the sigmoid of its weighted sum over the previous layer's values, which stay as they were |
| Graph.SetOutputDerivs | graphNetwork.cpp:359-365 | the output derivatives become OutDeltas of the output values and the expected values; values unchanged |
| Graph.BackSumOf | graphNetwork.cpp:370-373 | the inner loop returns what neuron j receives back from the next layer: the sum of derivative times the weight on j |
| Graph.SetHiddenDerivs | graphNetwork.cpp:369-377 | a hidden layer's derivatives become HidDeltas of the next layer's weights and derivatives and its own values; the next layer is untouched |
| Graph.SetHiddenDeriv | graphNetwork.cpp:374-376 | one hidden neuron takes its derivative; nothing else of it changes |
| Graph.SetAllHiddenDerivs | graphNetwork.cpp:367-379 | from the last hidden layer down, each layer's derivatives come from those of the layer after it; values, weights and the output derivatives stay |
| Graph.HiddenDerivsStep | graphNetwork.cpp:368-378 | one turn of the layer loop links layer i to layer i + 1; no other layer's derivatives and no value or weight change |
| Graph.LinkedBackSteps | graphNetwork.cpp:367-379 | layers linked from the back compute each derivative layer from the one after it |
| Graph.LinkedDeltas | graphNetwork.cpp:359-379 | the derivatives the two loops leave are exactly the DeltaAt derivatives |
| Graph.CorrectLayer | graphNetwork.cpp:422-426 | each neuron of a layer takes its gradient step from the values it reads; those values stay |
| Graph.CorrectAll | graphNetwork.cpp:421-427 | every layer takes its gradient step with its own values and derivatives |
| Graph.CorrectStep | graphNetwork.cpp:423-425 | one layer takes its step; no other layer's weights change |
| Graph.SteppedNet | graphNetwork.cpp:421-427 | layers that each took their step took the network's step CorrectedNet describes |
| Graph.GetResult | graphNetwork.cpp:185-196 | the index of the first largest value of the layer |
| Graph.FormFeedVector | graphNetwork.cpp:414-419 | the loop yields the pixels scaled by 1/255, one per pixel |
| Graph.FormExpectationVector | graphNetwork.cpp:401-412 | the loop yields the one-hot target: 1 at the expected index, 0 elsewhere |
| Graph.FillExpected | graphNetwork.cpp:139-148 | the expected values left by `set_expected_values`: the vector padded with zeros when it is not longer than the output layer, otherwise its first entries appended to the old ones |
| Graph.SaveRow | graphNetwork.cpp:229-234 | one saved line lists weight k of every neuron of the layer, in order |
| Graph.SaveLayer | graphNetwork.cpp:228-235 | a layer is saved as the lines of its block, one per input |
| Graph.SaveLayers | graphNetwork.cpp:227-237 | the saved body is the block and sentinel of every layer, in order |
| Graph.StoreWeight | graphNetwork.cpp:268 | storing one weight into the neurons does what SetCell says to the weights they hold |
| Graph.StoreLine | graphNetwork.cpp:265-279 | storing one line's tokens does what ApplyNet says of that line's stores, and ends at the column ColAfter gives |
| Graph.StoreToken | graphNetwork.cpp:266-278 | one token stored, the rest of the line continuing from the next column |
| Graph.LoadTurn | graphNetwork.cpp:257-280 | one turn of the loader's outer loop does what ApplyNet says of that turn's stores and moves on by at least a line |
| Graph.LoadLines | graphNetwork.cpp:256-281 | the loader's loop over the lines after the header stores exactly what ApplyNet says of the graph loader's stores |
| Graph.RandomizeNeuron | graphNetwork.cpp:300-302 | weight k of the neuron, for k below its input count, takes the value of its own `rand()` call; nothing else changes |
| Graph.RandomizeLayer | graphNetwork.cpp:299-303 | every neuron of a layer draws its weights from consecutive calls |
| Graph.RandomizeStep | graphNetwork.cpp:298-304 | one turn of the outer loop draws one layer's weights and changes no other layer |
| Graph.RandomizeLayers | graphNetwork.cpp:296-305 | the loops leave the weights RandomNet describes |
| Graph.GraphNetwork.constructor | source_code/model/graphNetwork.hpp:13-16 | the default engine has no layers, no expected values and learning rate 0.2 |
| Graph.GraphNetwork.WithDepth | source_code/model/graphNetwork.hpp:17-19 | 784 inputs, the given number of hidden layers of 140, 26 outputs, every weight 1, the given learning rate |
| Graph.GraphNetwork.SetupNetwork | graphNetwork.cpp:102-112 | fresh layers of the given widths (negative widths give empty layers), fully connected with weight 1; the settings stay |
| Graph.GraphNetwork.ResizeHidden | graphNetwork.cpp:120-129 | as written: nothing changes unless the depth is positive, new and there are hidden layers; then fresh hidden layers of the old width, and output neurons keeping their old weights before the new ones |
| Graph.GraphNetwork.ResizeHiddenCleared | graphNetwork.cpp:120-129 | corrected resize: the same rebuild, but every neuron then has weight 1 on each of its inputs, as after SetupNetwork with the same widths |
| Graph.GraphNetwork.IndexHelpersMatchLayers | graphNetwork.cpp:335-357 | `get_num_neuron` and `get_num_inputs` give each layer's neuron count and input count, and 0 outside the layers |
| Graph.GraphNetwork.WeightAt | graphNetwork.cpp:324-332 | out_of_range exactly when the layer is outside 0..depth; otherwise the addressed weight |
| Graph.GraphNetwork.GetNeuron | graphNetwork.cpp:393-399 | out_of_range exactly past the output layer; otherwise the neuron at that position |
| Graph.GraphNetwork.Feed | graphNetwork.cpp:168-176 | the input values become the source padded or cut to the input width; nothing else changes |
| Graph.GraphNetwork.ActivateLayer | graphNetwork.cpp:179-181 | every neuron of layer l settles on what its weights compute; other layers keep their values |
| Graph.GraphNetwork.Execute | graphNetwork.cpp:178-183 | after the pass every layer holds what its weights compute from the layer before it; the inputs are unchanged |
| Graph.GraphNetwork.ConsistentPropagates | graphNetwork.cpp:178-183 | after the pass layer m holds the forward pass of the first m + 1 weight layers |
| Graph.GraphNetwork.LayerIsOut | graphNetwork.cpp:178-183 | after the pass a layer holds what its weights compute from the layer before it |
| Graph.GraphNetwork.OutputPropagates | graphNetwork.cpp:178-183 | after the pass the outputs hold what the whole network computes from the inputs |
| Graph.GraphNetwork.Forward | graphNetwork.cpp:134-135 | feeding then executing leaves the outputs holding the network's function of the padded source |
| Graph.GraphNetwork.Run | graphNetwork.cpp:131-137 | out_of_range exactly when the engine is not set up; otherwise the first index of the largest output the network computes |
| Graph.GraphNetwork.Prediction | graphNetwork.cpp:307-309 | out_of_range exactly when not set up; otherwise the class Predict gives for the pixels |
| Graph.GraphNetwork.LayersPropagate | graphNetwork.cpp:178-183 | after a pass every layer holds what Acts says |
| Graph.GraphNetwork.AlignedFits | graphNetwork.cpp:348-357 | with one weight per input the weight layers chain up from the input width |
| Graph.GraphNetwork.CalcDerivOutput | graphNetwork.cpp:359-365 | the output derivatives become OutDeltas of the outputs and expected values; only they change |
| Graph.GraphNetwork.CalcDerivHidden | graphNetwork.cpp:367-379 | each hidden layer's derivatives come from the layer after it; values and output derivatives stay |
| Graph.GraphNetwork.CorrectWeights | graphNetwork.cpp:421-427 | the weights become CorrectedNet of the old weights with each layer's input values and derivatives; layers, settings and alignment stay |
| Graph.GraphNetwork.BackDerivs | graphNetwork.cpp:161-162 | the two derivative passes set the output derivatives and link every hidden layer to the next |
| Graph.GraphNetwork.DerivsAreDeltas | graphNetwork.cpp:359-379 | the derivatives those passes leave are the ones DeltaAt defines |
| Graph.GraphNetwork.Backpropagate | graphNetwork.cpp:161-162 | after a forward pass the derivatives of every layer are those DeltaAt defines for the forward values and the target |
| Graph.GraphNetwork.BackpropStep | graphNetwork.cpp:161-163 | after a forward pass, the derivative passes and the correction leave exactly the weights Trained describes |
| Graph.GraphNetwork.SetExpectedValues | graphNetwork.cpp:139-148 | the expected values become what FillExpected describes; nothing else changes |
| Graph.GraphNetwork.SetLearningRate | graphNetwork.cpp:150-153 | only a positive rate is taken; nothing else changes |
| Graph.GraphNetwork.ShowExample | graphNetwork.cpp:158-160 | a forward pass from the source, then the one-hot target as the expected values |
| Graph.GraphNetwork.EducateOneStep | graphNetwork.cpp:155-164 | out_of_range and no change exactly when not set up; otherwise the target is the one-hot vector and the weights take the step Trained describes |
| Graph.GraphNetwork.LearnNetwork | graphNetwork.cpp:311-314 | one step on the scaled pixels with target index SizeToInt(label - 1) |
| Graph.GraphNetwork.InputCounts | graphNetwork.cpp:348-357 | one input count per layer, as `get_num_inputs` gives it |
| Graph.GraphNetwork.SaveWeights | graphNetwork.cpp:219-240 | nothing when not set up; otherwise the header, the depth line and every layer's block and sentinel |
| Graph.GraphNetwork.LoadWeights | graphNetwork.cpp:242-294 | no file: no change; wrong header or depth line: invalid_argument and no change; otherwise the weights become what ApplyNet says of the file's stores |
| Graph.GraphNetwork.LoadBody | graphNetwork.cpp:256-281 | after the header, the weights become what ApplyNet says of the file's stores |
| Graph.GraphNetwork.LoadNeurons | graphNetwork.cpp:256-281 | the neuron writes of the loader leave the weights ApplyNet describes |
| Graph.GraphNetwork.InstallRandomWeights | graphNetwork.cpp:296-305 | the weights become RandomNet of the old weights and the input counts; layers and settings stay |
| Graph.GraphNetwork.RandomNeurons | graphNetwork.cpp:298-304 | the neuron writes of the randomiser leave the weights RandomNet describes |
| Graph.GraphNetwork.SaveLoadRoundTrip | graphNetwork.cpp:219-294 | the file a set-up aligned network saves passes its own header check and loads back without error, every weight holding the saved one, reread |
| MatrixSpec.ZeroNet | matrixNetwork.cpp:7-30 | the constructor's weights: depth + 1 zero matrices of the engine's shapes (784 x 140, 140 x 140, ..., 140 x 26) |
| MatrixSpec.SameDimsShaped | matrixNetwork.cpp:192-199 | anything that keeps every dimension keeps the engine's layer shapes |
| MatrixSpec.Scaled | matrixNetwork.cpp:145-156 | one input per pixel, each non-negative and at most 1 for a pixel of at most 255 |
| MatrixSpec.Forward | matrixNetwork.cpp:127-143 | the output of layer l after a forward pass is one row as wide as that layer |
| MatrixSpec.Predicted | matrixNetwork.cpp:110-113 | the answer is a class number between 1 and 26 |
| MatrixSpec.Rows | matrixNetwork.cpp:127-143 | the output rows of every layer after a forward pass, each what Forward gives |
| MatrixSpec.ZeroNetPredictsFirst | matrixNetwork.cpp:414-432 | a network of zero weights answers class 1 whatever it is shown |
| MatrixSpec.OutputDelta | matrixNetwork.cpp:385-404 | one delta per output neuron |
| MatrixSpec.OutputDeltaSign | matrixNetwork.cpp:395-403 | for outputs strictly between 0 and 1 the delta is positive exactly at the expected neuron and negative exactly elsewhere |
| MatrixSpec.OutputDeltaMirrorsGraph | matrixNetwork.cpp:395-403 | the matrix engine's output delta is the graph engine's output derivative against the same one-hot target, negated |
| MatrixSpec.Column | matrixNetwork.cpp:316-318 | a delta row viewed as a one-column matrix |
| MatrixSpec.HiddenDelta | matrixNetwork.cpp:301-321 | one delta per neuron of the layer |
| MatrixSpec.DotZeroColumn | matrixNetwork.cpp:316-318 | against a zero delta row every partial sum is 0 |
| MatrixSpec.HiddenDeltaOfZero | matrixNetwork.cpp:312-320 | a layer whose successor has a zero delta gets a zero delta |
| MatrixSpec.Updated | matrixNetwork.cpp:263-279 | the update keeps the shape of the weight matrix |
| MatrixSpec.UpdatedZeroRate | matrixNetwork.cpp:272-278 | with learning rate 0 no weight changes |
| MatrixSpec.UpdatedDirection | matrixNetwork.cpp:272-278 | with a positive rate and a positive input, a weight rises exactly when its neuron's delta is positive and falls exactly when it is negative |
| MatrixSpec.Deltas | matrixNetwork.cpp:158-186 | the delta row of each layer is as wide as the layer |
| MatrixSpec.Backprop | matrixNetwork.cpp:158-186 | a learning step keeps the engine's layer shapes |
| MatrixSpec.DeltaRows | matrixNetwork.cpp:158-186 | the delta rows of all layers, output layer last |
| MatrixSpec.BackpropSteps | matrixNetwork.cpp:158-186 | the output delta comes from the expected class and updates the output weights against the last hidden row; each hidden layer takes its delta from the layer after it and is updated against the row it read |
| MatrixSpec.BackpropZeroRate | matrixNetwork.cpp:158-186 | with learning rate 0 a learning step leaves the whole network as it was |
| MatrixSpec.BackpropTowardsExpected | matrixNetwork.cpp:158-164 | with outputs strictly between 0 and 1, a positive last hidden row and a positive rate, every weight into the expected neuron rises and every weight into the others falls |
| MatrixSpec.Draw | matrixNetwork.cpp:287 | the matrix engine's draw is the very weight the graph engine makes of the same `rand()` value, in [-1, 1] |
| MatrixSpec.RandomGrid | matrixNetwork.cpp:281-290 | a randomly filled matrix has the layer's shape |
| MatrixSpec.DrawnStep | matrixNetwork.cpp:44-53 | each layer draws one call per cell, after the calls of the layers below it |
| MatrixSpec.RandomNet | matrixNetwork.cpp:44-53 | the random weights keep the engine's layer shapes |
| MatrixSpec.Starts | matrixNetwork.cpp:47-52 | one first call number per layer below l |
| MatrixSpec.RandomNetFrom | matrixNetwork.cpp:44-53 | matrices each filled from their layer's first call are the random network |
| MatrixSpec.StartsAt | matrixNetwork.cpp:47-52 | layer k's first call is the number of calls of the layers below it |
| MatrixSpec.RandomNetRange | matrixNetwork.cpp:44-53 | every random weight of the network lies in [-1, 1] |
| MatrixSpec.RandomGridRange | matrixNetwork.cpp:285-289 | every cell of a random matrix lies in [-1, 1] |
| MatrixSpec.LoadLayers | matrixNetwork.cpp:68-73 | loading the layers keeps every shape; a failure is invalid_argument or out_of_range |
| MatrixSpec.LoadFile | matrixNetwork.cpp:55-88 | loading a file keeps every shape; a failure is invalid_argument or out_of_range |
| MatrixSpec.RereadGridShape | matrixNetwork.cpp:250-258 | a reread block keeps its rows and cells |
| MatrixSpec.GridLinesLength | matrixNetwork.cpp:250-258 | a block of full rows is saved as one line per row |
| MatrixSpec.BlockOfBody | matrixNetwork.cpp:213-244 | a layer reading a saved block gets its cells back, reread, and stops just after the sentinel, with the later blocks following |
| MatrixSpec.LoadLayersStep | matrixNetwork.cpp:69-73 | a layer that loads its block without error hands over to the next layer just after the block |
| MatrixSpec.LoadLayersAt | matrixNetwork.cpp:69-73 | a layer's failure is the outcome of the whole load and leaves the later layers untouched |
| MatrixSpec.LoadLayersRead | matrixNetwork.cpp:69-73 | saved blocks read back into the layers, every cell holding its saved weight reread |
| MatrixSpec.SaveLoadRoundTrip | matrixNetwork.cpp:55-108 | round trip of the matrix engine: a saved file loads without error into a network of the same depth, every weight its saved token reread |
| MatrixSpec.LoadOtherDepth | matrixNetwork.cpp:66-81 | a file saved at one depth is refused with invalid_argument by a network of another depth, which keeps its weights |
| MatrixSpec.SavedTransposed | graphNetwork.cpp:227-236 | the graph engine writes weight k of neuron j of layer l as cell (k, j) of block l, so saving the graph-engine weights that hold the matrices `ws` writes exactly the blocks `ws` |
| MatrixSpec.GraphFileIntoMatrix | source_code/model/network.cpp:40-41 | one file serves both engines of a slot: a file the graph engine saved loads into the matrix engine of the same depth without error, cell (k, j) of layer l holding weight k of neuron j, reread |
| MatrixSpec.MatrixFileIntoGraph | source_code/model/network.cpp:40-41 | a file the matrix engine saved loads into the graph engine of the same depth without error, weight k of neuron j of layer l holding cell (k, j), reread, every neuron keeping one weight per input |
| MatrixNet.ScaleInput | matrixNetwork.cpp:150-155 | the loop leaves the row of pixels over 255 |
| MatrixNet.UpdateWeights | matrixNetwork.cpp:269-278 | the two loops leave the weights Updated describes |
| MatrixNet.OutputDeltaRow | matrixNetwork.cpp:393-403 | the loop leaves the output deltas against the expected class |
| MatrixNet.HiddenDeltaRow | matrixNetwork.cpp:310-320 | the loops leave the hidden deltas HiddenDelta describes |
| MatrixNet.RandomFill | matrixNetwork.cpp:281-290 | the loops leave the matrix RandomGrid describes and report how many calls were made |
| MatrixNet.StoreLine | matrixNetwork.cpp:227-241 | storing one line's tokens does what ApplyGrid says of that line's stores and ends at the column ColAfter gives |
| MatrixNet.ApplyGridConcat | matrixNetwork.cpp:220-243 | storing two runs of stores is storing the first and then, unless it failed, the second |
| MatrixNet.LoadBlock | matrixNetwork.cpp:220-243 | the block loop stores what ApplyGrid says of the block's stores and, without a failure, stops just after the sentinel |
| MatrixNet.SaveBlock | matrixNetwork.cpp:246-261 | a saved block is one line per row and then the sentinel |
| MatrixNet.FirstMaxScan | matrixNetwork.cpp:419-428 | the scan returns the first index holding the maximum |
| MatrixNet.Layer.constructor | matrixNetwork.cpp:192-199 | a zero weight matrix with one row per input and one column per neuron, no output and no delta |
| MatrixNet.Layer.CalcOutput | matrixNetwork.cpp:292-299 | the output becomes Sigmoid(prev × W) exactly when prev has one column per weight row; otherwise invalid_argument and the copy of prev stays behind |
| MatrixNet.Layer.CalcOutputDelta | matrixNetwork.cpp:385-404 | out_of_range and no change exactly before any forward pass; otherwise the delta is the output-delta row against the expected class |
| MatrixNet.Layer.CalcHiddenDelta | matrixNetwork.cpp:301-321 | out_of_range and no change exactly before any forward pass; otherwise the delta is the hidden-delta row along the layer's own weights |
| MatrixNet.Layer.CorrectWeights | matrixNetwork.cpp:263-279 | out_of_range and no change exactly without a delta; otherwise the weights become Updated against the row read and the delta |
| MatrixNet.Layer.InstallRandomWeights | matrixNetwork.cpp:281-290 | the weights become RandomGrid from the given call on |
| MatrixNet.Layer.LoadWeights | matrixNetwork.cpp:213-244 | the weights become what ApplyGrid says of the block's stores; without a failure the next layer starts just after the sentinel |
| MatrixNet.Layer.SaveWeights | matrixNetwork.cpp:246-261 | one line per input and the sentinel last |
| MatrixNet.Layer.SetExpected | matrixNetwork.cpp:406-408 | the expected class is set |
| MatrixNet.Layer.ResultNeiron | matrixNetwork.cpp:414-432 | out_of_range exactly before any forward pass; otherwise 1 + the first index of the largest output |
| MatrixNet.Layer.OutputMatrix | matrixNetwork.cpp:325-330 | invalid_argument exactly before any forward pass; otherwise the output |
| MatrixNet.Layer.DeltaMatrix | matrixNetwork.cpp:332-337 | invalid_argument exactly before any backward pass; otherwise the one-row delta |
| MatrixNet.MatrixNetwork.constructor | matrixNetwork.cpp:7-30 | depth hidden layers and an output layer of the engine's shapes, every weight 0, no input yet |
| MatrixNet.MatrixNetwork.Create | matrixNetwork.cpp:7-30 | invalid_argument exactly for fewer than one hidden layer; otherwise a fresh valid network of zero weights and no input |
| MatrixNet.MatrixNetwork.SetInput | matrixNetwork.cpp:145-156 | invalid_argument and no input left exactly for an empty pixel list; otherwise the input is the scaled row |
| MatrixNet.MatrixNetwork.FeedForward | matrixNetwork.cpp:127-143 | invalid_argument exactly when the input is not 784 pixels, the first layer keeping the input copy; otherwise every layer holds its row of the forward pass |
| MatrixNet.MatrixNetwork.FeedLayer | matrixNetwork.cpp:137-138 | layer i holds Forward at i from the output of layer i - 1 |
| MatrixNet.MatrixNetwork.FeedLayers | matrixNetwork.cpp:136-142 | every layer holds its output of the forward pass; the weights stay |
| MatrixNet.MatrixNetwork.Propagate | matrixNetwork.cpp:134-142 | after the loop the output rows are those of the forward pass |
| MatrixNet.MatrixNetwork.CorrectWeights | matrixNetwork.cpp:158-186 | the weights become Backprop of the old weights, the input, the output rows and the expected class; outputs stay |
| MatrixNet.MatrixNetwork.CorrectOutput | matrixNetwork.cpp:160-164 | the output layer takes its delta and its updated weights |
| MatrixNet.MatrixNetwork.BackStep | matrixNetwork.cpp:170-184 | one hidden layer takes its delta and its updated weights |
| MatrixNet.MatrixNetwork.CorrectHidden | matrixNetwork.cpp:168-185 | every hidden layer, from the last down, holds its planned delta and new weights |
| MatrixNet.MatrixNetwork.Prediction | matrixNetwork.cpp:110-113 | invalid_argument exactly when the input is not 784 pixels; otherwise the class Predicted gives; the weights stay |
| MatrixNet.MatrixNetwork.LearnNetwork | matrixNetwork.cpp:115-125 | invalid_argument and no weight change exactly when the input is not 784 pixels; otherwise the weights become Backprop after the forward pass |
| MatrixNet.MatrixNetwork.Learn | matrixNetwork.cpp:118-124 | the backward pass after a forward pass leaves Backprop of the weights and the forward rows |
| MatrixNet.MatrixNetwork.InstallRandomWeights | matrixNetwork.cpp:44-53 | the weights become RandomNet, each layer drawing after the layers before it |
| MatrixNet.MatrixNetwork.RandomLayers | matrixNetwork.cpp:47-52 | layer l fills its matrix from its first call on |
| MatrixNet.MatrixNetwork.RandomLayer | matrixNetwork.cpp:49-52 | one layer filled from its first call, ending at the next layer's first call |
| MatrixNet.MatrixNetwork.SaveWeights | matrixNetwork.cpp:90-108 | the file is the header, the depth line and every layer's block |
| MatrixNet.MatrixNetwork.LoadWeights | matrixNetwork.cpp:55-88 | no file: no change; otherwise the outcome and the weights are what LoadFile gives |
| MatrixNet.MatrixNetwork.LoadLayerBlocks | matrixNetwork.cpp:69-73 | each layer reads its block, the first failure stopping the loop |
| MatrixNet.MatrixNetwork.LoadLayer | matrixNetwork.cpp:70 | one layer reads its block from where the last stopped |
| Evaluation.Learn | matrixNetwork.cpp:115-125 | one learning step of either engine: the matrix engine fails with invalid_argument and keeps its weights exactly when there are not 784 pixels; the weights keep their engine's shape |
| Evaluation.Answer | matrixNetwork.cpp:110-113 | the class either engine answers is between 1 and 26; the matrix engine fails with invalid_argument exactly when there are not 784 pixels |
| Evaluation.LearnZeroRate | source_code/model/network.cpp:76 | at learning rate 0 an example changes no weight, in either engine |
| Evaluation.NonEmpty | source_code/model/network.cpp:181-186 | the number of examples is at most the number of lines |
| Evaluation.LearnLine | source_code/model/network.cpp:67-78 | an empty line is skipped; a line that does not decode stops the pass and changes nothing; the weights keep their shape |
| Evaluation.TrainFrom | source_code/model/network.cpp:63-80 | a training pass keeps the engine's weight shapes |
| Evaluation.TestLine | source_code/model/network.cpp:149-161 | an empty line counts nothing; an example counts once among all and at most once among the correct |
| Evaluation.Score | source_code/model/network.cpp:157-160 | an answer counts once among all and once among the correct exactly when it is the label |
| Evaluation.TestCounts | source_code/model/network.cpp:141-166 | a test counts every example once and at most those as correct |
| Evaluation.RatioRange | source_code/model/network.cpp:83 | the share reported is NaN exactly for a file without examples and lies in [0, 1] otherwise |
| Evaluation.TrainAppend | source_code/model/network.cpp:63-80 | training on two runs of lines is training on the first and then, unless it failed, on the second |
| Evaluation.TrainZeroRate | source_code/model/network.cpp:63-80 | at learning rate 0 a training pass changes no weight |
| Evaluation.BudgetWithin | source_code/model/network.cpp:187 | the sample budget, the example count times the share truncated to an integer, lies between 0 and the count |
| Evaluation.Sample | source_code/model/network.cpp:179-191 | the sample is the first budget lines of the file, empty lines included |
| Evaluation.SampledTest | source_code/model/network.cpp:168-205 | a share outside (0, 1] is refused with invalid_argument |
| Evaluation.NoBlankCount | source_code/model/network.cpp:181-186 | without empty lines every line is an example |
| Evaluation.SampledCounts | source_code/model/network.cpp:168-205 | a sampled test counts at most the budget of examples, exactly the budget when the file has no empty lines |
| Evaluation.FoldLearnLine | source_code/model/network.cpp:104-113 | the example whose index is the fold is skipped; the weights keep their shape |
| Evaluation.FoldTrain | source_code/model/network.cpp:102-114 | the training pass of a fold keeps the weight shapes |
| Evaluation.NextIndexMod | source_code/model/network.cpp:111-112 | `line_index` is the number of the example modulo `coef` |
| Evaluation.FoldTrainSelects | source_code/model/network.cpp:102-114 | the training pass of a fold trains on exactly the examples outside the fold, in file order |
| Evaluation.FoldTestSelects | source_code/model/network.cpp:118-133 | the testing pass of a fold tests exactly the examples in the fold |
| Evaluation.SelectSplits | source_code/model/network.cpp:102-133 | every example is either in the fold's test or in its training, never both |
| Evaluation.CrossFrom | source_code/model/network.cpp:95-138 | the folds from `fold` on keep the weight shapes |
| Evaluation.FoldStep | source_code/model/network.cpp:96-136 | one fold appends exactly one share after the earlier ones |
| Evaluation.CrossCount | source_code/model/network.cpp:89-139 | cross-validation reports one share per fold |
| Evaluation.EpochsFrom | source_code/model/network.cpp:63-85 | the epochs keep the weight shapes |
| Evaluation.EpochStep | source_code/model/network.cpp:64-84 | one epoch appends one share when a test was asked for and none otherwise, after the earlier ones |
| Evaluation.EpochsCount | source_code/model/network.cpp:48-87 | with a test the run reports one share per epoch, without one none |
| Evaluation.EpochsOne | source_code/model/network.cpp:63-80 | one epoch without a test is one training pass over the file |
| Evaluation.CellAsWritten | source_code/model/network.cpp:235-236 | as written, a cell the operator accepts has row and column below 26, but the row may be negative (see Findings) |
| Evaluation.LabelZeroAsWritten | source_code/model/network.cpp:235-236 | as written, label 0 passes the bounds test of `operator()` with row -1 (see Findings) |
| Evaluation.LabelWrapsAsWritten | source_code/model/network.cpp:235-236 | as written, label 2^32 + 1 wraps round to row 0 (see Findings) |
| Evaluation.CellCorrects | source_code/model/network.cpp:235-236 | the intended cell is accepted exactly for labels 1..26, agrees with the code there, and refuses the labels the code gets wrong |
| Evaluation.Bump | source_code/model/network.cpp:235-236 | one more example keeps the 26 x 26 shape |
| Evaluation.ConfusionLine | source_code/model/network.cpp:230-237 | one line keeps the 26 x 26 shape |
| Evaluation.Tally | source_code/model/network.cpp:235-236 | one answer counted keeps the 26 x 26 shape |
| Evaluation.ConfusionFrom | source_code/model/network.cpp:229-238 | counting keeps the 26 x 26 shape |
| Evaluation.ConfusionLineCounts | source_code/model/network.cpp:230-237 | a line adds one count when it is an example and none otherwise, and keeps every cell a count |
| Evaluation.ConfusionTest | source_code/model/network.cpp:207-242 | a share outside (0, 1] is refused with invalid_argument; otherwise a 26 x 26 matrix |
| Evaluation.ConfusionCounts | source_code/model/network.cpp:229-238 | every example lands in exactly one cell: the total grows by the number of examples counted |
| Evaluation.ConfusionNonNegative | source_code/model/network.cpp:229-238 | counting keeps every cell non-negative |
| Evaluation.ConfusionAccuracy | source_code/model/network.cpp:244-253 | the accuracy of a confusion matrix counted from at least one example lies in [0, 1] |
| Metrics.Div | source_code/model/network.cpp:252 | division of doubles: a number exactly when the divisor is not 0, and then one that times the divisor gives the dividend; NaN exactly for 0 / 0 |
| Metrics.Diagonal | source_code/model/network.cpp:246-251 | the correct answers of each class: the diagonal cells |
| Metrics.Row | source_code/model/network.cpp:276-281 | row i of the 26 x 26 corner |
| Metrics.Column | source_code/model/network.cpp:257-262 | column j of the 26 x 26 corner |
| Metrics.RowSums | source_code/model/network.cpp:276-281 | the examples of each class: each entry is the sum of its row |
| Metrics.ColumnSums | source_code/model/network.cpp:257-262 | the answers of each class: each entry is the sum of its column |
| Metrics.TotalNonNegative | source_code/model/network.cpp:244-253 | a matrix of counts has a non-negative total |
| Metrics.TotalBump | source_code/model/network.cpp:235-236 | one more count in a cell adds exactly 1 to the total |
| Metrics.SumNonNegative | source_code/model/network.cpp:244-253 | a sum of counts is non-negative |
| Metrics.SumMonotone | source_code/model/network.cpp:244-253 | sums are monotone entry by entry |
| Metrics.EntryBelowSum | source_code/model/network.cpp:244-253 | one count is at most the sum of all |
| Metrics.DiagonalBelowSums | source_code/model/network.cpp:255-291 | the correct answers of a class are at most its examples and at most its answers |
| Metrics.AccuracyRange | source_code/model/network.cpp:244-253 | accuracy is NaN exactly on an empty matrix and lies in [0, 1] otherwise |
| Metrics.MacroSumBounds | source_code/model/network.cpp:265-270 | the summed shares lie between 0 and the number of classes counted |
| Metrics.MacroAverageRange | source_code/model/network.cpp:263-271 | the class average is NaN exactly when no class counts and lies in [0, 1] otherwise |
| Metrics.PrecisionRecallRange | source_code/model/network.cpp:255-291 | precision and recall are NaN exactly when no class has answers, respectively examples, and lie in [0, 1] otherwise |
| Metrics.FMeasureBetween | source_code/model/network.cpp:293-295 | the F-measure of two positive shares is their harmonic mean: between them, and equal to them when they agree |
| Metrics.ShareRange | source_code/model/network.cpp:267 | a part over a positive whole it belongs to lies in [0, 1] |
| Metrics.FMeasureOfZeros | source_code/model/network.cpp:293-295 | precision and recall both 0 give F-measure NaN |
| Metrics.CalcAccuracy | source_code/model/network.cpp:244-253 | out_of_range exactly for a matrix smaller than 26 x 26; otherwise the accuracy of its corner |
| Metrics.Average | source_code/model/network.cpp:263-271 | the loop leaves the average share over the classes with positives |
| Metrics.CalcPrecision | source_code/model/network.cpp:255-272 | out_of_range exactly for a matrix smaller than 26 x 26; otherwise the precision of its corner |
| Metrics.PrecisionRow | source_code/model/network.cpp:258-261 | reading row i adds it to the column counts and its diagonal cell to the right answers |
| Metrics.CalcRecall | source_code/model/network.cpp:274-291 | out_of_range exactly for a matrix smaller than 26 x 26; otherwise the recall of its corner |
| Pool.InputCounts | graphNetwork.cpp:348-357 | a graph engine with d hidden layers counts d + 1 input widths: 784 for the first hidden layer and the hidden width after it |
| Pool.Network.constructor | source_code/model/network.cpp:5-21 | four matrix engines of rate lr and four graph engines of rate 0.12, with 2, 3, 4 and 5 hidden layers, each holding the weights drawn from its own stream; the matrix engine with two hidden layers is current |
| Pool.Network.LearnCurrent | source_code/model/network.cpp:76 | one example changes the current engine's weights as its learning step says, and no other engine's |
| Pool.Network.LearnMatrix | source_code/model/network.cpp:76 | the learning step of a current matrix engine, at the pool's rate |
| Pool.Network.LearnGraph | source_code/model/network.cpp:76 | the learning step of a current graph engine, at rate 0.12 |
| Pool.Network.PredictionNetwork | source_code/model/network.cpp:316-318 | the class the current engine picks; no weight of the pool changes |
| Pool.Network.GraphCounts | source_code/model/network.cpp:14 | the graph engine of slot s counts the input widths of a graph engine with s + 2 hidden layers |
| Pool.Network.RandomizeCurrent | source_code/model/network.cpp:59 | the current engine gets fresh random weights of its own shape; no other engine changes |
| Pool.Network.RandomizeMatrix | source_code/model/network.cpp:11 | the matrix engine of one slot is redrawn; every other engine keeps its weights |
| Pool.Network.RandomizeGraph | source_code/model/network.cpp:16 | the graph engine of one slot is redrawn; every other engine keeps its weights |
| Pool.Network.ChangeCurrentNetwork | source_code/model/network.cpp:297-314 | invalid_argument exactly for an index outside 0 .. 3, leaving the current engine; otherwise the engine of that kind and slot becomes current; no weight changes |
| Pool.Network.SaveWeightsToFile | source_code/model/network.cpp:44-46 | the file written is the weight file of the current engine, in its own engine's format |
| Pool.Network.LoadWeightsFromFile | source_code/model/network.cpp:34-42 | out_of_range for an index outside the pool, changing nothing; otherwise the matrix engine of the slot reads the file and, unless it fails, the graph engine of the slot reads it too; no other engine changes |
| Pool.Network.LoadMatrix | source_code/model/network.cpp:40 | the matrix engine of the slot reads the file; an unopened file changes nothing; no graph engine changes |
| Pool.Network.LoadGraph | source_code/model/network.cpp:41 | the graph engine of the slot reads the file: a bad header fails and changes nothing, a good one places the weights; no matrix engine changes |
| Pool.Network.LearnOneLine | source_code/model/network.cpp:67-78 | one line of a training file: skipped when empty, a decoding error stops, otherwise the current engine learns the example |
| Pool.Network.TestOneLine | source_code/model/network.cpp:149-161 | one line of a test file adds 1 to the examples and, when the answer equals the label, 1 to the correct ones; no weight changes |
| Pool.Network.TrainLines | source_code/model/network.cpp:63-80 | the training pass of one epoch: the lines learned in file order, stopping at the first error |
| Pool.Network.TestLines | source_code/model/network.cpp:141-166 | the test pass counts the examples of the lines and those the current engine answers correctly; no weight changes |
| Pool.Network.FoldLearnOneLine | source_code/model/network.cpp:104-113 | one line of the training pass of a fold: learned unless its index is the fold; the index advances modulo the number of folds on every non-empty line |
| Pool.Network.FoldTestOneLine | source_code/model/network.cpp:120-132 | one line of the testing pass of a fold: counted only when its index is the fold |
| Pool.Network.FoldTrainLines | source_code/model/network.cpp:95-114 | the training pass of fold i learns exactly the examples whose position modulo the number of folds is not i |
| Pool.Network.FoldTestLines | source_code/model/network.cpp:115-133 | the testing pass of fold i counts exactly the examples whose position modulo the number of folds is i; no weight changes |
| Pool.Network.StartTestNetwork | source_code/model/network.cpp:141-166 | an unopened file counts 0 of 0; otherwise every example is counted, with the correct answers among them; no weight changes |
| Pool.Network.StartTestSample | source_code/model/network.cpp:168-205 | invalid_argument unless 0 < p <= 1; otherwise the examples are counted, the count is scaled by p and truncated, and that many lines from the start are predicted and counted |
| Pool.Network.ConfusionOneLine | source_code/model/network.cpp:230-237 | one sampled line adds 1 to the cell of its label's row and its answer's column |
| Pool.Network.TallyExample | source_code/model/network.cpp:233-236 | a decoded example is answered by the current engine and counted in its cell |
| Pool.Network.TallyAnswer | source_code/model/network.cpp:235-236 | counting an answer changes the matrix only, never the pool |
| Pool.Network.ConfusionLines | source_code/model/network.cpp:229-238 | the counting loop over the sampled lines, in file order, stopping at the first error |
| Pool.Network.CountConfusion | source_code/model/network.cpp:213-238 | a new 26 x 26 matrix of zeros, then the counting loop |
| Pool.Network.StartConfusionTest | source_code/model/network.cpp:207-242 | invalid_argument unless 0 < p <= 1; otherwise a new 26 x 26 matrix, all zeros for an unopened file, counting each sampled example in the row of its label and the column of its answer |
| Pool.Network.Epoch | source_code/model/network.cpp:63-84 | one epoch: a training pass when the file opens, then, when testing, the share of correct answers on the test file appended; only the current engine changes |
| Pool.Network.OneEpoch | source_code/model/network.cpp:63-84 | one epoch as above; of a run of n epochs it either ends the run with its error or leaves the remaining n - 1 epochs from the new weights |
| Pool.Network.Epochs | source_code/model/network.cpp:63-85 | the epoch loop runs the epochs in turn, stopping at the first error |
| Pool.Network.EpochLoop | source_code/model/network.cpp:63-85 | the loop of the epochs, one epoch per turn, stopping at the first error; every engine but the current one keeps its weights |
| Pool.Network.StartLearnNetwork | source_code/model/network.cpp:48-87 | invalid_argument for fewer than one epoch, changing nothing; otherwise fresh weights unless learning continues, then one training pass per epoch and, only when a test file is named and there is more than one epoch, one test share per epoch; no other engine changes |
| Pool.Network.OneFold | source_code/model/network.cpp:96-136 | one fold: the training pass outside the fold, then the share of correct answers inside it; an unopened file gives 0 / 0 |
| Pool.Network.StartCVLearn | source_code/model/network.cpp:89-139 | fresh weights unless learning continues, then for each of the coef folds the training pass outside it and one share of correct answers inside it |
| Pool.NewEngines | source_code/model/network.cpp:6-17 | the constructor's loop: for each slot a new matrix engine and a new graph engine of that slot's depth, sharing no object, holding their draws |
| Pool.AddSlot | source_code/model/network.cpp:8-16 | one pass of the loop adds the new engines of the next slot to those built |
| Pool.NewSlot | source_code/model/network.cpp:8-16 | the matrix engine of a slot and then its graph engine, new and sharing no object |
| Pool.NewMatrix | source_code/model/network.cpp:9-11 | a new matrix engine with s + 2 hidden layers holding the weights drawn from its stream |
| Pool.NewGraph | source_code/model/network.cpp:14-16 | a new graph engine with s + 2 hidden layers whose unit weights are redrawn from its stream |
| Pool.TallyInto | source_code/model/network.cpp:235-236 | with the intended cell: a failed answer stops, a label outside 1 .. 26 is out_of_range, and otherwise exactly the label's row and the answer's column grows by 1 |
| Pool.SampleLines | source_code/model/network.cpp:179-191 | the lines of a sampled test: the first truncate(p x examples) lines of the file |
| Pool.CountExamples | source_code/model/network.cpp:181-186 | the number of non-empty lines |

## Left out

- float (graph engine) and double (matrix engine, metrics) arithmetic is exact `real` arithmetic: there is no rounding and no overflow. There are no infinities or NaN except in `Metrics.Div`, which models the one division whose result the program reports.
- The logistic sigmoid is uninterpreted. The lemmas that need its value 0.5 at 0 take it as a hypothesis.
- `rand()`, `srand(time(nullptr))` and the clock are replaced by the `rand` parameter. Only which call each weight takes, and the range of the weights, are stated.
- Streams are reduced to `Option<seq<string>>`: the file either opens, giving its lines, or it does not. Read errors, `eof` behaviour beyond the line list, and files that change between the two passes of a sampled test are not modelled. `setlocale` is not modelled.
- Writing a weight with `<<` and reading it back with `std::stod` are uninterpreted (`WeightFile.Fmt`, `WeightFile.Parse`, `WeightFile.Converts`). The round trips therefore assume `Readable()`: every weight written converts back.
- WeightFile.Stod: models only the invalid_argument that `std::stod` throws for text that is not a number, not the out_of_range it throws for a value beyond double range.
- GraphWeights.SetCell: a write past the last neuron or past the last weight of a neuron is undefined behaviour in the C++ code (an unchecked `operator[]`). It is modelled as leaving the weights unchanged.
- Graph.CreateHiddenLayers: requires a depth of at least 2. `StitchHidden` reads `hidden_layer_[1]` (graphNetwork.cpp:68), which is out of bounds for one hidden layer.
- Graph.GraphNetwork.SetupNetwork: requires at least 2 hidden layers, for the same reason.
- Graph.GraphNetwork.WithDepth: requires at least 2 hidden layers, for the same reason.
- Graph.GraphNetwork.ResizeHidden: excludes a rebuild to one hidden layer, for the same reason.
- Graph.GetResult: requires a non-empty output layer. The C++ code reads element 0 unconditionally.
- Graph.GraphNetwork.GetNeuron: requires a non-negative index. The C++ code indexes a vector with it unchecked.
- Matrix.S21Matrix.SearchMaxElement: requires a released or non-empty matrix. A copy or assignment of a cleared matrix holds a 0 x 0 buffer that is not null, and on it the C++ code reads `matrix_[0][0]` out of bounds instead of throwing.
- Matrix.S21Matrix.Get: requires non-negative coordinates. `operator()` checks only the upper bounds and reads `matrix_[row][column]` with a negative index unchecked.
- Matrix.S21Matrix.Set: requires non-negative coordinates, for the same unchecked write through `operator()`; the confusion matrix's row -1 in "## Findings" is one such write.
- Neurons.Neuron.SumInput: requires no more inputs than weights. The C++ loop reads `weight_[i]` for every input unchecked.
- Neurons.Neuron.Activate: requires no more inputs than weights, for the same reason.
- Neurons.Neuron.CorrectWeights: requires no more weights than inputs. The C++ loop reads `input_[i]` for every weight unchecked. The Findings section shows a sequence of calls that breaks this.
- Graph.GraphNetwork.CalcDerivOutput: requires at least as many expected values as outputs. The C++ loop reads `expected_values_[i]` unchecked.
- Destructors, `delete`, move constructors and memory management are not modelled; object creation is `new` and nothing is freed. S21Matrix's copy constructor is `Matrix.S21Matrix.Copy`.
- The console print helpers and the Qt user interface (controller, main window, painting scene and learning graph view) are not modelled.
- The wording of the exception messages is not modelled, including the message `GraphNetwork::LoadWeights` builds with `get_hid_width`. Only the exception type is kept.
- The F-measure (`Metrics.FMeasure`) gives NaN for any infinite or NaN operand, where IEEE arithmetic would give an infinity for some infinite operands. The program only passes it a precision and a recall, which are never infinite.

## Findings

| source | as written | input that shows it | evidently intended | confidence | as-written member | corrected member |
|---|---|---|---|---|---|---|
| graphNetwork.cpp:120-129 | `ResizeHidden` clears each output neuron's inputs with `ClearInput` (model/neuron.cpp:14), which keeps its weights, then reconnects the output layer. Each output neuron ends with its old weights plus one new weight per input, 2w weights for w inputs. `Neuron::CorrectWeights` (model/neuron.cpp:44-52) then reads `input_[i]` past the end. | `SetupNetwork(1, 2, 1, 1)`, then `ResizeHidden(3)`, then a learning step | the output neurons' weights are cleared with their inputs, so every neuron keeps one weight per input | not executed | Graph.GraphNetwork.ResizeHidden, Graph.ResizeMisaligns, Graph.ResizeExample | Graph.GraphNetwork.ResizeHiddenCleared, Neurons.Neuron.ClearConnections |
| source_code/model/network.cpp:235-236 | The row is `expected_value - 1`, computed in `size_t` and passed as an `int`. A label 0 gives row -1, and `S21Matrix::operator()` checks only the upper bounds (model/s21_matrix_oop.h:129-134), so a cell before the matrix is written. A label of 2^32 + 1 wraps to row 0. | a CSV line whose label is 0 | only labels 1..26 are counted, and any other label is out_of_range | not executed | Evaluation.CellAsWritten, Evaluation.LabelZeroAsWritten, Evaluation.LabelWrapsAsWritten | Evaluation.CellCorrects, Pool.TallyInto |
