/** The dense matrix `S21Matrix` (model/s21_matrix_oop.h).

    A matrix owns a row-major buffer of `rows` x `cols` cells; the buffer is
    the array `data`. Both dimensions are positive, except in the cleared
    state where both are 0: after `Clear` the buffer is released
    (`released`, the C++ null pointer), while a copy of a cleared matrix
    holds an empty buffer of its own. The ghost field `Cells` is the value of the
    matrix as a sequence of rows, and every operation is specified by what
    it does to `Cells`. */
module Matrix {
  import opened Wrappers
  import Activation

  type Grid = seq<seq<real>>

  /** `g` has `r` rows of `c` cells each. */
  ghost predicate IsShape(g: Grid, r: nat, c: nat) {
    |g| == r && forall i :: 0 <= i < r ==> |g[i]| == c
  }

  /** The r x c matrix whose every cell is 0. */
  function Zeros(r: nat, c: nat): (g: Grid)
    ensures IsShape(g, r, c)
  {
    seq(r, i => seq(c, j => 0.0))
  }

  /** The first `k` terms of the dot product of row `i` of `a` with column `j` of `b`. */
  function Dot(a: Grid, b: Grid, i: nat, j: nat, k: nat): real
    requires i < |a| && k <= |a[i]| && k <= |b|
    requires forall t :: 0 <= t < k ==> j < |b[t]|
  {
    if k == 0 then 0.0 else Dot(a, b, i, j, k - 1) + a[i][k - 1] * b[k - 1][j]
  }

  /** The matrix product of `a` (|a| x |b|) and `b` (|b| x c). */
  function Product(a: Grid, b: Grid, c: nat): (p: Grid)
    requires IsShape(a, |a|, |b|) && IsShape(b, |b|, c)
    ensures IsShape(p, |a|, c)
  {
    seq(|a|, i requires 0 <= i < |a| =>
      seq(c, j requires 0 <= j < c => Dot(a, b, i, j, |b|)))
  }

  /** The sigmoid applied to every cell of `g`. */
  function MapSigmoid(g: Grid): (s: Grid)
    ensures |s| == |g| && forall i :: 0 <= i < |g| ==> |s[i]| == |g[i]|
  {
    seq(|g|, i requires 0 <= i < |g| =>
      seq(|g[i]|, j requires 0 <= j < |g[i]| => Activation.Sigmoid(g[i][j])))
  }

  /** The product of `a` and `b` with the sigmoid applied to every cell. */
  function SigmoidProduct(a: Grid, b: Grid, c: nat): (p: Grid)
    requires IsShape(a, |a|, |b|) && IsShape(b, |b|, c)
    ensures IsShape(p, |a|, c)
  {
    MapSigmoid(Product(a, b, c))
  }

  /** Cell (i, j) comes before cell (i', j') in row-major order. */
  predicate Before(i': int, j': int, i: int, j: int) {
    i' < i || (i' == i && j' < j)
  }

  /** (i, j) is the first cell in row-major order holding the maximum of `g`:
      no cell is larger, and every earlier cell is strictly smaller. */
  ghost predicate IsFirstMaxCell(g: Grid, i: int, j: int) {
    && 0 <= i < |g| && 0 <= j < |g[i]|
    && (forall i', j' :: 0 <= i' < |g| && 0 <= j' < |g[i']| ==> g[i'][j'] <= g[i][j])
    && (forall i', j' :: 0 <= i' < |g| && 0 <= j' < |g[i']| && Before(i', j', i, j) ==> g[i'][j'] < g[i][j])
  }

  /** `k` is the smallest index of `s` holding its maximum. */
  ghost predicate IsFirstMax(s: seq<real>, k: int) {
    && 0 <= k < |s|
    && (forall t :: 0 <= t < |s| ==> s[t] <= s[k])
    && (forall t :: 0 <= t < k ==> s[t] < s[k])
  }

  /** The scan both engines use to pick the predicted class: walk the
      entries left to right and move to a later one only when it is
      strictly larger. */
  function FirstMax(s: seq<real>): (k: nat)
    requires s != []
    ensures IsFirstMax(s, k)
    decreases |s|
  {
    if |s| == 1 then 0
    else
      var k := FirstMax(s[..|s| - 1]);
      if s[k] < s[|s| - 1] then |s| - 1 else k
  }

  /** A sequence has only one first maximum. */
  lemma FirstMaxUnique(s: seq<real>, k: int, k': int)
    requires IsFirstMax(s, k) && IsFirstMax(s, k')
    ensures k == k'
  {
    assert s[k'] == s[k];
  }

  /** Every dot product against a zero column is 0. */
  lemma {:induction false} DotWithZeros(a: Grid, n: nat, c: nat, i: nat, j: nat, k: nat)
    requires i < |a| && IsShape(a, |a|, n) && j < c && k <= n
    ensures Dot(a, Zeros(n, c), i, j, k) == 0.0
  {
    if k > 0 {
      DotWithZeros(a, n, c, i, j, k - 1);
    }
  }

  /** Multiplying by a zero matrix gives a zero matrix of the product's shape. */
  lemma ProductWithZeros(a: Grid, n: nat, c: nat)
    requires IsShape(a, |a|, n)
    ensures Product(a, Zeros(n, c), c) == Zeros(|a|, c)
  {
    var p := Product(a, Zeros(n, c), c);
    forall i | 0 <= i < |a|
      ensures p[i] == Zeros(|a|, c)[i]
    {
      forall j | 0 <= j < c
        ensures p[i][j] == 0.0
      {
        DotWithZeros(a, n, c, i, j, n);
      }
    }
  }

  /** The fused multiply against a zero matrix puts Sigmoid(0) in every cell;
      with the logistic function that is 0.5 (tests.cpp, test `mul`). */
  lemma SigmoidProductWithZeros(a: Grid, n: nat, c: nat)
    requires IsShape(a, |a|, n)
    requires Activation.Sigmoid(0.0) == 0.5
    ensures forall i, j :: 0 <= i < |a| && 0 <= j < c ==> SigmoidProduct(a, Zeros(n, c), c)[i][j] == 0.5
  {
    ProductWithZeros(a, n, c);
  }

  /** The scalar product of tests.cpp, test `mul`: [[2]] * [[3]] = [[6]]. */
  lemma ProductOfScalars()
    ensures Product([[2.0]], [[3.0]], 1) == [[6.0]]
  {
    var p := Product([[2.0]], [[3.0]], 1);
    assert p[0][0] == Dot([[2.0]], [[3.0]], 0, 0, 1) == 6.0;
    assert p[0] == [6.0];
  }

  /** In a single row, the first maximal cell is the first maximal entry. */
  lemma FirstMaxCellOfRow(s: seq<real>, k: int)
    ensures IsFirstMaxCell([s], 0, k) <==> IsFirstMax(s, k)
  {
    var g := [s];
    if IsFirstMax(s, k) {
      forall i', j' | 0 <= i' < |g| && 0 <= j' < |g[i']| && Before(i', j', 0, k)
        ensures g[i'][j'] < g[0][k]
      {
        assert i' == 0;
      }
    }
  }

  class S21Matrix {
    var rows: int
    var cols: int
    var data: array2<real>
    /** `matrix_ == nullptr`: the buffer was released by `Clear`. A copy of a
        released matrix is 0 x 0 too, but holds a buffer of its own. */
    var released: bool
    ghost var Cells: Grid

    /** The buffer has the matrix's dimensions, both of which are 0 exactly in
        the cleared state, and holds the cells of `Cells`; a released matrix
        is 0 x 0. */
    ghost predicate Valid()
      reads this, data
    {
      && data.Length0 == rows && data.Length1 == cols
      && (rows == 0 <==> cols == 0)
      && (released ==> rows == 0)
      && IsShape(Cells, rows, cols)
      && forall i, j :: 0 <= i < rows && 0 <= j < cols ==> Cells[i][j] == data[i, j]
    }

    /** `DistributionMemory` on a new object: an r x c buffer of zeros. */
    constructor Allocate(r: nat, c: nat)
      requires r == 0 <==> c == 0
      ensures Valid() && fresh(data) && !released
      ensures rows == r && cols == c && Cells == Zeros(r, c)
    {
      rows, cols, released := r, c, false;
      data := new real[r, c]((i, j) => 0.0);
      Cells := Zeros(r, c);
    }

    /** The public constructor `S21Matrix(rows, columns)`: throws
        invalid_argument unless both dimensions are at least 1, otherwise
        yields a zero matrix of those dimensions. */
    static method New(r: int, c: int) returns (m: Result<S21Matrix>)
      ensures m.Failure? <==> r < 1 || c < 1
      ensures m.Failure? ==> m.error == InvalidArgument
      ensures m.Success? ==> fresh(m.value) && fresh(m.value.data) && m.value.Valid() && !m.value.released
      ensures m.Success? ==> m.value.rows == r && m.value.cols == c && m.value.Cells == Zeros(r, c)
    {
      if r < 1 || c < 1 {
        return Failure(InvalidArgument);
      }
      var a := new S21Matrix.Allocate(r, c);
      m := Success(a);
    }

    /** The copy constructor: same dimensions and cells, in a buffer of its
        own, which is never released even when `other` was. */
    constructor Copy(other: S21Matrix)
      requires other.Valid()
      ensures Valid() && fresh(data) && !released
      ensures rows == other.rows && cols == other.cols && Cells == other.Cells
    {
      rows, cols, released := other.rows, other.cols, false;
      Cells := other.Cells;
      var buffer := new real[other.rows, other.cols]((i, j) => 0.0);
      for i := 0 to other.rows
        invariant forall i', j' :: 0 <= i' < i && 0 <= j' < other.cols ==> buffer[i', j'] == other.data[i', j']
      {
        for j := 0 to other.cols
          invariant forall i', j' :: 0 <= i' < i && 0 <= j' < other.cols ==> buffer[i', j'] == other.data[i', j']
          invariant forall j' :: 0 <= j' < j ==> buffer[i, j'] == other.data[i, j']
        {
          buffer[i, j] := other.data[i, j];
        }
      }
      data := buffer;
    }

    /** Releases the buffer: the matrix becomes 0 x 0 and released. A matrix
        already released is left exactly as it is. */
    method Clear()
      requires Valid()
      modifies this
      ensures Valid() && released && rows == 0 && cols == 0 && Cells == []
      ensures old(released) ==> unchanged(this)
    {
      if !released {
        data := new real[0, 0];
        rows, cols := 0, 0;
        Cells := [];
        released := true;
      }
    }

    /** Exchanges dimensions and buffers with `other`; swapping a matrix with
        itself throws out_of_range. */
    method Swap(other: S21Matrix) returns (o: Outcome)
      requires Valid() && other.Valid()
      modifies this, other
      ensures o.Fail? <==> this == other
      ensures o.Fail? ==> o.error == OutOfRange && unchanged(this)
      ensures o.Pass? ==> Valid() && other.Valid()
      ensures o.Pass? ==> rows == old(other.rows) && cols == old(other.cols) && data == old(other.data) && Cells == old(other.Cells)
      ensures o.Pass? ==> other.rows == old(rows) && other.cols == old(cols) && other.data == old(data) && other.Cells == old(Cells)
      ensures o.Pass? ==> released == old(other.released) && other.released == old(released)
    {
      if this == other {
        return Fail(OutOfRange);
      }
      rows, other.rows := other.rows, rows;
      released, other.released := other.released, released;
      cols, other.cols := other.cols, cols;
      data, other.data := other.data, data;
      Cells, other.Cells := other.Cells, Cells;
      o := Pass;
    }

    /** Reads cell (row, col); the C++ operator checks only the upper bounds. */
    method Get(row: int, col: int) returns (r: Result<real>)
      requires Valid() && 0 <= row && 0 <= col
      ensures r.Failure? <==> rows <= row || cols <= col
      ensures r.Failure? ==> r.error == OutOfRange
      ensures r.Success? ==> r.value == Cells[row][col]
    {
      if rows <= row || cols <= col {
        return Failure(OutOfRange);
      }
      r := Success(data[row, col]);
    }

    /** Writes cell (row, col) through the reference the C++ operator returns;
        no other cell changes. */
    method Set(row: int, col: int, v: real) returns (o: Outcome)
      requires Valid() && 0 <= row && 0 <= col
      modifies this, data
      ensures Valid() && rows == old(rows) && cols == old(cols) && data == old(data) && released == old(released)
      ensures o.Fail? <==> rows <= row || cols <= col
      ensures o.Fail? ==> o.error == OutOfRange && Cells == old(Cells)
      ensures o.Pass? ==> Cells == old(Cells)[row := old(Cells)[row][col := v]]
    {
      if rows <= row || cols <= col {
        return Fail(OutOfRange);
      }
      data[row, col] := v;
      Cells := Cells[row := Cells[row][col := v]];
      o := Pass;
    }

    /** `MulMatrix`: throws invalid_argument when the inner dimensions differ
        (and, through the constructor of the result, when the product would
        be empty); otherwise accumulates the product into a new buffer with
        three nested loops and swaps it in. */
    method MulMatrix(other: S21Matrix) returns (o: Outcome)
      requires Valid() && other.Valid()
      modifies this
      ensures Valid()
      ensures o.Fail? <==> old(cols) != old(other.rows) || old(rows) < 1 || old(other.cols) < 1
      ensures o.Fail? ==> o.error == InvalidArgument && unchanged(this)
      ensures o.Pass? ==> fresh(data) && !released && rows == old(rows) && cols == old(other.cols)
      ensures o.Pass? ==> Cells == Product(old(Cells), old(other.Cells), old(other.cols))
    {
      if cols != other.rows || rows < 1 || other.cols < 1 {
        return Fail(InvalidArgument);
      }
      var result := Accumulate(other, false);
      Cells := Product(Cells, other.Cells, other.cols);
      cols, data, released := other.cols, result, false;
      o := Pass;
    }

    /** `MulMatrixWithSigmoid`: the same product, with the sigmoid applied to
        each cell as soon as it is complete. */
    method MulMatrixWithSigmoid(other: S21Matrix) returns (o: Outcome)
      requires Valid() && other.Valid()
      modifies this
      ensures Valid()
      ensures o.Fail? <==> old(cols) != old(other.rows) || old(rows) < 1 || old(other.cols) < 1
      ensures o.Fail? ==> o.error == InvalidArgument && unchanged(this)
      ensures o.Pass? ==> fresh(data) && !released && rows == old(rows) && cols == old(other.cols)
      ensures o.Pass? ==> Cells == SigmoidProduct(old(Cells), old(other.Cells), old(other.cols))
    {
      if cols != other.rows || rows < 1 || other.cols < 1 {
        return Fail(InvalidArgument);
      }
      var result := Accumulate(other, true);
      Cells := SigmoidProduct(Cells, other.Cells, other.cols);
      cols, data, released := other.cols, result, false;
      o := Pass;
    }

    /** The triple loop shared by both multiplications: a new buffer holding
        the product, passed through the sigmoid when `withSigmoid` holds. */
    method Accumulate(other: S21Matrix, withSigmoid: bool) returns (result: array2<real>)
      requires Valid() && other.Valid() && cols == other.rows
      ensures fresh(result) && result.Length0 == rows && result.Length1 == other.cols
      ensures forall i, j :: 0 <= i < rows && 0 <= j < other.cols ==>
        result[i, j] == (if withSigmoid then Activation.Sigmoid(Dot(Cells, other.Cells, i, j, cols))
                         else Dot(Cells, other.Cells, i, j, cols))
    {
      var n, c := cols, other.cols;
      result := new real[rows, c]((i, j) => 0.0);
      for i := 0 to rows
        modifies result
        invariant forall i', j' :: 0 <= i' < i && 0 <= j' < c ==>
          result[i', j'] == (if withSigmoid then Activation.Sigmoid(Dot(Cells, other.Cells, i', j', n))
                             else Dot(Cells, other.Cells, i', j', n))
        invariant forall i', j' :: i <= i' < rows && 0 <= j' < c ==> result[i', j'] == 0.0
      {
        for j := 0 to c
          modifies result
          invariant forall i', j' :: 0 <= i' < i && 0 <= j' < c ==>
            result[i', j'] == (if withSigmoid then Activation.Sigmoid(Dot(Cells, other.Cells, i', j', n))
                               else Dot(Cells, other.Cells, i', j', n))
          invariant forall j' :: 0 <= j' < j ==>
            result[i, j'] == (if withSigmoid then Activation.Sigmoid(Dot(Cells, other.Cells, i, j', n))
                              else Dot(Cells, other.Cells, i, j', n))
          invariant forall i', j' :: i <= i' < rows && 0 <= j' < c && (i' > i || j' >= j) ==> result[i', j'] == 0.0
        {
          for k := 0 to n
            modifies result
            invariant forall i', j' :: 0 <= i' < i && 0 <= j' < c ==>
              result[i', j'] == (if withSigmoid then Activation.Sigmoid(Dot(Cells, other.Cells, i', j', n))
                                 else Dot(Cells, other.Cells, i', j', n))
            invariant forall j' :: 0 <= j' < j ==>
              result[i, j'] == (if withSigmoid then Activation.Sigmoid(Dot(Cells, other.Cells, i, j', n))
                                else Dot(Cells, other.Cells, i, j', n))
            invariant forall i', j' :: i <= i' < rows && 0 <= j' < c && (i' > i || j' > j) ==> result[i', j'] == 0.0
            invariant result[i, j] == Dot(Cells, other.Cells, i, j, k)
          {
            result[i, j] := result[i, j] + data[i, k] * other.data[k, j];
          }
          if withSigmoid {
            result[i, j] := Activation.Sigmoid(result[i, j]);
          }
        }
      }
    }

    /** `operator=`: assigning a matrix to itself throws invalid_argument;
        otherwise this matrix gets the other's dimensions and cells in a
        buffer of its own. */
    method Assign(other: S21Matrix) returns (o: Outcome)
      requires Valid() && other.Valid()
      modifies this
      ensures Valid()
      ensures o.Fail? <==> this == other
      ensures o.Fail? ==> o.error == InvalidArgument && unchanged(this)
      ensures o.Pass? ==> fresh(data) && !released && rows == other.rows && cols == other.cols && Cells == other.Cells
    {
      if this == other {
        return Fail(InvalidArgument);
      }
      var copy := new S21Matrix.Copy(other);
      rows, cols, data, Cells, released := copy.rows, copy.cols, copy.data, copy.Cells, false;
      o := Pass;
    }

    /** `operator*`: the product in a new matrix; this matrix and `other`
        are left as they are (the method modifies nothing). */
    method Times(other: S21Matrix) returns (r: Result<S21Matrix>)
      requires Valid() && other.Valid()
      ensures r.Failure? <==> cols != other.rows || rows < 1 || other.cols < 1
      ensures r.Failure? ==> r.error == InvalidArgument
      ensures r.Success? ==> fresh(r.value) && fresh(r.value.data) && r.value.Valid() && !r.value.released
      ensures r.Success? ==> r.value.rows == rows && r.value.cols == other.cols
      ensures r.Success? ==> r.value.Cells == Product(Cells, other.Cells, other.cols)
    {
      var product := new S21Matrix.Copy(this);
      var o := product.MulMatrix(other);
      if o.Fail? {
        return Failure(o.error);
      }
      r := Success(product);
    }

    /** `SearchMaxElement`: throws out_of_range on a released matrix; otherwise
        returns the first cell in row-major order holding the maximum. An
        unreleased 0 x 0 matrix, which the C++ reads at [0][0] out of bounds,
        is excluded. */
    method SearchMaxElement() returns (r: Result<(int, int)>)
      requires Valid() && (released || rows > 0)
      ensures r.Failure? <==> released
      ensures r.Failure? ==> r.error == OutOfRange
      ensures r.Success? ==> IsFirstMaxCell(Cells, r.value.0, r.value.1)
    {
      if released {
        return Failure(OutOfRange);
      }
      var bi, bj := 0, 0;
      var best := data[0, 0];
      for i := 0 to rows
        invariant 0 <= bi < rows && 0 <= bj < cols && best == Cells[bi][bj]
        invariant forall i', j' :: 0 <= i' < i && 0 <= j' < cols ==> Cells[i'][j'] <= best
        invariant forall i', j' :: 0 <= i' < rows && 0 <= j' < cols && Before(i', j', bi, bj) ==> Cells[i'][j'] < best
        invariant i == 0 ==> bi == 0 && bj == 0
        invariant i > 0 ==> bi < i
      {
        for j := 0 to cols
          invariant 0 <= bi < rows && 0 <= bj < cols && best == Cells[bi][bj]
          invariant forall i', j' :: 0 <= i' < rows && 0 <= j' < cols && Before(i', j', i, j) ==> Cells[i'][j'] <= best
          invariant forall i', j' :: 0 <= i' < rows && 0 <= j' < cols && Before(i', j', bi, bj) ==> Cells[i'][j'] < best
          invariant Before(bi, bj, i, j) || (i == 0 && j == 0 && bi == 0 && bj == 0)
        {
          if best < data[i, j] {
            best := data[i, j];
            bi, bj := i, j;
          }
        }
      }
      r := Success((bi, bj));
    }
  }

  /** The search example of tests.cpp, test `search`: in [1, 3, 2] the
      maximum is found in column 1. */
  lemma SearchExample()
    ensures IsFirstMaxCell([[1.0, 3.0, 2.0]], 0, 1)
  {
    FirstMaxCellOfRow([1.0, 3.0, 2.0], 1);
  }
}
