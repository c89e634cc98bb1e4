/** The host side of the video filter: the neighbourhood unroll of a grid
    into an (R*C) x 9 matrix, the reshape of a column back into a grid, the
    CPU and device multiplies, and the filter that chains them. A grid (an
    image matrix of samples) is an `array2<real>`; flat buffers are `array<real>`. */
module VideoFilter {
  import opened RowMajor
  import opened DenseMatrix
  import opened Stencil

  /** The samples of a grid, row by row. */
  ghost function Cells(a: array2<real>): Grid
    reads a
  {
    seq(a.Length0, i requires 0 <= i < a.Length0 reads a =>
      seq(a.Length1, j requires 0 <= j < a.Length1 reads a => a[i, j]))
  }

  /** CPU multiply with the argument order (X, A, B, dim1, dim2, dimShared):
      adds A (dim1 x dimShared) * B (dimShared x dim2) into X (dim1 x dim2). */
  method CpuMatrixMultiply(X: array<real>, A: array<real>, B: array<real>,
                           dim1: nat, dim2: nat, dimShared: nat)
    requires dim1 * dimShared <= A.Length && dimShared * dim2 <= B.Length
    requires dim1 * dim2 <= X.Length
    requires X != A && X != B
    modifies X
    ensures forall i, j :: 0 <= i < dim1 && 0 <= j < dim2 ==>
      X[Flat(dim1, dim2, i, j)] == old(X[Flat(dim1, dim2, i, j)]) + ProductAt(A[..], B[..], dim1, dimShared, dim2, i, j)
    ensures forall p :: dim1 * dim2 <= p < X.Length ==> X[p] == old(X[p])
    ensures unchanged(A) && unchanged(B)
  {
    AccumulateProduct(X, A, B, dim1, dimShared, dim2);
  }

  /** The device multiply with the argument order (output, a, b, M, N, K):
      output (M x N) := a (M x K) * b (K x N). */
  method MatrixMultiply(output: array<real>, inputA: array<real>, inputB: array<real>,
                        M: nat, N: nat, K: nat)
    requires M * K <= inputA.Length && K * N <= inputB.Length && M * N <= output.Length
    requires output != inputA && output != inputB
    modifies output
    ensures forall i, j :: 0 <= i < M && 0 <= j < N ==>
      output[Flat(M, N, i, j)] == ProductAt(inputA[..], inputB[..], M, K, N, i, j)
    ensures forall p :: M * N <= p < output.Length ==> output[p] == old(output[p])
    ensures unchanged(inputA) && unchanged(inputB)
  {
    DeviceMultiply(output, inputA, inputB, M, N, K);
  }

  /** Unrolls the rows x cols grid into convMatrix: row i * cols + j of the
      (rows * cols) x 9 result holds the 3x3 neighbourhood of cell (i, j), with
      every off-grid slot 0. Nothing beyond rows * cols * 9 is written. */
  method MatToConv(imageMatrix: array2<real>, convMatrix: array<real>, rows: nat, cols: nat)
    requires imageMatrix.Length0 == rows && imageMatrix.Length1 == cols
    requires rows * cols * KernelSize <= convMatrix.Length
    modifies convMatrix
    ensures forall i, j, k :: 0 <= i < rows && 0 <= j < cols && 0 <= k < KernelSize ==>
      convMatrix[UnrollIndex(rows, cols, i, j, k)] == Neighbour(Cells(imageMatrix), i, j, k)
    ensures forall p :: rows * cols * KernelSize <= p < convMatrix.Length ==> convMatrix[p] == old(convMatrix[p])
  {
    ghost var g := Cells(imageMatrix);
    var curIdx := 0;
    for i := 0 to rows
      invariant curIdx == i * cols
      invariant forall i1, j1, k1 :: 0 <= i1 < i && 0 <= j1 < cols && 0 <= k1 < KernelSize ==>
        convMatrix[UnrollIndex(rows, cols, i1, j1, k1)] == Neighbour(g, i1, j1, k1)
      invariant forall p :: curIdx * KernelSize <= p < convMatrix.Length ==> convMatrix[p] == old(convMatrix[p])
    {
      forall i1, j1, k1 | 0 <= i1 < i && 0 <= j1 < cols && 0 <= k1 < KernelSize
        ensures UnrollIndex(rows, cols, i1, j1, k1) < i * cols * KernelSize
      {
        FlatBeforeRow(rows, cols, i1, j1, i);
      }
      for j := 0 to cols
        invariant curIdx == i * cols + j
        invariant forall i1, j1, k1 :: 0 <= i1 < i && 0 <= j1 < cols && 0 <= k1 < KernelSize ==>
          convMatrix[UnrollIndex(rows, cols, i1, j1, k1)] == Neighbour(g, i1, j1, k1)
        invariant forall j1, k1 :: 0 <= j1 < j && 0 <= k1 < KernelSize ==>
          convMatrix[UnrollIndex(rows, cols, i, j1, k1)] == Neighbour(g, i, j1, k1)
        invariant forall p :: curIdx * KernelSize <= p < convMatrix.Length ==> convMatrix[p] == old(convMatrix[p])
      {
        assert curIdx == Flat(rows, cols, i, j);
        UnrollCell(imageMatrix, convMatrix, rows, cols, i, j, curIdx);
        curIdx := curIdx + 1;
      }
      assert (i + 1) * cols == i * cols + cols;
    }
  }

  /** The unroll covers its whole range: every offset p below rows * cols * 9
      holds slot p % 9 of the neighbourhood of the cell that row p / 9 stands for. */
  lemma UnrollCovers(g: Grid, rows: nat, cols: nat, conv: seq<real>)
    requires rows * cols * KernelSize <= |conv|
    requires forall i, j, k :: 0 <= i < rows && 0 <= j < cols && 0 <= k < KernelSize ==>
      conv[UnrollIndex(rows, cols, i, j, k)] == Neighbour(g, i, j, k)
    ensures forall p :: 0 <= p < rows * cols * KernelSize ==>
      cols > 0 && conv[p] == Neighbour(g, (p / KernelSize) / cols, (p / KernelSize) % cols, p % KernelSize)
  {
    forall p | 0 <= p < rows * cols * KernelSize
      ensures cols > 0 && conv[p] == Neighbour(g, (p / KernelSize) / cols, (p / KernelSize) % cols, p % KernelSize)
    {
      UnrollDecode(rows, cols, p);
    }
  }

  /** The innermost loop of the unroll: the 9 slots of row curIdx = i * cols + j,
      each the sample at (i + KernelMapX[k], j + KernelMapY[k]) or 0 off the grid. */
  method UnrollCell(imageMatrix: array2<real>, convMatrix: array<real>, rows: nat, cols: nat,
                    i: nat, j: nat, curIdx: nat)
    requires imageMatrix.Length0 == rows && imageMatrix.Length1 == cols
    requires rows * cols * KernelSize <= convMatrix.Length
    requires i < rows && j < cols && curIdx == Flat(rows, cols, i, j)
    modifies convMatrix
    ensures forall k :: 0 <= k < KernelSize ==>
      convMatrix[UnrollIndex(rows, cols, i, j, k)] == Neighbour(Cells(imageMatrix), i, j, k)
    ensures forall p :: 0 <= p < convMatrix.Length && !(curIdx * KernelSize <= p < curIdx * KernelSize + KernelSize) ==>
      convMatrix[p] == old(convMatrix[p])
  {
    ghost var g := Cells(imageMatrix);
    for k := 0 to KernelSize
      invariant forall k1 :: 0 <= k1 < k ==> convMatrix[UnrollIndex(rows, cols, i, j, k1)] == Neighbour(g, i, j, k1)
      invariant forall p :: 0 <= p < convMatrix.Length && !(curIdx * KernelSize <= p < curIdx * KernelSize + k) ==>
        convMatrix[p] == old(convMatrix[p])
    {
      var curIndX := i + KernelMapX[k];
      var curIndY := j + KernelMapY[k];
      var curVal: real;
      if curIndX < 0 || curIndX >= rows || curIndY < 0 || curIndY >= cols {
        curVal := 0.0;
      } else {
        curVal := imageMatrix[curIndX, curIndY];
      }
      convMatrix[curIdx * KernelSize + k] := curVal;
    }
  }

  /** Writes element i * cols + j of the column convMatrix to cell (i, j) of
      result, in row-major order: result becomes the reshape of the column. */
  method ConvToMat(convMatrix: array<real>, result: array2<real>, rows: nat, cols: nat)
    requires result.Length0 == rows && result.Length1 == cols
    requires rows * cols <= convMatrix.Length
    modifies result
    ensures forall i, j :: 0 <= i < rows && 0 <= j < cols ==> result[i, j] == convMatrix[Flat(rows, cols, i, j)]
    ensures Cells(result) == Reshape(convMatrix[..], rows, cols)
  {
    var curIdx := 0;
    for i := 0 to rows
      invariant curIdx == i * cols
      invariant forall i1, j1 :: 0 <= i1 < i && 0 <= j1 < cols ==> result[i1, j1] == convMatrix[Flat(rows, cols, i1, j1)]
    {
      for j := 0 to cols
        invariant curIdx == i * cols + j
        invariant forall i1, j1 :: 0 <= i1 < i && 0 <= j1 < cols ==> result[i1, j1] == convMatrix[Flat(rows, cols, i1, j1)]
        invariant forall j1 :: 0 <= j1 < j ==> result[i, j1] == convMatrix[Flat(rows, cols, i, j1)]
      {
        assert curIdx == Flat(rows, cols, i, j);
        result[i, j] := convMatrix[curIdx];
        curIdx := curIdx + 1;
      }
      assert (i + 1) * cols == i * cols + cols;
    }
    ghost var r := Reshape(convMatrix[..], rows, cols);
    forall i | 0 <= i < rows
      ensures Cells(result)[i] == r[i]
    {
    }
  }

  /** Row p of an unrolled matrix with `cells` rows, holding the neighbourhood
      of cell (i, j), times the 9 x 1 weight column is the filter's weighted sum
      at cell (i, j). */
  lemma {:induction false} UnrolledProduct(conv: seq<real>, w: seq<real>, g: Grid,
                                           cells: nat, p: nat, i: int, j: int, n: nat)
    requires p < cells && n <= KernelSize <= |w| && cells * KernelSize <= |conv|
    requires forall k :: 0 <= k < KernelSize ==> conv[Flat(cells, KernelSize, p, k)] == Neighbour(g, i, j, k)
    ensures Dot(conv, w, cells, KernelSize, 1, p, 0, n) == Taps(g, w, i, j, n)
  {
    if n > 0 {
      UnrolledProduct(conv, w, g, cells, p, i, j, n - 1);
      assert Flat(KernelSize, 1, n - 1, 0) == n - 1;
      var tap := conv[Flat(cells, KernelSize, p, n - 1)];
      assert tap == Neighbour(g, i, j, n - 1);
      var term := tap * w[n - 1];
      assert Dot(conv, w, cells, KernelSize, 1, p, 0, n)
          == Dot(conv, w, cells, KernelSize, 1, p, 0, n - 1) + term;
      assert Taps(g, w, i, j, n) == Taps(g, w, i, j, n - 1) + term;
    }
  }

  /** Unroll, multiply by the 9 x 1 weight column, reshape: the composition is
      the zero-padded 3x3 filter, and the output grid has the input's shape. */
  lemma UnrollMultiplyReshape(g: Grid, w: seq<real>, rows: nat, cols: nat,
                              conv: seq<real>, column: seq<real>)
    requires IsShape(g, rows, cols) && KernelSize <= |w|
    requires rows * cols * KernelSize <= |conv| && rows * cols <= |column|
    requires forall i, j, k :: 0 <= i < rows && 0 <= j < cols && 0 <= k < KernelSize ==>
      conv[UnrollIndex(rows, cols, i, j, k)] == Neighbour(g, i, j, k)
    requires forall p :: 0 <= p < rows * cols ==>
      column[Flat(rows * cols, 1, p, 0)] == ProductAt(conv, w, rows * cols, KernelSize, 1, p, 0)
    ensures Reshape(column, rows, cols) == Convolve(g, w)
  {
    var r, out := Reshape(column, rows, cols), Convolve(g, w);
    forall i | 0 <= i < rows
      ensures r[i] == out[i]
    {
      forall j | 0 <= j < cols
        ensures r[i][j] == out[i][j]
      {
        var p := Flat(rows, cols, i, j);
        assert Flat(rows * cols, 1, p, 0) == p;
        forall k | 0 <= k < KernelSize
          ensures conv[Flat(rows * cols, KernelSize, p, k)] == Neighbour(g, i, j, k)
        {
          assert Flat(rows * cols, KernelSize, p, k) == UnrollIndex(rows, cols, i, j, k);
        }
        UnrolledProduct(conv, w, g, rows * cols, p, i, j, KernelSize);
      }
    }
  }

  /** Copies a grid into another grid of the same shape (the library's copyTo). */
  method CopyTo(source: array2<real>, target: array2<real>)
    requires target.Length0 == source.Length0 && target.Length1 == source.Length1
    requires source != target
    modifies target
    ensures Cells(target) == Cells(source)
  {
    forall i, j | 0 <= i < source.Length0 && 0 <= j < source.Length1 {
      target[i, j] := source[i, j];
    }
    forall i | 0 <= i < source.Length0
      ensures Cells(target)[i] == Cells(source)[i]
    {
    }
  }

  /** The filter pipeline for one 9-tap weight vector: unroll, multiply the
      (rows * cols) x 9 matrix by the 9 x 1 kernel, reshape the column into a
      temporary grid and copy it to result. matrix and result may be the same grid. */
  method Filter(matrix: array2<real>, result: array2<real>, kernel: array<real>)
    requires KernelSize <= kernel.Length
    requires result.Length0 == matrix.Length0 && result.Length1 == matrix.Length1
    modifies result
    ensures Cells(result) == Convolve(old(Cells(matrix)), kernel[..])
  {
    ghost var g := Cells(matrix);
    ghost var w := kernel[..];
    var rows, cols := matrix.Length0, matrix.Length1;
    var numElements := rows * cols;
    var convMatrix := new real[numElements * KernelSize](_ => 0.0);
    var output := new real[numElements];
    MatToConv(matrix, convMatrix, rows, cols);
    assert Cells(matrix) == g;
    ghost var conv := convMatrix[..];
    MatrixMultiply(output, convMatrix, kernel, numElements, 1, KernelSize);
    assert convMatrix[..] == conv && kernel[..] == w;
    ghost var column := output[..];
    var tempResult := new real[rows, cols]((_, _) => 1.0 / 255.0);
    ConvToMat(output, tempResult, rows, cols);
    CopyTo(tempResult, result);
    UnrollMultiplyReshape(g, w, rows, cols, conv, column);
    assert kernel[..] == w;
  }

  /** 3x3 Gaussian blur. */
  method GaussianBlur(matrix: array2<real>, result: array2<real>)
    requires result.Length0 == matrix.Length0 && result.Length1 == matrix.Length1
    modifies result
    ensures Cells(result) == Convolve(old(Cells(matrix)), GaussianWeights)
  {
    var kernel := new real[KernelSize](k requires 0 <= k < KernelSize => GaussianWeights[k]);
    assert kernel[..] == GaussianWeights;
    Filter(matrix, result, kernel);
  }

  /** 3x3 Sobel / Scharr filter along the x axis. */
  method SobelHorizontal(matrix: array2<real>, result: array2<real>)
    requires result.Length0 == matrix.Length0 && result.Length1 == matrix.Length1
    modifies result
    ensures Cells(result) == Convolve(old(Cells(matrix)), SobelHorizontalWeights)
  {
    var kernel := new real[KernelSize](k requires 0 <= k < KernelSize => SobelHorizontalWeights[k]);
    assert kernel[..] == SobelHorizontalWeights;
    Filter(matrix, result, kernel);
  }

  /** 3x3 Sobel / Scharr filter along the y axis. */
  method SobelVertical(matrix: array2<real>, result: array2<real>)
    requires result.Length0 == matrix.Length0 && result.Length1 == matrix.Length1
    modifies result
    ensures Cells(result) == Convolve(old(Cells(matrix)), SobelVerticalWeights)
  {
    var kernel := new real[KernelSize](k requires 0 <= k < KernelSize => SobelVerticalWeights[k]);
    assert kernel[..] == SobelVerticalWeights;
    Filter(matrix, result, kernel);
  }
}
