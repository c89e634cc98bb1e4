/** The stand-alone matrix multiplication program: random fill of the inputs,
    the CPU reference product, the device product, and the element-wise
    cross-check of the two within an absolute tolerance. */
module MatrixMult {
  import opened RowMajor
  import opened DenseMatrix

  /** Dimensions of the program's matrices: A is M x K, B is K x N. */
  const M: nat := 128
  const N: nat := 256
  const K: nat := 512

  /** Largest absolute difference the cross-check accepts. */
  const Tolerance: real := 0.00001

  /** Outcome of the cross-check: success, or the first mismatching cell. */
  datatype Verdict = Passed | FailedAt(i: nat, j: nat)

  function Abs(x: real): real {
    if x < 0.0 then -x else x
  }

  /** Cell (i, j) of reference and output differ by at most tol. */
  predicate Agrees(reference: seq<real>, output: seq<real>, rows: nat, cols: nat, tol: real, i: nat, j: nat)
    requires rows * cols <= |reference| && rows * cols <= |output|
    requires i < rows && j < cols
  {
    Abs(reference[Flat(rows, cols, i, j)] - output[Flat(rows, cols, i, j)]) <= tol
  }

  /** Fills the rows x cols matrix in row-major order from the value source:
      the t-th value drawn, draws[t], lands at offset t, so every offset below
      rows * cols is written, with (i, j) written at i * cols + j. */
  method MatrixPopulateRand(matrix: array<real>, rows: nat, cols: nat, draws: seq<real>)
    requires rows * cols <= matrix.Length && rows * cols <= |draws|
    modifies matrix
    ensures matrix[..rows * cols] == draws[..rows * cols]
    ensures forall p :: rows * cols <= p < matrix.Length ==> matrix[p] == old(matrix[p])
  {
    var calls := 0;
    for i := 0 to rows
      invariant calls == i * cols && calls <= rows * cols
      invariant forall p :: 0 <= p < calls ==> matrix[p] == draws[p]
      invariant forall p :: calls <= p < matrix.Length ==> matrix[p] == old(matrix[p])
    {
      for j := 0 to cols
        invariant calls == i * cols + j && calls <= rows * cols
        invariant forall p :: 0 <= p < calls ==> matrix[p] == draws[p]
        invariant forall p :: calls <= p < matrix.Length ==> matrix[p] == old(matrix[p])
      {
        assert calls == Flat(rows, cols, i, j);
        matrix[i * cols + j] := draws[calls];
        calls := calls + 1;
      }
      assert (i + 1) * cols == i * cols + cols;
      MulMonotone(i + 1, rows, cols);
    }
  }

  /** CPU multiply with the argument order (A, B, X, dim1, dimShared, dim2):
      adds A (dim1 x dimShared) * B (dimShared x dim2) into X (dim1 x dim2). */
  method MatrixMultiply(A: array<real>, B: array<real>, X: array<real>,
                        dim1: nat, dimShared: nat, dim2: nat)
    requires dim1 * dimShared <= A.Length && dimShared * dim2 <= B.Length
    requires dim1 * dim2 <= X.Length
    requires X != A && X != B
    modifies X
    ensures forall i, j :: 0 <= i < dim1 && 0 <= j < dim2 ==>
      X[Flat(dim1, dim2, i, j)] == old(X[Flat(dim1, dim2, i, j)]) + ProductAt(A[..], B[..], dim1, dimShared, dim2, i, j)
    ensures forall p :: dim1 * dim2 <= p < X.Length ==> X[p] == old(X[p])
    ensures unchanged(A) && unchanged(B)
  {
    AccumulateProduct(X, A, B, dim1, dimShared, dim2);
  }

  /** Scans the rows x cols results in row-major order and stops at the first
      cell whose expected (reference) and actual (output) values differ by more
      than tol. */
  method VerifyResults(reference: array<real>, output: array<real>, rows: nat, cols: nat, tol: real)
    returns (v: Verdict)
    requires rows * cols <= reference.Length && rows * cols <= output.Length
    ensures v.Passed? <==> forall i, j :: 0 <= i < rows && 0 <= j < cols ==>
      Agrees(reference[..], output[..], rows, cols, tol, i, j)
    ensures v.FailedAt? ==>
      v.i < rows && v.j < cols && !Agrees(reference[..], output[..], rows, cols, tol, v.i, v.j)
    ensures v.FailedAt? ==>
      forall i, j :: 0 <= i < rows && 0 <= j < cols && (i < v.i || (i == v.i && j < v.j)) ==>
        Agrees(reference[..], output[..], rows, cols, tol, i, j)
  {
    ghost var ref, out := reference[..], output[..];
    for i := 0 to rows
      invariant forall i1, j1 :: 0 <= i1 < i && 0 <= j1 < cols ==> Agrees(ref, out, rows, cols, tol, i1, j1)
    {
      for j := 0 to cols
        invariant forall i1, j1 :: 0 <= i1 < i && 0 <= j1 < cols ==> Agrees(ref, out, rows, cols, tol, i1, j1)
        invariant forall j1 :: 0 <= j1 < j ==> Agrees(ref, out, rows, cols, tol, i, j1)
      {
        var actual := output[Flat(rows, cols, i, j)];
        var expected := reference[Flat(rows, cols, i, j)];
        var diff := expected - actual;
        if Abs(diff) > tol {
          assert !Agrees(ref, out, rows, cols, tol, i, j);
          return FailedAt(i, j);
        }
      }
    }
    return Passed;
  }

  /** The program's compute phase: fill A and B from the value source, run the
      accumulating CPU multiply into a reference buffer that holds leftover, and
      the device multiply into output. The output is the product of the drawn
      A and B, the reference is that product plus the leftover value, so cell
      by cell the two results differ by exactly the leftover value. */
  method ComputeProducts(draws: seq<real>, leftover: seq<real>) returns (reference: array<real>, output: array<real>)
    requires M * K + K * N <= |draws| && |leftover| == M * N
    ensures reference.Length == M * N && output.Length == M * N
    ensures forall i, j :: 0 <= i < M && 0 <= j < N ==>
      output[Flat(M, N, i, j)] == ProductAt(draws[..M * K], draws[M * K..M * K + K * N], M, K, N, i, j)
    ensures forall i, j :: 0 <= i < M && 0 <= j < N ==>
      reference[Flat(M, N, i, j)] == leftover[Flat(M, N, i, j)] + ProductAt(draws[..M * K], draws[M * K..M * K + K * N], M, K, N, i, j)
    ensures forall i, j :: 0 <= i < M && 0 <= j < N ==>
      reference[Flat(M, N, i, j)] - output[Flat(M, N, i, j)] == leftover[Flat(M, N, i, j)]
  {
    var inputA := new real[M * K];
    var inputB := new real[K * N];
    output := new real[M * N];
    reference := new real[M * N](p requires 0 <= p < M * N => leftover[p]);
    MatrixPopulateRand(inputA, M, K, draws[..M * K]);
    MatrixPopulateRand(inputB, K, N, draws[M * K..]);
    assert inputA[..] == draws[..M * K];
    assert draws[M * K..][..K * N] == draws[M * K..M * K + K * N];
    assert inputB[..] == inputB[..K * N];
    MatrixMultiply(inputA, inputB, reference, M, K, N);
    DeviceMultiply(output, inputA, inputB, M, N, K);
  }

  /** Leftover value (i, j) of an M x N reference buffer is within the tolerance. */
  predicate LeftoverWithin(leftover: seq<real>, i: nat, j: nat)
    requires |leftover| == M * N && i < M && j < N
  {
    Abs(leftover[Flat(M, N, i, j)]) <= Tolerance
  }

  /** The program as written: the reference buffer is not zeroed before the
      accumulating CPU multiply, so whatever it held (leftover) stays in the
      sum. The cross-check then passes exactly when every leftover value is
      within the tolerance, and a failure points at the first leftover value,
      in row-major order, that is not. */
  method RunAsWritten(draws: seq<real>, leftover: seq<real>) returns (v: Verdict)
    requires M * K + K * N <= |draws| && |leftover| == M * N
    ensures v.Passed? <==> forall i, j :: 0 <= i < M && 0 <= j < N ==> LeftoverWithin(leftover, i, j)
    ensures v.FailedAt? ==> v.i < M && v.j < N && !LeftoverWithin(leftover, v.i, v.j)
    ensures v.FailedAt? ==>
      forall i, j :: 0 <= i < M && 0 <= j < N && (i < v.i || (i == v.i && j < v.j)) ==>
        LeftoverWithin(leftover, i, j)
  {
    var reference, output := ComputeProducts(draws, leftover);
    ghost var ref, out := reference[..], output[..];
    forall i, j | 0 <= i < M && 0 <= j < N
      ensures Agrees(ref, out, M, N, Tolerance, i, j) <==> LeftoverWithin(leftover, i, j)
    {
      assert ref[Flat(M, N, i, j)] - out[Flat(M, N, i, j)] == leftover[Flat(M, N, i, j)];
    }
    v := VerifyResults(reference, output, M, N, Tolerance);
    assert ref == reference[..] && out == output[..];
    if v.FailedAt? {
      assert !Agrees(ref, out, M, N, Tolerance, v.i, v.j);
    }
  }

  /** The program with a zeroed reference buffer: the CPU reference and the
      device product agree, so the cross-check passes. */
  method RunZeroed(draws: seq<real>) returns (v: Verdict)
    requires M * K + K * N <= |draws|
    ensures v == Passed
  {
    var zeros := seq(M * N, _ => 0.0);
    v := RunAsWritten(draws, zeros);
    assert forall i, j :: 0 <= i < M && 0 <= j < N ==> LeftoverWithin(zeros, i, j);
  }

  /** A reference buffer whose first cell holds a leftover value beyond the
      tolerance (1.0, say) makes the program as written report a failure at
      cell (0, 0), although both products agree. */
  method LeftoverFails(draws: seq<real>, leftover: seq<real>) returns (v: Verdict)
    requires M * K + K * N <= |draws| && |leftover| == M * N
    requires !LeftoverWithin(leftover, 0, 0)
    ensures v == FailedAt(0, 0)
  {
    v := RunAsWritten(draws, leftover);
    FirstCellReported(leftover, v);
  }

  /** A verdict that meets the cross-check's contract and whose first cell is
      out of tolerance reports that cell. */
  lemma FirstCellReported(leftover: seq<real>, v: Verdict)
    requires |leftover| == M * N && !LeftoverWithin(leftover, 0, 0)
    requires v.Passed? <==> forall i, j :: 0 <= i < M && 0 <= j < N ==> LeftoverWithin(leftover, i, j)
    requires v.FailedAt? ==>
      forall i, j :: 0 <= i < M && 0 <= j < N && (i < v.i || (i == v.i && j < v.j)) ==>
        LeftoverWithin(leftover, i, j)
    ensures v == FailedAt(0, 0)
  {
    assert v.FailedAt?;
    assert !(0 < v.i || (0 == v.i && 0 < v.j));
  }

  /** The 2 x 2 example: [[1, 2], [3, 4]] * [[5, 6], [7, 8]] == [[19, 22], [43, 50]]. */
  lemma Product2x2()
    ensures ProductAt([1.0, 2.0, 3.0, 4.0], [5.0, 6.0, 7.0, 8.0], 2, 2, 2, 0, 0) == 19.0
    ensures ProductAt([1.0, 2.0, 3.0, 4.0], [5.0, 6.0, 7.0, 8.0], 2, 2, 2, 0, 1) == 22.0
    ensures ProductAt([1.0, 2.0, 3.0, 4.0], [5.0, 6.0, 7.0, 8.0], 2, 2, 2, 1, 0) == 43.0
    ensures ProductAt([1.0, 2.0, 3.0, 4.0], [5.0, 6.0, 7.0, 8.0], 2, 2, 2, 1, 1) == 50.0
  {
  }
}
