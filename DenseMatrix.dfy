/** Dense matrix product over flat row-major buffers: the CPU reference
    engine's accumulate loop, shared by both programs, and the device
    multiply, whose kernel is modelled by the mathematical product. */
module DenseMatrix {
  import opened RowMajor

  /** The first n terms of the dot product of row i of A (dim1 x dimShared)
      with column j of B (dimShared x dim2), summed in increasing k. */
  function Dot(A: seq<real>, B: seq<real>, dim1: nat, dimShared: nat, dim2: nat,
               i: nat, j: nat, n: nat): real
    requires i < dim1 && j < dim2 && n <= dimShared
    requires dim1 * dimShared <= |A| && dimShared * dim2 <= |B|
    decreases n
  {
    if n == 0 then 0.0
    else
      Dot(A, B, dim1, dimShared, dim2, i, j, n - 1)
        + A[Flat(dim1, dimShared, i, n - 1)] * B[Flat(dimShared, dim2, n - 1, j)]
  }

  /** Entry (i, j) of the product A * B. */
  function ProductAt(A: seq<real>, B: seq<real>, dim1: nat, dimShared: nat, dim2: nat,
                     i: nat, j: nat): real
    requires i < dim1 && j < dim2
    requires dim1 * dimShared <= |A| && dimShared * dim2 <= |B|
  {
    Dot(A, B, dim1, dimShared, dim2, i, j, dimShared)
  }

  /** Adds A * B into X: X[i*dim2+j] += A[i*dimShared+k] * B[k*dim2+j] for all
      i < dim1, j < dim2, k < dimShared, in row-major output order. */
  method AccumulateProduct(X: array<real>, A: array<real>, B: array<real>,
                           dim1: nat, dimShared: nat, dim2: nat)
    requires dim1 * dimShared <= A.Length && dimShared * dim2 <= B.Length
    requires dim1 * dim2 <= X.Length
    requires X != A && X != B
    modifies X
    ensures forall i, j :: 0 <= i < dim1 && 0 <= j < dim2 ==>
      X[Flat(dim1, dim2, i, j)] == old(X[Flat(dim1, dim2, i, j)]) + ProductAt(A[..], B[..], dim1, dimShared, dim2, i, j)
    ensures forall p :: dim1 * dim2 <= p < X.Length ==> X[p] == old(X[p])
    ensures unchanged(A) && unchanged(B)
  {
    ghost var a, b := A[..], B[..];
    for i := 0 to dim1
      invariant forall i1, j1 :: 0 <= i1 < i && 0 <= j1 < dim2 ==>
        X[Flat(dim1, dim2, i1, j1)] == old(X[Flat(dim1, dim2, i1, j1)]) + ProductAt(a, b, dim1, dimShared, dim2, i1, j1)
      invariant forall p :: i * dim2 <= p < X.Length ==> X[p] == old(X[p])
    {
      forall i1, j1 | 0 <= i1 < i && 0 <= j1 < dim2
        ensures Flat(dim1, dim2, i1, j1) < i * dim2
      {
        FlatBeforeRow(dim1, dim2, i1, j1, i);
      }
      AccumulateRow(X, A, B, dim1, dimShared, dim2, i);
      assert (i + 1) * dim2 == i * dim2 + dim2;
    }
  }

  /** The middle loop: adds row i of A * B into row i of X. */
  method AccumulateRow(X: array<real>, A: array<real>, B: array<real>,
                       dim1: nat, dimShared: nat, dim2: nat, i: nat)
    requires i < dim1
    requires dim1 * dimShared <= A.Length && dimShared * dim2 <= B.Length
    requires dim1 * dim2 <= X.Length
    requires X != A && X != B
    modifies X
    ensures forall j :: 0 <= j < dim2 ==>
      X[Flat(dim1, dim2, i, j)] == old(X[Flat(dim1, dim2, i, j)]) + ProductAt(A[..], B[..], dim1, dimShared, dim2, i, j)
    ensures forall p :: 0 <= p < X.Length && !(i * dim2 <= p < i * dim2 + dim2) ==> X[p] == old(X[p])
  {
    for j := 0 to dim2
      invariant forall j1 :: 0 <= j1 < j ==>
        X[Flat(dim1, dim2, i, j1)] == old(X[Flat(dim1, dim2, i, j1)]) + ProductAt(A[..], B[..], dim1, dimShared, dim2, i, j1)
      invariant forall p :: 0 <= p < X.Length && !(i * dim2 <= p < i * dim2 + j) ==> X[p] == old(X[p])
    {
      AccumulateCell(X, A, B, dim1, dimShared, dim2, i, j);
    }
  }

  /** The innermost loop: X[i*dim2+j] += A[i*dimShared+k] * B[k*dim2+j] for k < dimShared. */
  method AccumulateCell(X: array<real>, A: array<real>, B: array<real>,
                        dim1: nat, dimShared: nat, dim2: nat, i: nat, j: nat)
    requires i < dim1 && j < dim2
    requires dim1 * dimShared <= A.Length && dimShared * dim2 <= B.Length
    requires dim1 * dim2 <= X.Length
    requires X != A && X != B
    modifies X
    ensures X[Flat(dim1, dim2, i, j)] == old(X[Flat(dim1, dim2, i, j)]) + ProductAt(A[..], B[..], dim1, dimShared, dim2, i, j)
    ensures forall p :: 0 <= p < X.Length && p != Flat(dim1, dim2, i, j) ==> X[p] == old(X[p])
  {
    var q := Flat(dim1, dim2, i, j);
    for k := 0 to dimShared
      invariant X[q] == old(X[q]) + Dot(A[..], B[..], dim1, dimShared, dim2, i, j, k)
      invariant forall p :: 0 <= p < X.Length && p != q ==> X[p] == old(X[p])
    {
      X[q] := X[q] + A[Flat(dim1, dimShared, i, k)] * B[Flat(dimShared, dim2, k, j)];
    }
  }

  /** The device multiply: Output (M x N) = A (M x K) * B (K x N). Each of the
      M * N work-items computes its own dot product across K from zero and writes
      one output element, so the whole launch is one simultaneous assignment. */
  method DeviceMultiply(output: array<real>, inputA: array<real>, inputB: array<real>,
                        M: nat, N: nat, K: nat)
    requires M * K <= inputA.Length && K * N <= inputB.Length && M * N <= output.Length
    requires output != inputA && output != inputB
    modifies output
    ensures forall i, j :: 0 <= i < M && 0 <= j < N ==>
      output[Flat(M, N, i, j)] == ProductAt(inputA[..], inputB[..], M, K, N, i, j)
    ensures forall p :: M * N <= p < output.Length ==> output[p] == old(output[p])
    ensures unchanged(inputA) && unchanged(inputB)
  {
    forall i1, j1, i2, j2 | 0 <= i1 < M && 0 <= j1 < N && 0 <= i2 < M && 0 <= j2 < N
      ensures Flat(M, N, i1, j1) == Flat(M, N, i2, j2) ==> i1 == i2 && j1 == j2
    {
      if Flat(M, N, i1, j1) == Flat(M, N, i2, j2) {
        FlatInjective(M, N, i1, j1, i2, j2);
      }
    }
    var a, b := inputA[..], inputB[..];
    forall i, j | 0 <= i < M && 0 <= j < N {
      output[Flat(M, N, i, j)] := ProductAt(a, b, M, K, N, i, j);
    }
    assert a == inputA[..] && b == inputB[..];
  }
}
