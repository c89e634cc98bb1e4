/** Row-major index arithmetic shared by every flat buffer of the system:
    cell (i, j) of a rows x cols matrix lives at offset i * cols + j, and
    slot k of the 3x3 neighbourhood of cell (i, j) of the unrolled
    (rows * cols) x 9 matrix lives at offset (i * cols + j) * 9 + k. */
module RowMajor {

  /** Number of taps of the fixed 3x3 stencil (`kernelSize` in the filter code). */
  const KernelSize: nat := 9

  /** Offset of cell (i, j) in a flat rows x cols buffer; always in bounds. */
  function Flat(rows: nat, cols: nat, i: nat, j: nat): (p: nat)
    requires i < rows && j < cols
    ensures p < rows * cols
  {
    FlatBound(i, j, rows, cols);
    i * cols + j
  }

  /** Offset of slot k of the neighbourhood of cell (i, j) in the unrolled buffer. */
  function UnrollIndex(rows: nat, cols: nat, i: nat, j: nat, k: nat): (p: nat)
    requires i < rows && j < cols && k < KernelSize
    ensures p < rows * cols * KernelSize
  {
    Flat(rows, cols, i, j) * KernelSize + k
  }

  lemma MulMonotone(a: nat, b: nat, c: nat)
    requires a <= b
    ensures a * c <= b * c
  {
  }

  lemma FlatBound(i: nat, j: nat, rows: nat, cols: nat)
    requires i < rows && j < cols
    ensures i * cols + j < rows * cols
  {
    MulMonotone(i + 1, rows, cols);
    assert (i + 1) * cols == i * cols + cols;
  }

  /** Every offset below rows * cols is the offset of exactly the cell it decodes to. */
  lemma FlatDecode(rows: nat, cols: nat, p: nat)
    requires p < rows * cols
    ensures cols > 0 && p / cols < rows && p % cols < cols
    ensures Flat(rows, cols, p / cols, p % cols) == p
  {
    if p / cols >= rows {
      MulMonotone(rows, p / cols, cols);
    }
  }

  /** Decoding the offset of cell (i, j) gives (i, j) back. */
  lemma FlatEncodeDecode(rows: nat, cols: nat, i: nat, j: nat)
    requires i < rows && j < cols
    ensures Flat(rows, cols, i, j) / cols == i && Flat(rows, cols, i, j) % cols == j
  {
    var p := Flat(rows, cols, i, j);
    FlatDecode(rows, cols, p);
    FlatInjective(rows, cols, p / cols, p % cols, i, j);
  }

  /** Decoding the offset of slot k of cell (i, j) gives (i, j, k) back. */
  lemma UnrollEncodeDecode(rows: nat, cols: nat, i: nat, j: nat, k: nat)
    requires i < rows && j < cols && k < KernelSize
    ensures var p := UnrollIndex(rows, cols, i, j, k);
      p / KernelSize == Flat(rows, cols, i, j) && p % KernelSize == k &&
      (p / KernelSize) / cols == i && (p / KernelSize) % cols == j
  {
    FlatEncodeDecode(rows, cols, i, j);
  }

  /** Two distinct cells never share an offset. */
  lemma FlatInjective(rows: nat, cols: nat, i1: nat, j1: nat, i2: nat, j2: nat)
    requires i1 < rows && j1 < cols && i2 < rows && j2 < cols
    requires Flat(rows, cols, i1, j1) == Flat(rows, cols, i2, j2)
    ensures i1 == i2 && j1 == j2
  {
    if i1 < i2 {
      FlatBound(i1, j1, i2, cols);
    } else if i2 < i1 {
      FlatBound(i2, j2, i1, cols);
    }
  }

  /** Cells of earlier rows come before every cell of row i. */
  lemma FlatBeforeRow(rows: nat, cols: nat, i1: nat, j1: nat, i: nat)
    requires i1 < i <= rows && j1 < cols
    ensures Flat(rows, cols, i1, j1) < i * cols
  {
    FlatBound(i1, j1, i, cols);
  }

  /** Every offset of the unrolled buffer is the slot it decodes to. */
  lemma UnrollDecode(rows: nat, cols: nat, p: nat)
    requires p < rows * cols * KernelSize
    ensures cols > 0 && (p / KernelSize) / cols < rows && (p / KernelSize) % cols < cols
    ensures UnrollIndex(rows, cols, (p / KernelSize) / cols, (p / KernelSize) % cols, p % KernelSize) == p
  {
    var q := p / KernelSize;
    assert q < rows * cols;
    FlatDecode(rows, cols, q);
  }

  /** Two distinct (cell, slot) triples never share an offset of the unrolled buffer. */
  lemma UnrollInjective(rows: nat, cols: nat, i1: nat, j1: nat, k1: nat, i2: nat, j2: nat, k2: nat)
    requires i1 < rows && j1 < cols && k1 < KernelSize
    requires i2 < rows && j2 < cols && k2 < KernelSize
    requires UnrollIndex(rows, cols, i1, j1, k1) == UnrollIndex(rows, cols, i2, j2, k2)
    ensures i1 == i2 && j1 == j2 && k1 == k2
  {
    FlatInjective(rows, cols, i1, j1, i2, j2);
  }
}
