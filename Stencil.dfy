/** The mathematics the filter pipeline realises: a fixed 3x3 neighbourhood
    with zero padding, a 9-tap weighted sum per cell, the named weight
    vectors, and row-major flattening of a grid and its inverse. */
module Stencil {
  import opened RowMajor

  /** A 2-D grid of samples, row by row. */
  type Grid = seq<seq<real>>

  predicate IsShape(g: Grid, rows: nat, cols: nat) {
    |g| == rows && forall i :: 0 <= i < rows ==> |g[i]| == cols
  }

  /** Row and column offsets of the 9 slots: top-left, top, top-right, left,
      centre, right, bottom-left, bottom, bottom-right. */
  const KernelMapX: seq<int> := [-1, -1, -1, 0, 0, 0, 1, 1, 1]
  const KernelMapY: seq<int> := [-1, 0, 1, -1, 0, 1, -1, 0, 1]

  /** The named filters are nothing but weight vectors. */
  const GaussianWeights: seq<real> :=
    [0.077847, 0.123317, 0.077847, 0.123317, 0.195346, 0.123317, 0.077847, 0.123317, 0.077847]
  const SobelHorizontalWeights: seq<real> := [3.0, 0.0, -3.0, 10.0, 0.0, -10.0, 3.0, 0.0, -3.0]
  const SobelVerticalWeights: seq<real> := [3.0, 10.0, 3.0, 0.0, 0.0, 0.0, -3.0, -10.0, -3.0]
  /** The centre tap alone. */
  const IdentityWeights: seq<real> := [0.0, 0.0, 0.0, 0.0, 1.0, 0.0, 0.0, 0.0, 0.0]

  /** The sample at (x, y), or zero when (x, y) is off the grid. */
  function Padded(g: Grid, x: int, y: int): real {
    if 0 <= x < |g| && 0 <= y < |g[x]| then g[x][y] else 0.0
  }

  /** Slot k of the neighbourhood of cell (i, j). */
  function Neighbour(g: Grid, i: int, j: int, k: nat): real
    requires k < KernelSize
  {
    Padded(g, i + KernelMapX[k], j + KernelMapY[k])
  }

  /** The 9 slots of the neighbourhood of cell (i, j), in table order. */
  function Neighbourhood(g: Grid, i: int, j: int): seq<real> {
    seq(KernelSize, k requires 0 <= k < KernelSize => Neighbour(g, i, j, k))
  }

  /** The weighted sum of the first n slots of the neighbourhood of (i, j). */
  function Taps(g: Grid, w: seq<real>, i: int, j: int, n: nat): real
    requires n <= KernelSize <= |w|
  {
    if n == 0 then 0.0 else Taps(g, w, i, j, n - 1) + Neighbour(g, i, j, n - 1) * w[n - 1]
  }

  /** Output cell (i, j) of the filter with weights w. */
  function ConvolveAt(g: Grid, w: seq<real>, i: int, j: int): real
    requires KernelSize <= |w|
  {
    Taps(g, w, i, j, KernelSize)
  }

  /** The filter with weights w applied to every cell of g. */
  function Convolve(g: Grid, w: seq<real>): Grid
    requires KernelSize <= |w|
  {
    seq(|g|, i requires 0 <= i < |g| =>
      seq(|g[i]|, j requires 0 <= j < |g[i]| => ConvolveAt(g, w, i, j)))
  }

  /** The grid's samples in row-major order. */
  function Flatten(g: Grid): seq<real> {
    if |g| == 0 then [] else g[0] + Flatten(g[1..])
  }

  /** The rows x cols grid whose cell (i, j) is s[i * cols + j]. */
  function Reshape(s: seq<real>, rows: nat, cols: nat): Grid
    requires rows * cols <= |s|
  {
    seq(rows, i requires 0 <= i < rows =>
      seq(cols, j requires 0 <= j < cols => s[Flat(rows, cols, i, j)]))
  }

  // ---------------------------------------------------------------- offsets

  /** The table enumerates the offsets (dx, dy) in row-major order of the 3x3
      window, so slot k is the one at window row k / 3, window column k % 3. */
  lemma OffsetOrder(k: nat)
    requires k < KernelSize
    ensures KernelMapX[k] == k / 3 - 1 && KernelMapY[k] == k % 3 - 1
  {
  }

  /** Slot 4 is the centre: it holds the cell itself. */
  lemma CentreTap(g: Grid, i: int, j: int)
    requires 0 <= i < |g| && 0 <= j < |g[i]|
    ensures KernelMapX[4] == 0 && KernelMapY[4] == 0
    ensures Neighbour(g, i, j, 4) == g[i][j]
  {
  }

  /** A 1x1 grid has eight padded slots and its sole sample in the centre. */
  lemma SingleCellNeighbourhood(v: real)
    ensures Neighbourhood([[v]], 0, 0) == [0.0, 0.0, 0.0, 0.0, v, 0.0, 0.0, 0.0, 0.0]
  {
    var n := Neighbourhood([[v]], 0, 0);
    assert n[4] == v;
    assert forall k :: 0 <= k < KernelSize && k != 4 ==> n[k] == 0.0;
  }

  /** No slot of an interior cell is padded: each is the neighbouring sample. */
  lemma InteriorUnpadded(g: Grid, rows: nat, cols: nat, i: int, j: int, k: nat)
    requires IsShape(g, rows, cols)
    requires 1 <= i < rows - 1 && 1 <= j < cols - 1 && k < KernelSize
    ensures 0 <= i + KernelMapX[k] < rows && 0 <= j + KernelMapY[k] < cols
    ensures Neighbour(g, i, j, k) == g[i + KernelMapX[k]][j + KernelMapY[k]]
  {
  }

  /** A slot whose offset falls off the grid is exactly zero (no clamping, no
      wrap-around); any other slot is the sample at the offset. */
  lemma PaddingIsZero(g: Grid, rows: nat, cols: nat, i: int, j: int, k: nat)
    requires IsShape(g, rows, cols) && k < KernelSize
    ensures var x, y := i + KernelMapX[k], j + KernelMapY[k];
      if 0 <= x < rows && 0 <= y < cols then Neighbour(g, i, j, k) == g[x][y]
      else Neighbour(g, i, j, k) == 0.0
  {
  }

  // ---------------------------------------------------------------- filters

  /** Filtering keeps the shape of the grid. */
  lemma ConvolveShape(g: Grid, w: seq<real>, rows: nat, cols: nat)
    requires KernelSize <= |w| && IsShape(g, rows, cols)
    ensures IsShape(Convolve(g, w), rows, cols)
  {
  }

  /** The sum of the 9 taps spelled out term by term. */
  lemma TapsExpanded(g: Grid, w: seq<real>, i: int, j: int)
    requires KernelSize <= |w|
    ensures ConvolveAt(g, w, i, j)
         == Neighbour(g, i, j, 0) * w[0] + Neighbour(g, i, j, 1) * w[1] + Neighbour(g, i, j, 2) * w[2]
          + Neighbour(g, i, j, 3) * w[3] + Neighbour(g, i, j, 4) * w[4] + Neighbour(g, i, j, 5) * w[5]
          + Neighbour(g, i, j, 6) * w[6] + Neighbour(g, i, j, 7) * w[7] + Neighbour(g, i, j, 8) * w[8]
  {
    assert Taps(g, w, i, j, 1) == Neighbour(g, i, j, 0) * w[0];
    assert Taps(g, w, i, j, 2) == Taps(g, w, i, j, 1) + Neighbour(g, i, j, 1) * w[1];
    assert Taps(g, w, i, j, 3) == Taps(g, w, i, j, 2) + Neighbour(g, i, j, 2) * w[2];
    assert Taps(g, w, i, j, 4) == Taps(g, w, i, j, 3) + Neighbour(g, i, j, 3) * w[3];
    assert Taps(g, w, i, j, 5) == Taps(g, w, i, j, 4) + Neighbour(g, i, j, 4) * w[4];
    assert Taps(g, w, i, j, 6) == Taps(g, w, i, j, 5) + Neighbour(g, i, j, 5) * w[5];
    assert Taps(g, w, i, j, 7) == Taps(g, w, i, j, 6) + Neighbour(g, i, j, 6) * w[6];
    assert Taps(g, w, i, j, 8) == Taps(g, w, i, j, 7) + Neighbour(g, i, j, 7) * w[7];
    assert Taps(g, w, i, j, 9) == Taps(g, w, i, j, 8) + Neighbour(g, i, j, 8) * w[8];
  }

  /** The centre tap alone reproduces every grid exactly. */
  lemma IdentityFilter(g: Grid)
    ensures Convolve(g, IdentityWeights) == g
  {
    var out := Convolve(g, IdentityWeights);
    forall i, j | 0 <= i < |g| && 0 <= j < |g[i]|
      ensures out[i][j] == g[i][j]
    {
      TapsExpanded(g, IdentityWeights, i, j);
    }
    forall i | 0 <= i < |g|
      ensures out[i] == g[i]
    {
    }
  }

  /** The vertical edge weights are the 3x3 transpose of the horizontal ones. */
  lemma SobelTranspose(a: nat, b: nat)
    requires a < 3 && b < 3
    ensures SobelVerticalWeights[Flat(3, 3, a, b)] == SobelHorizontalWeights[Flat(3, 3, b, a)]
  {
  }

  /** On a constant grid the edge filters vanish at every interior cell, and the
      blur scales the constant by the sum of its weights, 1.000002. */
  lemma ConstantInterior(g: Grid, rows: nat, cols: nat, c: real, i: int, j: int)
    requires IsShape(g, rows, cols)
    requires forall x, y :: 0 <= x < rows && 0 <= y < cols ==> g[x][y] == c
    requires 1 <= i < rows - 1 && 1 <= j < cols - 1
    ensures ConvolveAt(g, SobelHorizontalWeights, i, j) == 0.0
    ensures ConvolveAt(g, SobelVerticalWeights, i, j) == 0.0
    ensures ConvolveAt(g, GaussianWeights, i, j) == 1.000002 * c
  {
    forall k | 0 <= k < KernelSize
      ensures Neighbour(g, i, j, k) == c
    {
      InteriorUnpadded(g, rows, cols, i, j, k);
    }
    TapsExpanded(g, SobelHorizontalWeights, i, j);
    TapsExpanded(g, SobelVerticalWeights, i, j);
    TapsExpanded(g, GaussianWeights, i, j);
  }

  /** Regression fixture: the blur of [[1, 2], [3, 4]] with zero padding. */
  lemma BlurFixture()
    ensures Convolve([[1.0, 2.0], [3.0, 4.0]], GaussianWeights)
         == [[1.123319, 1.240818], [1.358317, 1.475816]]
  {
    var g: Grid := [[1.0, 2.0], [3.0, 4.0]];
    var out := Convolve(g, GaussianWeights);
    TapsExpanded(g, GaussianWeights, 0, 0);
    TapsExpanded(g, GaussianWeights, 0, 1);
    TapsExpanded(g, GaussianWeights, 1, 0);
    TapsExpanded(g, GaussianWeights, 1, 1);
    assert out[0] == [1.123319, 1.240818];
    assert out[1] == [1.358317, 1.475816];
  }

  // ---------------------------------------------------------------- flattening

  lemma {:induction false} FlattenLength(g: Grid, rows: nat, cols: nat)
    requires IsShape(g, rows, cols)
    ensures |Flatten(g)| == rows * cols
  {
    if rows > 0 {
      FlattenLength(g[1..], rows - 1, cols);
      assert (rows - 1) * cols + cols == rows * cols;
    }
  }

  /** Sample (i, j) sits at offset i * cols + j of the flattened grid. */
  lemma {:induction false} FlattenAt(g: Grid, rows: nat, cols: nat, i: nat, j: nat)
    requires IsShape(g, rows, cols) && i < rows && j < cols
    ensures |Flatten(g)| == rows * cols
    ensures Flatten(g)[Flat(rows, cols, i, j)] == g[i][j]
  {
    FlattenLength(g, rows, cols);
    assert Flatten(g) == g[0] + Flatten(g[1..]);
    if i > 0 {
      FlattenAt(g[1..], rows - 1, cols, i - 1, j);
      var q := Flat(rows - 1, cols, i - 1, j);
      assert Flat(rows, cols, i, j) == q + cols;
      assert Flatten(g)[q + cols] == Flatten(g[1..])[q];
    } else {
      assert Flat(rows, cols, i, j) == j;
    }
  }

  /** Reshaping a flattened grid gives the grid back. */
  lemma ReshapeFlatten(g: Grid, rows: nat, cols: nat)
    requires IsShape(g, rows, cols)
    ensures |Flatten(g)| == rows * cols
    ensures Reshape(Flatten(g), rows, cols) == g
  {
    FlattenLength(g, rows, cols);
    var r := Reshape(Flatten(g), rows, cols);
    forall i | 0 <= i < rows
      ensures r[i] == g[i]
    {
      forall j | 0 <= j < cols
        ensures r[i][j] == g[i][j]
      {
        FlattenAt(g, rows, cols, i, j);
      }
    }
  }

  /** Flattening a reshaped buffer gives the buffer back. */
  lemma FlattenReshape(s: seq<real>, rows: nat, cols: nat)
    requires |s| == rows * cols
    ensures Flatten(Reshape(s, rows, cols)) == s
  {
    var r := Reshape(s, rows, cols);
    FlattenLength(r, rows, cols);
    forall p | 0 <= p < |s|
      ensures Flatten(r)[p] == s[p]
    {
      FlatDecode(rows, cols, p);
      FlattenAt(r, rows, cols, p / cols, p % cols);
    }
  }
}
