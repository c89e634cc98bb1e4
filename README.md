# 3x3 stencil filters as a dense matrix multiply

This project models the host-side array code of two small GPU programs.

- The video filter (`GPU/videofilter/gpu.cpp`) applies a 3x3 filter to a grey-scale frame in three steps:
  - it unrolls the R x C grid into an (R*C) x 9 matrix, one row per cell holding the cell's 3x3 neighbourhood with zero padding;
  - it multiplies that matrix by the 9 x 1 weight column;
  - it reshapes the resulting column back into an R x C grid.
  The Gaussian blur and the two Sobel/Scharr filters differ only in their weight vectors.
- The matrix-multiplication program (`GPU/matrix_mult/matrix_mult.cpp`) does four things:
  - it fills A (128 x 512) and B (512 x 256) from a random value source;
  - it computes a CPU reference product with an accumulating triple loop;
  - it computes the device product;
  - it cross-checks the two results element by element, in row-major order, against an absolute tolerance of 1.0e-5.

Elements are `real`s. Flat buffers are `array<real>` in row-major order. An image matrix is an `array2<real>`.

Every imperative routine is a method with loop invariants, proved against pure specification functions of module `Stencil` and module `DenseMatrix`:
- `Neighbour` and `Convolve` specify the zero-padded 3x3 filter;
- `Dot` and `ProductAt` specify the matrix product;
- `Flatten` and `Reshape` specify row-major layout.

Lemmas then prove these properties of those functions:
- the identity centre tap reproduces the input;
- Sobel vertical is the transpose of Sobel horizontal;
- unroll, multiply and reshape compose to the filter;
- reshape and flatten are mutual inverses;
- row-major offsets are a bijection.

Modules:
- `RowMajor`: offset arithmetic for cell (i, j) and for slot k of cell (i, j).
- `DenseMatrix`: the product specification, the shared accumulate loop, and the device multiply.
- `Stencil`: the pure filter mathematics and the weight vectors.
- `VideoFilter`: everything from `gpu.cpp`.
- `MatrixMult`: everything from `matrix_mult.cpp`.

The device multiply is an OpenCL kernel launch; its kernel source is not part of this model. `DeviceMultiply` models it as one simultaneous assignment: each of the M x N work items writes its own output element with the mathematical product.

## Model

| member | source | states |
|---|---|---|
| RowMajor.Flat | GPU/videofilter/gpu.cpp:24 | the row-major offset `i * cols + j` of a cell of a rows x cols buffer is below rows * cols, so every access of the loops is in bounds |
| RowMajor.UnrollIndex | GPU/videofilter/gpu.cpp:191 | the offset `curIdx * 9 + k` of slot k of a cell is below rows * cols * 9 |
| RowMajor.FlatDecode | GPU/videofilter/gpu.cpp:198-211 | every offset below rows * cols is the offset of cell (p / cols, p % cols), so a row-major walk reaches every offset |
| RowMajor.FlatEncodeDecode | GPU/videofilter/gpu.cpp:198-211 | decoding the offset of cell (i, j) gives (i, j) back |
| RowMajor.FlatInjective | GPU/matrix_mult/matrix_mult.cpp:70-76 | two distinct cells never share an offset, so each offset is written at most once |
| RowMajor.FlatBeforeRow | GPU/videofilter/gpu.cpp:177-195 | every cell of an earlier row sits below offset i * cols, so finished rows are never overwritten |
| RowMajor.UnrollDecode | GPU/videofilter/gpu.cpp:176-194 | every offset below rows * cols * 9 is slot p % 9 of cell ((p / 9) / cols, (p / 9) % cols) |
| RowMajor.UnrollEncodeDecode | GPU/videofilter/gpu.cpp:191 | decoding the offset of slot k of cell (i, j) gives (i, j, k) back |
| RowMajor.UnrollInjective | GPU/videofilter/gpu.cpp:176-194 | distinct (cell, slot) triples never share an offset, so the unroll writes each offset at most once |
| DenseMatrix.AccumulateProduct | GPU/videofilter/gpu.cpp:19-28 | the triple loop adds the product into X: each X cell becomes its old value plus the dot product of row i of A and column j of B; X beyond dim1 * dim2, A and B are unchanged |
| DenseMatrix.AccumulateRow | GPU/videofilter/gpu.cpp:22-26 | the middle loop adds row i of the product into row i of X and changes no other cell |
| DenseMatrix.AccumulateCell | GPU/videofilter/gpu.cpp:23-25 | the innermost loop adds one dot product into one cell and changes no other cell |
| DenseMatrix.DeviceMultiply | GPU/videofilter/gpu.cpp:213-298 | the device launch sets every output cell to the product, from scratch; the output beyond M * N and both inputs are unchanged |
| VideoFilter.CpuMatrixMultiply | GPU/videofilter/gpu.cpp:19-28 | with argument order (X, A, B, dim1, dim2, dimShared): X becomes old X plus A * B in every cell; nothing else changes |
| VideoFilter.MatrixMultiply | GPU/videofilter/gpu.cpp:213-298 | with argument order (output, a, b, M, N, K): output becomes a (M x K) * b (K x N) |
| VideoFilter.MatToConv | GPU/videofilter/gpu.cpp:169-196 | slot k of cell (i, j) of the unrolled buffer is the sample at (i + KERNEL_MAP_X[k], j + KERNEL_MAP_Y[k]), or exactly 0 off the grid; nothing at or beyond rows * cols * 9 is written |
| VideoFilter.UnrollCell | GPU/videofilter/gpu.cpp:179-192 | the 9 slots of row curIdx are the cell's neighbourhood, with the bounds test of the source; no other offset changes |
| VideoFilter.UnrollCovers | GPU/videofilter/gpu.cpp:176-194 | every offset below rows * cols * 9 of the unrolled buffer holds the neighbourhood slot it decodes to, so the whole range is written |
| VideoFilter.ConvToMat | GPU/videofilter/gpu.cpp:198-211 | result cell (i, j) is column element i * cols + j, that is, result is the reshape of the column |
| VideoFilter.UnrolledProduct | GPU/videofilter/gpu.cpp:135-136 | a row of the unrolled matrix times the weight column is the weighted sum of that cell's neighbourhood |
| VideoFilter.UnrollMultiplyReshape | GPU/videofilter/gpu.cpp:130-142 | unroll, then multiply by the weights, then reshape is the zero-padded 3x3 filter of the input grid |
| VideoFilter.CopyTo | GPU/videofilter/gpu.cpp:156 | the target grid becomes equal to the source grid |
| VideoFilter.Filter | GPU/videofilter/gpu.cpp:107-164 | the result grid is the zero-padded 3x3 filter, with the given weights, of the input grid as it was on entry; this holds when input and result are the same grid |
| VideoFilter.GaussianBlur | GPU/videofilter/gpu.cpp:86-91 | the result, before the 8-bit conversion, is the input filtered with the Gaussian weights of the source |
| VideoFilter.SobelHorizontal | GPU/videofilter/gpu.cpp:94-98 | the result, before the 8-bit conversion, is the input filtered with the horizontal Sobel/Scharr weights |
| VideoFilter.SobelVertical | GPU/videofilter/gpu.cpp:101-105 | the result, before the 8-bit conversion, is the input filtered with the vertical Sobel/Scharr weights |
| Stencil.OffsetOrder | GPU/videofilter/gpu.cpp:173-174 | the offset table lists the 3x3 window in row-major order, TL, T, TR, L, C, R, BL, B, BR: slot k is window row k / 3 and window column k % 3 |
| Stencil.CentreTap | GPU/videofilter/gpu.cpp:173-174 | slot 4 has offset (0, 0) and holds the cell's own sample |
| Stencil.SingleCellNeighbourhood | GPU/videofilter/gpu.cpp:173-186 | a 1 x 1 grid unrolls to eight zeros and its sample in the centre slot |
| Stencil.InteriorUnpadded | GPU/videofilter/gpu.cpp:180-186 | for an interior cell no slot is padded; each is the neighbouring sample |
| Stencil.PaddingIsZero | GPU/videofilter/gpu.cpp:182-186 | an off-grid slot is exactly 0 (no clamping or wrap-around); an on-grid slot is the sample there |
| Stencil.ConvolveShape | GPU/videofilter/gpu.cpp:114 | the filtered grid has the shape of the input |
| Stencil.TapsExpanded | GPU/videofilter/gpu.cpp:135-136 | the filter at a cell is the nine-term weighted sum of its neighbourhood |
| Stencil.IdentityFilter | GPU/videofilter/gpu.cpp:130-142 | the weights [0,0,0,0,1,0,0,0,0] reproduce every grid exactly |
| Stencil.SobelTranspose | GPU/videofilter/gpu.cpp:96-103 | the vertical weights are the 3x3 transpose of the horizontal ones: v[3a+b] == h[3b+a] |
| Stencil.ConstantInterior | GPU/videofilter/gpu.cpp:88-103 | on a constant grid both Sobel filters give 0 at interior cells; the blur scales the constant by 1.000002, the sum of its weights |
| Stencil.BlurFixture | GPU/videofilter/gpu.cpp:88-89 | the blur of [[1, 2], [3, 4]] is [[1.123319, 1.240818], [1.358317, 1.475816]] |
| Stencil.FlattenLength | GPU/videofilter/gpu.cpp:109 | a rows x cols grid flattens to rows * cols samples |
| Stencil.FlattenAt | GPU/videofilter/gpu.cpp:201-208 | sample (i, j) sits at offset i * cols + j of the flattened grid |
| Stencil.ReshapeFlatten | GPU/videofilter/gpu.cpp:198-211 | reshaping a flattened grid gives the grid back |
| Stencil.FlattenReshape | GPU/videofilter/gpu.cpp:198-211 | flattening a reshaped buffer gives the buffer back |
| MatrixMult.MatrixPopulateRand | GPU/matrix_mult/matrix_mult.cpp:70-76 | the t-th drawn value lands at offset t, so the first rows * cols offsets hold the draws in order, and nothing beyond them is written |
| MatrixMult.MatrixMultiply | GPU/matrix_mult/matrix_mult.cpp:90-99 | with argument order (A, B, X, dim1, dimShared, dim2): X becomes old X plus A * B in every cell; X beyond dim1 * dim2, A and B are unchanged |
| MatrixMult.VerifyResults | GPU/matrix_mult/matrix_mult.cpp:273-286 | the scan passes if and only if every cell pair differs by at most the tolerance; on failure it reports an in-range cell that differs by more, and every earlier cell in row-major order is within the tolerance |
| MatrixMult.ComputeProducts | GPU/matrix_mult/matrix_mult.cpp:125-161 | with the call-site order (M, K, N), the device output is the M x N product of the drawn A (the first M * K draws) and B (the next K * N draws), the CPU reference is that product plus the reference buffer's initial contents, so the two differ cell by cell by exactly those contents |
| MatrixMult.RunAsWritten | GPU/matrix_mult/matrix_mult.cpp:134-286 | as written, the cross-check passes exactly when every leftover value of the unzeroed reference buffer is within the tolerance; on failure it reports the first leftover value, in row-major order, that is not |
| MatrixMult.LeftoverFails | GPU/matrix_mult/matrix_mult.cpp:134-286 | as written, a reference buffer whose first cell holds a leftover value beyond the tolerance (1.0, say) makes the cross-check report a failure at cell (0, 0), although both products agree |
| MatrixMult.FirstCellReported | GPU/matrix_mult/matrix_mult.cpp:273-286 | a verdict that scans in row-major order and stops at the first out-of-tolerance cell reports cell (0, 0) whenever that cell is out of tolerance |
| MatrixMult.RunZeroed | GPU/matrix_mult/matrix_mult.cpp:134-286 | with a zeroed reference buffer, the cross-check always passes |
| MatrixMult.Product2x2 | GPU/matrix_mult/matrix_mult.cpp:90-99 | [[1, 2], [3, 4]] * [[5, 6], [7, 8]] is [[19, 22], [43, 50]] |

## Left out

- OpenCL orchestration is not modelled: platform, context, queue, program build, buffers, events and kernel arguments. This covers `gpuInitialize` and the body of the device `matrixMultiply` in `gpu.cpp`, and the OpenCL half of `main` in `matrix_mult.cpp`. These are foreign calls. The device product is modelled by the mathematical product.
- The kernel source `matrix_mult.cl` is not part of this model.
- I/O and diagnostics are not modelled: `read_file`, `print_clbuild_errors`, `checkError`, the printf callbacks, `matrixPrint`, `gpuFloatMatPrint`, `gpuIntMatPrint`, and the failure message of the cross-check. The verdict `FailedAt(i, j)` stands for the message and the exit code 1.
- Timing is not modelled: `perfStart` and `perfDone`, and GPU/videofilter/perf.cpp.
- GPU/videofilter/videofilter.cpp (video capture, windows, frame loop) is not part of this model.
- Machine integers are not modelled. The source uses 32-bit `unsigned` dimensions and indices in both multiplies, the fill and the cross-check, and `int` sizes and counters in `filter` and `matToConv` (`numElements`, `convMatrixSize`, `curIdx * kernelSize + k`). These wrap or overflow in 32 bits; the model's indices are unbounded `nat`s. In the multiply program (M = 128, K = 512, N = 256) the largest size is 131072, far below 2^31. In the filter the frame size comes from the camera; a 1280 x 720 frame gives an unrolled size of 8294400, also far below 2^31. A frame with more than about 238 million pixels would overflow `convMatrixSize`, and that case is not modelled.
- `rand_float` is a parameter: the sequence `draws` holds the values that successive calls return.
- Floating point is not modelled. Elements are exact reals, so rounding in the sums, `float` storage and `fabsf` become exact arithmetic and `Abs`. Because of this the device and CPU products agree exactly. On hardware the two products may differ by rounding; whether the difference stays within 1.0e-5 is not modelled.
- VideoFilter.Filter: the OpenCV conversions are not modelled. These are `convertTo(CV_32FC1)` of the input and `convertTo(CV_8U)` of the result (a saturating rounding cast to 0..255). The contract states the result before the 8-bit conversion. The grid of constant 1/255 that `temp_result` starts as is modelled; `ConvToMat` overwrites every cell of it.
- DenseMatrix.AccumulateProduct, DenseMatrix.AccumulateRow, DenseMatrix.AccumulateCell, DenseMatrix.DeviceMultiply, VideoFilter.CpuMatrixMultiply, VideoFilter.MatrixMultiply, MatrixMult.MatrixMultiply: aliased calls are excluded. Each requires the output buffer to differ from both inputs. The C functions accept aliased buffers, but no call in the program passes one, and what an in-place accumulation would compute is not modelled.
- VideoFilter.Filter: the result must already have the input's shape. The library `copyTo` would reallocate a result of another shape, and that reallocation is not modelled.
- VideoFilter.Filter: `numKernels` is fixed to 1, as at every call site. The output buffer is sized for one column.
- VideoFilter.GaussianBlur, VideoFilter.SobelHorizontal, VideoFilter.SobelVertical: like Filter, their contracts state the result before the saturating 8-bit conversion. The program stores that conversion instead: a blurred value is rounded to an integer, and for the Sobel/Scharr weights every negative response becomes 0 and every response above 255 becomes 255.
- VideoFilter.Filter: memory is not modelled. `convMatrix` is a variable-length array on the stack, 36 bytes per pixel, which is about 33 MB for a 1280 x 720 frame. That is far above a usual 8 MiB stack limit, so the program may crash before `matToConv` runs; the model always returns. The `output` buffer from `malloc` is never freed, so every call leaks one buffer; the model has no allocator.
- The Gaussian weights sum to 1.000002, not to 1. The model uses the weights as written; Stencil.ConstantInterior states the resulting scale factor.

## Findings

| source | as written | input that shows it | evidently intended | confidence | as-written member | corrected member |
|---|---|---|---|---|---|---|
| GPU/matrix_mult/matrix_mult.cpp:134 | `reference` comes from `malloc` without being zeroed. The accumulating multiply at line 161 then adds A * B onto whatever the buffer held, so the cross-check compares old contents + A * B with A * B. | a reference buffer whose first cell holds 1.0 | the reference buffer is zeroed before the accumulating multiply (for example with `calloc`), so the cross-check passes whenever the two products agree | not executed | MatrixMult.LeftoverFails | MatrixMult.RunZeroed |
