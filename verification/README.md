# Approximate neural-network kernels in Dafny

This project models the two approximate kernels of `rural` (Rust) and their
`RTNeural` (C++) counterparts, and proves what they compute.

1. **Dense algebra.**
   - A row-major `Matrix` with exact `matmul` and `add`.
   - The "randomized" `rand_matmul`. It weights the rank-one terms
     `a[:, t] ⊗ b[t, :]` by the product of column and row norms, keeps the
     `c` heaviest, and rescales each kept term by `1 / (c · prob[t])`.
   - The `Dense` and `DenseT` layers. They store weights in two layouts, and
     the randomized `Dense` pass uses the same top-`C` scheme on one input
     row.
2. **Convolution.**
   - The exact sliding-window `conv1d` built on the zip-truncating
     `inner_product`.
   - The perforated `conv1d`. It computes only the outputs a pseudo-random
     mask marks, and copies every other output from the nearest marked one
     (left probed before right).
   - The temporal `Conv1D` layer, with a circular input buffer, dilated taps
     and channel groups, in exact, grouped and perforated form.

## Modules

- `wrappers.dfy` (`Wrappers`): `Option` and `Result`.
- `math.dfy` (`Math`): `inner_product`, the reference sum `Dot`, `Sum`,
  `Norm` with an abstract square root, and `Ceil`.
- `matrices.dfy` (`Matrices`):
  - `Matrix`, with the row-major index built without multiplication
    (`Flat`);
  - constructors, `Get`, `Set`, `Row`, `Column`, `Equal` and `Add`;
  - the `k, i, j` `MatMul` method.
- `selection.dfy` (`Selection`): a stable insertion sort of index sequences.
  It gives `indices` of `rand_matmul` (ascending, keep the last `c`) and the
  `iota` + `stable_sort` order of the C++ `Dense`.
- `randmatmul.dfy` (`RandMatMul`): norms, weights, the kept count
  `c`, the rescaled sum, and the `RandMatMul` method.
- `conv.dfy` (`Conv`): the exact `conv1d` and its `baseline` test.
- `perforation.dfy` (`Perforation`):
  - the nearest-neighbour search;
  - the mask from abstract draws;
  - the neighbour list;
  - the copy pass;
  - the perforated `conv1d` and its regression test.
- `dense.dfy` (`DenseLayers`): `Dense` and `DenseT`.
- `conv1d_layer.dfy` (`Conv1dLayers`):
  - state pointers and pointer advance;
  - the exact and grouped `forward`;
  - the history theorem (the layer is a dilated causal convolution of its
    input stream);
  - the perforated `forward`.

## Value and environment model

- Element values are `real`. This idealises `f32` and `float`: no rounding,
  no overflow, no NaN.
- A division by zero, which produces infinities or NaNs in the source, is
  reported as `Failure(NonFinite)`.
- `sqrt` is a parameter `real -> real`. Most properties assume only
  non-negativity on non-negative arguments (`NonNegativeRoot`). The zero-norm
  properties assume `ExactRoot` instead: the root squares back to its
  argument, as the f32 `sqrt` does when rounding is ignored.
- The uniform draws of `pseudo_mask` are a parameter `u: nat -> real` with
  `0 <= u(i) < 1` (`UnitDraws`). This covers Xoshiro seeded with 0 in Rust,
  and `mt19937` seeded from `random_device` in C++.
- Aborts are `Failure(DegenerateMask)`: `unwrap()` and `.value()` on a
  missing neighbour, which terminates a `noexcept` C++ `forward`.
- `ceil` is exact on reals. `c = min(ceil(n · factor), n)` and
  `C = ceil(0.9 · n)` are computed, not assumed.

## Model

| member | source | states |
|---|---|---|
| Math.InnerProduct | rural/src/math.rs:1-3 | the fold equals the seed plus the sum of products over the common prefix of the two arguments |
| Math.InnerProductOfEmpty | rural/src/math.rs:2 | an empty argument returns the seed |
| Math.InnerProductTruncates | rural/src/math.rs:2 | elements of the longer argument past the shorter one's length do not matter |
| Math.InnerProductSeed | rural/src/math.rs:2 | the seed passes through additively: `ip(x, y, a) == a + ip(x, y, 0)` |
| Math.InnerProductStep | rural/src/math.rs:2 | for equal lengths, one more pair adds its product |
| Math.InnerProductSymmetric | rural/src/math.rs:2 | over the reals the result does not depend on argument order |
| Math.DotSnoc | rural/src/math.rs:2 | the reference sum grows by `u * v` when `u`, `v` are appended |
| Math.DotSymmetric | rural/src/math.rs:2 | the reference sum is symmetric |
| Math.DotZero | RTNeural-x/RTNeural/dense/dense.h:233-243 | a sum against all-zero weights is zero (used for a fresh `DenseT`) |
| Math.DotNonNegative | rural/src/matrix.rs:186 | norms multiply to a non-negative normaliser |
| Math.SumOfQuotients | rural/src/matrix.rs:188-193 | dividing every product by one total divides their sum by it |
| Math.NormNonNegative | rural/src/matrix.rs:175-181 | a norm with a non-negative root is non-negative |
| Math.DotSelfZero | rural/src/matrix.rs:175-181 | a sum of squares is zero iff every term is zero |
| Math.RootZero | rural/src/matrix.rs:176 | an exact square root is zero only at zero |
| Math.NormZero | rural/src/matrix.rs:175-181 | with an exact square root a norm is non-negative, and zero iff the vector is all zeros |
| Math.ProductZero | rural/src/matrix.rs:190 | a product is zero iff one factor is |
| Math.Ceil | rural/src/matrix.rs:196 | `ceil` is the least integer not below its argument |
| Math.CeilMonotone | rural/src/matrix.rs:196 | `ceil` is monotone |
| Matrices.FlatIsRowMajor | rural/src/matrix.rs:52-66 | the model's cell position is the source's `i * n + j` |
| Matrices.GetIsRowMajor | rural/src/matrix.rs:52-58 | `a[(i, j)]` reads `data[i * n + j]`, which lies inside the buffer |
| Matrices.FlatInjective | rural/src/matrix.rs:52-66 | distinct cells of a row length `n` use distinct positions |
| Matrices.FlatCovers | rural/src/matrix.rs:52-66 | every position of an `m`-by-`n` buffer belongs to exactly one cell, in row `RowOf(n, q)` |
| Matrices.RowOf | rural/src/matrix.rs:68-81 | position `q` lies in the length-`n` slice that starts row `RowOf(n, q)` |
| Matrices.Size | rural/src/matrix.rs:14-26 | a buffer of `m` rows of `n` values holds `m * n` values |
| Matrices.FlattenCells | rural/src/matrix.rs:14-19 | flattening `M` rows of `N` gives `M * N` values with cell `(i, j)` at `i * N + j` |
| Matrices.New | rural/src/matrix.rs:14-19 | `new` is valid, has shape `(M, N)` and cell `(i, j)` is `lit[i][j]` |
| Matrices.Fill | rural/src/matrix.rs:21-26 | every cell of an `m`-by-`n` `fill` holds the value |
| Matrices.Ones | rural/src/matrix.rs:28-30 | every cell of `ones` is 1 |
| Matrices.Zeroes | rural/src/matrix.rs:32-34 | every cell of `zeroes` is 0 |
| Matrices.Set | rural/src/matrix.rs:60-66 | writing through `IndexMut` changes that cell and no other, shape kept |
| Matrices.Row | rural/src/matrix.rs:68-81 | `a[i]` is the length-`n` slice starting at `i * n`, holding row `i` |
| Matrices.CellwiseEqual | rural/src/matrix.rs:98-111 | valid matrices of one shape agreeing on every cell are equal |
| Matrices.Equal | rural/src/matrix.rs:98-101 | `==` holds iff shapes and data agree, iff it agrees cell by cell (the commented-out loop), iff the values are equal |
| Matrices.Add | rural/src/matrix.rs:136-150 | shapes must agree, the shape is kept and every cell is the sum |
| Matrices.AddZeroes | rural/src/matrix.rs:136-150 | adding `zeroes` of the same shape is the identity |
| Math.PrefixDotIsDot | rural/src/matrix.rs:125-131 | the running sum after `k` outer passes is the reference sum over the first `k` pairs |
| Matrices.AddOuter | rural/src/matrix.rs:126-130 | one outer pass `k` adds `a[i][k] * b[k][j]` to every cell, shape kept |
| Matrices.MatMulStep | rural/src/matrix.rs:125-131 | if every cell held the partial sum over `t < k` before pass `k`, it holds the sum over `t <= k` after it |
| Matrices.MatMulDone | rural/src/matrix.rs:125-133 | after all `n` passes every cell is the row-column reference sum |
| Matrices.MatMul | rural/src/matrix.rs:116-134 | with `a.cols == b.rows` the result has shape `(m, p)` and cell `(i, j)` is `Σ_k a[i][k] * b[k][j]`; the `k, i, j` loop invariants hold the partial sums |
| Selection.PrecedesIsStrictOrder | rural/src/matrix.rs:157-163 | the comparison the model sorts by (weight, then index on equal weights) is irreflexive, transitive and total on distinct positions |
| Selection.Insert | rural/src/matrix.rs:157-163 | insertion keeps the order strict and the contents as a multiset |
| Selection.Sort | rural/src/matrix.rs:155-163 | the sort returns a reordering (same multiset) in strict weight order |
| Selection.OrderedIsDistinct | rural/src/matrix.rs:155-163 | an order under the strict relation repeats no position |
| Selection.StableOrder | RTNeural-x/RTNeural/dense/dense.h:104-107 | `iota` + `stable_sort` gives a permutation of `0..n` with non-increasing weight, ties in ascending index order |
| Selection.TopSuffix | rural/src/matrix.rs:165 | the last `c` of an ascending order are distinct, ascending, and outweigh everything left out |
| Selection.Indices | rural/src/matrix.rs:153-166 | `indices(x, c)` returns `c` distinct positions below `n`, ascending in weight, none outweighed by a position left out; `c == n` gives a permutation; `c == 0` the empty selection |
| RandMatMul.NormsNonNegative | rural/src/matrix.rs:175-181 | with a non-negative square root every column norm `a_col_norm[k]` and row norm `b_row_norm[k]` is non-negative |
| RandMatMul.ZeroColumnNorm | rural/src/matrix.rs:175-177 | with an exact square root, `a_col_norm[t]` is zero iff column `t` of `a` is all zeros |
| RandMatMul.ZeroRowNorm | rural/src/matrix.rs:179-181 | with an exact square root, `b_row_norm[t]` is zero iff row `t` of `b` is all zeros |
| RandMatMul.Weights | rural/src/matrix.rs:188-191 | each weight times the normaliser is the product of the two norms |
| RandMatMul.SumNormIsDot | rural/src/matrix.rs:186 | `sum_norm` reads both norm vectors whole |
| RandMatMul.SumNormNonNegative | rural/src/matrix.rs:186 | with a non-negative square root `sum_norm` is non-negative |
| RandMatMul.ProbIsNormalised | rural/src/matrix.rs:188-191 | `prob[k] * sum_norm == a_col_norm[k] * b_row_norm[k]` for every `k` |
| RandMatMul.ZeroQuotient | rural/src/matrix.rs:188-191 | with `sum_norm != 0`, `prob[t]` is zero iff one of its two norms is |
| RandMatMul.ZeroWeight | rural/src/matrix.rs:175-191 | with an exact square root, `prob[t] == 0` iff column `t` of `a` or row `t` of `b` is all zeros; those are the kept positions that make the result non-finite |
| RandMatMul.QuotientsSumToOne | rural/src/matrix.rs:188-193 | products divided by their own non-zero sum add up to 1 |
| RandMatMul.QuotientsNonNegative | rural/src/matrix.rs:188-191 | products of non-negative norms divided by a positive total are non-negative |
| RandMatMul.WeightsSumToOne | rural/src/matrix.rs:193 | normalised by their own sum, the weights sum to 1 |
| RandMatMul.WeightsNonNegative | rural/src/matrix.rs:188-191 | weights of non-negative norms are non-negative |
| RandMatMul.ProbIsDistribution | rural/src/matrix.rs:186-193 | with `sum_norm != 0` the weights are non-negative and sum to 1, as the TODO intends |
| RandMatMul.QuotientsAreDistribution | rural/src/matrix.rs:186-193 | products of non-negative norms divided by their reference sum are non-negative and sum to 1 |
| RandMatMul.SketchRank | rural/src/matrix.rs:195-196 | `c <= n`; `factor == 0` keeps none, `factor == 1` keeps all, any positive factor keeps at least one of a non-empty inner dimension |
| RandMatMul.SketchRankMonotone | rural/src/matrix.rs:196 | a larger factor never keeps fewer terms |
| RandMatMul.Rescale | rural/src/matrix.rs:203-204 | `pt * (c * prob[t]) == 1` when both factors are non-zero |
| RandMatMul.WeightedSumStep | rural/src/matrix.rs:202-211 | one more kept position adds its rescaled rank-one term |
| RandMatMul.WeightedSumOfZero | rural/src/matrix.rs:202-211 | a zero row `i` of `a` or a zero column `j` of `b` makes every partial rescaled sum at `(i, j)` zero |
| RandMatMul.ExactVanishes | rural/src/matrix.rs:125-131 | the exact product cell `(i, j)` is zero when row `i` of `a` or column `j` of `b` is all zeros |
| RandMatMul.EstimateVanishes | rural/src/matrix.rs:200-213 | cell `(i, j)` of the returned estimate is zero, as the exact product's is, when row `i` of `a` or column `j` of `b` is all zeros |
| RandMatMul.AddTerm | rural/src/matrix.rs:206-210 | the `i, j` loops add `pt * a[i][t] * b[t][j]` to every cell, shape kept |
| RandMatMul.AccumulateStep | rural/src/matrix.rs:202-211 | if every cell held the rescaled sum over the first `s` kept positions, adding the next term gives the sum over `s + 1` |
| RandMatMul.Accumulate | rural/src/matrix.rs:200-211 | after the loop over kept positions every cell is the rescaled sum over them |
| RandMatMul.RandMatMul | rural/src/matrix.rs:171-214 | the result has shape `(m, p)` and cell `(i, j)` is `Σ_{t kept} a[i][t] * b[t][j] / (c * prob[t])`; non-finite exactly when a non-empty result keeps a term of zero weight or `sum_norm == 0` |
| RandMatMul.FullRankNotExact | rural/src/matrix.rs:202-204 | keeping all `n` terms still rescales them: for `[[1, 1]]` times `[[3, 4], [1, 0]]` the estimate is 24/5 where the product is 4 |
| Conv.Conv1d | rural/src/conv.rs:1-7 | needs `|kernel| <= |input|`, has `|input| - |kernel| + 1` outputs, output `i` is the kernel's dot product with `input[i .. i + |kernel|]` |
| Conv.BoxOverRamp | rural/src/conv.rs:96-97 | a three-tap box over `1, 2, …` sums three consecutive values |
| Conv.Baseline | rural/src/conv.rs:96-107 | `conv1d(1..=20, [1, 1, 1]) == [6, 9, …, 57]` |
| Perforation.NearestUnique | rural/src/conv.rs:21-35 | the nearest position with left-first tie-break is unique |
| Perforation.FindNearest | rural/src/conv.rs:13-38 | on a non-empty array, `Some(j)` is a nearest other position holding the value (left wins a tie); `None` iff no other position holds it |
| Perforation.Draw | rural/src/conv.rs:48-53 | draw `i` is `ceil(1.5 * (i + u_i))`, never below `i` |
| Perforation.Stop | rural/src/conv.rs:54 | generation stops at the first draw `>= length`, after every earlier draw fell inside |
| Perforation.MaskFrom | rural/src/conv.rs:47-57 | the loop marks exactly the draws before the stop |
| Perforation.PseudoMask | rural/src/conv.rs:47-57 | the mask has length `length` and position `a` is marked iff some draw before the stop equals `a` |
| Perforation.Unmarked | rural/src/conv.rs:59-60 | exactly the unmarked positions below `n`, ascending |
| Perforation.NeighborsStep | rural/src/conv.rs:59-65 | visiting position `i` keeps the list equal to the unmarked positions below `i + 1` with their nearest marked ones |
| Perforation.Neighbors | rural/src/conv.rs:59-65 | every unmarked position in ascending order, paired with its nearest marked one; fails iff the mask is non-empty and marks nothing |
| Perforation.CopyNeighborsKeeps | rural/src/conv.rs:87-89 | for any pairs, a position that no pair writes keeps its value |
| Perforation.CopyNeighborsCells | rural/src/conv.rs:87-89 | with no copy writing a source or writing twice, each target ends with its source's initial value and nothing else changes |
| Perforation.PerforatedOutput | rural/src/conv.rs:77-89 | marked outputs are exact; an unmarked output holds the exact value at its nearest marked position |
| Perforation.PerforatedConv1d | rural/src/conv.rs:70-92 | `|input| - |kernel| + 1` outputs, marked ones equal `conv1d`, unmarked ones equal `conv1d` at their nearest marked position; fails iff nothing is marked |
| Perforation.Mask18Nearest | rural/src/conv.rs:113-121 | in the regression mask, the nearest marked positions of 0, 2, 6, 9, 10, 15 are 1, 1, 5, 8, 11, 14 |
| Perforation.PerforatedMask18 | rural/src/conv.rs:113-121 | with the regression mask the output is `[e1, e1, e1, e3, e4, e5, e5, e7, e8, e8, e11, …, e17]` |
| Perforation.PerforatedBaseline | rural/src/conv.rs:113-121 | with that mask, `perforation::conv1d(1..=20, [1, 1, 1]) == [9, 9, 9, 15, …, 57]` |
| DenseLayers.NewDense | RTNeural-x/RTNeural/dense/dense.h:29-40 | a new `Dense` has the stated sizes and zero weights and biases |
| DenseLayers.TransposeTwice | RTNeural-x/RTNeural/dense/dense.h:133-139 | transposing the input-major copy back gives the `newWeights` literal again, with its shape |
| DenseLayers.SetWeights | RTNeural-x/RTNeural/dense/dense.h:127-153 | every cell `weights[k * p + j]` receives `newWeights[j][k]`, column `j` is `newWeights[j]`, biases kept, `w_norm[k]` is the norm of input `k`'s weights |
| DenseLayers.SetBias | RTNeural-x/RTNeural/dense/dense.h:190-196 | the biases become `b[0..p]`, weights kept |
| DenseLayers.Forward | RTNeural-x/RTNeural/dense/dense.h:55-64 | `out[j] == biases[j] + Σ_k input[k] * weights[k * p + j]` for every `j < p` |
| DenseLayers.DenseRank | RTNeural-x/RTNeural/dense/dense.h:101-102 | `C = ceil(0.9 n)` satisfies `C <= n` and `1 <= C` for `n >= 1` |
| DenseLayers.InputNorms | RTNeural-x/RTNeural/dense/dense.h:88-92 | `i_norm[k] = sqrt(x * x)`, the norm of column `k` of the one-row input |
| DenseLayers.InputNormsNonNegative | RTNeural-x/RTNeural/dense/dense.h:88-92 | with a non-negative square root every `i_norm[k]` is non-negative |
| DenseLayers.DenseSumNormIsDot | RTNeural-x/RTNeural/dense/dense.h:94 | `sum_norm` is the reference sum of `i_norm[k] * w_norm[k]` over all `n` inputs |
| DenseLayers.DenseProbIsNormalised | RTNeural-x/RTNeural/dense/dense.h:96-99 | `prob[k] * sum_norm == i_norm[k] * w_norm[k]` for every input `k` |
| DenseLayers.DenseProbIsDistribution | RTNeural-x/RTNeural/dense/dense.h:88-99 | with a non-negative root, non-negative `w_norm` and `sum_norm != 0`, `prob` is non-negative and sums to 1 |
| DenseLayers.SingleNorm | RTNeural-x/RTNeural/dense/dense.h:91 | the norm of one value is the root of its square |
| DenseLayers.DenseOrder | RTNeural-x/RTNeural/dense/dense.h:104-107 | the order has `n` positions, all below `n` |
| DenseLayers.AsRow | RTNeural-x/RTNeural/dense/dense.h:66-68 | the input is the single row of a `1`-by-`n` matrix |
| DenseLayers.KeptTerms | RTNeural-x/RTNeural/dense/dense.h:113-118 | the inner loop sums the rescaled terms of the first `C` ordered positions |
| DenseLayers.DenseEstimateVanishes | RTNeural-x/RTNeural/dense/dense.h:109-119 | when the weights into output `j` are all zero or the input is silent, the estimate and the exact sum are both zero |
| DenseLayers.KeptOutputs | RTNeural-x/RTNeural/dense/dense.h:109-119 | for given weights and order, output `j` is `bias[j]` plus the rescaled terms of the first `C` ordered inputs |
| DenseLayers.Estimates | RTNeural-x/RTNeural/dense/dense.h:101-119 | when at least one input is kept, output `j` is `bias[j]` plus the estimate built from `prob` and the stable order |
| DenseLayers.ForwardRand | RTNeural-x/RTNeural/dense/dense.h:65-120 | `n == 1` gives the exact formula; otherwise `out[j] == bias[j] + Σ_{c<C} input[t] * weights[t * p + j] / (C * prob[t])`, `t = idxs[c]`; non-finite exactly when a non-empty output keeps a zero weight or `sum_norm == 0` |
| DenseLayers.NewDenseT | RTNeural-x/RTNeural/dense/dense.h:233-243 | the `DenseT` constructor zeroes weights, biases and outputs |
| DenseLayers.SetWeightsT | RTNeural-x/RTNeural/dense/dense.h:267-277 | `weights[i * n + k] = newWeights[i][k]`: row `i` is `newWeights[i]`, biases kept |
| DenseLayers.ForwardT | RTNeural-x/RTNeural/dense/dense.h:255-259 | `outs[i] == Σ_k ins[k] * weights[i * n + k] + bias[i]`, weights and biases kept |
| DenseLayers.FreshDenseTIsZero | RTNeural-x/RTNeural/dense/dense.h:233-259 | `forward` on a freshly constructed `DenseT` yields zeros |
| DenseLayers.LayoutsAgree | RTNeural-x/RTNeural/dense/dense.h:55-64 | after `setWeights(w)` the exact `Dense` pass and `DenseT::forward` both compute `bias[j] + Σ_k w[j][k] * input[k]` |
| Conv1dLayers.StateSize | RTNeural-x/RTNeural/conv1d/conv1d.h:291 | `state_size = (kernel_size - 1) * dilation + 1` is at least 1 |
| Conv1dLayers.LagBound | RTNeural-x/RTNeural/conv1d/conv1d.h:261-265 | every tap's look-back `k * dilation` is below `state_size` |
| Conv1dLayers.ModSmall | RTNeural-x/RTNeural/conv1d/conv1d.h:264 | the remainder of a value below `2 n` is the value or the value minus `n` |
| Conv1dLayers.Back | RTNeural-x/RTNeural/conv1d/conv1d.h:264 | `(ptr + ss - lag) % ss` is the slot `lag` behind `ptr`, cyclically |
| Conv1dLayers.BackThenForward | RTNeural-x/RTNeural/conv1d/conv1d.h:264 | going `lag` back then `lag` forward returns to `ptr` |
| Conv1dLayers.StatePointers | RTNeural-x/RTNeural/conv1d/conv1d.h:261-265 | `state_ptrs[k]` is in `[0, state_size)`, `state_ptrs[0] == state_ptr`, `state_ptrs[k] + k * dilation ≡ state_ptr (mod state_size)` |
| Conv1dLayers.PointersDistinct | RTNeural-x/RTNeural/conv1d/conv1d.h:425-429 | with a non-zero dilation the taps read different slots |
| Conv1dLayers.Advance | RTNeural-x/RTNeural/conv1d/conv1d.h:217 | the pointer stays in `[0, state_size)` and is `(state_ptr + 1) % state_size` |
| Conv1dLayers.AdvanceTimesLap | RTNeural-x/RTNeural/conv1d/conv1d.h:339 | within a lap, `m` advances move the pointer `m` slots forward cyclically |
| Conv1dLayers.AdvanceCycles | RTNeural-x/RTNeural/conv1d/conv1d.h:374 | after `state_size` advances the pointer is back, and within the lap it meets no slot twice, so it visits every slot |
| Conv1dLayers.GroupBound | RTNeural-x/RTNeural/conv1d/conv1d.h:289 | when `groups` divides both sizes, `(i / cpg) * fpg + fpg <= in_size` for every output `i` |
| Conv1dLayers.GroupOffset | RTNeural-x/RTNeural/conv1d/conv1d.h:357-364 | the channel slice `ii .. ii + fpg` of output `i` lies inside the input column; with one group `ii == 0` |
| Conv1dLayers.Columns | RTNeural-x/RTNeural/conv1d/conv1d.h:320-325 | `state_cols[k]` is `state[state_ptrs[k]]`, one column of `in_size` per tap |
| Conv1dLayers.Write | RTNeural-x/RTNeural/conv1d/conv1d.h:129 | the input lands in slot `state_ptr`; every other slot and field is unchanged |
| Conv1dLayers.InnerProductOfTap | RTNeural-x/RTNeural/conv1d/conv1d.h:184-188 | `std::inner_product` over a kernel row and an equally long slice adds their dot product to the accumulator |
| Conv1dLayers.Output | RTNeural-x/RTNeural/conv1d/conv1d.h:191-214 | output `i` is `bias[i] + Σ_k Σ_f weights[i][k][f] * state_cols[k][ii + f]`, reading the whole column with one group |
| Conv1dLayers.TapsOfSilence | RTNeural-x/RTNeural/conv1d/conv1d.h:184-188 | silent columns contribute nothing through any number of taps |
| Conv1dLayers.ExactOfSilence | RTNeural-x/RTNeural/conv1d/conv1d.h:170-214 | over all-zero columns the exact output is exactly the bias |
| Conv1dLayers.Forward | RTNeural-x/RTNeural/conv1d/conv1d.h:170-217 | `forward` writes the input, returns the exact or grouped output for the selected columns and advances the pointer; nothing else changes |
| Conv1dLayers.OneGroupReadsWholeColumns | RTNeural-x/RTNeural/conv1d/conv1d.h:170-190 | with one group the grouped slice is the whole column, so the grouped formula is the exact path's |
| Conv1dLayers.SilentStart | RTNeural-x/RTNeural/conv1d/conv1d.h:96-99 | a zeroed buffer holds the empty input history |
| Conv1dLayers.WrittenColumns | RTNeural-x/RTNeural/conv1d/conv1d.h:129-132 | after the write, tap `k` reads the input `k * dilation` steps back, or silence before the stream began |
| Conv1dLayers.AdvanceHolds | RTNeural-x/RTNeural/conv1d/conv1d.h:217 | writing and advancing keeps the buffer holding the last `state_size` inputs, newest first |
| Conv1dLayers.ForwardIsCausal | RTNeural-x/RTNeural/conv1d/conv1d.h:312-340 | fed a stream from a zeroed buffer, `forward` computes `bias[i] + Σ_k Σ_f w[i][k][f] * x[t - k·d][ii + f]` and keeps the buffer invariant |
| Conv1dLayers.PerforatedForward | RTNeural-x/RTNeural/conv1d/conv1d.h:126-168 | with one group and `out_size == in_size + kernel_size - 1`: marked outputs are exact, unmarked outputs equal the exact output at their nearest marked position, the state advances as in `forward`; fails iff the mask marks nothing |

## Left out

- Floating point: `f32` and `float` rounding, overflow, NaN propagation and
  the `float` rounding of `0.90f` are idealised as exact reals. A
  non-finite result is reported as a failure instead of being computed.
- The square root is uninterpreted. `FullRankNotExact` fixes only
  `sqrt(1) = 1` and `sqrt(25) = 5`.
- Random number generation: Xoshiro (Rust), `mt19937` with
  `random_device` (C++) and `Matrix::random` (rural/src/matrix.rs:37-45).
  The draws are an abstract input, so the concrete mask behind the Rust
  regression test is taken as given (`IsMask18`), not derived from seed 0.
- The C++ perforated `forward` caches its mask in a function-local `static`
  on the first call (RTNeural-x/RTNeural/conv1d/conv1d.h:139). That static is
  shared by every layer object of one `Conv1D<T>` instantiation. The model
  builds the mask from the draws for the current `out_size` on every call.
  Passing the same draws each time matches the cache only for a single layer
  size, or for layers that all share one `out_size`. A second layer of another
  `out_size` would reuse a mask of the wrong length in the source, reading
  `mask[i]` or writing `h[i]` out of bounds. That cross-layer sharing is not
  modelled.
- The Rust `Debug` formatter (rural/src/matrix.rs:84-96) and `shape()`:
  formatting and a plain getter.
- `Dense::getWeight` (RTNeural-x/RTNeural/dense/dense.h:199-202): a stub
  that always returns 0.
- `Dense::setWeights(T**)` (RTNeural-x/RTNeural/dense/dense.h:159-184) is
  the same as the vector overload that `SetWeights` models.
- `Conv1D`'s scratch members `state_cols` and `state_ptrs`
  (RTNeural-x/RTNeural/conv1d/conv1d.h:129-132, 261-265) are not kept in the
  layer state. `forward` rewrites both before reading them, so the model
  computes them (`Columns`, `StatePointers`) where they are read.
- `Conv1D`'s constructors, `reset`, `setWeights` and `setBias`, and the
  `Layer` base class, are defined in files that are not part of this model.
  The buffer is assumed to start zeroed (`SilentStart`), as the class
  comment asks of `reset`.
- Selection.Indices: the comparator of `sort_unstable_by`
  (rural/src/matrix.rs:157-163) never answers `Equal`, and answers `Greater`
  both ways for equal weights. It is not a total order. Equal weights may
  therefore come out in either order, and recent Rust standard libraries may
  also panic on such a comparator. The model breaks ties by ascending index
  instead (`PrecedesIsStrictOrder`). Its contract states only what every
  order gives, but `Estimate` fixes which of several tied positions is kept
  at the boundary. The possible panic is not modelled.
- The documented expectation that `rand_matmul` at `factor = 1.0` equals
  `matmul` is not what the code does. Every term is still rescaled by
  `1 / (n · prob[t])`. The model follows the code, and `FullRankNotExact`
  exhibits an input where the two differ.
- The expectation that the error of `rand_matmul` shrinks as `factor`
  grows is a statistical claim about floating-point experiments and is not
  stated. Only monotonicity of the kept count `c` is proved
  (`SketchRankMonotone`).
