/** The fully-connected layers of `RTNeural`: the dynamic `Dense`, which stores
    its weights transposed (input-major) and has an exact and a randomized
    forward pass, and the static `DenseT`, which stores them output-major. */
module DenseLayers {
  import opened Wrappers
  import opened Math
  import opened Matrices
  import opened Selection
  import opened RandMatMul

  /** The affine map both layers compute after `setWeights(w)`:
      `bias[j] + Σ_k w[j][k] * input[k]`, with `w` given output-major. */
  function Affine(w: seq<seq<real>>, bias: seq<real>, input: seq<real>): (r: seq<real>)
    requires |bias| == |w| && forall j :: 0 <= j < |w| ==> |w[j]| == |input|
    ensures |r| == |w|
  {
    seq(|w|, j requires 0 <= j < |w| => bias[j] + Dot(w[j], input))
  }

  /** A weight literal `newWeights[out_size][in_size]`. */
  predicate Shaped(w: seq<seq<real>>, n: nat, p: nat)
  {
    |w| == p && forall j :: 0 <= j < p ==> |w[j]| == n
  }

  /** `Dense`: `weights[k * p + j]` is the weight from input `k` to output `j`,
      which is cell `(k, j)` of an `n`-by-`p` matrix; `wNorm` is the norm of
      each input's weights, kept for the randomized pass. */
  datatype Dense = Dense(inSize: nat, outSize: nat, weights: Matrix, biases: seq<real>, wNorm: seq<real>)

  predicate DenseValid(d: Dense)
  {
    && Valid(d.weights) && d.weights.rows == d.inSize && d.weights.cols == d.outSize
    && |d.biases| == d.outSize && |d.wNorm| == d.inSize
  }

  /** `Dense(in_size, out_size)`: `make_unique<T[]>` value-initialises every
      buffer, so a new layer holds zeros. */
  function NewDense(n: nat, p: nat): (d: Dense)
    ensures DenseValid(d) && d.inSize == n && d.outSize == p
    ensures forall k, j :: 0 <= k < n && 0 <= j < p ==> Get(d.weights, k, j) == 0.0
    ensures forall j :: 0 <= j < p ==> d.biases[j] == 0.0
  {
    Dense(n, p, Zeroes(n, p), seq(p, _ => 0.0), seq(n, _ => 0.0))
  }

  /** The input-major copy of an output-major literal. */
  function Transpose(w: seq<seq<real>>, n: nat): (t: seq<seq<real>>)
    requires Shaped(w, n, |w|)
    ensures |t| == n && forall k :: 0 <= k < n ==> |t[k]| == |w|
    ensures forall k, j :: 0 <= k < n && 0 <= j < |w| ==> t[k][j] == w[j][k]
  {
    seq(n, k requires 0 <= k < n => seq(|w|, j requires 0 <= j < |w| => w[j][k]))
  }

  /** Transposing back recovers the output-major literal. */
  lemma TransposeTwice(w: seq<seq<real>>, n: nat)
    requires Shaped(w, n, |w|)
    ensures Shaped(Transpose(w, n), |w|, n)
    ensures Transpose(Transpose(w, n), |w|) == w
  {
    var t := Transpose(w, n);
    var back := Transpose(t, |w|);
    forall j | 0 <= j < |w|
      ensures back[j] == w[j]
    {
      assert |back[j]| == n == |w[j]|;
    }
  }

  /** `Dense::setWeights(newWeights)`: the weights are stored transposed, so
      every cell `weights[k * p + j]` receives `newWeights[j][k]`; the biases
      are kept; `w_norm[k]` becomes the norm of input `k`'s weights. */
  function SetWeights(d: Dense, w: seq<seq<real>>, sqrt: real -> real): (r: Dense)
    requires DenseValid(d) && Shaped(w, d.inSize, d.outSize)
    ensures DenseValid(r) && r.inSize == d.inSize && r.outSize == d.outSize && r.biases == d.biases
    ensures forall k, j :: 0 <= k < d.inSize && 0 <= j < d.outSize ==>
              Get(r.weights, k, j) == w[j][k]
    ensures forall j :: 0 <= j < d.outSize ==> Column(r.weights, j) == w[j]
    ensures forall k :: 0 <= k < d.inSize ==> r.wNorm[k] == Norm(Row(r.weights, k), sqrt)
  {
    var n, p := d.inSize, d.outSize;
    var m := New(Transpose(w, n), n, p);
    d.(weights := m, wNorm := seq(n, k requires 0 <= k < n => Norm(Row(m, k), sqrt)))
  }

  /** `Dense::setBias(b)`: the first `out_size` values of `b` become the biases. */
  function SetBias(d: Dense, b: seq<real>): (r: Dense)
    requires DenseValid(d) && d.outSize <= |b|
    ensures DenseValid(r) && r.weights == d.weights && r.wNorm == d.wNorm
    ensures r.inSize == d.inSize && r.outSize == d.outSize
    ensures forall j :: 0 <= j < d.outSize ==> r.biases[j] == b[j]
  {
    d.(biases := b[..d.outSize])
  }

  /** The exact `Dense::forward`: `out[j]` starts at the bias and accumulates
      `input[k] * weights[k * p + j]` for every input `k`, which is the bias
      plus the dot product of the input with column `j`. */
  method Forward(d: Dense, input: seq<real>) returns (out: seq<real>)
    requires DenseValid(d) && |input| == d.inSize
    ensures |out| == d.outSize
    ensures forall j :: 0 <= j < d.outSize ==> out[j] == d.biases[j] + Dot(input, Column(d.weights, j))
  {
    var n, p := d.inSize, d.outSize;
    out := [];
    for j := 0 to p
      invariant |out| == j
      invariant forall j' :: 0 <= j' < j ==> out[j'] == d.biases[j'] + Dot(input, Column(d.weights, j'))
    {
      var col := Column(d.weights, j);
      var acc := d.biases[j];
      for k := 0 to n
        invariant acc == d.biases[j] + Dot(input[..k], col[..k])
      {
        assert input[..k + 1] == input[..k] + [input[k]];
        assert col[..k + 1] == col[..k] + [col[k]];
        DotSnoc(input[..k], col[..k], input[k], col[k]);
        acc := acc + input[k] * Get(d.weights, k, j);
      }
      assert input[..n] == input && col[..n] == col;
      out := out + [acc];
    }
  }

  /** `C = ceil(n * 0.9)`: at least one term and at most `n` for `n >= 1`. */
  function DenseRank(n: nat): (c: nat)
    ensures c <= n
    ensures 1 <= n ==> 1 <= c
  {
    SketchRank(n, 0.9)
  }

  /** The input as the single row of a `1`-by-`n` matrix. */
  function AsRow(input: seq<real>): (a: Matrix)
    ensures Valid(a) && a.rows == 1 && a.cols == |input|
    ensures forall k :: 0 <= k < |input| ==> Get(a, 0, k) == input[k]
  {
    assert RowStart(|input|, 1) == RowStart(|input|, 0) + |input|;
    Matrix(input, 1, |input|)
  }

  /** `i_norm[k] = sqrt(x * x)` for `x = input[k]`: the norm of column `k`
      of the one-row input. */
  function InputNorms(input: seq<real>, sqrt: real -> real): (r: seq<real>)
    ensures |r| == |input|
    ensures forall k :: 0 <= k < |input| ==> r[k] == sqrt(input[k] * input[k])
  {
    var r := seq(|input|, k requires 0 <= k < |input| => Norm(Column(AsRow(input), k), sqrt));
    assert forall k :: 0 <= k < |input| ==> r[k] == sqrt(input[k] * input[k]) by {
      forall k | 0 <= k < |input|
        ensures r[k] == sqrt(input[k] * input[k])
      {
        assert Column(AsRow(input), k) == [input[k]];
        SingleNorm(input[k], sqrt);
      }
    }
    r
  }

  /** The norm of a single value is the root of its square. */
  lemma SingleNorm(x: real, sqrt: real -> real)
    ensures Norm([x], sqrt) == sqrt(x * x)
  {
    assert [x][1..] == [];
    assert Dot([x], [x]) == x * x + Dot([], []);
  }

  /** `sum_norm = inner_product(i_norm, w_norm, 0)`. */
  function DenseSumNorm(d: Dense, input: seq<real>, sqrt: real -> real): real
    requires DenseValid(d) && |input| == d.inSize
  {
    InnerProduct(InputNorms(input, sqrt), d.wNorm, 0.0)
  }

  /** `prob[k] = i_norm[k] * w_norm[k] / sum_norm`. */
  function DenseProb(d: Dense, input: seq<real>, sqrt: real -> real): (r: seq<real>)
    requires DenseValid(d) && |input| == d.inSize && DenseSumNorm(d, input, sqrt) != 0.0
    ensures |r| == d.inSize
  {
    Weights(InputNorms(input, sqrt), d.wNorm, DenseSumNorm(d, input, sqrt))
  }

  /** `prob[k] * sum_norm == i_norm[k] * w_norm[k]` for every input `k`. */
  lemma DenseProbIsNormalised(d: Dense, input: seq<real>, sqrt: real -> real)
    requires DenseValid(d) && |input| == d.inSize && DenseSumNorm(d, input, sqrt) != 0.0
    ensures Normalised(DenseProb(d, input, sqrt), InputNorms(input, sqrt), d.wNorm, DenseSumNorm(d, input, sqrt))
  {
  }

  /** `inner_product` over two vectors of length `n` reads both whole. */
  lemma DenseSumNormIsDot(d: Dense, input: seq<real>, sqrt: real -> real)
    requires DenseValid(d) && |input| == d.inSize
    ensures DenseSumNorm(d, input, sqrt) == Dot(InputNorms(input, sqrt), d.wNorm)
  {
    var x := InputNorms(input, sqrt);
    assert x[..|x|] == x && d.wNorm[..|d.wNorm|] == d.wNorm;
  }

  /** With a non-negative square root and non-negative weight norms, `prob`
      is a probability distribution over the inputs. */
  lemma DenseProbIsDistribution(d: Dense, input: seq<real>, sqrt: real -> real)
    requires DenseValid(d) && |input| == d.inSize
    requires NonNegativeRoot(sqrt) && forall k :: 0 <= k < d.inSize ==> 0.0 <= d.wNorm[k]
    requires DenseSumNorm(d, input, sqrt) != 0.0
    ensures forall k :: 0 <= k < d.inSize ==> 0.0 <= DenseProb(d, input, sqrt)[k]
    ensures Sum(DenseProb(d, input, sqrt)) == 1.0
  {
    InputNormsNonNegative(input, sqrt);
    DenseSumNormIsDot(d, input, sqrt);
    DenseProbIsNormalised(d, input, sqrt);
    QuotientsAreDistribution(DenseProb(d, input, sqrt), InputNorms(input, sqrt), d.wNorm, DenseSumNorm(d, input, sqrt));
  }

  lemma InputNormsNonNegative(input: seq<real>, sqrt: real -> real)
    requires NonNegativeRoot(sqrt)
    ensures forall k :: 0 <= k < |input| ==> 0.0 <= InputNorms(input, sqrt)[k]
  {
    forall k | 0 <= k < |input|
      ensures 0.0 <= InputNorms(input, sqrt)[k]
    {
      NormNonNegative([input[k]], sqrt);
      SingleNorm(input[k], sqrt);
    }
  }

  /** The order `iota` + `stable_sort` gives: by non-increasing weight, equal
      weights in ascending index order. */
  function DenseOrder(d: Dense, input: seq<real>, sqrt: real -> real): (r: seq<nat>)
    requires DenseValid(d) && |input| == d.inSize && DenseSumNorm(d, input, sqrt) != 0.0
    ensures |r| == d.inSize && InRange(r, d.inSize)
  {
    StableOrder(DenseProb(d, input, sqrt))
  }

  /** Every one of the first `C` positions in that order has a finite
      rescaling factor. */
  predicate DenseWellWeighted(d: Dense, input: seq<real>, sqrt: real -> real)
    requires DenseValid(d) && |input| == d.inSize
  {
    var c := DenseRank(d.inSize);
    c == 0 ||
    (DenseSumNorm(d, input, sqrt) != 0.0 &&
     var prob := DenseProb(d, input, sqrt);
     var idxs := DenseOrder(d, input, sqrt);
     forall q :: 0 <= q < c ==> prob[idxs[q]] != 0.0)
  }

  /** `Σ_{c < C} input[t] * weights[t * p + j] / (C * prob[t])` with
      `t = idxs[c]`: the randomized estimate of output `j` without its bias. */
  function DenseEstimate(d: Dense, input: seq<real>, sqrt: real -> real, j: nat): real
    requires DenseValid(d) && |input| == d.inSize && j < d.outSize
    requires DenseWellWeighted(d, input, sqrt)
  {
    var c := DenseRank(d.inSize);
    if c == 0 then 0.0
    else WeightedSum(AsRow(input), d.weights, DenseProb(d, input, sqrt), DenseOrder(d, input, sqrt), c, 0, j, c)
  }

  /** Weights into output `j` that are all zero, or a silent input. */
  predicate ZeroPath(input: seq<real>, w: Matrix, j: nat)
    requires Valid(w) && w.rows == |input| && j < w.cols
  {
    (forall k :: 0 <= k < |input| ==> Get(w, k, j) == 0.0) || (forall k :: 0 <= k < |input| ==> input[k] == 0.0)
  }

  lemma ExactOutputVanishes(input: seq<real>, w: Matrix, j: nat)
    requires Valid(w) && w.rows == |input| && j < w.cols && ZeroPath(input, w, j)
    ensures Dot(input, Column(w, j)) == 0.0
  {
    var a := AsRow(input);
    ExactVanishes(a, w, 0, j);
    assert Row(a, 0) == input;
  }

  lemma KeptSumVanishes(input: seq<real>, w: Matrix, prob: seq<real>, idxs: seq<nat>, c: nat, j: nat)
    requires Valid(w) && w.rows == |input| == |prob| && j < w.cols
    requires 0 < c <= |idxs| && InRange(idxs, |input|)
    requires forall q :: 0 <= q < c ==> prob[idxs[q]] != 0.0
    requires ZeroPath(input, w, j)
    ensures WeightedSum(AsRow(input), w, prob, idxs, c, 0, j, c) == 0.0
  {
    WeightedSumOfZero(AsRow(input), w, prob, idxs, c, 0, j, c);
  }

  /** When the weights into output `j` are all zero, or the input is silent,
      the estimate is zero, like the exact output without its bias. */
  lemma DenseEstimateVanishes(d: Dense, input: seq<real>, sqrt: real -> real, j: nat)
    requires DenseValid(d) && |input| == d.inSize && j < d.outSize
    requires DenseWellWeighted(d, input, sqrt) && ZeroPath(input, d.weights, j)
    ensures DenseEstimate(d, input, sqrt, j) == 0.0
    ensures Dot(input, Column(d.weights, j)) == 0.0
  {
    var c := DenseRank(d.inSize);
    if 0 < c {
      KeptNonZero(d, input, sqrt);
      var prob, idxs := DenseProb(d, input, sqrt), DenseOrder(d, input, sqrt);
      EstimateIsKept(d, input, sqrt, j, prob, idxs);
      KeptSumVanishes(input, d.weights, prob, idxs, c, j);
    }
    ExactOutputVanishes(input, d.weights, j);
  }

  /** With at least one kept input, every kept position has a non-zero weight. */
  lemma KeptNonZero(d: Dense, input: seq<real>, sqrt: real -> real)
    requires DenseValid(d) && |input| == d.inSize
    requires DenseWellWeighted(d, input, sqrt) && 0 < DenseRank(d.inSize)
    ensures DenseSumNorm(d, input, sqrt) != 0.0
    ensures forall q :: 0 <= q < DenseRank(d.inSize) ==>
              DenseProb(d, input, sqrt)[DenseOrder(d, input, sqrt)[q]] != 0.0
  {
  }

  /** With at least one kept input, the estimate is the rescaled sum over the
      first `C` positions of the order. */
  lemma EstimateIsKept(d: Dense, input: seq<real>, sqrt: real -> real, j: nat, prob: seq<real>, idxs: seq<nat>)
    requires DenseValid(d) && |input| == d.inSize && j < d.outSize
    requires DenseWellWeighted(d, input, sqrt) && 0 < DenseRank(d.inSize)
    requires DenseSumNorm(d, input, sqrt) != 0.0
    requires prob == DenseProb(d, input, sqrt) && idxs == DenseOrder(d, input, sqrt)
    ensures forall q :: 0 <= q < DenseRank(d.inSize) ==> prob[idxs[q]] != 0.0
    ensures DenseEstimate(d, input, sqrt, j)
            == WeightedSum(AsRow(input), d.weights, prob, idxs, DenseRank(d.inSize), 0, j, DenseRank(d.inSize))
  {
  }

  /** The inner loop of the randomized pass: `Σ_{q < c} pt * input[t] *
      weights[t * p + j]` over the first `c` kept positions `t = idxs[q]`. */
  method KeptTerms(input: seq<real>, w: Matrix, prob: seq<real>, idxs: seq<nat>, c: nat, j: nat) returns (acc: real)
    requires Valid(w) && w.rows == |input| == |prob| && j < w.cols
    requires 0 < c <= |idxs| && InRange(idxs, |input|)
    requires forall q :: 0 <= q < c ==> prob[idxs[q]] != 0.0
    ensures acc == WeightedSum(AsRow(input), w, prob, idxs, c, 0, j, c)
  {
    var a := AsRow(input);
    acc := 0.0;
    for q := 0 to c
      invariant acc == WeightedSum(a, w, prob, idxs, c, 0, j, q)
    {
      var t := idxs[q];
      var pt := Rescale(c, prob[t]);
      WeightedSumStep(a, w, prob, idxs, c, 0, j, q);
      acc := acc + pt * input[t] * Get(w, t, j);
    }
  }

  /** The outer loop of the randomized pass over given weights and order:
      output `j` is the bias plus the first `c` rescaled terms of column `j`. */
  method KeptOutputs(input: seq<real>, w: Matrix, biases: seq<real>, prob: seq<real>, idxs: seq<nat>, c: nat)
    returns (out: seq<real>)
    requires Valid(w) && w.rows == |input| == |prob| && |biases| == w.cols
    requires 0 < c <= |idxs| && InRange(idxs, |input|)
    requires forall q :: 0 <= q < c ==> prob[idxs[q]] != 0.0
    ensures |out| == w.cols
    ensures forall j :: 0 <= j < w.cols ==>
              out[j] == biases[j] + WeightedSum(AsRow(input), w, prob, idxs, c, 0, j, c)
  {
    out := [];
    for j := 0 to w.cols
      invariant |out| == j
      invariant forall j' :: 0 <= j' < j ==>
                  out[j'] == biases[j'] + WeightedSum(AsRow(input), w, prob, idxs, c, 0, j', c)
    {
      var acc := KeptTerms(input, w, prob, idxs, c, j);
      out := out + [biases[j] + acc];
    }
  }

  /** The outer loop of the randomized pass, when at least one input is kept:
      output `j` is the bias plus the estimate. */
  method Estimates(d: Dense, input: seq<real>, sqrt: real -> real) returns (out: seq<real>)
    requires DenseValid(d) && |input| == d.inSize
    requires DenseWellWeighted(d, input, sqrt) && 0 < DenseRank(d.inSize)
    ensures |out| == d.outSize
    ensures forall j :: 0 <= j < d.outSize ==> out[j] == d.biases[j] + DenseEstimate(d, input, sqrt, j)
  {
    KeptNonZero(d, input, sqrt);
    var c := DenseRank(d.inSize);
    var prob := DenseProb(d, input, sqrt);
    var idxs := DenseOrder(d, input, sqrt);
    out := KeptOutputs(input, d.weights, d.biases, prob, idxs, c);
    forall j | 0 <= j < d.outSize
      ensures out[j] == d.biases[j] + DenseEstimate(d, input, sqrt, j)
    {
      EstimateIsKept(d, input, sqrt, j, prob, idxs);
    }
  }

  /** The randomized `Dense::forward`. A single input falls back to the exact
      formula. Otherwise the weights `prob` order the inputs, the first
      `C = ceil(0.9 n)` of them are kept, and output `j` is the bias plus their
      rescaled terms. A kept term whose factor is not finite makes a non-empty
      output non-finite. */
  method ForwardRand(d: Dense, input: seq<real>, sqrt: real -> real) returns (r: Result<seq<real>, NumericError>)
    requires DenseValid(d) && |input| == d.inSize
    ensures r.Failure? <==> d.inSize != 1 && d.outSize > 0 && !DenseWellWeighted(d, input, sqrt)
    ensures r.Success? ==> |r.value| == d.outSize
    ensures r.Success? && d.inSize == 1 ==>
              forall j :: 0 <= j < d.outSize ==> r.value[j] == d.biases[j] + Dot(input, Column(d.weights, j))
    ensures r.Success? && d.inSize != 1 ==>
              forall j :: 0 <= j < d.outSize ==> r.value[j] == d.biases[j] + DenseEstimate(d, input, sqrt, j)
  {
    var n, p := d.inSize, d.outSize;
    if n == 1 {
      var out := Forward(d, input);
      return Success(out);
    }
    if p == 0 {
      return Success([]);
    }
    if !DenseWellWeighted(d, input, sqrt) {
      return Failure(NonFinite);
    }
    var c := DenseRank(n);
    var out: seq<real> := [];
    if c == 0 {
      out := d.biases;
      return Success(out);
    }
    out := Estimates(d, input, sqrt);
    return Success(out);
  }

  /** `DenseT`: `weights[i * n + k]` is the weight from input `k` to output `i`,
      cell `(i, k)` of a `p`-by-`n` matrix. */
  datatype DenseT = DenseT(inSize: nat, outSize: nat, weights: Matrix, bias: seq<real>, outs: seq<real>)

  predicate DenseTValid(d: DenseT)
  {
    && Valid(d.weights) && d.weights.rows == d.outSize && d.weights.cols == d.inSize
    && |d.bias| == d.outSize && |d.outs| == d.outSize
  }

  /** The `DenseT` constructor zeroes the weights, the biases and the outputs. */
  function NewDenseT(n: nat, p: nat): (d: DenseT)
    ensures DenseTValid(d) && d.inSize == n && d.outSize == p
    ensures forall i, k :: 0 <= i < p && 0 <= k < n ==> Get(d.weights, i, k) == 0.0
    ensures forall i :: 0 <= i < p ==> d.bias[i] == 0.0 && d.outs[i] == 0.0
  {
    DenseT(n, p, Zeroes(p, n), seq(p, _ => 0.0), seq(p, _ => 0.0))
  }

  /** `DenseT::setWeights(newWeights)`: `weights[i * n + k] = newWeights[i][k]`. */
  function SetWeightsT(d: DenseT, w: seq<seq<real>>): (r: DenseT)
    requires DenseTValid(d) && Shaped(w, d.inSize, d.outSize)
    ensures DenseTValid(r) && r.inSize == d.inSize && r.outSize == d.outSize && r.bias == d.bias
    ensures forall i, k :: 0 <= i < d.outSize && 0 <= k < d.inSize ==>
              Get(r.weights, i, k) == w[i][k]
    ensures forall i :: 0 <= i < d.outSize ==> Row(r.weights, i) == w[i]
  {
    var n, p := d.inSize, d.outSize;
    var m := New(w, p, n);
    d.(weights := m)
  }

  /** `DenseT::forward(ins)`: `outs[i] = inner_product(ins, row i) + bias[i]`. */
  function ForwardT(d: DenseT, input: seq<real>): (r: DenseT)
    requires DenseTValid(d) && |input| == d.inSize
    ensures DenseTValid(r) && r.weights == d.weights && r.bias == d.bias
    ensures r.inSize == d.inSize && r.outSize == d.outSize
    ensures forall i :: 0 <= i < d.outSize ==> r.outs[i] == Dot(input, Row(d.weights, i)) + d.bias[i]
  {
    var outs := seq(d.outSize, i requires 0 <= i < d.outSize => InnerProduct(input, Row(d.weights, i), 0.0) + d.bias[i]);
    assert forall i :: 0 <= i < d.outSize ==> outs[i] == Dot(input, Row(d.weights, i)) + d.bias[i] by {
      forall i | 0 <= i < d.outSize
        ensures outs[i] == Dot(input, Row(d.weights, i)) + d.bias[i]
      {
        var row := Row(d.weights, i);
        assert input[..|input|] == input && row[..|row|] == row;
      }
    }
    d.(outs := outs)
  }

  /** A freshly constructed `DenseT` maps every input to zeros. */
  lemma FreshDenseTIsZero(n: nat, p: nat, input: seq<real>)
    requires |input| == n
    ensures forall i :: 0 <= i < p ==> ForwardT(NewDenseT(n, p), input).outs[i] == 0.0
  {
    var d := NewDenseT(n, p);
    forall i | 0 <= i < p
      ensures ForwardT(d, input).outs[i] == 0.0
    {
      DotZero(input, Row(d.weights, i));
    }
  }

  /** Both storage layouts compute the same affine map: after `setWeights(w)`
      and the same biases, the exact `Dense` pass (the bias plus the input
      against column `j` of the transposed buffer) and `DenseT::forward` (row
      `j` of the untransposed buffer) both give `bias[j] + Σ_k w[j][k] * input[k]`. */
  lemma LayoutsAgree(d: Dense, t: DenseT, w: seq<seq<real>>, input: seq<real>, sqrt: real -> real)
    requires DenseValid(d) && DenseTValid(t) && d.inSize == t.inSize && d.outSize == t.outSize
    requires d.biases == t.bias && Shaped(w, d.inSize, d.outSize) && |input| == d.inSize
    ensures var dw := SetWeights(d, w, sqrt);
      forall j :: 0 <= j < d.outSize ==> dw.biases[j] + Dot(input, Column(dw.weights, j)) == Affine(w, d.biases, input)[j]
    ensures forall j :: 0 <= j < d.outSize ==> ForwardT(SetWeightsT(t, w), input).outs[j] == Affine(w, d.biases, input)[j]
  {
    forall j | 0 <= j < d.outSize
      ensures Dot(input, w[j]) == Dot(w[j], input)
    {
      DotSymmetric(input, w[j]);
    }
  }
}
