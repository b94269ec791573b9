/** `rand_matmul`: the product `a · b` estimated from the `c` rank-one terms
    `a[:, t] ⊗ b[t, :]` of largest norm weight, each rescaled by the inverse
    of `c · prob[t]`. The square root is a parameter about which only
    non-negativity is known. */
module RandMatMul {
  import opened Wrappers
  import opened Math
  import opened Matrices
  import opened Selection

  /** A rescaling factor `1 / (c · prob[t])` that is not a finite number: in
      `f32` the estimate then holds infinities or NaNs. */
  datatype NumericError = NonFinite

  /** `a_col_norm`: the Euclidean norm of every column of `a`. */
  function ColumnNorms(a: Matrix, sqrt: real -> real): (r: seq<real>)
    requires Valid(a)
    ensures |r| == a.cols
    ensures forall k :: 0 <= k < a.cols ==> r[k] == Norm(Column(a, k), sqrt)
  {
    seq(a.cols, k requires 0 <= k < a.cols => Norm(Column(a, k), sqrt))
  }

  /** `b_row_norm`: the Euclidean norm of every row of `b`. */
  function RowNorms(b: Matrix, sqrt: real -> real): (r: seq<real>)
    requires Valid(b)
    ensures |r| == b.rows
    ensures forall k :: 0 <= k < b.rows ==> r[k] == Norm(Row(b, k), sqrt)
  {
    seq(b.rows, k requires 0 <= k < b.rows => Norm(Row(b, k), sqrt))
  }

  /** `sum_norm`, the normaliser of the weights. */
  function SumNorm(a: Matrix, b: Matrix, sqrt: real -> real): real
    requires Valid(a) && Valid(b) && a.cols == b.rows
  {
    InnerProduct(ColumnNorms(a, sqrt), RowNorms(b, sqrt), 0.0)
  }

  /** `prob[k] = an[k] * bn[k] / total`: each weight times the normaliser is
      the product of the two norms at that position. */
  function Weights(an: seq<real>, bn: seq<real>, total: real): (r: seq<real>)
    requires |an| == |bn| && total != 0.0
    ensures |r| == |an|
    ensures forall k :: 0 <= k < |an| ==> r[k] * total == an[k] * bn[k]
    ensures Normalised(r, an, bn, total)
  {
    seq(|an|, k requires 0 <= k < |an| => an[k] * bn[k] / total)
  }

  /** Quotients of a sum by itself sum to 1. */
  lemma QuotientsSumToOne(w: seq<real>, an: seq<real>, bn: seq<real>, total: real)
    requires Normalised(w, an, bn, total) && total == Dot(an, bn) && total != 0.0
    ensures Sum(w) == 1.0
  {
    SumOfQuotients(w, an, bn, total);
    ProductZero(Sum(w) - 1.0, total, Sum(w) * total - total);
  }

  /** Quotients of non-negative products by a positive total are
      non-negative. */
  lemma QuotientsNonNegative(w: seq<real>, an: seq<real>, bn: seq<real>, total: real)
    requires Normalised(w, an, bn, total) && 0.0 < total
    requires forall k :: 0 <= k < |an| ==> 0.0 <= an[k] && 0.0 <= bn[k]
    ensures forall k :: 0 <= k < |w| ==> 0.0 <= w[k]
  {
    forall k | 0 <= k < |w|
      ensures 0.0 <= w[k]
    {
      assert w[k] * total == an[k] * bn[k];
      if w[k] < 0.0 {
        PositiveProduct(-w[k], total, -(w[k] * total));
      }
    }
  }

  /** Products of non-negative norms, normalised by their reference sum,
      form a probability distribution. */
  lemma QuotientsAreDistribution(w: seq<real>, an: seq<real>, bn: seq<real>, total: real)
    requires Normalised(w, an, bn, total) && total == Dot(an, bn) && total != 0.0
    requires forall k :: 0 <= k < |an| ==> 0.0 <= an[k] && 0.0 <= bn[k]
    ensures forall k :: 0 <= k < |w| ==> 0.0 <= w[k]
    ensures Sum(w) == 1.0
  {
    DotNonNegative(an, bn);
    QuotientsSumToOne(w, an, bn, total);
    QuotientsNonNegative(w, an, bn, total);
  }

  /** Normalised by their reference sum, the weights sum to 1. */
  lemma WeightsSumToOne(an: seq<real>, bn: seq<real>, total: real)
    requires |an| == |bn| && total == Dot(an, bn) && total != 0.0
    ensures Sum(Weights(an, bn, total)) == 1.0
  {
    QuotientsSumToOne(Weights(an, bn, total), an, bn, total);
  }

  /** Weights built from non-negative norms, normalised by their reference
      sum, are non-negative. */
  lemma WeightsNonNegative(an: seq<real>, bn: seq<real>, total: real)
    requires |an| == |bn| && total == Dot(an, bn) && total != 0.0
    requires forall k :: 0 <= k < |an| ==> 0.0 <= an[k] && 0.0 <= bn[k]
    ensures forall k :: 0 <= k < |an| ==> 0.0 <= Weights(an, bn, total)[k]
  {
    DotNonNegative(an, bn);
    QuotientsNonNegative(Weights(an, bn, total), an, bn, total);
  }

  /** The zip of two norm vectors of equal length reads all of both. */
  lemma SumNormIsDot(a: Matrix, b: Matrix, sqrt: real -> real)
    requires Valid(a) && Valid(b) && a.cols == b.rows
    ensures SumNorm(a, b, sqrt) == Dot(ColumnNorms(a, sqrt), RowNorms(b, sqrt))
  {
    var an, bn := ColumnNorms(a, sqrt), RowNorms(b, sqrt);
    assert an[..|an|] == an && bn[..|bn|] == bn;
  }

  /** The weights of `rand_matmul`, from the column norms of `a` and the row
      norms of `b`. */
  function Prob(a: Matrix, b: Matrix, sqrt: real -> real): (r: seq<real>)
    requires Valid(a) && Valid(b) && a.cols == b.rows
    requires SumNorm(a, b, sqrt) != 0.0
    ensures |r| == a.cols
  {
    Weights(ColumnNorms(a, sqrt), RowNorms(b, sqrt), SumNorm(a, b, sqrt))
  }

  /** Each weight times `sum_norm` is the product of column norm `k` of `a`
      and row norm `k` of `b`. */
  lemma ProbIsNormalised(a: Matrix, b: Matrix, sqrt: real -> real)
    requires Valid(a) && Valid(b) && a.cols == b.rows
    requires SumNorm(a, b, sqrt) != 0.0
    ensures Normalised(Prob(a, b, sqrt), ColumnNorms(a, sqrt), RowNorms(b, sqrt), SumNorm(a, b, sqrt))
  {
  }

  /** With a non-negative square root and a non-zero normaliser the weights of
      `rand_matmul` form a probability distribution. */
  lemma ProbIsDistribution(a: Matrix, b: Matrix, sqrt: real -> real)
    requires Valid(a) && Valid(b) && a.cols == b.rows
    requires NonNegativeRoot(sqrt) && SumNorm(a, b, sqrt) != 0.0
    ensures forall k :: 0 <= k < a.cols ==> 0.0 <= Prob(a, b, sqrt)[k]
    ensures Sum(Prob(a, b, sqrt)) == 1.0
  {
    var an, bn := ColumnNorms(a, sqrt), RowNorms(b, sqrt);
    NormsNonNegative(a, b, sqrt);
    SumNormIsDot(a, b, sqrt);
    WeightsSumToOne(an, bn, SumNorm(a, b, sqrt));
    WeightsNonNegative(an, bn, SumNorm(a, b, sqrt));
  }

  /** With a non-negative square root every column norm of `a` and every
      row norm of `b` is non-negative. */
  lemma NormsNonNegative(a: Matrix, b: Matrix, sqrt: real -> real)
    requires Valid(a) && Valid(b) && NonNegativeRoot(sqrt)
    ensures forall k :: 0 <= k < a.cols ==> 0.0 <= ColumnNorms(a, sqrt)[k]
    ensures forall k :: 0 <= k < b.rows ==> 0.0 <= RowNorms(b, sqrt)[k]
  {
    forall k | 0 <= k < a.cols
      ensures 0.0 <= ColumnNorms(a, sqrt)[k]
    {
      NormNonNegative(Column(a, k), sqrt);
    }
    forall k | 0 <= k < b.rows
      ensures 0.0 <= RowNorms(b, sqrt)[k]
    {
      NormNonNegative(Row(b, k), sqrt);
    }
  }

  /** With a non-negative square root the normaliser is non-negative. */
  lemma SumNormNonNegative(a: Matrix, b: Matrix, sqrt: real -> real)
    requires Valid(a) && Valid(b) && a.cols == b.rows && NonNegativeRoot(sqrt)
    ensures 0.0 <= SumNorm(a, b, sqrt)
  {
    NormsNonNegative(a, b, sqrt);
    SumNormIsDot(a, b, sqrt);
    DotNonNegative(ColumnNorms(a, sqrt), RowNorms(b, sqrt));
  }

  /** A weight vanishes exactly when one of its two norms does. */
  lemma ZeroQuotient(w: seq<real>, an: seq<real>, bn: seq<real>, total: real, t: nat)
    requires Normalised(w, an, bn, total) && total != 0.0 && t < |w|
    ensures w[t] == 0.0 <==> an[t] == 0.0 || bn[t] == 0.0
  {
    var product := an[t] * bn[t];
    assert w[t] * total == product;
    ProductZero(w[t], total, product);
    ProductZero(an[t], bn[t], product);
  }

  /** With a square root that squares back, a column norm is zero exactly for
      an all-zero column. */
  lemma ZeroColumnNorm(a: Matrix, sqrt: real -> real, t: nat)
    requires Valid(a) && t < a.cols && ExactRoot(sqrt)
    ensures ColumnNorms(a, sqrt)[t] == 0.0 <==> forall i :: 0 <= i < a.rows ==> Get(a, i, t) == 0.0
  {
    NormZero(Column(a, t), sqrt);
  }

  /** With a square root that squares back, a row norm is zero exactly for an
      all-zero row. */
  lemma ZeroRowNorm(b: Matrix, sqrt: real -> real, t: nat)
    requires Valid(b) && t < b.rows && ExactRoot(sqrt)
    ensures RowNorms(b, sqrt)[t] == 0.0 <==> forall j :: 0 <= j < b.cols ==> Get(b, t, j) == 0.0
  {
    NormZero(Row(b, t), sqrt);
  }

  /** With a square root that squares back, position `t` gets weight zero
      exactly when column `t` of `a` or row `t` of `b` is all zeros: those are
      the kept positions that make the estimate non-finite. */
  lemma ZeroWeight(a: Matrix, b: Matrix, sqrt: real -> real, t: nat)
    requires Valid(a) && Valid(b) && a.cols == b.rows && t < a.cols
    requires ExactRoot(sqrt) && SumNorm(a, b, sqrt) != 0.0
    ensures Prob(a, b, sqrt)[t] == 0.0 <==>
              (forall i :: 0 <= i < a.rows ==> Get(a, i, t) == 0.0) ||
              (forall j :: 0 <= j < b.cols ==> Get(b, t, j) == 0.0)
  {
    ProbIsNormalised(a, b, sqrt);
    ZeroQuotient(Prob(a, b, sqrt), ColumnNorms(a, sqrt), RowNorms(b, sqrt), SumNorm(a, b, sqrt), t);
    ZeroColumnNorm(a, sqrt, t);
    ZeroRowNorm(b, sqrt, t);
  }

  /** `c = min(ceil(n * factor), n)` for `0 <= factor <= 1`. */
  function SketchRank(n: nat, factor: real): (c: nat)
    requires 0.0 <= factor <= 1.0
    ensures c <= n
    ensures factor == 0.0 ==> c == 0
    ensures factor == 1.0 ==> c == n
    ensures 0.0 < factor && 0 < n ==> 1 <= c
  {
    assert 0.0 <= n as real * factor by { Scale(n as real, 0.0, factor); }
    var up := Ceil(n as real * factor);
    if up <= n then up else n
  }

  /** A larger factor never keeps fewer terms. */
  lemma SketchRankMonotone(n: nat, f1: real, f2: real)
    requires 0.0 <= f1 <= f2 <= 1.0
    ensures SketchRank(n, f1) <= SketchRank(n, f2)
  {
    Scale(n as real, f1, f2);
    CeilMonotone(n as real * f1, n as real * f2);
  }

  lemma Scale(x: real, f1: real, f2: real)
    requires 0.0 <= x && f1 <= f2
    ensures x * f1 <= x * f2
  {
    assert x * f2 - x * f1 == x * (f2 - f1);
  }

  /** Every kept term has a finite weight: no term is kept, or the normaliser is
      non-zero and no kept position has weight zero. */
  predicate WellWeighted(a: Matrix, b: Matrix, c: nat, sqrt: real -> real)
    requires Valid(a) && Valid(b) && a.cols == b.rows && c <= a.cols
  {
    c == 0 ||
    (SumNorm(a, b, sqrt) != 0.0 &&
     var prob := Prob(a, b, sqrt);
     var sel := Indices(prob, c);
     forall q :: 0 <= q < c ==> prob[sel[q]] != 0.0)
  }

  /** `pt = 1 / (c · w)`, finite when neither factor is zero. */
  function Rescale(c: nat, w: real): (pt: real)
    requires 0 < c && w != 0.0
    ensures pt * (c as real * w) == 1.0
  {
    assert c as real * w != 0.0;
    1.0 / (c as real * w)
  }

  /** The rank-one term of kept position `t` at cell `(i, j)`, rescaled by
      `pt = 1 / (c · w)`. */
  function Term(a: Matrix, b: Matrix, c: nat, w: real, i: nat, t: nat, j: nat): real
    requires Valid(a) && Valid(b) && a.cols == b.rows
    requires i < a.rows && j < b.cols && t < a.cols && 0 < c && w != 0.0
  {
    Rescale(c, w) * Get(a, i, t) * Get(b, t, j)
  }

  /** `Σ_{s < q} pt_s · a[i][t_s] · b[t_s][j]` with `t_s = sel[s]` and
      `pt_s = 1 / (c · prob[t_s])`: the first `q` rank-one terms, rescaled. */
  function WeightedSum(a: Matrix, b: Matrix, prob: seq<real>, sel: seq<nat>, c: nat, i: nat, j: nat, q: nat): real
    requires Valid(a) && Valid(b) && a.cols == b.rows && |prob| == a.cols
    requires i < a.rows && j < b.cols && q <= |sel| && InRange(sel, a.cols)
    requires 0 < c && forall s :: 0 <= s < q ==> prob[sel[s]] != 0.0
  {
    if q == 0 then 0.0
    else
      var t := sel[q - 1];
      WeightedSum(a, b, prob, sel, c, i, j, q - 1) + Term(a, b, c, prob[t], i, t, j)
  }

  /** The sum over one more kept position adds that position's rescaled term. */
  lemma WeightedSumStep(a: Matrix, b: Matrix, prob: seq<real>, sel: seq<nat>, c: nat, i: nat, j: nat, q: nat)
    requires Valid(a) && Valid(b) && a.cols == b.rows && |prob| == a.cols
    requires i < a.rows && j < b.cols && q < |sel| && InRange(sel, a.cols)
    requires 0 < c && forall s :: 0 <= s <= q ==> prob[sel[s]] != 0.0
    ensures WeightedSum(a, b, prob, sel, c, i, j, q + 1)
            == WeightedSum(a, b, prob, sel, c, i, j, q) + Rescale(c, prob[sel[q]]) * Get(a, i, sel[q]) * Get(b, sel[q], j)
  {
    var t := sel[q];
    assert WeightedSum(a, b, prob, sel, c, i, j, q + 1)
           == WeightedSum(a, b, prob, sel, c, i, j, q) + Term(a, b, c, prob[t], i, t, j);
  }

  /** A zero row `i` of `a` or a zero column `j` of `b` makes every partial
      rescaled sum at `(i, j)` zero. */
  lemma {:induction false} WeightedSumOfZero(a: Matrix, b: Matrix, prob: seq<real>, sel: seq<nat>, c: nat, i: nat, j: nat, q: nat)
    requires Valid(a) && Valid(b) && a.cols == b.rows && |prob| == a.cols
    requires i < a.rows && j < b.cols && q <= |sel| && InRange(sel, a.cols)
    requires 0 < c && forall s :: 0 <= s < q ==> prob[sel[s]] != 0.0
    requires (forall t :: 0 <= t < a.cols ==> Get(a, i, t) == 0.0) || (forall t :: 0 <= t < b.rows ==> Get(b, t, j) == 0.0)
    ensures WeightedSum(a, b, prob, sel, c, i, j, q) == 0.0
    decreases q
  {
    if q > 0 {
      WeightedSumOfZero(a, b, prob, sel, c, i, j, q - 1);
      var t := sel[q - 1];
      assert Get(a, i, t) == 0.0 || Get(b, t, j) == 0.0;
      assert Term(a, b, c, prob[t], i, t, j) == 0.0;
    }
  }

  /** Where row `i` of `a` or column `j` of `b` is all zeros, the estimate is
      zero, like the exact product. */
  lemma EstimateVanishes(a: Matrix, b: Matrix, c: nat, sqrt: real -> real, i: nat, j: nat)
    requires Valid(a) && Valid(b) && a.cols == b.rows && c <= a.cols
    requires i < a.rows && j < b.cols && WellWeighted(a, b, c, sqrt)
    requires (forall t :: 0 <= t < a.cols ==> Get(a, i, t) == 0.0) || (forall t :: 0 <= t < b.rows ==> Get(b, t, j) == 0.0)
    ensures Estimate(a, b, c, sqrt, i, j) == 0.0
    ensures Dot(Row(a, i), Column(b, j)) == 0.0
  {
    if c > 0 {
      var prob := Prob(a, b, sqrt);
      WeightedSumOfZero(a, b, prob, Indices(prob, c), c, i, j, c);
    }
    ExactVanishes(a, b, i, j);
  }

  lemma ExactVanishes(a: Matrix, b: Matrix, i: nat, j: nat)
    requires Valid(a) && Valid(b) && a.cols == b.rows && i < a.rows && j < b.cols
    requires (forall t :: 0 <= t < a.cols ==> Get(a, i, t) == 0.0) || (forall t :: 0 <= t < b.rows ==> Get(b, t, j) == 0.0)
    ensures Dot(Row(a, i), Column(b, j)) == 0.0
  {
    if forall t :: 0 <= t < b.rows ==> Get(b, t, j) == 0.0 {
      DotZero(Row(a, i), Column(b, j));
    } else {
      DotZero(Column(b, j), Row(a, i));
      DotSymmetric(Column(b, j), Row(a, i));
    }
  }

  /** Cell `(i, j)` of the estimate keeping `c` terms. */
  function Estimate(a: Matrix, b: Matrix, c: nat, sqrt: real -> real, i: nat, j: nat): real
    requires Valid(a) && Valid(b) && a.cols == b.rows && c <= a.cols
    requires i < a.rows && j < b.cols && WellWeighted(a, b, c, sqrt)
  {
    if c == 0 then 0.0
    else
      var prob := Prob(a, b, sqrt);
      WeightedSum(a, b, prob, Indices(prob, c), c, i, j, c)
  }

  /** One pass of the `i`, `j` loops for a kept position `t`: every cell gains
      `pt · a[i][t] · b[t][j]`. */
  method AddTerm(res: Matrix, a: Matrix, b: Matrix, t: nat, pt: real) returns (r: Matrix)
    requires Valid(res) && Valid(a) && Valid(b) && a.cols == b.rows && t < a.cols
    requires res.rows == a.rows && res.cols == b.cols
    ensures Valid(r) && r.rows == res.rows && r.cols == res.cols
    ensures forall i, j :: 0 <= i < r.rows && 0 <= j < r.cols ==>
              Get(r, i, j) == Get(res, i, j) + pt * Get(a, i, t) * Get(b, t, j)
  {
    var m, p := res.rows, res.cols;
    r := res;
    for i := 0 to m
      invariant Valid(r) && r.rows == m && r.cols == p
      invariant forall i', j :: 0 <= i' < m && 0 <= j < p ==>
                  Get(r, i', j) == Get(res, i', j) + (if i' < i then pt * Get(a, i', t) * Get(b, t, j) else 0.0)
    {
      for j := 0 to p
        invariant Valid(r) && r.rows == m && r.cols == p
        invariant forall i', j' :: 0 <= i' < m && 0 <= j' < p ==>
                    Get(r, i', j') == Get(res, i', j') +
                      (if i' < i || (i' == i && j' < j) then pt * Get(a, i', t) * Get(b, t, j') else 0.0)
      {
        r := Set(r, i, j, Get(r, i, j) + pt * Get(a, i, t) * Get(b, t, j));
      }
    }
  }

  /** The loop over the kept positions `t`, from a zero matrix. */
  method Accumulate(a: Matrix, b: Matrix, prob: seq<real>, sel: seq<nat>, c: nat) returns (res: Matrix)
    requires Valid(a) && Valid(b) && a.cols == b.rows && |prob| == a.cols
    requires |sel| == c && InRange(sel, a.cols)
    requires 0 < c && forall q :: 0 <= q < c ==> prob[sel[q]] != 0.0
    ensures Valid(res) && res.rows == a.rows && res.cols == b.cols
    ensures forall i, j :: 0 <= i < a.rows && 0 <= j < b.cols ==>
              Get(res, i, j) == WeightedSum(a, b, prob, sel, c, i, j, c)
  {
    var m, p := a.rows, b.cols;
    res := Zeroes(m, p);
    for s := 0 to c
      invariant Valid(res) && res.rows == m && res.cols == p
      invariant forall i, j :: 0 <= i < m && 0 <= j < p ==> Get(res, i, j) == WeightedSum(a, b, prob, sel, c, i, j, s)
    {
      var t := sel[s];
      var pt := Rescale(c, prob[t]);
      var prev := res;
      res := AddTerm(res, a, b, t, pt);
      AccumulateStep(a, b, prob, sel, c, prev, res, s);
    }
  }

  /** If every cell held the sum over the first `s` kept positions before
      position `sel[s]`'s term was added, it holds the sum over `s + 1` after. */
  lemma AccumulateStep(a: Matrix, b: Matrix, prob: seq<real>, sel: seq<nat>, c: nat, prev: Matrix, r: Matrix, s: nat)
    requires Valid(a) && Valid(b) && a.cols == b.rows && |prob| == a.cols
    requires s < |sel| && InRange(sel, a.cols)
    requires 0 < c && forall q :: 0 <= q <= s ==> prob[sel[q]] != 0.0
    requires Valid(prev) && prev.rows == a.rows && prev.cols == b.cols
    requires Valid(r) && r.rows == a.rows && r.cols == b.cols
    requires forall i, j :: 0 <= i < a.rows && 0 <= j < b.cols ==>
               Get(prev, i, j) == WeightedSum(a, b, prob, sel, c, i, j, s)
    requires forall i, j :: 0 <= i < a.rows && 0 <= j < b.cols ==>
               Get(r, i, j) == Get(prev, i, j) + Rescale(c, prob[sel[s]]) * Get(a, i, sel[s]) * Get(b, sel[s], j)
    ensures forall i, j :: 0 <= i < a.rows && 0 <= j < b.cols ==>
              Get(r, i, j) == WeightedSum(a, b, prob, sel, c, i, j, s + 1)
  {
    forall i, j | 0 <= i < a.rows && 0 <= j < b.cols
      ensures Get(r, i, j) == WeightedSum(a, b, prob, sel, c, i, j, s + 1)
    {
      WeightedSumStep(a, b, prob, sel, c, i, j, s);
    }
  }

  /** `a.rand_matmul(b, factor)`. The result has shape `(m, p)` and cell
      `(i, j)` is the sum, over the `c` positions `t` of largest weight, of
      `a[i][t] · b[t][j] / (c · prob[t])`. A kept term whose weight is not
      finite makes a non-empty result non-finite. */
  method RandMatMul(a: Matrix, b: Matrix, factor: real, sqrt: real -> real) returns (r: Result<Matrix, NumericError>)
    requires Valid(a) && Valid(b) && a.cols == b.rows
    requires 0.0 <= factor <= 1.0
    ensures r.Failure? <==>
              a.rows > 0 && b.cols > 0 && !WellWeighted(a, b, SketchRank(a.cols, factor), sqrt)
    ensures r.Success? ==> Valid(r.value) && r.value.rows == a.rows && r.value.cols == b.cols
    ensures r.Success? ==> forall i, j :: 0 <= i < a.rows && 0 <= j < b.cols ==>
              Get(r.value, i, j) == Estimate(a, b, SketchRank(a.cols, factor), sqrt, i, j)
  {
    var m, n, p := a.rows, a.cols, b.cols;
    var c := SketchRank(n, factor);
    if m == 0 || p == 0 {
      return Success(Zeroes(m, p));
    }
    if !WellWeighted(a, b, c, sqrt) {
      return Failure(NonFinite);
    }
    if c == 0 {
      return Success(Zeroes(m, p));
    }
    var prob := Prob(a, b, sqrt);
    var res := Accumulate(a, b, prob, Indices(prob, c), c);
    return Success(res);
  }

  /** Keeping every term does not give the exact product: each term is still
      rescaled by `1 / (n · prob[t])`, which is `1` only for uniform weights.
      For `a = [[1, 1]]` and `b = [[3, 4], [1, 0]]` the weights are `5/6` and
      `1/6`, and cell `(0, 0)` of the estimate at `factor = 1` is `24/5`
      where the product has `4`. */
  lemma FullRankNotExact(sqrt: real -> real)
    requires sqrt(1.0) == 1.0 && sqrt(25.0) == 5.0
    ensures var a := Matrix([1.0, 1.0], 1, 2);
      var b := Matrix([3.0, 4.0, 1.0, 0.0], 2, 2);
      && SketchRank(2, 1.0) == 2
      && WellWeighted(a, b, 2, sqrt)
      && Estimate(a, b, 2, sqrt, 0, 0) == 24.0 / 5.0
      && Dot(Row(a, 0), Column(b, 0)) == 4.0
  {
    var a := Matrix([1.0, 1.0], 1, 2);
    var b := Matrix([3.0, 4.0, 1.0, 0.0], 2, 2);
    var prob := ExampleProb(a, b, sqrt);
    var sel := Indices(prob, 2);
    AscendingPair(prob, sel);
    ExampleTerms(a, b, prob, sel);
    ExampleExact(a, b);
  }

  /** The weights of the example. */
  lemma ExampleProb(a: Matrix, b: Matrix, sqrt: real -> real) returns (prob: seq<real>)
    requires a == Matrix([1.0, 1.0], 1, 2) && b == Matrix([3.0, 4.0, 1.0, 0.0], 2, 2)
    requires sqrt(1.0) == 1.0 && sqrt(25.0) == 5.0
    ensures SumNorm(a, b, sqrt) == 6.0
    ensures prob == Prob(a, b, sqrt) && prob == [5.0 / 6.0, 1.0 / 6.0]
  {
    assert Column(a, 0) == [1.0] && Column(a, 1) == [1.0];
    assert Row(b, 0) == [3.0, 4.0] && Row(b, 1) == [1.0, 0.0];
    assert [1.0][1..] == [] && [3.0, 4.0][1..] == [4.0] && [4.0][1..] == [];
    assert [1.0, 0.0][1..] == [0.0] && [0.0][1..] == [];
    assert Dot([1.0], [1.0]) == 1.0;
    assert Dot([3.0, 4.0], [3.0, 4.0]) == 25.0;
    assert Dot([1.0, 0.0], [1.0, 0.0]) == 1.0;
    var an, bn := ColumnNorms(a, sqrt), RowNorms(b, sqrt);
    assert an == [1.0, 1.0] && bn == [5.0, 1.0];
    SumNormIsDot(a, b, sqrt);
    assert [1.0, 1.0][1..] == [1.0] && [5.0, 1.0][1..] == [1.0];
    assert Dot([1.0, 1.0], [5.0, 1.0]) == 6.0;
    prob := Prob(a, b, sqrt);
  }

  /** Two distinct positions in ascending weight, the second weight smaller:
      the order is `[1, 0]`. */
  lemma AscendingPair(prob: seq<real>, sel: seq<nat>)
    requires |prob| == 2 && prob[1] < prob[0]
    requires |sel| == 2 && InRange(sel, 2) && Distinct(sel) && prob[sel[0]] <= prob[sel[1]]
    ensures sel == [1, 0]
  {
  }

  /** The two rescaled terms of cell `(0, 0)` in the example. */
  lemma ExampleTerms(a: Matrix, b: Matrix, prob: seq<real>, sel: seq<nat>)
    requires a == Matrix([1.0, 1.0], 1, 2) && b == Matrix([3.0, 4.0, 1.0, 0.0], 2, 2)
    requires prob == [5.0 / 6.0, 1.0 / 6.0] && sel == [1, 0]
    ensures WeightedSum(a, b, prob, sel, 2, 0, 0, 2) == 24.0 / 5.0
  {
    assert Get(a, 0, 1) == 1.0 && Get(b, 1, 0) == 1.0;
    assert Get(a, 0, 0) == 1.0 && Get(b, 0, 0) == 3.0;
    assert Rescale(2, 1.0 / 6.0) == 3.0;
    assert Rescale(2, 5.0 / 6.0) == 3.0 / 5.0;
    WeightedSumStep(a, b, prob, sel, 2, 0, 0, 0);
    WeightedSumStep(a, b, prob, sel, 2, 0, 0, 1);
  }

  /** The exact cell `(0, 0)` of the example product. */
  lemma ExampleExact(a: Matrix, b: Matrix)
    requires a == Matrix([1.0, 1.0], 1, 2) && b == Matrix([3.0, 4.0, 1.0, 0.0], 2, 2)
    ensures Dot(Row(a, 0), Column(b, 0)) == 4.0
  {
    assert Row(a, 0) == [1.0, 1.0] && Column(b, 0) == [3.0, 1.0];
    assert [1.0, 1.0][1..] == [1.0] && [3.0, 1.0][1..] == [1.0] && [1.0][1..] == [];
    assert Dot([1.0], [1.0]) == 1.0;
  }
}
