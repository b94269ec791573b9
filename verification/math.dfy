/** Scalar building blocks shared by the matrix and convolution kernels:
    the zip-truncating inner product, its reference sum, norms and ceilings.
    Element values are idealised `f32` as `real`. */
module Math {

  function Min(a: nat, b: nat): nat
  {
    if a <= b then a else b
  }

  /** Reference sum `Σ_{i < |x|} x[i] * y[i]` of two sequences of equal length. */
  function Dot(x: seq<real>, y: seq<real>): real
    requires |x| == |y|
    decreases |x|
  {
    if |x| == 0 then 0.0 else x[0] * y[0] + Dot(x[1..], y[1..])
  }

  /** `inner_product(x, y, init)`: a left fold over `x.iter().zip(y)`, which
      stops at the end of the shorter argument. The result is the seed plus
      the reference sum over the common prefix. */
  function InnerProduct(x: seq<real>, y: seq<real>, init: real): (r: real)
    ensures r == init + Dot(x[..Min(|x|, |y|)], y[..Min(|x|, |y|)])
    decreases |x|
  {
    if |x| == 0 || |y| == 0 then init
    else
      var n := Min(|x|, |y|);
      assert x[..n][1..] == x[1..][..n - 1];
      assert y[..n][1..] == y[1..][..n - 1];
      InnerProduct(x[1..], y[1..], init + x[0] * y[0])
  }

  /** With an empty argument the fold never runs and returns its seed. */
  lemma InnerProductOfEmpty(x: seq<real>, y: seq<real>, init: real)
    requires |x| == 0 || |y| == 0
    ensures InnerProduct(x, y, init) == init
  {
  }

  /** Elements of the longer argument past the shorter one's end are never read. */
  lemma InnerProductTruncates(x: seq<real>, y: seq<real>, init: real)
    ensures InnerProduct(x, y, init)
            == InnerProduct(x[..Min(|x|, |y|)], y[..Min(|x|, |y|)], init)
  {
    var n := Min(|x|, |y|);
    assert x[..n][..n] == x[..n];
    assert y[..n][..n] == y[..n];
  }

  /** The seed passes through the fold additively. */
  lemma InnerProductSeed(x: seq<real>, y: seq<real>, init: real)
    ensures InnerProduct(x, y, init) == init + InnerProduct(x, y, 0.0)
  {
  }

  /** Appending one term to the reference sum. */
  lemma {:induction false} DotSnoc(x: seq<real>, y: seq<real>, u: real, v: real)
    requires |x| == |y|
    ensures Dot(x + [u], y + [v]) == Dot(x, y) + u * v
    decreases |x|
  {
    if |x| == 0 {
      assert x + [u] == [u];
      assert y + [v] == [v];
    } else {
      assert (x + [u])[1..] == x[1..] + [u];
      assert (y + [v])[1..] == y[1..] + [v];
      DotSnoc(x[1..], y[1..], u, v);
    }
  }

  /** The sum over a longer common prefix adds the next product. */
  lemma DotPrefix(x: seq<real>, y: seq<real>, k: nat)
    requires 0 < k <= |x| && |x| == |y|
    ensures Dot(x[..k], y[..k]) == Dot(x[..k - 1], y[..k - 1]) + x[k - 1] * y[k - 1]
  {
    assert x[..k] == x[..k - 1] + [x[k - 1]];
    assert y[..k] == y[..k - 1] + [y[k - 1]];
    DotSnoc(x[..k - 1], y[..k - 1], x[k - 1], y[k - 1]);
  }

  /** A running sum over the first `k - 1` pairs plus the `k`-th product is
      the sum over the first `k`. */
  lemma DotExtend(x: seq<real>, y: seq<real>, k: nat, prev: real, u: real, v: real)
    requires 0 < k <= |x| && |x| == |y|
    requires prev == Dot(x[..k - 1], y[..k - 1]) && u == x[k - 1] && v == y[k - 1]
    ensures prev + u * v == Dot(x[..k], y[..k])
  {
    DotPrefix(x, y, k);
  }

  /** `Σ_{t < k} x[t] * y[t]`, accumulated front to back as a loop does. */
  function PrefixDot(x: seq<real>, y: seq<real>, k: nat): real
    requires k <= |x| && |x| == |y|
  {
    if k == 0 then 0.0 else PrefixDot(x, y, k - 1) + x[k - 1] * y[k - 1]
  }

  /** The running sum after `k` steps is the reference sum over the first `k`
      pairs. */
  lemma {:induction false} PrefixDotIsDot(x: seq<real>, y: seq<real>, k: nat)
    requires k <= |x| && |x| == |y|
    ensures PrefixDot(x, y, k) == Dot(x[..k], y[..k])
  {
    if k == 0 {
      assert x[..k] == [] && y[..k] == [];
    } else {
      PrefixDotIsDot(x, y, k - 1);
      DotExtend(x, y, k, PrefixDot(x, y, k - 1), x[k - 1], y[k - 1]);
    }
  }

  /** One more step of the left fold adds one more product. */
  lemma InnerProductStep(x: seq<real>, y: seq<real>, u: real, v: real, init: real)
    requires |x| == |y|
    ensures InnerProduct(x + [u], y + [v], init) == InnerProduct(x, y, init) + u * v
  {
    assert (x + [u])[..|x| + 1] == x + [u];
    assert (y + [v])[..|y| + 1] == y + [v];
    assert x[..|x|] == x;
    assert y[..|y|] == y;
    DotSnoc(x, y, u, v);
  }

  lemma {:induction false} DotSymmetric(x: seq<real>, y: seq<real>)
    requires |x| == |y|
    ensures Dot(x, y) == Dot(y, x)
    decreases |x|
  {
    if |x| > 0 {
      DotSymmetric(x[1..], y[1..]);
    }
  }

  /** Over the reals the inner product does not depend on argument order. */
  lemma InnerProductSymmetric(x: seq<real>, y: seq<real>, init: real)
    ensures InnerProduct(x, y, init) == InnerProduct(y, x, init)
  {
    var n := Min(|x|, |y|);
    DotSymmetric(x[..n], y[..n]);
  }

  /** A sum against all-zero weights vanishes. */
  lemma {:induction false} DotZero(x: seq<real>, z: seq<real>)
    requires |x| == |z|
    requires forall k :: 0 <= k < |z| ==> z[k] == 0.0
    ensures Dot(x, z) == 0.0
    decreases |x|
  {
    if |x| > 0 {
      DotZero(x[1..], z[1..]);
    }
  }

  /** A sum of products of non-negative numbers is non-negative. */
  lemma {:induction false} DotNonNegative(x: seq<real>, y: seq<real>)
    requires |x| == |y|
    requires forall k :: 0 <= k < |x| ==> 0.0 <= x[k] && 0.0 <= y[k]
    ensures 0.0 <= Dot(x, y)
    decreases |x|
  {
    if |x| > 0 {
      DotNonNegative(x[1..], y[1..]);
      assert 0.0 <= x[0] * y[0];
    }
  }

  /** A sum of squares is non-negative. */
  lemma {:induction false} DotSelfNonNegative(x: seq<real>)
    ensures 0.0 <= Dot(x, x)
    decreases |x|
  {
    if |x| > 0 {
      DotSelfNonNegative(x[1..]);
      assert 0.0 <= x[0] * x[0];
    }
  }

  /** `iter().sum()` over reals. */
  function Sum(s: seq<real>): real
    decreases |s|
  {
    if |s| == 0 then 0.0 else s[0] + Sum(s[1..])
  }

  /** Every `p[k]` is the product `x[k] * y[k]` divided by `total`. */
  predicate Normalised(p: seq<real>, x: seq<real>, y: seq<real>, total: real)
  {
    |p| == |x| == |y| && forall k :: 0 <= k < |p| ==> p[k] * total == x[k] * y[k]
  }

  /** Dividing every product by the same total divides their sum by it. */
  lemma {:induction false} SumOfQuotients(p: seq<real>, x: seq<real>, y: seq<real>, total: real)
    requires Normalised(p, x, y, total)
    ensures Sum(p) * total == Dot(x, y)
    decreases |p|
  {
    if |p| > 0 {
      NormalisedTail(p, x, y, total);
      SumOfQuotients(p[1..], x[1..], y[1..], total);
      assert (p[0] + Sum(p[1..])) * total == p[0] * total + Sum(p[1..]) * total;
    }
  }

  lemma NormalisedTail(p: seq<real>, x: seq<real>, y: seq<real>, total: real)
    requires Normalised(p, x, y, total) && 0 < |p|
    ensures Normalised(p[1..], x[1..], y[1..], total)
    ensures p[0] * total == x[0] * y[0]
  {
    forall k | 0 <= k < |p| - 1
      ensures p[1..][k] * total == x[1..][k] * y[1..][k]
    {
      assert p[k + 1] * total == x[k + 1] * y[k + 1];
    }
  }

  /** The Euclidean norm `sqrt(Σ s[k]^2)`, with the square root left abstract. */
  function Norm(s: seq<real>, sqrt: real -> real): real
  {
    sqrt(Dot(s, s))
  }

  /** The only fact about the square root the kernels rely on. */
  ghost predicate NonNegativeRoot(sqrt: real -> real)
  {
    forall v: real :: 0.0 <= v ==> 0.0 <= sqrt(v)
  }

  lemma NormNonNegative(s: seq<real>, sqrt: real -> real)
    requires NonNegativeRoot(sqrt)
    ensures 0.0 <= Norm(s, sqrt)
  {
    DotSelfNonNegative(s);
  }

  /** A square root that squares back to its argument, as `f32::sqrt` does
      when rounding is ignored. */
  ghost predicate ExactRoot(sqrt: real -> real)
  {
    forall v: real :: 0.0 <= v ==> 0.0 <= sqrt(v) && sqrt(v) * sqrt(v) == v
  }

  lemma PositiveProduct(a: real, b: real, s: real)
    requires 0.0 < a && 0.0 < b && s == a * b
    ensures 0.0 < s
  {
  }

  /** A product vanishes exactly when one of its factors does. */
  lemma ProductZero(x: real, y: real, s: real)
    requires s == x * y
    ensures s == 0.0 <==> x == 0.0 || y == 0.0
  {
    if x != 0.0 && y != 0.0 {
      var ax, ay := if x < 0.0 then -x else x, if y < 0.0 then -y else y;
      var sa := ax * ay;
      PositiveProduct(ax, ay, sa);
      assert sa == s || sa == -s;
    }
  }

  /** The square `s` of a non-zero real is positive. */
  lemma SquareOf(u: real, s: real)
    requires s == u * u && u != 0.0
    ensures 0.0 < s
  {
    if u > 0.0 {
      PositiveProduct(u, u, s);
    } else {
      var v := -u;
      assert s == v * v;
      PositiveProduct(v, v, s);
    }
  }

  /** A square `s` of `h` plus a non-negative `d` is zero exactly when both
      `h` and `d` are. */
  lemma SumWithSquare(h: real, s: real, d: real)
    requires s == h * h && 0.0 <= d
    ensures s + d == 0.0 <==> h == 0.0 && d == 0.0
  {
    if h != 0.0 {
      SquareOf(h, s);
    }
  }

  /** An exact root vanishes only at zero. */
  lemma RootZero(sqrt: real -> real, v: real)
    requires ExactRoot(sqrt) && 0.0 <= v
    ensures sqrt(v) == 0.0 <==> v == 0.0
  {
    var r := sqrt(v);
    assert 0.0 <= r && r * r == v;
    SumWithSquare(r, v, 0.0);
  }

  /** A sum of squares vanishes exactly when every term does. */
  lemma {:induction false} DotSelfZero(x: seq<real>)
    ensures Dot(x, x) == 0.0 <==> forall k :: 0 <= k < |x| ==> x[k] == 0.0
    decreases |x|
  {
    if |x| > 0 {
      var t := x[1..];
      var head, rest := x[0] * x[0], Dot(t, t);
      assert Dot(x, x) == head + rest;
      DotSelfNonNegative(t);
      SumWithSquare(x[0], head, rest);
      DotSelfZero(t);
      assert forall k :: 0 <= k < |t| ==> t[k] == x[k + 1];
    }
  }

  /** With an exact root, a norm is non-negative and is zero exactly for an
      all-zero vector. */
  lemma NormZero(s: seq<real>, sqrt: real -> real)
    requires ExactRoot(sqrt)
    ensures 0.0 <= Norm(s, sqrt)
    ensures Norm(s, sqrt) == 0.0 <==> forall k :: 0 <= k < |s| ==> s[k] == 0.0
  {
    DotSelfNonNegative(s);
    DotSelfZero(s);
    RootZero(sqrt, Dot(s, s));
  }

  /** `ceil` on an idealised float: the least integer not below `x`. */
  function Ceil(x: real): (r: int)
    ensures x <= r as real < x + 1.0
  {
    -((-x).Floor)
  }

  lemma CeilMonotone(x: real, y: real)
    requires x <= y
    ensures Ceil(x) <= Ceil(y)
  {
    var cx, cy := Ceil(x), Ceil(y);
    assert (cx as real) < (cy as real) + 1.0;
  }
}
