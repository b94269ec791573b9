/** Ordering the positions `0..n` of a weight vector by weight: the sort inside
    `indices` (ascending, then the last `c` positions are kept) and the
    `std::iota` + `std::stable_sort` of the C++ dense layer (descending,
    ties in ascending index order). */
module Selection {

  /** `0, 1, ..., n - 1`, as produced by `(0..n).collect()` or `std::iota`. */
  function Range(n: nat): (r: seq<nat>)
    ensures |r| == n && forall q :: 0 <= q < n ==> r[q] == q
  {
    seq(n, q requires 0 <= q < n => q)
  }

  predicate InRange(s: seq<nat>, n: nat)
  {
    forall q :: 0 <= q < |s| ==> s[q] < n
  }

  predicate Distinct(s: seq<nat>)
  {
    forall a, b :: 0 <= a < b < |s| ==> s[a] != s[b]
  }

  /** Position `i` is placed strictly before position `j`: by key (larger first
      when `descending`, smaller first otherwise), and on equal keys by index.
      This is a strict total order on positions. */
  predicate Precedes(key: seq<real>, descending: bool, i: nat, j: nat)
    requires i < |key| && j < |key|
  {
    if key[i] == key[j] then i < j
    else if descending then key[i] > key[j]
    else key[i] < key[j]
  }

  /** `Precedes` is a strict total order: no position precedes itself, it is
      transitive, and of two distinct positions exactly one precedes the
      other. */
  lemma PrecedesIsStrictOrder(key: seq<real>, descending: bool, i: nat, j: nat, k: nat)
    requires i < |key| && j < |key| && k < |key|
    ensures !Precedes(key, descending, i, i)
    ensures i != j ==> (Precedes(key, descending, i, j) <==> !Precedes(key, descending, j, i))
    ensures Precedes(key, descending, i, j) && Precedes(key, descending, j, k) ==> Precedes(key, descending, i, k)
  {
  }

  predicate Ordered(key: seq<real>, descending: bool, s: seq<nat>)
    requires InRange(s, |key|)
  {
    forall a, b :: 0 <= a < b < |s| ==> Precedes(key, descending, s[a], s[b])
  }

  /** Appending a position that every element precedes keeps the order. */
  lemma AppendOrdered(key: seq<real>, descending: bool, s: seq<nat>, k: nat)
    requires InRange(s, |key|) && k < |key| && Ordered(key, descending, s)
    requires forall a :: 0 <= a < |s| ==> Precedes(key, descending, s[a], k)
    ensures InRange(s + [k], |key|) && Ordered(key, descending, s + [k])
  {
    var r := s + [k];
    forall a, b | 0 <= a < b < |r|
      ensures Precedes(key, descending, r[a], r[b])
    {
      if b < |s| {
        assert r[a] == s[a] && r[b] == s[b];
      }
    }
  }

  /** In an ordered sequence whose last element precedes `k`, every element does. */
  lemma PrecedesThroughLast(key: seq<real>, descending: bool, s: seq<nat>, k: nat)
    requires InRange(s, |key|) && k < |key| && Ordered(key, descending, s)
    requires |s| > 0 && Precedes(key, descending, s[|s| - 1], k)
    ensures forall a :: 0 <= a < |s| ==> Precedes(key, descending, s[a], k)
  {
    forall a | 0 <= a < |s| - 1
      ensures Precedes(key, descending, s[a], k)
    {
      assert Precedes(key, descending, s[a], s[|s| - 1]);
    }
  }

  /** When `k` does not go after the last element `last`, everything built
      from the other elements and `k` precedes `last`. */
  lemma PrecedesLast(key: seq<real>, descending: bool, s: seq<nat>, k: nat, rest: seq<nat>)
    requires InRange(s, |key|) && k < |key| && k !in s && Ordered(key, descending, s)
    requires |s| > 0 && !Precedes(key, descending, s[|s| - 1], k)
    requires multiset(rest) == multiset(s[..|s| - 1]) + multiset{k}
    ensures forall a :: 0 <= a < |rest| ==> rest[a] < |key| && Precedes(key, descending, rest[a], s[|s| - 1])
  {
    var last := s[|s| - 1];
    var prefix := s[..|s| - 1];
    forall a | 0 <= a < |rest|
      ensures rest[a] < |key| && Precedes(key, descending, rest[a], last)
    {
      assert rest[a] in multiset(rest);
      if rest[a] != k {
        assert rest[a] in multiset(prefix);
        var b :| 0 <= b < |prefix| && prefix[b] == rest[a];
        assert s[b] == rest[a];
      } else {
        assert last != k;
      }
    }
  }

  /** Insertion of one more position into an ordered sequence: it goes after
      every position that precedes it. */
  function Insert(key: seq<real>, descending: bool, s: seq<nat>, k: nat): (r: seq<nat>)
    requires InRange(s, |key|) && k < |key| && k !in s
    requires Ordered(key, descending, s)
    ensures |r| == |s| + 1
    ensures InRange(r, |key|) && multiset(r) == multiset(s) + multiset{k}
    ensures Ordered(key, descending, r)
    decreases |s|
  {
    if |s| == 0 then
      [k]
    else if Precedes(key, descending, s[|s| - 1], k) then
      PrecedesThroughLast(key, descending, s, k);
      AppendOrdered(key, descending, s, k);
      s + [k]
    else
      var last := s[|s| - 1];
      var prefix := s[..|s| - 1];
      assert s == prefix + [last];
      var rest := Insert(key, descending, prefix, k);
      PrecedesLast(key, descending, s, k, rest);
      AppendOrdered(key, descending, rest, last);
      rest + [last]
  }

  /** Stable insertion sort of a sequence of distinct positions. */
  function Sort(key: seq<real>, descending: bool, s: seq<nat>): (r: seq<nat>)
    requires InRange(s, |key|) && Distinct(s)
    ensures |r| == |s|
    ensures InRange(r, |key|) && multiset(r) == multiset(s)
    ensures Ordered(key, descending, r)
    decreases |s|
  {
    if |s| == 0 then []
    else
      var prefix := s[..|s| - 1];
      assert s == prefix + [s[|s| - 1]];
      var sorted := Sort(key, descending, prefix);
      assert s[|s| - 1] !in multiset(sorted);
      Insert(key, descending, sorted, s[|s| - 1])
  }

  /** A sequence ordered by the strict order has no repeated position. */
  lemma OrderedIsDistinct(key: seq<real>, descending: bool, s: seq<nat>)
    requires InRange(s, |key|) && Ordered(key, descending, s)
    ensures Distinct(s)
  {
    forall a, b | 0 <= a < b < |s|
      ensures s[a] != s[b]
    {
      assert Precedes(key, descending, s[a], s[b]);
    }
  }

  /** A permutation of `0..n` contains every position below `n`. */
  lemma PermutationContains(s: seq<nat>, n: nat, u: nat)
    requires multiset(s) == multiset(Range(n)) && u < n
    ensures u in s
  {
    assert Range(n)[u] == u;
    assert u in multiset(Range(n));
  }

  /** `iota` followed by `stable_sort` with `prob[i] > prob[j]`: a permutation of
      `0..n` with non-increasing weight, equal weights in ascending index order. */
  function StableOrder(key: seq<real>): (r: seq<nat>)
    ensures |r| == |key| && InRange(r, |key|)
    ensures multiset(r) == multiset(Range(|key|))
    ensures forall a, b :: 0 <= a < b < |r| ==> key[r[a]] >= key[r[b]]
    ensures forall a, b :: 0 <= a < b < |r| && key[r[a]] == key[r[b]] ==> r[a] < r[b]
  {
    var r := Sort(key, true, Range(|key|));
    assert forall a, b :: 0 <= a < b < |r| ==> Precedes(key, true, r[a], r[b]);
    r
  }

  /** Every position left out of an ordered suffix precedes every kept one. */
  lemma SuffixDominates(key: seq<real>, descending: bool, s: seq<nat>, start: nat, u: nat, t: nat)
    requires InRange(s, |key|) && Ordered(key, descending, s)
    requires start <= t < |s| && u in s && u !in s[start..]
    ensures u < |key| && Precedes(key, descending, u, s[t])
  {
    var pos :| 0 <= pos < |s| && s[pos] == u;
  }

  /** The last `c` positions of an ascending order of `0..n` are `c` distinct
      positions, ascending in weight, that no position left out outweighs. */
  lemma TopSuffix(x: seq<real>, sorted: seq<nat>, c: nat)
    requires |sorted| == |x| && c <= |x| && InRange(sorted, |x|)
    requires multiset(sorted) == multiset(Range(|x|)) && Ordered(x, false, sorted)
    ensures var r := sorted[|x| - c..];
      && InRange(r, |x|) && Distinct(r)
      && (forall a, b :: 0 <= a < b < c ==> x[r[a]] <= x[r[b]])
      && (forall t, u :: 0 <= t < c && 0 <= u < |x| && u !in r ==> x[u] <= x[r[t]])
  {
    var n := |x|;
    var r := sorted[n - c..];
    OrderedIsDistinct(x, false, sorted);
    forall a, b | 0 <= a < b < c
      ensures r[a] != r[b] && x[r[a]] <= x[r[b]]
    {
      assert r[a] == sorted[n - c + a] && r[b] == sorted[n - c + b];
      assert Precedes(x, false, sorted[n - c + a], sorted[n - c + b]);
    }
    forall t, u | 0 <= t < c && 0 <= u < n && u !in r
      ensures x[u] <= x[r[t]]
    {
      PermutationContains(sorted, n, u);
      SuffixDominates(x, false, sorted, n - c, u, n - c + t);
    }
  }

  /** `indices(x, c)`: sort the positions by ascending weight and keep the last
      `c`. The result holds `c` distinct positions below `n`, in ascending
      weight, and no position left out weighs more than one kept. `c == n` keeps
      a permutation of `0..n`. */
  function Indices(x: seq<real>, c: nat): (r: seq<nat>)
    requires c <= |x|
    ensures |r| == c && InRange(r, |x|) && Distinct(r)
    ensures forall a, b :: 0 <= a < b < c ==> x[r[a]] <= x[r[b]]
    ensures forall t, u :: 0 <= t < c && 0 <= u < |x| && u !in r ==> x[u] <= x[r[t]]
    ensures c == |x| ==> multiset(r) == multiset(Range(|x|))
  {
    var sorted := Sort(x, false, Range(|x|));
    TopSuffix(x, sorted, c);
    assert c == |x| ==> sorted[|x| - c..] == sorted;
    sorted[|x| - c..]
  }
}
