/** Perforated convolution: only the positions a pseudo-random mask marks are
    computed, and every other output copies the value at the nearest marked
    position. The draws of the generator are an abstract input `u`. */
module Perforation {
  import opened Wrappers
  import opened Math
  import opened Conv

  function Distance(a: nat, b: nat): nat
  {
    if a <= b then b - a else a - b
  }

  /** `j` is the answer the nearest-neighbour search owes: another position
      holding `value`, no farther from `index` than any other such position,
      and on a tie the one to the left. */
  predicate IsNearest<T(==)>(arr: seq<T>, index: nat, value: T, j: nat)
  {
    && j < |arr| && j != index && arr[j] == value
    && forall k :: 0 <= k < |arr| && k != index && arr[k] == value ==>
         Distance(index, j) < Distance(index, k) || (Distance(index, j) == Distance(index, k) && j <= k)
  }

  /** At most one position is the nearest one. */
  lemma NearestUnique<T>(arr: seq<T>, index: nat, value: T, j1: nat, j2: nat)
    requires IsNearest(arr, index, value, j1) && IsNearest(arr, index, value, j2)
    ensures j1 == j2
  {
  }

  /** `find_index_of_nearest_neighbor(arr, index, value)`: probe `index - 1`,
      `index + 1`, `index - 2`, `index + 2`, ... skipping the sides that have
      run off the array. The answer is the nearest other position holding
      `value`, the left one on a tie, and `None` exactly when no other
      position holds it. `arr.len() - 1` would wrap on an empty array. */
  method FindNearest<T(==)>(arr: seq<T>, index: nat, value: T) returns (r: Option<nat>)
    requires 0 < |arr| && index < |arr|
    ensures r.Some? ==> IsNearest(arr, index, value, r.value)
    ensures r.None? <==> forall k :: 0 <= k < |arr| && k != index ==> arr[k] != value
  {
    var left, right := index, index;
    ghost var d: nat := 0;
    while left > 0 || right < |arr| - 1
      invariant left <= index <= right < |arr|
      invariant left == if d <= index then index - d else 0
      invariant right == if index + d < |arr| then index + d else |arr| - 1
      invariant forall k :: left <= k <= right && k != index ==> arr[k] != value
      decreases left + (|arr| - 1 - right)
    {
      if left > 0 {
        if arr[left - 1] == value {
          forall k | 0 <= k < |arr| && k != index && arr[k] == value
            ensures Distance(index, left - 1) < Distance(index, k) ||
                    (Distance(index, left - 1) == Distance(index, k) && left - 1 <= k)
          {
          }
          return Some(left - 1);
        }
        left := left - 1;
      }
      if right < |arr| - 1 {
        if arr[right + 1] == value {
          forall k | 0 <= k < |arr| && k != index && arr[k] == value
            ensures Distance(index, right + 1) <= Distance(index, k)
          {
          }
          return Some(right + 1);
        }
        right := right + 1;
      }
      d := d + 1;
    }
    return None;
  }

  /** The draws of the uniform generator on `[0, 1)`. */
  ghost predicate UnitDraws(u: nat -> real)
  {
    forall i: nat :: 0.0 <= u(i) < 1.0
  }

  /** Draw `i` of the mask generator, `ceil(1.5 * (i + u_i))`. It is at least `i`,
      so the generation always ends. */
  function Draw(u: nat -> real, i: nat): (a: nat)
    requires UnitDraws(u)
    ensures i <= a
  {
    var x := 1.5 * (i as real + u(i));
    assert i as real <= x;
    Ceil(x)
  }

  /** The number of draws the generator keeps: draws `i, i + 1, ...` are kept
      up to, not including, the first one that is not below `length`. */
  function Stop(u: nat -> real, length: nat, i: nat): (s: nat)
    requires UnitDraws(u)
    requires i <= length
    ensures i <= s <= length && length <= Draw(u, s)
    ensures forall k :: i <= k < s ==> Draw(u, k) < length
    decreases length - i
  {
    if length <= Draw(u, i) then i else Stop(u, length, i + 1)
  }

  /** The marking loop from draw `i` on, over the mask built so far. */
  function MaskFrom(u: nat -> real, length: nat, i: nat, m: seq<bool>): (r: seq<bool>)
    requires UnitDraws(u)
    requires i <= length && |m| == length
    ensures |r| == length
    ensures forall a :: 0 <= a < length ==>
              (r[a] <==> m[a] || exists k :: i <= k < Stop(u, length, i) && Draw(u, k) == a)
    decreases length - i
  {
    if length <= Draw(u, i) then m
    else
      var r := MaskFrom(u, length, i + 1, m[Draw(u, i) := true]);
      assert forall a :: 0 <= a < length && a == Draw(u, i) ==> r[a];
      r
  }

  /** The mask of `pseudo_mask(length)`: position `a` is marked exactly when
      some draw kept before the first draw out of range equals `a`. */
  function PseudoMask(u: nat -> real, length: nat): (r: seq<bool>)
    requires UnitDraws(u)
    ensures |r| == length
    ensures forall a :: 0 <= a < length ==>
              (r[a] <==> exists k :: 0 <= k < Stop(u, length, 0) && Draw(u, k) == a)
  {
    MaskFrom(u, length, 0, seq(length, _ => false))
  }

  /** The unmarked positions below `n`, in ascending order. */
  function Unmarked(mask: seq<bool>, n: nat): (r: seq<nat>)
    requires n <= |mask|
    ensures forall q :: 0 <= q < |r| ==> r[q] < n && !mask[r[q]]
    ensures forall q1, q2 :: 0 <= q1 < q2 < |r| ==> r[q1] < r[q2]
    ensures forall i :: 0 <= i < n && !mask[i] ==> i in r
  {
    if n == 0 then []
    else if mask[n - 1] then Unmarked(mask, n - 1)
    else Unmarked(mask, n - 1) + [n - 1]
  }

  /** `neighbors` is the list the mask's owner builds: each unmarked position,
      in ascending order, paired with its nearest marked position. */
  predicate NeighborList(mask: seq<bool>, neighbors: seq<(nat, nat)>)
  {
    NeighborsUpTo(mask, neighbors, |mask|)
  }

  /** `neighbors` pairs the unmarked positions below `n`, in ascending order,
      with their nearest marked positions. */
  predicate NeighborsUpTo(mask: seq<bool>, neighbors: seq<(nat, nat)>, n: nat)
    requires n <= |mask|
  {
    && |neighbors| == |Unmarked(mask, n)|
    && forall q :: 0 <= q < |neighbors| ==>
         neighbors[q].0 == Unmarked(mask, n)[q] && IsNearest(mask, neighbors[q].0, true, neighbors[q].1)
  }

  /** Position `i` extends the list when it is unmarked and leaves it alone
      otherwise. */
  lemma NeighborsStep(mask: seq<bool>, neighbors: seq<(nat, nat)>, i: nat, nearest: nat)
    requires i < |mask| && NeighborsUpTo(mask, neighbors, i)
    requires !mask[i] ==> IsNearest(mask, i, true, nearest)
    ensures NeighborsUpTo(mask, if mask[i] then neighbors else neighbors + [(i, nearest)], i + 1)
  {
    var u, u' := Unmarked(mask, i), Unmarked(mask, i + 1);
    if mask[i] {
      assert u' == u;
    } else {
      assert u' == u + [i];
      var l := neighbors + [(i, nearest)];
      forall q | 0 <= q < |l|
        ensures l[q].0 == u'[q] && IsNearest(mask, l[q].0, true, l[q].1)
      {
        if q < |neighbors| {
          assert l[q] == neighbors[q] && u'[q] == u[q];
        } else {
          assert l[q] == (i, nearest) && u'[q] == i;
        }
      }
    }
  }

  /** Why the neighbour list cannot be built: `unwrap()` on a missing
      neighbour, which happens when no position is marked. */
  datatype MaskError = DegenerateMask

  /** The `neighbors` half of `pseudo_mask`: for every unmarked position, in
      ascending order, the nearest marked one. It fails exactly when the mask
      is non-empty and marks nothing. */
  method Neighbors(mask: seq<bool>) returns (r: Result<seq<(nat, nat)>, MaskError>)
    ensures r.Failure? <==> 0 < |mask| && forall i :: 0 <= i < |mask| ==> !mask[i]
    ensures r.Success? ==> NeighborList(mask, r.value)
  {
    var list: seq<(nat, nat)> := [];
    ghost var marked: nat := 0;
    for i: nat := 0 to |mask|
      invariant NeighborsUpTo(mask, list, i)
      invariant 0 < i ==> marked < |mask| && mask[marked]
    {
      if mask[i] {
        NeighborsStep(mask, list, i, 0);
        marked := i;
      } else {
        var nearest := FindNearest(mask, i, true);
        if nearest.None? {
          return Failure(DegenerateMask);
        }
        NeighborsStep(mask, list, i, nearest.value);
        list := list + [(i, nearest.value)];
        marked := nearest.value;
      }
    }
    return Success(list);
  }

  /** The output before the copies: exact values at marked positions and a
      placeholder zero elsewhere. */
  function Placeholder(exact: seq<real>, mask: seq<bool>): (r: seq<real>)
    requires |mask| == |exact|
    ensures |r| == |exact|
    ensures forall i :: 0 <= i < |r| ==> r[i] == if mask[i] then exact[i] else 0.0
  {
    seq(|exact|, i requires 0 <= i < |exact| => if mask[i] then exact[i] else 0.0)
  }

  /** `for &(i, j) in neighbors { output[i] = output[j] }`. */
  function CopyNeighbors(out: seq<real>, neighbors: seq<(nat, nat)>): (r: seq<real>)
    requires forall q :: 0 <= q < |neighbors| ==> neighbors[q].0 < |out| && neighbors[q].1 < |out|
    ensures |r| == |out|
    decreases |neighbors|
  {
    if |neighbors| == 0 then out
    else CopyNeighbors(out[neighbors[0].0 := out[neighbors[0].1]], neighbors[1..])
  }

  /** Whatever the pairs, a position no pair writes keeps its value. */
  lemma {:induction false} CopyNeighborsKeeps(out: seq<real>, neighbors: seq<(nat, nat)>, i: nat)
    requires forall q :: 0 <= q < |neighbors| ==> neighbors[q].0 < |out| && neighbors[q].1 < |out|
    requires i < |out| && forall q :: 0 <= q < |neighbors| ==> neighbors[q].0 != i
    ensures CopyNeighbors(out, neighbors)[i] == out[i]
    decreases |neighbors|
  {
    if |neighbors| > 0 {
      var rest := neighbors[1..];
      assert forall q :: 0 <= q < |rest| ==> rest[q] == neighbors[q + 1];
      CopyNeighborsKeeps(out[neighbors[0].0 := out[neighbors[0].1]], rest, i);
    }
  }

  /** No position is written twice and no position read is ever written. */
  predicate IndependentCopies(neighbors: seq<(nat, nat)>)
  {
    && (forall q1, q2 :: 0 <= q1 < q2 < |neighbors| ==> neighbors[q1].0 != neighbors[q2].0)
    && (forall q1, q2 :: 0 <= q1 < |neighbors| && 0 <= q2 < |neighbors| ==> neighbors[q1].1 != neighbors[q2].0)
  }

  /** For independent copies, each written position ends with the value its
      source had at the start, and every other position is unchanged. */
  lemma {:induction false} CopyNeighborsCells(out: seq<real>, neighbors: seq<(nat, nat)>)
    requires forall q :: 0 <= q < |neighbors| ==> neighbors[q].0 < |out| && neighbors[q].1 < |out|
    requires IndependentCopies(neighbors)
    ensures forall q :: 0 <= q < |neighbors| ==> CopyNeighbors(out, neighbors)[neighbors[q].0] == out[neighbors[q].1]
    ensures forall i :: 0 <= i < |out| && (forall q :: 0 <= q < |neighbors| ==> neighbors[q].0 != i) ==>
              CopyNeighbors(out, neighbors)[i] == out[i]
    decreases |neighbors|
  {
    if |neighbors| > 0 {
      var i0, j0 := neighbors[0].0, neighbors[0].1;
      var next := out[i0 := out[j0]];
      var rest := neighbors[1..];
      assert forall q :: 0 <= q < |rest| ==> rest[q] == neighbors[q + 1];
      CopyNeighborsCells(next, rest);
      var r := CopyNeighbors(out, neighbors);
      assert r == CopyNeighbors(next, rest);
      forall q | 0 <= q < |neighbors|
        ensures r[neighbors[q].0] == out[neighbors[q].1]
      {
        if q == 0 {
          assert forall q' :: 0 <= q' < |rest| ==> rest[q'].0 != i0;
        } else {
          assert neighbors[q] == rest[q - 1];
          assert neighbors[q].1 != i0;
        }
      }
    }
  }

  /** The perforated output for a given exact output, mask and neighbour list:
      a marked position keeps its exact value and an unmarked one holds the
      exact value of its nearest marked position. No copy reads a position
      another copy writes, because every source is marked. */
  function PerforatedOutput(exact: seq<real>, mask: seq<bool>, neighbors: seq<(nat, nat)>): (r: seq<real>)
    requires |mask| == |exact| && NeighborList(mask, neighbors)
    ensures |r| == |exact|
    ensures forall i :: 0 <= i < |r| && mask[i] ==> r[i] == exact[i]
    ensures forall i :: 0 <= i < |r| && !mask[i] ==>
              exists j: nat :: IsNearest(mask, i, true, j) && r[i] == exact[j]
  {
    var start := Placeholder(exact, mask);
    var r := CopyNeighbors(start, neighbors);
    var unmarked := Unmarked(mask, |mask|);
    assert IndependentCopies(neighbors);
    CopyNeighborsCells(start, neighbors);
    assert forall i :: 0 <= i < |r| && mask[i] ==> r[i] == exact[i] by {
      forall i | 0 <= i < |r| && mask[i]
        ensures r[i] == exact[i]
      {
        assert forall q :: 0 <= q < |neighbors| ==> neighbors[q].0 != i;
      }
    }
    assert forall i :: 0 <= i < |r| && !mask[i] ==> exists j: nat :: IsNearest(mask, i, true, j) && r[i] == exact[j] by {
      forall i | 0 <= i < |r| && !mask[i]
        ensures exists j: nat :: IsNearest(mask, i, true, j) && r[i] == exact[j]
      {
        assert i in unmarked;
        var q :| 0 <= q < |unmarked| && unmarked[q] == i;
        assert neighbors[q].0 == i;
        var j := neighbors[q].1;
        assert r[i] == start[j] == exact[j];
      }
    }
    r
  }

  /** `perforation::conv1d(input, kernel)`: the mask is drawn for the
      `|input| - |kernel| + 1` outputs, the marked outputs are computed
      exactly, and each unmarked output copies the exact value at its nearest
      marked output. It fails when no output is marked. */
  method PerforatedConv1d(input: seq<real>, kernel: seq<real>, u: nat -> real) returns (r: Result<seq<real>, MaskError>)
    requires |kernel| <= |input| && UnitDraws(u)
    ensures var mask := PseudoMask(u, |input| - |kernel| + 1);
      && (r.Failure? <==> forall i :: 0 <= i < |mask| ==> !mask[i])
      && (r.Success? ==>
            && |r.value| == |input| - |kernel| + 1
            && (forall i :: 0 <= i < |r.value| && mask[i] ==> r.value[i] == Conv1d(input, kernel)[i])
            && (forall i :: 0 <= i < |r.value| && !mask[i] ==>
                  exists j: nat :: IsNearest(mask, i, true, j) && r.value[i] == Conv1d(input, kernel)[j]))
  {
    var size := |input| - |kernel| + 1;
    var mask := PseudoMask(u, size);
    var neighbors := Neighbors(mask);
    if neighbors.Failure? {
      return Failure(DegenerateMask);
    }
    return Success(PerforatedOutput(Conv1d(input, kernel), mask, neighbors.value));
  }

  /** `m` is the mask of length 18 that marks positions 1, 3, 4, 5, 7, 8, 11,
      12, 13, 14, 16 and 17 and no other. */
  predicate IsMask18(m: seq<bool>)
  {
    && |m| == 18
    && !m[0] && m[1] && !m[2] && m[3] && m[4] && m[5] && !m[6] && m[7] && m[8]
    && !m[9] && !m[10] && m[11] && m[12] && m[13] && m[14] && !m[15] && m[16] && m[17]
  }

  /** The nearest marked position of each unmarked position of that mask:
      0 and 2 copy from 1, 6 from 5, 9 from 8, 10 from 11 and 15 from 14. */
  lemma Mask18Nearest(m: seq<bool>)
    requires IsMask18(m)
    ensures IsNearest(m, 0, true, 1) && IsNearest(m, 2, true, 1)
    ensures IsNearest(m, 6, true, 5) && IsNearest(m, 9, true, 8)
    ensures IsNearest(m, 10, true, 11) && IsNearest(m, 15, true, 14)
  {
  }

  /** An unmarked position holds the exact value of the one position that is
      its nearest marked one. */
  lemma CopiedFrom(exact: seq<real>, mask: seq<bool>, neighbors: seq<(nat, nat)>, i: nat, j: nat)
    requires |mask| == |exact| && NeighborList(mask, neighbors)
    requires i < |mask| && !mask[i] && IsNearest(mask, i, true, j)
    ensures PerforatedOutput(exact, mask, neighbors)[i] == exact[j]
  {
    var r := PerforatedOutput(exact, mask, neighbors);
    var j': nat :| IsNearest(mask, i, true, j') && r[i] == exact[j'];
    NearestUnique(mask, i, true, j, j');
  }

  /** The unmarked outputs of that mask. */
  lemma Mask18Copied(e: seq<real>, m: seq<bool>, neighbors: seq<(nat, nat)>)
    requires |e| == 18 && IsMask18(m) && NeighborList(m, neighbors)
    ensures var r := PerforatedOutput(e, m, neighbors);
      r[0] == e[1] && r[2] == e[1] && r[6] == e[5] && r[9] == e[8] && r[10] == e[11] && r[15] == e[14]
  {
    Mask18Nearest(m);
    CopiedFrom(e, m, neighbors, 0, 1);
    CopiedFrom(e, m, neighbors, 2, 1);
    CopiedFrom(e, m, neighbors, 6, 5);
    CopiedFrom(e, m, neighbors, 9, 8);
    CopiedFrom(e, m, neighbors, 10, 11);
    CopiedFrom(e, m, neighbors, 15, 14);
  }

  /** The marked outputs of that mask. */
  lemma Mask18Kept(e: seq<real>, m: seq<bool>, neighbors: seq<(nat, nat)>)
    requires |e| == 18 && IsMask18(m) && NeighborList(m, neighbors)
    ensures var r := PerforatedOutput(e, m, neighbors);
      && r[1] == e[1] && r[3] == e[3] && r[4] == e[4] && r[5] == e[5] && r[7] == e[7] && r[8] == e[8]
      && r[11] == e[11] && r[12] == e[12] && r[13] == e[13] && r[14] == e[14] && r[16] == e[16] && r[17] == e[17]
  {
  }

  /** That mask over any exact output `e` of length 18. */
  lemma PerforatedMask18(e: seq<real>, m: seq<bool>, neighbors: seq<(nat, nat)>)
    requires |e| == 18 && IsMask18(m) && NeighborList(m, neighbors)
    ensures PerforatedOutput(e, m, neighbors)
            == [e[1], e[1], e[1], e[3], e[4], e[5], e[5], e[7], e[8],
                e[8], e[11], e[11], e[12], e[13], e[14], e[14], e[16], e[17]]
  {
    Mask18Copied(e, m, neighbors);
    Mask18Kept(e, m, neighbors);
    Collect18(PerforatedOutput(e, m, neighbors), e);
  }

  lemma Collect18(r: seq<real>, e: seq<real>)
    requires |r| == 18 && |e| == 18
    requires r[0] == e[1] && r[1] == e[1] && r[2] == e[1] && r[3] == e[3] && r[4] == e[4] && r[5] == e[5]
    requires r[6] == e[5] && r[7] == e[7] && r[8] == e[8] && r[9] == e[8] && r[10] == e[11] && r[11] == e[11]
    requires r[12] == e[12] && r[13] == e[13] && r[14] == e[14] && r[15] == e[14] && r[16] == e[16] && r[17] == e[17]
    ensures r == [e[1], e[1], e[1], e[3], e[4], e[5], e[5], e[7], e[8],
                  e[8], e[11], e[11], e[12], e[13], e[14], e[14], e[16], e[17]]
  {
  }

  /** The perforated half of the `baseline` test: with the mask `IsMask18`
      describes and the neighbour list built from it, the input `1..=20` and
      the kernel `[1, 1, 1]` give
      `9, 9, 9, 15, 18, 21, 21, 27, 30, 30, 39, 39, 42, 45, 48, 48, 54, 57`. */
  lemma PerforatedBaseline(m: seq<bool>, neighbors: seq<(nat, nat)>)
    requires IsMask18(m) && NeighborList(m, neighbors)
    ensures PerforatedOutput(Conv1d(Ramp(20), [1.0, 1.0, 1.0]), m, neighbors)
            == [9.0, 9.0, 9.0, 15.0, 18.0, 21.0, 21.0, 27.0, 30.0, 30.0, 39.0, 39.0,
                42.0, 45.0, 48.0, 48.0, 54.0, 57.0]
  {
    Baseline();
    PerforatedMask18(Conv1d(Ramp(20), [1.0, 1.0, 1.0]), m, neighbors);
  }
}
