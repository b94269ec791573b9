/** The temporal 1-D convolution layer of `RTNeural` (`Conv1D` and its static
    twin `Conv1DT`). The layer keeps the last `state_size` inputs in a circular
    buffer; each `forward` writes the new input at `state_ptr`, reads the
    columns `k * dilation` steps back through `setStatePointers`, and combines
    them with the kernel, per channel group. The perforated variant computes
    only the outputs a mask marks and copies the rest from the nearest marked
    output. */
module Conv1dLayers {
  import opened Wrappers
  import opened Math
  import opened Matrices
  import opened Perforation

  // ---------------------------------------------------------------- pointers

  /** `state_size = (kernel_size - 1) * dilation + 1`. */
  function StateSize(kernelSize: nat, dilation: nat): (ss: nat)
    requires 1 <= kernelSize
    ensures 1 <= ss
  {
    (kernelSize - 1) * dilation + 1
  }

  /** Tap `k` looks `k * dilation` steps back, and that is always less than
      the buffer holds. */
  lemma LagBound(k: nat, kernelSize: nat, dilation: nat)
    requires k < kernelSize
    ensures k * dilation < StateSize(kernelSize, dilation)
  {
    if k < kernelSize - 1 {
      MulStep(k, kernelSize - 1, dilation);
    }
  }

  /** Remainder of a value below `2 n`, the only remainders the buffer needs. */
  lemma ModSmall(x: nat, n: nat)
    requires 0 < n && x < 2 * n
    ensures x % n == if x < n then x else x - n
  {
    if n <= x {
      assert x == 1 * n + (x - n);
    }
  }

  /** The slot `lag` steps back from `ptr` in a buffer of `ss` slots, for a
      lag below `ss`. */
  function Back(ptr: nat, lag: nat, ss: nat): (s: nat)
    requires ptr < ss && lag < ss
    ensures s < ss
    ensures s == if lag <= ptr then ptr - lag else ptr + ss - lag
  {
    ModSmall(ptr + ss - lag, ss);
    (ptr + ss - lag) % ss
  }

  /** The slot `lag` inputs before the newest one, while the pointer sits on
      the slot after the newest input. */
  function Behind(ptr: nat, lag: nat, ss: nat): (s: nat)
    requires ptr < ss && lag < ss
    ensures s < ss
    ensures s == if lag < ptr then ptr - 1 - lag else ptr + ss - 1 - lag
  {
    ModSmall(ptr + ss - 1 - lag, ss);
    (ptr + ss - 1 - lag) % ss
  }

  /** Going `lag` slots back and `lag` forward returns to the start. */
  lemma BackThenForward(ptr: nat, lag: nat, ss: nat)
    requires ptr < ss && lag < ss
    ensures (ptr + ss - lag) % ss == Back(ptr, lag, ss)
    ensures (Back(ptr, lag, ss) + lag) % ss == ptr
  {
    ModSmall(Back(ptr, lag, ss) + lag, ss);
  }

  /** `setStatePointers`: `state_ptrs[k] = (state_ptr + state_size - k *
      dilation) % state_size`. The left operand is never negative, so C++'s
      truncating `%` is the Euclidean remainder here. Every pointer is a slot,
      tap `0` is the slot just written, and tap `k` is `k * dilation` slots
      behind it, cyclically. */
  function StatePointers(ptr: nat, kernelSize: nat, dilation: nat): (r: seq<nat>)
    requires 1 <= kernelSize && ptr < StateSize(kernelSize, dilation)
    ensures |r| == kernelSize
    ensures forall k :: 0 <= k < kernelSize ==> r[k] < StateSize(kernelSize, dilation)
    ensures r[0] == ptr
    ensures forall k :: 0 <= k < kernelSize ==> (r[k] + k * dilation) % StateSize(kernelSize, dilation) == ptr
  {
    var ss := StateSize(kernelSize, dilation);
    var r := seq(kernelSize, k requires 0 <= k < kernelSize => Back(ptr, Lag(k, kernelSize, dilation), ss));
    assert forall k :: 0 <= k < kernelSize ==> (r[k] + k * dilation) % ss == ptr by {
      forall k | 0 <= k < kernelSize
        ensures (r[k] + k * dilation) % ss == ptr
      {
        BackThenForward(ptr, Lag(k, kernelSize, dilation), ss);
      }
    }
    r
  }

  /** `k * dilation` for a tap `k`, below `state_size`. */
  function Lag(k: nat, kernelSize: nat, dilation: nat): (lag: nat)
    requires k < kernelSize
    ensures lag == k * dilation && lag < StateSize(kernelSize, dilation)
  {
    LagBound(k, kernelSize, dilation);
    k * dilation
  }

  /** With a non-zero dilation the taps read pairwise different slots. */
  lemma PointersDistinct(ptr: nat, kernelSize: nat, dilation: nat, k1: nat, k2: nat)
    requires 1 <= kernelSize && 1 <= dilation && ptr < StateSize(kernelSize, dilation)
    requires k1 < k2 < kernelSize
    ensures StatePointers(ptr, kernelSize, dilation)[k1] != StatePointers(ptr, kernelSize, dilation)[k2]
  {
    var ss := StateSize(kernelSize, dilation);
    LagBound(k1, kernelSize, dilation);
    LagBound(k2, kernelSize, dilation);
    MulStep(k1, k2, dilation);
    var r := StatePointers(ptr, kernelSize, dilation);
    assert r[k1] == Back(ptr, k1 * dilation, ss) && r[k2] == Back(ptr, k2 * dilation, ss);
  }

  /** `state_ptr = (state_ptr == state_size - 1 ? 0 : state_ptr + 1)`: the
      next slot, cyclically. */
  function Advance(ptr: nat, ss: nat): (r: nat)
    requires ptr < ss
    ensures r < ss && r == (ptr + 1) % ss
  {
    ModSmall(ptr + 1, ss);
    if ptr == ss - 1 then 0 else ptr + 1
  }

  /** The pointer after `m` calls of `forward`. */
  function AdvanceTimes(ptr: nat, ss: nat, m: nat): (r: nat)
    requires ptr < ss
    ensures r < ss
  {
    if m == 0 then ptr else Advance(AdvanceTimes(ptr, ss, m - 1), ss)
  }

  /** Within one lap the pointer moves `m` slots forward, cyclically. */
  lemma {:induction false} AdvanceTimesLap(ptr: nat, ss: nat, m: nat)
    requires ptr < ss && m <= ss
    ensures AdvanceTimes(ptr, ss, m) == if ptr + m < ss then ptr + m else ptr + m - ss
  {
    if m > 0 {
      AdvanceTimesLap(ptr, ss, m - 1);
    }
  }

  /** The pointer is back where it started after a lap of `state_size`
      steps, and meets no slot twice within the lap, so it visits every slot. */
  lemma AdvanceCycles(ptr: nat, ss: nat)
    requires ptr < ss
    ensures AdvanceTimes(ptr, ss, ss) == ptr
    ensures forall m1, m2 :: 0 <= m1 < m2 < ss ==> AdvanceTimes(ptr, ss, m1) != AdvanceTimes(ptr, ss, m2)
  {
    AdvanceTimesLap(ptr, ss, ss);
    forall m1, m2 | 0 <= m1 < m2 < ss
      ensures AdvanceTimes(ptr, ss, m1) != AdvanceTimes(ptr, ss, m2)
    {
      AdvanceTimesLap(ptr, ss, m1);
      AdvanceTimesLap(ptr, ss, m2);
    }
  }

  // ------------------------------------------------------------------- layer

  /** A `Conv1D` (or `Conv1DT`) with its weights `weights[i][k][f]`, its
      biases, the circular buffer `state[slot][channel]` and `state_ptr`. */
  datatype Conv1d = Conv1d(
    inSize: nat, outSize: nat, kernelSize: nat, dilation: nat, groups: nat,
    filtersPerGroup: nat, channelsPerGroup: nat,
    weights: seq<seq<seq<real>>>, bias: seq<real>,
    state: seq<seq<real>>, ptr: nat)

  /** The shapes the layer keeps. `groups` divides both sizes (the
      `static_assert` of `Conv1DT`); `filters_per_group` and
      `channels_per_group` are the quotients. */
  predicate Valid(l: Conv1d)
  {
    && 1 <= l.kernelSize && 1 <= l.groups
    && l.inSize == l.groups * l.filtersPerGroup
    && l.outSize == l.groups * l.channelsPerGroup
    && |l.weights| == l.outSize
    && (forall i :: 0 <= i < l.outSize ==> |l.weights[i]| == l.kernelSize)
    && (forall i, k :: 0 <= i < l.outSize && 0 <= k < l.kernelSize ==> |l.weights[i][k]| == l.filtersPerGroup)
    && |l.bias| == l.outSize
    && |l.state| == StateSize(l.kernelSize, l.dilation)
    && (forall s :: 0 <= s < |l.state| ==> |l.state[s]| == l.inSize)
    && l.ptr < |l.state|
  }

  /** The group of output `i` reads input channels `ii .. ii + fpg`. */
  lemma {:induction false} GroupBound(i: nat, g: nat, c: nat, f: nat)
    requires i < g * c
    ensures 0 < c && (i / c) * f + f <= g * f
  {
    var q := i / c;
    assert q * c <= i;
    if g <= q {
      MulStep(g - 1, q, c);
      assert false;
    }
    MulStep(q, g, f);
  }

  /** `ii = (i / channels_per_group) * filters_per_group`: the first input
      channel of output `i`'s group. The group's channels lie inside the
      input, and with a single group the offset is `0`. */
  function GroupOffset(l: Conv1d, i: nat): (ii: nat)
    requires Valid(l) && i < l.outSize
    ensures ii + l.filtersPerGroup <= l.inSize
    ensures l.groups == 1 ==> ii == 0
  {
    GroupBound(i, l.groups, l.channelsPerGroup, l.filtersPerGroup);
    (i / l.channelsPerGroup) * l.filtersPerGroup
  }

  /** `Σ_{k < K} inner(weights[i][k], cols[k][ii .. ii + fpg])`: the first `K`
      taps of output `i` over the columns `cols`. */
  function Taps(l: Conv1d, cols: seq<seq<real>>, i: nat, kk: nat): real
    requires Valid(l) && i < l.outSize && kk <= l.kernelSize && |cols| == l.kernelSize
    requires forall k :: 0 <= k < |cols| ==> |cols[k]| == l.inSize
  {
    if kk == 0 then 0.0
    else
      var ii := GroupOffset(l, i);
      Taps(l, cols, i, kk - 1) + Dot(l.weights[i][kk - 1], cols[kk - 1][ii..ii + l.filtersPerGroup])
  }

  /** The columns `forward` reads: `state[state_ptrs[k]]` for every tap. */
  function Columns(l: Conv1d): (cols: seq<seq<real>>)
    requires Valid(l)
    ensures |cols| == l.kernelSize && forall k :: 0 <= k < |cols| ==> |cols[k]| == l.inSize
  {
    var ptrs := StatePointers(l.ptr, l.kernelSize, l.dilation);
    seq(l.kernelSize, k requires 0 <= k < l.kernelSize => l.state[ptrs[k]])
  }

  /** The exact output for the given columns: `bias[i]` plus every tap. */
  function Exact(l: Conv1d, cols: seq<seq<real>>): (h: seq<real>)
    requires Valid(l) && |cols| == l.kernelSize
    requires forall k :: 0 <= k < |cols| ==> |cols[k]| == l.inSize
    ensures |h| == l.outSize
  {
    seq(l.outSize, i requires 0 <= i < l.outSize => l.bias[i] + Taps(l, cols, i, l.kernelSize))
  }

  /** Silent columns contribute nothing through any number of taps. */
  lemma {:induction false} TapsOfSilence(l: Conv1d, cols: seq<seq<real>>, i: nat, kk: nat)
    requires Valid(l) && i < l.outSize && kk <= l.kernelSize && |cols| == l.kernelSize
    requires forall k :: 0 <= k < |cols| ==> |cols[k]| == l.inSize
    requires forall k, f :: 0 <= k < |cols| && 0 <= f < l.inSize ==> cols[k][f] == 0.0
    ensures Taps(l, cols, i, kk) == 0.0
    decreases kk
  {
    if kk > 0 {
      TapsOfSilence(l, cols, i, kk - 1);
      var ii := GroupOffset(l, i);
      var slice := cols[kk - 1][ii..ii + l.filtersPerGroup];
      assert forall f :: 0 <= f < |slice| ==> slice[f] == cols[kk - 1][ii + f];
      DotZero(l.weights[i][kk - 1], slice);
    }
  }

  /** Over silent columns the exact output is the bias alone. */
  lemma ExactOfSilence(l: Conv1d, cols: seq<seq<real>>)
    requires Valid(l) && |cols| == l.kernelSize
    requires forall k :: 0 <= k < |cols| ==> |cols[k]| == l.inSize
    requires forall k, f :: 0 <= k < |cols| && 0 <= f < l.inSize ==> cols[k][f] == 0.0
    ensures Exact(l, cols) == l.bias
  {
    forall i | 0 <= i < l.outSize
      ensures Exact(l, cols)[i] == l.bias[i]
    {
      TapsOfSilence(l, cols, i, l.kernelSize);
    }
  }

  /** The layer after `std::copy(input, …, state[state_ptr])`. */
  function Write(l: Conv1d, input: seq<real>): (r: Conv1d)
    requires Valid(l) && |input| == l.inSize
    ensures Valid(r) && r.(state := l.state) == l && |r.state| == |l.state|
    ensures r.state[l.ptr] == input
    ensures forall s :: 0 <= s < |l.state| && s != l.ptr ==> r.state[s] == l.state[s]
  {
    l.(state := l.state[l.ptr := input])
  }

  /** `std::inner_product(w, w + fpg, col, acc)` for a column slice as long as
      the kernel row. */
  lemma InnerProductOfTap(w: seq<real>, col: seq<real>, acc: real)
    requires |w| == |col|
    ensures InnerProduct(w, col, acc) == acc + Dot(w, col)
  {
    assert w[..|w|] == w && col[..|col|] == col;
  }

  /** Output `i` of `forward`: the bias, then one inner product per tap,
      on the channel slice of output `i`'s group (the whole column when there
      is one group). */
  method Output(l: Conv1d, cols: seq<seq<real>>, i: nat) returns (h: real)
    requires Valid(l) && i < l.outSize && |cols| == l.kernelSize
    requires forall k :: 0 <= k < |cols| ==> |cols[k]| == l.inSize
    ensures h == l.bias[i] + Taps(l, cols, i, l.kernelSize)
  {
    var ii := GroupOffset(l, i);
    h := l.bias[i];
    for k := 0 to l.kernelSize
      invariant h == l.bias[i] + Taps(l, cols, i, k)
    {
      var column := if l.groups == 1 then cols[k] else cols[k][ii..ii + l.filtersPerGroup];
      assert column[..l.filtersPerGroup] == cols[k][ii..ii + l.filtersPerGroup];
      InnerProductOfTap(l.weights[i][k], column[..l.filtersPerGroup], h);
      h := InnerProduct(l.weights[i][k], column[..l.filtersPerGroup], h);
    }
  }

  /** `Conv1D::forward` and `Conv1DT::forward` (exact and grouped paths):
      store the input, compute every output from the columns the pointers
      select, and advance the pointer. Nothing but the buffer slot and the
      pointer changes. */
  method Forward(l: Conv1d, input: seq<real>) returns (next: Conv1d, h: seq<real>)
    requires Valid(l) && |input| == l.inSize
    ensures Valid(next) && next == Write(l, input).(ptr := Advance(l.ptr, |l.state|))
    ensures h == Exact(l, Columns(Write(l, input)))
  {
    var written := Write(l, input);
    var cols := Columns(written);
    h := [];
    for i := 0 to l.outSize
      invariant |h| == i
      invariant forall i' :: 0 <= i' < i ==> h[i'] == Exact(l, cols)[i']
    {
      var out := Output(l, cols, i);
      h := h + [out];
    }
    next := written.(ptr := Advance(l.ptr, |l.state|));
  }

  /** With one group, the grouped formula reads the whole column. */
  lemma OneGroupReadsWholeColumns(l: Conv1d, cols: seq<seq<real>>, i: nat, kk: nat)
    requires Valid(l) && l.groups == 1 && i < l.outSize && kk <= l.kernelSize && |cols| == l.kernelSize
    requires forall k :: 0 <= k < |cols| ==> |cols[k]| == l.inSize
    ensures forall k :: 0 <= k < l.kernelSize ==> cols[k][GroupOffset(l, i)..GroupOffset(l, i) + l.filtersPerGroup] == cols[k]
  {
  }

  // ----------------------------------------------------------------- history

  /** A zero input frame. */
  function Silence(n: nat): (z: seq<real>)
    ensures |z| == n && forall c :: 0 <= c < n ==> z[c] == 0.0
  {
    seq(n, _ => 0.0)
  }

  /** The input `lag` steps before the newest one of `history`, or silence
      before the first input. */
  function Past(history: seq<seq<real>>, lag: nat, n: nat): seq<real>
  {
    if lag < |history| then history[|history| - 1 - lag] else Silence(n)
  }

  /** The buffer, read backwards from the slot before `ptr`, holds the last
      `state_size` inputs of `history`, newest first, then silence. */
  predicate Holds(l: Conv1d, history: seq<seq<real>>)
    requires Valid(l)
  {
    forall lag :: 0 <= lag < |l.state| ==>
      l.state[Behind(l.ptr, lag, |l.state|)] == Past(history, lag, l.inSize)
  }

  /** A zeroed buffer (what `reset` leaves) holds the empty history. */
  lemma SilentStart(l: Conv1d)
    requires Valid(l) && forall s :: 0 <= s < |l.state| ==> l.state[s] == Silence(l.inSize)
    ensures Holds(l, [])
  {
  }

  /** Once the input is written, tap `k` reads the input `k * dilation` steps
      back in the history. */
  lemma WrittenColumns(l: Conv1d, history: seq<seq<real>>, input: seq<real>)
    requires Valid(l) && |input| == l.inSize && Holds(l, history)
    ensures forall k :: 0 <= k < l.kernelSize ==>
              Columns(Write(l, input))[k] == Past(history + [input], k * l.dilation, l.inSize)
  {
    var ss := |l.state|;
    var w := Write(l, input);
    var ptrs := StatePointers(l.ptr, l.kernelSize, l.dilation);
    forall k | 0 <= k < l.kernelSize
      ensures Columns(w)[k] == Past(history + [input], k * l.dilation, l.inSize)
    {
      var lag := k * l.dilation;
      LagBound(k, l.kernelSize, l.dilation);
      assert ptrs[k] == Back(l.ptr, lag, ss);
      if lag > 0 {
        assert Behind(l.ptr, lag - 1, ss) == Back(l.ptr, lag, ss);
        assert Past(history + [input], lag, l.inSize) == Past(history, lag - 1, l.inSize);
      }
    }
  }

  /** `forward` keeps the buffer invariant: after it, the buffer holds the
      history extended by the new input. */
  lemma AdvanceHolds(l: Conv1d, history: seq<seq<real>>, input: seq<real>)
    requires Valid(l) && |input| == l.inSize && Holds(l, history)
    ensures Holds(Write(l, input).(ptr := Advance(l.ptr, |l.state|)), history + [input])
  {
    var ss := |l.state|;
    var w := Write(l, input);
    var next := w.(ptr := Advance(l.ptr, ss));
    forall lag | 0 <= lag < ss
      ensures next.state[Behind(next.ptr, lag, ss)] == Past(history + [input], lag, l.inSize)
    {
      var slot := Behind(next.ptr, lag, ss);
      assert slot == Back(l.ptr, lag, ss);
      if lag > 0 {
        assert Behind(l.ptr, lag - 1, ss) == Back(l.ptr, lag, ss);
        assert Past(history + [input], lag, l.inSize) == Past(history, lag - 1, l.inSize);
      }
    }
  }

  /** The reference: a dilated causal convolution of the input stream.
      Output `i` is `bias[i] + Σ_k Σ_f weights[i][k][f] * x[t - k·d][ii + f]`,
      with silence before the first input. */
  function Causal(l: Conv1d, history: seq<seq<real>>): (h: seq<real>)
    requires Valid(l) && forall t :: 0 <= t < |history| ==> |history[t]| == l.inSize
    ensures |h| == l.outSize
  {
    var cols := seq(l.kernelSize, k requires 0 <= k < l.kernelSize => Past(history, k * l.dilation, l.inSize));
    Exact(l, cols)
  }

  /** Fed a stream from a zeroed buffer, `forward` computes the dilated causal
      convolution of the stream and leaves a buffer that holds the stream. */
  lemma ForwardIsCausal(l: Conv1d, history: seq<seq<real>>, input: seq<real>)
    requires Valid(l) && |input| == l.inSize && Holds(l, history)
    requires forall t :: 0 <= t < |history| ==> |history[t]| == l.inSize
    ensures Exact(l, Columns(Write(l, input))) == Causal(l, history + [input])
    ensures Holds(Write(l, input).(ptr := Advance(l.ptr, |l.state|)), history + [input])
  {
    WrittenColumns(l, history, input);
    var h := history + [input];
    assert forall t :: 0 <= t < |h| ==> |h[t]| == l.inSize;
    var cols := seq(l.kernelSize, k requires 0 <= k < l.kernelSize => Past(h, k * l.dilation, l.inSize));
    assert Columns(Write(l, input)) == cols;
    AdvanceHolds(l, history, input);
  }

  // ------------------------------------------------------------- perforation

  /** The perforated `Conv1D::forward` (`RTNEURAL_STL_PERF_CNN`). It asserts
      one group and `out_size == in_size + kernel_size - 1`, draws the mask for
      the `out_size` outputs, computes the marked outputs exactly and copies
      every unmarked one from its nearest marked output. `.value()` on a
      missing neighbour (no output marked) ends the program; that is the
      failure. */
  method PerforatedForward(l: Conv1d, input: seq<real>, u: nat -> real) returns (r: Result<(Conv1d, seq<real>), MaskError>)
    requires Valid(l) && |input| == l.inSize && UnitDraws(u)
    requires l.groups == 1 && l.outSize == l.inSize + l.kernelSize - 1
    ensures var mask := PseudoMask(u, l.outSize);
      var exact := Exact(l, Columns(Write(l, input)));
      && (r.Failure? <==> 0 < l.outSize && forall i :: 0 <= i < l.outSize ==> !mask[i])
      && (r.Success? ==>
            && r.value.0 == Write(l, input).(ptr := Advance(l.ptr, |l.state|))
            && |r.value.1| == l.outSize
            && (forall i :: 0 <= i < l.outSize && mask[i] ==> r.value.1[i] == exact[i])
            && (forall i :: 0 <= i < l.outSize && !mask[i] ==>
                  exists j: nat :: IsNearest(mask, i, true, j) && r.value.1[i] == exact[j]))
  {
    var mask := PseudoMask(u, l.outSize);
    var neighbors := Neighbors(mask);
    if neighbors.Failure? {
      return Failure(DegenerateMask);
    }
    var next, exact := Forward(l, input);
    var h := PerforatedOutput(exact, mask, neighbors.value);
    return Success((next, h));
  }
}
