/** The exact sliding-window `conv1d` of `rural`: every output is the inner
    product of the kernel with the window of the input that starts there. */
module Conv {
  import opened Math

  /** `conv1d(input, kernel)`. The output has `|input| - |kernel| + 1` values
      (the subtraction is on `usize`, so the kernel may not be longer than the
      input), and output `i` is the kernel's dot product with the window
      `input[i .. i + |kernel|]`: passing the whole tail `input[i..]` to the
      zip-truncating inner product reads only that window. */
  function Conv1d(input: seq<real>, kernel: seq<real>): (r: seq<real>)
    requires |kernel| <= |input|
    ensures |r| == |input| - |kernel| + 1
    ensures forall i :: 0 <= i < |r| ==> r[i] == Dot(input[i..i + |kernel|], kernel)
  {
    var r := seq(|input| - |kernel| + 1, i requires 0 <= i <= |input| - |kernel| => InnerProduct(input[i..], kernel, 0.0));
    assert forall i :: 0 <= i < |r| ==> r[i] == Dot(input[i..i + |kernel|], kernel) by {
      forall i | 0 <= i < |r|
        ensures r[i] == Dot(input[i..i + |kernel|], kernel)
      {
        assert Min(|input[i..]|, |kernel|) == |kernel|;
        assert input[i..][..|kernel|] == input[i..i + |kernel|];
        assert kernel[..|kernel|] == kernel;
      }
    }
    r
  }

  /** `1.0, 2.0, ..., n`: the input of the `baseline` test. */
  function Ramp(n: nat): (r: seq<real>)
    ensures |r| == n && forall i :: 0 <= i < n ==> r[i] == (i + 1) as real
  {
    seq(n, i requires 0 <= i < n => (i + 1) as real)
  }

  /** The three-tap box filter over a ramp sums three consecutive values. */
  lemma BoxOverRamp(n: nat, i: nat)
    requires 3 <= n && i <= n - 3
    ensures Conv1d(Ramp(n), [1.0, 1.0, 1.0])[i] == (3 * i + 6) as real
  {
    var a, b, c := (i + 1) as real, (i + 2) as real, (i + 3) as real;
    assert Ramp(n)[i..i + 3] == [a, b, c];
    assert [a, b, c][1..] == [b, c] && [b, c][1..] == [c] && [c][1..] == [];
    assert [1.0, 1.0, 1.0][1..] == [1.0, 1.0] && [1.0, 1.0][1..] == [1.0] && [1.0][1..] == [];
    assert Dot([c], [1.0]) == c;
    assert Dot([b, c], [1.0, 1.0]) == b + c;
    assert Dot([a, b, c], [1.0, 1.0, 1.0]) == a + b + c;
  }

  /** The `baseline` test: `conv1d` of `1..=20` with kernel `[1, 1, 1]` is
      `6, 9, ..., 57`. */
  lemma Baseline()
    ensures Conv1d(Ramp(20), [1.0, 1.0, 1.0])
            == [6.0, 9.0, 12.0, 15.0, 18.0, 21.0, 24.0, 27.0, 30.0, 33.0, 36.0, 39.0,
                42.0, 45.0, 48.0, 51.0, 54.0, 57.0]
  {
    var r := Conv1d(Ramp(20), [1.0, 1.0, 1.0]);
    forall i | 0 <= i < 18
      ensures r[i] == (3 * i + 6) as real
    {
      BoxOverRamp(20, i);
    }
  }
}
