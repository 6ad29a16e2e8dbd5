/**
 * The iterator adapters the channel extraction and the peak search are
 * built from: `step_by`, `take`, `Vec::resize` and `fold` with `f64::max`.
 */
module Iterators {
  import opened Samples

  /** Multiplying both sides of `a <= b` by the same natural number keeps the order. */
  lemma MulMonotone(a: nat, b: nat, k: nat)
    requires a <= b
    ensures a * k <= b * k
  {
    var d := b - a;
    assert b * k == a * k + d * k;
  }

  /** `(m + 1) * k`, multiplied out. */
  lemma MulSucc(m: nat, k: nat)
    ensures (m + 1) * k == m * k + k
  {
  }

  /**
   * `s.iter().step_by(step)`: the first element, then every `step`-th one;
   * element `i` is `s[i * step]`.
   */
  function StepBy<T>(s: seq<T>, step: nat): (r: seq<T>)
    requires step > 0
    ensures forall i :: 0 <= i < |r| ==> i * step < |s| && r[i] == s[i * step]
    decreases |s|
  {
    if |s| == 0 then []
    else if |s| <= step then [s[0]]
    else
      var rest := StepBy(s[step..], step);
      StepByShift(s, step, rest);
      [s[0]] + rest
  }

  /** What one step of `StepBy` adds in front of the elements taken from `s[step..]`. */
  lemma StepByShift<T>(s: seq<T>, step: nat, rest: seq<T>)
    requires 0 < step < |s|
    requires forall i :: 0 <= i < |rest| ==> i * step < |s| - step && rest[i] == s[step..][i * step]
    ensures forall i :: 0 <= i < |rest| + 1 ==> i * step < |s| && ([s[0]] + rest)[i] == s[i * step]
  {
    forall i | 0 <= i < |rest| + 1
      ensures i * step < |s| && ([s[0]] + rest)[i] == s[i * step]
    {
      if i > 0 {
        MulSucc(i - 1, step);
        assert rest[i - 1] == s[step..][(i - 1) * step];
      }
    }
  }

  /** One more step of `step` elements moves a count that just covers `len - step` to one that just covers `len`. */
  lemma CountStep(len: nat, m: nat, step: nat)
    requires 0 < step < len && len - step <= m * step < len
    ensures len <= (m + 1) * step < len + step
  {
    MulSucc(m, step);
  }

  /** `StepBy(s, step)` has ceil(|s| / step) elements. */
  lemma {:induction false} StepByLength<T>(s: seq<T>, step: nat)
    requires step > 0
    ensures |s| <= |StepBy(s, step)| * step < |s| + step
    decreases |s|
  {
    if |s| == 0 {
    } else if |s| <= step {
      assert |StepBy(s, step)| == 1;
    } else {
      StepByLength(s[step..], step);
      CountStep(|s|, |StepBy(s[step..], step)|, step);
    }
  }

  /** An index lies inside `s` exactly when `StepBy(s, step)` reaches it: nothing is skipped at the end. */
  lemma StepByCovers<T>(s: seq<T>, step: nat, i: nat)
    requires step > 0
    ensures i < |StepBy(s, step)| <==> i * step < |s|
  {
    var n := |StepBy(s, step)|;
    if i >= n {
      StepByLength(s, step);
      MulMonotone(n, i, step);
    }
  }

  /** `.take(n)`: the first `n` elements, or all of `s` when it is shorter. */
  function Take<T>(s: seq<T>, n: nat): (r: seq<T>)
    ensures |r| == if n <= |s| then n else |s|
    ensures forall i :: 0 <= i < |r| ==> r[i] == s[i]
  {
    if n <= |s| then s[..n] else s
  }

  /**
   * `Vec::resize(n, fill)`: truncate to `n` elements, or extend with copies
   * of `fill` up to `n` elements.
   */
  function Resize<T>(s: seq<T>, n: nat, fill: T): (r: seq<T>)
    ensures |r| == n
    ensures forall i :: 0 <= i < n ==> r[i] == if i < |s| then s[i] else fill
  {
    if n <= |s| then s[..n] else s + seq(n - |s|, _ => fill)
  }

  /**
   * `s.iter().fold(acc, f64::max)`: the largest of `acc` and the elements
   * of `s`, which is `acc` itself or one of the elements.
   */
  function MaxFold(s: seq<real>, acc: real): (r: real)
    ensures acc <= r
    ensures forall i :: 0 <= i < |s| ==> s[i] <= r
    ensures r == acc || exists i :: 0 <= i < |s| && r == s[i]
    decreases |s|
  {
    if |s| == 0 then acc
    else
      var r := MaxFold(s[1..], Max(acc, s[0]));
      assert forall i :: 1 <= i < |s| ==> s[i] == s[1..][i - 1];
      r
  }

  /** Folding in one more element gives the larger of the earlier result and that element. */
  lemma {:induction false} MaxFoldSnoc(s: seq<real>, x: real, acc: real)
    ensures MaxFold(s + [x], acc) == Max(MaxFold(s, acc), x)
    decreases |s|
  {
    if |s| == 0 {
      assert [x][1..] == [];
    } else {
      assert (s + [x])[1..] == s[1..] + [x];
      MaxFoldSnoc(s[1..], x, Max(acc, s[0]));
    }
  }
}
