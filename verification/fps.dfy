/**
 The frame-rate counter: each frame one `i32` sample is appended to a window
 of at most 16 samples, and the displayed value is the window's sum divided
 by its length with `i32` division (which rounds toward zero).
 */
module Fps {
  import opened BoundedQueue

  const Window: nat := 16
  const I32Max: int := 0x7fff_ffff
  /** The largest sample for which a full window's sum still fits an `i32`. */
  const MaxSafeSample: int := I32Max / Window

  /** Arithmetic sum, folded from the back. */
  function Sum(s: seq<int>): int
    decreases |s|
  {
    if |s| == 0 then 0 else Sum(s[..|s| - 1]) + s[|s| - 1]
  }

  /** `total(arr)`: sums the vector left to right. */
  method Total(arr: seq<int>) returns (total: int)
    ensures total == Sum(arr)
    ensures |arr| == 0 ==> total == 0
  {
    total := 0;
    var i := 0;
    while i < |arr|
      invariant 0 <= i <= |arr|
      invariant total == Sum(arr[..i])
    {
      assert arr[..i + 1][..i] == arr[..i];
      total := total + arr[i];
      i := i + 1;
    }
    assert arr[..|arr|] == arr;
  }

  /** Every sample lies in `[lo, hi]`. */
  predicate AllWithin(s: seq<int>, lo: int, hi: int) {
    forall k :: 0 <= k < |s| ==> lo <= s[k] <= hi
  }

  lemma {:induction false} SumBounds(s: seq<int>, lo: int, hi: int)
    requires AllWithin(s, lo, hi)
    ensures |s| * lo <= Sum(s) <= |s| * hi
    decreases |s|
  {
    if |s| > 0 {
      var init := s[..|s| - 1];
      assert AllWithin(init, lo, hi) by {
        forall k | 0 <= k < |init| ensures lo <= init[k] <= hi {
          assert init[k] == s[k];
        }
      }
      SumBounds(init, lo, hi);
      assert |s| * lo == |init| * lo + lo;
      assert |s| * hi == |init| * hi + hi;
    }
  }

  /** A full window of samples no larger than `MaxSafeSample` sums without
      leaving the `i32` range, so `total` cannot overflow on it. */
  lemma WindowSumFitsI32(s: seq<int>)
    requires |s| <= Window
    requires AllWithin(s, 0, MaxSafeSample)
    ensures 0 <= Sum(s) <= I32Max
  {
    SumBounds(s, 0, MaxSafeSample);
    assert |s| * MaxSafeSample <= Window * MaxSafeSample;
  }

  /** Rust's `/` on signed integers: the quotient rounded toward zero, so the
      remainder takes the sign of the dividend. */
  function TruncDiv(a: int, b: int): (q: int)
    requires b > 0
    ensures a >= 0 ==> 0 <= a - b * q < b
    ensures a < 0 ==> -b < a - b * q <= 0
  {
    if a >= 0 then a / b else -((-a) / b)
  }

  /** For a non-negative dividend the two roundings agree. */
  lemma TruncDivOfNonNegative(a: int, b: int)
    requires a >= 0 && b > 0
    ensures TruncDiv(a, b) == a / b
  {
  }

  lemma MulStrictCancel(n: int, a: int, b: int)
    requires n > 0 && n * a < n * b
    ensures a < b
  {
  }

  /** The window's sum divided by its length, rounded toward zero as `i32`
      division rounds. */
  function Average(history: seq<int>): (avg: int)
    requires |history| > 0
    // avg * length differs from the sum by less than one length, on the sum's
    // side of zero.
    ensures Sum(history) >= 0 ==> 0 <= Sum(history) - |history| * avg < |history|
    ensures Sum(history) < 0 ==> -|history| < Sum(history) - |history| * avg <= 0
  {
    TruncDiv(Sum(history), |history|)
  }

  /** The displayed average never lies outside the range of the samples it
      averages, whatever their signs. */
  lemma AverageWithinSamples(history: seq<int>, lo: int, hi: int)
    requires |history| > 0
    requires AllWithin(history, lo, hi)
    ensures lo <= Average(history) <= hi
  {
    var n := |history|;
    var s := Sum(history);
    var q := Average(history);
    SumBounds(history, lo, hi);
    if s >= 0 {
      // n * lo <= s < n * q + n, and n * q <= s <= n * hi
      assert n * lo < n * (q + 1);
      MulStrictCancel(n, lo, q + 1);
      assert n * q < n * (hi + 1);
      MulStrictCancel(n, q, hi + 1);
    } else {
      // n * q - n < s <= n * q
      assert n * (q - 1) < n * hi;
      MulStrictCancel(n, q - 1, hi);
      assert n * (lo - 1) < n * q;
      MulStrictCancel(n, lo - 1, q);
    }
  }

  /** The window after a frame's push, and the average shown that frame. */
  datatype Reading = Reading(history: seq<int>, average: int)

  /** src/main.rs lines 61-65: push the sample, trim, average. */
  function Record(history: seq<int>, sample: int): (r: Reading)
    // The window is never empty after the push, so the division is defined,
    // and the newest sample is last.
    ensures |r.history| > 0 && r.history[|r.history| - 1] == sample
    // From a window within bounds: the newest `min(n + 1, 16)` samples, in order.
    ensures |history| <= Window ==> r.history == Last(history + [sample], Window)
    ensures |history| <= Window ==> |r.history| == Min(|history| + 1, Window)
    // The value shown is the average of the window after the push.
    ensures r.average == Average(r.history)
  {
    var h := Push(history, sample, Window);
    Reading(h, Average(h))
  }

  /** For frame rates that are not negative, the average is the plain
      (flooring) quotient and is bounded by the window's extremes. */
  lemma RecordAverageOfNonNegative(history: seq<int>, sample: int, hi: int)
    requires |history| <= Window
    requires AllWithin(history + [sample], 0, hi)
    ensures var r := Record(history, sample);
      && r.average == Sum(r.history) / |r.history|
      && 0 <= r.average <= hi
  {
    var r := Record(history, sample);
    var all := history + [sample];
    assert AllWithin(r.history, 0, hi) by {
      forall k | 0 <= k < |r.history| ensures 0 <= r.history[k] <= hi {
        assert r.history[k] == all[|all| - |r.history| + k];
      }
    }
    AverageWithinSamples(r.history, 0, hi);
    SumBounds(r.history, 0, hi);
    TruncDivOfNonNegative(Sum(r.history), |r.history|);
  }
}
