/**
 A bounded first-in-first-out buffer over a sequence: a new element goes on
 the end and, when that takes the length above the capacity, the element at
 index 0 is dropped. The game loop keeps two of these: the frame-rate samples
 (capacity 16) and the live bullets (capacity 32).
 */
module BoundedQueue {

  function Min(a: int, b: int): int {
    if a <= b then a else b
  }

  /** The last `n` elements of `s`, or all of `s` when it is shorter. This is
      the reference the push operation is measured against. */
  function Last<T>(s: seq<T>, n: nat): (r: seq<T>)
    ensures |r| == Min(|s|, n)
  {
    s[|s| - Min(|s|, n)..]
  }

  /** Appends `x`; if the queue is then longer than `cap`, drops the element
      at the front. */
  function Push<T>(q: seq<T>, x: T, cap: nat): (r: seq<T>)
    // From any queue within capacity, the result is exactly the newest `cap`
    // elements of the queue followed by `x`, in their original order.
    ensures |q| <= cap ==> r == Last(q + [x], cap)
    ensures |q| <= cap ==> |r| <= cap
    // Nothing is dropped while there is room.
    ensures |q| < cap ==> r == q + [x]
    // At or above capacity only the oldest element goes.
    ensures 0 < |q| && cap <= |q| ==> r == q[1..] + [x]
    // The pushed element is the newest one kept.
    ensures cap > 0 ==> |r| > 0 && r[|r| - 1] == x
  {
    var grown := q + [x];
    if |grown| > cap then grown[1..] else grown
  }

  /** Pushes every element of `xs`, first to last, one per frame. */
  function PushAll<T>(q: seq<T>, xs: seq<T>, cap: nat): seq<T>
    decreases |xs|
  {
    if |xs| == 0 then q
    else PushAll(Push(q, xs[0], cap), xs[1..], cap)
  }

  /** Taking the last `n` elements early does not change the last `n`
      elements of the whole. */
  lemma LastOfLastAppend<T>(a: seq<T>, b: seq<T>, n: nat)
    ensures Last(Last(a, n) + b, n) == Last(a + b, n)
  {
  }

  /** Any run of pushes into a queue within capacity leaves exactly the
      newest `cap` elements, oldest first. */
  lemma {:induction false} PushAllKeepsNewest<T>(q: seq<T>, xs: seq<T>, cap: nat)
    requires |q| <= cap
    ensures PushAll(q, xs, cap) == Last(q + xs, cap)
    decreases |xs|
  {
    if |xs| == 0 {
      assert q + xs == q;
    } else {
      var x := xs[0];
      var rest := xs[1..];
      PushAllKeepsNewest(Push(q, x, cap), rest, cap);
      LastOfLastAppend(q + [x], rest, cap);
      assert (q + [x]) + rest == q + xs;
    }
  }

  /** Consequently a queue that starts within capacity never exceeds it. */
  lemma {:induction false} PushAllBounded<T>(q: seq<T>, xs: seq<T>, cap: nat)
    requires |q| <= cap
    ensures |PushAll(q, xs, cap)| == Min(|q| + |xs|, cap)
  {
    PushAllKeepsNewest(q, xs, cap);
  }
}
