/**
 * The bounded history both detectors keep: append the newest entry, then
 * drop the oldest one if the history has grown past its capacity
 * (`push_back` followed by `erase(begin())`).
 */
module Window {

  /** The history after appending `x` to `h` and trimming it to `cap`. */
  function PushBounded<T>(h: seq<T>, x: T, cap: nat): seq<T>
  {
    var grown := h + [x];
    if |grown| > cap then grown[1..] else grown
  }

  /**
   * A history that respected its capacity still does; the newest entry is
   * last; the entries before it are the old history, minus its oldest entry
   * exactly when the old history was already full.
   */
  lemma PushBoundedShape<T>(h: seq<T>, x: T, cap: nat)
    requires 0 < cap
    requires |h| <= cap
    ensures |PushBounded(h, x, cap)| <= cap
    ensures PushBounded(h, x, cap)[|PushBounded(h, x, cap)| - 1] == x
    ensures |h| < cap ==> PushBounded(h, x, cap) == h + [x]
    ensures |h| == cap ==> PushBounded(h, x, cap) == h[1..] + [x]
    ensures |h| == cap ==> |PushBounded(h, x, cap)| == cap
  {
    if |h| == cap {
      assert (h + [x])[1..] == h[1..] + [x];
    }
  }
}
