/**
  Python's sequence slicing `xs[start:stop]` (step 1), including the
  treatment of negative and out-of-range bounds, as the ranking code relies
  on it to cut the recommendation list.
 */
module PySeq {

  /** The smaller of two integers. */
  function Min(a: int, b: int): (r: int)
    ensures r <= a && r <= b
    ensures r == a || r == b
  {
    if a <= b then a else b
  }

  /** The larger of two integers. */
  function Max(a: int, b: int): (r: int)
    ensures r >= a && r >= b
    ensures r == a || r == b
  {
    if a >= b then a else b
  }

  /** A slice bound as Python normalises it: a negative bound counts from the
      end, and the result is clamped into `[0, len]`. */
  function SliceBound(i: int, len: nat): (r: nat)
    ensures r <= len
    ensures 0 <= i ==> r == Min(i, len)
    ensures i < 0 ==> r == Max(0, len + i)
  {
    if i < 0 then (if len + i < 0 then 0 else len + i)
    else if i > len then len
    else i
  }

  /** `xs[start:stop]`: the elements from the normalised start up to (not
      including) the normalised stop, or nothing when the stop is not past
      the start. */
  function Slice<T>(xs: seq<T>, start: int, stop: int): (r: seq<T>)
    ensures |r| == Max(0, SliceBound(stop, |xs|) - SliceBound(start, |xs|))
    ensures forall k :: 0 <= k < |r| ==> r[k] == xs[SliceBound(start, |xs|) + k]
  {
    var lo := SliceBound(start, |xs|);
    var hi := SliceBound(stop, |xs|);
    if lo < hi then xs[lo..hi] else []
  }
}
