/** `Array.prototype.slice` with its relative (negative) indices. */
module Slices {

  /** A `slice` index: a negative one counts from the end; the result is clamped to `[0, len]`. */
  function RelativeIndex(len: nat, i: int): (r: nat)
    ensures r <= len
    ensures 0 <= i ==> r == if i < len then i else len
    ensures i < 0 ==> r == if len + i < 0 then 0 else len + i
  {
    if i < 0 then (if len + i < 0 then 0 else len + i)
    else if i > len then len
    else i
  }

  /** `s.slice(0, end)`: a prefix; a non-negative `end` keeps `min(end, |s|)` elements. */
  function SliceTo<T>(s: seq<T>, end: int): (r: seq<T>)
    ensures |r| <= |s| && r == s[..|r|]
    ensures 0 <= end ==> |r| == if end < |s| then end else |s|
    ensures end < 0 ==> |r| == if |s| + end < 0 then 0 else |s| + end
  {
    s[..RelativeIndex(|s|, end)]
  }

  /** `s.slice(start)`: a suffix; a negative `start` keeps the last `min(-start, |s|)` elements. */
  function SliceFrom<T>(s: seq<T>, start: int): (r: seq<T>)
    ensures |r| <= |s| && r == s[|s| - |r|..]
    ensures start <= 0 ==> |r| == if -start < |s| && start != 0 then -start else |s|
    ensures 0 <= start ==> |r| == if start < |s| then |s| - start else 0
  {
    s[RelativeIndex(|s|, start)..]
  }
}
