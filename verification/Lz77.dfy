/**
  The LZ77 copy of own/pyflate-fast.py: a match longer than its distance is
  copied in whole stretches of the distance, which has to amount to copying one
  byte at a time from output that is still being written.
 */
module Lz77 {

  /** The reference: `n` times, append the element `distance` places from the end. */
  ghost function Copy<T>(out: seq<T>, distance: nat, n: nat): (r: seq<T>)
    requires 0 < distance <= |out|
    ensures |r| == |out| + n
    decreases n
  {
    if n == 0 then out else Copy(out + [out[|out| - distance]], distance, n - 1)
  }

  lemma {:induction false} CopyTwice<T>(out: seq<T>, distance: nat, m: nat, n: nat)
    requires 0 < distance <= |out|
    ensures Copy(Copy(out, distance, m), distance, n) == Copy(out, distance, m + n)
    decreases m
  {
    if m > 0 {
      CopyTwice(out + [out[|out| - distance]], distance, m - 1, n);
    }
  }

  /** A copy no longer than its distance is a slice of what was there before. */
  lemma {:induction false} CopyIsSlice<T>(out: seq<T>, distance: nat, n: nat)
    requires 0 < distance <= |out| && n <= distance
    ensures Copy(out, distance, n) == out + out[|out| - distance..|out| - distance + n]
    decreases n
  {
    if n > 0 {
      CopyIsSlice(out, distance, n - 1);
      CopyTwice(out, distance, n - 1, 1);
      var r := Copy(out, distance, n - 1);
      assert Copy(r, distance, 1) == Copy(r + [r[|r| - distance]], distance, 0);
    }
  }

  /** out[from:to] for a non-positive `from` and `to`: positions counted from the end, clamped to the list. */
  function SliceFromEnd<T>(out: seq<T>, from: nat, to: nat): (r: seq<T>)
    requires to <= from
  {
    out[if from <= |out| then |out| - from else 0..if to <= |out| then |out| - to else 0]
  }

  /**
    Appends a match. Inside the output written so far this is the byte-wise copy;
    a distance that reaches before the start yields too few bytes, and only then.
   */
  method CopyMatch<T>(before: seq<T>, distance: nat, length: nat) returns (out: seq<T>)
    requires distance > 0 && length > 0
    ensures distance <= |before| ==> out == Copy(before, distance, length)
    ensures |out| == |before| + length <==> distance <= |before|
  {
    out := before;
    var left := length;
    while left > distance
      invariant 0 < left <= length && |before| <= |out| <= |before| + (length - left)
      invariant left < length && distance > |before| ==> |out| < |before| + (length - left)
      invariant distance <= |before| ==> out == Copy(before, distance, length - left)
    {
      if distance <= |before| {
        CopyIsSlice(out, distance, distance);
        CopyTwice(before, distance, length - left, distance);
      }
      out := out + SliceFromEnd(out, distance, 0);
      left := left - distance;
    }
    if distance <= |before| {
      CopyIsSlice(out, distance, left);
      CopyTwice(before, distance, length - left, left);
    }
    if left == distance {
      out := out + SliceFromEnd(out, distance, 0);
    } else {
      out := out + SliceFromEnd(out, distance, distance - left);
    }
  }
}
