/** `bisectLastLE`: binary search for the last offset not after a target. */
module Bisect {

  ghost predicate Sorted(offsets: seq<real>) {
    forall i, j :: 0 <= i <= j < |offsets| ==> offsets[i] <= offsets[j]
  }

  /** On sorted offsets the result splits them: everything up to it is at most the target, everything
      after it is greater, and -1 means that all are greater.  On unsorted offsets the result is still
      -1 or a position whose offset is at most the target.  `(lo + hi) >>> 1` is a 32-bit operation,
      which is exact for the at most 2^31 elements allowed here. */
  method BisectLastLE(offsets: seq<real>, target: real) returns (result: int)
    requires |offsets| <= 0x8000_0000
    ensures -1 <= result < |offsets|
    ensures result >= 0 ==> offsets[result] <= target
    ensures Sorted(offsets) ==> forall i :: 0 <= i < |offsets| ==> (offsets[i] <= target <==> i <= result)
  {
    var lo, hi := 0, |offsets| - 1;
    result := -1;
    while lo <= hi
      invariant 0 <= lo <= hi + 1 <= |offsets|
      invariant -1 <= result < lo && (result >= 0 ==> offsets[result] <= target)
      invariant Sorted(offsets) ==> result == lo - 1
      invariant Sorted(offsets) ==> forall i :: hi < i < |offsets| ==> offsets[i] > target
    {
      var mid := ((lo + hi) % 0x1_0000_0000) / 2;
      if offsets[mid] <= target {
        result := mid;
        lo := mid + 1;
      } else {
        hi := mid - 1;
      }
    }
  }
}
