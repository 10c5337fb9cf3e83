/** The library's `partition_point`. */
module Partition {
  /** First index whose element fails `pred`, for a predicate that holds up to some index and not
      after it. */
  method PartitionPoint<T>(s: seq<T>, pred: T -> bool) returns (r: nat)
    requires forall i, j :: 0 <= i < j < |s| && pred(s[j]) ==> pred(s[i])
    ensures r <= |s|
    ensures forall i :: 0 <= i < r ==> pred(s[i])
    ensures forall i :: r <= i < |s| ==> !pred(s[i])
  {
    var lo, hi := 0, |s|;
    while lo < hi
      invariant lo <= hi <= |s|
      invariant forall i :: 0 <= i < lo ==> pred(s[i])
      invariant forall i :: hi <= i < |s| ==> !pred(s[i])
    {
      var mid := (lo + hi) / 2;
      if pred(s[mid]) { lo := mid + 1; } else { hi := mid; }
    }
    r := lo;
  }
}
