/** The package copy of `Partition`, internal/util/partition.go. Its
    logic is that of partition.go; only the names of the range type and
    of the size parameter differ. */
module UtilPartition {
  import Partitioning

  /** `Partition`: for a collection length, the ranges tile it in
      batches of at most `PartitionSize`, as many as the length divided
      by the size and rounded up. */
  method Partition(collectionLen: int, PartitionSize: int) returns (ranges: seq<Partitioning.IdxRange>)
    ensures ranges == Partitioning.Ranges(collectionLen, PartitionSize)
    ensures PartitionSize <= 0 ==> ranges == []
    ensures collectionLen >= 0 && PartitionSize > 0 ==>
      |ranges| == (collectionLen + PartitionSize - 1) / PartitionSize &&
      (|ranges| > 0 ==> ranges[0].low == 0 && ranges[|ranges| - 1].high == collectionLen) &&
      (forall k | 0 < k < |ranges| :: ranges[k - 1].high == ranges[k].low) &&
      (forall k | 0 <= k < |ranges| :: 1 <= ranges[k].high - ranges[k].low <= PartitionSize)
  {
    ranges := Partitioning.Partition(collectionLen, PartitionSize);
    if collectionLen >= 0 && PartitionSize > 0 {
      Partitioning.RangesCount(collectionLen, PartitionSize);
      Partitioning.RangesTile(collectionLen, PartitionSize);
    }
  }
}
