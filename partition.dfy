/** `Partition` of partition.go: splits the indices `[0, collectionLen)`
    of a collection into consecutive batches of `partitionSize` items,
    the last batch holding what is left over. The Go function hands the
    ranges to a goroutine that sends them down a channel; the model
    returns the same ranges, in the order they are sent, as a sequence. */
module Partitioning {
  import opened Numerals

  /** `IdxRange`: the half-open index range `[low, high)`. */
  datatype IdxRange = IdxRange(low: int, high: int)

  /** Go's integer `/`, which truncates toward zero (Dafny's rounds
      toward minus infinity for a positive divisor). */
  function Quot(a: int, b: int): int
    requires b > 0
  {
    if a >= 0 then a / b else -((-a) / b)
  }

  /** Go's integer `%`, whose sign follows the dividend. */
  function Rem(a: int, b: int): int
    requires b > 0
  {
    if a >= 0 then a % b else -((-a) % b)
  }

  /** The `i`-th full batch. */
  function FullRange(i: int, size: int): IdxRange {
    IdxRange(i * size, (i + 1) * size)
  }

  /** The ranges `Partition` sends: none for a size that is not positive;
      otherwise the full batches and then, when the division leaves a
      remainder, one range from the end of the last full batch to
      `n`. */
  function Ranges(n: int, size: int): seq<IdxRange> {
    if size <= 0 then []
    else
      var full := if Quot(n, size) > 0 then Quot(n, size) else 0;
      seq(full, i => FullRange(i, size)) + (if Rem(n, size) != 0 then [IdxRange(full * size, n)] else [])
  }

  /** `Partition`, with the ranges collected in the order the goroutine
      sends them. */
  method Partition(collectionLen: int, partitionSize: int) returns (ranges: seq<IdxRange>)
    ensures ranges == Ranges(collectionLen, partitionSize)
  {
    ranges := [];
    if partitionSize <= 0 {
      return;
    }
    var numFullPartitions := Quot(collectionLen, partitionSize);
    var i: nat := 0;
    while i < numFullPartitions
      invariant numFullPartitions > 0 ==> i <= numFullPartitions
      invariant numFullPartitions <= 0 ==> i == 0
      invariant ranges == seq(i, k => FullRange(k, partitionSize))
    {
      ranges := ranges + [IdxRange(i * partitionSize, (i + 1) * partitionSize)];
      i := i + 1;
    }
    if Rem(collectionLen, partitionSize) != 0 {
      ranges := ranges + [IdxRange(i * partitionSize, collectionLen)];
    }
  }

  // ---------------------------------------------------------------------
  // Properties for a collection length, which is never negative

  /** How many batches there are: `n / size` rounded up; none for an
      empty collection or a size that is not positive. */
  lemma RangesCount(n: int, size: int)
    requires n >= 0
    ensures size <= 0 ==> Ranges(n, size) == []
    ensures size > 0 ==> |Ranges(n, size)| == (n + size - 1) / size
    ensures n == 0 ==> Ranges(n, size) == []
  {
    if size > 0 {
      var q, r := n / size, n % size;
      if r == 0 {
        DivUnique(n + size - 1, size, q, size - 1);
      } else {
        DivUnique(n + size - 1, size, q + 1, r - 1);
      }
    }
  }

  /** The first `n / size` ranges are the full batches in order, and a
      last, shorter range ending at `n` follows exactly when `size` does
      not divide `n`. */
  lemma RangesShape(n: int, size: int)
    requires n >= 0 && size > 0
    ensures forall k | 0 <= k < n / size :: Ranges(n, size)[k] == IdxRange(k * size, (k + 1) * size)
    ensures |Ranges(n, size)| == n / size + (if n % size != 0 then 1 else 0)
    ensures n % size != 0 ==> Ranges(n, size)[n / size] == IdxRange(n / size * size, n)
  {
  }

  /** The ranges tile `[0, n)`: they start at zero, each begins where the
      one before ends, the last ends at `n`, and each holds between one
      and `size` indices. */
  lemma RangesTile(n: int, size: int)
    requires n >= 0 && size > 0
    ensures var rs := Ranges(n, size);
            (|rs| > 0 ==> rs[0].low == 0 && rs[|rs| - 1].high == n) &&
            (forall k | 0 < k < |rs| :: rs[k - 1].high == rs[k].low) &&
            (forall k | 0 <= k < |rs| :: 1 <= rs[k].high - rs[k].low <= size)
  {
    RangesEnds(n, size);
    RangesContiguous(n, size);
    RangesSizes(n, size);
  }

  lemma RangesEnds(n: int, size: int)
    requires n >= 0 && size > 0
    ensures var rs := Ranges(n, size); |rs| > 0 ==> rs[0].low == 0 && rs[|rs| - 1].high == n
  {
    var rs := Ranges(n, size);
    var q := n / size;
    RangesShape(n, size);
    if |rs| > 0 && n % size == 0 {
      assert rs[|rs| - 1].high == (q - 1 + 1) * size;
    }
  }

  lemma RangesContiguous(n: int, size: int)
    requires n >= 0 && size > 0
    ensures var rs := Ranges(n, size); forall k | 0 < k < |rs| :: rs[k - 1].high == rs[k].low
  {
    var rs := Ranges(n, size);
    RangesShape(n, size);
    forall k | 0 < k < |rs|
      ensures rs[k - 1].high == rs[k].low
    {
      assert (k - 1 + 1) * size == k * size;
    }
  }

  lemma RangesSizes(n: int, size: int)
    requires n >= 0 && size > 0
    ensures var rs := Ranges(n, size); forall k | 0 <= k < |rs| :: 1 <= rs[k].high - rs[k].low <= size
  {
    var rs := Ranges(n, size);
    var q := n / size;
    RangesShape(n, size);
    forall k | 0 <= k < |rs|
      ensures 1 <= rs[k].high - rs[k].low <= size
    {
      if k < q {
        assert (k + 1) * size == k * size + size;
      }
    }
  }

  /** Some range of `rs` holds index `x`. */
  predicate Covers(rs: seq<IdxRange>, x: int) {
    exists k :: 0 <= k < |rs| && rs[k].low <= x < rs[k].high
  }

  /** Every index of the collection lies in some range, and every range
      lies within the collection. */
  lemma RangesCover(n: int, size: int)
    requires n >= 0 && size > 0
    ensures forall x | 0 <= x < n :: Covers(Ranges(n, size), x)
    ensures forall k | 0 <= k < |Ranges(n, size)| :: 0 <= Ranges(n, size)[k].low && Ranges(n, size)[k].high <= n
  {
    var rs := Ranges(n, size);
    var q := n / size;
    RangesShape(n, size);
    forall x | 0 <= x < n
      ensures Covers(rs, x)
    {
      var k := CoveringRange(n, size, x);
      assert rs[k].low <= x < rs[k].high;
    }
    forall k | 0 <= k < |rs|
      ensures 0 <= rs[k].low && rs[k].high <= n
    {
      if k < q {
        MulMonotone(k + 1, q, size);
      }
      MulMonotone(0, k, size);
    }
  }

  /** The range that holds index `x`: the batch `x / size`. */
  lemma CoveringRange(n: int, size: int, x: int) returns (k: nat)
    requires n >= 0 && size > 0 && 0 <= x < n
    ensures k < |Ranges(n, size)| && Ranges(n, size)[k].low <= x < Ranges(n, size)[k].high
  {
    var q, r := n / size, n % size;
    RangesShape(n, size);
    k := x / size;
    assert k * size <= x < k * size + size;
    if k > q {
      MulMonotone(q + 1, k, size);
      assert false;
    }
    if k == q {
      assert r != 0;
    } else {
      assert (k + 1) * size == k * size + size;
    }
  }

  /** Euclidean division is determined by its quotient and remainder. */
  lemma DivUnique(a: int, b: int, q: int, r: int)
    requires a >= 0 && q >= 0 && b > 0 && a == q * b + r && 0 <= r < b
    ensures a / b == q && a % b == r
  {
    var q', r' := a / b, a % b;
    if q' < q {
      MulMonotone(q' + 1, q, b);
      assert false;
    }
    if q' > q {
      MulMonotone(q + 1, q', b);
      assert false;
    }
  }

  /** What Go does with a negative length, which no caller passes: no
      full batch, and one inverted range `[0, n)` unless `size` divides
      `n`. */
  lemma RangesNegative(n: int, size: int)
    requires n < 0 && size > 0
    ensures Ranges(n, size) == if (-n) % size != 0 then [IdxRange(0, n)] else []
  {
  }
}
