/** The administration statistics of the CAS store: totals with a
    deduplication ratio and savings, and a histogram of block sizes. */
module AdminStats {
  import opened Common

  const MiB := 1024 * 1024
  const TiB := 1024 * 1024 * 1024 * 1024

  /** An aggregate that the database returns as NULL on an empty table counts as 0. */
  function OrZero(sum: Option<nat>): (r: nat)
    ensures sum.None? ==> r == 0
    ensures sum.Some? ==> r == sum.value
  {
    match sum
    case None => 0
    case Some(v) => v
  }

  datatype XetStats = XetStats(
    blockCount: nat, logicalSizeBytes: nat,
    xorbCount: nat, physicalSizeBytes: nat,
    shardCount: nat, shardSizeBytes: nat,
    deduplicationRatio: real, savingsBytes: nat)

  /** The statistics from the three table counts and size sums. */
  function GetXetStats(blockCount: nat, blockSizeSum: Option<nat>,
                       xorbCount: nat, xorbSizeSum: Option<nat>,
                       shardCount: nat, shardSizeSum: Option<nat>): (s: XetStats)
    ensures s.logicalSizeBytes == OrZero(blockSizeSum) && s.physicalSizeBytes == OrZero(xorbSizeSum)
    ensures s.shardSizeBytes == OrZero(shardSizeSum)
    ensures s.blockCount == blockCount && s.xorbCount == xorbCount && s.shardCount == shardCount
    ensures s.physicalSizeBytes > 0 ==>
              s.deduplicationRatio * s.physicalSizeBytes as real == s.logicalSizeBytes as real
    ensures s.physicalSizeBytes == 0 ==> s.deduplicationRatio == 1.0
    ensures s.deduplicationRatio >= 0.0
    ensures s.savingsBytes + s.physicalSizeBytes >= s.logicalSizeBytes
    ensures s.savingsBytes == 0 || s.savingsBytes + s.physicalSizeBytes == s.logicalSizeBytes
  {
    var logical := OrZero(blockSizeSum);
    var physical := OrZero(xorbSizeSum);
    var ratio := if physical > 0 then logical as real / physical as real else 1.0;
    XetStats(blockCount, logical, xorbCount, physical, shardCount, OrZero(shardSizeSum),
             ratio, if logical > physical then logical - physical else 0)
  }

  /** The four half-open size ranges of the histogram, in order. */
  const Buckets: seq<(string, nat, nat)> := [
    ("under_1mb", 0, MiB),
    ("1mb_4mb", MiB, 4 * MiB),
    ("4mb_8mb", 4 * MiB, 8 * MiB),
    ("over_8mb", 8 * MiB, TiB)
  ]

  /** How many sizes lie in [low, high). */
  function CountInRange(sizes: seq<nat>, low: nat, high: nat): (n: nat)
    ensures n <= |sizes|
  {
    if sizes == [] then 0
    else (if low <= sizes[0] < high then 1 else 0) + CountInRange(sizes[1..], low, high)
  }

  /** Contiguity: every size below 1 TiB is in exactly one bucket, a larger one in none. */
  lemma {:induction false} BucketsPartitionSizes(size: nat)
    ensures size < TiB ==> exists b :: 0 <= b < |Buckets| && Buckets[b].1 <= size < Buckets[b].2
    ensures forall b, c :: 0 <= b < c < |Buckets| ==>
              !(Buckets[b].1 <= size < Buckets[b].2 && Buckets[c].1 <= size < Buckets[c].2)
    ensures size >= TiB ==> forall b :: 0 <= b < |Buckets| ==> !(Buckets[b].1 <= size < Buckets[b].2)
  {
    if size < MiB { assert Buckets[0].1 <= size < Buckets[0].2; }
    else if size < 4 * MiB { assert Buckets[1].1 <= size < Buckets[1].2; }
    else if size < 8 * MiB { assert Buckets[2].1 <= size < Buckets[2].2; }
    else if size < TiB { assert Buckets[3].1 <= size < Buckets[3].2; }
  }

  /** The histogram's counts add up to the number of blocks below 1 TiB. */
  lemma {:induction false} BucketCountsAddUp(sizes: seq<nat>)
    ensures CountInRange(sizes, 0, MiB) + CountInRange(sizes, MiB, 4 * MiB)
          + CountInRange(sizes, 4 * MiB, 8 * MiB) + CountInRange(sizes, 8 * MiB, TiB)
         == CountInRange(sizes, 0, TiB)
  {
    if sizes != [] {
      BucketCountsAddUp(sizes[1..]);
    }
  }

  /** The histogram: one count per bucket name, every name always present. */
  method GetBlockDistribution(sizes: seq<nat>) returns (distribution: map<string, nat>)
    ensures distribution.Keys == {"under_1mb", "1mb_4mb", "4mb_8mb", "over_8mb"}
    ensures forall b :: 0 <= b < |Buckets| ==>
              distribution[Buckets[b].0] == CountInRange(sizes, Buckets[b].1, Buckets[b].2)
    ensures distribution["under_1mb"] + distribution["1mb_4mb"] + distribution["4mb_8mb"]
          + distribution["over_8mb"] == CountInRange(sizes, 0, TiB)
  {
    distribution := map[];
    var i := 0;
    while i < |Buckets|
      invariant i <= |Buckets|
      invariant distribution.Keys == set b | 0 <= b < i :: Buckets[b].0
      invariant forall b :: 0 <= b < i ==>
                  distribution[Buckets[b].0] == CountInRange(sizes, Buckets[b].1, Buckets[b].2)
    {
      var (name, low, high) := Buckets[i];
      distribution := distribution[name := CountInRange(sizes, low, high)];
      i := i + 1;
    }
    assert distribution.Keys == {Buckets[0].0, Buckets[1].0, Buckets[2].0, Buckets[3].0} by {
      forall x ensures x in distribution.Keys <==> x in {Buckets[0].0, Buckets[1].0, Buckets[2].0, Buckets[3].0} {
        if x in distribution.Keys {
          var b :| 0 <= b < 4 && Buckets[b].0 == x;
        }
      }
    }
    BucketCountsAddUp(sizes);
  }
}
