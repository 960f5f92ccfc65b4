/**
 * MemoryBucket in memory_dump_event.py: six counters named by their long
 * attribute names, all starting at zero, to which AddRegion adds the hex
 * byte statistics of one memory region, read under the short keys of the
 * raw trace.
 */
module MemoryBuckets {
  import opened DumpHex

  /** BUCKET_ATTRS: long attribute name to the short key of the raw trace. */
  const BucketAttrs: map<string, string> := map[
    "proportional_resident" := "pss",
    "private_dirty_resident" := "pd",
    "private_clean_resident" := "pc",
    "shared_dirty_resident" := "sd",
    "shared_clean_resident" := "sc",
    "swapped" := "sw"]

  /** The byte statistics of a region ('bs'): short key to hex string. */
  type ByteStats = map<string, string>

  /** The six counters of a bucket, by long attribute name. */
  type BucketValues = map<string, int>

  /** Every statistic AddRegion reads parses; any other raises ValueError. */
  predicate ValidByteStats(stats: ByteStats)
  {
    forall long :: long in BucketAttrs && BucketAttrs[long] in stats ==> IsHexNumeral(stats[BucketAttrs[long]])
  }

  /** The counters of a bucket: exactly the six attributes. */
  predicate IsBucket(values: BucketValues)
  {
    values.Keys == BucketAttrs.Keys
  }

  /** The amount a region adds to `long`: int(byte_stats.get(short, '0'), 16). */
  function StatValue(stats: ByteStats, long: string): int
    requires ValidByteStats(stats) && long in BucketAttrs
  {
    var short := BucketAttrs[long];
    assert Digits("0") == "0";
    HexValue(if short in stats then stats[short] else "0")
  }

  /** A fresh bucket: every attribute at zero. */
  function ZeroBucket(): (r: BucketValues)
    ensures IsBucket(r)
  {
    map long | long in BucketAttrs :: 0
  }

  /** The bucket after one region is added. */
  function AddedStats(values: BucketValues, stats: ByteStats): (r: BucketValues)
    requires IsBucket(values) && ValidByteStats(stats)
    ensures IsBucket(r)
  {
    map long | long in values :: values[long] + StatValue(stats, long)
  }

  /** The loop of MemoryBucket.AddRegion, on the counters it updates. */
  method AddRegionToValues(values: BucketValues, stats: ByteStats) returns (r: BucketValues)
    requires IsBucket(values) && ValidByteStats(stats)
    ensures r == AddedStats(values, stats)
  {
    ghost var target := AddedStats(values, stats);
    r := values;
    var keys := values.Keys;
    while keys != {}
      invariant keys <= r.Keys == values.Keys
      invariant forall long :: long in keys ==> r[long] == values[long]
      invariant forall long :: long in r && long !in keys ==> r[long] == target[long]
      decreases keys
    {
      var long :| long in keys;
      r := r[long := r[long] + StatValue(stats, long)];
      keys := keys - {long};
    }
  }

  class MemoryBucket {
    var values: BucketValues
    /** The regions added so far, in order. */
    ghost var regions: seq<ByteStats>

    /** The counters are the sum of the regions added. */
    ghost predicate Valid()
      reads this
    {
      && (forall i :: 0 <= i < |regions| ==> ValidByteStats(regions[i]))
      && values == SumOfStats(regions)
    }

    /** dict.fromkeys(BUCKET_ATTRS, 0). */
    constructor()
      ensures Valid() && values == ZeroBucket() && regions == []
    {
      values := ZeroBucket();
      regions := [];
    }

    /** AddRegion: each attribute grows by the hex value of its short key, a missing key counting as 0. */
    method AddRegion(stats: ByteStats)
      requires Valid() && ValidByteStats(stats)
      modifies this
      ensures Valid() && values == AddedStats(old(values), stats) && regions == old(regions) + [stats]
    {
      values := AddRegionToValues(values, stats);
      regions := regions + [stats];
      assert regions[..|regions| - 1] == old(regions);
    }

    /** GetValue: the total of one attribute over the regions added; any other name raises KeyError. */
    function GetValue(name: string): (r: int)
      reads this
      requires Valid() && name in BucketAttrs
      ensures r == AttrTotal(regions, name)
    {
      SumOfStatsIsTotal(regions, name);
      values[name]
    }
  }

  /** The bucket every region of `regions` has been added to, in order, starting from zero. */
  function SumOfStats(regions: seq<ByteStats>): (r: BucketValues)
    requires forall i :: 0 <= i < |regions| ==> ValidByteStats(regions[i])
    ensures IsBucket(r)
  {
    if regions == [] then ZeroBucket() else AddedStats(SumOfStats(regions[..|regions| - 1]), regions[|regions| - 1])
  }

  /** The total of one attribute over a list of regions. */
  function AttrTotal(regions: seq<ByteStats>, long: string): int
    requires forall i :: 0 <= i < |regions| ==> ValidByteStats(regions[i])
    requires long in BucketAttrs
  {
    if regions == [] then 0 else AttrTotal(regions[..|regions| - 1], long) + StatValue(regions[|regions| - 1], long)
  }

  /** Each counter of the summed bucket is the total of that attribute over the regions. */
  lemma {:induction false} SumOfStatsIsTotal(regions: seq<ByteStats>, long: string)
    requires forall i :: 0 <= i < |regions| ==> ValidByteStats(regions[i])
    requires long in BucketAttrs
    ensures SumOfStats(regions)[long] == AttrTotal(regions, long)
  {
    if regions != [] {
      SumOfStatsIsTotal(regions[..|regions| - 1], long);
    }
  }

  /** No statistic of `stats` carries a minus sign: every amount a region adds is at least zero. */
  predicate NonNegativeStats(stats: ByteStats)
  {
    forall short :: short in stats ==> !IsNegative(stats[short])
  }

  /** Counters only grow when regions without negative statistics are added. */
  lemma AddedStatsGrows(values: BucketValues, stats: ByteStats)
    requires IsBucket(values) && ValidByteStats(stats) && NonNegativeStats(stats)
    ensures forall long :: long in values ==> AddedStats(values, stats)[long] >= values[long]
  {
    forall long | long in values ensures StatValue(stats, long) >= 0 {
      var short := BucketAttrs[long];
      if short in stats {
        HexValueNonNegative(stats[short]);
      }
    }
  }

  /** Regions may be added in either order. */
  lemma AddedStatsCommute(values: BucketValues, a: ByteStats, b: ByteStats)
    requires IsBucket(values) && ValidByteStats(a) && ValidByteStats(b)
    ensures AddedStats(AddedStats(values, a), b) == AddedStats(AddedStats(values, b), a)
  {
  }

  /** A region whose statistics are all missing adds nothing. */
  lemma AddedEmptyStats(values: BucketValues)
    requires IsBucket(values)
    ensures AddedStats(values, map[]) == values
  {
    assert IsHexNumeral("0") && HexValue("0") == 0 by {
      assert Digits("0") == "0";
    }
  }
}
