/**
 * MemoryDumpEvent in memory_dump_event.py: the process dumps of one global
 * memory dump, and their statistics summed over the processes.
 */
module MemoryDumpEvents {
  import opened MmapCategories
  import opened AllocatorFolding
  import opened ProcessMemoryDumps

  /** The statistics of one process, by key. */
  type Stats = map<string, int>

  /** The value under `key`, 0 when missing (dict.get(key, 0)). */
  function StatOr(stats: Stats, key: string): int
  {
    if key in stats then stats[key] else 0
  }

  /** _AggregateProcessStats on the statistics of each process, in order. */
  function SumStats(perDump: seq<Stats>): Stats
  {
    if perDump == [] then map[] else AddAttrs(SumStats(perDump[..|perDump| - 1]), perDump[|perDump| - 1])
  }

  /** The total of one key over the processes, a missing key counting as 0. */
  function Total(perDump: seq<Stats>, key: string): int
  {
    if perDump == [] then 0 else Total(perDump[..|perDump| - 1], key) + StatOr(perDump[|perDump| - 1], key)
  }

  /**
   * The aggregate has a key exactly when some process reports it, and holds
   * under it the total over all processes.
   */
  lemma {:induction false} SumStatsAt(perDump: seq<Stats>, key: string)
    ensures key in SumStats(perDump) <==> exists i :: 0 <= i < |perDump| && key in perDump[i]
    ensures StatOr(SumStats(perDump), key) == Total(perDump, key)
  {
    if perDump != [] {
      var init := perDump[..|perDump| - 1];
      SumStatsAt(init, key);
      if key in SumStats(perDump) && key !in perDump[|perDump| - 1] {
        var i :| 0 <= i < |init| && key in init[i];
        assert perDump[i] == init[i];
      }
      if exists i :: 0 <= i < |perDump| && key in perDump[i] {
        var i :| 0 <= i < |perDump| && key in perDump[i];
        if i < |init| {
          assert key in init[i];
        }
      }
    }
  }

  /** Taking one process out of the total takes out its value. */
  lemma {:induction false} TotalRemove(perDump: seq<Stats>, j: int, key: string)
    requires 0 <= j < |perDump|
    ensures Total(perDump, key) == Total(perDump[..j] + perDump[j + 1..], key) + StatOr(perDump[j], key)
  {
    var last := |perDump| - 1;
    if j < last {
      var init := perDump[..last];
      TotalRemove(init, j, key);
      var rest := perDump[..j] + perDump[j + 1..];
      assert rest[..|rest| - 1] == init[..j] + init[j + 1..];
      assert rest[|rest| - 1] == perDump[last];
    } else {
      assert perDump[..j] + perDump[j + 1..] == perDump[..last];
    }
  }

  /** The total of a key does not depend on the order of the processes. */
  lemma {:induction false} TotalPermutation(perDump: seq<Stats>, reordered: seq<Stats>, key: string)
    requires multiset(perDump) == multiset(reordered)
    ensures Total(perDump, key) == Total(reordered, key)
    decreases |perDump|
  {
    if perDump == [] {
      assert |reordered| == |multiset(reordered)| == 0;
    } else {
      var x := perDump[|perDump| - 1];
      var prefix := perDump[..|perDump| - 1];
      assert perDump == prefix + [x];
      assert x in multiset(reordered);
      var j :| 0 <= j < |reordered| && reordered[j] == x;
      var rest := reordered[..j] + reordered[j + 1..];
      assert reordered == reordered[..j] + [x] + reordered[j + 1..];
      assert multiset(perDump) == multiset(prefix) + multiset{x};
      assert multiset(reordered) == multiset(reordered[..j]) + multiset{x} + multiset(reordered[j + 1..]);
      assert multiset(rest) == multiset(reordered[..j]) + multiset(reordered[j + 1..]);
      assert multiset(prefix) == multiset(perDump) - multiset{x};
      assert multiset(rest) == multiset(reordered) - multiset{x};
      TotalPermutation(prefix, rest, key);
      TotalRemove(reordered, j, key);
    }
  }

  /**
   * The aggregate does not depend on the order of the processes, so sorting the
   * process dumps by their start offset leaves every summed statistic as it is.
   */
  lemma SumStatsPermutation(perDump: seq<Stats>, reordered: seq<Stats>)
    requires multiset(perDump) == multiset(reordered)
    ensures SumStats(perDump) == SumStats(reordered)
  {
    forall key
      ensures key in SumStats(perDump) <==> key in SumStats(reordered)
      ensures StatOr(SumStats(perDump), key) == StatOr(SumStats(reordered), key)
    {
      SumStatsAt(perDump, key);
      SumStatsAt(reordered, key);
      TotalPermutation(perDump, reordered, key);
      if exists i :: 0 <= i < |perDump| && key in perDump[i] {
        var i :| 0 <= i < |perDump| && key in perDump[i];
        assert perDump[i] in multiset(reordered);
        var j :| 0 <= j < |reordered| && reordered[j] == perDump[i];
      }
      if exists j :: 0 <= j < |reordered| && key in reordered[j] {
        var j :| 0 <= j < |reordered| && key in reordered[j];
        assert reordered[j] in multiset(perDump);
        var i :| 0 <= i < |perDump| && perDump[i] == reordered[j];
      }
    }
    assert forall key :: key in SumStats(perDump) ==> SumStats(perDump)[key] == SumStats(reordered)[key];
  }

  /** A single process's statistics aggregate to themselves. */
  lemma SumStatsOfOne(stats: Stats)
    ensures SumStats([stats]) == stats
  {
    assert [stats][..0] == [];
  }

  /** The inner loop of _AggregateProcessStats: result[key] = result.get(key, 0) + value for each entry. */
  method AddProcessStats(result: Stats, stats: Stats) returns (r: Stats)
    ensures r == AddAttrs(result, stats)
  {
    ghost var done: set<string> := {};
    r := result;
    var keys := stats.Keys;
    while keys != {}
      invariant keys + done == stats.Keys && keys !! done
      invariant AddedSoFar(r, result, stats, done)
      decreases keys
    {
      var k :| k in keys;
      AddedSoFarStep(r, result, stats, done, k);
      r := r[k := StatOr(r, k) + stats[k]];
      keys := keys - {k};
      done := done + {k};
    }
    AddedSoFarAll(r, result, stats, done);
  }

  /** _AggregateProcessStats: the statistics of every process, summed key by key. */
  method AggregateProcessStats(perDump: seq<Stats>) returns (result: Stats)
    ensures result == SumStats(perDump)
  {
    result := map[];
    for i := 0 to |perDump|
      invariant result == SumStats(perDump[..i])
    {
      assert perDump[..i + 1][..i] == perDump[..i];
      result := AddProcessStats(result, perDump[i]);
    }
    assert perDump[..|perDump|] == perDump;
  }

  /** All events carry the global dump id of the first. */
  predicate SameDumpId(events: seq<DumpEvent>)
  {
    forall i :: 0 <= i < |events| ==> events[i].id == events[0].id
  }

  /** No two events come from the same process. */
  predicate DistinctPids(events: seq<DumpEvent>)
  {
    forall i, j :: 0 <= i < j < |events| ==> events[i].pid != events[j].pid
  }

  /** Either every event has memory maps or none has: each agrees with the first. */
  predicate SameHasMmaps(events: seq<DumpEvent>)
  {
    forall i :: 0 <= i < |events| ==> (events[i].vmRegions != []) == (events[0].vmRegions != [])
  }

  function DumpIds(events: seq<DumpEvent>): set<string>
  {
    set i | 0 <= i < |events| :: events[i].id
  }

  function PidSet(events: seq<DumpEvent>): set<int>
  {
    set i | 0 <= i < |events| :: events[i].pid
  }

  function HasMmapsSet(events: seq<DumpEvent>): set<bool>
  {
    set i | 0 <= i < |events| :: events[i].vmRegions != []
  }

  /** The set of dump ids has one element exactly when all events share their id. */
  lemma DumpIdsSingleton(events: seq<DumpEvent>)
    requires events != []
    ensures |DumpIds(events)| == 1 <==> SameDumpId(events)
  {
    var s := DumpIds(events);
    assert events[0].id in s;
    if SameDumpId(events) {
      assert s == {events[0].id};
    } else {
      var i :| 0 <= i < |events| && events[i].id != events[0].id;
      assert events[i].id in s - {events[0].id};
      assert |s - {events[0].id}| == |s| - 1;
    }
  }

  /** The set of has_mmaps flags has one element exactly when the events agree on it. */
  lemma HasMmapsSingleton(events: seq<DumpEvent>)
    requires events != []
    ensures |HasMmapsSet(events)| == 1 <==> SameHasMmaps(events)
  {
    var s := HasMmapsSet(events);
    assert (events[0].vmRegions != []) in s;
    if SameHasMmaps(events) {
      assert s == {events[0].vmRegions != []};
    } else {
      var i :| 0 <= i < |events| && (events[i].vmRegions != []) != (events[0].vmRegions != []);
      assert (events[i].vmRegions != []) in s - {events[0].vmRegions != []};
      assert |s - {events[0].vmRegions != []}| == |s| - 1;
    }
  }

  /** Adding an event adds its pid to the set of pids. */
  lemma PidSetSnoc(events: seq<DumpEvent>)
    requires events != []
    ensures PidSet(events) == PidSet(events[..|events| - 1]) + {events[|events| - 1].pid}
  {
    var init := events[..|events| - 1];
    forall p ensures p in PidSet(events) <==> p in PidSet(init) + {events[|events| - 1].pid} {
      if p in PidSet(events) {
        var i :| 0 <= i < |events| && events[i].pid == p;
        if i < |init| {
          assert init[i].pid == p;
        }
      }
      if p in PidSet(init) {
        var i :| 0 <= i < |init| && init[i].pid == p;
        assert events[i].pid == p;
      }
    }
  }

  /** An event with a new pid keeps the pids distinct exactly when they were before. */
  lemma DistinctPidsSnoc(events: seq<DumpEvent>)
    requires events != [] && events[|events| - 1].pid !in PidSet(events[..|events| - 1])
    ensures DistinctPids(events) <==> DistinctPids(events[..|events| - 1])
  {
    var init := events[..|events| - 1];
    if DistinctPids(init) {
      forall i, j | 0 <= i < j < |events| ensures events[i].pid != events[j].pid {
        if j < |init| {
          assert init[i].pid != init[j].pid;
        } else {
          assert events[i].pid == init[i].pid;
        }
      }
    }
    if DistinctPids(events) {
      forall i, j | 0 <= i < j < |init| ensures init[i].pid != init[j].pid {
        assert events[i].pid != events[j].pid;
      }
    }
  }

  /** There are as many pids as events exactly when no pid repeats. */
  lemma {:induction false} PidCount(events: seq<DumpEvent>)
    ensures |PidSet(events)| <= |events|
    ensures |PidSet(events)| == |events| <==> DistinctPids(events)
  {
    if events != [] {
      var init := events[..|events| - 1];
      var last := events[|events| - 1];
      PidCount(init);
      PidSetSnoc(events);
      if last.pid in PidSet(init) {
        var i :| 0 <= i < |init| && init[i].pid == last.pid;
        assert events[i].pid == events[|events| - 1].pid;
      } else {
        DistinctPidsSnoc(events);
      }
    }
  }

  /** What the constructor of ProcessMemoryDump makes of `e`. */
  ghost predicate DumpOf(search: Search, d: ProcessMemoryDump, e: DumpEvent)
    reads d
  {
    && ValidEvent(e) && d.Valid() && ClassificationTree(d.root)
    && d.dumpId == e.id && d.pid == e.pid && d.hasMmaps == (e.vmRegions != [])
    && d.allocators == FoldedAllocators(e.allocatorDumps)
    && d.buckets == RegionsAdded(map[], search, d.root, e.vmRegions)
  }

  /** The process dump of one event. */
  method NewDump(search: Search, e: DumpEvent) returns (d: ProcessMemoryDump)
    requires ValidEvent(e)
    ensures fresh(d) && DumpOf(search, d, e)
  {
    d := new ProcessMemoryDump(search, e);
    RootIsClassificationTree();
  }

  /** The first dumps are what the constructor of ProcessMemoryDump makes of the events at their positions. */
  ghost predicate DumpsUpTo(search: Search, dumps: seq<ProcessMemoryDump>, events: seq<DumpEvent>)
    reads dumps
  {
    |dumps| <= |events| && forall i :: 0 <= i < |dumps| ==> DumpOf(search, dumps[i], events[i])
  }

  /** Each dump is what the constructor of ProcessMemoryDump makes of the event at its position. */
  ghost predicate DumpsOf(search: Search, dumps: seq<ProcessMemoryDump>, events: seq<DumpEvent>)
    reads dumps
  {
    |dumps| == |events| && DumpsUpTo(search, dumps, events)
  }

  lemma DumpsUpToSnoc(search: Search, dumps: seq<ProcessMemoryDump>, events: seq<DumpEvent>, d: ProcessMemoryDump)
    requires DumpsUpTo(search, dumps, events) && |dumps| < |events| && DumpOf(search, d, events[|dumps|])
    ensures DumpsUpTo(search, dumps + [d], events)
  {
  }

  lemma DumpsOfValid(search: Search, dumps: seq<ProcessMemoryDump>, events: seq<DumpEvent>)
    requires DumpsOf(search, dumps, events)
    ensures AllValid(dumps)
  {
  }

  /** [ProcessMemoryDump(event) for event in events]: one new process dump per event, in order. */
  method NewDumps(search: Search, events: seq<DumpEvent>) returns (dumps: seq<ProcessMemoryDump>)
    requires forall i :: 0 <= i < |events| ==> ValidEvent(events[i])
    ensures DumpsOf(search, dumps, events)
    ensures forall i, j :: 0 <= i < j < |dumps| ==> dumps[i] != dumps[j]
  {
    dumps := [];
    for i := 0 to |events|
      invariant |dumps| == i && DumpsUpTo(search, dumps, events)
      invariant forall j, k :: 0 <= j < k < |dumps| ==> dumps[j] != dumps[k]
    {
      var d := NewDump(search, events[i]);
      DumpsUpToSnoc(search, dumps, events, d);
      dumps := dumps + [d];
    }
  }

  /** Every process dump is valid. */
  ghost predicate AllValid(dumps: seq<ProcessMemoryDump>)
    reads dumps
  {
    forall i :: 0 <= i < |dumps| ==> dumps[i].Valid()
  }

  /** The buckets of the process dumps, in order. */
  ghost function BucketsOf(dumps: seq<ProcessMemoryDump>): (r: seq<Contents>)
    reads dumps
    ensures |r| == |dumps| && forall i :: 0 <= i < |dumps| ==> r[i] == dumps[i].buckets
  {
    if dumps == [] then [] else BucketsOf(dumps[..|dumps| - 1]) + [dumps[|dumps| - 1].buckets]
  }

  /** The first entries of `perDump` are the summaries of the first dumps, taken on their buckets in `before`. */
  ghost predicate SummarizedUpTo(perDump: seq<Stats>, before: seq<Contents>, dumps: seq<ProcessMemoryDump>)
  {
    && |perDump| <= |before| == |dumps|
    && forall i :: 0 <= i < |perDump| ==>
         AllBuckets(before[i]) && HasFixedKeys(dumps[i].allocators) && perDump[i] == StatsSummary(before[i], dumps[i].allocators)
  }

  /** `perDump` holds, for each dump, the summary of its buckets in `before`. */
  ghost predicate Summarized(perDump: seq<Stats>, before: seq<Contents>, dumps: seq<ProcessMemoryDump>)
  {
    |perDump| == |dumps| && SummarizedUpTo(perDump, before, dumps)
  }

  lemma SummarizedSnoc(perDump: seq<Stats>, before: seq<Contents>, dumps: seq<ProcessMemoryDump>, s: Stats)
    requires SummarizedUpTo(perDump, before, dumps) && |perDump| < |dumps|
    requires AllBuckets(before[|perDump|]) && HasFixedKeys(dumps[|perDump|].allocators)
    requires s == StatsSummary(before[|perDump|], dumps[|perDump|].allocators)
    ensures SummarizedUpTo(perDump + [s], before, dumps)
  {
  }

  /** Each process dump's GetStatsSummary, in order; each call changes only its own dump. */
  method SummarizeDumps(dumps: seq<ProcessMemoryDump>) returns (perDump: seq<Stats>)
    requires AllValid(dumps)
    requires forall i, j :: 0 <= i < j < |dumps| ==> dumps[i] != dumps[j]
    modifies dumps
    ensures AllValid(dumps) && Summarized(perDump, old(BucketsOf(dumps)), dumps)
    ensures forall j :: 0 <= j < |dumps| ==> OnlyZeroBucketsAdded(old(BucketsOf(dumps))[j], dumps[j].buckets)
  {
    ghost var before := BucketsOf(dumps);
    perDump := [];
    for i := 0 to |dumps|
      invariant AllValid(dumps)
      invariant forall j :: 0 <= j < i ==> OnlyZeroBucketsAdded(before[j], dumps[j].buckets)
      invariant forall j :: i <= j < |dumps| ==> dumps[j].buckets == before[j]
      invariant |perDump| == i && SummarizedUpTo(perDump, before, dumps)
    {
      var stats := dumps[i].GetStatsSummary();
      SummarizedSnoc(perDump, before, dumps, stats);
      perDump := perDump + [stats];
    }
  }

  /**
   * Summaries taken again, after every dump has gained at most zero buckets,
   * are the same, so a second GetStatsSummary returns what the first did.
   */
  lemma SummarizedAgain(perDump: seq<Stats>, before: seq<Contents>, again: seq<Stats>, after: seq<Contents>,
                        dumps: seq<ProcessMemoryDump>)
    requires Summarized(perDump, before, dumps) && Summarized(again, after, dumps)
    requires forall j :: 0 <= j < |dumps| ==> OnlyZeroBucketsAdded(before[j], after[j])
    ensures again == perDump
  {
    forall j | 0 <= j < |dumps| ensures again[j] == perDump[j] {
      SummaryKeptByZeroBuckets(before[j], after[j], dumps[j].allocators);
    }
  }

  /** The allocator statistics of the process dumps, in order. */
  function AllocatorStatsOf(dumps: seq<ProcessMemoryDump>): seq<Stats>
  {
    seq(|dumps|, i requires 0 <= i < |dumps| => AllocatorStats(dumps[i].allocators))
  }

  class MemoryDumpEvent {
    const processDumps: seq<ProcessMemoryDump>
    const dumpId: string
    const pids: set<int>
    const hasMmaps: bool

    /** Every process dump is valid and each is its own object. */
    ghost predicate Valid()
      reads this, processDumps
    {
      && AllValid(processDumps)
      && (forall i, j :: 0 <= i < j < |processDumps| ==> processDumps[i] != processDumps[j])
    }

    /**
     * The constructor: one process dump per event, in order. The source's
     * assertions (at least one event; one dump id; one dump per pid; has_mmaps
     * the same everywhere) are its requirements.
     */
    constructor(search: Search, events: seq<DumpEvent>)
      requires events != [] && forall i :: 0 <= i < |events| ==> ValidEvent(events[i])
      requires SameDumpId(events) && DistinctPids(events) && SameHasMmaps(events)
      ensures Valid() && DumpsOf(search, processDumps, events)
      ensures dumpId == events[0].id && pids == PidSet(events) && hasMmaps == (events[0].vmRegions != [])
    {
      var dumps := NewDumps(search, events);
      DumpsOfValid(search, dumps, events);
      processDumps := dumps;
      dumpId := events[0].id;
      pids := PidSet(events);
      hasMmaps := events[0].vmRegions != [];
    }

    /**
     * GetStatsSummary: the summaries of the process dumps, each taken on the
     * buckets it had before the call, summed key by key.
     */
    method GetStatsSummary() returns (r: Stats, ghost perDump: seq<Stats>)
      requires Valid()
      modifies processDumps
      ensures Valid() && Summarized(perDump, old(BucketsOf(processDumps)), processDumps)
      ensures forall j :: 0 <= j < |processDumps| ==>
        OnlyZeroBucketsAdded(old(BucketsOf(processDumps))[j], processDumps[j].buckets)
      ensures r == SumStats(perDump)
    {
      var summaries := SummarizeDumps(processDumps);
      perDump := summaries;
      r := AggregateProcessStats(summaries);
    }

    /** GetAllocatorStats: the allocator sizes of the process dumps, summed allocator by allocator. */
    method GetAllocatorStats() returns (r: Stats)
      ensures r == SumStats(AllocatorStatsOf(processDumps))
    {
      var perDump: seq<Stats> := [];
      for i := 0 to |processDumps|
        invariant |perDump| == i
        invariant forall j :: 0 <= j < i ==> perDump[j] == AllocatorStats(processDumps[j].allocators)
      {
        perDump := perDump + [processDumps[i].GetAllocatorStats()];
      }
      assert perDump == AllocatorStatsOf(processDumps);
      r := AggregateProcessStats(perDump);
    }
  }
}
