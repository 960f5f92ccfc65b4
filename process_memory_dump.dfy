/**
 * ProcessMemoryDump in memory_dump_event.py: the memory of one process,
 * classified. Each memory region is added to the bucket of every category on
 * its path from the root of the classification tree; buckets are created on
 * first use; values are read back as "<category path>.<attribute>", optionally
 * less the tracing allocator's resident size.
 */
module ProcessMemoryDumps {
  import opened Wrappers
  import opened Text
  import opened MmapCategories
  import opened MemoryBuckets
  import opened AllocatorFolding

  /** A memory region of the trace: its mapped file ('mf') and byte statistics ('bs'). */
  datatype VmRegion = VmRegion(mappedFile: string, byteStats: ByteStats)

  /**
   * One process's dump event. A trace without allocator dumps or without
   * memory maps gives an empty list, as the source's KeyError handlers do.
   */
  datatype DumpEvent = DumpEvent(ph: string, id: string, pid: int, allocatorDumps: seq<AllocatorDump>, vmRegions: seq<VmRegion>)

  predicate ValidRegions(regions: seq<VmRegion>)
  {
    forall i :: 0 <= i < |regions| ==> ValidByteStats(regions[i].byteStats)
  }

  /** What the constructor demands of its event: phase 'v' and numbers that parse. */
  predicate ValidEvent(e: DumpEvent)
  {
    e.ph == "v" && ValidAllocatorDumps(e.allocatorDumps) && ValidRegions(e.vmRegions)
  }

  /** The counters of all buckets, by category path. */
  type Contents = map<string, BucketValues>

  predicate AllBuckets(c: Contents)
  {
    forall p :: p in c ==> IsBucket(c[p])
  }

  /** The bucket at `path`, or a fresh one. */
  function BucketOr(c: Contents, path: string): (r: BucketValues)
    requires AllBuckets(c)
    ensures IsBucket(r)
  {
    if path in c then c[path] else ZeroBucket()
  }

  /** The buckets after GetMemoryBucket(path): a zero bucket is added when none is there. */
  function WithBucket(c: Contents, path: string): (r: Contents)
    requires AllBuckets(c)
    ensures AllBuckets(r)
  {
    if path in c then c else c[path := ZeroBucket()]
  }

  /** The buckets after one region has been added to the bucket at `path`. */
  function Bumped(c: Contents, path: string, stats: ByteStats): (r: Contents)
    requires AllBuckets(c) && ValidByteStats(stats)
    ensures AllBuckets(r)
  {
    c[path := AddedStats(BucketOr(c, path), stats)]
  }

  /** Bumping is writing the grown bucket back over the one GetMemoryBucket returns. */
  lemma BumpedInPlace(c: Contents, path: string, stats: ByteStats)
    requires AllBuckets(c) && ValidByteStats(stats)
    ensures WithBucket(c, path)[path := AddedStats(BucketOr(c, path), stats)] == Bumped(c, path, stats)
  {
  }

  /** The buckets after one region has been added along `paths`, in order. */
  function AddedAlong(c: Contents, paths: seq<string>, stats: ByteStats): (r: Contents)
    requires AllBuckets(c) && ValidByteStats(stats)
    ensures AllBuckets(r)
  {
    if paths == [] then c
    else Bumped(AddedAlong(c, paths[..|paths| - 1], stats), paths[|paths| - 1], stats)
  }

  /** A tree regions can be classified by: its root is '/' and every category below has a component name. */
  predicate ClassificationTree(root: Category)
  {
    root.name == "/" && WellNamed(root)
  }

  /** ROOT_CATEGORY is such a tree. */
  lemma RootIsClassificationTree()
    ensures ClassificationTree(RootCategory)
  {
    RootWellNamed();
  }

  /** Adding along one more path bumps that path's bucket. */
  lemma AddedAlongStep(c: Contents, visited: seq<string>, path: string, stats: ByteStats) returns (r: seq<string>)
    requires AllBuckets(c) && ValidByteStats(stats)
    ensures r == visited + [path]
    ensures AddedAlong(c, r, stats) == Bumped(AddedAlong(c, visited, stats), path, stats)
  {
    r := visited + [path];
    assert r[..|visited|] == visited;
  }

  /** The category paths of a mapped file, from the root of `root` down. */
  function RegionPaths(search: Search, root: Category, mappedFile: string): seq<string>
  {
    CategoryPaths(search, root, "", mappedFile)
  }

  /** The buckets after `regions` have been added, in order. */
  function RegionsAdded(c: Contents, search: Search, root: Category, regions: seq<VmRegion>): (r: Contents)
    requires AllBuckets(c) && ValidRegions(regions)
    ensures AllBuckets(r)
  {
    if regions == [] then c
    else
      var last := regions[|regions| - 1];
      AddedAlong(RegionsAdded(c, search, root, regions[..|regions| - 1]), RegionPaths(search, root, last.mappedFile), last.byteStats)
  }

  predicate Distinct(s: seq<string>)
  {
    forall i, j :: 0 <= i < j < |s| ==> s[i] != s[j]
  }

  /** The paths of a region are pairwise distinct and start at '/'. */
  lemma RegionPathsDistinct(search: Search, root: Category, mappedFile: string)
    requires ClassificationTree(root)
    ensures Distinct(RegionPaths(search, root, mappedFile))
    ensures RegionPaths(search, root, mappedFile)[0] == "/"
  {
    CategoryPathsGrow(search, root, "", mappedFile);
  }

  /** The paths the walk of _AddRegion has still to visit, from `category` below `parent`. */
  function PathsFrom(search: Search, category: Option<Category>, parent: string, mappedFile: string): seq<string>
  {
    if category.None? then [] else CategoryPaths(search, category.value, parent, mappedFile)
  }

  /** The height of what remains to visit, which each step of the walk lowers. */
  function OptionHeight(category: Option<Category>): nat
  {
    if category.None? then 0 else Height(category.value)
  }

  /** One step of the walk: the path of `c` itself, then the paths below its matching child. */
  lemma PathsFromStep(search: Search, c: Category, parent: string, mappedFile: string)
    ensures PathsFrom(search, Some(c), parent, mappedFile) ==
      [JoinPath(parent, c.name)] + PathsFrom(search, GetMatchingChild(search, c, mappedFile), JoinPath(parent, c.name), mappedFile)
    ensures OptionHeight(GetMatchingChild(search, c, mappedFile)) < Height(c)
  {
    if GetMatchingChild(search, c, mappedFile).Some? {
      MatchingChildLower(search, c, mappedFile);
    }
  }

  /** The walk's bookkeeping: visiting `c` moves its path from what remains to what is visited. */
  lemma WalkStep(search: Search, c: Category, parent: string, mappedFile: string, visited: seq<string>, all: seq<string>)
    requires visited + PathsFrom(search, Some(c), parent, mappedFile) == all
    ensures (visited + [JoinPath(parent, c.name)]) +
      PathsFrom(search, GetMatchingChild(search, c, mappedFile), JoinPath(parent, c.name), mappedFile) == all
    ensures OptionHeight(GetMatchingChild(search, c, mappedFile)) < Height(c)
  {
    PathsFromStep(search, c, parent, mappedFile);
    var rest := PathsFrom(search, GetMatchingChild(search, c, mappedFile), JoinPath(parent, c.name), mappedFile);
    assert visited + ([JoinPath(parent, c.name)] + rest) == (visited + [JoinPath(parent, c.name)]) + rest;
  }

  /** Adding along distinct paths adds the region once to each of them and leaves every other bucket. */
  lemma {:induction false} AddedAlongAt(c: Contents, paths: seq<string>, stats: ByteStats, p: string)
    requires AllBuckets(c) && ValidByteStats(stats) && Distinct(paths)
    ensures p in AddedAlong(c, paths, stats) <==> p in c || p in paths
    ensures p in AddedAlong(c, paths, stats) ==>
      AddedAlong(c, paths, stats)[p] == if p in paths then AddedStats(BucketOr(c, p), stats) else c[p]
  {
    if paths != [] {
      var init := paths[..|paths| - 1];
      var last := paths[|paths| - 1];
      DistinctSnoc(paths);
      AddedAlongAt(c, init, stats, p);
      if p == last {
        assert BucketOr(AddedAlong(c, init, stats), p) == BucketOr(c, p);
      }
    }
  }

  /** Without its last path a distinct list stays distinct and no longer holds that path. */
  lemma DistinctSnoc(paths: seq<string>)
    requires Distinct(paths) && paths != []
    ensures Distinct(paths[..|paths| - 1]) && paths[|paths| - 1] !in paths[..|paths| - 1]
    ensures forall p :: p in paths <==> p in paths[..|paths| - 1] || p == paths[|paths| - 1]
  {
    var init := paths[..|paths| - 1];
    assert paths == init + [paths[|paths| - 1]];
  }

  /** The byte statistics of the regions whose path passes through `path`, in order. */
  function RegionsThrough(search: Search, root: Category, regions: seq<VmRegion>, path: string): (r: seq<ByteStats>)
    requires ValidRegions(regions)
    ensures forall i :: 0 <= i < |r| ==> ValidByteStats(r[i])
  {
    if regions == [] then []
    else
      var last := regions[|regions| - 1];
      RegionsThrough(search, root, regions[..|regions| - 1], path) +
        (if path in RegionPaths(search, root, last.mappedFile) then [last.byteStats] else [])
  }

  /**
   * After the regions are added, there is a bucket at `path` exactly when some
   * region's path passes through it, and it holds the sum of those regions.
   */
  lemma {:induction false} RegionsAddedAt(search: Search, root: Category, regions: seq<VmRegion>, path: string)
    requires ClassificationTree(root) && ValidRegions(regions)
    ensures path in RegionsAdded(map[], search, root, regions) <==> RegionsThrough(search, root, regions, path) != []
    ensures path in RegionsAdded(map[], search, root, regions) ==>
      RegionsAdded(map[], search, root, regions)[path] == SumOfStats(RegionsThrough(search, root, regions, path))
  {
    if regions != [] {
      var init := regions[..|regions| - 1];
      var last := regions[|regions| - 1];
      var before := RegionsAdded(map[], search, root, init);
      var paths := RegionPaths(search, root, last.mappedFile);
      RegionsAddedAt(search, root, init, path);
      RegionPathsDistinct(search, root, last.mappedFile);
      AddedAlongAt(before, paths, last.byteStats, path);
      var through := RegionsThrough(search, root, init, path);
      if path in paths {
        assert RegionsThrough(search, root, regions, path) == through + [last.byteStats];
        assert (through + [last.byteStats])[..|through|] == through;
      } else {
        assert RegionsThrough(search, root, regions, path) == through;
      }
    }
  }

  /** The byte statistics of all regions, in order. */
  function AllStats(regions: seq<VmRegion>): (r: seq<ByteStats>)
    requires ValidRegions(regions)
    ensures |r| == |regions| && forall i :: 0 <= i < |r| ==> r[i] == regions[i].byteStats
  {
    if regions == [] then [] else AllStats(regions[..|regions| - 1]) + [regions[|regions| - 1].byteStats]
  }

  /** Every region passes through the root. */
  lemma {:induction false} EveryRegionThroughRoot(search: Search, root: Category, regions: seq<VmRegion>)
    requires ClassificationTree(root) && ValidRegions(regions)
    ensures RegionsThrough(search, root, regions, "/") == AllStats(regions)
  {
    if regions != [] {
      EveryRegionThroughRoot(search, root, regions[..|regions| - 1]);
      RegionPathsDistinct(search, root, regions[|regions| - 1].mappedFile);
    }
  }

  /** The root bucket is the sum of all regions: each attribute is that attribute's total. */
  lemma RootBucketIsTotal(search: Search, root: Category, regions: seq<VmRegion>, long: string)
    requires ClassificationTree(root) && ValidRegions(regions) && regions != [] && long in BucketAttrs
    ensures "/" in RegionsAdded(map[], search, root, regions)
    ensures RegionsAdded(map[], search, root, regions)["/"] == SumOfStats(AllStats(regions))
    ensures RegionsAdded(map[], search, root, regions)["/"][long] == AttrTotal(AllStats(regions), long)
  {
    EveryRegionThroughRoot(search, root, regions);
    RegionsAddedAt(search, root, regions, "/");
    SumOfStatsIsTotal(AllStats(regions), long);
  }

  /** category_path.rsplit('.', 1): the category path and the attribute name. */
  function SplitValuePath(categoryPath: string): (string, string)
    requires '.' in categoryPath
  {
    var pos := LastIndexOf(categoryPath, '.').value;
    (categoryPath[..pos], categoryPath[pos + 1..])
  }

  /** A value path splits at its last '.', whatever dots the category path holds. */
  lemma SplitValuePathOf(path: string, name: string)
    requires '.' !in name
    ensures '.' in ValuePath(path, name)
    ensures SplitValuePath(ValuePath(path, name)) == (path, name)
  {
    var s := ValuePath(path, name);
    assert s[|path|] == '.';
    LastIndexBefore(path, '.', name);
    assert s[..|path|] == path;
    assert s[|path| + 1..] == name;
  }

  /** What GetMemoryValue demands: a '.' to split at and an attribute name a bucket has. */
  predicate ValidValuePath(categoryPath: string)
  {
    '.' in categoryPath && SplitValuePath(categoryPath).1 in BucketAttrs
  }

  /** GetMemoryValue on the buckets `c`: a missing bucket reads as zero. */
  function MemoryValue(c: Contents, allocators: Allocators, categoryPath: string, discountTracing: bool): int
    requires AllBuckets(c) && HasFixedKeys(allocators) && ValidValuePath(categoryPath)
  {
    var (path, name) := SplitValuePath(categoryPath);
    var value := BucketOr(c, path)[name];
    if discountTracing then value - allocators["tracing"]["resident_size"] else value
  }

  /** A zero bucket added anywhere leaves every value as it reads. */
  lemma MemoryValueWithBucket(c: Contents, allocators: Allocators, categoryPath: string, discountTracing: bool, q: string)
    requires AllBuckets(c) && HasFixedKeys(allocators) && ValidValuePath(categoryPath)
    ensures MemoryValue(WithBucket(c, q), allocators, categoryPath, discountTracing) ==
      MemoryValue(c, allocators, categoryPath, discountTracing)
  {
  }

  /** The value path "<category path>.<attribute>". */
  function ValuePath(path: string, name: string): string
  {
    path + "." + name
  }

  /** STATS_SUMMARY: summary key to value path and whether tracing is discounted. */
  const StatsSummaryTable: map<string, (string, bool)> := map[
    "overall_pss" := (ValuePath("/", "proportional_resident"), true),
    "private_dirty" := (ValuePath("/", "private_dirty_resident"), true),
    "java_heap" := (ValuePath("/Android/Java runtime/Spaces", "proportional_resident"), false),
    "ashmem" := (ValuePath("/Android/Ashmem", "proportional_resident"), false),
    "native_heap" := (ValuePath("/Native heap", "proportional_resident"), true)]

  /** Every value path of the table is one GetMemoryValue accepts. */
  lemma StatsSummaryTablePaths()
    ensures forall key :: key in StatsSummaryTable ==> ValidValuePath(StatsSummaryTable[key].0)
  {
    assert '.' !in "proportional_resident" && '.' !in "private_dirty_resident";
    assert "proportional_resident" in BucketAttrs && "private_dirty_resident" in BucketAttrs;
    forall key | key in StatsSummaryTable
      ensures ValidValuePath(StatsSummaryTable[key].0)
    {
      var (path, name) :=
        if key == "overall_pss" then ("/", "proportional_resident")
        else if key == "private_dirty" then ("/", "private_dirty_resident")
        else if key == "java_heap" then ("/Android/Java runtime/Spaces", "proportional_resident")
        else if key == "ashmem" then ("/Android/Ashmem", "proportional_resident")
        else ("/Native heap", "proportional_resident");
      assert StatsSummaryTable[key].0 == ValuePath(path, name);
      SplitValuePathOf(path, name);
    }
  }

  /** The value the summary reports under `key`, on the buckets `c`. */
  function SummaryValue(c: Contents, allocators: Allocators, key: string): int
    requires AllBuckets(c) && HasFixedKeys(allocators) && key in StatsSummaryTable
  {
    StatsSummaryTablePaths();
    MemoryValue(c, allocators, StatsSummaryTable[key].0, StatsSummaryTable[key].1)
  }

  /** GetStatsSummary on the buckets `c`. */
  function StatsSummary(c: Contents, allocators: Allocators): (r: map<string, int>)
    requires AllBuckets(c) && HasFixedKeys(allocators)
  {
    map key | key in StatsSummaryTable :: SummaryValue(c, allocators, key)
  }

  /** A map with the table's keys and the summary's values is the summary. */
  lemma StatsSummaryIs(m: map<string, int>, c: Contents, allocators: Allocators)
    requires AllBuckets(c) && HasFixedKeys(allocators)
    requires forall key :: key in m <==> key in StatsSummaryTable
    requires forall key :: key in m ==> m[key] == SummaryValue(c, allocators, key)
    ensures m == StatsSummary(c, allocators)
  {
  }

  /**
   * Without memory maps there are no buckets, and each summary value is 0, less the
   * tracing allocator's resident size where the table discounts tracing.
   */
  lemma SummaryWithoutRegions(allocators: Allocators, key: string)
    requires HasFixedKeys(allocators) && key in StatsSummaryTable
    ensures StatsSummary(map[], allocators)[key] ==
      if StatsSummaryTable[key].1 then -allocators["tracing"]["resident_size"] else 0
  {
  }

  /**
   * A dump without memory maps whose tracing allocator has resident size 5:
   * its overall_pss reads -5, where the documentation of has_mmaps promises 0.
   */
  lemma SummaryWithoutRegionsExample()
    ensures var allocators := map["malloc" := map["size" := 0], "tracing" := map["size" := 0, "resident_size" := 5]];
      StatsSummary(map[], allocators)["overall_pss"] == -5
  {
    var allocators := map["malloc" := map["size" := 0], "tracing" := map["size" := 0, "resident_size" := 5]];
    SummaryWithoutRegions(allocators, "overall_pss");
  }

  /**
   * GetMemoryValue as the documentation of has_mmaps describes it: tracing's
   * resident size is discounted only from a dump that has memory maps.
   */
  function DocumentedMemoryValue(c: Contents, allocators: Allocators, categoryPath: string,
                                 discountTracing: bool, hasMmaps: bool): int
    requires AllBuckets(c) && HasFixedKeys(allocators) && ValidValuePath(categoryPath)
  {
    MemoryValue(c, allocators, categoryPath, discountTracing && hasMmaps)
  }

  /** GetStatsSummary built on DocumentedMemoryValue. */
  function DocumentedStatsSummary(c: Contents, allocators: Allocators, hasMmaps: bool): map<string, int>
    requires AllBuckets(c) && HasFixedKeys(allocators)
  {
    StatsSummaryTablePaths();
    map key | key in StatsSummaryTable ::
      DocumentedMemoryValue(c, allocators, StatsSummaryTable[key].0, StatsSummaryTable[key].1, hasMmaps)
  }

  /**
   * The documented summary reports all zeros for a dump without memory maps,
   * whatever its allocators, and is the summary of the code for a dump with them.
   */
  lemma DocumentedSummaryZeros(c: Contents, allocators: Allocators, key: string)
    requires AllBuckets(c) && HasFixedKeys(allocators) && key in StatsSummaryTable
    ensures DocumentedStatsSummary(map[], allocators, false)[key] == 0
    ensures DocumentedStatsSummary(c, allocators, true)[key] == StatsSummary(c, allocators)[key]
  {
    StatsSummaryTablePaths();
  }

  class ProcessMemoryDump {
    const dumpId: string
    const pid: int
    const hasMmaps: bool
    const allocators: Allocators
    /** ROOT_CATEGORY, the tree regions are classified by. */
    const root: Category
    /** The counters of every bucket, by category path. */
    var buckets: Contents

    /** Every bucket has the six counters, and the malloc and tracing allocators are present. */
    ghost predicate Valid()
      reads this
    {
      AllBuckets(buckets) && HasFixedKeys(allocators)
    }

    /**
     * The constructor: the allocators are folded, then every region is
     * added, in order, along its category path.
     */
    constructor(search: Search, event: DumpEvent)
      requires ValidEvent(event)
      ensures Valid() && root == RootCategory
      ensures dumpId == event.id && pid == event.pid && hasMmaps == (event.vmRegions != [])
      ensures allocators == FoldedAllocators(event.allocatorDumps)
      ensures buckets == RegionsAdded(map[], search, root, event.vmRegions)
    {
      dumpId := event.id;
      pid := event.pid;
      var folded := FoldAllocators(event.allocatorDumps);
      allocators := folded;
      root := RootCategory;
      buckets := map[];
      hasMmaps := event.vmRegions != [];
      new;
      AddRegions(search, event.vmRegions);
    }

    /** The loop of the constructor over the memory maps. */
    method AddRegions(search: Search, vmRegions: seq<VmRegion>)
      requires Valid() && ValidRegions(vmRegions)
      modifies this
      ensures Valid() && buckets == RegionsAdded(old(buckets), search, root, vmRegions)
    {
      for i := 0 to |vmRegions|
        invariant Valid()
        invariant buckets == RegionsAdded(old(buckets), search, root, vmRegions[..i])
      {
        assert vmRegions[..i + 1][..i] == vmRegions[..i];
        AddRegion(search, vmRegions[i]);
      }
      assert vmRegions[..|vmRegions|] == vmRegions;
    }

    /** GetMemoryBucket: the bucket of `path`, created empty if there is none. */
    method GetMemoryBucket(path: string) returns (b: BucketValues)
      requires Valid()
      modifies this
      ensures Valid() && buckets == WithBucket(old(buckets), path)
      ensures path in buckets && b == buckets[path] && b == BucketOr(old(buckets), path)
    {
      if path !in buckets {
        buckets := buckets[path := ZeroBucket()];
      }
      b := buckets[path];
    }

    /** The statement self.GetMemoryBucket(path).AddRegion(stats) of _AddRegion. */
    method AddToBucket(path: string, stats: ByteStats)
      requires Valid() && ValidByteStats(stats)
      modifies this
      ensures Valid() && buckets == Bumped(old(buckets), path, stats)
    {
      var bucket := GetMemoryBucket(path);
      var added := AddRegionToValues(bucket, stats);
      buckets := buckets[path := added];
      BumpedInPlace(old(buckets), path, stats);
    }

    /** _AddRegion: the region is added to the bucket of each category from the root down its path. */
    method AddRegion(search: Search, region: VmRegion)
      requires Valid() && ValidByteStats(region.byteStats)
      modifies this
      ensures Valid()
      ensures buckets == AddedAlong(old(buckets), RegionPaths(search, root, region.mappedFile), region.byteStats)
    {
      ghost var visited: seq<string> := [];
      var path := "";
      var category: Option<Category> := Some(root);
      while category.Some?
        invariant Valid()
        invariant visited + PathsFrom(search, category, path, region.mappedFile) == RegionPaths(search, root, region.mappedFile)
        invariant buckets == AddedAlong(old(buckets), visited, region.byteStats)
        decreases OptionHeight(category)
      {
        var current := category.value;
        WalkStep(search, current, path, region.mappedFile, visited, RegionPaths(search, root, region.mappedFile));
        path, category := VisitCategory(search, current, path, region);
        visited := AddedAlongStep(old(buckets), visited, path, region.byteStats);
      }
      assert visited + PathsFrom(search, category, path, region.mappedFile) == visited;
    }

    /** One iteration of _AddRegion: the category's bucket takes the region, and the walk moves to its matching child. */
    method VisitCategory(search: Search, current: Category, parent: string, region: VmRegion) returns (path: string, next: Option<Category>)
      requires Valid() && ValidByteStats(region.byteStats)
      modifies this
      ensures Valid() && path == JoinPath(parent, current.name)
      ensures buckets == Bumped(old(buckets), path, region.byteStats)
      ensures next == GetMatchingChild(search, current, region.mappedFile)
    {
      path := JoinPath(parent, current.name);
      AddToBucket(path, region.byteStats);
      next := GetMatchingChild(search, current, region.mappedFile);
    }

    /**
     * GetMemoryValue: the attribute of the bucket at the category path (a bucket
     * is created there if there is none), less tracing's resident size when asked.
     */
    method GetMemoryValue(categoryPath: string, discountTracing: bool) returns (value: int)
      requires Valid() && ValidValuePath(categoryPath)
      modifies this
      ensures Valid() && buckets == WithBucket(old(buckets), SplitValuePath(categoryPath).0)
      ensures value == MemoryValue(old(buckets), allocators, categoryPath, discountTracing)
    {
      var pos := LastIndexOf(categoryPath, '.').value;
      var path, name := categoryPath[..pos], categoryPath[pos + 1..];
      var bucket := GetMemoryBucket(path);
      value := bucket[name];
      if discountTracing {
        value := value - allocators["tracing"]["resident_size"];
      }
    }

    /** GetStatsSummary: every value of the table, read through GetMemoryValue. */
    method GetStatsSummary() returns (summary: map<string, int>)
      requires Valid()
      modifies this
      ensures Valid() && OnlyZeroBucketsAdded(old(buckets), buckets)
      ensures summary == StatsSummary(old(buckets), allocators)
    {
      summary := map[];
      var keys := StatsSummaryTable.Keys;
      while keys != {}
        invariant Valid() && OnlyZeroBucketsAdded(old(buckets), buckets)
        invariant keys <= StatsSummaryTable.Keys
        invariant forall key :: key in summary <==> key in StatsSummaryTable && key !in keys
        invariant forall key :: key in summary ==> summary[key] == SummaryValue(old(buckets), allocators, key)
        decreases keys
      {
        var key :| key in keys;
        var value := ReadSummaryValue(key, old(buckets));
        summary := summary[key := value];
        keys := keys - {key};
      }
      StatsSummaryIs(summary, old(buckets), allocators);
    }

    /** One entry of GetStatsSummary's dictionary: GetMemoryValue on the entry's value path. */
    method ReadSummaryValue(key: string, ghost start: Contents) returns (value: int)
      requires Valid() && key in StatsSummaryTable
      requires AllBuckets(start) && OnlyZeroBucketsAdded(start, buckets)
      modifies this
      ensures Valid() && OnlyZeroBucketsAdded(start, buckets)
      ensures value == SummaryValue(start, allocators, key)
    {
      StatsSummaryTablePaths();
      var (categoryPath, discountTracing) := StatsSummaryTable[key];
      SameValues(start, buckets, allocators, categoryPath, discountTracing);
      ghost var before := buckets;
      value := GetMemoryValue(categoryPath, discountTracing);
      WithBucketAddsZero(start, before, SplitValuePath(categoryPath).0);
    }

    /** GetAllocatorStats: the size of every allocator. */
    function GetAllocatorStats(): map<string, int>
    {
      AllocatorStats(allocators)
    }
  }

  /** `after` holds every bucket of `before` unchanged, and any other bucket it has is empty. */
  predicate OnlyZeroBucketsAdded(before: Contents, after: Contents)
  {
    && (forall p :: p in before ==> p in after && after[p] == before[p])
    && (forall p :: p in after && p !in before ==> after[p] == ZeroBucket())
  }

  /** GetMemoryBucket adds at most an empty bucket. */
  lemma WithBucketAddsZero(before: Contents, mid: Contents, q: string)
    requires AllBuckets(mid) && OnlyZeroBucketsAdded(before, mid)
    ensures OnlyZeroBucketsAdded(before, WithBucket(mid, q))
  {
  }

  /** Buckets that differ from `c` only by added zero buckets give the same summary. */
  lemma SummaryKeptByZeroBuckets(c: Contents, d: Contents, allocators: Allocators)
    requires AllBuckets(c) && AllBuckets(d) && HasFixedKeys(allocators) && OnlyZeroBucketsAdded(c, d)
    ensures StatsSummary(d, allocators) == StatsSummary(c, allocators)
  {
    StatsSummaryTablePaths();
    forall key | key in StatsSummaryTable
      ensures SummaryValue(d, allocators, key) == SummaryValue(c, allocators, key)
    {
      SameValues(c, d, allocators, StatsSummaryTable[key].0, StatsSummaryTable[key].1);
    }
    StatsSummaryIs(StatsSummary(d, allocators), c, allocators);
  }

  /** Buckets that differ from `c` only by added zero buckets give the same values. */
  lemma SameValues(c: Contents, d: Contents, allocators: Allocators, categoryPath: string, discountTracing: bool)
    requires AllBuckets(c) && AllBuckets(d) && HasFixedKeys(allocators) && ValidValuePath(categoryPath)
    requires OnlyZeroBucketsAdded(c, d)
    ensures MemoryValue(d, allocators, categoryPath, discountTracing) == MemoryValue(c, allocators, categoryPath, discountTracing)
  {
  }
}
