/**
 * The allocator folding of ProcessMemoryDump's constructor in
 * memory_dump_event.py: allocator dumps are summed, attribute by attribute,
 * under the first component of their '/'-separated name; dumps named
 * ".../allocated_objects" are skipped unless they belong to malloc; malloc
 * and tracing are always present; and malloc's size is finally reduced by
 * tracing's size.
 */
module AllocatorFolding {
  import opened DumpHex
  import opened Text

  /**
   * One allocator dump of the trace: its name and, per attribute, the hex
   * string under 'value'. The trace's dictionary of dumps is given as a list
   * in its iteration order.
   */
  datatype AllocatorDump = AllocatorDump(name: string, attrs: map<string, string>)

  type Allocator = map<string, int>
  type Allocators = map<string, Allocator>

  /** Every attribute value parses; any other raises ValueError. */
  predicate ValidAllocatorDump(d: AllocatorDump)
  {
    forall k :: k in d.attrs ==> IsHexNumeral(d.attrs[k])
  }

  /** The loop parses the values of a dump only when it does not skip it. */
  predicate ReadableAllocatorDump(d: AllocatorDump)
  {
    !Skipped(d.name) ==> ValidAllocatorDump(d)
  }

  predicate ValidAllocatorDumps(dumps: seq<AllocatorDump>)
  {
    forall i :: 0 <= i < |dumps| ==> ReadableAllocatorDump(dumps[i])
  }

  /** name.split('/')[0]. */
  function FirstComponent(name: string): (r: string)
    ensures '/' !in r
  {
    match FirstIndexOf(name, '/')
    case Some(i) => name[..i]
    case None => name
  }

  /** name.split('/')[-1]. */
  function LastComponent(name: string): (r: string)
    ensures '/' !in r
  {
    match LastIndexOf(name, '/')
    case Some(i) => name[i + 1..]
    case None => name
  }

  /** The dumps the loop skips: allocated objects outside malloc. */
  predicate Skipped(name: string)
  {
    LastComponent(name) == "allocated_objects" && FirstComponent(name) != "malloc"
  }

  /** The allocators before the loop: malloc's size, tracing's size and resident size, all zero. */
  function InitialAllocators(): Allocators
  {
    map["malloc" := map["size" := 0], "tracing" := map["size" := 0, "resident_size" := 0]]
  }

  /** The entries the rest of the dump relies on. */
  predicate HasFixedKeys(a: Allocators)
  {
    && "malloc" in a && "size" in a["malloc"]
    && "tracing" in a && "size" in a["tracing"] && "resident_size" in a["tracing"]
  }

  /** An attribute of an allocator, 0 when either is missing. */
  function Get(a: Allocators, group: string, key: string): int
  {
    if group in a && key in a[group] then a[group][key] else 0
  }

  /** The attributes of a dump, each value read as int(value, 16). */
  function AttrValues(d: AllocatorDump): (r: map<string, int>)
    requires ValidAllocatorDump(d)
    ensures r.Keys == d.attrs.Keys
  {
    map k | k in d.attrs :: HexValue(d.attrs[k])
  }

  /** One allocator after the attribute values of one dump are added to it. */
  function AddAttrs(allocator: Allocator, values: map<string, int>): (r: Allocator)
    ensures forall k :: k in r <==> k in allocator || k in values
  {
    map k | k in allocator.Keys + values.Keys ::
      (if k in allocator then allocator[k] else 0) + (if k in values then values[k] else 0)
  }

  /** Adding attribute values is commutative, so the order of the dumps of a group does not matter. */
  lemma AddAttrsCommute(a: Allocator, b: map<string, int>)
    ensures AddAttrs(a, b) == AddAttrs(b, a)
  {
    assert forall k :: k in AddAttrs(a, b) ==> AddAttrs(a, b)[k] == AddAttrs(b, a)[k];
  }

  /** Adding attribute values is associative: two dumps added one by one add their sum. */
  lemma AddAttrsAssociate(a: Allocator, b: map<string, int>, c: map<string, int>)
    ensures AddAttrs(AddAttrs(a, b), c) == AddAttrs(a, AddAttrs(b, c))
  {
    assert forall k :: k in AddAttrs(AddAttrs(a, b), c) ==>
      AddAttrs(AddAttrs(a, b), c)[k] == AddAttrs(a, AddAttrs(b, c))[k];
  }

  /** `r` is `allocator` with the entries of `values` under the keys in `done` added. */
  ghost predicate AddedSoFar(r: Allocator, allocator: Allocator, values: map<string, int>, done: set<string>)
  {
    && (forall j :: j in r <==> j in allocator || (j in done && j in values))
    && (forall j :: j in r ==>
          r[j] == (if j in allocator then allocator[j] else 0) + (if j in done && j in values then values[j] else 0))
  }

  /** Adding one more entry of `values`, as allocator.get(key, 0) + value does. */
  lemma AddedSoFarStep(r: Allocator, allocator: Allocator, values: map<string, int>, done: set<string>, k: string)
    requires AddedSoFar(r, allocator, values, done) && k in values && k !in done
    ensures AddedSoFar(r[k := (if k in r then r[k] else 0) + values[k]], allocator, values, done + {k})
  {
  }

  /** Once every entry of `values` is added, the result is AddAttrs. */
  lemma AddedSoFarAll(r: Allocator, allocator: Allocator, values: map<string, int>, done: set<string>)
    requires AddedSoFar(r, allocator, values, done) && values.Keys <= done
    ensures r == AddAttrs(allocator, values)
  {
    ghost var target := AddAttrs(allocator, values);
    assert forall j :: j in r <==> j in target;
    assert forall j :: j in r ==> r[j] == target[j];
  }

  /** One turn of the loop. */
  function FoldStep(acc: Allocators, d: AllocatorDump): Allocators
    requires ReadableAllocatorDump(d)
  {
    if Skipped(d.name) then acc
    else
      var group := FirstComponent(d.name);
      acc[group := AddAttrs(if group in acc then acc[group] else map[], AttrValues(d))]
  }

  /** The allocators after the loop has seen `dumps`, before tracing is discounted. */
  function Accumulated(dumps: seq<AllocatorDump>): (r: Allocators)
    requires ValidAllocatorDumps(dumps)
    ensures HasFixedKeys(r)
  {
    if dumps == [] then InitialAllocators()
    else FoldStep(Accumulated(dumps[..|dumps| - 1]), dumps[|dumps| - 1])
  }

  /** The final statement: malloc's size less tracing's size. */
  function DiscountTracing(a: Allocators): (r: Allocators)
    requires HasFixedKeys(a)
    ensures HasFixedKeys(r)
  {
    a["malloc" := a["malloc"]["size" := a["malloc"]["size"] - a["tracing"]["size"]]]
  }

  /** The allocators of a process dump. */
  function FoldedAllocators(dumps: seq<AllocatorDump>): (r: Allocators)
    requires ValidAllocatorDumps(dumps)
    ensures HasFixedKeys(r)
  {
    DiscountTracing(Accumulated(dumps))
  }

  /** The total of attribute `key` over the dumps that count toward `group`. */
  function Contribution(dumps: seq<AllocatorDump>, group: string, key: string): int
    requires ValidAllocatorDumps(dumps)
  {
    if dumps == [] then 0
    else
      var d := dumps[|dumps| - 1];
      Contribution(dumps[..|dumps| - 1], group, key) +
        (if !Skipped(d.name) && FirstComponent(d.name) == group && key in d.attrs then AttrValues(d)[key] else 0)
  }

  /** Each attribute of each group is its starting value plus the total of its counted dumps. */
  lemma {:induction false} AccumulatedSums(dumps: seq<AllocatorDump>, group: string, key: string)
    requires ValidAllocatorDumps(dumps)
    ensures Get(Accumulated(dumps), group, key) == Get(InitialAllocators(), group, key) + Contribution(dumps, group, key)
  {
    if dumps != [] {
      AccumulatedSums(dumps[..|dumps| - 1], group, key);
    }
  }

  /** A dump the loop adds to `group`. */
  predicate CountsToward(d: AllocatorDump, group: string)
  {
    !Skipped(d.name) && FirstComponent(d.name) == group
  }

  /** One turn of the loop adds the dump's group, if it counts, and removes none. */
  lemma FoldStepGroups(acc: Allocators, d: AllocatorDump, group: string)
    requires ReadableAllocatorDump(d)
    ensures group in FoldStep(acc, d) <==> group in acc || CountsToward(d, group)
  {
  }

  /** Some dump of `dumps` counts toward `group`. */
  predicate SomeCountsToward(dumps: seq<AllocatorDump>, group: string)
  {
    exists i :: 0 <= i < |dumps| && CountsToward(dumps[i], group)
  }

  /** Some dump counts exactly when one before the last does or the last does. */
  lemma SomeCountsTowardSnoc(dumps: seq<AllocatorDump>, group: string)
    requires dumps != []
    ensures SomeCountsToward(dumps, group) <==>
      SomeCountsToward(dumps[..|dumps| - 1], group) || CountsToward(dumps[|dumps| - 1], group)
  {
    var prefix := dumps[..|dumps| - 1];
    if SomeCountsToward(dumps, group) {
      var i :| 0 <= i < |dumps| && CountsToward(dumps[i], group);
      if i < |prefix| {
        assert CountsToward(prefix[i], group);
      } else {
        assert i == |dumps| - 1;
      }
    }
    if SomeCountsToward(prefix, group) {
      var i :| 0 <= i < |prefix| && CountsToward(prefix[i], group);
      assert CountsToward(dumps[i], group);
    }
    if CountsToward(dumps[|dumps| - 1], group) {
      assert SomeCountsToward(dumps, group);
    }
  }

  /** A group is present exactly when it is malloc or tracing or some counted dump belongs to it. */
  lemma {:induction false} AccumulatedGroups(dumps: seq<AllocatorDump>, group: string)
    requires ValidAllocatorDumps(dumps)
    ensures group in Accumulated(dumps) <==> group in InitialAllocators() || SomeCountsToward(dumps, group)
  {
    if dumps != [] {
      var prefix := dumps[..|dumps| - 1];
      AccumulatedGroups(prefix, group);
      FoldStepGroups(Accumulated(prefix), dumps[|dumps| - 1], group);
      SomeCountsTowardSnoc(dumps, group);
    }
  }

  /**
   * The allocators of a process dump: malloc's size is the malloc total less
   * the tracing total; every other attribute is its total.
   */
  lemma FoldedAllocatorsSums(dumps: seq<AllocatorDump>, group: string, key: string)
    requires ValidAllocatorDumps(dumps)
    ensures Get(FoldedAllocators(dumps), "malloc", "size") ==
      Contribution(dumps, "malloc", "size") - Contribution(dumps, "tracing", "size")
    ensures group != "malloc" || key != "size" ==>
      Get(FoldedAllocators(dumps), group, key) == Contribution(dumps, group, key)
  {
    var a := Accumulated(dumps);
    AccumulatedSums(dumps, "malloc", "size");
    AccumulatedSums(dumps, "tracing", "size");
    AccumulatedSums(dumps, group, key);
    InitialAllocatorsZero(group, key);
    InitialAllocatorsZero("malloc", "size");
    InitialAllocatorsZero("tracing", "size");
    DiscountTracingGet(a, group, key);
    DiscountTracingGet(a, "malloc", "size");
  }

  /** Every starting attribute is zero. */
  lemma InitialAllocatorsZero(group: string, key: string)
    ensures Get(InitialAllocators(), group, key) == 0
  {
  }

  /** The discount changes malloc's size alone. */
  lemma DiscountTracingGet(a: Allocators, group: string, key: string)
    requires HasFixedKeys(a)
    ensures Get(DiscountTracing(a), "malloc", "size") == Get(a, "malloc", "size") - Get(a, "tracing", "size")
    ensures group != "malloc" || key != "size" ==> Get(DiscountTracing(a), group, key) == Get(a, group, key)
  {
  }

  /** Dumps that are all skipped, whatever their values, leave the starting allocators. */
  lemma {:induction false} SkippedDumpsIgnored(dumps: seq<AllocatorDump>)
    requires forall i :: 0 <= i < |dumps| ==> Skipped(dumps[i].name)
    ensures ValidAllocatorDumps(dumps) && Accumulated(dumps) == InitialAllocators()
  {
    if dumps != [] {
      SkippedDumpsIgnored(dumps[..|dumps| - 1]);
    }
  }

  /**
   * How names split: "<group>/<leaf>" belongs to `group` and is skipped exactly
   * when the leaf is allocated_objects outside malloc; a name without '/' is
   * its own group.
   */
  lemma NameComponents(group: string, leaf: string)
    requires '/' !in group && '/' !in leaf
    ensures FirstComponent(group + "/" + leaf) == group && LastComponent(group + "/" + leaf) == leaf
    ensures Skipped(group + "/" + leaf) <==> leaf == "allocated_objects" && group != "malloc"
    ensures FirstComponent(leaf) == leaf && LastComponent(leaf) == leaf
    ensures Skipped(leaf) <==> leaf == "allocated_objects"
  {
    var name := group + "/" + leaf;
    FirstIndexAfter(group, '/', leaf);
    LastIndexBefore(group, '/', leaf);
    assert name[..|group|] == group;
    assert name[|group| + 1..] == leaf;
    assert "allocated_objects" != "malloc";
  }

  /** The inner loop: each attribute of the dump is parsed and added to the allocator. */
  method AccumulateAttrs(allocator: Allocator, d: AllocatorDump) returns (r: Allocator)
    requires ValidAllocatorDump(d)
    ensures r == AddAttrs(allocator, AttrValues(d))
  {
    ghost var values := AttrValues(d);
    ghost var done: set<string> := {};
    r := allocator;
    var keys := d.attrs.Keys;
    while keys != {}
      invariant keys + done == values.Keys && keys !! done
      invariant AddedSoFar(r, allocator, values, done)
      decreases keys
    {
      var k :| k in keys;
      AddedSoFarStep(r, allocator, values, done, k);
      r := r[k := (if k in r then r[k] else 0) + HexValue(d.attrs[k])];
      keys := keys - {k};
      done := done + {k};
    }
    AddedSoFarAll(r, allocator, values, done);
  }

  /** One turn of the constructor's loop: a skipped dump changes nothing, any other is added to its group. */
  method AddAllocatorDump(allocators: Allocators, d: AllocatorDump) returns (r: Allocators)
    requires ReadableAllocatorDump(d)
    ensures r == FoldStep(allocators, d)
  {
    if LastComponent(d.name) == "allocated_objects" && FirstComponent(d.name) != "malloc" {
      return allocators;
    }
    var group := FirstComponent(d.name);
    var allocator := if group in allocators then allocators[group] else map[];
    allocator := AccumulateAttrs(allocator, d);
    r := allocators[group := allocator];
  }

  /** The loop of the constructor, from the starting allocators. */
  method AccumulateDumps(dumps: seq<AllocatorDump>) returns (allocators: Allocators)
    requires ValidAllocatorDumps(dumps)
    ensures allocators == Accumulated(dumps)
  {
    allocators := InitialAllocators();
    for i := 0 to |dumps|
      invariant allocators == Accumulated(dumps[..i])
    {
      assert dumps[..i + 1][..i] == dumps[..i];
      allocators := AddAllocatorDump(allocators, dumps[i]);
    }
    assert dumps[..|dumps|] == dumps;
  }

  /** The loop of the constructor and the final discount. */
  method FoldAllocators(dumps: seq<AllocatorDump>) returns (allocators: Allocators)
    requires ValidAllocatorDumps(dumps)
    ensures allocators == FoldedAllocators(dumps)
  {
    allocators := AccumulateDumps(dumps);
    allocators := allocators["malloc" := allocators["malloc"]["size" := allocators["malloc"]["size"] - allocators["tracing"]["size"]]];
  }

  /** GetAllocatorStats: each allocator's size, 0 when it has none. */
  function AllocatorStats(a: Allocators): map<string, int>
  {
    map name | name in a :: if "size" in a[name] then a[name]["size"] else 0
  }

  /**
   * The allocator stats of a process dump: malloc and tracing, and every group
   * some counted dump belongs to, are reported; malloc's size is the malloc
   * total less the tracing total, and every other size is its total.
   */
  lemma FoldedAllocatorStats(dumps: seq<AllocatorDump>, name: string)
    requires ValidAllocatorDumps(dumps)
    ensures name in AllocatorStats(FoldedAllocators(dumps)) <==>
      name == "malloc" || name == "tracing" || SomeCountsToward(dumps, name)
    ensures AllocatorStats(FoldedAllocators(dumps))["malloc"] ==
      Contribution(dumps, "malloc", "size") - Contribution(dumps, "tracing", "size")
    ensures name != "malloc" && name in AllocatorStats(FoldedAllocators(dumps)) ==>
      AllocatorStats(FoldedAllocators(dumps))[name] == Contribution(dumps, name, "size")
  {
    AccumulatedGroups(dumps, name);
    FoldedAllocatorsSums(dumps, name, "size");
  }
}
