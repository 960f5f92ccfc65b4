/**
 * The classification tree of memory maps (MmapCategory in
 * memory_dump_event.py): each category has a name, an optional file pattern
 * and ordered children; a mapped file walks from the root down through the
 * first matching child at each level, falling back on the childless 'Others'
 * category.
 */
module MmapCategories {
  import opened Wrappers

  /**
   * bool(re.search(pattern, mappedFile)), which is not part of this model:
   * the regular-expression engine is a parameter.
   */
  type Search = (string, string) -> bool

  /**
   * A category. The file pattern "" stands for no pattern: the source compiles
   * a pattern only when it is non-empty. No children and an empty list of
   * children are the same to the source.
   */
  datatype Category = Category(name: string, filePattern: string, children: seq<Category>)

  /** DefaultCategory: the match-all 'Others' category with no children. */
  function DefaultCategory(): Category
  {
    Category("Others", "", [])
  }

  /** Match: always true without a pattern, otherwise the pattern's search. */
  predicate Match(search: Search, c: Category, mappedFile: string)
  {
    c.filePattern == "" || search(c.filePattern, mappedFile)
  }

  /** The index of the first child, in list order, that matches. */
  function FirstMatching(search: Search, children: seq<Category>, mappedFile: string): (r: Option<nat>)
    ensures r.Some? ==>
      && r.value < |children|
      && Match(search, children[r.value], mappedFile)
      && forall j :: 0 <= j < r.value ==> !Match(search, children[j], mappedFile)
    ensures r.None? ==> forall j :: 0 <= j < |children| ==> !Match(search, children[j], mappedFile)
    decreases |children|
  {
    if children == [] then None
    else if Match(search, children[0], mappedFile) then Some(0)
    else match FirstMatching(search, children[1..], mappedFile)
      case None => None
      case Some(i) => Some(i + 1)
  }

  /** GetMatchingChild: None without children, else the first matching child, else the default category. */
  function GetMatchingChild(search: Search, c: Category, mappedFile: string): Option<Category>
  {
    if c.children == [] then None
    else match FirstMatching(search, c.children, mappedFile)
      case Some(i) => Some(c.children[i])
      case None => Some(DefaultCategory())
  }

  /** The three outcomes of GetMatchingChild, each with the condition that selects it. */
  lemma GetMatchingChildCases(search: Search, c: Category, mappedFile: string)
    ensures GetMatchingChild(search, c, mappedFile).None? <==> c.children == []
    ensures GetMatchingChild(search, c, mappedFile) == Some(DefaultCategory()) && DefaultCategory() !in c.children ==>
      forall j :: 0 <= j < |c.children| ==> !Match(search, c.children[j], mappedFile)
    ensures forall i ::
      && 0 <= i < |c.children|
      && Match(search, c.children[i], mappedFile)
      && (forall j :: 0 <= j < i ==> !Match(search, c.children[j], mappedFile))
      ==> GetMatchingChild(search, c, mappedFile) == Some(c.children[i])
    ensures c.children != [] && (forall j :: 0 <= j < |c.children| ==> !Match(search, c.children[j], mappedFile)) ==>
      GetMatchingChild(search, c, mappedFile) == Some(DefaultCategory())
  {
    if c.children != [] {
      var r := FirstMatching(search, c.children, mappedFile);
      if r.Some? {
        assert c.children[r.value] in c.children;
      }
    }
  }

  /** A category without a pattern matches every file. */
  lemma MatchWithoutPattern(search: Search, c: Category, mappedFile: string)
    requires c.filePattern == ""
    ensures Match(search, c, mappedFile)
  {
  }

  /** The number of levels of the tree below and including `c`. */
  function Height(c: Category): nat
    decreases c, 1
  {
    1 + MaxHeight(c.children)
  }

  function MaxHeight(cs: seq<Category>): (r: nat)
    ensures forall i :: 0 <= i < |cs| ==> Height(cs[i]) <= r
    ensures cs == [] ==> r == 0
    decreases cs, 0
  {
    if cs == [] then 0
    else
      var h := Height(cs[0]);
      var rest := MaxHeight(cs[1..]);
      assert forall i :: 1 <= i < |cs| ==> cs[i] == cs[1..][i - 1];
      if h < rest then rest else h
  }

  /** The child GetMatchingChild picks is lower in the tree than its parent. */
  lemma MatchingChildLower(search: Search, c: Category, mappedFile: string)
    requires GetMatchingChild(search, c, mappedFile).Some?
    ensures Height(GetMatchingChild(search, c, mappedFile).value) < Height(c)
  {
    assert Height(c) >= 2 by {
      assert Height(c.children[0]) >= 1;
    }
  }

  /** posixpath.join of two components. */
  function JoinPath(a: string, b: string): string
  {
    if |b| > 0 && b[0] == '/' then b
    else if a == [] || a[|a| - 1] == '/' then a + b
    else a + "/" + b
  }

  /** The paths _AddRegion visits from `c` down, starting below the path `parent`. */
  function CategoryPaths(search: Search, c: Category, parent: string, mappedFile: string): (r: seq<string>)
    ensures |r| > 0 && r[0] == JoinPath(parent, c.name)
    decreases Height(c)
  {
    var path := JoinPath(parent, c.name);
    match GetMatchingChild(search, c, mappedFile)
    case None => [path]
    case Some(child) =>
      MatchingChildLower(search, c, mappedFile);
      [path] + CategoryPaths(search, child, path, mappedFile)
  }

  /** A name a path component can have below the root: non-empty and not starting with '/'. */
  predicate ComponentName(name: string)
  {
    |name| > 0 && name[0] != '/'
  }

  /** Every category below `c` has a component name. */
  predicate WellNamed(c: Category)
    decreases c
  {
    forall i :: 0 <= i < |c.children| ==> ComponentName(c.children[i].name) && WellNamed(c.children[i])
  }

  /** Joining a component name makes the path strictly longer. */
  lemma JoinPathLonger(a: string, b: string)
    requires ComponentName(b)
    ensures |JoinPath(a, b)| > |a|
  {
  }

  /** Along a well-named tree the visited paths grow strictly longer, so they are pairwise distinct. */
  lemma {:induction false} CategoryPathsGrow(search: Search, c: Category, parent: string, mappedFile: string)
    requires WellNamed(c)
    ensures forall i, j :: 0 <= i < j < |CategoryPaths(search, c, parent, mappedFile)| ==>
      |CategoryPaths(search, c, parent, mappedFile)[i]| < |CategoryPaths(search, c, parent, mappedFile)[j]|
    decreases Height(c)
  {
    var path := JoinPath(parent, c.name);
    var child := GetMatchingChild(search, c, mappedFile);
    if child.Some? {
      MatchingChildLower(search, c, mappedFile);
      var ch := child.value;
      assert ComponentName(ch.name) && WellNamed(ch) by {
        if ch != DefaultCategory() {
          var i := FirstMatching(search, c.children, mappedFile).value;
          assert ch == c.children[i];
        }
      }
      CategoryPathsGrow(search, ch, path, mappedFile);
      var rest := CategoryPaths(search, ch, path, mappedFile);
      JoinPathLonger(path, ch.name);
      var r := CategoryPaths(search, c, parent, mappedFile);
      assert r == [path] + rest;
      forall i, j | 0 <= i < j < |r| ensures |r[i]| < |r[j]| {
        assert r[j] == rest[j - 1];
        if i == 0 {
          if j > 1 {
            assert |rest[0]| < |rest[j - 1]|;
          }
        } else {
          assert r[i] == rest[i - 1];
        }
      }
    }
  }

  /** The walk from the tree's root starts at the root's own path. */
  lemma RootPathFirst(search: Search, mappedFile: string)
    ensures CategoryPaths(search, RootCategory, "", mappedFile)[0] == "/"
  {
  }

  /** ROOT_CATEGORY, with its patterns as the source writes them. */
  const RootCategory: Category := Category("/", "", [
    Category("Android", @"^\/dev\/ashmem(?!\/libc malloc)", [
      Category("Java runtime", @"^\/dev\/ashmem\/dalvik-", [
        Category("Spaces", @"\/dalvik-(alloc|main|large object|non moving|zygote) space", [
          Category("Normal", @"\/dalvik-(alloc|main)", []),
          Category("Large", @"\/dalvik-large object", []),
          Category("Zygote", @"\/dalvik-zygote", []),
          Category("Non-moving", @"\/dalvik-non moving", [])
        ]),
        Category("Linear Alloc", @"\/dalvik-LinearAlloc", []),
        Category("Indirect Reference Table", @"\/dalvik-indirect.ref", []),
        Category("Cache", @"\/dalvik-jit-code-cache", []),
        Category("Accounting", "", [])
      ]),
      Category("Cursor", @"\/CursorWindow", []),
      Category("Ashmem", "", [])
    ]),
    Category("Native heap", @"^((\[heap\])|(\[anon:)|(\/dev\/ashmem\/libc malloc)|$)", []),
    Category("Stack", @"^\[stack", []),
    Category("Files", @"\.((((so)|(jar)|(apk)|(ttf)|(odex)|(oat)|(arg))$)|(dex))", [
      Category("so", @"\.so$", []),
      Category("jar", @"\.jar$", []),
      Category("apk", @"\.apk$", []),
      Category("ttf", @"\.ttf$", []),
      Category("dex", @"\.((dex)|(odex$))", []),
      Category("oat", @"\.oat$", []),
      Category("art", @"\.art$", [])
    ]),
    Category("Devices", @"(^\/dev\/)|(anon_inode:dmabuf)", [
      Category("GPU", @"\/((nv)|(mali)|(kgsl))", []),
      Category("DMA", @"anon_inode:dmabuf", [])
    ]),
    Category("Discounted tracing overhead", @"\[discounted tracing overhead\]", [])
  ])

  /** The Android subtree of ROOT_CATEGORY is well named. */
  lemma AndroidWellNamed()
    ensures WellNamed(RootCategory.children[0])
  {
    var java := RootCategory.children[0].children[0];
    assert WellNamed(java.children[0]);
    assert WellNamed(java);
  }

  /** ROOT_CATEGORY is well named. */
  lemma RootWellNamed()
    ensures WellNamed(RootCategory)
  {
    AndroidWellNamed();
    assert WellNamed(RootCategory.children[3]);
    assert WellNamed(RootCategory.children[4]);
  }

  /** A file that only the Ashmem fallback of Android matches is counted under '/', '/Android', '/Android/Ashmem'. */
  lemma AshmemPath(search: Search, mappedFile: string)
    requires search(@"^\/dev\/ashmem(?!\/libc malloc)", mappedFile)
    requires !search(@"^\/dev\/ashmem\/dalvik-", mappedFile) && !search(@"\/CursorWindow", mappedFile)
    ensures CategoryPaths(search, RootCategory, "", mappedFile) == ["/", "/Android", "/Android/Ashmem"]
  {
    var android := RootCategory.children[0];
    var ashmem := android.children[2];
    assert GetMatchingChild(search, RootCategory, mappedFile) == Some(android);
    assert GetMatchingChild(search, android, mappedFile) == Some(ashmem);
    assert JoinPath("", "/") == "/";
    assert JoinPath("/", "Android") == "/Android";
    assert JoinPath("/Android", "Ashmem") == "/Android/Ashmem";
    assert CategoryPaths(search, ashmem, "/Android", mappedFile) == ["/Android/Ashmem"];
    assert CategoryPaths(search, android, "/", mappedFile) == ["/Android", "/Android/Ashmem"];
  }
}
