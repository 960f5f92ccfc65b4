/**
 * IsRecommendedValue in onc_utils.cc: a property is recommended when the
 * Recommended list beside it names its basename. The property key is a path
 * of '.'-separated components, split at its last '.'.
 */
module OncRecommended {
  import opened Wrappers
  import opened OncValues
  import opened OncSchema
  import opened Text

  /**
   * The value under a '.'-separated path, as base::DictionaryValue::Get
   * expands it (its source is not among the modelled files): each component
   * before the last names a nested dictionary.
   */
  function GetPath(e: Entries, path: Bytes): Option<Value>
    decreases |path|
  {
    match FirstIndexOf(path, '.')
    case None => if path in e then Some(e[path]) else None
    case Some(i) =>
      var head := path[..i];
      if head in e && e[head].Dict? then GetPath(e[head].entries, path[i + 1..]) else None
  }

  /** The basename of a property key and the path of the Recommended list beside it. */
  function SplitPropertyKey(key: Bytes): (Bytes, Bytes)
  {
    match LastIndexOf(key, '.')
    case Some(pos) => (key[pos + 1..], key[..pos + 1] + RecommendedKey)
    case None => (key, RecommendedKey)
  }

  /** IsRecommendedValue: the list at the Recommended path exists and holds the basename as a string. */
  function IsRecommendedValue(onc: Entries, propertyKey: Bytes): bool
  {
    var (basename, recommendedKey) := SplitPropertyKey(propertyKey);
    match GetPath(onc, recommendedKey)
    case Some(List(items)) => Str(basename) in items
    case _ => false
  }

  /** The split is at the last '.': the key is the prefix, '.', and a basename without '.'. */
  lemma {:induction false} SplitPropertyKeyAt(prefix: Bytes, name: Bytes)
    requires '.' !in name
    ensures SplitPropertyKey(prefix + "." + name) == (name, prefix + "." + RecommendedKey)
  {
    var key := prefix + "." + name;
    LastIndexBefore(prefix, '.', name);
    assert key[|prefix| + 1..] == name;
    assert key[..|prefix| + 1] == prefix + ".";
  }

  /** A path whose first component has no '.' looks that component up and continues in it. */
  lemma {:induction false} GetPathStep(e: Entries, head: Bytes, rest: Bytes)
    requires '.' !in head
    ensures GetPath(e, head + "." + rest) ==
      if head in e && e[head].Dict? then GetPath(e[head].entries, rest) else None
  {
    var path := head + "." + rest;
    FirstIndexAfter(head, '.', rest);
    assert path[..|head|] == head;
    assert path[|head| + 1..] == rest;
  }

  /**
   * For a key with no '.', the Recommended list at the top of the object decides;
   * for "<outer>.<name>" with neither part holding '.', the Recommended list
   * inside the dictionary `outer` decides ('WiFi.AutoConnect' is looked up in
   * WiFi.Recommended).
   */
  lemma RecommendedLookup(onc: Entries, outer: Bytes, name: Bytes)
    requires '.' !in outer && '.' !in name
    ensures IsRecommendedValue(onc, name) <==>
      RecommendedKey in onc && onc[RecommendedKey].List? && Str(name) in onc[RecommendedKey].items
    ensures IsRecommendedValue(onc, outer + "." + name) <==>
      && outer in onc && onc[outer].Dict?
      && RecommendedKey in onc[outer].entries
      && onc[outer].entries[RecommendedKey].List?
      && Str(name) in onc[outer].entries[RecommendedKey].items
  {
    assert '.' !in RecommendedKey;
    SplitPropertyKeyAt(outer, name);
    GetPathStep(onc, outer, RecommendedKey);
  }
}
