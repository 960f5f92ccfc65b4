/** Searching a string for a separator character, as find_first_of/find_last_of and split/rsplit do. */
module Text {
  import opened Wrappers

  /** The first position of `c` in `s`, if any. */
  function FirstIndexOf(s: seq<char>, c: char): (r: Option<nat>)
    ensures r.Some? ==> r.value < |s| && s[r.value] == c && c !in s[..r.value]
    ensures r.None? <==> c !in s
    decreases |s|
  {
    if s == [] then None
    else if s[0] == c then Some(0)
    else match FirstIndexOf(s[1..], c)
      case None => None
      case Some(i) => assert s[..i + 1] == [s[0]] + s[1..][..i]; Some(i + 1)
  }

  /** The last position of `c` in `s`, if any. */
  function LastIndexOf(s: seq<char>, c: char): (r: Option<nat>)
    ensures r.Some? ==> r.value < |s| && s[r.value] == c && c !in s[r.value + 1..]
    ensures r.None? <==> c !in s
    decreases |s|
  {
    if s == [] then None
    else if s[|s| - 1] == c then Some(|s| - 1)
    else
      var r := LastIndexOf(s[..|s| - 1], c);
      assert r.Some? ==> s[r.value + 1..] == s[..|s| - 1][r.value + 1..] + [s[|s| - 1]];
      assert s == s[..|s| - 1] + [s[|s| - 1]];
      r
  }

  /** A separator after a prefix that lacks it is the first one. */
  lemma FirstIndexAfter(prefix: seq<char>, c: char, rest: seq<char>)
    requires c !in prefix
    ensures FirstIndexOf(prefix + [c] + rest, c) == Some(|prefix|)
  {
    var s := prefix + [c] + rest;
    assert s[|prefix|] == c;
    var i := FirstIndexOf(s, c).value;
    assert i == |prefix|;
  }

  /** A separator before a suffix that lacks it is the last one. */
  lemma LastIndexBefore(prefix: seq<char>, c: char, suffix: seq<char>)
    requires c !in suffix
    ensures LastIndexOf(prefix + [c] + suffix, c) == Some(|prefix|)
  {
    var s := prefix + [c] + suffix;
    assert s[|prefix|] == c;
    assert s[|prefix| + 1..] == suffix;
    var i := LastIndexOf(s, c).value;
    assert i == |prefix|;
  }
}
