/**
 * The document model the ONC pipeline works on: base::Value trees.
 * Strings are std::string byte strings, integers are C++ ints, and a
 * dictionary maps keys to owned child values (no sharing inside a tree).
 */
module OncValues {
  import opened Wrappers

  /** A char standing for one byte of a std::string. */
  type Byte = c: char | c <= 'ÿ' witness 'a'
  type Bytes = seq<Byte>

  /** The range of a C++ `int`. */
  type Int32 = i: int | -0x8000_0000 <= i < 0x8000_0000

  datatype Value =
    | Null
    | Boolean(b: bool)
    | Integer(i: Int32)
    | Double(d: real)
    | Str(s: Bytes)
    | List(items: seq<Value>)
    | Dict(entries: map<Bytes, Value>)

  type Entries = map<Bytes, Value>

  /** GetStringWithoutPathExpansion: only a string-typed value is read. */
  function GetString(e: Entries, key: Bytes): Option<Bytes>
  {
    if key in e && e[key].Str? then Some(e[key].s) else None
  }

  /** GetIntegerWithoutPathExpansion: only an integer-typed value is read. */
  function GetInteger(e: Entries, key: Bytes): Option<Int32>
  {
    if key in e && e[key].Integer? then Some(e[key].i) else None
  }

  /** GetListWithoutPathExpansion. */
  function GetList(e: Entries, key: Bytes): Option<seq<Value>>
  {
    if key in e && e[key].List? then Some(e[key].items) else None
  }

  /** GetDictionaryWithoutPathExpansion. */
  function GetDictionary(e: Entries, key: Bytes): Option<Entries>
  {
    if key in e && e[key].Dict? then Some(e[key].entries) else None
  }

  /** Lists whose every entry is a dictionary, as the validator hands them on. */
  predicate AllDicts(items: seq<Value>)
  {
    forall i :: 0 <= i < |items| ==> items[i].Dict?
  }

  /** base::DictionaryValue: a dictionary changed in place. */
  class DictionaryValue {
    var entries: Entries

    constructor (e: Entries)
      ensures entries == e
    {
      entries := e;
    }
  }

  /**
   * Halfway through a walk over the keys of a dictionary that started as
   * `start` and ends as `target`: the keys still in `keys` hold their starting
   * values, every other key its final one.
   */
  ghost predicate WalkedExcept(current: Entries, start: Entries, target: Entries, keys: set<Bytes>)
  {
    && keys <= start.Keys && current.Keys == start.Keys
    && (forall k :: k in keys ==> current[k] == start[k])
    && (forall k :: k in start && k !in keys ==> k in target && current[k] == target[k])
  }

  /** Setting one more key to its final value. */
  lemma WalkedStep(current: Entries, start: Entries, target: Entries, keys: set<Bytes>, k: Bytes)
    requires WalkedExcept(current, start, target, keys) && k in keys && k in target
    ensures WalkedExcept(current[k := target[k]], start, target, keys - {k})
  {
  }

  /** With no key left, the dictionary is the target. */
  lemma WalkedAll(current: Entries, start: Entries, target: Entries)
    requires WalkedExcept(current, start, target, {}) && target.Keys == start.Keys
    ensures current == target
  {
    assert forall k :: k in current ==> current[k] == target[k];
  }

  /** base::ListValue: a list changed in place. */
  class ListValue {
    var items: seq<Value>

    constructor (s: seq<Value>)
      ensures items == s
    {
      items := s;
    }
  }

  const HexDigits: Bytes := "0123456789ABCDEF"

  /** base::HexEncode: two upper-case hex digits per byte, high nibble first. */
  function HexEncode(s: Bytes): (r: Bytes)
    ensures |r| == 2 * |s|
    ensures forall i :: 0 <= i < |r| ==> r[i] in HexDigits
  {
    if s == [] then []
    else [HexDigits[s[0] as int / 16], HexDigits[s[0] as int % 16]] + HexEncode(s[1..])
  }

  /** The value of one upper-case hex digit. */
  function DigitValue(c: Byte): Option<nat>
  {
    if '0' <= c <= '9' then Some(c as int - '0' as int)
    else if 'A' <= c <= 'F' then Some(c as int - 'A' as int + 10)
    else None
  }

  /** The inverse of HexEncode: the bytes a string of digit pairs stands for. */
  function HexDecode(h: Bytes): Option<Bytes>
    decreases |h|
  {
    if h == [] then Some([])
    else if |h| == 1 then None
    else match (DigitValue(h[0]), DigitValue(h[1]), HexDecode(h[2..]))
      case (Some(hi), Some(lo), Some(rest)) =>
        if hi < 16 && lo < 16 then Some([(hi * 16 + lo) as char] + rest) else None
      case _ => None
  }

  lemma DigitValueOfHexDigit(d: nat)
    requires d < 16
    ensures DigitValue(HexDigits[d]) == Some(d)
  {
  }

  /** Hex encoding loses nothing: decoding it gives the bytes back. */
  lemma {:induction false} HexRoundTrip(s: Bytes)
    ensures HexDecode(HexEncode(s)) == Some(s)
  {
    if s != [] {
      HexRoundTrip(s[1..]);
      HexDecodePair(s[0], HexEncode(s[1..]));
      assert [s[0]] + s[1..] == s;
    }
  }

  /** Decoding the two digits HexEncode writes for one byte gives that byte back. */
  lemma HexDecodePair(c: Byte, rest: Bytes)
    ensures HexDecode(HexEncode([c]) + rest) ==
            if HexDecode(rest).Some? then Some([c] + HexDecode(rest).value) else None
  {
    var b := c as int;
    var hi, lo := b / 16, b % 16;
    assert hi * 16 + lo == b;
    DigitValueOfHexDigit(hi);
    DigitValueOfHexDigit(lo);
    var h := HexEncode([c]) + rest;
    assert h[0] == HexDigits[hi] && h[1] == HexDigits[lo] && h[2..] == rest;
  }

  /** HexEncode writes the first byte's two digits before the rest. */
  lemma HexEncodeCons(c: Byte, rest: Bytes)
    ensures HexEncode([c] + rest) == [HexDigits[c as int / 16], HexDigits[c as int % 16]] + HexEncode(rest)
  {
    assert ([c] + rest)[1..] == rest;
  }

  lemma HexEncodeTest()
    ensures HexEncode("Test") == "54657374"
  {
    HexEncodeCons('t', []);
    HexEncodeCons('s', "t");
    HexEncodeCons('e', "st");
    HexEncodeCons('T', "est");
    assert "Test" == ['T'] + "est" && "est" == ['e'] + "st" && "st" == ['s'] + "t" && "t" == ['t'] + [];
  }
}
