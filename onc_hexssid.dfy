/**
 * HexSSID completion (FillInHexSSIDField, FillInHexSSIDFieldsInOncObject,
 * FillInHexSSIDFieldsInNetworks in onc_utils.cc): every WiFi object that has a
 * non-empty string SSID but no HexSSID gets the hex encoding of its SSID.
 */
module OncHexSsid {
  import opened Wrappers
  import opened OncValues
  import opened OncSchema

  /** The dictionary FillInHexSSIDField leaves behind. */
  function FilledHexSsid(e: Entries): Entries
  {
    if HexSsidKey in e then e
    else match GetString(e, SsidKey)
      case None => e
      case Some(ssid) => if ssid == [] then e else e[HexSsidKey := Str(HexEncode(ssid))]
  }

  /**
   * The three cases in which the object stays as it is, and otherwise: HexSSID is
   * added, holds the hex encoding of SSID, and no other key changes.
   */
  lemma FilledHexSsidCases(e: Entries)
    ensures FilledHexSsid(e) == e <==>
      HexSsidKey in e || GetString(e, SsidKey).None? || GetString(e, SsidKey) == Some([])
    ensures FilledHexSsid(e) != e ==>
      && HexSsidKey !in e
      && FilledHexSsid(e) == e[HexSsidKey := Str(HexEncode(e[SsidKey].s))]
      && FilledHexSsid(e)[SsidKey] == e[SsidKey]
  {
    if HexSsidKey !in e && GetString(e, SsidKey).Some? && GetString(e, SsidKey) != Some([]) {
      assert HexSsidKey !in e && HexSsidKey in FilledHexSsid(e);
    }
  }

  /** The HexSSID that is filled in decodes back to the SSID. */
  lemma FilledHexSsidDecodes(e: Entries)
    requires HexSsidKey !in e && GetString(e, SsidKey).Some?
    requires GetString(e, SsidKey) != Some([])
    ensures HexSsidKey in FilledHexSsid(e) && FilledHexSsid(e)[HexSsidKey].Str?
    ensures HexDecode(FilledHexSsid(e)[HexSsidKey].s) == GetString(e, SsidKey)
  {
    HexRoundTrip(e[SsidKey].s);
  }

  /** Filling twice is filling once. */
  lemma FilledHexSsidIdempotent(e: Entries)
    ensures FilledHexSsid(FilledHexSsid(e)) == FilledHexSsid(e)
  {
  }

  /**
   * FillInHexSSIDField: leaves the object as it is when HexSSID is present, SSID
   * is missing or not a string, or SSID is empty; otherwise sets HexSSID.
   */
  method FillInHexSSIDField(obj: DictionaryValue)
    modifies obj
    ensures obj.entries == FilledHexSsid(old(obj.entries))
  {
    if HexSsidKey in obj.entries || !(SsidKey in obj.entries && obj.entries[SsidKey].Str?) {
      return;
    }
    var ssid := obj.entries[SsidKey].s;
    if ssid == [] {
      return;
    }
    obj.entries := obj.entries[HexSsidKey := Str(HexEncode(ssid))];
  }

  /** What FillInHexSSIDFieldsInOncObject's first statement does to an object of kind `kind`. */
  function FilledLocally(kind: Kind, e: Entries): Entries
  {
    if kind == WiFi then FilledHexSsid(e) else e
  }

  /** The local fill adds at most a string, so the dictionaries in it are the ones already there. */
  lemma FilledLocallyKeepsDicts(kind: Kind, e: Entries)
    ensures e.Keys <= FilledLocally(kind, e).Keys
    ensures forall k :: k in FilledLocally(kind, e) && FilledLocally(kind, e)[k].Dict? ==>
      k in e && e[k] == FilledLocally(kind, e)[k]
    ensures forall k :: k in e && e[k].Dict? ==> FilledLocally(kind, e)[k] == e[k]
  {
  }

  /** The tree FillInHexSSIDFieldsInOncObject leaves behind, for a dictionary `v` of kind `kind`. */
  function FilledObject(schema: Schema, kind: Kind, v: Value): (r: Value)
    requires v.Dict?
    ensures r.Dict?
    decreases v
  {
    var local := FilledLocally(kind, v.entries);
    Dict(map k | k in local ::
      if k in v.entries && v.entries[k].Dict? && schema(kind, k).Some?
      then FilledObject(schema, schema(kind, k).value, v.entries[k])
      else local[k])
  }

  /** One entry of FilledObject, in terms of the locally filled object the source iterates over. */
  lemma FilledObjectAt(schema: Schema, kind: Kind, v: Value, k: Bytes)
    requires v.Dict? && k in FilledLocally(kind, v.entries)
    ensures var local := FilledLocally(kind, v.entries);
      var r := FilledObject(schema, kind, v).entries;
      && k in r
      && (local[k].Dict? ==> k in v.entries && v.entries[k] == local[k])
      && r[k] == if local[k].Dict? && schema(kind, k).Some?
                    then FilledObject(schema, schema(kind, k).value, local[k])
                    else local[k]
  {
    FilledLocallyKeepsDicts(kind, v.entries);
  }

  /**
   * FillInHexSSIDFieldsInOncObject: fills this object if it is a WiFi object, then
   * recurses into each nested dictionary whose field the kind declares.
   */
  method FillInHexSSIDFieldsInOncObject(schema: Schema, kind: Kind, obj: DictionaryValue, ghost tree: Value)
    requires tree == Dict(obj.entries)
    modifies obj
    ensures Dict(obj.entries) == FilledObject(schema, kind, tree)
    decreases tree, 2
  {
    if kind == WiFi {
      FillInHexSSIDField(obj);
    }
    FillNested(schema, kind, obj, tree);
  }

  /** The recursion of FillInHexSSIDFieldsInOncObject, after the object itself is filled. */
  method FillNested(schema: Schema, kind: Kind, obj: DictionaryValue, ghost tree: Value)
    requires tree.Dict? && obj.entries == FilledLocally(kind, tree.entries)
    modifies obj
    ensures Dict(obj.entries) == FilledObject(schema, kind, tree)
    decreases tree, 1
  {
    ghost var local := obj.entries;
    ghost var target := FilledObject(schema, kind, tree).entries;
    var keys := obj.entries.Keys;
    while keys != {}
      invariant WalkedExcept(obj.entries, local, target, keys)
      decreases keys
    {
      var k :| k in keys;
      ghost var before := obj.entries;
      FillEntry(schema, kind, obj, k, tree);
      WalkedStep(before, local, target, keys, k);
      keys := keys - {k};
    }
    WalkedAll(obj.entries, local, target);
  }

  /** One step of the recursion: the nested dictionary under `k`, if its field is declared, is filled in place. */
  method FillEntry(schema: Schema, kind: Kind, obj: DictionaryValue, k: Bytes, ghost tree: Value)
    requires tree.Dict? && k in FilledLocally(kind, tree.entries) && k in obj.entries
    requires obj.entries[k] == FilledLocally(kind, tree.entries)[k]
    modifies obj
    ensures obj.entries == old(obj.entries)[k := FilledObject(schema, kind, tree).entries[k]]
    decreases tree, 0
  {
    FilledObjectAt(schema, kind, tree, k);
    if obj.entries[k].Dict? && schema(kind, k).Some? {
      var inner := new DictionaryValue(obj.entries[k].entries);
      FillInHexSSIDFieldsInOncObject(schema, schema(kind, k).value, inner, tree.entries[k]);
      obj.entries := obj.entries[k := Dict(inner.entries)];
    }
  }

  /** FillInHexSSIDFieldsInNetworks: every entry, a dictionary, is filled as a network configuration. */
  method FillInHexSSIDFieldsInNetworks(schema: Schema, networkConfigs: ListValue)
    requires AllDicts(networkConfigs.items)
    modifies networkConfigs
    ensures |networkConfigs.items| == |old(networkConfigs.items)|
    ensures forall i :: 0 <= i < |networkConfigs.items| ==>
      networkConfigs.items[i] == FilledObject(schema, NetworkConfiguration, old(networkConfigs.items[i]))
  {
    var i := 0;
    while i < |networkConfigs.items|
      invariant 0 <= i <= |networkConfigs.items| == |old(networkConfigs.items)|
      invariant forall j :: i <= j < |networkConfigs.items| ==> networkConfigs.items[j] == old(networkConfigs.items[j])
      invariant forall j :: 0 <= j < i ==>
        networkConfigs.items[j] == FilledObject(schema, NetworkConfiguration, old(networkConfigs.items[j]))
    {
      var network := new DictionaryValue(networkConfigs.items[i].entries);
      FillInHexSSIDFieldsInOncObject(schema, NetworkConfiguration, network, networkConfigs.items[i]);
      networkConfigs.items := networkConfigs.items[i := Dict(network.entries)];
      i := i + 1;
    }
  }

  /** No WiFi object reachable through declared fields lacks a HexSSID while having a non-empty string SSID. */
  predicate HexSsidComplete(schema: Schema, kind: Kind, v: Value)
    requires v.Dict?
    decreases v
  {
    && (kind == WiFi ==> FilledHexSsid(v.entries) == v.entries)
    && forall k :: k in v.entries && v.entries[k].Dict? && schema(kind, k).Some? ==>
         HexSsidComplete(schema, schema(kind, k).value, v.entries[k])
  }

  /** After the walk every reachable WiFi object is complete. */
  lemma {:induction false} FilledObjectComplete(schema: Schema, kind: Kind, v: Value)
    requires v.Dict?
    ensures HexSsidComplete(schema, kind, FilledObject(schema, kind, v))
    decreases v
  {
    var r := FilledObject(schema, kind, v);
    var local := FilledLocally(kind, v.entries);
    FilledLocallyKeepsDicts(kind, v.entries);
    forall k | k in r.entries && r.entries[k].Dict? && schema(kind, k).Some?
      ensures HexSsidComplete(schema, schema(kind, k).value, r.entries[k])
    {
      FilledObjectAt(schema, kind, v, k);
      FilledObjectComplete(schema, schema(kind, k).value, v.entries[k]);
    }
    if kind == WiFi {
      FilledHexSsidIdempotent(v.entries);
      assert r.entries.Keys == local.Keys;
      forall k | k in r.entries && !r.entries[k].Dict? ensures r.entries[k] == local[k] {
        FilledObjectAt(schema, kind, v, k);
      }
      assert GetString(r.entries, SsidKey) == GetString(local, SsidKey);
      assert (HexSsidKey in r.entries) == (HexSsidKey in local);
    }
  }

  /** A complete tree is left as it is: the walk is idempotent on its own output. */
  lemma {:induction false} FilledObjectOfComplete(schema: Schema, kind: Kind, v: Value)
    requires v.Dict? && HexSsidComplete(schema, kind, v)
    ensures FilledObject(schema, kind, v) == v
    decreases v
  {
    var r := FilledObject(schema, kind, v);
    forall k | k in v.entries && v.entries[k].Dict? && schema(kind, k).Some?
      ensures FilledObject(schema, schema(kind, k).value, v.entries[k]) == v.entries[k]
    {
      FilledObjectOfComplete(schema, schema(kind, k).value, v.entries[k]);
    }
    assert r.entries == v.entries;
  }

  /** Filling the filled tree again changes nothing. */
  lemma FilledObjectIdempotent(schema: Schema, kind: Kind, v: Value)
    requires v.Dict?
    ensures FilledObject(schema, kind, v).Dict?
    ensures FilledObject(schema, kind, FilledObject(schema, kind, v)) == FilledObject(schema, kind, v)
  {
    FilledObjectComplete(schema, kind, v);
    FilledObjectOfComplete(schema, kind, FilledObject(schema, kind, v));
  }

  /** A WiFi object with SSID "Test" and no HexSSID gets HexSSID "54657374". */
  lemma FillExample()
    ensures FilledHexSsid(map[SsidKey := Str("Test")]) == map[SsidKey := Str("Test"), HexSsidKey := Str("54657374")]
  {
    HexEncodeTest();
    assert HexSsidKey != SsidKey;
  }
}
