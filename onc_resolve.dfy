/**
 * Resolution of server and CA certificate references through a whole ONC tree
 * (ResolveServerCertRefsInObject, ResolveServerCertRefsInNetworks and
 * ResolveServerCertRefsInNetwork in onc_utils.cc): each object is resolved by
 * the resolvers its kind calls for, then every nested dictionary whose field the
 * kind declares; a network that fails anywhere is removed from the list.
 */
module OncResolve {
  import opened Wrappers
  import opened OncValues
  import opened OncSchema
  import opened OncCerts

  /**
   * The resolvers of ResolveServerCertRefsInObject's dispatch chain, in the
   * order the chain tests the kinds. The fourth arm names IPsec as well, but
   * the third arm has already taken IPsec, so only OpenVPN reaches it.
   */
  function ResolvedLocally(certsByGuid: CertMap, kind: Kind, e: Entries): Option<Entries>
  {
    if kind == CertificatePattern then
      CertRefList(certsByGuid, IssuerCARefKey, IssuerCAPEMsKey, e)
    else if kind == EAP then
      CertRefsOrRefToList(certsByGuid, ServerCARefsKey, ServerCARefKey, ServerCAPEMsKey, e)
    else if kind == IPsec then
      CertRefsOrRefToList(certsByGuid, ServerCARefsKey, ServerCARefKey, ServerCAPEMsKey, e)
    else if kind == IPsec || kind == OpenVPN then
      match SingleCertRef(certsByGuid, ServerCertRefKey, ServerCertPEMKey, e)
      case None => None
      case Some(e1) => CertRefsOrRefToList(certsByGuid, ServerCARefsKey, ServerCARefKey, ServerCAPEMsKey, e1)
    else Some(e)
  }

  /** Resolving adds no dictionary, so the nested objects after it are nested objects from before it. */
  lemma ResolvedLocallyNoNewDicts(certsByGuid: CertMap, kind: Kind, e: Entries)
    ensures ResolvedLocally(certsByGuid, kind, e).Some? ==> NoNewDicts(e, ResolvedLocally(certsByGuid, kind, e).value)
  {
    if kind == CertificatePattern {
      CertRefListCases(certsByGuid, IssuerCARefKey, IssuerCAPEMsKey, e);
    } else if kind == EAP || kind == IPsec {
      CertRefsOrRefPrecedence(certsByGuid, ServerCARefsKey, ServerCARefKey, ServerCAPEMsKey, e, Null);
    } else if kind == OpenVPN {
      SingleCertRefCases(certsByGuid, ServerCertRefKey, ServerCertPEMKey, e);
      var e1 := SingleCertRef(certsByGuid, ServerCertRefKey, ServerCertPEMKey, e);
      if e1.Some? {
        CertRefsOrRefPrecedence(certsByGuid, ServerCARefsKey, ServerCARefKey, ServerCAPEMsKey, e1.value, Null);
      }
    }
  }

  /** The reference to a CA list was resolved, or was not there to resolve. */
  predicate RefsOrRefResolved(keyGuidRefs: Bytes, keyGuidRef: Bytes, e: Entries)
  {
    if keyGuidRefs in e then keyGuidRef !in e && GetList(e, keyGuidRefs).None?
    else GetString(e, keyGuidRef).None?
  }

  /** No reference the kind's resolvers would act on is left in the object. */
  predicate LocallyResolved(kind: Kind, e: Entries)
  {
    if kind == CertificatePattern then GetList(e, IssuerCARefKey).None?
    else if kind == EAP || kind == IPsec then RefsOrRefResolved(ServerCARefsKey, ServerCARefKey, e)
    else if kind == OpenVPN then
      GetString(e, ServerCertRefKey).None? && RefsOrRefResolved(ServerCARefsKey, ServerCARefKey, e)
    else true
  }

  /** After a successful local resolution nothing is left to resolve. */
  lemma LocalResolutionComplete(certsByGuid: CertMap, kind: Kind, e: Entries)
    requires ResolvedLocally(certsByGuid, kind, e).Some?
    ensures LocallyResolved(kind, ResolvedLocally(certsByGuid, kind, e).value)
  {
  }

  /** An object with nothing left to resolve is left as it is: local resolution is idempotent. */
  lemma LocalResolutionOfResolved(certsByGuid: CertMap, kind: Kind, e: Entries)
    requires LocallyResolved(kind, e)
    ensures ResolvedLocally(certsByGuid, kind, e) == Some(e)
  {
    if (kind == EAP || kind == IPsec || kind == OpenVPN) && ServerCARefsKey in e {
      assert e - {ServerCARefKey} == e;
    }
  }

  /**
   * Only an OpenVPN object has its ServerCertRef resolved: for every other kind,
   * IPsec included, ServerCertRef and ServerCertPEM are left as they are.
   */
  lemma OnlyOpenVpnResolvesServerCert(certsByGuid: CertMap, kind: Kind, e: Entries)
    requires kind != OpenVPN && ResolvedLocally(certsByGuid, kind, e).Some?
    ensures var r := ResolvedLocally(certsByGuid, kind, e).value;
      && (ServerCertRefKey in r <==> ServerCertRefKey in e)
      && (ServerCertRefKey in e ==> r[ServerCertRefKey] == e[ServerCertRefKey])
      && (ServerCertPEMKey in r <==> ServerCertPEMKey in e)
      && (ServerCertPEMKey in e ==> r[ServerCertPEMKey] == e[ServerCertPEMKey])
  {
  }

  /** An OpenVPN object that resolves has its ServerCertRef string replaced by the PEM it names. */
  lemma OpenVpnResolvesServerCert(certsByGuid: CertMap, e: Entries)
    requires ResolvedLocally(certsByGuid, OpenVPN, e).Some? && GetString(e, ServerCertRefKey).Some?
    ensures var r := ResolvedLocally(certsByGuid, OpenVPN, e).value;
      && ServerCertRefKey !in r
      && e[ServerCertRefKey].s in certsByGuid
      && r[ServerCertPEMKey] == Str(certsByGuid[e[ServerCertRefKey].s])
  {
    SingleCertRefCases(certsByGuid, ServerCertRefKey, ServerCertPEMKey, e);
  }

  /** The tree ResolveServerCertRefsInObject leaves behind when it succeeds, or None when it fails. */
  function ResolvedObject(certsByGuid: CertMap, schema: Schema, kind: Kind, v: Value): (r: Option<Value>)
    requires v.Dict?
    ensures r.Some? ==> r.value.Dict?
    decreases v
  {
    match ResolvedLocally(certsByGuid, kind, v.entries)
    case None => None
    case Some(local) =>
      ResolvedLocallyNoNewDicts(certsByGuid, kind, v.entries);
      if forall k :: k in local && local[k].Dict? && schema(kind, k).Some? ==>
           ResolvedObject(certsByGuid, schema, schema(kind, k).value, local[k]).Some?
      then Some(Dict(map k | k in local ::
        if local[k].Dict? && schema(kind, k).Some?
        then ResolvedObject(certsByGuid, schema, schema(kind, k).value, local[k]).value
        else local[k]))
      else None
  }

  /** What becomes of entry `k` of the locally resolved object: declared dictionaries are resolved in turn. */
  function ChildResolved(certsByGuid: CertMap, schema: Schema, kind: Kind, local: Entries, k: Bytes): Option<Value>
    requires k in local
  {
    if local[k].Dict? && schema(kind, k).Some?
    then ResolvedObject(certsByGuid, schema, schema(kind, k).value, local[k])
    else Some(local[k])
  }

  /** One entry of ResolvedObject: a failing child makes the whole object fail. */
  lemma ResolvedObjectAt(certsByGuid: CertMap, schema: Schema, kind: Kind, v: Value, k: Bytes)
    requires v.Dict? && ResolvedLocally(certsByGuid, kind, v.entries).Some?
    requires k in ResolvedLocally(certsByGuid, kind, v.entries).value
    ensures var local := ResolvedLocally(certsByGuid, kind, v.entries).value;
      && (local[k].Dict? ==> k in v.entries && v.entries[k] == local[k])
      && (ChildResolved(certsByGuid, schema, kind, local, k).None? ==>
          ResolvedObject(certsByGuid, schema, kind, v).None?)
      && (ResolvedObject(certsByGuid, schema, kind, v).Some? ==>
          ResolvedObject(certsByGuid, schema, kind, v).value.entries[k] ==
          ChildResolved(certsByGuid, schema, kind, local, k).value)
  {
    ResolvedLocallyNoNewDicts(certsByGuid, kind, v.entries);
  }

  /** When every child resolves, so does the object, and its entries are the resolved children. */
  lemma ResolvedObjectAllChildren(certsByGuid: CertMap, schema: Schema, kind: Kind, v: Value)
    requires v.Dict? && ResolvedLocally(certsByGuid, kind, v.entries).Some?
    requires var local := ResolvedLocally(certsByGuid, kind, v.entries).value;
      forall k :: k in local ==> ChildResolved(certsByGuid, schema, kind, local, k).Some?
    ensures var local := ResolvedLocally(certsByGuid, kind, v.entries).value;
      && ResolvedObject(certsByGuid, schema, kind, v).Some?
      && ResolvedObject(certsByGuid, schema, kind, v).value.Dict?
      && ResolvedObject(certsByGuid, schema, kind, v).value.entries.Keys == local.Keys
  {
    ResolvedLocallyNoNewDicts(certsByGuid, kind, v.entries);
  }

  /** The resolvers this object's kind calls for, in the source's order. */
  method ResolveLocally(certsByGuid: CertMap, kind: Kind, obj: DictionaryValue) returns (ok: bool)
    modifies obj
    ensures ok <==> ResolvedLocally(certsByGuid, kind, old(obj.entries)).Some?
    ensures ok ==> obj.entries == ResolvedLocally(certsByGuid, kind, old(obj.entries)).value
  {
    if kind == CertificatePattern {
      ok := ResolveCertRefList(certsByGuid, IssuerCARefKey, IssuerCAPEMsKey, obj);
    } else if kind == EAP {
      ok := ResolveCertRefsOrRefToList(certsByGuid, ServerCARefsKey, ServerCARefKey, ServerCAPEMsKey, obj);
    } else if kind == IPsec {
      ok := ResolveCertRefsOrRefToList(certsByGuid, ServerCARefsKey, ServerCARefKey, ServerCAPEMsKey, obj);
    } else if kind == IPsec || kind == OpenVPN {
      ok := ResolveSingleCertRef(certsByGuid, ServerCertRefKey, ServerCertPEMKey, obj);
      if ok {
        ok := ResolveCertRefsOrRefToList(certsByGuid, ServerCARefsKey, ServerCARefKey, ServerCAPEMsKey, obj);
      }
    } else {
      ok := true;
    }
  }

  /**
   * ResolveServerCertRefsInObject: true exactly when every reference in the
   * tree resolves, and then the object holds the resolved tree. After a failure
   * the object is partly resolved; every caller discards it.
   */
  method ResolveServerCertRefsInObject(certsByGuid: CertMap, schema: Schema, kind: Kind,
                                       obj: DictionaryValue, ghost tree: Value) returns (ok: bool)
    requires tree == Dict(obj.entries)
    modifies obj
    ensures ok <==> ResolvedObject(certsByGuid, schema, kind, tree).Some?
    ensures ok ==> Dict(obj.entries) == ResolvedObject(certsByGuid, schema, kind, tree).value
    decreases tree, 2
  {
    ok := ResolveLocally(certsByGuid, kind, obj);
    if !ok {
      return;
    }
    ok := ResolveNested(certsByGuid, schema, kind, obj, tree);
  }

  /** The recursion of ResolveServerCertRefsInObject, which stops at the first child that fails. */
  method ResolveNested(certsByGuid: CertMap, schema: Schema, kind: Kind,
                       obj: DictionaryValue, ghost tree: Value) returns (ok: bool)
    requires tree.Dict? && ResolvedLocally(certsByGuid, kind, tree.entries) == Some(obj.entries)
    modifies obj
    ensures ok <==> ResolvedObject(certsByGuid, schema, kind, tree).Some?
    ensures ok ==> Dict(obj.entries) == ResolvedObject(certsByGuid, schema, kind, tree).value
    decreases tree, 1
  {
    ghost var local := obj.entries;
    var keys := obj.entries.Keys;
    while keys != {}
      invariant keys <= local.Keys
      invariant obj.entries.Keys == local.Keys
      invariant forall k :: k in keys ==> obj.entries[k] == local[k]
      invariant forall k :: k in local && k !in keys ==>
        ChildResolved(certsByGuid, schema, kind, local, k).Some? &&
        obj.entries[k] == ChildResolved(certsByGuid, schema, kind, local, k).value
      decreases keys
    {
      var k :| k in keys;
      ok := ResolveEntry(certsByGuid, schema, kind, obj, k, tree);
      if !ok {
        ResolvedObjectAt(certsByGuid, schema, kind, tree, k);
        return;
      }
      keys := keys - {k};
    }
    ResolvedObjectAllChildren(certsByGuid, schema, kind, tree);
    forall k | k in local ensures ResolvedObject(certsByGuid, schema, kind, tree).value.entries[k] == obj.entries[k] {
      ResolvedObjectAt(certsByGuid, schema, kind, tree, k);
    }
    assert obj.entries == ResolvedObject(certsByGuid, schema, kind, tree).value.entries;
    ok := true;
  }

  /** One step of the recursion: the nested dictionary under `k`, if its field is declared, is resolved in place. */
  method ResolveEntry(certsByGuid: CertMap, schema: Schema, kind: Kind,
                      obj: DictionaryValue, k: Bytes, ghost tree: Value) returns (ok: bool)
    requires tree.Dict? && ResolvedLocally(certsByGuid, kind, tree.entries).Some?
    requires k in ResolvedLocally(certsByGuid, kind, tree.entries).value && k in obj.entries
    requires obj.entries[k] == ResolvedLocally(certsByGuid, kind, tree.entries).value[k]
    modifies obj
    ensures var local := ResolvedLocally(certsByGuid, kind, tree.entries).value;
      && (ok <==> ChildResolved(certsByGuid, schema, kind, local, k).Some?)
      && (ok ==> obj.entries == old(obj.entries)[k := ChildResolved(certsByGuid, schema, kind, local, k).value])
    decreases tree, 0
  {
    ResolvedObjectAt(certsByGuid, schema, kind, tree, k);
    if obj.entries[k].Dict? && schema(kind, k).Some? {
      var inner := new DictionaryValue(obj.entries[k].entries);
      ok := ResolveServerCertRefsInObject(certsByGuid, schema, schema(kind, k).value, inner, tree.entries[k]);
      if ok {
        obj.entries := obj.entries[k := Dict(inner.entries)];
      }
    } else {
      ok := true;
    }
  }

  /** No reference is left anywhere in the tree that the walk would resolve. */
  predicate TreeResolved(schema: Schema, kind: Kind, v: Value)
    requires v.Dict?
    decreases v
  {
    && LocallyResolved(kind, v.entries)
    && forall k :: k in v.entries && v.entries[k].Dict? && schema(kind, k).Some? ==>
         TreeResolved(schema, schema(kind, k).value, v.entries[k])
  }

  /** A tree that resolves is left with nothing to resolve. */
  lemma {:induction false} ResolvedObjectComplete(certsByGuid: CertMap, schema: Schema, kind: Kind, v: Value)
    requires v.Dict? && ResolvedObject(certsByGuid, schema, kind, v).Some?
    ensures ResolvedObject(certsByGuid, schema, kind, v).value.Dict?
    ensures TreeResolved(schema, kind, ResolvedObject(certsByGuid, schema, kind, v).value)
    decreases v
  {
    var local := ResolvedLocally(certsByGuid, kind, v.entries).value;
    var r := ResolvedObject(certsByGuid, schema, kind, v).value;
    LocalResolutionComplete(certsByGuid, kind, v.entries);
    ResolvedLocallyNoNewDicts(certsByGuid, kind, v.entries);
    assert r.entries.Keys == local.Keys;
    forall k | k in r.entries && r.entries[k].Dict? && schema(kind, k).Some?
      ensures TreeResolved(schema, schema(kind, k).value, r.entries[k])
    {
      ResolvedObjectAt(certsByGuid, schema, kind, v, k);
      if local[k].Dict? {
        ResolvedObjectComplete(certsByGuid, schema, schema(kind, k).value, local[k]);
      }
    }
    forall k | k in r.entries ensures (r.entries[k].Dict? <==> local[k].Dict?) && (!r.entries[k].Dict? ==> r.entries[k] == local[k]) {
      ResolvedObjectAt(certsByGuid, schema, kind, v, k);
    }
    LocallyResolvedOnNonDicts(kind, local, r.entries);
  }

  /** Whether an object is locally resolved depends only on its keys and non-dictionary values. */
  lemma LocallyResolvedOnNonDicts(kind: Kind, a: Entries, b: Entries)
    requires a.Keys == b.Keys
    requires forall k :: k in b ==> (b[k].Dict? <==> a[k].Dict?) && (!b[k].Dict? ==> b[k] == a[k])
    requires LocallyResolved(kind, a)
    ensures LocallyResolved(kind, b)
  {
    assert GetList(b, IssuerCARefKey) == GetList(a, IssuerCARefKey);
    assert GetList(b, ServerCARefsKey) == GetList(a, ServerCARefsKey);
    assert GetString(b, ServerCARefKey) == GetString(a, ServerCARefKey);
    assert GetString(b, ServerCertRefKey) == GetString(a, ServerCertRefKey);
  }

  /** A tree with nothing to resolve resolves to itself: the walk is idempotent on its own output. */
  lemma {:induction false} ResolvedObjectOfResolved(certsByGuid: CertMap, schema: Schema, kind: Kind, v: Value)
    requires v.Dict? && TreeResolved(schema, kind, v)
    ensures ResolvedObject(certsByGuid, schema, kind, v) == Some(v)
    decreases v
  {
    LocalResolutionOfResolved(certsByGuid, kind, v.entries);
    forall k | k in v.entries && v.entries[k].Dict? && schema(kind, k).Some?
      ensures ResolvedObject(certsByGuid, schema, schema(kind, k).value, v.entries[k]) == Some(v.entries[k])
    {
      ResolvedObjectOfResolved(certsByGuid, schema, schema(kind, k).value, v.entries[k]);
    }
    forall k | k in v.entries ensures ChildResolved(certsByGuid, schema, kind, v.entries, k) == Some(v.entries[k]) {
    }
    ResolvedObjectAllChildren(certsByGuid, schema, kind, v);
    forall k | k in v.entries ensures ResolvedObject(certsByGuid, schema, kind, v).value.entries[k] == v.entries[k] {
      ResolvedObjectAt(certsByGuid, schema, kind, v, k);
    }
    assert ResolvedObject(certsByGuid, schema, kind, v).value.entries == v.entries;
  }

  /** ResolveServerCertRefsInNetwork: a network configuration is resolved as such. */
  method ResolveServerCertRefsInNetwork(certsByGuid: CertMap, schema: Schema, networkConfig: DictionaryValue)
    returns (ok: bool)
    modifies networkConfig
    ensures ok <==> ResolvedObject(certsByGuid, schema, NetworkConfiguration, Dict(old(networkConfig.entries))).Some?
    ensures ok ==>
      Dict(networkConfig.entries) ==
      ResolvedObject(certsByGuid, schema, NetworkConfiguration, Dict(old(networkConfig.entries))).value
  {
    ok := ResolveServerCertRefsInObject(certsByGuid, schema, NetworkConfiguration, networkConfig,
                                        Dict(networkConfig.entries));
  }

  /** How one entry of the NetworkConfigurations list resolves. */
  function NetworkResolution(certsByGuid: CertMap, schema: Schema): Value -> Option<Value>
  {
    (v: Value) => if v.Dict? then ResolvedObject(certsByGuid, schema, NetworkConfiguration, v) else None
  }

  /** What a filter that erases the failing entries keeps: the resolved entries, in their original order. */
  function Surviving(resolve: Value -> Option<Value>, items: seq<Value>): seq<Value>
    decreases |items|
  {
    if items == [] then []
    else
      Surviving(resolve, items[..|items| - 1]) +
      match resolve(items[|items| - 1])
      case None => []
      case Some(r) => [r]
  }

  /** The positions of the entries that resolve, in increasing order. */
  function ResolvedIndices(resolve: Value -> Option<Value>, items: seq<Value>): seq<int>
    decreases |items|
  {
    if items == [] then []
    else ResolvedIndices(resolve, items[..|items| - 1]) + if resolve(items[|items| - 1]).Some? then [|items| - 1] else []
  }

  /** The positions are in range and strictly increasing. */
  lemma {:induction false} ResolvedIndicesOrdered(resolve: Value -> Option<Value>, items: seq<Value>)
    ensures forall j :: 0 <= j < |ResolvedIndices(resolve, items)| ==> 0 <= ResolvedIndices(resolve, items)[j] < |items|
    ensures forall j, j' :: 0 <= j < j' < |ResolvedIndices(resolve, items)| ==>
      ResolvedIndices(resolve, items)[j] < ResolvedIndices(resolve, items)[j']
    decreases |items|
  {
    if items != [] {
      ResolvedIndicesOrdered(resolve, items[..|items| - 1]);
    }
  }

  /** The positions are exactly those of the entries that resolve. */
  lemma {:induction false} ResolvedIndicesExact(resolve: Value -> Option<Value>, items: seq<Value>)
    ensures forall i :: 0 <= i < |items| ==> (i in ResolvedIndices(resolve, items) <==> resolve(items[i]).Some?)
    decreases |items|
  {
    if items != [] {
      var n := |items| - 1;
      var prefix := items[..n];
      ResolvedIndicesOrdered(resolve, prefix);
      ResolvedIndicesExact(resolve, prefix);
      assert forall i :: 0 <= i < n ==> prefix[i] == items[i];
    }
  }

  /**
   * Exactly the entries that resolve survive, each as its resolved tree and in
   * their original relative order: survivor j is entry ResolvedIndices[j], resolved.
   */
  lemma {:induction false} SurvivingSpec(resolve: Value -> Option<Value>, items: seq<Value>)
    ensures |Surviving(resolve, items)| == |ResolvedIndices(resolve, items)|
    ensures forall j :: 0 <= j < |ResolvedIndices(resolve, items)| ==>
      0 <= ResolvedIndices(resolve, items)[j] < |items| &&
      Some(Surviving(resolve, items)[j]) == resolve(items[ResolvedIndices(resolve, items)[j]])
    decreases |items|
  {
    if items != [] {
      var n := |items| - 1;
      var prefix := items[..n];
      SurvivingSpec(resolve, prefix);
      assert forall i :: 0 <= i < n ==> prefix[i] == items[i];
    }
  }

  /** No entry is dropped exactly when every entry resolves. */
  lemma {:induction false} SurvivingAll(resolve: Value -> Option<Value>, items: seq<Value>)
    ensures |Surviving(resolve, items)| <= |items|
    ensures |Surviving(resolve, items)| == |items| <==> forall i :: 0 <= i < |items| ==> resolve(items[i]).Some?
    decreases |items|
  {
    if items != [] {
      var n := |items| - 1;
      var prefix := items[..n];
      SurvivingAll(resolve, prefix);
      assert forall i :: 0 <= i < n ==> prefix[i] == items[i];
    }
  }

  /** One more entry visited: it is appended, resolved, when it resolves. */
  lemma SurvivingStep(resolve: Value -> Option<Value>, items: seq<Value>, n: nat)
    requires n < |items|
    ensures Surviving(resolve, items[..n + 1]) ==
      Surviving(resolve, items[..n]) + if resolve(items[n]).Some? then [resolve(items[n]).value] else []
  {
    assert items[..n + 1][..n] == items[..n];
  }

  /** Replacing or erasing the first entry after a prefix. */
  lemma SplitAt(a: seq<Value>, b: seq<Value>, y: Option<Value>)
    requires |b| > 0
    ensures (a + b)[|a|] == b[0]
    ensures (a + b)[..|a|] + (a + b)[|a| + 1..] == a + b[1..]
    ensures y.Some? ==> (a + b)[|a| := y.value] == (a + [y.value]) + b[1..]
  {
    assert (a + b)[..|a|] == a;
    assert (a + b)[|a| + 1..] == b[1..];
  }

  /** One turn of ResolveServerCertRefsInNetworks' loop: network i is resolved in place, or erased when it fails. */
  method ResolveOrErase(certsByGuid: CertMap, schema: Schema, networkConfigs: ListValue, i: nat) returns (ok: bool)
    requires i < |networkConfigs.items| && networkConfigs.items[i].Dict?
    modifies networkConfigs
    ensures ok <==> NetworkResolution(certsByGuid, schema)(old(networkConfigs.items[i])).Some?
    ensures ok ==>
      networkConfigs.items ==
      old(networkConfigs.items)[i := NetworkResolution(certsByGuid, schema)(old(networkConfigs.items[i])).value]
    ensures !ok ==> networkConfigs.items == old(networkConfigs.items)[..i] + old(networkConfigs.items)[i + 1..]
  {
    var network := new DictionaryValue(networkConfigs.items[i].entries);
    ok := ResolveServerCertRefsInNetwork(certsByGuid, schema, network);
    if !ok {
      networkConfigs.items := networkConfigs.items[..i] + networkConfigs.items[i + 1..];
    } else {
      networkConfigs.items := networkConfigs.items[i := Dict(network.entries)];
    }
  }

  /** The loop step in terms of the filter: after visiting network `visited`, the list is one entry further along. */
  method VisitNetwork(certsByGuid: CertMap, schema: Schema, networkConfigs: ListValue, i: nat,
                      ghost original: seq<Value>, ghost visited: nat) returns (ok: bool)
    requires AllDicts(original) && visited < |original|
    requires i == |Surviving(NetworkResolution(certsByGuid, schema), original[..visited])|
    requires networkConfigs.items == Surviving(NetworkResolution(certsByGuid, schema), original[..visited]) + original[visited..]
    modifies networkConfigs
    ensures networkConfigs.items ==
      Surviving(NetworkResolution(certsByGuid, schema), original[..visited + 1]) + original[visited + 1..]
    ensures |Surviving(NetworkResolution(certsByGuid, schema), original[..visited + 1])| == if ok then i + 1 else i
  {
    ghost var resolve := NetworkResolution(certsByGuid, schema);
    ghost var before := Surviving(resolve, original[..visited]);
    SurvivingStep(resolve, original, visited);
    SplitAt(before, original[visited..], resolve(original[visited]));
    assert original[visited..][1..] == original[visited + 1..];
    ok := ResolveOrErase(certsByGuid, schema, networkConfigs, i);
  }

  /**
   * ResolveServerCertRefsInNetworks: every network is resolved in place, a
   * network that fails is erased, and the result is true exactly when none was.
   */
  method ResolveServerCertRefsInNetworks(certsByGuid: CertMap, schema: Schema, networkConfigs: ListValue)
    returns (success: bool)
    requires AllDicts(networkConfigs.items)
    modifies networkConfigs
    ensures networkConfigs.items == Surviving(NetworkResolution(certsByGuid, schema), old(networkConfigs.items))
    ensures success <==> forall i :: 0 <= i < |old(networkConfigs.items)| ==>
      NetworkResolution(certsByGuid, schema)(old(networkConfigs.items)[i]).Some?
  {
    ghost var resolve := NetworkResolution(certsByGuid, schema);
    ghost var original := networkConfigs.items;
    ghost var visited := 0;
    success := true;
    var i := 0;
    while i < |networkConfigs.items|
      invariant 0 <= visited <= |original|
      invariant i == |Surviving(resolve, original[..visited])|
      invariant networkConfigs.items == Surviving(resolve, original[..visited]) + original[visited..]
      invariant i <= visited && (success <==> i == visited)
      decreases |networkConfigs.items| - i
    {
      var ok := VisitNetwork(certsByGuid, schema, networkConfigs, i, original, visited);
      if !ok {
        success := false;
      } else {
        i := i + 1;
      }
      visited := visited + 1;
    }
    assert original[..visited] == original;
    SurvivingAll(resolve, original);
  }
}
