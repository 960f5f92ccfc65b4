/**
 * Server and CA certificate references (GetServerAndCACertsByGUID and the
 * Resolve*CertRef* family in onc_utils.cc): a map from certificate GUID to PEM
 * is built from the Certificates list, and references by GUID in an object are
 * replaced by the PEM encodings they name. A resolver either resolves every
 * reference it is asked about or leaves the object as it found it.
 */
module OncCerts {
  import opened Wrappers
  import opened OncValues
  import opened OncSchema

  /** CertPEMsByGUIDMap. */
  type CertMap = map<Bytes, Bytes>

  /**
   * The PEM and X.509 library calls: DecodePEM (the empty string when neither a
   * PEM block nor plain base64 can be read) and X509Certificate::GetPEMEncodedFromDER.
   */
  datatype PemCodec = PemCodec(decodePem: Bytes -> Bytes, pemFromDer: Bytes -> Option<Bytes>)

  /*
   * The certificate map
   */

  /**
   * What one entry of the Certificates list adds to the map: its GUID and PEM, or
   * None when it is skipped. A missing GUID, Type or X509 reads as "".
   */
  function CertContribution(codec: PemCodec, cert: Value): Option<(Bytes, Bytes)>
    requires cert.Dict?
  {
    var guid := GetString(cert.entries, GuidKey).GetOr([]);
    var certType := GetString(cert.entries, TypeKey).GetOr([]);
    if certType != ServerType && certType != AuthorityType then None
    else
      var der := codec.decodePem(GetString(cert.entries, X509Key).GetOr([]));
      if der == [] then None
      else match codec.pemFromDer(der)
        case None => None
        case Some(pem) => Some((guid, pem))
  }

  /** The entry contributes a PEM under `guid`. */
  predicate Contributes(codec: PemCodec, cert: Value, guid: Bytes)
    requires cert.Dict?
  {
    CertContribution(codec, cert).Some? && CertContribution(codec, cert).value.0 == guid
  }

  /** The map GetServerAndCACertsByGUID returns for `certs`: the entries in order, a later one overwriting an earlier one. */
  function CertsByGuid(codec: PemCodec, certs: seq<Value>): CertMap
    requires AllDicts(certs)
    decreases |certs|
  {
    if certs == [] then map[]
    else
      var m := CertsByGuid(codec, certs[..|certs| - 1]);
      match CertContribution(codec, certs[|certs| - 1])
      case None => m
      case Some((guid, pem)) => m[guid := pem]
  }

  /** The last step of CertsByGuid: the map of the prefix, updated by the last entry's contribution. */
  lemma CertsByGuidStep(codec: PemCodec, certs: seq<Value>)
    requires AllDicts(certs) && certs != []
    ensures var last := certs[|certs| - 1];
      var before := CertsByGuid(codec, certs[..|certs| - 1]);
      && AllDicts(certs[..|certs| - 1])
      && CertsByGuid(codec, certs) ==
         if CertContribution(codec, last).Some?
         then before[CertContribution(codec, last).value.0 := CertContribution(codec, last).value.1]
         else before
  {
  }

  /** A GUID is in the map exactly when some entry contributes it. */
  lemma {:induction false} CertsByGuidKeys(codec: PemCodec, certs: seq<Value>)
    requires AllDicts(certs)
    ensures forall guid :: guid in CertsByGuid(codec, certs) <==>
      exists i :: 0 <= i < |certs| && Contributes(codec, certs[i], guid)
    decreases |certs|
  {
    if certs != [] {
      var n := |certs| - 1;
      var prefix := certs[..n];
      CertsByGuidStep(codec, certs);
      CertsByGuidKeys(codec, prefix);
      assert forall i :: 0 <= i < n ==> prefix[i] == certs[i];
    }
  }

  /** A GUID in the map maps to the PEM of the last entry that contributes it. */
  lemma {:induction false} CertsByGuidLast(codec: PemCodec, certs: seq<Value>, guid: Bytes)
    requires AllDicts(certs) && guid in CertsByGuid(codec, certs)
    ensures exists i ::
      && 0 <= i < |certs|
      && CertContribution(codec, certs[i]) == Some((guid, CertsByGuid(codec, certs)[guid]))
      && (forall j :: i < j < |certs| ==> !Contributes(codec, certs[j], guid))
    decreases |certs|
  {
    var n := |certs| - 1;
    var prefix := certs[..n];
    var m := CertsByGuid(codec, certs);
    CertsByGuidStep(codec, certs);
    if Contributes(codec, certs[n], guid) {
      assert CertContribution(codec, certs[n]) == Some((guid, m[guid]));
    } else {
      CertsByGuidLast(codec, prefix, guid);
      var i :| 0 <= i < n && CertContribution(codec, prefix[i]) == Some((guid, CertsByGuid(codec, prefix)[guid]))
        && forall j :: i < j < n ==> !Contributes(codec, prefix[j], guid);
      assert prefix[i] == certs[i];
      forall j | i < j < |certs| ensures !Contributes(codec, certs[j], guid) {
        if j < n {
          assert prefix[j] == certs[j];
        }
      }
    }
  }

  /** GetServerAndCACertsByGUID: the map of the Server and Authority certificates whose X509 data could be read. */
  method GetServerAndCACertsByGUID(codec: PemCodec, certificates: seq<Value>) returns (certsByGuid: CertMap)
    requires AllDicts(certificates)
    ensures certsByGuid == CertsByGuid(codec, certificates)
  {
    certsByGuid := map[];
    for i := 0 to |certificates|
      invariant certsByGuid == CertsByGuid(codec, certificates[..i])
    {
      assert certificates[..i + 1][..i] == certificates[..i];
      var cert := certificates[i].entries;
      var guid := GetString(cert, GuidKey).GetOr([]);
      var certType := GetString(cert, TypeKey).GetOr([]);
      if certType != ServerType && certType != AuthorityType {
        continue;
      }
      var x509Data := GetString(cert, X509Key).GetOr([]);
      var der := codec.decodePem(x509Data);
      if der == [] || codec.pemFromDer(der).None? {
        continue;
      }
      certsByGuid := certsByGuid[guid := codec.pemFromDer(der).value];
    }
    assert certificates[..|certificates|] == certificates;
  }

  /*
   * Reference resolvers
   */

  /** GUIDRefToPEMEncoding: the PEM of a GUID that is in the map with a non-empty PEM. */
  function GuidRefToPem(certsByGuid: CertMap, guidRef: Bytes): Option<Bytes>
  {
    if guidRef !in certsByGuid then None
    else if certsByGuid[guidRef] == [] then None
    else Some(certsByGuid[guidRef])
  }

  /** The object a resolver leaves behind has no dictionary it did not already have. */
  predicate NoNewDicts(e: Entries, r: Entries)
  {
    forall k :: k in r && r[k].Dict? ==> k in e && e[k] == r[k]
  }

  /** The result of ResolveSingleCertRef on success, or None when it fails. */
  function SingleCertRef(certsByGuid: CertMap, keyGuidRef: Bytes, keyPem: Bytes, e: Entries): Option<Entries>
  {
    match GetString(e, keyGuidRef)
    case None => Some(e)
    case Some(guidRef) =>
      match GuidRefToPem(certsByGuid, guidRef)
      case None => None
      case Some(pem) => Some((e - {keyGuidRef})[keyPem := Str(pem)])
  }

  /**
   * A missing or non-string reference succeeds without change; otherwise the call
   * fails exactly when the GUID does not resolve, and on success the reference is
   * gone, the PEM field holds the certificate and nothing else changes.
   */
  lemma SingleCertRefCases(certsByGuid: CertMap, keyGuidRef: Bytes, keyPem: Bytes, e: Entries)
    requires keyGuidRef != keyPem
    ensures GetString(e, keyGuidRef).None? ==> SingleCertRef(certsByGuid, keyGuidRef, keyPem, e) == Some(e)
    ensures GetString(e, keyGuidRef).Some? ==>
      (SingleCertRef(certsByGuid, keyGuidRef, keyPem, e).Some? <==>
       GuidRefToPem(certsByGuid, e[keyGuidRef].s).Some?)
    ensures GetString(e, keyGuidRef).Some? && SingleCertRef(certsByGuid, keyGuidRef, keyPem, e).Some? ==>
      var r := SingleCertRef(certsByGuid, keyGuidRef, keyPem, e).value;
      && keyGuidRef !in r
      && r[keyPem] == Str(certsByGuid[e[keyGuidRef].s])
      && forall k :: k in e && k != keyGuidRef && k != keyPem ==> k in r && r[k] == e[k]
    ensures SingleCertRef(certsByGuid, keyGuidRef, keyPem, e).Some? ==>
      NoNewDicts(e, SingleCertRef(certsByGuid, keyGuidRef, keyPem, e).value)
  {
  }

  /** ResolveSingleCertRef: resolves the reference at `keyGuidRef` into `keyPem`; the object is unmodified on failure. */
  method ResolveSingleCertRef(certsByGuid: CertMap, keyGuidRef: Bytes, keyPem: Bytes, obj: DictionaryValue)
    returns (ok: bool)
    modifies obj
    ensures ok <==> SingleCertRef(certsByGuid, keyGuidRef, keyPem, old(obj.entries)).Some?
    ensures ok ==> obj.entries == SingleCertRef(certsByGuid, keyGuidRef, keyPem, old(obj.entries)).value
    ensures !ok ==> obj.entries == old(obj.entries)
  {
    if !(keyGuidRef in obj.entries && obj.entries[keyGuidRef].Str?) {
      return true;
    }
    var guidRef := obj.entries[keyGuidRef].s;
    var pemEncoded := GuidRefToPem(certsByGuid, guidRef);
    if pemEncoded.None? {
      return false;
    }
    obj.entries := obj.entries - {keyGuidRef};
    obj.entries := obj.entries[keyPem := Str(pemEncoded.value)];
    return true;
  }

  /** Value::GetAsString on a list entry: a non-string entry reads as "". */
  function AsString(v: Value): Bytes
  {
    if v.Str? then v.s else []
  }

  /** The PEM list ResolveCertRefList builds from `refs`, or None when some reference does not resolve. */
  function PemsOf(certsByGuid: CertMap, refs: seq<Value>): Option<seq<Value>>
    decreases |refs|
  {
    if refs == [] then Some([])
    else
      match PemsOf(certsByGuid, refs[..|refs| - 1])
      case None => None
      case Some(pems) =>
        match GuidRefToPem(certsByGuid, AsString(refs[|refs| - 1]))
        case None => None
        case Some(pem) => Some(pems + [Str(pem)])
  }

  /** The list resolves exactly when every entry does, and then entry i becomes the PEM of reference i. */
  lemma {:induction false} PemsOfSpec(certsByGuid: CertMap, refs: seq<Value>)
    ensures PemsOf(certsByGuid, refs).Some? <==>
      forall i :: 0 <= i < |refs| ==> GuidRefToPem(certsByGuid, AsString(refs[i])).Some?
    ensures PemsOf(certsByGuid, refs).Some? ==>
      var pems := PemsOf(certsByGuid, refs).value;
      && |pems| == |refs|
      && forall i :: 0 <= i < |refs| ==> pems[i] == Str(certsByGuid[AsString(refs[i])])
    decreases |refs|
  {
    if refs != [] {
      var n := |refs| - 1;
      var prefix := refs[..n];
      PemsOfSpec(certsByGuid, prefix);
      assert forall i :: 0 <= i < n ==> prefix[i] == refs[i];
    }
  }

  /** The result of ResolveCertRefList on success, or None when it fails. */
  function CertRefList(certsByGuid: CertMap, keyGuidRefList: Bytes, keyPemList: Bytes, e: Entries): Option<Entries>
  {
    match GetList(e, keyGuidRefList)
    case None => Some(e)
    case Some(refs) =>
      match PemsOf(certsByGuid, refs)
      case None => None
      case Some(pems) => Some((e - {keyGuidRefList})[keyPemList := List(pems)])
  }

  /**
   * A missing or non-list reference list succeeds without change; otherwise the
   * call fails exactly when some entry does not resolve, and on success the list
   * is gone and the PEM list holds the certificates in the same order.
   */
  lemma CertRefListCases(certsByGuid: CertMap, keyGuidRefList: Bytes, keyPemList: Bytes, e: Entries)
    requires keyGuidRefList != keyPemList
    ensures GetList(e, keyGuidRefList).None? ==> CertRefList(certsByGuid, keyGuidRefList, keyPemList, e) == Some(e)
    ensures GetList(e, keyGuidRefList).Some? ==>
      var refs := e[keyGuidRefList].items;
      && (CertRefList(certsByGuid, keyGuidRefList, keyPemList, e).Some? <==>
          forall i :: 0 <= i < |refs| ==> GuidRefToPem(certsByGuid, AsString(refs[i])).Some?)
      && (CertRefList(certsByGuid, keyGuidRefList, keyPemList, e).Some? ==>
          var r := CertRefList(certsByGuid, keyGuidRefList, keyPemList, e).value;
          && keyGuidRefList !in r
          && r[keyPemList].List? && |r[keyPemList].items| == |refs|
          && (forall i :: 0 <= i < |refs| ==> r[keyPemList].items[i] == Str(certsByGuid[AsString(refs[i])]))
          && forall k :: k in e && k != keyGuidRefList && k != keyPemList ==> k in r && r[k] == e[k])
    ensures CertRefList(certsByGuid, keyGuidRefList, keyPemList, e).Some? ==>
      NoNewDicts(e, CertRefList(certsByGuid, keyGuidRefList, keyPemList, e).value)
  {
    if GetList(e, keyGuidRefList).Some? {
      PemsOfSpec(certsByGuid, e[keyGuidRefList].items);
    }
  }

  /** ResolveCertRefList: builds the PEM list entry by entry; the object is unmodified on failure. */
  method ResolveCertRefList(certsByGuid: CertMap, keyGuidRefList: Bytes, keyPemList: Bytes, obj: DictionaryValue)
    returns (ok: bool)
    modifies obj
    ensures ok <==> CertRefList(certsByGuid, keyGuidRefList, keyPemList, old(obj.entries)).Some?
    ensures ok ==> obj.entries == CertRefList(certsByGuid, keyGuidRefList, keyPemList, old(obj.entries)).value
    ensures !ok ==> obj.entries == old(obj.entries)
  {
    if !(keyGuidRefList in obj.entries && obj.entries[keyGuidRefList].List?) {
      return true;
    }
    var guidRefList := obj.entries[keyGuidRefList].items;
    var pemList: seq<Value> := [];
    for i := 0 to |guidRefList|
      invariant PemsOf(certsByGuid, guidRefList[..i]) == Some(pemList)
    {
      assert guidRefList[..i + 1][..i] == guidRefList[..i];
      var guidRef := AsString(guidRefList[i]);
      var pemEncoded := GuidRefToPem(certsByGuid, guidRef);
      if pemEncoded.None? {
        NoResolutionAfterFailure(certsByGuid, guidRefList, i + 1);
        return false;
      }
      pemList := pemList + [Str(pemEncoded.value)];
    }
    assert guidRefList[..|guidRefList|] == guidRefList;
    obj.entries := obj.entries - {keyGuidRefList};
    obj.entries := obj.entries[keyPemList := List(pemList)];
    return true;
  }

  /** Once a prefix fails to resolve, the whole list fails. */
  lemma {:induction false} NoResolutionAfterFailure(certsByGuid: CertMap, refs: seq<Value>, n: nat)
    requires n <= |refs| && PemsOf(certsByGuid, refs[..n]).None?
    ensures PemsOf(certsByGuid, refs).None?
    decreases |refs| - n
  {
    if n < |refs| {
      assert refs[..n + 1][..n] == refs[..n];
      NoResolutionAfterFailure(certsByGuid, refs, n + 1);
    } else {
      assert refs[..n] == refs;
    }
  }

  /** The result of ResolveSingleCertRefToList on success, or None when it fails. */
  function SingleCertRefToList(certsByGuid: CertMap, keyGuidRef: Bytes, keyPemList: Bytes, e: Entries): Option<Entries>
  {
    match GetString(e, keyGuidRef)
    case None => Some(e)
    case Some(guidRef) =>
      match GuidRefToPem(certsByGuid, guidRef)
      case None => None
      case Some(pem) => Some((e - {keyGuidRef})[keyPemList := List([Str(pem)])])
  }

  /** As SingleCertRefCases, with the PEM stored as a one-element list. */
  lemma SingleCertRefToListCases(certsByGuid: CertMap, keyGuidRef: Bytes, keyPemList: Bytes, e: Entries)
    requires keyGuidRef != keyPemList
    ensures GetString(e, keyGuidRef).None? ==> SingleCertRefToList(certsByGuid, keyGuidRef, keyPemList, e) == Some(e)
    ensures GetString(e, keyGuidRef).Some? ==>
      (SingleCertRefToList(certsByGuid, keyGuidRef, keyPemList, e).Some? <==>
       GuidRefToPem(certsByGuid, e[keyGuidRef].s).Some?)
    ensures GetString(e, keyGuidRef).Some? && SingleCertRefToList(certsByGuid, keyGuidRef, keyPemList, e).Some? ==>
      var r := SingleCertRefToList(certsByGuid, keyGuidRef, keyPemList, e).value;
      && keyGuidRef !in r
      && r[keyPemList] == List([Str(certsByGuid[e[keyGuidRef].s])])
      && forall k :: k in e && k != keyGuidRef && k != keyPemList ==> k in r && r[k] == e[k]
    ensures SingleCertRefToList(certsByGuid, keyGuidRef, keyPemList, e).Some? ==>
      NoNewDicts(e, SingleCertRefToList(certsByGuid, keyGuidRef, keyPemList, e).value)
  {
  }

  /** ResolveSingleCertRefToList: the object is unmodified on failure. */
  method ResolveSingleCertRefToList(certsByGuid: CertMap, keyGuidRef: Bytes, keyPemList: Bytes, obj: DictionaryValue)
    returns (ok: bool)
    modifies obj
    ensures ok <==> SingleCertRefToList(certsByGuid, keyGuidRef, keyPemList, old(obj.entries)).Some?
    ensures ok ==> obj.entries == SingleCertRefToList(certsByGuid, keyGuidRef, keyPemList, old(obj.entries)).value
    ensures !ok ==> obj.entries == old(obj.entries)
  {
    if !(keyGuidRef in obj.entries && obj.entries[keyGuidRef].Str?) {
      return true;
    }
    var guidRef := obj.entries[keyGuidRef].s;
    var pemEncoded := GuidRefToPem(certsByGuid, guidRef);
    if pemEncoded.None? {
      return false;
    }
    var pemList := [Str(pemEncoded.value)];
    obj.entries := obj.entries - {keyGuidRef};
    obj.entries := obj.entries[keyPemList := List(pemList)];
    return true;
  }

  /** The result of ResolveCertRefsOrRefToList on success, or None when it fails. */
  function CertRefsOrRefToList(certsByGuid: CertMap, keyGuidRefs: Bytes, keyGuidRef: Bytes, keyPemList: Bytes,
                               e: Entries): Option<Entries>
  {
    if keyGuidRefs in e then CertRefList(certsByGuid, keyGuidRefs, keyPemList, e - {keyGuidRef})
    else SingleCertRefToList(certsByGuid, keyGuidRef, keyPemList, e)
  }

  /**
   * The plural key wins: when it is present, whatever the singular key holds is
   * dropped unresolved and the outcome is that of resolving the plural list alone;
   * the singular key is resolved only when the plural key is absent.
   */
  lemma CertRefsOrRefPrecedence(certsByGuid: CertMap, keyGuidRefs: Bytes, keyGuidRef: Bytes, keyPemList: Bytes,
                                e: Entries, singular: Value)
    requires keyGuidRefs != keyGuidRef && keyGuidRef != keyPemList && keyGuidRefs != keyPemList
    ensures keyGuidRefs in e ==>
      CertRefsOrRefToList(certsByGuid, keyGuidRefs, keyGuidRef, keyPemList, e) ==
      CertRefsOrRefToList(certsByGuid, keyGuidRefs, keyGuidRef, keyPemList, e[keyGuidRef := singular])
    ensures keyGuidRefs in e && CertRefsOrRefToList(certsByGuid, keyGuidRefs, keyGuidRef, keyPemList, e).Some? ==>
      keyGuidRef !in CertRefsOrRefToList(certsByGuid, keyGuidRefs, keyGuidRef, keyPemList, e).value
    ensures keyGuidRefs !in e ==>
      CertRefsOrRefToList(certsByGuid, keyGuidRefs, keyGuidRef, keyPemList, e) ==
      SingleCertRefToList(certsByGuid, keyGuidRef, keyPemList, e)
    ensures CertRefsOrRefToList(certsByGuid, keyGuidRefs, keyGuidRef, keyPemList, e).Some? ==>
      NoNewDicts(e, CertRefsOrRefToList(certsByGuid, keyGuidRefs, keyGuidRef, keyPemList, e).value)
  {
    if keyGuidRefs in e {
      assert e[keyGuidRef := singular] - {keyGuidRef} == e - {keyGuidRef};
      CertRefListCases(certsByGuid, keyGuidRefs, keyPemList, e - {keyGuidRef});
    }
  }

  /**
   * ResolveCertRefsOrRefToList. On failure the only change is that the singular
   * key has been removed if the plural key is present.
   */
  method ResolveCertRefsOrRefToList(certsByGuid: CertMap, keyGuidRefs: Bytes, keyGuidRef: Bytes, keyPemList: Bytes,
                                    obj: DictionaryValue)
    returns (ok: bool)
    modifies obj
    ensures ok <==> CertRefsOrRefToList(certsByGuid, keyGuidRefs, keyGuidRef, keyPemList, old(obj.entries)).Some?
    ensures ok ==> obj.entries == CertRefsOrRefToList(certsByGuid, keyGuidRefs, keyGuidRef, keyPemList, old(obj.entries)).value
    ensures !ok ==> obj.entries == if keyGuidRefs in old(obj.entries) then old(obj.entries) - {keyGuidRef} else old(obj.entries)
  {
    if keyGuidRefs in obj.entries {
      if keyGuidRef in obj.entries {
        obj.entries := obj.entries - {keyGuidRef};
      }
      assert obj.entries == old(obj.entries) - {keyGuidRef};
      ok := ResolveCertRefList(certsByGuid, keyGuidRefs, keyPemList, obj);
      return;
    }
    ok := ResolveSingleCertRefToList(certsByGuid, keyGuidRef, keyPemList, obj);
  }
}
