/**
 * ParseAndValidateOncForImport and GetSourceAsString in onc_utils.cc: the
 * import of an ONC blob into its network configurations, global network
 * configuration and certificates, with the three-way validation verdict and
 * every failure along the way folded into one success flag.
 */
module OncImport {
  import opened Wrappers
  import opened OncValues
  import opened OncSchema
  import opened OncDecrypt
  import opened OncHexSsid
  import opened OncCerts
  import opened OncResolve

  /** ONCSource. */
  datatype OncSource = SourceUnknown | SourceNone | DevicePolicy | UserPolicy | UserImport

  /** GetSourceAsString: the name used in log messages. */
  function GetSourceAsString(source: OncSource): (r: string)
    ensures |r| > 0
  {
    match source
    case SourceUnknown => "unknown"
    case SourceNone => "none"
    case DevicePolicy => "device policy"
    case UserPolicy => "user policy"
    case UserImport => "user import"
  }

  /** Every source has its own name, so a log message tells them apart. */
  lemma SourceNamesDistinct(a: OncSource, b: OncSource)
    requires a != b
    ensures GetSourceAsString(a) != GetSourceAsString(b)
  {
  }

  /** The validator runs in policy mode for device and user policy. */
  function FromPolicy(source: OncSource): bool
  {
    source == UserPolicy || source == DevicePolicy
  }

  /** What the validator guarantees of a repaired document: the two lists hold only dictionaries. */
  predicate WellFormedDocument(e: Entries)
  {
    && (GetList(e, CertificatesKey).Some? ==> AllDicts(e[CertificatesKey].items))
    && (GetList(e, NetworkConfigurationsKey).Some? ==> AllDicts(e[NetworkConfigurationsKey].items))
  }

  type Document = e: Entries | WellFormedDocument(e) witness map[]

  /**
   * Validator::Result with the object ValidateAndRepairObject returns: a
   * VALID or VALID_WITH_WARNINGS verdict comes with the repaired document, and
   * an INVALID one with none that the import could use.
   */
  datatype Validation = Valid(doc: Document) | ValidWithWarnings(doc: Document) | Invalid

  /**
   * Validator::ValidateAndRepairObject against the top-level signature, given
   * the policy flag and the source.
   */
  type Validate = (bool, OncSource, Entries) -> Validation

  /** The library calls and the schema the import depends on. */
  datatype Env = Env(crypto: Crypto, codec: PemCodec, schema: Schema, validate: Validate)

  /** The three outputs and the returned flag. */
  datatype Outcome = Outcome(success: bool, networkConfigs: seq<Value>, globalNetworkConfig: Entries,
                             certificates: seq<Value>)

  /** A failed import: false, with the outputs as they were cleared. */
  const Failed := Outcome(false, [], map[], [])

  /** The network configurations of the repaired document, HexSSIDs filled in. */
  function FilledNetworks(schema: Schema, networks: seq<Value>): (r: seq<Value>)
    requires AllDicts(networks)
    ensures AllDicts(r)
  {
    seq(|networks|, i requires 0 <= i < |networks| => FilledObject(schema, NetworkConfiguration, networks[i]))
  }

  /**
   * After the filling, every network has a HexSSID wherever a WiFi object at
   * any depth has a non-empty SSID, one network per network of the document,
   * and filling again changes nothing.
   */
  lemma FilledNetworksComplete(schema: Schema, networks: seq<Value>)
    requires AllDicts(networks)
    ensures |FilledNetworks(schema, networks)| == |networks|
    ensures forall i :: 0 <= i < |networks| ==> HexSsidComplete(schema, NetworkConfiguration, FilledNetworks(schema, networks)[i])
    ensures FilledNetworks(schema, FilledNetworks(schema, networks)) == FilledNetworks(schema, networks)
  {
    var r := FilledNetworks(schema, networks);
    forall i | 0 <= i < |networks|
      ensures HexSsidComplete(schema, NetworkConfiguration, r[i])
      ensures FilledObject(schema, NetworkConfiguration, r[i]) == r[i]
    {
      FilledObjectComplete(schema, NetworkConfiguration, networks[i]);
      FilledObjectIdempotent(schema, NetworkConfiguration, networks[i]);
    }
  }

  /** What is taken over from a repaired document, with `verdictOk` whether the verdict was clean. */
  function ImportDocument(env: Env, doc: Document, verdictOk: bool): Outcome
  {
    var certs := if GetList(doc, CertificatesKey).Some? then doc[CertificatesKey].items else [];
    var global := GetDictionary(doc, GlobalNetworkConfigurationKey).GetOr(map[]);
    if GetList(doc, NetworkConfigurationsKey).None? then Outcome(verdictOk, [], global, certs)
    else
      var filled := FilledNetworks(env.schema, doc[NetworkConfigurationsKey].items);
      var resolve := NetworkResolution(CertsByGuid(env.codec, certs), env.schema);
      var resolved := forall i :: 0 <= i < |filled| ==> resolve(filled[i]).Some?;
      Outcome(verdictOk && resolved, Surviving(resolve, filled), global, certs)
  }

  /** The top-level dictionary of a non-empty blob: parsed, then decrypted when its Type says it is encrypted. */
  function ParsedDocument(crypto: Crypto, oncBlob: Bytes, passphrase: Bytes): Option<Entries>
  {
    match crypto.readJson(oncBlob)
    case None => None
    case Some(toplevel) =>
      if GetString(toplevel, TypeKey) != Some(EncryptedConfiguration) then Some(toplevel)
      else match Decrypt(crypto, passphrase, toplevel)
        case Failure(_) => None
        case Success(decrypted) => Some(decrypted)
  }

  /** What ParseAndValidateOncForImport returns and leaves in its three outputs. */
  function ImportOutcome(env: Env, oncBlob: Bytes, source: OncSource, passphrase: Bytes): Outcome
  {
    if oncBlob == [] then Outcome(true, [], map[], [])
    else match ParsedDocument(env.crypto, oncBlob, passphrase)
      case None => Failed
      case Some(toplevel) =>
        match env.validate(FromPolicy(source), source, toplevel)
        case Invalid => Failed
        case ValidWithWarnings(doc) => ImportDocument(env, doc, false)
        case Valid(doc) => ImportDocument(env, doc, true)
  }

  /** The parsing and decryption steps of ParseAndValidateOncForImport. */
  method ReadOncBlob(crypto: Crypto, oncBlob: Bytes, passphrase: Bytes) returns (toplevel: Option<Entries>)
    ensures toplevel == ParsedDocument(crypto, oncBlob, passphrase)
  {
    toplevel := crypto.readJson(oncBlob);
    if toplevel.None? {
      return;
    }
    if GetString(toplevel.value, TypeKey) == Some(EncryptedConfiguration) {
      var decrypted := Decrypt(crypto, passphrase, toplevel.value);
      if decrypted.Failure? {
        return None;
      }
      toplevel := Some(decrypted.value);
    }
  }

  /**
   * ParseAndValidateOncForImport. The outputs are cleared first; the
   * certificates are taken over before the certificate map is built from them;
   * the networks have their HexSSIDs filled in before their references are
   * resolved, and the networks that fail to resolve are dropped.
   */
  method ParseAndValidateOncForImport(env: Env, oncBlob: Bytes, source: OncSource, passphrase: Bytes,
                                      networkConfigs: ListValue, globalNetworkConfig: DictionaryValue,
                                      certificates: ListValue) returns (success: bool)
    requires networkConfigs != certificates
    modifies networkConfigs, globalNetworkConfig, certificates
    ensures var r := ImportOutcome(env, oncBlob, source, passphrase);
      && success == r.success
      && networkConfigs.items == r.networkConfigs
      && globalNetworkConfig.entries == r.globalNetworkConfig
      && certificates.items == r.certificates
  {
    networkConfigs.items := [];
    globalNetworkConfig.entries := map[];
    certificates.items := [];
    if oncBlob == [] {
      return true;
    }

    var parsed := ReadOncBlob(env.crypto, oncBlob, passphrase);
    if parsed.None? {
      return false;
    }
    var toplevel := parsed.value;

    var validation := env.validate(FromPolicy(source), source, toplevel);
    success := true;
    if validation.ValidWithWarnings? {
      success := false;
    } else if validation.Invalid? {
      return false;
    }
    var resolved := TakeOverDocument(env, validation.doc, networkConfigs, globalNetworkConfig, certificates);
    if !resolved {
      success := false;
    }
  }

  /**
   * The second half of ParseAndValidateOncForImport, on the repaired document:
   * the outputs, cleared before, receive its certificates, its networks after
   * HexSSID filling and reference resolution, and its global configuration.
   * The result says whether every network resolved.
   */
  method TakeOverDocument(env: Env, validated: Document, networkConfigs: ListValue,
                          globalNetworkConfig: DictionaryValue, certificates: ListValue) returns (resolved: bool)
    requires networkConfigs != certificates
    requires networkConfigs.items == [] && globalNetworkConfig.entries == map[] && certificates.items == []
    modifies networkConfigs, globalNetworkConfig, certificates
    ensures var r := ImportDocument(env, validated, true);
      && resolved == r.success
      && networkConfigs.items == r.networkConfigs
      && globalNetworkConfig.entries == r.globalNetworkConfig
      && certificates.items == r.certificates
  {
    resolved := true;
    if GetList(validated, CertificatesKey).Some? {
      certificates.items := validated[CertificatesKey].items;
    }

    if GetList(validated, NetworkConfigurationsKey).Some? {
      var validatedNetworks := new ListValue(validated[NetworkConfigurationsKey].items);
      FillInHexSSIDFieldsInNetworks(env.schema, validatedNetworks);
      assert validatedNetworks.items == FilledNetworks(env.schema, validated[NetworkConfigurationsKey].items);
      var serverAndCaCerts := GetServerAndCACertsByGUID(env.codec, certificates.items);
      resolved := ResolveServerCertRefsInNetworks(serverAndCaCerts, env.schema, validatedNetworks);
      networkConfigs.items := validatedNetworks.items;
    }

    if GetDictionary(validated, GlobalNetworkConfigurationKey).Some? {
      globalNetworkConfig.entries := validated[GlobalNetworkConfigurationKey].entries;
    }
  }

  /** An empty blob is a successful import of nothing. */
  lemma EmptyBlobImportsNothing(env: Env, source: OncSource, passphrase: Bytes)
    ensures ImportOutcome(env, [], source, passphrase) == Outcome(true, [], map[], [])
  {
  }

  /**
   * Every early exit leaves the three outputs empty and returns false: a blob
   * that is not a JSON dictionary, an encrypted blob that does not decrypt, and
   * an invalid verdict.
   */
  lemma EarlyFailures(env: Env, oncBlob: Bytes, source: OncSource, passphrase: Bytes)
    requires oncBlob != []
    ensures env.crypto.readJson(oncBlob).None? ==> ImportOutcome(env, oncBlob, source, passphrase) == Failed
    ensures env.crypto.readJson(oncBlob).Some? &&
      GetString(env.crypto.readJson(oncBlob).value, TypeKey) == Some(EncryptedConfiguration) &&
      Decrypt(env.crypto, passphrase, env.crypto.readJson(oncBlob).value).Failure?
      ==> ImportOutcome(env, oncBlob, source, passphrase) == Failed
    ensures ParsedDocument(env.crypto, oncBlob, passphrase).Some? &&
      env.validate(FromPolicy(source), source, ParsedDocument(env.crypto, oncBlob, passphrase).value).Invalid?
      ==> ImportOutcome(env, oncBlob, source, passphrase) == Failed
  {
  }

  /** An unencrypted blob is validated as parsed; an encrypted one exactly as its decryption yields it. */
  lemma ParsedDocumentCases(crypto: Crypto, oncBlob: Bytes, passphrase: Bytes)
    requires crypto.readJson(oncBlob).Some?
    ensures var toplevel := crypto.readJson(oncBlob).value;
      ParsedDocument(crypto, oncBlob, passphrase) ==
        if GetString(toplevel, TypeKey) == Some(EncryptedConfiguration)
        then (if Decrypt(crypto, passphrase, toplevel).Success? then Some(Decrypt(crypto, passphrase, toplevel).value) else None)
        else Some(toplevel)
  {
  }

  /**
   * A verdict with warnings still delivers the outputs, exactly as a clean
   * verdict on the same repaired document would, but the import reports false.
   */
  lemma WarningsStillImport(env: Env, doc: Document)
    ensures ImportDocument(env, doc, false).success == false
    ensures var w := ImportDocument(env, doc, false);
      var v := ImportDocument(env, doc, true);
      w.networkConfigs == v.networkConfigs && w.globalNetworkConfig == v.globalNetworkConfig &&
      w.certificates == v.certificates
  {
  }

  /**
   * A clean verdict succeeds exactly when no network had to be dropped; then the
   * imported networks are the repaired ones, HexSSIDs filled in and references
   * resolved, one for one.
   */
  lemma CleanImportSucceedsIffAllResolve(env: Env, doc: Document)
    requires GetList(doc, NetworkConfigurationsKey).Some?
    ensures var networks := doc[NetworkConfigurationsKey].items;
      var r := ImportDocument(env, doc, true);
      r.success <==> |r.networkConfigs| == |networks|
  {
    var certs := if GetList(doc, CertificatesKey).Some? then doc[CertificatesKey].items else [];
    var filled := FilledNetworks(env.schema, doc[NetworkConfigurationsKey].items);
    SurvivingAll(NetworkResolution(CertsByGuid(env.codec, certs), env.schema), filled);
  }

  /** Every imported network has no certificate reference left that the resolution would act on. */
  lemma ImportedNetworksResolved(env: Env, doc: Document, verdictOk: bool)
    ensures forall n :: n in ImportDocument(env, doc, verdictOk).networkConfigs ==>
      n.Dict? && TreeResolved(env.schema, NetworkConfiguration, n)
  {
    if GetList(doc, NetworkConfigurationsKey).Some? {
      var certs := if GetList(doc, CertificatesKey).Some? then doc[CertificatesKey].items else [];
      var filled := FilledNetworks(env.schema, doc[NetworkConfigurationsKey].items);
      var certMap := CertsByGuid(env.codec, certs);
      var resolve := NetworkResolution(certMap, env.schema);
      var kept := Surviving(resolve, filled);
      SurvivingSpec(resolve, filled);
      forall n | n in kept ensures n.Dict? && TreeResolved(env.schema, NetworkConfiguration, n) {
        var j :| 0 <= j < |kept| && kept[j] == n;
        var i := ResolvedIndices(resolve, filled)[j];
        ResolvedObjectComplete(certMap, env.schema, NetworkConfiguration, filled[i]);
      }
    }
  }
}
