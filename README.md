# ONC import pipeline and memory-dump aggregation, in Dafny

This project models two cores of a browser source tree and proves properties
of the models.

**Open Network Configuration (ONC) import** (`src/chromeos/network/onc/onc_utils.cc`).
An ONC blob is a JSON document describing networks, certificates and global
network settings. `ParseAndValidateOncForImport` runs it through a pipeline:

1. An empty blob imports nothing and succeeds.
2. The blob is parsed. An `EncryptedConfiguration` envelope is decrypted
   first. The envelope gates are the cipher, HMAC, salt, stretch method and
   iteration count (1 to 500000).
3. The document is validated against the ONC signature.
4. WiFi `HexSSID` fields are filled in from `SSID`.
5. Certificates are indexed by GUID.
6. Every network's certificate references (`*Ref`, `*Refs`) are resolved to
   PEM strings. A network whose references cannot all be resolved is erased.

The smaller helpers are modelled on their own:

- the string expansion of `${LOGIN_ID}` and `${LOGIN_EMAIL}` in networks
  (`ExpandStringsInNetworks`, which the import does not call);
- `IsRecommendedValue`;
- the proxy-scheme rules of the proxy conversion;
- `ConvertOncProxyLocationToHostPort`.

The generic value tree is `OncValues.Value`. Dictionaries and lists that the
source mutates in place are the classes `OncValues.DictionaryValue` and
`OncValues.ListValue`. Each recursive in-place walk is a method. It is proved
equal to a pure function on the original tree (`ExpandedObject`,
`FilledObject`, `ResolvedObject`), and the properties are proved about those
functions.

- **The ONC signature (schema)** is a parameter. So are the crypto and base64
  primitives, JSON parsing, the validator and the PEM encoder.
- **An unreachable IPsec test.** In `ResolveServerCertRefsInObject` the arm
  that resolves `ServerCertRef` (line 639) tests for the IPsec signature as
  well as OpenVPN. An IPsec object has already taken the arm before it
  (line 631), so that test never holds and only OpenVPN resolves
  `ServerCertRef`. The model keeps the dispatch exactly as written, and
  `OncResolve.OnlyOpenVpnResolvesServerCert` states the consequence.

**Memory dumps** (`src/tools/telemetry/telemetry/timeline/memory_dump_event.py`).
A trace's memory dump events are turned into objects in three steps:

1. Every `ProcessMemoryDump` folds its allocator dumps into per-allocator
   totals:
   - values are hex strings, read as `int(s, 16)`;
   - `.../allocated_objects` dumps outside malloc are skipped;
   - malloc's size is discounted by tracing's size.
2. It classifies each mmap region into the `ROOT_CATEGORY` tree. Each region
   adds its byte statistics to the `MemoryBucket` of every category on the
   path from `/` to the deepest category matching its mapped file.
3. A `MemoryDumpEvent` checks its process dumps for one dump id, distinct
   pids and one `has_mmaps`. It then sums their stats summaries and
   allocator stats key by key.

`MemoryBucket`, `ProcessMemoryDump` and `MemoryDumpEvent` are classes. Their
methods are proved against functions of the old state (`AddedStats`,
`RegionsAdded`, `StatsSummary`, `SumStats`). The probe of category file
patterns (Python's `re.search`) is a parameter `search`.

## Model

| member | source | states |
|---|---|---|
| OncDecrypt.DecryptMalformedIff | src/chromeos/network/onc/onc_utils.cc:77-89 | decryption fails as malformed exactly when one of the envelope fields (ciphertext, cipher, HMAC, HMAC method, IV, salt, stretch, Type as strings, iterations as an integer) is missing or mistyped, or Type is not EncryptedConfiguration |
| OncDecrypt.DecryptSchemeGate | src/chromeos/network/onc/onc_utils.cc:91-96 | a well-formed envelope is refused as unsupported exactly when its HMAC method is not SHA1, its cipher not AES256 or its stretch method not PBKDF2 |
| OncDecrypt.DecryptIterationGate | src/chromeos/network/onc/onc_utils.cc:98-109 | for a supported envelope, 0 iterations and negative or more than 500000 iterations are each refused with their own error, exactly in those cases and whatever the primitives or passphrase; any other count goes on to key derivation |
| OncDecrypt.DecryptSuccessIff | src/chromeos/network/onc/onc_utils.cc:63-163 | decryption yields a document exactly when the envelope is well formed, supported and in range, the base64 fields decode, the HMAC over the ciphertext matches, the plaintext decrypts and parses as a JSON dictionary, and the result is that dictionary |
| OncDecrypt.IterationBoundaries | src/chromeos/network/onc/onc_utils.cc:98-109 | on a sample envelope 0, -1 and 500001 iterations are refused and 500000 is accepted by the iteration gate |
| OncImport.GetSourceAsString | src/chromeos/network/onc/onc_utils.cc:165-180 | every ONC source has a non-empty name |
| OncImport.SourceNamesDistinct | src/chromeos/network/onc/onc_utils.cc:165-180 | different sources have different names |
| OncExpand.ExpandField | src/chromeos/network/onc/onc_utils.cc:182-204 | a missing or non-string field is left alone; a string field is replaced by its expansion; nothing else changes |
| OncExpand.ReplaceAllWithoutOccurrence | src/chromeos/network/onc/onc_utils.cc:189-201 | a string without the placeholder is unchanged by substitution |
| OncExpand.ReplaceAllBySelf | src/chromeos/network/onc/onc_utils.cc:189-201 | substituting a placeholder by itself changes nothing |
| OncExpand.ExpandStringsInOncObject | src/chromeos/network/onc/onc_utils.cc:206-233 | the in-place recursive walk leaves the object equal to the pure expansion of the original tree |
| OncExpand.ExpandNested | src/chromeos/network/onc/onc_utils.cc:218-232 | after the local expansion, visiting every nested dictionary under its schema field type yields the full expansion |
| OncExpand.ExpandEntry | src/chromeos/network/onc/onc_utils.cc:221-231 | one child dictionary is replaced by its expansion and no other entry changes |
| OncExpand.ExpandLocally | src/chromeos/network/onc/onc_utils.cc:210-216 | EAP objects have AnonymousIdentity and Identity expanded, L2TP and OpenVPN objects Username; every other kind is unchanged |
| OncExpand.ExpandedLocallyKeepsNonStrings | src/chromeos/network/onc/onc_utils.cc:182-216 | the local expansion keeps the key set and every non-string value |
| OncExpand.ExpandedObjectAt | src/chromeos/network/onc/onc_utils.cc:219-232 | each child of the expansion is the expansion of the child under its field type when the child is a dictionary with a known type, and the locally expanded value otherwise |
| OncExpand.ExpandStringsInNetworks | src/chromeos/network/onc/onc_utils.cc:235-244 | every network of the list is replaced by its expansion as a NetworkConfiguration; the length is kept |
| OncExpand.ExpandWithoutSubstitutes | src/chromeos/network/onc/onc_utils.cc:189-201 | with neither login id nor email set, expansion is the identity on every tree |
| OncExpand.ExpandKeepsShape | src/chromeos/network/onc/onc_utils.cc:206-233 | expansion keeps every key and the kind of every value at every depth; only strings can change |
| OncExpand.ExpandOtherKindsLocally | src/chromeos/network/onc/onc_utils.cc:210-216 | objects other than EAP, L2TP and OpenVPN are not changed locally |
| OncExpand.ExpandExample | src/chromeos/network/onc/onc_utils.cc:189-194 | "${LOGIN_ID}@corp" with login id "alice" expands to "alice@corp" |
| OncHexSsid.FillInHexSSIDField | src/chromeos/network/onc/onc_utils.cc:268-282 | the WiFi object's entries become the filled form of the old entries |
| OncHexSsid.FilledHexSsidCases | src/chromeos/network/onc/onc_utils.cc:268-282 | the object is unchanged exactly when HexSSID is already present, SSID is missing or not a string, or SSID is empty; otherwise exactly HexSSID is added, as the hex encoding of SSID |
| OncHexSsid.FilledHexSsidDecodes | src/chromeos/network/onc/onc_utils.cc:277-281 | the HexSSID that is added decodes back to the SSID bytes |
| OncHexSsid.FilledHexSsidIdempotent | src/chromeos/network/onc/onc_utils.cc:268-282 | filling twice is the same as filling once |
| OncHexSsid.FilledLocallyKeepsDicts | src/chromeos/network/onc/onc_utils.cc:246-249 | filling one object only adds keys, adds no dictionary and keeps every nested dictionary |
| OncHexSsid.FilledObjectAt | src/chromeos/network/onc/onc_utils.cc:251-265 | each child of the filled tree is the filled child under its schema type when it is a dictionary with a known type, and the locally filled value otherwise |
| OncHexSsid.FillInHexSSIDFieldsInOncObject | src/chromeos/network/onc/onc_utils.cc:246-266 | the in-place recursive walk leaves the object equal to the pure filling of the original tree |
| OncHexSsid.FillNested | src/chromeos/network/onc/onc_utils.cc:251-265 | after the local fill, visiting the nested dictionaries yields the full filling |
| OncHexSsid.FillEntry | src/chromeos/network/onc/onc_utils.cc:254-264 | one child dictionary is replaced by its filled form and no other entry changes |
| OncHexSsid.FillInHexSSIDFieldsInNetworks | src/chromeos/network/onc/onc_utils.cc:388-395 | every network is replaced by its filled form; the length is kept |
| OncHexSsid.FilledObjectComplete | src/chromeos/network/onc/onc_utils.cc:246-266 | after filling, every WiFi object at any depth that has a non-empty string SSID has a HexSSID |
| OncHexSsid.FilledObjectOfComplete | src/chromeos/network/onc/onc_utils.cc:246-266 | filling a tree that is already complete leaves it unchanged |
| OncHexSsid.FilledObjectIdempotent | src/chromeos/network/onc/onc_utils.cc:246-266 | filling a whole tree twice is the same as filling it once |
| OncHexSsid.FillExample | src/chromeos/network/onc/onc_utils.cc:268-282 | SSID "Test" gets HexSSID "54657374" |
| OncValues.HexRoundTrip | src/chromeos/network/onc/onc_utils.cc:279-281 | decoding a hex encoding gives back the bytes |
| OncValues.HexEncode | src/chromeos/network/onc/onc_utils.cc:279-281 | the encoding has two upper-case hex digits per byte |
| OncValues.HexEncodeTest | src/chromeos/network/onc/onc_utils.cc:279-281 | "Test" encodes as "54657374" |
| OncCerts.GetServerAndCACertsByGUID | src/chromeos/network/onc/onc_utils.cc:357-386 | the loop over the certificate list builds the map CertsByGuid of the whole list |
| OncCerts.CertsByGuidKeys | src/chromeos/network/onc/onc_utils.cc:357-386 | a GUID is in the map exactly when some certificate is a Server or Authority certificate with that GUID and a decodable X509 field |
| OncCerts.CertsByGuidLast | src/chromeos/network/onc/onc_utils.cc:357-386 | each GUID maps to the PEM of the last contributing certificate with that GUID |
| OncCerts.ResolveSingleCertRef | src/chromeos/network/onc/onc_utils.cc:527-542 | success exactly when the SingleCertRef rule succeeds, with the object then its result; on failure the object is unchanged |
| OncCerts.SingleCertRefCases | src/chromeos/network/onc/onc_utils.cc:511-542 | no reference leaves the object alone; a reference succeeds exactly when its GUID is in the certificate map with a non-empty PEM, and then sets the PEM key to that PEM and removes the reference |
| OncCerts.ResolveCertRefList | src/chromeos/network/onc/onc_utils.cc:544-569 | success exactly when every reference of the list resolves, with the list of PEMs then stored and the reference list removed; on failure the object is unchanged |
| OncCerts.PemsOfSpec | src/chromeos/network/onc/onc_utils.cc:554-564 | the PEM list exists exactly when every entry is a resolvable reference, and it then has the same length with each PEM at the reference's position |
| OncCerts.CertRefListCases | src/chromeos/network/onc/onc_utils.cc:544-569 | a missing list leaves the object alone; otherwise success is exactly the resolution of every entry, with the keys swapped as described |
| OncCerts.NoResolutionAfterFailure | src/chromeos/network/onc/onc_utils.cc:555-561 | once a prefix of the reference list fails, the whole list fails |
| OncCerts.ResolveSingleCertRefToList | src/chromeos/network/onc/onc_utils.cc:571-588 | a single reference becomes a one-element PEM list; success exactly when it resolves; on failure the object is unchanged |
| OncCerts.SingleCertRefToListCases | src/chromeos/network/onc/onc_utils.cc:571-588 | no reference leaves the object alone; a resolved reference sets a one-element PEM list and removes the reference |
| OncCerts.CertRefsOrRefPrecedence | src/chromeos/network/onc/onc_utils.cc:593-611 | when the plural key is present the singular key is dropped and only the list is resolved; otherwise only the singular reference is resolved into a list |
| OncCerts.ResolveCertRefsOrRefToList | src/chromeos/network/onc/onc_utils.cc:593-611 | success exactly when CertRefsOrRefToList succeeds, with that result stored; on failure the singular key is still removed when the plural key was present |
| OncResolve.ResolveLocally | src/chromeos/network/onc/onc_utils.cc:616-652 | one object's resolution by its signature (CertificatePattern, EAP, IPsec, then the IPsec-or-OpenVPN arm) succeeds exactly when the pure dispatch does, and stores its result |
| OncResolve.ResolvedLocallyNoNewDicts | src/chromeos/network/onc/onc_utils.cc:616-652 | local resolution keeps every nested dictionary and adds none |
| OncResolve.LocalResolutionComplete | src/chromeos/network/onc/onc_utils.cc:616-652 | after a successful local resolution no reference key the dispatch handles is left in the object |
| OncResolve.LocalResolutionOfResolved | src/chromeos/network/onc/onc_utils.cc:616-652 | an object without such reference keys resolves to itself |
| OncResolve.OnlyOpenVpnResolvesServerCert | src/chromeos/network/onc/onc_utils.cc:631-652 | as written, no kind other than OpenVPN touches ServerCertRef or ServerCertPEM |
| OncResolve.OpenVpnResolvesServerCert | src/chromeos/network/onc/onc_utils.cc:639-651 | an OpenVPN object with a ServerCertRef gets its ServerCertPEM and loses the reference |
| OncResolve.ResolvedObject | src/chromeos/network/onc/onc_utils.cc:613-673 | a resolved tree is a dictionary |
| OncResolve.ResolvedObjectAt | src/chromeos/network/onc/onc_utils.cc:654-671 | each child of a resolved tree is the resolved child dictionary under its field type, or the locally resolved value |
| OncResolve.ResolvedObjectAllChildren | src/chromeos/network/onc/onc_utils.cc:654-672 | when every child resolves, the whole tree resolves |
| OncResolve.ResolveServerCertRefsInObject | src/chromeos/network/onc/onc_utils.cc:613-673 | the in-place walk succeeds exactly when the pure resolution of the original tree does, and the object is then that resolution |
| OncResolve.ResolveNested | src/chromeos/network/onc/onc_utils.cc:654-672 | after local resolution, visiting the nested dictionaries succeeds exactly when the tree resolves, and yields its resolution |
| OncResolve.ResolveEntry | src/chromeos/network/onc/onc_utils.cc:657-670 | one child dictionary is resolved in place; success exactly when it resolves |
| OncResolve.ResolvedObjectComplete | src/chromeos/network/onc/onc_utils.cc:613-673 | a successfully resolved tree holds no unresolved reference key at any depth |
| OncResolve.ResolvedObjectOfResolved | src/chromeos/network/onc/onc_utils.cc:613-673 | a tree without unresolved references resolves to itself |
| OncResolve.LocallyResolvedOnNonDicts | src/chromeos/network/onc/onc_utils.cc:616-652 | whether an object has unresolved references depends only on its non-dictionary entries |
| OncResolve.ResolveServerCertRefsInNetwork | src/chromeos/network/onc/onc_utils.cc:700-705 | one network resolves as a NetworkConfiguration exactly when its tree resolves, and becomes the resolution |
| OncResolve.ResolvedIndicesExact | src/chromeos/network/onc/onc_utils.cc:677-698 | a network's index is among the kept indices exactly when the network resolves |
| OncResolve.ResolvedIndicesOrdered | src/chromeos/network/onc/onc_utils.cc:677-698 | the kept indices are in range and strictly increasing, so the survivors keep their order |
| OncResolve.SurvivingSpec | src/chromeos/network/onc/onc_utils.cc:677-698 | the surviving list is, position by position, the resolution of the network at the matching kept index |
| OncResolve.SurvivingAll | src/chromeos/network/onc/onc_utils.cc:677-698 | no network is added, and none is lost exactly when every network resolves |
| OncResolve.ResolveOrErase | src/chromeos/network/onc/onc_utils.cc:682-695 | a network that resolves is replaced in place; one that does not is erased from the list |
| OncResolve.VisitNetwork | src/chromeos/network/onc/onc_utils.cc:680-696 | one loop step keeps the list equal to the survivors of the visited prefix followed by the unvisited rest |
| OncResolve.ResolveServerCertRefsInNetworks | src/chromeos/network/onc/onc_utils.cc:677-698 | the list ends as exactly the resolved networks in their original order, and the result is true exactly when every network resolved |
| OncRecommended.RecommendedLookup | src/chromeos/network/onc/onc_utils.cc:726-745 | a top-level key is recommended exactly when the top-level Recommended list holds it; "outer.name" exactly when the Recommended list inside `outer` holds "name" |
| OncRecommended.SplitPropertyKeyAt | src/chromeos/network/onc/onc_utils.cc:728-739 | the property key is split at its last '.' into the path of the Recommended list and the basename |
| OncRecommended.GetPathStep | src/chromeos/network/onc/onc_utils.cc:741-742 | a dotted path looks up its first component as a dictionary and continues in it |
| OncProxy.UrlSchemeDomain | src/chromeos/network/onc/onc_utils.cc:782-795 | exactly the four ONC proxy entries have a URL scheme, and only SOCKS maps to "socks" |
| OncProxy.SchemeNameRoundTrip | src/chromeos/network/onc/onc_utils.cc:816-835 | every valid scheme's name reads back as that scheme |
| OncProxy.SetProxyForScheme | src/chromeos/network/onc/onc_utils.cc:837-866 | with no proxy the dictionary is unchanged; otherwise exactly the entry for the ONC scheme is set to the host, prefixed with "scheme://" when not the default, and the port |
| OncProxy.ConvertOncProxyLocationToHostPort | src/chromeos/network/onc/onc_utils.cc:755-771 | the port is always below 65536 |
| OncProxy.ProxyLocationRoundTrip | src/chromeos/network/onc/onc_utils.cc:755-771 | a location written by SetProxyForScheme reads back as the proxy it was written from, for a valid scheme and a host without ':' |
| OncProxy.HostRoundTrip | src/chromeos/network/onc/onc_utils.cc:852-862 | a host written with or without its scheme prefix parses back as that scheme and host |
| OncProxy.PortWrapsAround | src/chromeos/network/onc/onc_utils.cc:763-770 | a Port of -1 reads as 65535 and 0x10050 as 0x50, as the 16-bit cast does |
| OncImport.ReadOncBlob | src/chromeos/network/onc/onc_utils.cc:411-430 | parsing and, for an encrypted document, decryption yield the document ParsedDocument describes |
| OncImport.ParsedDocumentCases | src/chromeos/network/onc/onc_utils.cc:419-430 | an unencrypted document is used as parsed; an encrypted one is decrypted and the import fails when decryption fails |
| OncImport.ParseAndValidateOncForImport | src/chromeos/network/onc/onc_utils.cc:399-497 | the outputs and the result are exactly those of ImportOutcome for the blob, the source and the passphrase |
| OncImport.TakeOverDocument | src/chromeos/network/onc/onc_utils.cc:465-494 | the certificates, the networks after HexSSID filling and reference resolution against the certificate map, and the global configuration of the repaired document are moved into the cleared outputs; the result is whether every network resolved |
| OncImport.FilledNetworksComplete | src/chromeos/network/onc/onc_utils.cc:474 | the filled list has one network per network of the document; every WiFi object at any depth with a non-empty SSID then has a HexSSID; filling the list again changes nothing |
| OncImport.EmptyBlobImportsNothing | src/chromeos/network/onc/onc_utils.cc:405-409 | an empty blob succeeds with no networks, no global configuration and no certificates |
| OncImport.EarlyFailures | src/chromeos/network/onc/onc_utils.cc:411-463 | a blob that does not parse, a document that does not decrypt, and a document the validator rejects each fail with empty outputs |
| OncImport.WarningsStillImport | src/chromeos/network/onc/onc_utils.cc:454-458 | a document valid only with warnings reports failure but still imports its content |
| OncImport.CleanImportSucceedsIffAllResolve | src/chromeos/network/onc/onc_utils.cc:471-496 | a cleanly validated document with networks succeeds exactly when every network's references resolve |
| OncImport.ImportedNetworksResolved | src/chromeos/network/onc/onc_utils.cc:471-487 | every imported network is fully resolved |
| DumpHex.HexValueOfToHex | src/tools/telemetry/telemetry/timeline/memory_dump_event.py:129 | int(s, 16) reads the hex numeral of n, with or without "0x" and with "-", as n and -n |
| DumpHex.ToHexRoundTrip | src/tools/telemetry/telemetry/timeline/memory_dump_event.py:129 | the digit value of the hex numeral of n is n |
| DumpHex.HexValueExamples | src/tools/telemetry/telemetry/timeline/memory_dump_event.py:171 | int("0x1A", 16) is 26, int("-ff", 16) is -255 and int("+ff", 16) is 255; "", "0x" and "12g" are not numerals |
| MmapCategories.MatchWithoutPattern | src/tools/telemetry/telemetry/timeline/memory_dump_event.py:35-38 | a category without a file pattern matches every file |
| MmapCategories.FirstMatching | src/tools/telemetry/telemetry/timeline/memory_dump_event.py:40-51 | the index found is of a matching child with no matching child before it; none is found only when no child matches |
| MmapCategories.GetMatchingChildCases | src/tools/telemetry/telemetry/timeline/memory_dump_event.py:40-51 | no child is returned exactly for a leaf; otherwise the first matching child, or the default category when none matches |
| MmapCategories.MatchingChildLower | src/tools/telemetry/telemetry/timeline/memory_dump_event.py:40-51 | the matching child is lower in the tree, so the walk ends |
| MmapCategories.CategoryPathsGrow | src/tools/telemetry/telemetry/timeline/memory_dump_event.py:184-191 | along the walk each path is strictly longer than the one before |
| MmapCategories.RootWellNamed | src/tools/telemetry/telemetry/timeline/memory_dump_event.py:54-91 | every category below the root has a non-empty name that does not start with '/' |
| MmapCategories.AshmemPath | src/tools/telemetry/telemetry/timeline/memory_dump_event.py:54-91 | an ashmem file that is neither dalvik nor a cursor window is counted under "/", "/Android" and "/Android/Ashmem" |
| MemoryBuckets.MemoryBucket.constructor | src/tools/telemetry/telemetry/timeline/memory_dump_event.py:118-119 | a new bucket holds the six attributes at zero |
| MemoryBuckets.MemoryBucket.AddRegion | src/tools/telemetry/telemetry/timeline/memory_dump_event.py:127-129 | each attribute grows by the region's hex statistic under its short key, 0 when missing |
| MemoryBuckets.AddRegionToValues | src/tools/telemetry/telemetry/timeline/memory_dump_event.py:127-129 | the loop over BUCKET_ATTRS computes AddedStats |
| MemoryBuckets.MemoryBucket.GetValue | src/tools/telemetry/telemetry/timeline/memory_dump_event.py:117-132 | the value of an attribute is its total over every region added to the bucket since it was created |
| MemoryBuckets.SumOfStatsIsTotal | src/tools/telemetry/telemetry/timeline/memory_dump_event.py:127-129 | a bucket fed a list of regions holds, per attribute, the sum of their statistics |
| MemoryBuckets.AddedStatsGrows | src/tools/telemetry/telemetry/timeline/memory_dump_event.py:127-129 | adding non-negative statistics never lowers a counter |
| MemoryBuckets.AddedStatsCommute | src/tools/telemetry/telemetry/timeline/memory_dump_event.py:127-129 | the order in which regions are added does not matter |
| MemoryBuckets.AddedEmptyStats | src/tools/telemetry/telemetry/timeline/memory_dump_event.py:127-129 | a region without statistics adds nothing |
| AllocatorFolding.FoldAllocators | src/tools/telemetry/telemetry/timeline/memory_dump_event.py:153-173 | the allocator loop followed by the tracing discount computes FoldedAllocators; only the values of dumps that are not skipped have to parse |
| AllocatorFolding.AccumulateDumps | src/tools/telemetry/telemetry/timeline/memory_dump_event.py:158-171 | the loop over the allocator dumps computes Accumulated |
| AllocatorFolding.AddAllocatorDump | src/tools/telemetry/telemetry/timeline/memory_dump_event.py:160-171 | one dump is skipped or added to the allocator named by its first component |
| AllocatorFolding.AccumulateAttrs | src/tools/telemetry/telemetry/timeline/memory_dump_event.py:169-171 | the attribute loop adds every value of the dump to the allocator |
| AllocatorFolding.AddAttrsCommute | src/tools/telemetry/telemetry/timeline/memory_dump_event.py:169-171 | adding a dump's values to an allocator is commutative, so the order of a group's dumps does not matter |
| AllocatorFolding.AddAttrsAssociate | src/tools/telemetry/telemetry/timeline/memory_dump_event.py:169-171 | adding two dumps one after the other adds their key-wise sum |
| AllocatorFolding.AccumulatedSums | src/tools/telemetry/telemetry/timeline/memory_dump_event.py:158-171 | each allocator attribute is its initial value plus the sum over the non-skipped dumps of that allocator |
| AllocatorFolding.AccumulatedGroups | src/tools/telemetry/telemetry/timeline/memory_dump_event.py:158-171 | an allocator is present exactly when it is malloc or tracing, or some non-skipped dump belongs to it |
| AllocatorFolding.FoldedAllocatorsSums | src/tools/telemetry/telemetry/timeline/memory_dump_event.py:158-173 | malloc's size is the malloc dumps' total less the tracing dumps' total; every other attribute is its total |
| AllocatorFolding.DiscountTracingGet | src/tools/telemetry/telemetry/timeline/memory_dump_event.py:172-173 | the discount lowers malloc's size by tracing's size and changes nothing else |
| AllocatorFolding.SkippedDumpsIgnored | src/tools/telemetry/telemetry/timeline/memory_dump_event.py:161-166 | dumps that are all skipped, whatever their values, are accepted and leave the initial allocators |
| AllocatorFolding.NameComponents | src/tools/telemetry/telemetry/timeline/memory_dump_event.py:161-167 | "group/leaf" has first component group and last leaf, and is skipped exactly as "allocated_objects" outside malloc |
| AllocatorFolding.FoldedAllocatorStats | src/tools/telemetry/telemetry/timeline/memory_dump_event.py:153-173 | GetAllocatorStats reports malloc, tracing and every group some counted dump belongs to; malloc's size is the malloc total less the tracing total, every other size its group's total |
| ProcessMemoryDumps.ProcessMemoryDump.constructor | src/tools/telemetry/telemetry/timeline/memory_dump_event.py:146-182 | the dump takes the event's id and pid, has mmaps exactly when there are regions, folds the allocators and holds the buckets of all regions |
| ProcessMemoryDumps.ProcessMemoryDump.AddRegions | src/tools/telemetry/telemetry/timeline/memory_dump_event.py:175-182 | the region loop adds every region to the buckets |
| ProcessMemoryDumps.ProcessMemoryDump.AddRegion | src/tools/telemetry/telemetry/timeline/memory_dump_event.py:184-191 | one region is added to the bucket of every category on its path |
| ProcessMemoryDumps.ProcessMemoryDump.VisitCategory | src/tools/telemetry/telemetry/timeline/memory_dump_event.py:188-191 | one walk step adds the region to the current path's bucket and moves to the matching child |
| ProcessMemoryDumps.ProcessMemoryDump.GetMemoryBucket | src/tools/telemetry/telemetry/timeline/memory_dump_event.py:200-211 | a missing bucket is created at zero; the bucket at the path is returned |
| ProcessMemoryDumps.ProcessMemoryDump.AddToBucket | src/tools/telemetry/telemetry/timeline/memory_dump_event.py:189 | the region is added to the bucket at the path, created when missing |
| ProcessMemoryDumps.RegionPathsDistinct | src/tools/telemetry/telemetry/timeline/memory_dump_event.py:184-191 | a region's category paths start at "/" and are distinct, so no bucket counts a region twice |
| ProcessMemoryDumps.RegionsAddedAt | src/tools/telemetry/telemetry/timeline/memory_dump_event.py:175-191 | a bucket exists exactly when some region passes through its path, and then holds the sum of those regions |
| ProcessMemoryDumps.EveryRegionThroughRoot | src/tools/telemetry/telemetry/timeline/memory_dump_event.py:184-191 | every region passes through "/" |
| ProcessMemoryDumps.RootBucketIsTotal | src/tools/telemetry/telemetry/timeline/memory_dump_event.py:175-191 | with regions, the "/" bucket holds, per attribute, the total over all regions |
| ProcessMemoryDumps.SplitValuePathOf | src/tools/telemetry/telemetry/timeline/memory_dump_event.py:222 | a value path splits at its last '.' back into category path and attribute name |
| ProcessMemoryDumps.ProcessMemoryDump.GetMemoryValue | src/tools/telemetry/telemetry/timeline/memory_dump_event.py:213-226 | the value is MemoryValue of the old buckets; only a zero bucket may be created |
| ProcessMemoryDumps.MemoryValueWithBucket | src/tools/telemetry/telemetry/timeline/memory_dump_event.py:200-226 | creating a zero bucket never changes a value read afterwards |
| ProcessMemoryDumps.StatsSummaryTablePaths | src/tools/telemetry/telemetry/timeline/memory_dump_event.py:108-113 | every STATS_SUMMARY entry names a category path and a bucket attribute |
| ProcessMemoryDumps.ProcessMemoryDump.GetStatsSummary | src/tools/telemetry/telemetry/timeline/memory_dump_event.py:228-231 | the summary is the StatsSummary of the buckets before the call; only zero buckets are added |
| ProcessMemoryDumps.ProcessMemoryDump.ReadSummaryValue | src/tools/telemetry/telemetry/timeline/memory_dump_event.py:230 | one summary entry is read as SummaryValue of the starting buckets |
| ProcessMemoryDumps.StatsSummaryIs | src/tools/telemetry/telemetry/timeline/memory_dump_event.py:228-231 | a map with the summary's keys and values is the summary |
| ProcessMemoryDumps.SummaryWithoutRegions | src/tools/telemetry/telemetry/timeline/memory_dump_event.py:213-231 | with no regions every summary entry is 0, less tracing's resident size for the entries that discount tracing (see Findings) |
| ProcessMemoryDumps.SummaryWithoutRegionsExample | src/tools/telemetry/telemetry/timeline/memory_dump_event.py:143-144 | without memory maps and with tracing resident size 5, overall_pss reads -5 |
| ProcessMemoryDumps.DocumentedSummaryZeros | src/tools/telemetry/telemetry/timeline/memory_dump_event.py:143-144 | the documented summary is 0 under every key for a dump without memory maps, and equals the code's summary for a dump with them |
| ProcessMemoryDumps.SummaryKeptByZeroBuckets | src/tools/telemetry/telemetry/timeline/memory_dump_event.py:200-231 | the zero buckets GetMemoryValue creates never change the summary |
| ProcessMemoryDumps.SameValues | src/tools/telemetry/telemetry/timeline/memory_dump_event.py:200-226 | adding zero buckets does not change any memory value |
| MemoryDumpEvents.MemoryDumpEvent.constructor | src/tools/telemetry/telemetry/timeline/memory_dump_event.py:255-284 | the event builds one process dump per raw event, and takes the shared dump id, the set of pids and the shared has_mmaps |
| MemoryDumpEvents.DumpIdsSingleton | src/tools/telemetry/telemetry/timeline/memory_dump_event.py:260-261 | the source's one-dump-id assertion holds exactly when every event has the first event's id |
| MemoryDumpEvents.PidCount | src/tools/telemetry/telemetry/timeline/memory_dump_event.py:265-266 | pids are distinct exactly when there are as many distinct pids as dumps |
| MemoryDumpEvents.HasMmapsSingleton | src/tools/telemetry/telemetry/timeline/memory_dump_event.py:269-270 | the has_mmaps check is equivalent to the set of values having one element |
| MemoryDumpEvents.NewDumps | src/tools/telemetry/telemetry/timeline/memory_dump_event.py:257 | one distinct process dump is built per raw event, in order |
| MemoryDumpEvents.SummarizeDumps | src/tools/telemetry/telemetry/timeline/memory_dump_event.py:293-302 | each dump's summary is the StatsSummary of its buckets before the loop, and each dump has gained at most zero buckets |
| MemoryDumpEvents.AggregateProcessStats | src/tools/telemetry/telemetry/timeline/memory_dump_event.py:293-298 | the loop over the per-dump stats computes SumStats |
| MemoryDumpEvents.AddProcessStats | src/tools/telemetry/telemetry/timeline/memory_dump_event.py:296-297 | one dump's stats are added key by key |
| MemoryDumpEvents.SumStatsAt | src/tools/telemetry/telemetry/timeline/memory_dump_event.py:293-298 | a key is in the aggregate exactly when some dump has it, and its value is the total over the dumps |
| MemoryDumpEvents.TotalPermutation | src/tools/telemetry/telemetry/timeline/memory_dump_event.py:274 | the total of a key over the dumps is the same in any order of the dumps |
| MemoryDumpEvents.SumStatsPermutation | src/tools/telemetry/telemetry/timeline/memory_dump_event.py:274 | the key-wise sum is the same for any reordering of the per-dump stats, so the sort by start offset does not change GetStatsSummary or GetAllocatorStats |
| MemoryDumpEvents.SumStatsOfOne | src/tools/telemetry/telemetry/timeline/memory_dump_event.py:293-298 | the aggregate of one dump is its own stats |
| MemoryDumpEvents.MemoryDumpEvent.GetStatsSummary | src/tools/telemetry/telemetry/timeline/memory_dump_event.py:300-302 | the result is the key-wise sum of every process dump's summary; each dump has gained at most zero buckets |
| MemoryDumpEvents.SummarizedAgain | src/tools/telemetry/telemetry/timeline/memory_dump_event.py:300-302 | summaries taken again after only zero buckets were added are the same, so repeated calls agree |
| MemoryDumpEvents.MemoryDumpEvent.GetAllocatorStats | src/tools/telemetry/telemetry/timeline/memory_dump_event.py:304-305 | the result is the key-wise sum of every process dump's allocator stats |

## Left out

- Encryption: the crypto primitives, base64, HMAC and PBKDF2 are parameters of `OncDecrypt.Crypto`. Only the order of their gates and their results is modelled.
- JSON: `ReadDictionaryFromJson` (lines 48-61), which parses the blob and the decrypted plaintext, is a parameter (`readJson`).
- The validator: `onc::Validator` is a parameter. Its result, `OncImport.Validation`, carries the repaired document with every VALID or VALID_WITH_WARNINGS verdict. That is taken as the validator's own contract. So is `OncImport.WellFormedDocument`: the repaired document's Certificates and NetworkConfigurations lists hold only dictionaries.
- OncImport.ParseAndValidateOncForImport: a VALID_WITH_WARNINGS verdict without a repaired document cannot be expressed. The source tests for a missing document only together with INVALID (line 459), so it would dereference null at line 466 in that case.
- Schema: the ONC signature tables are not part of this model, so the schema is a parameter. The same holds for the field-type lookup done by `OncValueSignature`.
- Certificates: PEM and X.509 decoding (`DecodePEM`, lines 330-355, and `DecodePEMCertificate`, lines 499-507) are parameters of `OncCerts.PemCodec`.
- Credential masking: `OncMaskValues` and `MaskCredentialsInOncObject` (lines 286-326) are not modelled. They are built on `Mapper`, which is not part of this model.
- `NetworkTypePatternFromOncType` (lines 707-724) is not modelled. It maps a type name to a pattern object outside this model.
- Proxy conversion: the bodies of `ConvertOncProxySettingsToProxyConfig`, `ConvertProxyConfigToOncProxySettings` and `ConvertOncExcludeDomainsToBypassRules` are not modelled. Only their scheme rules and the location reader are. `net::ProxyServer::FromURI` is simplified to `ParseHost`: the optional scheme prefix before "://", then the host unparsed.
- OncProxy.ConvertOncProxyLocationToHostPort: the host is kept as text, not validated as net::HostPortPair would.
- Logging and UMA histograms are not modelled. Neither are `LOG`/`NOTREACHED` messages; a `NOTREACHED` branch becomes `None` or "".
- Regular expressions: Python's `re.search` on category patterns is the parameter `search`.
- Timing: the timestamps (`ts / 1000.0`), durations and `start_offset_ms` are floating point and are not modelled. Neither is the sort of the process dumps by start offset (line 274). The sums over the process dumps do not depend on that order, as `MemoryDumpEvents.SumStatsPermutation` shows.
- `__repr__` is not modelled.
- Dictionary iteration order: the C++ and Python walks over dictionaries visit keys in an order the model leaves open. It picks any unvisited key, so every order is covered.
- OncResolve.ResolveServerCertRefsInObject: on failure the object may be left partly resolved, and the contract states nothing about it then. For example, the singular reference key is already removed when the plural key is present (lines 598-602), and an OpenVPN ServerCertPEM stays set when its ServerCARefs fail (lines 641-650). The only caller erases such a network.
- OncResolve.ResolveLocally: the object after a failed local resolution is not stated, for the same reason.
- OncResolve.ResolveNested: the object after a failed child is not stated, for the same reason.
- OncResolve.ResolveEntry: the entries after a failed child are not stated, for the same reason.
- OncResolve.ResolveServerCertRefsInNetwork: the network after a failed resolution is not stated, for the same reason.
- ProcessMemoryDumps.ProcessMemoryDump.GetStatsSummary: states that only zero buckets are added, not which ones.
- MemoryBuckets.MemoryBucket: the source hands out a bucket object and updates it through that reference. The model keeps each bucket's counters as a value in the dump's map and updates the map entry, which has the same effect because no reference outlives the call.
- MemoryDumpEvents.NewDumps: its contract does not state that the dumps are freshly allocated.
- Python exceptions become preconditions:
  - a `ValueError` on a malformed hex string: `ValidByteStats`, and `ReadableAllocatorDump` inside `ValidEvent`, which asks it only of allocator dumps the loop does not skip;
  - the `AssertionError`s of the constructors: the constructors' requires;
  - the `ValueError` of `rsplit('.', 1)` on a path without '.' (line 222) and the `KeyError` of `GetValue` on an attribute a bucket lacks (line 132): `ValidValuePath` and `MemoryBucket.GetValue`'s requires.
  A trace event is a datatype whose 'id', 'pid', 'bs', 'mf', 'attrs' and 'value' are always present, so the `KeyError` for a missing one is not modelled. Missing allocator dumps or memory maps read as empty lists, as the source's handlers make them.
- DumpHex.HexValue: Python's `int(s, 16)` also accepts surrounding whitespace; that form is not modelled.
- Integer width: C++ `int` is modelled as `Int32` where it is read from a value. The cast of a proxy location's Port to `uint16` is modelled as `% 0x1_0000` (`OncProxy.PortWrapsAround`).
- ProcessMemoryDumps.ProcessMemoryDump: the category tree is a field fixed to `ROOT_CATEGORY`, not a module global.

## Findings

| source | as written | input that shows it | evidently intended | confidence | as-written member | corrected member |
|---|---|---|---|---|---|---|
| src/tools/telemetry/telemetry/timeline/memory_dump_event.py:143-144 | Without memory maps every bucket is missing and reads as zero, but `GetMemoryValue` still subtracts tracing's resident size for overall_pss, private_dirty and native_heap (lines 108-113 and 224-225). | A dump event with no `process_mmaps` whose tracing allocator reports resident_size 5: `GetStatsSummary()['overall_pss']` is -5. | As the docstrings of `has_mmaps` (lines 143-144 and 252-253) say, a dump without memory maps reports all zeros: tracing is discounted only from a dump with memory maps. | medium, not executed | ProcessMemoryDumps.SummaryWithoutRegions, ProcessMemoryDumps.SummaryWithoutRegionsExample | ProcessMemoryDumps.DocumentedStatsSummary, ProcessMemoryDumps.DocumentedSummaryZeros |

The classes `ProcessMemoryDump` and `MemoryDumpEvent` model the code as written, so their summaries are the as-written ones. `DocumentedStatsSummary` is the corrected definition. `DocumentedSummaryZeros` proves that it reports zeros without memory maps and agrees with the code's summary whenever there are memory maps.
