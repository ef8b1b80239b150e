# cert-exporter, modelled in Dafny

cert-exporter is a Prometheus exporter. It finds X.509 certificates and
publishes, for each one, gauges that give its seconds until expiry and its
not-after time. The certificates come from:

- files named by globs on the node;
- kubeconfig files;
- Kubernetes ConfigMaps;
- cert-manager CertificateRequests;
- the CA bundles of admission webhook configurations;
- AWS Secrets Manager secrets.

Its checkers run one tick after another. Each tick works in three steps:

1. It resets the checker's gauge families.
2. It gathers the objects from the relevant API and decides which parts of
   them to export.
3. An exporter turns each chosen part into certificate metrics and writes
   them.

Listing and export failures each add one to the process-wide `error_total`
counter.

This project models one tick body of every checker, each exporter, the
decode chain and the argument helpers. Every source file has its own module:

- **`CertHelpers`**: decoding certificate bytes.
  - It tries PEM, then PKCS#12, then JKS, and uses the first format that
    recognises the input.
  - It applies the exclusion globs on common name, alias and issuer.
  - It models the two entry points, from a file and from a base64 string.
- **The checkers**: `CertCheck`, `ConfigMapCheck`, `CertRequestCheck`,
  `WebhookCheck` and `AwsCheck` are classes whose `Tick` methods change an
  exporter's `Registry`.
- **The exporters**: `WebhookExport`, `ConfigMapExport`, `CertRequestExport`,
  `AwsExport` and `KubeConfigExport` are classes that write `Sample`s into
  that registry.
- **Command-line helpers**:
  - `PasswordSpecArgs`, `GlobArgsFlag`: the flag types.
  - `PasswordResolver`: chooses the password for a file.
  - `CommandLine`: `main`'s namespace list and default glob.
  - `LegacyCerts`: the older file checker of `src/certs/certs.go`.
- **Shared modules**:
  - `Metrics`: the gauge store and the registry.
  - `ExportCommon`: the samples an export writes, and the publishing loop.
  - `Kube`: list gathering and the annotation filter.
  - `Strings`: the string functions of Go's standard library that the code
    uses.
  - `Base`: the Option and Result types, the error values and the glob
    matcher type.

Collaborators the code calls but does not define are fields of the model
with no meaning attached. They include:

- the PEM, X.509, PKCS#12 and JKS decoders;
- base64;
- the glob engines;
- the file system;
- the Kubernetes, cert-manager and AWS clients;
- the clock, as `now` in integer seconds.

The only assumption about them is that the PEM decoder, when it finds a
block, returns a rest shorter than its input.

A gauge family maps label tuples to integers. An exporter's `ExportMetrics`
either returns the decoder's error and writes nothing, or writes one sample
per certificate and family, in order. A checker's tick is specified against
ghost functions of its inputs:

- the list calls it makes;
- the export calls they lead to;
- what the store and `error_total` become.

Where Go iterates over a map, the model lists the keys in an order the caller
cannot rely on. It then proves every property for whatever order comes out.

Two places where the code and its own tests disagree are modelled as the
code behaves:

- **`parseAsPEM` and a corrupted block.** A PEM `CERTIFICATE` block whose
  contents do not parse is skipped, and the input still counts as PEM with
  no error. `src/exporters/certHelpers_test.go:143-155` expects an error
  here. See `CertHelpers.CorruptedCertificateBlock`.
- **`CertRequestExporter.ResetMetrics`.** It clears the Secret gauges, not
  the certrequest gauges. `src/exporters/certRequestExporter_test.go:222-273`
  expects the certrequest gauges to be cleared. The checker's tick calls
  it as written, so a certrequest series of an earlier tick that is not
  written again survives the tick (`CertRequestCheck.StaleSeriesSurviveTick`).
  `TickWithOwnReset` is the same tick with the corrected reset. See the
  finding below.

## Model

| member | source | states |
|---|---|---|
| CertHelpers.MatchGlobs | src/exporters/certHelpers.go:27-47 | an empty string matches exactly when the list holds a literal "" or "*"; any other string matches exactly when some glob the engine accepts matches it; malformed globs never match |
| CertHelpers.NoGlobsNoMatch | src/exporters/certHelpers.go:27-47 | the empty glob list matches nothing |
| CertHelpers.FilterMetrics | src/exporters/certHelpers.go:49-72 | the loop returns the metrics that no guarded glob test excludes, in their order |
| CertHelpers.FilteredWithoutGlobs | src/exporters/certHelpers.go:50-52 | with all three exclusion lists empty the metrics come back unchanged |
| CertHelpers.FilteredMembership | src/exporters/certHelpers.go:55-70 | a metric is kept exactly when it was an input and none of the CN, non-empty alias and issuer tests hits it |
| CertHelpers.FilteredAppend | src/exporters/certHelpers.go:55-70 | filtering distributes over concatenation, so the result is an order-preserving subsequence |
| CertHelpers.EmptyAliasIgnoresAliasGlobs | src/exporters/certHelpers.go:60 | a metric with an empty alias is never excluded by alias globs, "*" included |
| CertHelpers.CertificateMetrics | src/exporters/certHelpers.go:126-134 | the not-after time minus the seconds until expiry is `now`; the alias is empty |
| CertHelpers.MetricsOf | src/exporters/certHelpers.go:142-147 | one metric per certificate, in order |
| CertHelpers.BlockMetrics | src/exporters/certHelpers.go:226-239 | no more metrics than blocks |
| CertHelpers.ParseAsPem | src/exporters/certHelpers.go:211-253 | the block loop returns the PEM attempt: recognised exactly when some block decodes, then no error and the metrics of the parseable CERTIFICATE blocks in order; otherwise not recognised, no metrics, an error |
| CertHelpers.BlockMetricsMembership | src/exporters/certHelpers.go:226-239 | a metric is produced exactly when some block yields it |
| CertHelpers.AllCertificateBlocks | src/exporters/certHelpers.go:226-234 | when every block is a parseable CERTIFICATE there is one metric per block, in block order |
| CertHelpers.CorruptedCertificateBlock | src/exporters/certHelpers.go:226-231 | a single CERTIFICATE block that does not parse gives a recognised attempt with no metrics and no error |
| CertHelpers.NoBlockIsNotPem | src/exporters/certHelpers.go:245-248 | input in which no block decodes is not PEM and carries the no-PEM error |
| CertHelpers.ParseAsPkcs | src/exporters/certHelpers.go:136-149 | a failed decode gives (false, none, error); a decoded chain gives the leaf's metric then the CA certificates' metrics, recognised, no error |
| CertHelpers.PkcsShape | src/exporters/certHelpers.go:142-148 | a decoded PKCS#12 file yields 1 + k metrics, the leaf first and the CA certificates in order |
| CertHelpers.WalkChain | src/exporters/certHelpers.go:197-205 | the chain loop of a private-key entry equals the chain walk: alias-tagged metrics until the first certificate that does not parse |
| CertHelpers.ProcessEntry | src/exporters/certHelpers.go:172-206 | a trusted entry adds one alias-tagged metric, a private-key entry its chain, other kinds nothing; read and parse failures give the matching error |
| CertHelpers.ParseAsJks | src/exporters/certHelpers.go:151-209 | a failed load is unrecognised; after a load the attempt is recognised and holds the entries' metrics in alias order up to the first failing entry, with its error |
| CertHelpers.ChainWalkStops | src/exporters/certHelpers.go:199-201 | once a prefix of the chain fails, later certificates are not looked at |
| CertHelpers.AliasWalkStops | src/exporters/certHelpers.go:175-195 | once an entry fails, later entries are not looked at |
| CertHelpers.ChainWalkTagged | src/exporters/certHelpers.go:202-204 | every metric of a private-key chain carries the entry's alias |
| CertHelpers.ChainWalkComplete | src/exporters/certHelpers.go:197-205 | when every chain certificate parses there is no error and one metric per certificate |
| CertHelpers.AliasWalkTagged | src/exporters/certHelpers.go:171-207 | every keystore metric is tagged with one of the aliases |
| CertHelpers.ChainWalkError | src/exporters/certHelpers.go:199-201 | a chain error is always the chain-parse error |
| CertHelpers.AliasWalkError | src/exporters/certHelpers.go:174-201 | the error that stops the entry walk always names an entry |
| CertHelpers.EmptyKeystore | src/exporters/certHelpers.go:165-169 | a loaded keystore without aliases is recognised, with no metrics and no error |
| CertHelpers.SecondsToExpiryFromCertAsBytes | src/exporters/certHelpers.go:90-124 | PEM, then PKCS#12, then JKS; the filtered metrics and error of the first recognising stage, or no metrics and the combined error |
| CertHelpers.SecondsToExpiryFromCertAsBase64String | src/exporters/certHelpers.go:82-88 | a base64 error is returned with no metrics; otherwise the bytes are decoded |
| CertHelpers.SecondsToExpiryFromCertAsFile | src/exporters/certHelpers.go:74-80 | a read error is returned with no metrics; otherwise the file's bytes are decoded |
| CertHelpers.DecodeKeepsNoExcluded | src/exporters/certHelpers.go:100-118 | no metric returned by any stage is one the exclusion globs drop |
| CertHelpers.DecodeAllFailed | src/exporters/certHelpers.go:122-123 | the combined error is returned exactly when no stage recognises the input, and then with no metrics |
| CertHelpers.PemTakesPrecedence | src/exporters/certHelpers.go:96-101 | input in which a PEM block decodes is never given to the PKCS#12 or JKS decoders |
| CertHelpers.PemBundle | src/exporters/certHelpers.go:96-101 | a bundle of N parseable certificates and no exclusions gives N metrics, in bundle order, with no error |
| CertCheck.NewCertGlobs | src/checkers/periodicCertChecker.go:62-72 | one glob per string, in order, each holding the search root and pattern the glob engine splits that string into |
| CertCheck.JoinedMembership | src/checkers/periodicCertChecker.go:30-32 | a path is among the joined matches exactly when it is `Join` of one of them |
| CertCheck.AllPathsMembership | src/checkers/periodicCertChecker.go:103-114 | a path is an include path exactly when it is `Join` of a match of a glob whose `Apply` succeeded |
| CertCheck.FailedGlobs | src/checkers/periodicCertChecker.go:104-109 | each glob adds at most one error |
| CertCheck.ListSet | src/checkers/periodicCertChecker.go:129-135 | the collected slice lists the set, each path once, with length equal to the set's size |
| CertCheck.FileExporter.ExportMetrics | src/exporters/exporter.go:5 | the call is logged and returns the exporter's outcome for that file and node |
| CertCheck.FileExporter.ResetMetrics | src/exporters/exporter.go:6 | the reset is logged |
| CertCheck.ExportEvents | src/checkers/periodicCertChecker.go:87-95 | one export per path, in path order, with the checker's node name |
| CertCheck.ExportFailures | src/checkers/periodicCertChecker.go:88-93 | no more failures than exports |
| CertCheck.PeriodicCertChecker.constructor | src/checkers/periodicCertChecker.go:56-76 | one glob per include string and one per exclude string, in order; the other arguments kept |
| CertCheck.PeriodicCertChecker.AddIncludes | src/checkers/periodicCertChecker.go:103-114 | the set gains every include path; each failing glob adds one error and the rest go on |
| CertCheck.PeriodicCertChecker.RemoveExcludes | src/checkers/periodicCertChecker.go:116-127 | the set loses every exclude path; each failing glob adds one error and the rest go on |
| CertCheck.PeriodicCertChecker.GetMatches | src/checkers/periodicCertChecker.go:101-136 | the result lists include paths minus exclude paths, each once, whatever the declaration order; one error per failing glob |
| CertCheck.PeriodicCertChecker.ExportAll | src/checkers/periodicCertChecker.go:87-95 | every match is exported in order; each failing export adds one error and the loop goes on |
| CertCheck.PeriodicCertChecker.Tick | src/checkers/periodicCertChecker.go:79-99 | the reset comes before every export; every match is exported; the error count grows by the glob and export failures |
| CertCheck.SelectedPaths | src/checkers/periodicCertChecker.go:101-136 | a selected path is `Join` of an included match and of no successfully applied exclude glob's match |
| CertCheck.FailedGlobContributesNothing | src/checkers/periodicCertChecker.go:104-109 | a glob that fails contributes no path and exactly one error |
| ConfigMapCheck.MatchGlobList | src/checkers/periodicConfigMapChecker.go:119-130 | the glob loop's answer is whether some glob matches; each malformed glob met before the first match adds one error |
| ConfigMapCheck.PeriodicConfigMapChecker.constructor | src/checkers/periodicConfigMapChecker.go:32-43 | every argument is kept as given |
| ConfigMapCheck.PeriodicConfigMapChecker.ReviewKey | src/checkers/periodicConfigMapChecker.go:116-155 | a key is exported exactly when an include glob matches it and no exclude glob does; the errors added are the malformed globs met plus a failed export |
| ConfigMapCheck.PeriodicConfigMapChecker.ReviewConfigMap | src/checkers/periodicConfigMapChecker.go:95-156 | a ConfigMap the annotation selectors reject exports nothing; otherwise each data key is reviewed once, in a visiting order the caller cannot rely on |
| ConfigMapCheck.PeriodicConfigMapChecker.ReviewAll | src/checkers/periodicConfigMapChecker.go:95-156 | the gathered ConfigMaps are reviewed in order; the store and the error count follow the export calls |
| ConfigMapCheck.PeriodicConfigMapChecker.Tick | src/checkers/periodicConfigMapChecker.go:63-159 | the reset, the gathered ConfigMaps, then their export calls; the error count grows by the list, glob and export failures |
| ConfigMapCheck.KeyExportedIff | src/checkers/periodicConfigMapChecker.go:116-152 | a key leads to an export exactly when it is visited and selected; each export carries the value's bytes, the key, the ConfigMap's name and namespace |
| ConfigMapCheck.NoIncludeGlobsNoExports | src/checkers/periodicConfigMapChecker.go:119-145 | with no include globs no key of any ConfigMap is exported |
| ConfigMapCheck.NoIncludeKeyJobs | src/checkers/periodicConfigMapChecker.go:119-145 | with no include globs no key of one ConfigMap is exported |
| ConfigMapCheck.MalformedBound | src/checkers/periodicConfigMapChecker.go:119-143 | the glob loop adds at most one error per glob, and none when no glob is malformed |
| Base.Enumerate | src/checkers/periodicConfigMapChecker.go:116 | the keys of a map are listed, each once, in an order the caller cannot rely on |
| Kube.SelectorCallsMembership | src/checkers/periodicConfigMapChecker.go:70-82 | the selector requests of a namespace are exactly one per label selector |
| Kube.CallsMembership | src/checkers/periodicConfigMapChecker.go:68-93 | a request is made exactly for each (namespace, selector) pair, or once unfiltered per namespace without selectors |
| Kube.Failures | src/checkers/periodicConfigMapChecker.go:76-90 | no more failures than requests |
| Kube.GatheredAppend | src/checkers/periodicConfigMapChecker.go:68-93 | gathering two runs of requests concatenates their results and adds their failures |
| Kube.GatheredMembership | src/checkers/periodicConfigMapChecker.go:68-93 | an object is gathered exactly when a request succeeded and returned it |
| Kube.Gather | src/checkers/periodicCertRequestChecker.go:62-86 | the objects of the successful requests in request order; each failing request adds one error and the rest go on |
| Kube.SelectorWalkStops | src/checkers/periodicWebhookChecker.go:70-81 | once a selector's request fails, later selectors are not asked |
| Kube.SelectorWalkFirstFailure | src/checkers/periodicWebhookChecker.go:70-81 | the walk succeeds exactly when every selector's request does, and a failure carries the first failing request's error |
| Kube.ListAll | src/checkers/periodicWebhookChecker.go:70-94 | with selectors, the selector walk that stops at the first failure; without them, one unfiltered request |
| Kube.MatchesAnnotations | src/checkers/periodicConfigMapChecker.go:99-113 | with selectors, whether one of them is an annotation key; without selectors, true |
| CertRequestCheck.ReadyCondition | src/checkers/periodicCertRequestChecker.go:89-100 | true exactly when some condition has type Ready and status True |
| CertRequestCheck.PeriodicCertRequestChecker.constructor | src/checkers/periodicCertRequestChecker.go:29-38 | every argument is kept as given |
| CertRequestCheck.PeriodicCertRequestChecker.ReviewRequest | src/checkers/periodicCertRequestChecker.go:88-127 | a request is exported with its certificate, name and namespace exactly when it is Ready and the annotation selectors admit it; a failed export adds one error |
| CertRequestCheck.PeriodicCertRequestChecker.ReviewAll | src/checkers/periodicCertRequestChecker.go:88-127 | the gathered requests are reviewed in order; the store and the error count follow the export calls |
| CertRequestCheck.PeriodicCertRequestChecker.Tick | src/checkers/periodicCertRequestChecker.go:56-130 | the exporter's `ResetMetrics` comes first (it clears the Secret gauges), then the gathered requests and their export calls; the error count grows by the list and export failures |
| CertRequestCheck.PeriodicCertRequestChecker.TickWithOwnReset | src/checkers/periodicCertRequestChecker.go:56-130 | the same tick with the corrected reset, which clears the certrequest gauges first |
| CertRequestCheck.OutcomesFamilies | src/exporters/certRequestExporter.go:18-21 | a tick's exports write only the certrequest expiry and not-after families |
| CertRequestCheck.StaleSeriesSurviveTick | src/checkers/periodicCertRequestChecker.go:60 | a certrequest series the tick does not write again survives the tick as written while every Secret series is gone; after the corrected reset that series is gone |
| CertRequestCheck.ExportedIff | src/checkers/periodicCertRequestChecker.go:104-126 | an export call is made exactly for each gathered request that is Ready and admitted, with its certificate, name and namespace |
| CertRequestCheck.NotReadyNotExported | src/checkers/periodicCertRequestChecker.go:89-100 | requests that are not Ready are never exported, whatever their annotations |
| CertRequestCheck.NoSelectorsExportAllReady | src/checkers/periodicCertRequestChecker.go:104-126 | without annotation selectors every Ready request is exported once, in order |
| WebhookCheck.TypeNamesDistinct | src/checkers/periodicWebhookChecker.go:17-20 | the mutating and the validating type labels differ |
| WebhookCheck.KindsWriteApart | src/checkers/periodicWebhookChecker.go:115-126 | a mutating and a validating export never write the same label tuple, whatever the names of the configurations and entries |
| WebhookCheck.PeriodicWebhookChecker.constructor | src/checkers/periodicWebhookChecker.go:32-40 | every argument is kept as given |
| WebhookCheck.PeriodicWebhookChecker.ExportEntry | src/checkers/periodicWebhookChecker.go:115-126 | an entry is exported exactly when its CA bundle is non-empty, with the type label, the configuration's name and the entry's name; a failed export adds one error |
| WebhookCheck.PeriodicWebhookChecker.ExportEntries | src/checkers/periodicWebhookChecker.go:115-126 | the entries of a configuration are reviewed in order; an empty CA bundle is skipped without an error |
| WebhookCheck.PeriodicWebhookChecker.Check | src/checkers/periodicWebhookChecker.go:67-128 | a failed list, whether a selector's or the unfiltered one, adds one error and exports nothing, not even configurations already gathered; otherwise the admitted configurations' entries are exported |
| WebhookCheck.PeriodicWebhookChecker.Tick | src/checkers/periodicWebhookChecker.go:57-64 | the reset, then the mutating check, then the validating check, which runs whatever the mutating check did |
| WebhookCheck.EntryExportedIff | src/checkers/periodicWebhookChecker.go:178-189 | an export call is made exactly for each entry with a non-empty CA bundle, carrying its bundle, the type label and both names |
| WebhookCheck.ConfigJobsShape | src/checkers/periodicWebhookChecker.go:159-190 | every export call has a non-empty bundle and the kind's label, and comes from an admitted configuration |
| WebhookCheck.FailedSelectorExportsNothing | src/checkers/periodicWebhookChecker.go:133-157 | when one selector's request fails, the listing fails and the check exports nothing |
| AwsCheck.SecretIdShape | src/checkers/periodicAwsChecker.go:104-106 | the secret id is "arn:aws:secretsmanager:" + region + ":" + account + ":secret:" + name |
| AwsCheck.SecretIdInjective | src/checkers/periodicAwsChecker.go:104-106 | in one account and region, different names give different secret ids |
| AwsCheck.ExportValue | src/checkers/periodicAwsChecker.go:140-154 | a non-string value is skipped; a string without the PEM header is passed unchanged |
| AwsCheck.RawPemDecodedAsItself | src/checkers/periodicAwsChecker.go:146-150 | a raw PEM value, once base64-wrapped, reaches the decoder as its own bytes when base64 round-trips |
| AwsCheck.KeyExportedIff | src/checkers/periodicAwsChecker.go:126-134 | a key leads to an export exactly when it is a key of the object, contains the substring and holds a string; the call carries the secret's name and the value to export |
| AwsCheck.EmptySubstringSelectsAll | src/checkers/periodicAwsChecker.go:127 | with the empty substring every string value is exported |
| AwsCheck.PeriodicAwsChecker.constructor | src/checkers/periodicAwsChecker.go:49-60 | every argument is kept in its field unchanged |
| AwsCheck.PeriodicAwsChecker.FetchFailures | src/checkers/periodicAwsChecker.go:89-95 | no more failing secrets than secrets |
| AwsCheck.PeriodicAwsChecker.ProcessCertificateKey | src/checkers/periodicAwsChecker.go:140-154 | a skipped value writes nothing and returns nil; a string value is exported as rewritten |
| AwsCheck.PeriodicAwsChecker.ProcessSecret | src/checkers/periodicAwsChecker.go:101-137 | a read or JSON error is returned and writes nothing; a secret without a string value writes nothing; otherwise the selected keys are exported, each failure adding one error |
| AwsCheck.PeriodicAwsChecker.ProcessCounted | src/checkers/periodicAwsChecker.go:90-94 | a failing secret adds one error |
| AwsCheck.PeriodicAwsChecker.ProcessAll | src/checkers/periodicAwsChecker.go:89-95 | every secret is processed in order, the later ones after a failure too |
| AwsCheck.PeriodicAwsChecker.CheckSecrets | src/checkers/periodicAwsChecker.go:79-98 | a client that cannot be built adds one error, is returned and processes no secret; otherwise nil, after every secret |
| AwsCheck.PeriodicAwsChecker.Tick | src/checkers/periodicAwsChecker.go:63-76 | the reset comes first; a client that cannot be built counts two errors |
| WebhookExport.ResetStore | src/exporters/webhookExporter.go:26-29 | both webhook families are emptied and no other family changes |
| WebhookExport.WebhookExporter.ExportMetrics | src/exporters/webhookExporter.go:12-24 | decoding uses the empty password; on an error nothing is written; otherwise each certificate sets both gauges at (type, issuer, cn, webhook, version), in order |
| WebhookExport.WebhookExporter.ResetMetrics | src/exporters/webhookExporter.go:26-29 | the store after the reset is `ResetStore` of the old store |
| WebhookExport.ExportedCertificate | src/exporters/webhookExporter.go:18-21 | after a clean decode every certificate's label tuple is present in both families |
| ConfigMapExport.ResetStore | src/exporters/configMapExporter.go:26-29 | both configmap families are emptied and no other family changes |
| ConfigMapExport.ConfigMapExporter.ExportMetrics | src/exporters/configMapExporter.go:12-24 | decoding uses the empty password; on an error nothing is written; otherwise each certificate sets both gauges at (key, issuer, cn, name, namespace), in order |
| ConfigMapExport.ConfigMapExporter.ResetMetrics | src/exporters/configMapExporter.go:26-29 | the store after the reset is `ResetStore` of the old store |
| ConfigMapExport.ExportedCertificate | src/exporters/configMapExporter.go:18-21 | after a clean decode every certificate's label tuple is present in both families |
| CertRequestExport.ResetStore | src/exporters/certRequestExporter.go:26-29 | as written: the Secret families are emptied and every other family, the certrequest ones included, is unchanged |
| CertRequestExport.ResetOwnStore | src/exporters/certRequestExporter.go:26-29 | as intended: both certrequest families are emptied and no other family changes |
| CertRequestExport.CertRequestExporter.ExportMetrics | src/exporters/certRequestExporter.go:12-24 | on an error nothing is written; otherwise each certificate sets both gauges at (issuer, cn, request, namespace), in order |
| CertRequestExport.CertRequestExporter.ResetMetrics | src/exporters/certRequestExporter.go:26-29 | the reset as written: `ResetStore` of the old store |
| CertRequestExport.CertRequestExporter.ResetOwnMetrics | src/exporters/certRequestExporter.go:26-29 | the corrected reset: `ResetOwnStore` of the old store |
| CertRequestExport.ResetKeepsOwnSeries | src/exporters/certRequestExporter.go:26-29 | the reset as written keeps both certrequest families whole |
| CertRequestExport.StaleSeriesSurviveReset | src/exporters/certRequestExporter.go:26-29 | a certrequest series set before the reset is still there after the reset as written, and gone after the corrected one |
| CertRequestExport.ResetThenExport | src/exporters/certRequestExporter.go:12-29 | after the corrected reset and an export, a certrequest series exists only if the decode succeeded and some certificate has that label tuple |
| CertRequestExport.ExportedCertificate | src/exporters/certRequestExporter.go:18-21 | after a clean decode every certificate's label tuple is present in both families |
| AwsExport.ResetStore | src/exporters/awsExporter.go:35-37 | the AWS family is emptied and no other family changes |
| AwsExport.AwsExporter.ExportMetrics | src/exporters/awsExporter.go:13-33 | a base64 or decode error writes nothing; otherwise each certificate sets the expiry gauge at (secret, key, issuer, cn), or at (secret, key, file, issuer, cn) with the flag set |
| AwsExport.AwsExporter.ResetMetrics | src/exporters/awsExporter.go:35-37 | the store after the reset is `ResetStore` of the old store |
| AwsExport.ExportedCertificate | src/exporters/awsExporter.go:20-29 | each certificate gets an AWS series at the label tuple the flag selects |
| AwsExport.OnlyAwsFamily | src/exporters/awsExporter.go:22-27 | only the AWS expiry family is written |
| KubeConfigExport.PathResolution | src/exporters/kubeConfigExporter.go:78-85 | an absolute path is used as written, whatever the kubeconfig's location; a relative one depends on that location only through its directory |
| KubeConfigExport.SectionWalkStops | src/exporters/kubeConfigExporter.go:29-40 | once an entry fails, later entries are not looked at |
| KubeConfigExport.KubeConfigExporter.ExportMetrics | src/exporters/kubeConfigExporter.go:16-76 | a parse error is returned and writes nothing; otherwise the clusters are exported, then the users, stopping at the first error with the earlier samples kept |
| KubeConfigExport.KubeConfigExporter.ExportSection | src/exporters/kubeConfigExporter.go:23-47 | one section's loop: each entry's certificates from its data or its file, written at (file, type, name, node), stopping at the first failing entry |
| KubeConfigExport.KubeConfigExporter.DecodeEntry | src/exporters/kubeConfigExporter.go:26-41 | an entry's certificates come from its embedded data when set, else from its file reference resolved against the kubeconfig, else the error naming the entry |
| KubeConfigExport.ParseFailureWritesNothing | src/exporters/kubeConfigExporter.go:17-21 | a kubeconfig that does not parse returns its error before any gauge is written |
| KubeConfigExport.DataPreferred | src/exporters/kubeConfigExporter.go:26-41 | the embedded data is used when non-empty, the file reference only otherwise; an entry with neither gives the error naming it |
| KubeConfigExport.FirstFailureStops | src/exporters/kubeConfigExporter.go:29-40 | the first failing entry ends the section with the earlier samples and its error, whatever follows |
| KubeConfigExport.SectionLabels | src/exporters/kubeConfigExporter.go:43-46 | every sample of a section carries the file, the section's type label and the node name |
| KubeConfigExport.EntrySamplesLabels | src/exporters/kubeConfigExporter.go:43-46 | all certificates of one entry are written at the same label tuple, so the last one wins |
| KubeConfigExport.ClustersBeforeUsers | src/exporters/kubeConfigExporter.go:23-73 | the cluster samples come before any user sample, and a cluster failure ends the export before the users |
| ExportCommon.MetricSamples | src/exporters/webhookExporter.go:18-21 | every sample is on the exporter's expiry or not-after family |
| ExportCommon.LastAtFound | src/exporters/webhookExporter.go:18-21 | a certificate is found at a label tuple exactly when one has that tuple, and it is the last such one |
| ExportCommon.ExpiryLastWins | src/exporters/webhookExporter.go:18-21 | among certificates with equal label tuples the last one's expiry is what remains written |
| ExportCommon.NotAfterLastWins | src/exporters/webhookExporter.go:18-21 | among certificates with equal label tuples the last one's not-after time is what remains written |
| ExportCommon.ExportedExpiry | src/exporters/configMapExporter.go:18-21 | after an export, a series holds the last certificate's expiry at its tuple, or its old value if no certificate has that tuple |
| ExportCommon.ExportedNotAfter | src/exporters/configMapExporter.go:18-21 | the same for the not-after family |
| ExportCommon.ExportedVisible | src/exporters/configMapExporter.go:18-21 | after a clean export every certificate's tuple is present in its families |
| ExportCommon.SamplesLabelled | src/exporters/webhookExporter.go:18-21 | every sample of an export is at the label tuple of one of the certificates |
| ExportCommon.FailedExportWritesNothing | src/exporters/configMapExporter.go:13-16 | a failed decode returns its error and leaves every gauge as it was |
| ExportCommon.ExportOnlyOwnFamilies | src/exporters/certRequestExporter.go:18-21 | an export touches only its own families |
| ExportCommon.PublishOne | src/exporters/certRequestExporter.go:19-20 | one certificate's expiry sample, then its not-after sample when the exporter keeps one |
| ExportCommon.Publish | src/exporters/certRequestExporter.go:18-21 | the certificates' samples are written in order |
| ExportCommon.FailureCount | src/checkers/periodicWebhookChecker.go:119-122 | no more failures than exports |
| ExportCommon.ExportRuns | src/checkers/periodicWebhookChecker.go:115-126 | two runs of exports one after the other write their samples in that order and add their failures |
| Metrics.Put | src/exporters/webhookExporter.go:19 | setting a series writes that series only and adds its tuple to the family |
| Metrics.ApplyAppend | src/exporters/webhookExporter.go:18-21 | writing two batches one after the other is writing their concatenation |
| Metrics.LookupAfterApply | src/exporters/webhookExporter.go:18-21 | after a batch a series holds its last write, or what it held before |
| Metrics.LastWriteWritten | src/exporters/webhookExporter.go:18-21 | a series has a last write in a batch exactly when the batch writes its label tuple |
| Metrics.WrittenMembership | src/exporters/webhookExporter.go:18-21 | the tuples written to a family are exactly those of its samples |
| Metrics.ApplyKeys | src/exporters/webhookExporter.go:18-21 | a batch adds exactly the tuples it writes to each family |
| Metrics.ApplyOtherFamily | src/exporters/webhookExporter.go:18-21 | a family no sample names is unchanged |
| Metrics.Cleared | src/exporters/webhookExporter.go:27 | the reset family is empty and every other family is unchanged |
| Metrics.Registry.Set | src/exporters/webhookExporter.go:19 | the store becomes `Put` of the sample; `error_total` is unchanged |
| Metrics.Registry.Reset | src/exporters/webhookExporter.go:27 | the store becomes `Cleared` on that family; `error_total` is unchanged |
| Metrics.Registry.IncError | src/checkers/periodicConfigMapChecker.go:78 | `error_total` grows by one and the gauges are unchanged |
| PasswordSpecArgs.Parse | src/args/password_spec.go:34-50 | no colon is the format error; otherwise the pattern is the trimmed text before the first colon, non-empty and compiling, and the password all text after it; the empty-pattern and bad-glob errors otherwise |
| PasswordSpecArgs.PasswordSpecFlag.constructor | src/args/password_spec.go:18 | the list starts empty |
| PasswordSpecArgs.PasswordSpecFlag.String | src/args/password_spec.go:21-31 | "" for an empty list; otherwise each pattern quoted as `%q` quotes it, with ":****", joined by ", " |
| PasswordSpecArgs.PasswordSpecFlag.Set | src/args/password_spec.go:34-57 | a value that parses is appended at the end; on any error the list is unchanged |
| PasswordSpecArgs.RenderHidesPasswords | src/args/password_spec.go:25-30 | lists with the same patterns render the same, whatever their passwords |
| PasswordSpecArgs.RenderAppend | src/args/password_spec.go:26-30 | one more spec adds ", " and its masked form at the end |
| PasswordSpecArgs.ParseJoined | src/args/password_spec.go:35-40 | a colon-free pattern, a colon and any password parse back to the trimmed pattern and exactly that password |
| PasswordResolver.PasswordForFile | src/exporters/password_resolver.go:8-15 | the result is the default or the password of one of the specs |
| PasswordResolver.FirstMatchWins | src/exporters/password_resolver.go:9-13 | the earliest matching spec supplies the password |
| PasswordResolver.NoMatchDefault | src/exporters/password_resolver.go:14 | when no spec matches, the empty list included, the default is returned |
| CommandLine.SanitizedNamespaceList | main.go:171-193 | the loop returns the trimmed non-empty pieces of the raw list, then the single namespace, or [""] when that is nothing |
| CommandLine.SanitizedNeverEmpty | main.go:188-190 | the namespace list is never empty |
| CommandLine.KeptAppend | main.go:176-181 | pieces keep their order |
| CommandLine.KeptMembership | main.go:176-181 | a name is kept exactly when it is non-empty and the trim of some piece |
| CommandLine.KeptClean | main.go:175-181 | every name taken from the raw list is non-empty, comma-free and not padded with white space |
| CommandLine.NamespaceLast | main.go:184-186 | a non-empty single namespace comes last, untrimmed, after the raw list's names |
| CommandLine.RawListOnly | main.go:174-190 | the raw list alone gives its clean names, or [""] |
| CommandLine.DefaultIncludeGlobs | main.go:122-124 | an empty include-glob list becomes ["*"]; any other is kept |
| GlobArgsFlag.GlobArgs.String | src/args/globargs.go:6-8 | always "globargs" |
| GlobArgsFlag.GlobArgs.Set | src/args/globargs.go:11-14 | never an error, the empty string included; the value is appended at the end |
| LegacyCerts.PeriodicCertChecker.constructor | src/certs/certs.go:16-20 | only the period is kept; both glob lists stay empty |
| LegacyCerts.PeriodicCertChecker.GetMatches | src/certs/certs.go:42-58 | one empty path, then each include glob's matches in order; a failing glob is skipped |
| LegacyCerts.PeriodicCertChecker.IncludeFile | src/certs/certs.go:60-76 | false at a malformed or matching exclude pattern; true when none is either, no patterns included |
| LegacyCerts.PeriodicCertChecker.Tick | src/certs/certs.go:31-38 | the matches that are included, in match order |
| LegacyCerts.GlobMatchesMembership | src/certs/certs.go:45-55 | a path is a match exactly when a successful glob listed it |
| LegacyCerts.IncludedMembership | src/certs/certs.go:31-38 | a match is published exactly when no exclude pattern rejects it |
| LegacyCerts.NoExcludesIncludesAll | src/certs/certs.go:75 | without exclude patterns every match is published, in order |
| LegacyCerts.FreshCheckerPublishesEmptyPath | src/certs/certs.go:16-20 | a checker built by its constructor only ever publishes the empty path |
| Strings.TrimSpaceEnds | main.go:177 | a trimmed string neither starts nor ends with white space |
| Strings.TrimSpaceOfSpaces | main.go:177 | a string of white space trims to nothing |
| Strings.JoinSplit | main.go:175 | joining the pieces of a split with the separator gives the string back |
| Strings.SplitJoin | main.go:175 | splitting a join of separator-free pieces gives the pieces back |
| Strings.IndexOfAt | src/args/password_spec.go:35 | the first occurrence is found |
| Strings.Contains | src/checkers/periodicAwsChecker.go:127 | true exactly when the substring occurs somewhere |
| Strings.ContainsEmpty | src/checkers/periodicAwsChecker.go:127 | every string contains the empty string |
| Strings.Quote | src/args/password_spec.go:28 | the quoted form starts and ends with a double quote, holds printable characters only, and is the string itself between quotes when that has only printable characters other than `"` and `\` |
| Strings.QuoteCharPlain | src/args/password_spec.go:28 | a character stands for itself exactly when it is printable and neither `"` nor `\` |
| Strings.QuoteCharInjective | src/args/password_spec.go:28 | two different characters are never written alike, `\x`, `\u` and `\U` escapes included |
| Strings.QuoteBodyPrintable | src/args/password_spec.go:28 | every character of the quoted text is printable |
| Strings.HexInjective | src/args/password_spec.go:28 | n hexadecimal digits tell apart all values below 16 to the power n |

## Left out

- Time: the `time.Tick` loops, the goroutine per checker, and the one-period wait before a check are not modelled. Each checker's model is one tick body. The legacy checker waits a period before its first check; its `Tick` models the check only.
- Floating point: expiry values are integer seconds computed from a `now` parameter, not `time.Until` on `float64`.
- Building the Kubernetes, cert-manager and AWS clients (`glog.Fatalf` on error) is not modelled. The list and get calls are function-typed fields of the checkers.
- The Prometheus registry, metric registration and `promhttp` are not modelled. The gauge families are maps, and a label-count panic cannot arise in the model.
- The real decoders are left out: `pem.Decode`, `x509.ParseCertificate`, `pkcs12.DecodeChain`, the keystore loader, base64, UTF-8 conversion and file reads. They are collaborators with no meaning attached, except that `pem.Decode` consumes input.
- The glob engines and path functions are collaborators: `filepath.Match`, `filepath.Glob`, doublestar's `SplitPattern` and `Glob`, `gobwas/glob` compilation, `path.Dir` and `path.Join`. `path.IsAbs` is modelled as "starts with '/'".
- `src/kubeconfig/parser.go` (YAML parsing) is a collaborator of `KubeConfigExport`.
- Logging through `glog`, `klog` and `fmt.Println` is left out.
- Map iteration order is an enumeration the caller cannot rely on (`Base.Enumerate`). Every property holds for any such order.
- Callers and definitions disagree on arity. The model follows the definitions: a missing password is "", and missing exclusion lists are `NoExclusions`.
- `src/exporters/cloudWatch.go`, `secretExporter.go`, `certExporter.go` and `periodicSecretChecker.go` are not part of this model. They are SDK calls, forwarding or a stub that only prints.
- `main`'s wiring of flags to checkers is left out beyond `getSanitizedNamespaceList` and the default include glob. That includes the CertificateRequest checker being given the Secret annotation selector at `main.go:134`.
- CertCheck.PeriodicCertChecker.Tick: the exporter is the generic exporter interface, modelled as a class that records its calls. A kubeconfig or certificate exporter behind it is modelled on its own in `KubeConfigExport`.
- `strconv.IsPrint` above U+00FF: strconv's Unicode tables are a collaborator (`printable`) of `PasswordSpecFlag`; below U+0100 the rule is written out.

## Findings

| source | as written | input that shows it | evidently intended | confidence | as-written member | corrected member |
|---|---|---|---|---|---|---|
| src/exporters/certRequestExporter.go:26-29 | `ResetMetrics` resets the Secret expiry and not-after gauges | a certrequest expiry series set before the reset, at labels ("issuer", "cn", "request", "default"), is still present after it | reset the certrequest expiry and not-after gauges, as `src/exporters/certRequestExporter_test.go:222-273` expects | not executed | CertRequestExport.StaleSeriesSurviveReset | CertRequestExport.ResetOwnStore |
