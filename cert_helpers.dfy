/**
 * Turning certificate bytes into certificate metrics: the PEM, PKCS#12 and
 * JKS decoders tried in that order, the exclusion globs on common name,
 * alias and issuer, and the entry points that start from a file or from a
 * base64 string.
 *
 * The decoders, the file system and the clock are collaborators of `Env`;
 * the model decides what is done with what they answer.
 */
module CertHelpers {
  import opened Base

  /** The fields of a parsed X.509 certificate that the exporter reads; times in Unix seconds. */
  datatype X509Cert = X509Cert(notBefore: int, notAfter: int, issuerCN: string, subjectCN: string)

  /** What one certificate contributes to the gauges. */
  datatype CertMetric = CertMetric(
    durationUntilExpiry: int,
    notAfter: int,
    notBefore: int,
    issuer: string,
    cn: string,
    alias: string)

  datatype PemBlock = PemBlock(blockType: string, bytes: Bytes)

  /** What `pem.Decode` returns when it finds a block: the block and the bytes after it. */
  datatype PemSplit = PemSplit(block: PemBlock, rest: Bytes)

  /** What `pkcs12.DecodeChain` returns: the leaf certificate and the CA certificates. */
  datatype Pkcs12Chain = Pkcs12Chain(leaf: X509Cert, caCerts: seq<X509Cert>)

  datatype EntryKind = TrustedCertificateEntry | PrivateKeyEntry | OtherEntry

  /**
   * A loaded Java keystore: its aliases in the order `Aliases()` lists them,
   * the kind of each entry, and the two entry getters (the private key
   * getter takes the keystore password).
   */
  datatype Keystore = Keystore(
    aliases: seq<string>,
    kindOf: string -> EntryKind,
    trustedCertificate: string -> Result<Bytes>,
    privateKeyChain: (string, string) -> Result<seq<Bytes>>)

  /** The collaborators of the certificate code and the current time. */
  datatype Env = Env(
    now: int,
    pemDecode: Bytes -> Option<PemSplit>,
    parseX509: Bytes -> Result<X509Cert>,
    decodePkcs12: (Bytes, string) -> Result<Pkcs12Chain>,
    loadJks: (Bytes, string) -> Result<Keystore>,
    base64Decode: string -> Result<Bytes>,
    base64Encode: Bytes -> string,
    utf8: string -> Bytes,
    readFile: string -> Result<Bytes>,
    pathMatch: Matcher)
  {
    /** `pem.Decode` consumes at least the header of each block it finds. */
    ghost predicate Valid() {
      forall d :: pemDecode(d).Some? ==> |pemDecode(d).value.rest| < |d|
    }
  }

  /** What one decoder says: whether it recognised the format, the metrics, the error. */
  datatype Attempt = Attempt(recognized: bool, metrics: seq<CertMetric>, err: Option<Err>)

  /** What the exporters receive: the metrics and the error, both of which may be present. */
  datatype Decoded = Decoded(metrics: seq<CertMetric>, err: Option<Err>)

  /** The three lists of exclusion globs. */
  datatype Exclusions = Exclusions(cn: seq<string>, alias: seq<string>, issuer: seq<string>)

  /** What the callers that pass no exclusion globs get. */
  const NoExclusions := Exclusions([], [], [])

  /** Metrics gathered so far and the error that stopped the walk, if any. */
  datatype Partial = Partial(metrics: seq<CertMetric>, err: Option<Err>)

  // ---------------------------------------------------------------- globs

  /**
   * When `matchGlobs` says yes: an empty string only for a literal "" or "*"
   * glob; any other string when one well-formed glob matches it (a
   * malformed glob is skipped).
   */
  ghost predicate GlobsMatch(m: Matcher, s: string, globs: seq<string>) {
    if s == "" then exists i :: 0 <= i < |globs| && (globs[i] == "" || globs[i] == "*")
    else exists i :: 0 <= i < |globs| && m(globs[i], s) == Matched
  }

  method MatchGlobs(m: Matcher, s: string, globs: seq<string>) returns (r: bool)
    ensures r == GlobsMatch(m, s, globs)
  {
    if s == "" {
      for i := 0 to |globs|
        invariant forall j :: 0 <= j < i ==> globs[j] != "" && globs[j] != "*"
      {
        if globs[i] == "" || globs[i] == "*" {
          return true;
        }
      }
      return false;
    }
    for i := 0 to |globs|
      invariant forall j :: 0 <= j < i ==> m(globs[j], s) != Matched
    {
      var outcome := m(globs[i], s);
      if outcome == Malformed {
        continue;
      }
      if outcome == Matched {
        return true;
      }
    }
    return false;
  }

  /** No list of globs matches when it is empty. */
  lemma NoGlobsNoMatch(m: Matcher, s: string)
    ensures !GlobsMatch(m, s, [])
  {
  }

  // ------------------------------------------------------------ filtering

  /** `filterMetrics` drops a metric when one of the guarded glob tests hits it. */
  ghost predicate Excluded(m: Matcher, x: CertMetric, ex: Exclusions) {
    || (|ex.cn| > 0 && GlobsMatch(m, x.cn, ex.cn))
    || (|ex.alias| > 0 && x.alias != "" && GlobsMatch(m, x.alias, ex.alias))
    || (|ex.issuer| > 0 && GlobsMatch(m, x.issuer, ex.issuer))
  }

  /** The metrics that are not excluded, in their order. */
  ghost function Filtered(m: Matcher, ms: seq<CertMetric>, ex: Exclusions): (r: seq<CertMetric>)
    ensures |r| <= |ms|
    decreases |ms|
  {
    if ms == [] then []
    else
      var last := ms[|ms| - 1];
      Filtered(m, ms[..|ms| - 1], ex) + (if Excluded(m, last, ex) then [] else [last])
  }

  method FilterMetrics(m: Matcher, metrics: seq<CertMetric>, ex: Exclusions) returns (r: seq<CertMetric>)
    ensures r == Filtered(m, metrics, ex)
  {
    if |ex.cn| == 0 && |ex.alias| == 0 && |ex.issuer| == 0 {
      FilteredWithoutGlobs(m, metrics, ex);
      return metrics;
    }
    r := [];
    for i := 0 to |metrics|
      invariant r == Filtered(m, metrics[..i], ex)
    {
      var x := metrics[i];
      var excluded := false;
      if |ex.cn| > 0 {
        var hit := MatchGlobs(m, x.cn, ex.cn);
        excluded := hit;
      }
      if !excluded && |ex.alias| > 0 && x.alias != "" {
        var hit := MatchGlobs(m, x.alias, ex.alias);
        excluded := hit;
      }
      if !excluded && |ex.issuer| > 0 {
        var hit := MatchGlobs(m, x.issuer, ex.issuer);
        excluded := hit;
      }
      if !excluded {
        r := r + [x];
      }
      assert metrics[..i + 1][..i] == metrics[..i];
    }
    assert metrics[..|metrics|] == metrics;
  }

  /** Without exclusion globs every metric is kept. */
  lemma {:induction false} FilteredWithoutGlobs(m: Matcher, ms: seq<CertMetric>, ex: Exclusions)
    requires |ex.cn| == 0 && |ex.alias| == 0 && |ex.issuer| == 0
    ensures Filtered(m, ms, ex) == ms
    decreases |ms|
  {
    if ms != [] {
      FilteredWithoutGlobs(m, ms[..|ms| - 1], ex);
    }
  }

  /** A metric survives the filter exactly when it was there and is not excluded. */
  lemma {:induction false} FilteredMembership(m: Matcher, ms: seq<CertMetric>, ex: Exclusions, x: CertMetric)
    ensures x in Filtered(m, ms, ex) <==> x in ms && !Excluded(m, x, ex)
    decreases |ms|
  {
    if ms != [] {
      var init := ms[..|ms| - 1];
      FilteredMembership(m, init, ex, x);
      assert ms == init + [ms[|ms| - 1]];
    }
  }

  /** Filtering keeps the metrics that survive in their original order. */
  lemma {:induction false} FilteredAppend(m: Matcher, a: seq<CertMetric>, b: seq<CertMetric>, ex: Exclusions)
    ensures Filtered(m, a + b, ex) == Filtered(m, a, ex) + Filtered(m, b, ex)
    decreases |b|
  {
    if b == [] {
      assert a + b == a;
    } else {
      var b' := b[..|b| - 1];
      assert (a + b)[..|a + b| - 1] == a + b';
      FilteredAppend(m, a, b', ex);
    }
  }

  /** A metric without an alias is never dropped by the alias globs. */
  lemma EmptyAliasIgnoresAliasGlobs(m: Matcher, x: CertMetric, ex: Exclusions)
    requires x.alias == ""
    ensures Excluded(m, x, ex) == Excluded(m, x, ex.(alias := []))
  {
  }

  // --------------------------------------------------------- certificates

  /** `getCertificateMetrics`: the times of the certificate and its two common names. */
  function CertificateMetrics(c: X509Cert, now: int): (r: CertMetric)
    ensures r.notAfter - r.durationUntilExpiry == now
    ensures r.alias == ""
  {
    CertMetric(c.notAfter - now, c.notAfter, c.notBefore, c.issuerCN, c.subjectCN, "")
  }

  /** The metrics of a certificate found under a keystore alias. */
  function Tagged(c: X509Cert, alias: string, now: int): CertMetric {
    CertificateMetrics(c, now).(alias := alias)
  }

  function MetricsOf(certs: seq<X509Cert>, now: int): (r: seq<CertMetric>)
    ensures |r| == |certs|
    ensures forall i :: 0 <= i < |certs| ==> r[i] == CertificateMetrics(certs[i], now)
    decreases |certs|
  {
    if certs == [] then [] else MetricsOf(certs[..|certs| - 1], now) + [CertificateMetrics(certs[|certs| - 1], now)]
  }

  // ------------------------------------------------------------------ PEM

  /** The blocks `pem.Decode` finds one after the other until it finds none or the data runs out. */
  ghost function PemBlocks(env: Env, data: Bytes): seq<PemBlock>
    requires env.Valid()
    decreases |data|
  {
    if |data| == 0 then []
    else match env.pemDecode(data)
      case None => []
      case Some(sp) => [sp.block] + PemBlocks(env, sp.rest)
  }

  /** A block yields a metric when it is a CERTIFICATE block whose contents parse. */
  ghost function BlockMetric(env: Env, b: PemBlock): seq<CertMetric> {
    if b.blockType == "CERTIFICATE" && env.parseX509(b.bytes).Ok?
    then [CertificateMetrics(env.parseX509(b.bytes).value, env.now)]
    else []
  }

  ghost function BlockMetrics(env: Env, bs: seq<PemBlock>): (r: seq<CertMetric>)
    ensures |r| <= |bs|
    decreases |bs|
  {
    if bs == [] then [] else BlockMetrics(env, bs[..|bs| - 1]) + BlockMetric(env, bs[|bs| - 1])
  }

  /** `parseAsPEM`: recognised when at least one block decodes; bad blocks are skipped silently. */
  ghost function PemAttempt(env: Env, data: Bytes): Attempt
    requires env.Valid()
  {
    var bs := PemBlocks(env, data);
    if bs == [] then Attempt(false, [], Some(NoPemData)) else Attempt(true, BlockMetrics(env, bs), None)
  }

  method ParseAsPem(env: Env, certBytes: Bytes) returns (r: Attempt)
    requires env.Valid()
    ensures r == PemAttempt(env, certBytes)
  {
    var metrics: seq<CertMetric> := [];
    var pemBlockDecoded := false;
    var data := certBytes;
    ghost var seen: seq<PemBlock> := [];
    while |data| > 0
      invariant PemBlocks(env, certBytes) == seen + PemBlocks(env, data)
      invariant metrics == BlockMetrics(env, seen)
      invariant pemBlockDecoded <==> seen != []
      decreases |data|
    {
      var decoded := env.pemDecode(data);
      if decoded.None? {
        break;
      }
      pemBlockDecoded := true;
      var block := decoded.value.block;
      if block.blockType == "CERTIFICATE" {
        var cert := env.parseX509(block.bytes);
        if cert.Ok? {
          metrics := metrics + [CertificateMetrics(cert.value, env.now)];
        }
      }
      assert (seen + [block])[..|seen|] == seen;
      seen := seen + [block];
      data := decoded.value.rest;
    }
    assert PemBlocks(env, data) == [];
    assert PemBlocks(env, certBytes) == seen;
    if !pemBlockDecoded {
      return Attempt(false, [], Some(NoPemData));
    }
    return Attempt(true, metrics, None);
  }

  /** Each block contributes its certificate when it is one that parses, in order. */
  lemma {:induction false} BlockMetricsMembership(env: Env, bs: seq<PemBlock>, x: CertMetric)
    ensures x in BlockMetrics(env, bs) <==> exists i :: 0 <= i < |bs| && x in BlockMetric(env, bs[i])
    decreases |bs|
  {
    if bs != [] {
      var init := bs[..|bs| - 1];
      BlockMetricsMembership(env, init, x);
      if x in BlockMetrics(env, init) {
        var i :| 0 <= i < |init| && x in BlockMetric(env, init[i]);
        assert bs[i] == init[i];
      }
      if exists i :: 0 <= i < |bs| && x in BlockMetric(env, bs[i]) {
        var i :| 0 <= i < |bs| && x in BlockMetric(env, bs[i]);
        if i < |init| {
          assert init[i] == bs[i];
        }
      }
    }
  }

  /** When every block is a certificate that parses, there is one metric per block, in order. */
  lemma {:induction false} AllCertificateBlocks(env: Env, bs: seq<PemBlock>)
    requires forall i :: 0 <= i < |bs| ==> bs[i].blockType == "CERTIFICATE" && env.parseX509(bs[i].bytes).Ok?
    ensures |BlockMetrics(env, bs)| == |bs|
    ensures forall i :: 0 <= i < |bs| ==>
      BlockMetrics(env, bs)[i] == CertificateMetrics(env.parseX509(bs[i].bytes).value, env.now)
    decreases |bs|
  {
    if bs != [] {
      AllCertificateBlocks(env, bs[..|bs| - 1]);
    }
  }

  /**
   * A single CERTIFICATE block whose contents do not parse: the input is
   * still recognised as PEM, with no metrics and no error.
   */
  lemma CorruptedCertificateBlock(env: Env, data: Bytes, payload: Bytes)
    requires env.Valid()
    requires env.pemDecode(data) == Some(PemSplit(PemBlock("CERTIFICATE", payload), []))
    requires env.parseX509(payload).Fail?
    ensures PemAttempt(env, data) == Attempt(true, [], None)
  {
    assert |data| > 0;
    assert PemBlocks(env, data) == [PemBlock("CERTIFICATE", payload)];
    assert [PemBlock("CERTIFICATE", payload)][..0] == [];
  }

  /** Input in which `pem.Decode` finds no block is not PEM, whatever it holds. */
  lemma NoBlockIsNotPem(env: Env, data: Bytes)
    requires env.Valid()
    requires env.pemDecode(data).None?
    ensures PemAttempt(env, data) == Attempt(false, [], Some(NoPemData))
  {
  }

  // --------------------------------------------------------------- PKCS#12

  /** `parseAsPKCS`: the leaf first and then the CA certificates; unrecognised when decoding fails. */
  ghost function PkcsAttempt(env: Env, data: Bytes, password: string): Attempt {
    match env.decodePkcs12(data, password)
    case Fail(e) => Attempt(false, [], Some(e))
    case Ok(chain) => Attempt(true, [CertificateMetrics(chain.leaf, env.now)] + MetricsOf(chain.caCerts, env.now), None)
  }

  method ParseAsPkcs(env: Env, certBytes: Bytes, certPassword: string) returns (r: Attempt)
    ensures r == PkcsAttempt(env, certBytes, certPassword)
  {
    var decoded := env.decodePkcs12(certBytes, certPassword);
    if decoded.Fail? {
      return Attempt(false, [], Some(decoded.err));
    }
    var chain := decoded.value;
    var metrics := [CertificateMetrics(chain.leaf, env.now)];
    for i := 0 to |chain.caCerts|
      invariant metrics == [CertificateMetrics(chain.leaf, env.now)] + MetricsOf(chain.caCerts[..i], env.now)
    {
      assert chain.caCerts[..i + 1][..i] == chain.caCerts[..i];
      metrics := metrics + [CertificateMetrics(chain.caCerts[i], env.now)];
    }
    assert chain.caCerts[..|chain.caCerts|] == chain.caCerts;
    return Attempt(true, metrics, None);
  }

  /** A decoded PKCS#12 file gives one metric per certificate, the leaf first. */
  lemma PkcsShape(env: Env, data: Bytes, password: string)
    requires env.decodePkcs12(data, password).Ok?
    ensures var chain := env.decodePkcs12(data, password).value;
      var a := PkcsAttempt(env, data, password);
      && a.recognized && a.err == None
      && |a.metrics| == 1 + |chain.caCerts|
      && a.metrics[0] == CertificateMetrics(chain.leaf, env.now)
      && forall i :: 0 <= i < |chain.caCerts| ==> a.metrics[i + 1] == CertificateMetrics(chain.caCerts[i], env.now)
  {
  }

  // ------------------------------------------------------------------- JKS

  /**
   * The certificate chain of a private key entry, parsed in order; the
   * first certificate that does not parse stops the walk with an error
   * that names the alias and the index, keeping what came before.
   */
  ghost function ChainWalk(env: Env, alias: string, chain: seq<Bytes>): Partial
    decreases |chain|
  {
    if chain == [] then Partial([], None)
    else
      var p := ChainWalk(env, alias, chain[..|chain| - 1]);
      if p.err.Some? then p
      else match env.parseX509(chain[|chain| - 1])
        case Fail(e) => Partial(p.metrics, Some(JksChainParse(alias, |chain| - 1, e)))
        case Ok(c) => Partial(p.metrics + [Tagged(c, alias, env.now)], None)
  }

  /** What one keystore entry contributes; only trusted-certificate and private-key entries count. */
  ghost function EntryOutcome(env: Env, ks: Keystore, alias: string, password: string): Partial {
    match ks.kindOf(alias)
    case TrustedCertificateEntry =>
      (match ks.trustedCertificate(alias)
       case Fail(e) => Partial([], Some(JksTrustedEntry(alias, e)))
       case Ok(content) =>
         match env.parseX509(content)
         case Fail(e) => Partial([], Some(JksTrustedParse(alias, e)))
         case Ok(c) => Partial([Tagged(c, alias, env.now)], None))
    case PrivateKeyEntry =>
      (match ks.privateKeyChain(alias, password)
       case Fail(e) => Partial([], Some(JksPrivateKeyEntry(alias, e)))
       case Ok(chain) => ChainWalk(env, alias, chain))
    case OtherEntry => Partial([], None)
  }

  /** The entries in alias order; the first error stops the walk, keeping the metrics so far. */
  ghost function AliasWalk(env: Env, ks: Keystore, aliases: seq<string>, password: string): Partial
    decreases |aliases|
  {
    if aliases == [] then Partial([], None)
    else
      var p := AliasWalk(env, ks, aliases[..|aliases| - 1], password);
      if p.err.Some? then p
      else
        var e := EntryOutcome(env, ks, aliases[|aliases| - 1], password);
        Partial(p.metrics + e.metrics, e.err)
  }

  /** `parseAsJKS`: recognised once the keystore loads, even if an entry then fails. */
  ghost function JksAttempt(env: Env, data: Bytes, password: string): Attempt {
    match env.loadJks(data, password)
    case Fail(e) => Attempt(false, [], Some(JksDecode(e)))
    case Ok(ks) =>
      var p := AliasWalk(env, ks, ks.aliases, password);
      Attempt(true, p.metrics, p.err)
  }

  /** Once a prefix of the chain has failed, the rest of the chain is not looked at. */
  lemma {:induction false} ChainWalkStops(env: Env, alias: string, chain: seq<Bytes>, k: nat)
    requires k <= |chain|
    requires ChainWalk(env, alias, chain[..k]).err.Some?
    ensures ChainWalk(env, alias, chain) == ChainWalk(env, alias, chain[..k])
    decreases |chain|
  {
    if k < |chain| {
      var init := chain[..|chain| - 1];
      assert init[..k] == chain[..k];
      ChainWalkStops(env, alias, init, k);
    } else {
      assert chain[..k] == chain;
    }
  }

  /** Once a prefix of the aliases has failed, the remaining entries are not looked at. */
  lemma {:induction false} AliasWalkStops(env: Env, ks: Keystore, aliases: seq<string>, password: string, k: nat)
    requires k <= |aliases|
    requires AliasWalk(env, ks, aliases[..k], password).err.Some?
    ensures AliasWalk(env, ks, aliases, password) == AliasWalk(env, ks, aliases[..k], password)
    decreases |aliases|
  {
    if k < |aliases| {
      var init := aliases[..|aliases| - 1];
      assert init[..k] == aliases[..k];
      AliasWalkStops(env, ks, init, password, k);
    } else {
      assert aliases[..k] == aliases;
    }
  }

  method WalkChain(env: Env, alias: string, chain: seq<Bytes>) returns (p: Partial)
    ensures p == ChainWalk(env, alias, chain)
  {
    var metrics := [];
    for i := 0 to |chain|
      invariant ChainWalk(env, alias, chain[..i]) == Partial(metrics, None)
    {
      assert chain[..i + 1][..i] == chain[..i];
      var cert := env.parseX509(chain[i]);
      if cert.Fail? {
        ChainWalkStops(env, alias, chain, i + 1);
        return Partial(metrics, Some(JksChainParse(alias, i, cert.err)));
      }
      metrics := metrics + [Tagged(cert.value, alias, env.now)];
    }
    assert chain[..|chain|] == chain;
    return Partial(metrics, None);
  }

  method ProcessEntry(env: Env, ks: Keystore, alias: string, password: string) returns (p: Partial)
    ensures p == EntryOutcome(env, ks, alias, password)
  {
    var kind := ks.kindOf(alias);
    if kind == TrustedCertificateEntry {
      var entry := ks.trustedCertificate(alias);
      if entry.Fail? {
        return Partial([], Some(JksTrustedEntry(alias, entry.err)));
      }
      var cert := env.parseX509(entry.value);
      if cert.Fail? {
        return Partial([], Some(JksTrustedParse(alias, cert.err)));
      }
      return Partial([Tagged(cert.value, alias, env.now)], None);
    } else if kind == PrivateKeyEntry {
      var entry := ks.privateKeyChain(alias, password);
      if entry.Fail? {
        return Partial([], Some(JksPrivateKeyEntry(alias, entry.err)));
      }
      p := WalkChain(env, alias, entry.value);
    } else {
      return Partial([], None);
    }
  }

  method ParseAsJks(env: Env, certBytes: Bytes, certPassword: string) returns (r: Attempt)
    ensures r == JksAttempt(env, certBytes, certPassword)
  {
    var loaded := env.loadJks(certBytes, certPassword);
    if loaded.Fail? {
      return Attempt(false, [], Some(JksDecode(loaded.err)));
    }
    var ks := loaded.value;
    var aliases := ks.aliases;
    if |aliases| == 0 {
      return Attempt(true, [], None);
    }
    var metrics := [];
    for i := 0 to |aliases|
      invariant AliasWalk(env, ks, aliases[..i], certPassword) == Partial(metrics, None)
    {
      assert aliases[..i + 1][..i] == aliases[..i];
      var entry := ProcessEntry(env, ks, aliases[i], certPassword);
      metrics := metrics + entry.metrics;
      if entry.err.Some? {
        AliasWalkStops(env, ks, aliases, certPassword, i + 1);
        return Attempt(true, metrics, entry.err);
      }
    }
    assert aliases[..|aliases|] == aliases;
    return Attempt(true, metrics, None);
  }

  /** Every metric of a chain walk carries the entry's alias. */
  lemma {:induction false} ChainWalkTagged(env: Env, alias: string, chain: seq<Bytes>)
    ensures forall x :: x in ChainWalk(env, alias, chain).metrics ==> x.alias == alias
    decreases |chain|
  {
    if chain != [] {
      ChainWalkTagged(env, alias, chain[..|chain| - 1]);
    }
  }

  /** When every certificate of the chain parses, the walk yields one metric per certificate. */
  lemma {:induction false} ChainWalkComplete(env: Env, alias: string, chain: seq<Bytes>)
    requires forall i :: 0 <= i < |chain| ==> env.parseX509(chain[i]).Ok?
    ensures ChainWalk(env, alias, chain).err == None
    ensures |ChainWalk(env, alias, chain).metrics| == |chain|
    decreases |chain|
  {
    if chain != [] {
      ChainWalkComplete(env, alias, chain[..|chain| - 1]);
    }
  }

  /** Every metric taken from a keystore is tagged with one of the walked aliases. */
  lemma {:induction false} AliasWalkTagged(env: Env, ks: Keystore, aliases: seq<string>, password: string)
    ensures forall x :: x in AliasWalk(env, ks, aliases, password).metrics ==> x.alias in aliases
    decreases |aliases|
  {
    if aliases != [] {
      var init := aliases[..|aliases| - 1];
      var alias := aliases[|aliases| - 1];
      AliasWalkTagged(env, ks, init, password);
      match ks.privateKeyChain(alias, password)
      case Fail(_) =>
      case Ok(chain) => ChainWalkTagged(env, alias, chain);
      assert forall x :: x in init ==> x in aliases;
    }
  }

  /** The errors a keystore entry can produce. */
  predicate EntryError(e: Err) {
    e.JksTrustedEntry? || e.JksTrustedParse? || e.JksPrivateKeyEntry? || e.JksChainParse?
  }

  lemma {:induction false} ChainWalkError(env: Env, alias: string, chain: seq<Bytes>)
    ensures var p := ChainWalk(env, alias, chain); p.err.Some? ==> p.err.value.JksChainParse?
    decreases |chain|
  {
    if chain != [] {
      ChainWalkError(env, alias, chain[..|chain| - 1]);
    }
  }

  /** An error that stops the walk over the entries always names an entry. */
  lemma {:induction false} AliasWalkError(env: Env, ks: Keystore, aliases: seq<string>, password: string)
    ensures var p := AliasWalk(env, ks, aliases, password); p.err.Some? ==> EntryError(p.err.value)
    decreases |aliases|
  {
    if aliases != [] {
      var alias := aliases[|aliases| - 1];
      AliasWalkError(env, ks, aliases[..|aliases| - 1], password);
      match ks.privateKeyChain(alias, password)
      case Fail(_) =>
      case Ok(chain) => ChainWalkError(env, alias, chain);
    }
  }

  /** A loaded keystore without aliases is recognised and yields nothing. */
  lemma EmptyKeystore(env: Env, data: Bytes, password: string)
    requires env.loadJks(data, password).Ok?
    requires env.loadJks(data, password).value.aliases == []
    ensures JksAttempt(env, data, password) == Attempt(true, [], None)
  {
  }

  // ----------------------------------------------------------- entry points

  /**
   * `secondsToExpiryFromCertAsBytes`: the first decoder that recognises the
   * bytes decides the metrics (filtered) and the error; when none does,
   * there are no metrics and an error that carries all three causes.
   */
  ghost function DecodeSpec(env: Env, data: Bytes, password: string, ex: Exclusions): Decoded
    requires env.Valid()
  {
    var pem := PemAttempt(env, data);
    if pem.recognized then Decoded(Filtered(env.pathMatch, pem.metrics, ex), pem.err)
    else
      var pkcs := PkcsAttempt(env, data, password);
      if pkcs.recognized then Decoded(Filtered(env.pathMatch, pkcs.metrics, ex), pkcs.err)
      else
        var jks := JksAttempt(env, data, password);
        if jks.recognized then Decoded(Filtered(env.pathMatch, jks.metrics, ex), jks.err)
        else Decoded([], Some(AllFormatsFailed(pem.err, pkcs.err, jks.err)))
  }

  method SecondsToExpiryFromCertAsBytes(env: Env, certBytes: Bytes, certPassword: string, ex: Exclusions)
    returns (r: Decoded)
    requires env.Valid()
    ensures r == DecodeSpec(env, certBytes, certPassword, ex)
  {
    var pem := ParseAsPem(env, certBytes);
    if pem.recognized {
      var kept := FilterMetrics(env.pathMatch, pem.metrics, ex);
      return Decoded(kept, pem.err);
    }
    var pkcs := ParseAsPkcs(env, certBytes, certPassword);
    if pkcs.recognized {
      var kept := FilterMetrics(env.pathMatch, pkcs.metrics, ex);
      return Decoded(kept, pkcs.err);
    }
    var jks := ParseAsJks(env, certBytes, certPassword);
    if jks.recognized {
      var kept := FilterMetrics(env.pathMatch, jks.metrics, ex);
      return Decoded(kept, jks.err);
    }
    return Decoded([], Some(AllFormatsFailed(pem.err, pkcs.err, jks.err)));
  }

  ghost function Base64Spec(env: Env, s: string, password: string, ex: Exclusions): Decoded
    requires env.Valid()
  {
    match env.base64Decode(s)
    case Fail(e) => Decoded([], Some(e))
    case Ok(data) => DecodeSpec(env, data, password, ex)
  }

  method SecondsToExpiryFromCertAsBase64String(env: Env, s: string, password: string, ex: Exclusions)
    returns (r: Decoded)
    requires env.Valid()
    ensures r == Base64Spec(env, s, password, ex)
  {
    var certBytes := env.base64Decode(s);
    if certBytes.Fail? {
      return Decoded([], Some(certBytes.err));
    }
    r := SecondsToExpiryFromCertAsBytes(env, certBytes.value, password, ex);
  }

  ghost function FileSpec(env: Env, file: string, password: string, ex: Exclusions): Decoded
    requires env.Valid()
  {
    match env.readFile(file)
    case Fail(e) => Decoded([], Some(e))
    case Ok(data) => DecodeSpec(env, data, password, ex)
  }

  method SecondsToExpiryFromCertAsFile(env: Env, file: string, password: string, ex: Exclusions)
    returns (r: Decoded)
    requires env.Valid()
    ensures r == FileSpec(env, file, password, ex)
  {
    var certBytes := env.readFile(file);
    if certBytes.Fail? {
      return Decoded([], Some(certBytes.err));
    }
    r := SecondsToExpiryFromCertAsBytes(env, certBytes.value, password, ex);
  }

  /** Whatever the format, no returned metric is one the exclusion globs drop. */
  lemma DecodeKeepsNoExcluded(env: Env, data: Bytes, password: string, ex: Exclusions, x: CertMetric)
    requires env.Valid()
    requires x in DecodeSpec(env, data, password, ex).metrics
    ensures !Excluded(env.pathMatch, x, ex)
  {
    var pem := PemAttempt(env, data);
    var pkcs := PkcsAttempt(env, data, password);
    var jks := JksAttempt(env, data, password);
    if pem.recognized {
      FilteredMembership(env.pathMatch, pem.metrics, ex, x);
    } else if pkcs.recognized {
      FilteredMembership(env.pathMatch, pkcs.metrics, ex, x);
    } else if jks.recognized {
      FilteredMembership(env.pathMatch, jks.metrics, ex, x);
    }
  }

  /** The aggregate error is returned exactly when no decoder recognises the bytes, and then with no metrics. */
  lemma DecodeAllFailed(env: Env, data: Bytes, password: string, ex: Exclusions)
    requires env.Valid()
    ensures var d := DecodeSpec(env, data, password, ex);
      (d.err.Some? && d.err.value.AllFormatsFailed?)
        <==> !PemAttempt(env, data).recognized && !PkcsAttempt(env, data, password).recognized
             && !JksAttempt(env, data, password).recognized
    ensures var d := DecodeSpec(env, data, password, ex);
      d.err.Some? && d.err.value.AllFormatsFailed? ==> d.metrics == []
  {
    match env.loadJks(data, password)
    case Fail(_) =>
    case Ok(ks) => AliasWalkError(env, ks, ks.aliases, password);
  }

  /** PEM input is never handed to the PKCS#12 or JKS decoders. */
  lemma PemTakesPrecedence(env: Env, data: Bytes, password: string, ex: Exclusions)
    requires env.Valid()
    requires PemBlocks(env, data) != []
    ensures DecodeSpec(env, data, password, ex)
         == Decoded(Filtered(env.pathMatch, BlockMetrics(env, PemBlocks(env, data)), ex), None)
  {
  }

  /** A PEM bundle of N parseable certificates and no exclusions exports N metrics, in bundle order. */
  lemma PemBundle(env: Env, data: Bytes, password: string)
    requires env.Valid()
    requires PemBlocks(env, data) != []
    requires var bs := PemBlocks(env, data);
      forall i :: 0 <= i < |bs| ==> bs[i].blockType == "CERTIFICATE" && env.parseX509(bs[i].bytes).Ok?
    ensures var bs := PemBlocks(env, data);
      var d := DecodeSpec(env, data, password, NoExclusions);
      && d.err == None && |d.metrics| == |bs|
      && forall i :: 0 <= i < |bs| ==> d.metrics[i] == CertificateMetrics(env.parseX509(bs[i].bytes).value, env.now)
  {
    var bs := PemBlocks(env, data);
    AllCertificateBlocks(env, bs);
    FilteredWithoutGlobs(env.pathMatch, BlockMetrics(env, bs), NoExclusions);
  }
}
