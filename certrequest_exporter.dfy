/**
 * `CertRequestExporter`: the certificate of a cert-manager
 * CertificateRequest on the certrequest expiry and not-after gauges,
 * labelled (issuer, cn, cert_request, certrequest_namespace).
 *
 * Its `ResetMetrics` empties the Secret families rather than its own, so a
 * reset leaves every certrequest series in place. `ResetMetrics` below is
 * that code; `ResetOwnMetrics` empties the certrequest families, the
 * behaviour the exporter's tests expect. The checker's `Tick` calls
 * `ResetMetrics`; `TickWithOwnReset` calls `ResetOwnMetrics`.
 */
module CertRequestExport {
  import opened Base
  import opened Metrics
  import opened CertHelpers
  import opened ExportCommon

  function CertRequestLabels(certRequest: string, namespace: string): Labeler {
    (x: CertMetric) => [x.issuer, x.cn, certRequest, namespace]
  }

  /** The issued certificate is decoded with the empty password and no exclusion globs. */
  ghost function ExportSpec(env: Env, data: Bytes, certRequest: string, namespace: string): ExportOutcome
    requires env.Valid()
  {
    Outcome(DecodeSpec(env, data, "", NoExclusions), CertRequestLabels(certRequest, namespace),
            CertRequestExpiry, Some(CertRequestNotAfter))
  }

  /** The reset as written: the Secret families are emptied. */
  function ResetStore(s: Store): (r: Store)
    ensures Series(r, SecretExpiry) == map[] && Series(r, SecretNotAfter) == map[]
    ensures forall f :: f != SecretExpiry && f != SecretNotAfter ==> Series(r, f) == Series(s, f)
  {
    Cleared(Cleared(s, SecretExpiry), SecretNotAfter)
  }

  /** The intended reset: the exporter's own families are emptied and no other family changes. */
  function ResetOwnStore(s: Store): (r: Store)
    ensures Series(r, CertRequestExpiry) == map[] && Series(r, CertRequestNotAfter) == map[]
    ensures forall f :: f != CertRequestExpiry && f != CertRequestNotAfter ==> Series(r, f) == Series(s, f)
  {
    Cleared(Cleared(s, CertRequestExpiry), CertRequestNotAfter)
  }

  class CertRequestExporter {
    const reg: Registry
    const env: Env

    constructor (reg: Registry, env: Env)
      ensures this.reg == reg && this.env == env
    {
      this.reg := reg;
      this.env := env;
    }

    method ExportMetrics(bytes: Bytes, certRequest: string, certRequestNamespace: string) returns (err: Option<Err>)
      requires env.Valid()
      modifies reg
      ensures err == ExportSpec(env, bytes, certRequest, certRequestNamespace).err
      ensures reg.store == Apply(old(reg.store), ExportSpec(env, bytes, certRequest, certRequestNamespace).samples)
      ensures reg.errorTotal == old(reg.errorTotal)
    {
      var decoded := SecondsToExpiryFromCertAsBytes(env, bytes, "", NoExclusions);
      if decoded.err.Some? {
        return decoded.err;
      }
      Publish(reg, decoded.metrics, CertRequestLabels(certRequest, certRequestNamespace),
              CertRequestExpiry, Some(CertRequestNotAfter));
      return None;
    }

    /** The reset as written. */
    method ResetMetrics()
      modifies reg
      ensures reg.store == ResetStore(old(reg.store))
      ensures reg.errorTotal == old(reg.errorTotal)
    {
      reg.Reset(SecretExpiry);
      reg.Reset(SecretNotAfter);
    }

    /** The corrected reset. */
    method ResetOwnMetrics()
      modifies reg
      ensures reg.store == ResetOwnStore(old(reg.store))
      ensures reg.errorTotal == old(reg.errorTotal)
    {
      reg.Reset(CertRequestExpiry);
      reg.Reset(CertRequestNotAfter);
    }
  }

  /** The reset as written keeps both certrequest families whole. */
  lemma ResetKeepsOwnSeries(s: Store)
    ensures Series(ResetStore(s), CertRequestExpiry) == Series(s, CertRequestExpiry)
    ensures Series(ResetStore(s), CertRequestNotAfter) == Series(s, CertRequestNotAfter)
  {
  }

  /** An input that shows it: a series exported before the reset is still there after it. */
  lemma StaleSeriesSurviveReset()
    ensures var l := ["issuer", "cn", "request", "default"];
      var s := map[CertRequestExpiry := map[l := 3600]];
      Lookup(ResetStore(s), CertRequestExpiry, l) == Some(3600)
      && Lookup(ResetOwnStore(s), CertRequestExpiry, l) == None
  {
    var l := ["issuer", "cn", "request", "default"];
    var s := map[CertRequestExpiry := map[l := 3600]];
    assert Series(s, CertRequestExpiry) == map[l := 3600];
  }

  /** A tick that resets with the corrected reset and then exports starts from no certrequest series. */
  lemma ResetThenExport(env: Env, s: Store, data: Bytes, certRequest: string, namespace: string, l: Labels)
    requires env.Valid()
    ensures var d := DecodeSpec(env, data, "", NoExclusions);
      var after := Apply(ResetOwnStore(s), ExportSpec(env, data, certRequest, namespace).samples);
      Lookup(after, CertRequestExpiry, l).Some? ==>
        d.err == None && LastAt(d.metrics, CertRequestLabels(certRequest, namespace), l).Some?
  {
    var d := DecodeSpec(env, data, "", NoExclusions);
    if d.err == None {
      ExportedExpiry(ResetOwnStore(s), d, CertRequestLabels(certRequest, namespace), CertRequestExpiry, Some(CertRequestNotAfter), l);
    }
  }

  /** Every certificate of a request that decodes without error gets both series at its label tuple. */
  lemma ExportedCertificate(env: Env, s: Store, data: Bytes, certRequest: string, namespace: string, x: CertMetric)
    requires env.Valid()
    requires DecodeSpec(env, data, "", NoExclusions).err == None
    requires x in DecodeSpec(env, data, "", NoExclusions).metrics
    ensures var after := Apply(s, ExportSpec(env, data, certRequest, namespace).samples);
      && Lookup(after, CertRequestExpiry, [x.issuer, x.cn, certRequest, namespace]).Some?
      && Lookup(after, CertRequestNotAfter, [x.issuer, x.cn, certRequest, namespace]).Some?
  {
    ExportedVisible(s, DecodeSpec(env, data, "", NoExclusions), CertRequestLabels(certRequest, namespace),
                    CertRequestExpiry, Some(CertRequestNotAfter), x);
  }
}
