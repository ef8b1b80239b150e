/**
 * `WebhookExporter`: the certificates of an admission webhook's CA bundle
 * on the webhook expiry and not-after gauges, labelled (type_name, issuer,
 * cn, webhook_name, admission_review_version_name).
 */
module WebhookExport {
  import opened Base
  import opened Metrics
  import opened CertHelpers
  import opened ExportCommon

  function WebhookLabels(typeName: string, webhookName: string, versionName: string): Labeler {
    (x: CertMetric) => [typeName, x.issuer, x.cn, webhookName, versionName]
  }

  /** A CA bundle is decoded with the empty password and no exclusion globs. */
  ghost function ExportSpec(env: Env, bundle: Bytes, typeName: string, webhookName: string, versionName: string): ExportOutcome
    requires env.Valid()
  {
    Outcome(DecodeSpec(env, bundle, "", NoExclusions), WebhookLabels(typeName, webhookName, versionName),
            WebhookExpiry, Some(WebhookNotAfter))
  }

  /** `ResetMetrics`: both webhook families are emptied and no other family changes. */
  function ResetStore(s: Store): (r: Store)
    ensures Series(r, WebhookExpiry) == map[] && Series(r, WebhookNotAfter) == map[]
    ensures forall f :: f != WebhookExpiry && f != WebhookNotAfter ==> Series(r, f) == Series(s, f)
  {
    Cleared(Cleared(s, WebhookExpiry), WebhookNotAfter)
  }

  class WebhookExporter {
    const reg: Registry
    const env: Env

    constructor (reg: Registry, env: Env)
      ensures this.reg == reg && this.env == env
    {
      this.reg := reg;
      this.env := env;
    }

    method ExportMetrics(bytes: Bytes, typeName: string, webhookName: string, admissionReviewVersionName: string)
      returns (err: Option<Err>)
      requires env.Valid()
      modifies reg
      ensures err == ExportSpec(env, bytes, typeName, webhookName, admissionReviewVersionName).err
      ensures reg.store == Apply(old(reg.store), ExportSpec(env, bytes, typeName, webhookName, admissionReviewVersionName).samples)
      ensures reg.errorTotal == old(reg.errorTotal)
    {
      var decoded := SecondsToExpiryFromCertAsBytes(env, bytes, "", NoExclusions);
      if decoded.err.Some? {
        return decoded.err;
      }
      Publish(reg, decoded.metrics, WebhookLabels(typeName, webhookName, admissionReviewVersionName),
              WebhookExpiry, Some(WebhookNotAfter));
      return None;
    }

    method ResetMetrics()
      modifies reg
      ensures reg.store == ResetStore(old(reg.store))
      ensures reg.errorTotal == old(reg.errorTotal)
    {
      reg.Reset(WebhookExpiry);
      reg.Reset(WebhookNotAfter);
    }
  }

  /** Every certificate of a bundle that decodes without error gets both series at its label tuple. */
  lemma ExportedCertificate(env: Env, s: Store, bundle: Bytes, typeName: string, webhookName: string, versionName: string, x: CertMetric)
    requires env.Valid()
    requires DecodeSpec(env, bundle, "", NoExclusions).err == None
    requires x in DecodeSpec(env, bundle, "", NoExclusions).metrics
    ensures var after := Apply(s, ExportSpec(env, bundle, typeName, webhookName, versionName).samples);
      && Lookup(after, WebhookExpiry, [typeName, x.issuer, x.cn, webhookName, versionName]).Some?
      && Lookup(after, WebhookNotAfter, [typeName, x.issuer, x.cn, webhookName, versionName]).Some?
  {
    ExportedVisible(s, DecodeSpec(env, bundle, "", NoExclusions), WebhookLabels(typeName, webhookName, versionName),
                    WebhookExpiry, Some(WebhookNotAfter), x);
  }
}
