/**
 * `AwsExporter`: the certificates of one base64 value taken from an AWS
 * Secrets Manager secret, on the AWS expiry gauge only. The label tuple is
 * (secretName, key, issuer, cn), or (secretName, key, file, issuer, cn)
 * when the value itself is to be included.
 */
module AwsExport {
  import opened Base
  import opened Metrics
  import opened CertHelpers
  import opened ExportCommon

  function AwsLabels(file: string, secretName: string, key: string, includeFile: bool): Labeler {
    if includeFile then (x: CertMetric) => [secretName, key, file, x.issuer, x.cn]
    else (x: CertMetric) => [secretName, key, x.issuer, x.cn]
  }

  /** The value is base64-decoded, then decoded with the empty password and no exclusion globs. */
  ghost function ExportSpec(env: Env, file: string, secretName: string, key: string, includeFile: bool): ExportOutcome
    requires env.Valid()
  {
    Outcome(Base64Spec(env, file, "", NoExclusions), AwsLabels(file, secretName, key, includeFile), AwsExpiry, None)
  }

  /** `ResetMetrics`: the AWS family is emptied and no other family changes. */
  function ResetStore(s: Store): (r: Store)
    ensures Series(r, AwsExpiry) == map[]
    ensures forall f :: f != AwsExpiry ==> Series(r, f) == Series(s, f)
  {
    Cleared(s, AwsExpiry)
  }

  class AwsExporter {
    const reg: Registry
    const env: Env

    constructor (reg: Registry, env: Env)
      ensures this.reg == reg && this.env == env
    {
      this.reg := reg;
      this.env := env;
    }

    method ExportMetrics(file: string, secretName: string, key: string, awsIncludeFileInMetrics: bool)
      returns (err: Option<Err>)
      requires env.Valid()
      modifies reg
      ensures err == ExportSpec(env, file, secretName, key, awsIncludeFileInMetrics).err
      ensures reg.store == Apply(old(reg.store), ExportSpec(env, file, secretName, key, awsIncludeFileInMetrics).samples)
      ensures reg.errorTotal == old(reg.errorTotal)
    {
      var decoded := SecondsToExpiryFromCertAsBase64String(env, file, "", NoExclusions);
      if decoded.err.Some? {
        return decoded.err;
      }
      if !awsIncludeFileInMetrics {
        Publish(reg, decoded.metrics, AwsLabels(file, secretName, key, false), AwsExpiry, None);
      } else {
        Publish(reg, decoded.metrics, AwsLabels(file, secretName, key, true), AwsExpiry, None);
      }
      return None;
    }

    method ResetMetrics()
      modifies reg
      ensures reg.store == ResetStore(old(reg.store))
      ensures reg.errorTotal == old(reg.errorTotal)
    {
      reg.Reset(AwsExpiry);
    }
  }

  /** Each certificate gets an AWS series at the label tuple the flag selects. */
  lemma ExportedCertificate(env: Env, s: Store, file: string, secretName: string, key: string, includeFile: bool, x: CertMetric)
    requires env.Valid()
    requires Base64Spec(env, file, "", NoExclusions).err == None
    requires x in Base64Spec(env, file, "", NoExclusions).metrics
    ensures var after := Apply(s, ExportSpec(env, file, secretName, key, includeFile).samples);
      if includeFile then Lookup(after, AwsExpiry, [secretName, key, file, x.issuer, x.cn]).Some?
      else Lookup(after, AwsExpiry, [secretName, key, x.issuer, x.cn]).Some?
  {
    ExportedVisible(s, Base64Spec(env, file, "", NoExclusions), AwsLabels(file, secretName, key, includeFile), AwsExpiry, None, x);
  }

  /** Only the AWS expiry family is written. */
  lemma OnlyAwsFamily(env: Env, s: Store, file: string, secretName: string, key: string, includeFile: bool, f: Family)
    requires env.Valid()
    requires f != AwsExpiry
    ensures Series(Apply(s, ExportSpec(env, file, secretName, key, includeFile).samples), f) == Series(s, f)
  {
    var d := Base64Spec(env, file, "", NoExclusions);
    if d.err == None {
      ExportOnlyOwnFamilies(s, d.metrics, AwsLabels(file, secretName, key, includeFile), AwsExpiry, None, f);
    }
  }
}
