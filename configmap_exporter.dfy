/**
 * `ConfigMapExporter`: the certificates of one ConfigMap data value on the
 * configmap expiry and not-after gauges, labelled (key_name, issuer, cn,
 * configmap_name, configmap_namespace).
 */
module ConfigMapExport {
  import opened Base
  import opened Metrics
  import opened CertHelpers
  import opened ExportCommon

  function ConfigMapLabels(keyName: string, configMapName: string, configMapNamespace: string): Labeler {
    (x: CertMetric) => [keyName, x.issuer, x.cn, configMapName, configMapNamespace]
  }

  /** A data value is decoded with the empty password and no exclusion globs. */
  ghost function ExportSpec(env: Env, data: Bytes, keyName: string, configMapName: string, configMapNamespace: string): ExportOutcome
    requires env.Valid()
  {
    Outcome(DecodeSpec(env, data, "", NoExclusions), ConfigMapLabels(keyName, configMapName, configMapNamespace),
            ConfigMapExpiry, Some(ConfigMapNotAfter))
  }

  /** `ResetMetrics`: both configmap families are emptied and no other family changes. */
  function ResetStore(s: Store): (r: Store)
    ensures Series(r, ConfigMapExpiry) == map[] && Series(r, ConfigMapNotAfter) == map[]
    ensures forall f :: f != ConfigMapExpiry && f != ConfigMapNotAfter ==> Series(r, f) == Series(s, f)
  {
    Cleared(Cleared(s, ConfigMapExpiry), ConfigMapNotAfter)
  }

  class ConfigMapExporter {
    const reg: Registry
    const env: Env

    constructor (reg: Registry, env: Env)
      ensures this.reg == reg && this.env == env
    {
      this.reg := reg;
      this.env := env;
    }

    method ExportMetrics(bytes: Bytes, keyName: string, configMapName: string, configMapNamespace: string)
      returns (err: Option<Err>)
      requires env.Valid()
      modifies reg
      ensures err == ExportSpec(env, bytes, keyName, configMapName, configMapNamespace).err
      ensures reg.store == Apply(old(reg.store), ExportSpec(env, bytes, keyName, configMapName, configMapNamespace).samples)
      ensures reg.errorTotal == old(reg.errorTotal)
    {
      var decoded := SecondsToExpiryFromCertAsBytes(env, bytes, "", NoExclusions);
      if decoded.err.Some? {
        return decoded.err;
      }
      Publish(reg, decoded.metrics, ConfigMapLabels(keyName, configMapName, configMapNamespace),
              ConfigMapExpiry, Some(ConfigMapNotAfter));
      return None;
    }

    method ResetMetrics()
      modifies reg
      ensures reg.store == ResetStore(old(reg.store))
      ensures reg.errorTotal == old(reg.errorTotal)
    {
      reg.Reset(ConfigMapExpiry);
      reg.Reset(ConfigMapNotAfter);
    }
  }

  /** Every certificate of a value that decodes without error gets both series at its label tuple. */
  lemma ExportedCertificate(env: Env, s: Store, data: Bytes, keyName: string, configMapName: string, configMapNamespace: string, x: CertMetric)
    requires env.Valid()
    requires DecodeSpec(env, data, "", NoExclusions).err == None
    requires x in DecodeSpec(env, data, "", NoExclusions).metrics
    ensures var after := Apply(s, ExportSpec(env, data, keyName, configMapName, configMapNamespace).samples);
      && Lookup(after, ConfigMapExpiry, [keyName, x.issuer, x.cn, configMapName, configMapNamespace]).Some?
      && Lookup(after, ConfigMapNotAfter, [keyName, x.issuer, x.cn, configMapName, configMapNamespace]).Some?
  {
    ExportedVisible(s, DecodeSpec(env, data, "", NoExclusions), ConfigMapLabels(keyName, configMapName, configMapNamespace),
                    ConfigMapExpiry, Some(ConfigMapNotAfter), x);
  }
}
