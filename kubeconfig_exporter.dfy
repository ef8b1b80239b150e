/**
 * `KubeConfigExporter`: the certificates a kubeconfig file refers to, on
 * the kubeconfig expiry and not-after gauges, labelled (file, "cluster" or
 * "user", entry name, node name). Clusters are exported before users; each
 * entry's embedded data is preferred over a file reference; the first
 * entry that fails ends the export, keeping what was written before it.
 */
module KubeConfigExport {
  import opened Base
  import opened Metrics
  import opened CertHelpers
  import opened ExportCommon

  /** One cluster (its certificate authority) or one user (its client certificate). */
  datatype CertSource = CertSource(name: string, file: string, data: string)

  /** The parts of a parsed kubeconfig the exporter reads. */
  datatype KubeConfig = KubeConfig(clusters: seq<CertSource>, users: seq<CertSource>)

  datatype Section = Clusters | Users

  /** The path operations of Go's `path` package. */
  datatype PathOps = PathOps(dir: string -> string, join: (string, string) -> string)

  /** `path.IsAbs`. */
  predicate IsAbs(p: string) {
    |p| > 0 && p[0] == '/'
  }

  /** A relative reference is resolved against the kubeconfig file's directory. */
  function PathToFileFromKubeConfig(paths: PathOps, file: string, kubeConfigFile: string): (r: string)
    ensures IsAbs(file) ==> r == file
    ensures !IsAbs(file) ==> r == paths.join(paths.dir(kubeConfigFile), file)
  {
    if !IsAbs(file) then paths.join(paths.dir(kubeConfigFile), file) else file
  }

  /**
   * Where the kubeconfig file lives matters only through its directory, and
   * not at all for an absolute reference, which is used as written.
   */
  lemma PathResolution(paths: PathOps, file: string, kubeConfigFile: string, other: string)
    ensures IsAbs(file) ==> PathToFileFromKubeConfig(paths, file, kubeConfigFile) == file
    ensures IsAbs(file) || paths.dir(kubeConfigFile) == paths.dir(other) ==>
      PathToFileFromKubeConfig(paths, file, kubeConfigFile) == PathToFileFromKubeConfig(paths, file, other)
  {
  }

  function TypeLabel(section: Section): string {
    match section
    case Clusters => "cluster"
    case Users => "user"
  }

  function MissingCertificate(section: Section, name: string): Err {
    match section
    case Clusters => ClusterWithoutCertificate(name)
    case Users => UserWithoutCertificate(name)
  }

  /** Every certificate of an entry is written at the same label tuple. */
  function EntryLabels(file: string, section: Section, name: string, nodeName: string): Labeler {
    (x: CertMetric) => [file, TypeLabel(section), name, nodeName]
  }

  /** The certificates of one entry: from the embedded data if set, else from the referenced file. */
  ghost function EntryDecoded(env: Env, paths: PathOps, kubeFile: string, section: Section, e: CertSource): Decoded
    requires env.Valid()
  {
    if e.data != "" then Base64Spec(env, e.data, "", NoExclusions)
    else if e.file != "" then FileSpec(env, PathToFileFromKubeConfig(paths, e.file, kubeFile), "", NoExclusions)
    else Decoded([], Some(MissingCertificate(section, e.name)))
  }

  /** The entries of one section in order, stopping at the first error with the earlier samples kept. */
  ghost function SectionWalk(env: Env, paths: PathOps, kubeFile: string, nodeName: string, section: Section, es: seq<CertSource>): ExportOutcome
    requires env.Valid()
    decreases |es|
  {
    if es == [] then ExportOutcome([], None)
    else
      var p := SectionWalk(env, paths, kubeFile, nodeName, section, es[..|es| - 1]);
      if p.err.Some? then p
      else
        var e := es[|es| - 1];
        var d := EntryDecoded(env, paths, kubeFile, section, e);
        if d.err.Some? then ExportOutcome(p.samples, d.err)
        else ExportOutcome(p.samples + MetricSamples(d.metrics, EntryLabels(kubeFile, section, e.name, nodeName),
                                                     KubeConfigExpiry, Some(KubeConfigNotAfter)), None)
  }

  /** `ExportMetrics(file, nodeName)`. */
  ghost function ExportSpec(env: Env, paths: PathOps, parse: string -> Result<KubeConfig>, file: string, nodeName: string): ExportOutcome
    requires env.Valid()
  {
    match parse(file)
    case Fail(e) => ExportOutcome([], Some(e))
    case Ok(k) =>
      var c := SectionWalk(env, paths, file, nodeName, Clusters, k.clusters);
      if c.err.Some? then c
      else
        var u := SectionWalk(env, paths, file, nodeName, Users, k.users);
        ExportOutcome(c.samples + u.samples, u.err)
  }

  lemma {:induction false} SectionWalkStops(env: Env, paths: PathOps, kubeFile: string, nodeName: string, section: Section, es: seq<CertSource>, k: nat)
    requires env.Valid()
    requires k <= |es|
    requires SectionWalk(env, paths, kubeFile, nodeName, section, es[..k]).err.Some?
    ensures SectionWalk(env, paths, kubeFile, nodeName, section, es) == SectionWalk(env, paths, kubeFile, nodeName, section, es[..k])
    decreases |es|
  {
    if k < |es| {
      var init := es[..|es| - 1];
      assert init[..k] == es[..k];
      SectionWalkStops(env, paths, kubeFile, nodeName, section, init, k);
    } else {
      assert es[..k] == es;
    }
  }

  class KubeConfigExporter {
    const reg: Registry
    const env: Env
    const paths: PathOps
    const parse: string -> Result<KubeConfig>

    constructor (reg: Registry, env: Env, paths: PathOps, parse: string -> Result<KubeConfig>)
      ensures this.reg == reg && this.env == env && this.paths == paths && this.parse == parse
    {
      this.reg := reg;
      this.env := env;
      this.paths := paths;
      this.parse := parse;
    }

    method ExportMetrics(file: string, nodeName: string) returns (err: Option<Err>)
      requires env.Valid()
      modifies reg
      ensures err == ExportSpec(env, paths, parse, file, nodeName).err
      ensures reg.store == Apply(old(reg.store), ExportSpec(env, paths, parse, file, nodeName).samples)
      ensures reg.errorTotal == old(reg.errorTotal)
    {
      var k := parse(file);
      if k.Fail? {
        return Some(k.err);
      }
      ghost var s0 := reg.store;
      err := ExportSection(file, nodeName, Clusters, k.value.clusters);
      if err.Some? {
        return;
      }
      ghost var c := SectionWalk(env, paths, file, nodeName, Clusters, k.value.clusters);
      err := ExportSection(file, nodeName, Users, k.value.users);
      ApplyAppend(s0, c.samples, SectionWalk(env, paths, file, nodeName, Users, k.value.users).samples);
    }

    /** The certificates of one entry, as the body of either loop of `ExportMetrics` reads them. */
    method DecodeEntry(kubeFile: string, section: Section, e: CertSource) returns (d: Decoded)
      requires env.Valid()
      ensures d == EntryDecoded(env, paths, kubeFile, section, e)
    {
      if e.data != "" {
        d := SecondsToExpiryFromCertAsBase64String(env, e.data, "", NoExclusions);
      } else if e.file != "" {
        var certFile := PathToFileFromKubeConfig(paths, e.file, kubeFile);
        d := SecondsToExpiryFromCertAsFile(env, certFile, "", NoExclusions);
      } else {
        d := Decoded([], Some(MissingCertificate(section, e.name)));
      }
    }

    /** One of the two loops of `ExportMetrics`. */
    method ExportSection(file: string, nodeName: string, section: Section, es: seq<CertSource>) returns (err: Option<Err>)
      requires env.Valid()
      modifies reg
      ensures err == SectionWalk(env, paths, file, nodeName, section, es).err
      ensures reg.store == Apply(old(reg.store), SectionWalk(env, paths, file, nodeName, section, es).samples)
      ensures reg.errorTotal == old(reg.errorTotal)
    {
      for i := 0 to |es|
        invariant SectionWalk(env, paths, file, nodeName, section, es[..i]).err == None
        invariant reg.store == Apply(old(reg.store), SectionWalk(env, paths, file, nodeName, section, es[..i]).samples)
        invariant reg.errorTotal == old(reg.errorTotal)
      {
        var e := es[i];
        assert es[..i + 1][..i] == es[..i];
        ghost var before := SectionWalk(env, paths, file, nodeName, section, es[..i]).samples;
        var decoded := DecodeEntry(file, section, e);
        if decoded.err.Some? {
          SectionWalkStops(env, paths, file, nodeName, section, es, i + 1);
          return decoded.err;
        }
        Publish(reg, decoded.metrics, EntryLabels(file, section, e.name, nodeName), KubeConfigExpiry, Some(KubeConfigNotAfter));
        ApplyAppend(old(reg.store), before,
          MetricSamples(decoded.metrics, EntryLabels(file, section, e.name, nodeName), KubeConfigExpiry, Some(KubeConfigNotAfter)));
      }
      assert es[..|es|] == es;
      return None;
    }
  }

  /** A kubeconfig that does not parse returns the error and writes nothing. */
  lemma ParseFailureWritesNothing(env: Env, paths: PathOps, parse: string -> Result<KubeConfig>, file: string, nodeName: string)
    requires env.Valid()
    requires parse(file).Fail?
    ensures ExportSpec(env, paths, parse, file, nodeName) == ExportOutcome([], Some(parse(file).err))
  {
  }

  /** The embedded data wins over a file reference; the file is used only when there is no data. */
  lemma DataPreferred(env: Env, paths: PathOps, kubeFile: string, section: Section, e: CertSource)
    requires env.Valid()
    ensures e.data != "" ==> EntryDecoded(env, paths, kubeFile, section, e) == Base64Spec(env, e.data, "", NoExclusions)
    ensures e.data == "" && e.file != "" ==>
      EntryDecoded(env, paths, kubeFile, section, e)
        == FileSpec(env, PathToFileFromKubeConfig(paths, e.file, kubeFile), "", NoExclusions)
    ensures e.data == "" && e.file == "" ==>
      EntryDecoded(env, paths, kubeFile, section, e).err == Some(MissingCertificate(section, e.name))
  {
  }

  /** An entry that fails ends the walk: the prefix's samples and that entry's error, whatever follows. */
  lemma FirstFailureStops(env: Env, paths: PathOps, kubeFile: string, nodeName: string, section: Section, es: seq<CertSource>, i: nat)
    requires env.Valid()
    requires i < |es|
    requires SectionWalk(env, paths, kubeFile, nodeName, section, es[..i]).err == None
    requires EntryDecoded(env, paths, kubeFile, section, es[i]).err.Some?
    ensures SectionWalk(env, paths, kubeFile, nodeName, section, es)
         == ExportOutcome(SectionWalk(env, paths, kubeFile, nodeName, section, es[..i]).samples,
                          EntryDecoded(env, paths, kubeFile, section, es[i]).err)
  {
    assert es[..i + 1][..i] == es[..i];
    SectionWalkStops(env, paths, kubeFile, nodeName, section, es, i + 1);
  }

  /** A sample on a kubeconfig family whose labels name the file, the section and the node. */
  ghost predicate SectionSample(x: Sample, kubeFile: string, section: Section, nodeName: string) {
    && (x.family == KubeConfigExpiry || x.family == KubeConfigNotAfter)
    && |x.labels| == 4 && x.labels[0] == kubeFile && x.labels[1] == TypeLabel(section) && x.labels[3] == nodeName
  }

  ghost predicate SectionSamples(xs: seq<Sample>, kubeFile: string, section: Section, nodeName: string) {
    forall j :: 0 <= j < |xs| ==> SectionSample(xs[j], kubeFile, section, nodeName)
  }

  /** Samples all written at the label tuple `l` of a kubeconfig family. */
  ghost predicate SamplesAt(xs: seq<Sample>, l: Labels) {
    forall j :: 0 <= j < |xs| ==> (xs[j].family == KubeConfigExpiry || xs[j].family == KubeConfigNotAfter) && xs[j].labels == l
  }

  /** Every sample of a section carries the section's type label, the kubeconfig file name and the node name. */
  lemma {:induction false} SectionLabels(env: Env, paths: PathOps, kubeFile: string, nodeName: string, section: Section, es: seq<CertSource>)
    requires env.Valid()
    ensures SectionSamples(SectionWalk(env, paths, kubeFile, nodeName, section, es).samples, kubeFile, section, nodeName)
    decreases |es|
  {
    if es != [] {
      var init := es[..|es| - 1];
      SectionLabels(env, paths, kubeFile, nodeName, section, init);
      var e := es[|es| - 1];
      var d := EntryDecoded(env, paths, kubeFile, section, e);
      var p := SectionWalk(env, paths, kubeFile, nodeName, section, init);
      if p.err == None && d.err == None {
        var l := [kubeFile, TypeLabel(section), e.name, nodeName];
        var tail := MetricSamples(d.metrics, EntryLabels(kubeFile, section, e.name, nodeName), KubeConfigExpiry, Some(KubeConfigNotAfter));
        EntrySamplesLabels(d.metrics, kubeFile, section, e.name, nodeName);
        assert SectionSamples(tail, kubeFile, section, nodeName) by {
          forall j | 0 <= j < |tail|
            ensures SectionSample(tail[j], kubeFile, section, nodeName)
          {
            assert tail[j].labels == l;
          }
        }
        SectionSamplesAppend(p.samples, tail, kubeFile, section, nodeName);
      }
    }
  }

  lemma SectionSamplesAppend(a: seq<Sample>, b: seq<Sample>, kubeFile: string, section: Section, nodeName: string)
    requires SectionSamples(a, kubeFile, section, nodeName) && SectionSamples(b, kubeFile, section, nodeName)
    ensures SectionSamples(a + b, kubeFile, section, nodeName)
  {
    forall j | 0 <= j < |a + b|
      ensures SectionSample((a + b)[j], kubeFile, section, nodeName)
    {
      if j < |a| {
        assert (a + b)[j] == a[j];
      } else {
        assert (a + b)[j] == b[j - |a|];
      }
    }
  }

  lemma SamplesAtAppend(a: seq<Sample>, b: seq<Sample>, l: Labels)
    requires SamplesAt(a, l) && SamplesAt(b, l)
    ensures SamplesAt(a + b, l)
  {
    forall j | 0 <= j < |a + b|
      ensures (a + b)[j].labels == l
    {
      if j < |a| {
        assert (a + b)[j] == a[j];
      } else {
        assert (a + b)[j] == b[j - |a|];
      }
    }
  }

  /** All certificates of one entry are written at the entry's single label tuple, so the last one wins. */
  lemma {:induction false} EntrySamplesLabels(ms: seq<CertMetric>, kubeFile: string, section: Section, name: string, nodeName: string)
    ensures SamplesAt(MetricSamples(ms, EntryLabels(kubeFile, section, name, nodeName), KubeConfigExpiry, Some(KubeConfigNotAfter)),
                      [kubeFile, TypeLabel(section), name, nodeName])
    decreases |ms|
  {
    if ms != [] {
      var l := [kubeFile, TypeLabel(section), name, nodeName];
      var labelsOf := EntryLabels(kubeFile, section, name, nodeName);
      EntrySamplesLabels(ms[..|ms| - 1], kubeFile, section, name, nodeName);
      var tail := MetricSample(ms[|ms| - 1], labelsOf, KubeConfigExpiry, Some(KubeConfigNotAfter));
      assert labelsOf(ms[|ms| - 1]) == l;
      assert SamplesAt(tail, l);
      SamplesAtAppend(MetricSamples(ms[..|ms| - 1], labelsOf, KubeConfigExpiry, Some(KubeConfigNotAfter)), tail, l);
    }
  }

  /** All cluster samples are written before any user sample; users are not looked at after a cluster fails. */
  lemma ClustersBeforeUsers(env: Env, paths: PathOps, parse: string -> Result<KubeConfig>, file: string, nodeName: string)
    requires env.Valid()
    requires parse(file).Ok?
    ensures var k := parse(file).value;
      var c := SectionWalk(env, paths, file, nodeName, Clusters, k.clusters);
      var r := ExportSpec(env, paths, parse, file, nodeName);
      && c.samples <= r.samples
      && (c.err.Some? ==> r == c)
  {
  }
}
