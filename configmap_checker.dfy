/**
 * `PeriodicConfigMapChecker`: each tick resets the ConfigMap gauges, lists
 * ConfigMaps per namespace and label selector, keeps those the annotation
 * selectors admit, and exports every data key some include glob matches and
 * no exclude glob matches.
 */
module ConfigMapCheck {
  import opened Base
  import opened Metrics
  import opened CertHelpers
  import opened ExportCommon
  import opened ConfigMapExport
  import opened Kube

  datatype ConfigMap = ConfigMap(name: string, namespace: string, annotations: map<string, string>, data: map<string, string>)

  /** One export call: the key's value as bytes, the key, the ConfigMap's name and namespace. */
  datatype Job = Job(data: Bytes, key: string, name: string, namespace: string)

  /** Some glob matches the name; a malformed glob counts as a miss. */
  ghost predicate AnyGlobMatches(m: Matcher, globs: seq<string>, name: string) {
    exists i :: 0 <= i < |globs| && m(globs[i], name) == Matched
  }

  /** The malformed globs the glob loop meets: those before the first match. */
  ghost function MalformedBeforeMatch(m: Matcher, globs: seq<string>, name: string): nat
    decreases |globs|
  {
    if globs == [] then 0
    else if m(globs[0], name) == Matched then 0
    else (if m(globs[0], name) == Malformed then 1 else 0) + MalformedBeforeMatch(m, globs[1..], name)
  }

  /**
   * One include or exclude loop over a data key: it ends at the first match,
   * and every malformed glob met before that adds one to `error_total`.
   */
  method MatchGlobList(reg: Registry, m: Matcher, globs: seq<string>, name: string) returns (matched: bool)
    modifies reg
    ensures matched == AnyGlobMatches(m, globs, name)
    ensures reg.errorTotal == old(reg.errorTotal) + MalformedBeforeMatch(m, globs, name)
    ensures reg.store == old(reg.store)
  {
    matched := false;
    var j := 0;
    while j < |globs|
      invariant 0 <= j <= |globs|
      invariant forall i :: 0 <= i < j ==> m(globs[i], name) != Matched
      invariant reg.errorTotal + MalformedBeforeMatch(m, globs[j..], name)
             == old(reg.errorTotal) + MalformedBeforeMatch(m, globs, name)
      invariant reg.store == old(reg.store)
      invariant !matched
    {
      assert globs[j..][0] == globs[j] && globs[j..][1..] == globs[j + 1..];
      var outcome := m(globs[j], name);
      matched := outcome == Matched;
      if outcome == Malformed {
        reg.IncError();
        j := j + 1;
        continue;
      }
      if matched {
        break;
      }
      j := j + 1;
    }
    assert globs == globs[..j] + globs[j..];
  }

  /** A data key is exported: an include glob matches it and no exclude glob does. */
  ghost predicate KeySelected(m: Matcher, includes: seq<string>, excludes: seq<string>, key: string) {
    AnyGlobMatches(m, includes, key) && !AnyGlobMatches(m, excludes, key)
  }

  /** The export calls for the keys of one ConfigMap, in the order they are visited. */
  ghost function KeyJobs(env: Env, includes: seq<string>, excludes: seq<string>, cm: ConfigMap, keys: seq<string>): seq<Job>
    decreases |keys|
  {
    if keys == [] then []
    else
      var k := keys[|keys| - 1];
      KeyJobs(env, includes, excludes, cm, keys[..|keys| - 1])
      + (if k in cm.data && KeySelected(env.pathMatch, includes, excludes, k) then [Job(env.utf8(cm.data[k]), k, cm.name, cm.namespace)] else [])
  }

  /** The malformed-glob errors the keys of one ConfigMap add. */
  ghost function KeyErrors(m: Matcher, includes: seq<string>, excludes: seq<string>, keys: seq<string>): nat
    decreases |keys|
  {
    if keys == [] then 0
    else
      var k := keys[|keys| - 1];
      KeyErrors(m, includes, excludes, keys[..|keys| - 1]) + MalformedBeforeMatch(m, includes, k) + MalformedBeforeMatch(m, excludes, k)
  }

  /** `keys` is the visiting order of the ConfigMap's data: every key once. */
  ghost predicate VisitOrder(cm: ConfigMap, keys: seq<string>) {
    Enumerates(keys, cm.data.Keys)
  }

  /** The export calls one ConfigMap leads to: none unless the annotation selectors admit it. */
  ghost function ConfigMapJobs(env: Env, annotationSelectors: seq<string>, includes: seq<string>, excludes: seq<string>,
                               cm: ConfigMap, keys: seq<string>): seq<Job>
  {
    if AnnotationsMatch(annotationSelectors, cm.annotations) then KeyJobs(env, includes, excludes, cm, keys) else []
  }

  ghost function ConfigMapErrors(m: Matcher, annotationSelectors: seq<string>, includes: seq<string>, excludes: seq<string>,
                                 cm: ConfigMap, keys: seq<string>): nat
  {
    if AnnotationsMatch(annotationSelectors, cm.annotations) then KeyErrors(m, includes, excludes, keys) else 0
  }

  /** The export calls of a tick, ConfigMap by ConfigMap. */
  ghost function TickJobs(env: Env, annotationSelectors: seq<string>, includes: seq<string>, excludes: seq<string>,
                          cms: seq<ConfigMap>, orders: seq<seq<string>>): seq<Job>
    requires |orders| == |cms|
    decreases |cms|
  {
    if cms == [] then []
    else
      var n := |cms| - 1;
      TickJobs(env, annotationSelectors, includes, excludes, cms[..n], orders[..n])
      + ConfigMapJobs(env, annotationSelectors, includes, excludes, cms[n], orders[n])
  }

  ghost function TickErrors(m: Matcher, annotationSelectors: seq<string>, includes: seq<string>, excludes: seq<string>,
                            cms: seq<ConfigMap>, orders: seq<seq<string>>): nat
    requires |orders| == |cms|
    decreases |cms|
  {
    if cms == [] then 0
    else
      var n := |cms| - 1;
      TickErrors(m, annotationSelectors, includes, excludes, cms[..n], orders[..n])
      + ConfigMapErrors(m, annotationSelectors, includes, excludes, cms[n], orders[n])
  }

  /** What the exporter does with each call, in order. */
  ghost function Outcomes(env: Env, jobs: seq<Job>): (outs: seq<ExportOutcome>)
    requires env.Valid()
    ensures |outs| == |jobs|
    decreases |jobs|
  {
    if jobs == [] then []
    else
      var j := jobs[|jobs| - 1];
      Outcomes(env, jobs[..|jobs| - 1]) + [ExportSpec(env, j.data, j.key, j.name, j.namespace)]
  }

  lemma {:induction false} OutcomesAppend(env: Env, a: seq<Job>, b: seq<Job>)
    requires env.Valid()
    ensures Outcomes(env, a + b) == Outcomes(env, a) + Outcomes(env, b)
    decreases |b|
  {
    if b == [] {
      assert a + b == a;
    } else {
      var b' := b[..|b| - 1];
      assert (a + b)[..|a + b| - 1] == a + b';
      OutcomesAppend(env, a, b');
    }
  }

  class PeriodicConfigMapChecker {
    const period: nat
    const labelSelectors: seq<string>
    const kubeconfigPath: string
    const annotationSelectors: seq<string>
    const namespaces: seq<string>
    const exporter: ConfigMapExporter
    const includeConfigMapsDataGlobs: seq<string>
    const excludeConfigMapsDataGlobs: seq<string>
    /** The ConfigMap `List` call of the Kubernetes client. */
    const list: ListCall -> Result<seq<ConfigMap>>

    /** `NewConfigMapChecker`: every argument is kept as given. */
    constructor (period: nat, labelSelectors: seq<string>, includeConfigMapsDataGlobs: seq<string>,
                 excludeConfigMapsDataGlobs: seq<string>, annotationSelectors: seq<string>, namespaces: seq<string>,
                 kubeconfigPath: string, e: ConfigMapExporter, list: ListCall -> Result<seq<ConfigMap>>)
      ensures this.period == period && this.labelSelectors == labelSelectors
      ensures this.includeConfigMapsDataGlobs == includeConfigMapsDataGlobs
      ensures this.excludeConfigMapsDataGlobs == excludeConfigMapsDataGlobs
      ensures this.annotationSelectors == annotationSelectors && this.namespaces == namespaces
      ensures this.kubeconfigPath == kubeconfigPath && this.exporter == e && this.list == list
    {
      this.period := period;
      this.labelSelectors := labelSelectors;
      this.annotationSelectors := annotationSelectors;
      this.namespaces := namespaces;
      this.kubeconfigPath := kubeconfigPath;
      this.exporter := e;
      this.includeConfigMapsDataGlobs := includeConfigMapsDataGlobs;
      this.excludeConfigMapsDataGlobs := excludeConfigMapsDataGlobs;
      this.list := list;
    }

    /** The body of the data-key loop for one key of a ConfigMap. */
    method ReviewKey(cm: ConfigMap, name: string) returns (ghost more: seq<Job>)
      requires exporter.env.Valid()
      requires name in cm.data
      modifies exporter.reg
      ensures more == (if KeySelected(exporter.env.pathMatch, includeConfigMapsDataGlobs, excludeConfigMapsDataGlobs, name)
                       then [Job(exporter.env.utf8(cm.data[name]), name, cm.name, cm.namespace)] else [])
      ensures exporter.reg.store == Apply(old(exporter.reg.store), AllSamples(Outcomes(exporter.env, more)))
      ensures exporter.reg.errorTotal == old(exporter.reg.errorTotal)
        + MalformedBeforeMatch(exporter.env.pathMatch, includeConfigMapsDataGlobs, name)
        + MalformedBeforeMatch(exporter.env.pathMatch, excludeConfigMapsDataGlobs, name)
        + FailureCount(Outcomes(exporter.env, more))
    {
      var env := exporter.env;
      var reg := exporter.reg;
      more := [];
      var included := MatchGlobList(reg, env.pathMatch, includeConfigMapsDataGlobs, name);
      var excluded := MatchGlobList(reg, env.pathMatch, excludeConfigMapsDataGlobs, name);
      if !included || excluded {
        return;
      }
      var job := Job(env.utf8(cm.data[name]), name, cm.name, cm.namespace);
      ExportStep(old(reg.store), [], ExportSpec(env, job.data, job.key, job.name, job.namespace));
      var err := exporter.ExportMetrics(job.data, job.key, job.name, job.namespace);
      if err.Some? {
        reg.IncError();
      }
      more := [job];
      assert Outcomes(env, more) == [ExportSpec(env, job.data, job.key, job.name, job.namespace)];
    }

    /** The body of the tick loop for one ConfigMap. */
    method ReviewConfigMap(cm: ConfigMap) returns (ghost keys: seq<string>, ghost jobs: seq<Job>)
      requires exporter.env.Valid()
      modifies exporter.reg
      ensures VisitOrder(cm, keys)
      ensures jobs == ConfigMapJobs(exporter.env, annotationSelectors, includeConfigMapsDataGlobs, excludeConfigMapsDataGlobs, cm, keys)
      ensures exporter.reg.store == Apply(old(exporter.reg.store), AllSamples(Outcomes(exporter.env, jobs)))
      ensures exporter.reg.errorTotal == old(exporter.reg.errorTotal)
        + ConfigMapErrors(exporter.env.pathMatch, annotationSelectors, includeConfigMapsDataGlobs, excludeConfigMapsDataGlobs, cm, keys)
        + FailureCount(Outcomes(exporter.env, jobs))
    {
      var env := exporter.env;
      var reg := exporter.reg;
      var includes := includeConfigMapsDataGlobs;
      var excludes := excludeConfigMapsDataGlobs;
      var names := Enumerate(cm.data.Keys);
      keys := names;
      var admitted := MatchesAnnotations(annotationSelectors, cm.annotations);
      if !admitted {
        jobs := [];
        return;
      }
      jobs := [];
      for j := 0 to |names|
        invariant jobs == KeyJobs(env, includes, excludes, cm, names[..j])
        invariant reg.store == Apply(old(reg.store), AllSamples(Outcomes(env, jobs)))
        invariant reg.errorTotal == old(reg.errorTotal) + KeyErrors(env.pathMatch, includes, excludes, names[..j])
          + FailureCount(Outcomes(env, jobs))
      {
        KeyStep(env, includes, excludes, cm, names, j);
        ghost var more := ReviewKey(cm, names[j]);
        OutcomesAppend(env, jobs, more);
        ExportRuns(old(reg.store), Outcomes(env, jobs), Outcomes(env, more));
        jobs := jobs + more;
      }
      assert names[..|names|] == names;
    }

    /** The review loop over the gathered ConfigMaps. */
    method ReviewAll(configMaps: seq<ConfigMap>) returns (ghost orders: seq<seq<string>>, ghost jobs: seq<Job>)
      requires exporter.env.Valid()
      modifies exporter.reg
      ensures |orders| == |configMaps| && forall i :: 0 <= i < |configMaps| ==> VisitOrder(configMaps[i], orders[i])
      ensures jobs == TickJobs(exporter.env, annotationSelectors, includeConfigMapsDataGlobs, excludeConfigMapsDataGlobs, configMaps, orders)
      ensures exporter.reg.store == Apply(old(exporter.reg.store), AllSamples(Outcomes(exporter.env, jobs)))
      ensures exporter.reg.errorTotal == old(exporter.reg.errorTotal)
        + TickErrors(exporter.env.pathMatch, annotationSelectors, includeConfigMapsDataGlobs, excludeConfigMapsDataGlobs, configMaps, orders)
        + FailureCount(Outcomes(exporter.env, jobs))
    {
      var env := exporter.env;
      var reg := exporter.reg;
      orders := [];
      jobs := [];
      for i := 0 to |configMaps|
        invariant |orders| == i && forall k :: 0 <= k < i ==> VisitOrder(configMaps[k], orders[k])
        invariant jobs == TickJobs(env, annotationSelectors, includeConfigMapsDataGlobs, excludeConfigMapsDataGlobs, configMaps[..i], orders)
        invariant reg.store == Apply(old(reg.store), AllSamples(Outcomes(env, jobs)))
        invariant reg.errorTotal == old(reg.errorTotal)
          + TickErrors(env.pathMatch, annotationSelectors, includeConfigMapsDataGlobs, excludeConfigMapsDataGlobs, configMaps[..i], orders)
          + FailureCount(Outcomes(env, jobs))
      {
        ghost var keys, more := ReviewConfigMap(configMaps[i]);
        TickStep(env, annotationSelectors, includeConfigMapsDataGlobs, excludeConfigMapsDataGlobs, configMaps, orders, keys);
        OutcomesAppend(env, jobs, more);
        ExportRuns(old(reg.store), Outcomes(env, jobs), Outcomes(env, more));
        orders := orders + [keys];
        jobs := jobs + more;
      }
      assert configMaps[..|configMaps|] == configMaps;
    }

    /**
     * One tick: reset the ConfigMap gauges, gather, then review every
     * ConfigMap. `items` are the gathered ConfigMaps, `orders` the order in
     * which each one's data keys were visited, `jobs` the export calls made.
     */
    method Tick() returns (ghost items: seq<ConfigMap>, ghost orders: seq<seq<string>>, ghost jobs: seq<Job>)
      requires exporter.env.Valid()
      modifies exporter.reg
      ensures items == Gathered(list, Calls(namespaces, labelSelectors))
      ensures |orders| == |items| && forall i :: 0 <= i < |items| ==> VisitOrder(items[i], orders[i])
      ensures jobs == TickJobs(exporter.env, annotationSelectors, includeConfigMapsDataGlobs, excludeConfigMapsDataGlobs, items, orders)
      ensures exporter.reg.store == Apply(ResetStore(old(exporter.reg.store)), AllSamples(Outcomes(exporter.env, jobs)))
      ensures exporter.reg.errorTotal == old(exporter.reg.errorTotal)
        + Failures(list, Calls(namespaces, labelSelectors))
        + TickErrors(exporter.env.pathMatch, annotationSelectors, includeConfigMapsDataGlobs, excludeConfigMapsDataGlobs, items, orders)
        + FailureCount(Outcomes(exporter.env, jobs))
    {
      exporter.ResetMetrics();
      var configMaps := Gather(exporter.reg, list, namespaces, labelSelectors);
      items := configMaps;
      orders, jobs := ReviewAll(configMaps);
    }
  }

  lemma KeyStep(env: Env, includes: seq<string>, excludes: seq<string>, cm: ConfigMap, keys: seq<string>, j: nat)
    requires j < |keys|
    ensures KeyJobs(env, includes, excludes, cm, keys[..j + 1]) == KeyJobs(env, includes, excludes, cm, keys[..j])
      + (if keys[j] in cm.data && KeySelected(env.pathMatch, includes, excludes, keys[j])
         then [Job(env.utf8(cm.data[keys[j]]), keys[j], cm.name, cm.namespace)] else [])
    ensures KeyErrors(env.pathMatch, includes, excludes, keys[..j + 1]) == KeyErrors(env.pathMatch, includes, excludes, keys[..j])
      + MalformedBeforeMatch(env.pathMatch, includes, keys[j]) + MalformedBeforeMatch(env.pathMatch, excludes, keys[j])
  {
    assert keys[..j + 1][..j] == keys[..j];
  }

  lemma TickStep(env: Env, annotationSelectors: seq<string>, includes: seq<string>, excludes: seq<string>,
                 cms: seq<ConfigMap>, orders: seq<seq<string>>, keys: seq<string>)
    requires |orders| < |cms|
    ensures TickJobs(env, annotationSelectors, includes, excludes, cms[..|orders| + 1], orders + [keys])
         == TickJobs(env, annotationSelectors, includes, excludes, cms[..|orders|], orders)
          + ConfigMapJobs(env, annotationSelectors, includes, excludes, cms[|orders|], keys)
    ensures TickErrors(env.pathMatch, annotationSelectors, includes, excludes, cms[..|orders| + 1], orders + [keys])
         == TickErrors(env.pathMatch, annotationSelectors, includes, excludes, cms[..|orders|], orders)
          + ConfigMapErrors(env.pathMatch, annotationSelectors, includes, excludes, cms[|orders|], keys)
  {
    var i := |orders|;
    assert cms[..i + 1][..i] == cms[..i];
    assert (orders + [keys])[..i] == orders;
  }

  /**
   * On a ConfigMap the annotation selectors admit, a data key leads to an
   * export call exactly when an include glob matches it and no exclude glob
   * does, and each call carries the key's own value.
   */
  lemma {:induction false} KeyExportedIff(env: Env, includes: seq<string>, excludes: seq<string>, cm: ConfigMap, keys: seq<string>, k: string)
    requires forall i :: 0 <= i < |keys| ==> keys[i] in cm.data
    ensures (exists j :: j in KeyJobs(env, includes, excludes, cm, keys) && j.key == k)
        <==> k in keys && KeySelected(env.pathMatch, includes, excludes, k)
    ensures forall j :: j in KeyJobs(env, includes, excludes, cm, keys) ==>
      j.key in cm.data && j.data == env.utf8(cm.data[j.key]) && j.name == cm.name && j.namespace == cm.namespace
    decreases |keys|
  {
    if keys != [] {
      var init := keys[..|keys| - 1];
      KeyExportedIff(env, includes, excludes, cm, init, k);
      assert keys == init + [keys[|keys| - 1]];
    }
  }

  /** With no include globs no data key of any ConfigMap is exported. */
  lemma {:induction false} NoIncludeGlobsNoExports(env: Env, annotationSelectors: seq<string>, excludes: seq<string>,
                                                   cms: seq<ConfigMap>, orders: seq<seq<string>>)
    requires |orders| == |cms|
    ensures TickJobs(env, annotationSelectors, [], excludes, cms, orders) == []
    decreases |cms|
  {
    if cms != [] {
      var n := |cms| - 1;
      NoIncludeGlobsNoExports(env, annotationSelectors, excludes, cms[..n], orders[..n]);
      NoIncludeKeyJobs(env, excludes, cms[n], orders[n]);
    }
  }

  lemma {:induction false} NoIncludeKeyJobs(env: Env, excludes: seq<string>, cm: ConfigMap, keys: seq<string>)
    ensures KeyJobs(env, [], excludes, cm, keys) == []
    decreases |keys|
  {
    if keys != [] {
      NoIncludeKeyJobs(env, excludes, cm, keys[..|keys| - 1]);
    }
  }

  /** The glob loop adds one error per malformed glob it meets, so never more than there are globs, and none without malformed ones. */
  lemma {:induction false} MalformedBound(m: Matcher, globs: seq<string>, name: string)
    ensures MalformedBeforeMatch(m, globs, name) <= |globs|
    ensures (forall i :: 0 <= i < |globs| ==> m(globs[i], name) != Malformed) ==> MalformedBeforeMatch(m, globs, name) == 0
    decreases |globs|
  {
    if globs != [] {
      MalformedBound(m, globs[1..], name);
      assert forall i :: 0 <= i < |globs| - 1 ==> globs[1..][i] == globs[i + 1];
    }
  }
}
