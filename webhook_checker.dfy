/**
 * `PeriodicWebhookChecker`: each tick resets the webhook gauges, then checks
 * the mutating and then the validating webhook configurations. A check lists
 * its configurations (stopping at the first failed request, which adds one to
 * `error_total` and ends that check), keeps those the annotation selectors
 * admit, and exports the CA bundle of every webhook entry that has one.
 */
module WebhookCheck {
  import opened Base
  import opened Metrics
  import opened CertHelpers
  import opened ExportCommon
  import opened WebhookExport
  import opened Kube

  datatype Webhook = Webhook(name: string, caBundle: Bytes)

  datatype WebhookConfiguration = WebhookConfiguration(name: string, annotations: map<string, string>, webhooks: seq<Webhook>)

  datatype Kind = Mutating | Validating

  /** The type label each kind of configuration exports with. */
  function TypeName(kind: Kind): (r: string)
    ensures r == (if kind == Mutating then "mutatingwebhookconfiguration" else "validatingwebhookconfiguration")
  {
    match kind
    case Mutating => "mutatingwebhookconfiguration"
    case Validating => "validatingwebhookconfiguration"
  }

  /** One export call: the CA bundle, the type label, the configuration's name, the webhook entry's name. */
  datatype Job = Job(caBundle: Bytes, typeName: string, configName: string, webhookName: string)

  /** The export calls for the entries of one configuration: those with a non-empty CA bundle. */
  function EntryJobs(kind: Kind, configName: string, webhooks: seq<Webhook>): seq<Job>
    decreases |webhooks|
  {
    if webhooks == [] then []
    else
      var w := webhooks[|webhooks| - 1];
      EntryJobs(kind, configName, webhooks[..|webhooks| - 1])
      + (if |w.caBundle| > 0 then [Job(w.caBundle, TypeName(kind), configName, w.name)] else [])
  }

  /** The export calls for the listed configurations of one kind. */
  ghost function ConfigJobs(annotationSelectors: seq<string>, kind: Kind, configs: seq<WebhookConfiguration>): seq<Job>
    decreases |configs|
  {
    if configs == [] then []
    else
      var c := configs[|configs| - 1];
      ConfigJobs(annotationSelectors, kind, configs[..|configs| - 1])
      + (if AnnotationsMatch(annotationSelectors, c.annotations) then EntryJobs(kind, c.name, c.webhooks) else [])
  }

  /** The export calls of one check: none when listing failed. */
  ghost function CheckJobs(annotationSelectors: seq<string>, kind: Kind, listed: Result<seq<WebhookConfiguration>>): seq<Job> {
    if listed.Fail? then [] else ConfigJobs(annotationSelectors, kind, listed.value)
  }

  /** What the exporter does with each call, in order. */
  ghost function Outcomes(env: Env, jobs: seq<Job>): (outs: seq<ExportOutcome>)
    requires env.Valid()
    ensures |outs| == |jobs|
    decreases |jobs|
  {
    if jobs == [] then []
    else
      var j := jobs[|jobs| - 1];
      Outcomes(env, jobs[..|jobs| - 1]) + [ExportSpec(env, j.caBundle, j.typeName, j.configName, j.webhookName)]
  }

  lemma {:induction false} OutcomesAppend(env: Env, a: seq<Job>, b: seq<Job>)
    requires env.Valid()
    ensures Outcomes(env, a + b) == Outcomes(env, a) + Outcomes(env, b)
    decreases |b|
  {
    if b == [] {
      assert a + b == a;
    } else {
      var b' := b[..|b| - 1];
      assert (a + b)[..|a + b| - 1] == a + b';
      OutcomesAppend(env, a, b');
    }
  }

  lemma EntryJobsStep(kind: Kind, configName: string, webhooks: seq<Webhook>, k: nat)
    requires k < |webhooks|
    ensures EntryJobs(kind, configName, webhooks[..k + 1])
         == EntryJobs(kind, configName, webhooks[..k])
          + (if |webhooks[k].caBundle| > 0 then [Job(webhooks[k].caBundle, TypeName(kind), configName, webhooks[k].name)] else [])
  {
    assert webhooks[..k + 1][..k] == webhooks[..k];
  }

  lemma ConfigJobsStep(annotationSelectors: seq<string>, kind: Kind, configs: seq<WebhookConfiguration>, i: nat)
    requires i < |configs|
    ensures ConfigJobs(annotationSelectors, kind, configs[..i + 1])
         == ConfigJobs(annotationSelectors, kind, configs[..i])
          + (if AnnotationsMatch(annotationSelectors, configs[i].annotations)
             then EntryJobs(kind, configs[i].name, configs[i].webhooks) else [])
  {
    assert configs[..i + 1][..i] == configs[..i];
  }

  class PeriodicWebhookChecker {
    const period: nat
    const labelSelectors: seq<string>
    const kubeconfigPath: string
    const annotationSelectors: seq<string>
    const exporter: WebhookExporter
    /** The `List` calls of the admission-registration client, by label selector (`None`: unfiltered). */
    const listMutating: Option<string> -> Result<seq<WebhookConfiguration>>
    const listValidating: Option<string> -> Result<seq<WebhookConfiguration>>

    /** `NewWebhookChecker`: every argument is kept as given. */
    constructor (period: nat, labelSelectors: seq<string>, annotationSelectors: seq<string>, kubeconfigPath: string,
                 e: WebhookExporter, listMutating: Option<string> -> Result<seq<WebhookConfiguration>>,
                 listValidating: Option<string> -> Result<seq<WebhookConfiguration>>)
      ensures this.period == period && this.labelSelectors == labelSelectors
      ensures this.annotationSelectors == annotationSelectors && this.kubeconfigPath == kubeconfigPath
      ensures this.exporter == e && this.listMutating == listMutating && this.listValidating == listValidating
    {
      this.period := period;
      this.labelSelectors := labelSelectors;
      this.annotationSelectors := annotationSelectors;
      this.kubeconfigPath := kubeconfigPath;
      this.exporter := e;
      this.listMutating := listMutating;
      this.listValidating := listValidating;
    }

    function Lister(kind: Kind): Option<string> -> Result<seq<WebhookConfiguration>> {
      if kind == Mutating then listMutating else listValidating
    }

    /** The body of the entry loop: a webhook entry with a CA bundle is exported; an export error adds one to `error_total`. */
    method ExportEntry(kind: Kind, configName: string, w: Webhook) returns (ghost more: seq<Job>)
      requires exporter.env.Valid()
      modifies exporter.reg
      ensures more == (if |w.caBundle| > 0 then [Job(w.caBundle, TypeName(kind), configName, w.name)] else [])
      ensures exporter.reg.store == Apply(old(exporter.reg.store), AllSamples(Outcomes(exporter.env, more)))
      ensures exporter.reg.errorTotal == old(exporter.reg.errorTotal) + FailureCount(Outcomes(exporter.env, more))
    {
      more := [];
      if |w.caBundle| == 0 {
        return;
      }
      var job := Job(w.caBundle, TypeName(kind), configName, w.name);
      ExportStep(old(exporter.reg.store), [], ExportSpec(exporter.env, job.caBundle, job.typeName, job.configName, job.webhookName));
      var err := exporter.ExportMetrics(w.caBundle, TypeName(kind), configName, w.name);
      if err.Some? {
        exporter.reg.IncError();
      }
      more := [job];
      assert Outcomes(exporter.env, more) == [ExportSpec(exporter.env, job.caBundle, job.typeName, job.configName, job.webhookName)];
    }

    /** Exports the entries of one configuration with a CA bundle; an export error adds one to `error_total`. */
    method ExportEntries(kind: Kind, c: WebhookConfiguration) returns (ghost jobs: seq<Job>)
      requires exporter.env.Valid()
      modifies exporter.reg
      ensures jobs == EntryJobs(kind, c.name, c.webhooks)
      ensures exporter.reg.store == Apply(old(exporter.reg.store), AllSamples(Outcomes(exporter.env, jobs)))
      ensures exporter.reg.errorTotal == old(exporter.reg.errorTotal) + FailureCount(Outcomes(exporter.env, jobs))
    {
      var env := exporter.env;
      var reg := exporter.reg;
      jobs := [];
      for k := 0 to |c.webhooks|
        invariant jobs == EntryJobs(kind, c.name, c.webhooks[..k])
        invariant reg.store == Apply(old(reg.store), AllSamples(Outcomes(env, jobs)))
        invariant reg.errorTotal == old(reg.errorTotal) + FailureCount(Outcomes(env, jobs))
      {
        EntryJobsStep(kind, c.name, c.webhooks, k);
        ghost var more := ExportEntry(kind, c.name, c.webhooks[k]);
        OutcomesAppend(env, jobs, more);
        ExportRuns(old(reg.store), Outcomes(env, jobs), Outcomes(env, more));
        jobs := jobs + more;
      }
      assert c.webhooks[..|c.webhooks|] == c.webhooks;
    }

    /** `checkMutatingWebhook` and `checkValidatingWebhook`, which differ only in the kind. */
    method Check(kind: Kind) returns (ghost jobs: seq<Job>)
      requires exporter.env.Valid()
      modifies exporter.reg
      ensures jobs == CheckJobs(annotationSelectors, kind, Listed(Lister(kind), labelSelectors))
      ensures exporter.reg.store == Apply(old(exporter.reg.store), AllSamples(Outcomes(exporter.env, jobs)))
      ensures exporter.reg.errorTotal == old(exporter.reg.errorTotal)
        + (if Listed(Lister(kind), labelSelectors).Fail? then 1 else 0) + FailureCount(Outcomes(exporter.env, jobs))
    {
      var env := exporter.env;
      var reg := exporter.reg;
      var listed := ListAll(Lister(kind), labelSelectors);
      if listed.Fail? {
        reg.IncError();
        jobs := [];
        return;
      }
      var configs := listed.value;
      jobs := [];
      for i := 0 to |configs|
        invariant jobs == ConfigJobs(annotationSelectors, kind, configs[..i])
        invariant reg.store == Apply(old(reg.store), AllSamples(Outcomes(env, jobs)))
        invariant reg.errorTotal == old(reg.errorTotal) + FailureCount(Outcomes(env, jobs))
      {
        var c := configs[i];
        ConfigJobsStep(annotationSelectors, kind, configs, i);
        var admitted := MatchesAnnotations(annotationSelectors, c.annotations);
        if !admitted {
          continue;
        }
        ghost var more := ExportEntries(kind, c);
        OutcomesAppend(env, jobs, more);
        ExportRuns(old(reg.store), Outcomes(env, jobs), Outcomes(env, more));
        jobs := jobs + more;
      }
      assert configs[..|configs|] == configs;
    }

    /** One tick: reset the webhook gauges, check the mutating kind, then the validating kind. */
    method Tick() returns (ghost mutating: seq<Job>, ghost validating: seq<Job>)
      requires exporter.env.Valid()
      modifies exporter.reg
      ensures mutating == CheckJobs(annotationSelectors, Mutating, Listed(listMutating, labelSelectors))
      ensures validating == CheckJobs(annotationSelectors, Validating, Listed(listValidating, labelSelectors))
      ensures exporter.reg.store == Apply(ResetStore(old(exporter.reg.store)), AllSamples(Outcomes(exporter.env, mutating + validating)))
      ensures exporter.reg.errorTotal == old(exporter.reg.errorTotal)
        + (if Listed(listMutating, labelSelectors).Fail? then 1 else 0)
        + (if Listed(listValidating, labelSelectors).Fail? then 1 else 0)
        + FailureCount(Outcomes(exporter.env, mutating + validating))
    {
      exporter.ResetMetrics();
      ghost var s0 := exporter.reg.store;
      mutating := Check(Mutating);
      validating := Check(Validating);
      OutcomesAppend(exporter.env, mutating, validating);
      ExportRuns(s0, Outcomes(exporter.env, mutating), Outcomes(exporter.env, validating));
    }
  }

  /**
   * An entry leads to an export call exactly when its CA bundle is
   * non-empty, and the call carries the kind's type label and both names.
   */
  lemma {:induction false} EntryExportedIff(kind: Kind, configName: string, webhooks: seq<Webhook>, j: Job)
    ensures j in EntryJobs(kind, configName, webhooks) <==>
      exists w :: w in webhooks && |w.caBundle| > 0 && j == Job(w.caBundle, TypeName(kind), configName, w.name)
    decreases |webhooks|
  {
    if webhooks != [] {
      var init := webhooks[..|webhooks| - 1];
      EntryExportedIff(kind, configName, init, j);
      assert webhooks == init + [webhooks[|webhooks| - 1]];
    }
  }

  /**
   * Every call of a check carries a non-empty CA bundle, the kind's type
   * label and the name of a listed configuration the annotation selectors admit.
   */
  lemma {:induction false} ConfigJobsShape(annotationSelectors: seq<string>, kind: Kind, configs: seq<WebhookConfiguration>, j: Job)
    requires j in ConfigJobs(annotationSelectors, kind, configs)
    ensures |j.caBundle| > 0 && j.typeName == TypeName(kind)
    ensures exists c :: c in configs && AnnotationsMatch(annotationSelectors, c.annotations) && c.name == j.configName
    decreases |configs|
  {
    var init := configs[..|configs| - 1];
    var c := configs[|configs| - 1];
    if j in ConfigJobs(annotationSelectors, kind, init) {
      ConfigJobsShape(annotationSelectors, kind, init, j);
      var c' :| c' in init && AnnotationsMatch(annotationSelectors, c'.annotations) && c'.name == j.configName;
      assert c' in configs;
    } else {
      EntryExportedIff(kind, c.name, c.webhooks, j);
    }
  }

  /** The two kinds carry different type labels. */
  lemma TypeNamesDistinct()
    ensures TypeName(Mutating) != TypeName(Validating)
  {
  }

  /**
   * A mutating and a validating export never write the same series, so one
   * kind's check cannot overwrite the other's, even for configurations and
   * webhook entries of the same names.
   */
  lemma KindsWriteApart(env: Env, m: Job, v: Job, a: Sample, b: Sample)
    requires env.Valid()
    requires m.typeName == TypeName(Mutating) && v.typeName == TypeName(Validating)
    requires a in ExportSpec(env, m.caBundle, m.typeName, m.configName, m.webhookName).samples
    requires b in ExportSpec(env, v.caBundle, v.typeName, v.configName, v.webhookName).samples
    ensures a.labels != b.labels
  {
    var dm := DecodeSpec(env, m.caBundle, "", NoExclusions);
    var dv := DecodeSpec(env, v.caBundle, "", NoExclusions);
    var lm := WebhookLabels(m.typeName, m.configName, m.webhookName);
    var lv := WebhookLabels(v.typeName, v.configName, v.webhookName);
    var i :| 0 <= i < |MetricSamples(dm.metrics, lm, WebhookExpiry, Some(WebhookNotAfter))|
      && MetricSamples(dm.metrics, lm, WebhookExpiry, Some(WebhookNotAfter))[i] == a;
    var k :| 0 <= k < |MetricSamples(dv.metrics, lv, WebhookExpiry, Some(WebhookNotAfter))|
      && MetricSamples(dv.metrics, lv, WebhookExpiry, Some(WebhookNotAfter))[k] == b;
    SamplesLabelled(dm.metrics, lm, WebhookExpiry, Some(WebhookNotAfter), i);
    SamplesLabelled(dv.metrics, lv, WebhookExpiry, Some(WebhookNotAfter), k);
    var x :| x in dm.metrics && a.labels == lm(x);
    var y :| y in dv.metrics && b.labels == lv(y);
    assert a.labels[0] == TypeName(Mutating) != TypeName(Validating) == b.labels[0];
  }

  /**
   * With label selectors, a failed request ends the check: nothing is
   * exported for that kind, not even the configurations listed before it.
   */
  lemma FailedSelectorExportsNothing(annotationSelectors: seq<string>, kind: Kind,
                                     list: Option<string> -> Result<seq<WebhookConfiguration>>, selectors: seq<string>, i: nat)
    requires i < |selectors| && list(Some(selectors[i])).Fail?
    ensures Listed(list, selectors).Fail?
    ensures CheckJobs(annotationSelectors, kind, Listed(list, selectors)) == []
  {
    SelectorWalkFirstFailure(list, selectors);
  }
}
