/**
 * `PeriodicCertRequestChecker`: each tick calls the exporter's reset (which
 * clears the Secret gauges, not its own), lists requests per namespace and label selector, and exports the
 * issued certificate of every request that is Ready and that the annotation
 * selectors admit.
 */
module CertRequestCheck {
  import opened Base
  import opened Metrics
  import opened CertHelpers
  import opened ExportCommon
  import opened CertRequestExport
  import opened Kube

  datatype Condition = Condition(conditionType: string, status: string)

  datatype CertificateRequest = CertificateRequest(
    name: string, namespace: string, annotations: map<string, string>,
    conditions: seq<Condition>, certificate: Bytes)

  /** The certificate was issued: some status condition is `Ready` with status `True`. */
  ghost predicate IsReady(conditions: seq<Condition>) {
    exists i :: 0 <= i < |conditions| && conditions[i].conditionType == "Ready" && conditions[i].status == "True"
  }

  /** The condition loop, stopping at the first Ready condition. */
  method ReadyCondition(conditions: seq<Condition>) returns (r: bool)
    ensures r == IsReady(conditions)
  {
    r := false;
    for i := 0 to |conditions|
      invariant forall j :: 0 <= j < i ==> !(conditions[j].conditionType == "Ready" && conditions[j].status == "True")
    {
      if conditions[i].conditionType == "Ready" && conditions[i].status == "True" {
        r := true;
        break;
      }
    }
  }

  /** One export call: the issued certificate, the request's name and namespace. */
  datatype Job = Job(certificate: Bytes, name: string, namespace: string)

  /** A request is exported when it is Ready and the annotation selectors admit it. */
  ghost predicate Exported(annotationSelectors: seq<string>, cr: CertificateRequest) {
    IsReady(cr.conditions) && AnnotationsMatch(annotationSelectors, cr.annotations)
  }

  /** The export calls of a tick, in request order. */
  ghost function TickJobs(annotationSelectors: seq<string>, crs: seq<CertificateRequest>): seq<Job>
    decreases |crs|
  {
    if crs == [] then []
    else
      var cr := crs[|crs| - 1];
      TickJobs(annotationSelectors, crs[..|crs| - 1])
      + (if Exported(annotationSelectors, cr) then [Job(cr.certificate, cr.name, cr.namespace)] else [])
  }

  /** What the exporter does with each call, in order. */
  ghost function Outcomes(env: Env, jobs: seq<Job>): (outs: seq<ExportOutcome>)
    requires env.Valid()
    ensures |outs| == |jobs|
    decreases |jobs|
  {
    if jobs == [] then []
    else
      var j := jobs[|jobs| - 1];
      Outcomes(env, jobs[..|jobs| - 1]) + [ExportSpec(env, j.certificate, j.name, j.namespace)]
  }

  lemma {:induction false} OutcomesAppend(env: Env, a: seq<Job>, b: seq<Job>)
    requires env.Valid()
    ensures Outcomes(env, a + b) == Outcomes(env, a) + Outcomes(env, b)
    decreases |b|
  {
    if b == [] {
      assert a + b == a;
    } else {
      var b' := b[..|b| - 1];
      assert (a + b)[..|a + b| - 1] == a + b';
      OutcomesAppend(env, a, b');
    }
  }

  lemma TickJobsStep(annotationSelectors: seq<string>, crs: seq<CertificateRequest>, i: nat)
    requires i < |crs|
    ensures TickJobs(annotationSelectors, crs[..i + 1])
         == TickJobs(annotationSelectors, crs[..i])
          + (if Exported(annotationSelectors, crs[i]) then [Job(crs[i].certificate, crs[i].name, crs[i].namespace)] else [])
  {
    assert crs[..i + 1][..i] == crs[..i];
  }

  class PeriodicCertRequestChecker {
    const period: nat
    const labelSelectors: seq<string>
    const kubeconfigPath: string
    const annotationSelectors: seq<string>
    const namespaces: seq<string>
    const exporter: CertRequestExporter
    /** The CertificateRequest `List` call of the cert-manager client. */
    const list: ListCall -> Result<seq<CertificateRequest>>

    /** `NewCertRequestChecker`: every argument is kept as given. */
    constructor (period: nat, labelSelectors: seq<string>, annotationSelectors: seq<string>, namespaces: seq<string>,
                 kubeconfigPath: string, e: CertRequestExporter, list: ListCall -> Result<seq<CertificateRequest>>)
      ensures this.period == period && this.labelSelectors == labelSelectors
      ensures this.annotationSelectors == annotationSelectors && this.namespaces == namespaces
      ensures this.kubeconfigPath == kubeconfigPath && this.exporter == e && this.list == list
    {
      this.period := period;
      this.labelSelectors := labelSelectors;
      this.annotationSelectors := annotationSelectors;
      this.namespaces := namespaces;
      this.kubeconfigPath := kubeconfigPath;
      this.exporter := e;
      this.list := list;
    }

    /** The body of the review loop for one request: the Ready check, the annotation check, the export. */
    method ReviewRequest(cr: CertificateRequest) returns (ghost more: seq<Job>)
      requires exporter.env.Valid()
      modifies exporter.reg
      ensures more == (if Exported(annotationSelectors, cr) then [Job(cr.certificate, cr.name, cr.namespace)] else [])
      ensures exporter.reg.store == Apply(old(exporter.reg.store), AllSamples(Outcomes(exporter.env, more)))
      ensures exporter.reg.errorTotal == old(exporter.reg.errorTotal) + FailureCount(Outcomes(exporter.env, more))
    {
      more := [];
      var ready := ReadyCondition(cr.conditions);
      if !ready {
        return;
      }
      var admitted := MatchesAnnotations(annotationSelectors, cr.annotations);
      if !admitted {
        return;
      }
      var job := Job(cr.certificate, cr.name, cr.namespace);
      ExportStep(old(exporter.reg.store), [], ExportSpec(exporter.env, job.certificate, job.name, job.namespace));
      var err := exporter.ExportMetrics(cr.certificate, cr.name, cr.namespace);
      if err.Some? {
        exporter.reg.IncError();
      }
      more := [job];
      assert Outcomes(exporter.env, more) == [ExportSpec(exporter.env, job.certificate, job.name, job.namespace)];
    }

    /** The review loop over the gathered requests. */
    method ReviewAll(crs: seq<CertificateRequest>) returns (ghost jobs: seq<Job>)
      requires exporter.env.Valid()
      modifies exporter.reg
      ensures jobs == TickJobs(annotationSelectors, crs)
      ensures exporter.reg.store == Apply(old(exporter.reg.store), AllSamples(Outcomes(exporter.env, jobs)))
      ensures exporter.reg.errorTotal == old(exporter.reg.errorTotal) + FailureCount(Outcomes(exporter.env, jobs))
    {
      var env := exporter.env;
      var reg := exporter.reg;
      jobs := [];
      for i := 0 to |crs|
        invariant jobs == TickJobs(annotationSelectors, crs[..i])
        invariant reg.store == Apply(old(reg.store), AllSamples(Outcomes(env, jobs)))
        invariant reg.errorTotal == old(reg.errorTotal) + FailureCount(Outcomes(env, jobs))
      {
        TickJobsStep(annotationSelectors, crs, i);
        var more := ReviewRequest(crs[i]);
        OutcomesAppend(env, jobs, more);
        ExportRuns(old(reg.store), Outcomes(env, jobs), Outcomes(env, more));
        jobs := jobs + more;
      }
      assert crs[..|crs|] == crs;
    }

    /**
     * One tick: reset, gather, then export. The reset is the exporter's
     * `ResetMetrics`, which clears the Secret families and leaves the
     * CertificateRequest series of earlier ticks in place.
     */
    method Tick() returns (ghost items: seq<CertificateRequest>, ghost jobs: seq<Job>)
      requires exporter.env.Valid()
      modifies exporter.reg
      ensures items == Gathered(list, Calls(namespaces, labelSelectors))
      ensures jobs == TickJobs(annotationSelectors, items)
      ensures exporter.reg.store == Apply(ResetStore(old(exporter.reg.store)), AllSamples(Outcomes(exporter.env, jobs)))
      ensures exporter.reg.errorTotal == old(exporter.reg.errorTotal)
        + Failures(list, Calls(namespaces, labelSelectors)) + FailureCount(Outcomes(exporter.env, jobs))
    {
      exporter.ResetMetrics();
      var crs := Gather(exporter.reg, list, namespaces, labelSelectors);
      items := crs;
      jobs := ReviewAll(crs);
    }

    /** The tick with the corrected reset, which clears the CertificateRequest families first. */
    method TickWithOwnReset() returns (ghost items: seq<CertificateRequest>, ghost jobs: seq<Job>)
      requires exporter.env.Valid()
      modifies exporter.reg
      ensures items == Gathered(list, Calls(namespaces, labelSelectors))
      ensures jobs == TickJobs(annotationSelectors, items)
      ensures exporter.reg.store == Apply(ResetOwnStore(old(exporter.reg.store)), AllSamples(Outcomes(exporter.env, jobs)))
      ensures exporter.reg.errorTotal == old(exporter.reg.errorTotal)
        + Failures(list, Calls(namespaces, labelSelectors)) + FailureCount(Outcomes(exporter.env, jobs))
    {
      exporter.ResetOwnMetrics();
      var crs := Gather(exporter.reg, list, namespaces, labelSelectors);
      items := crs;
      jobs := ReviewAll(crs);
    }
  }

  ghost predicate OwnFamilies(xs: seq<Sample>) {
    forall i :: 0 <= i < |xs| ==> xs[i].family == CertRequestExpiry || xs[i].family == CertRequestNotAfter
  }

  /** One export writes only the CertificateRequest families. */
  lemma ExportFamilies(env: Env, j: Job)
    requires env.Valid()
    ensures OwnFamilies(ExportSpec(env, j.certificate, j.name, j.namespace).samples)
  {
  }

  lemma OutcomesLast(env: Env, jobs: seq<Job>)
    requires env.Valid() && jobs != []
    ensures var outs, j := Outcomes(env, jobs), jobs[|jobs| - 1];
      && outs[..|outs| - 1] == Outcomes(env, jobs[..|jobs| - 1])
      && outs[|outs| - 1] == ExportSpec(env, j.certificate, j.name, j.namespace)
  {
  }

  lemma OwnFamiliesAppend(a: seq<Sample>, b: seq<Sample>)
    requires OwnFamilies(a) && OwnFamilies(b)
    ensures OwnFamilies(a + b)
  {
    forall i | 0 <= i < |a + b|
      ensures (a + b)[i].family == CertRequestExpiry || (a + b)[i].family == CertRequestNotAfter
    {
      if i < |a| { assert (a + b)[i] == a[i]; } else { assert (a + b)[i] == b[i - |a|]; }
    }
  }

  /** A tick's exports write only the CertificateRequest families. */
  lemma {:induction false} OutcomesFamilies(env: Env, jobs: seq<Job>)
    requires env.Valid()
    ensures OwnFamilies(AllSamples(Outcomes(env, jobs)))
    decreases |jobs|
  {
    if jobs != [] {
      var init, j := jobs[..|jobs| - 1], jobs[|jobs| - 1];
      var outs := Outcomes(env, jobs);
      OutcomesFamilies(env, init);
      ExportFamilies(env, j);
      OutcomesLast(env, jobs);
      OwnFamiliesAppend(AllSamples(outs[..|outs| - 1]), outs[|outs| - 1].samples);
    }
  }

  /**
   * What the tick leaves behind, for a series the tick does not write again:
   * as written, a CertificateRequest series of an earlier tick survives and
   * every Secret series is gone; with the corrected reset the
   * CertificateRequest series is gone.
   */
  lemma StaleSeriesSurviveTick(env: Env, s: Store, jobs: seq<Job>, l: Labels)
    requires env.Valid()
    requires l !in Written(AllSamples(Outcomes(env, jobs)), CertRequestExpiry)
    ensures Lookup(Apply(ResetStore(s), AllSamples(Outcomes(env, jobs))), CertRequestExpiry, l) == Lookup(s, CertRequestExpiry, l)
    ensures Series(Apply(ResetStore(s), AllSamples(Outcomes(env, jobs))), SecretExpiry) == map[]
    ensures Lookup(Apply(ResetOwnStore(s), AllSamples(Outcomes(env, jobs))), CertRequestExpiry, l) == None
  {
    var xs := AllSamples(Outcomes(env, jobs));
    LastWriteWritten(xs, CertRequestExpiry, l);
    LookupAfterApply(ResetStore(s), xs, CertRequestExpiry, l);
    LookupAfterApply(ResetOwnStore(s), xs, CertRequestExpiry, l);
    OutcomesFamilies(env, jobs);
    assert forall i :: 0 <= i < |xs| ==> xs[i].family != SecretExpiry;
    ApplyOtherFamily(ResetStore(s), xs, SecretExpiry);
  }

  /**
   * A request leads to an export call exactly when it was gathered, is Ready
   * and the annotation selectors admit it; the call carries its certificate,
   * name and namespace.
   */
  lemma {:induction false} ExportedIff(annotationSelectors: seq<string>, crs: seq<CertificateRequest>, j: Job)
    ensures j in TickJobs(annotationSelectors, crs) <==>
      exists cr :: cr in crs && Exported(annotationSelectors, cr) && j == Job(cr.certificate, cr.name, cr.namespace)
    decreases |crs|
  {
    if crs != [] {
      var init := crs[..|crs| - 1];
      ExportedIff(annotationSelectors, init, j);
      assert crs == init + [crs[|crs| - 1]];
    }
  }

  /** A request without a Ready condition with status True is never exported, whatever its annotations. */
  lemma {:induction false} NotReadyNotExported(annotationSelectors: seq<string>, crs: seq<CertificateRequest>)
    requires forall i :: 0 <= i < |crs| ==> !IsReady(crs[i].conditions)
    ensures TickJobs(annotationSelectors, crs) == []
    decreases |crs|
  {
    if crs != [] {
      NotReadyNotExported(annotationSelectors, crs[..|crs| - 1]);
    }
  }

  /** Without annotation selectors every Ready request is exported, in order. */
  lemma {:induction false} NoSelectorsExportAllReady(crs: seq<CertificateRequest>)
    requires forall i :: 0 <= i < |crs| ==> IsReady(crs[i].conditions)
    ensures |TickJobs([], crs)| == |crs|
    ensures forall i :: 0 <= i < |crs| ==> TickJobs([], crs)[i] == Job(crs[i].certificate, crs[i].name, crs[i].namespace)
    decreases |crs|
  {
    if crs != [] {
      NoSelectorsExportAllReady(crs[..|crs| - 1]);
    }
  }
}
