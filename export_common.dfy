/**
 * What the exporters share: a decoded certificate list becomes gauge
 * samples, one expiry sample and (for most exporters) one not-after sample
 * per certificate, all at the label tuple the exporter builds from the
 * certificate; a decode error writes nothing.
 */
module ExportCommon {
  import opened Base
  import opened Metrics
  import opened CertHelpers

  /** How an exporter builds the label tuple of one certificate. */
  type Labeler = CertMetric -> Labels

  /** The samples an export writes and the error it returns. */
  datatype ExportOutcome = ExportOutcome(samples: seq<Sample>, err: Option<Err>)

  /** The samples of one certificate: its expiry, then its not-after time when the exporter keeps one. */
  function MetricSample(x: CertMetric, labelsOf: Labeler, expiry: Family, notAfter: Option<Family>): seq<Sample> {
    [Sample(expiry, labelsOf(x), x.durationUntilExpiry)]
    + (if notAfter.Some? then [Sample(notAfter.value, labelsOf(x), x.notAfter)] else [])
  }

  /** The samples of all certificates, in certificate order. */
  function MetricSamples(ms: seq<CertMetric>, labelsOf: Labeler, expiry: Family, notAfter: Option<Family>): (xs: seq<Sample>)
    ensures forall i :: 0 <= i < |xs| ==> xs[i].family == expiry || Some(xs[i].family) == notAfter
    decreases |ms|
  {
    if ms == [] then []
    else MetricSamples(ms[..|ms| - 1], labelsOf, expiry, notAfter) + MetricSample(ms[|ms| - 1], labelsOf, expiry, notAfter)
  }

  /** `ExportMetrics` on a decoded result: the error is returned and nothing written, or every certificate is written. */
  function Outcome(d: Decoded, labelsOf: Labeler, expiry: Family, notAfter: Option<Family>): ExportOutcome {
    if d.err.Some? then ExportOutcome([], d.err)
    else ExportOutcome(MetricSamples(d.metrics, labelsOf, expiry, notAfter), None)
  }

  /** The last certificate, in order, whose label tuple is `l`. */
  function LastAt(ms: seq<CertMetric>, labelsOf: Labeler, l: Labels): Option<CertMetric>
    decreases |ms|
  {
    if ms == [] then None
    else if labelsOf(ms[|ms| - 1]) == l then Some(ms[|ms| - 1])
    else LastAt(ms[..|ms| - 1], labelsOf, l)
  }

  /** `LastAt` finds a certificate exactly when one of them has that label tuple. */
  lemma {:induction false} LastAtFound(ms: seq<CertMetric>, labelsOf: Labeler, l: Labels)
    ensures LastAt(ms, labelsOf, l).Some? <==> exists i :: 0 <= i < |ms| && labelsOf(ms[i]) == l
    ensures LastAt(ms, labelsOf, l).Some? ==>
      LastAt(ms, labelsOf, l).value in ms && labelsOf(LastAt(ms, labelsOf, l).value) == l
    decreases |ms|
  {
    if ms != [] {
      var init := ms[..|ms| - 1];
      LastAtFound(init, labelsOf, l);
      if exists i :: 0 <= i < |init| && labelsOf(init[i]) == l {
        var i :| 0 <= i < |init| && labelsOf(init[i]) == l;
        assert ms[i] == init[i];
      }
      if exists i :: 0 <= i < |ms| && labelsOf(ms[i]) == l {
        var i :| 0 <= i < |ms| && labelsOf(ms[i]) == l;
        if i < |init| {
          assert init[i] == ms[i];
        }
      }
    }
  }

  /** Publishing certificates with equal label tuples leaves the expiry of the last one. */
  lemma {:induction false} ExpiryLastWins(ms: seq<CertMetric>, labelsOf: Labeler, expiry: Family, notAfter: Option<Family>, l: Labels)
    requires notAfter != Some(expiry)
    ensures LastWrite(MetricSamples(ms, labelsOf, expiry, notAfter), expiry, l)
         == if LastAt(ms, labelsOf, l).Some? then Some(LastAt(ms, labelsOf, l).value.durationUntilExpiry) else None
    decreases |ms|
  {
    if ms != [] {
      var init := ms[..|ms| - 1];
      ExpiryLastWins(init, labelsOf, expiry, notAfter, l);
      var xs := MetricSamples(ms, labelsOf, expiry, notAfter);
      var xs0 := MetricSamples(init, labelsOf, expiry, notAfter);
      var x := ms[|ms| - 1];
      if notAfter.Some? {
        assert xs[..|xs| - 1] == xs0 + [Sample(expiry, labelsOf(x), x.durationUntilExpiry)];
        assert (xs0 + [Sample(expiry, labelsOf(x), x.durationUntilExpiry)])[..|xs0|] == xs0;
      } else {
        assert xs[..|xs| - 1] == xs0;
      }
    }
  }

  /** Publishing certificates with equal label tuples leaves the not-after time of the last one. */
  lemma {:induction false} NotAfterLastWins(ms: seq<CertMetric>, labelsOf: Labeler, expiry: Family, notAfter: Family, l: Labels)
    requires notAfter != expiry
    ensures LastWrite(MetricSamples(ms, labelsOf, expiry, Some(notAfter)), notAfter, l)
         == if LastAt(ms, labelsOf, l).Some? then Some(LastAt(ms, labelsOf, l).value.notAfter) else None
    decreases |ms|
  {
    if ms != [] {
      var init := ms[..|ms| - 1];
      NotAfterLastWins(init, labelsOf, expiry, notAfter, l);
      var xs := MetricSamples(ms, labelsOf, expiry, Some(notAfter));
      var xs0 := MetricSamples(init, labelsOf, expiry, Some(notAfter));
      var x := ms[|ms| - 1];
      assert xs[..|xs| - 1] == xs0 + [Sample(expiry, labelsOf(x), x.durationUntilExpiry)];
      assert (xs0 + [Sample(expiry, labelsOf(x), x.durationUntilExpiry)])[..|xs0|] == xs0;
    }
  }

  /**
   * After a successful export each series of the expiry family holds the
   * expiry of the last certificate with that label tuple, or, when no
   * certificate has it, what it held before.
   */
  lemma ExportedExpiry(s: Store, d: Decoded, labelsOf: Labeler, expiry: Family, notAfter: Option<Family>, l: Labels)
    requires d.err == None
    requires notAfter != Some(expiry)
    ensures var last := LastAt(d.metrics, labelsOf, l);
      Lookup(Apply(s, Outcome(d, labelsOf, expiry, notAfter).samples), expiry, l)
        == if last.Some? then Some(last.value.durationUntilExpiry) else Lookup(s, expiry, l)
  {
    LookupAfterApply(s, MetricSamples(d.metrics, labelsOf, expiry, notAfter), expiry, l);
    ExpiryLastWins(d.metrics, labelsOf, expiry, notAfter, l);
  }

  /** The same for the not-after family. */
  lemma ExportedNotAfter(s: Store, d: Decoded, labelsOf: Labeler, expiry: Family, notAfter: Family, l: Labels)
    requires d.err == None
    requires notAfter != expiry
    ensures var last := LastAt(d.metrics, labelsOf, l);
      Lookup(Apply(s, Outcome(d, labelsOf, expiry, Some(notAfter)).samples), notAfter, l)
        == if last.Some? then Some(last.value.notAfter) else Lookup(s, notAfter, l)
  {
    LookupAfterApply(s, MetricSamples(d.metrics, labelsOf, expiry, Some(notAfter)), notAfter, l);
    NotAfterLastWins(d.metrics, labelsOf, expiry, notAfter, l);
  }

  /** After a successful export every certificate's label tuple is present in its families. */
  lemma ExportedVisible(s: Store, d: Decoded, labelsOf: Labeler, expiry: Family, notAfter: Option<Family>, x: CertMetric)
    requires d.err == None
    requires notAfter != Some(expiry)
    requires x in d.metrics
    ensures Lookup(Apply(s, Outcome(d, labelsOf, expiry, notAfter).samples), expiry, labelsOf(x)).Some?
    ensures notAfter.Some? ==>
      Lookup(Apply(s, Outcome(d, labelsOf, expiry, notAfter).samples), notAfter.value, labelsOf(x)).Some?
  {
    var i :| 0 <= i < |d.metrics| && d.metrics[i] == x;
    LastAtFound(d.metrics, labelsOf, labelsOf(x));
    ExportedExpiry(s, d, labelsOf, expiry, notAfter, labelsOf(x));
    if notAfter.Some? {
      ExportedNotAfter(s, d, labelsOf, expiry, notAfter.value, labelsOf(x));
    }
  }

  /** Every sample of an export is written at the label tuple of one of the certificates. */
  lemma {:induction false} SamplesLabelled(ms: seq<CertMetric>, labelsOf: Labeler, expiry: Family, notAfter: Option<Family>, i: nat)
    requires i < |MetricSamples(ms, labelsOf, expiry, notAfter)|
    ensures exists x :: x in ms && MetricSamples(ms, labelsOf, expiry, notAfter)[i].labels == labelsOf(x)
    decreases |ms|
  {
    var init := ms[..|ms| - 1];
    var xs0 := MetricSamples(init, labelsOf, expiry, notAfter);
    if i < |xs0| {
      SamplesLabelled(init, labelsOf, expiry, notAfter, i);
      var x :| x in init && xs0[i].labels == labelsOf(x);
      assert x in ms;
    } else {
      assert MetricSamples(ms, labelsOf, expiry, notAfter)[i].labels == labelsOf(ms[|ms| - 1]);
    }
  }

  /** A failed decode returns its error and leaves every gauge as it was. */
  lemma FailedExportWritesNothing(s: Store, d: Decoded, labelsOf: Labeler, expiry: Family, notAfter: Option<Family>)
    requires d.err.Some?
    ensures Outcome(d, labelsOf, expiry, notAfter).err == d.err
    ensures Apply(s, Outcome(d, labelsOf, expiry, notAfter).samples) == s
  {
  }

  /** An export touches only its own families. */
  lemma {:induction false} ExportOnlyOwnFamilies(s: Store, ms: seq<CertMetric>, labelsOf: Labeler, expiry: Family, notAfter: Option<Family>, f: Family)
    requires f != expiry && Some(f) != notAfter
    ensures Series(Apply(s, MetricSamples(ms, labelsOf, expiry, notAfter)), f) == Series(s, f)
  {
    ApplyOtherFamily(s, MetricSamples(ms, labelsOf, expiry, notAfter), f);
  }

  lemma PublishStep(s: Store, ms: seq<CertMetric>, i: nat, labelsOf: Labeler, expiry: Family, notAfter: Option<Family>)
    requires i < |ms|
    ensures Apply(s, MetricSamples(ms[..i + 1], labelsOf, expiry, notAfter))
         == Apply(Apply(s, MetricSamples(ms[..i], labelsOf, expiry, notAfter)), MetricSample(ms[i], labelsOf, expiry, notAfter))
  {
    assert ms[..i + 1][..i] == ms[..i];
    ApplyAppend(s, MetricSamples(ms[..i], labelsOf, expiry, notAfter), MetricSample(ms[i], labelsOf, expiry, notAfter));
  }

  /** Writes the expiry sample of one certificate and, when the family exists, its not-after sample. */
  method PublishOne(reg: Registry, x: CertMetric, labelsOf: Labeler, expiry: Family, notAfter: Option<Family>)
    modifies reg
    ensures reg.store == Apply(old(reg.store), MetricSample(x, labelsOf, expiry, notAfter))
    ensures reg.errorTotal == old(reg.errorTotal)
  {
    var first := Sample(expiry, labelsOf(x), x.durationUntilExpiry);
    reg.Set(first);
    if notAfter.Some? {
      var second := Sample(notAfter.value, labelsOf(x), x.notAfter);
      reg.Set(second);
      ApplyTwo(old(reg.store), first, second);
      assert MetricSample(x, labelsOf, expiry, notAfter) == [first, second];
    } else {
      ApplyOne(old(reg.store), first);
      assert MetricSample(x, labelsOf, expiry, notAfter) == [first];
    }
  }

  /** Writes the samples of the certificates to the registry, certificate by certificate. */
  method Publish(reg: Registry, ms: seq<CertMetric>, labelsOf: Labeler, expiry: Family, notAfter: Option<Family>)
    modifies reg
    ensures reg.store == Apply(old(reg.store), MetricSamples(ms, labelsOf, expiry, notAfter))
    ensures reg.errorTotal == old(reg.errorTotal)
  {
    for i := 0 to |ms|
      invariant reg.store == Apply(old(reg.store), MetricSamples(ms[..i], labelsOf, expiry, notAfter))
      invariant reg.errorTotal == old(reg.errorTotal)
    {
      PublishStep(old(reg.store), ms, i, labelsOf, expiry, notAfter);
      PublishOne(reg, ms[i], labelsOf, expiry, notAfter);
    }
    assert ms[..|ms|] == ms;
  }

  /** The samples of a run of exports, in the order they were made. */
  function AllSamples(outs: seq<ExportOutcome>): seq<Sample>
    decreases |outs|
  {
    if outs == [] then [] else AllSamples(outs[..|outs| - 1]) + outs[|outs| - 1].samples
  }

  /** How many exports of a run returned an error: the checkers add one to `error_total` for each. */
  function FailureCount(outs: seq<ExportOutcome>): (n: nat)
    ensures n <= |outs|
    decreases |outs|
  {
    if outs == [] then 0 else FailureCount(outs[..|outs| - 1]) + (if outs[|outs| - 1].err.Some? then 1 else 0)
  }

  lemma {:induction false} AllSamplesAppend(a: seq<ExportOutcome>, b: seq<ExportOutcome>)
    ensures AllSamples(a + b) == AllSamples(a) + AllSamples(b)
    decreases |b|
  {
    if b == [] {
      assert a + b == a;
    } else {
      var b' := b[..|b| - 1];
      assert (a + b)[..|a + b| - 1] == a + b';
      AllSamplesAppend(a, b');
    }
  }

  lemma {:induction false} FailureCountAppend(a: seq<ExportOutcome>, b: seq<ExportOutcome>)
    ensures FailureCount(a + b) == FailureCount(a) + FailureCount(b)
    decreases |b|
  {
    if b == [] {
      assert a + b == a;
    } else {
      var b' := b[..|b| - 1];
      assert (a + b)[..|a + b| - 1] == a + b';
      FailureCountAppend(a, b');
    }
  }

  /** One more export: its samples are applied after the earlier ones and its error adds one to the count. */
  lemma ExportStep(s: Store, outs: seq<ExportOutcome>, o: ExportOutcome)
    ensures Apply(s, AllSamples(outs + [o])) == Apply(Apply(s, AllSamples(outs)), o.samples)
    ensures FailureCount(outs + [o]) == FailureCount(outs) + (if o.err.Some? then 1 else 0)
  {
    assert (outs + [o])[..|outs|] == outs;
    ApplyAppend(s, AllSamples(outs), o.samples);
  }

  /** Two runs of exports, one after the other. */
  lemma ExportRuns(s: Store, a: seq<ExportOutcome>, b: seq<ExportOutcome>)
    ensures Apply(s, AllSamples(a + b)) == Apply(Apply(s, AllSamples(a)), AllSamples(b))
    ensures FailureCount(a + b) == FailureCount(a) + FailureCount(b)
  {
    AllSamplesAppend(a, b);
    FailureCountAppend(a, b);
    ApplyAppend(s, AllSamples(a), AllSamples(b));
  }
}
