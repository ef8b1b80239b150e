/**
 * The metrics registry as the exporters use it: gauge families whose series
 * are keyed by their label values, and the process-wide error counter.
 * A family is a map from a label tuple to the gauge's value; setting a
 * series overwrites it, resetting a family removes all of its series.
 */
module Metrics {
  import opened Base

  /** The label values of one series, in the order of the family's schema. */
  type Labels = seq<string>

  type Gauge = map<Labels, int>

  /** The gauge families the modelled exporters write or reset. */
  datatype Family =
    | KubeConfigExpiry | KubeConfigNotAfter
    | SecretExpiry | SecretNotAfter
    | CertRequestExpiry | CertRequestNotAfter
    | ConfigMapExpiry | ConfigMapNotAfter
    | WebhookExpiry | WebhookNotAfter
    | AwsExpiry

  /** All series of all families; a family never written is absent. */
  type Store = map<Family, Gauge>

  function Series(s: Store, f: Family): Gauge {
    if f in s then s[f] else map[]
  }

  function Lookup(s: Store, f: Family, l: Labels): Option<int> {
    if l in Series(s, f) then Some(Series(s, f)[l]) else None
  }

  /** One call of `WithLabelValues(labels...).Set(value)` on a family. */
  datatype Sample = Sample(family: Family, labels: Labels, value: int)

  /** The store after one sample is set: that series holds the value, nothing else changes. */
  function Put(s: Store, x: Sample): (r: Store)
    ensures Lookup(r, x.family, x.labels) == Some(x.value)
    ensures forall f, l :: (f != x.family || l != x.labels) ==> Lookup(r, f, l) == Lookup(s, f, l)
    ensures forall f :: f != x.family ==> Series(r, f) == Series(s, f)
    ensures Series(r, x.family).Keys == Series(s, x.family).Keys + {x.labels}
  {
    s[x.family := Series(s, x.family)[x.labels := x.value]]
  }

  /** The store after the samples are set one after the other. */
  function Apply(s: Store, xs: seq<Sample>): Store
    decreases |xs|
  {
    if xs == [] then s else Put(Apply(s, xs[..|xs| - 1]), xs[|xs| - 1])
  }

  lemma {:induction false} ApplyAppend(s: Store, a: seq<Sample>, b: seq<Sample>)
    ensures Apply(s, a + b) == Apply(Apply(s, a), b)
    decreases |b|
  {
    if b == [] {
      assert a + b == a;
    } else {
      var b' := b[..|b| - 1];
      assert (a + b)[..|a + b| - 1] == a + b';
      ApplyAppend(s, a, b');
    }
  }

  lemma ApplyOne(s: Store, a: Sample)
    ensures Apply(s, [a]) == Put(s, a)
  {
    assert [a][..0] == [];
  }

  lemma ApplyTwo(s: Store, a: Sample, b: Sample)
    ensures Apply(s, [a, b]) == Put(Put(s, a), b)
  {
    assert [a, b][..1] == [a];
    ApplyOne(s, a);
  }

  /** The value of the last sample written to series `l` of family `f`, if any. */
  function LastWrite(xs: seq<Sample>, f: Family, l: Labels): Option<int>
    decreases |xs|
  {
    if xs == [] then None
    else if xs[|xs| - 1].family == f && xs[|xs| - 1].labels == l then Some(xs[|xs| - 1].value)
    else LastWrite(xs[..|xs| - 1], f, l)
  }

  /** After a batch of writes a series holds its last write, or what it held before. */
  lemma {:induction false} LookupAfterApply(s: Store, xs: seq<Sample>, f: Family, l: Labels)
    ensures Lookup(Apply(s, xs), f, l)
         == if LastWrite(xs, f, l).Some? then LastWrite(xs, f, l) else Lookup(s, f, l)
    decreases |xs|
  {
    if xs != [] {
      LookupAfterApply(s, xs[..|xs| - 1], f, l);
    }
  }

  /** The label tuples the samples write to family `f`. */
  function Written(xs: seq<Sample>, f: Family): set<Labels>
    decreases |xs|
  {
    if xs == [] then {}
    else Written(xs[..|xs| - 1], f) + (if xs[|xs| - 1].family == f then {xs[|xs| - 1].labels} else {})
  }

  /** `Written` holds exactly the labels of the samples of that family. */
  lemma {:induction false} WrittenMembership(xs: seq<Sample>, f: Family, l: Labels)
    ensures l in Written(xs, f) <==> exists i :: 0 <= i < |xs| && xs[i].family == f && xs[i].labels == l
    decreases |xs|
  {
    if xs != [] {
      var init := xs[..|xs| - 1];
      WrittenMembership(init, f, l);
      if l in Written(init, f) {
        var i :| 0 <= i < |init| && init[i].family == f && init[i].labels == l;
        assert xs[i] == init[i];
      }
      if exists i :: 0 <= i < |xs| && xs[i].family == f && xs[i].labels == l {
        var i :| 0 <= i < |xs| && xs[i].family == f && xs[i].labels == l;
        if i < |init| {
          assert init[i] == xs[i];
        }
      }
    }
  }

  /** A series has a last write in a batch exactly when the batch writes its label tuple. */
  lemma {:induction false} LastWriteWritten(xs: seq<Sample>, f: Family, l: Labels)
    ensures LastWrite(xs, f, l).Some? <==> l in Written(xs, f)
    decreases |xs|
  {
    if xs != [] {
      LastWriteWritten(xs[..|xs| - 1], f, l);
    }
  }

  /** A batch of writes adds exactly the label tuples it writes to each family. */
  lemma {:induction false} ApplyKeys(s: Store, xs: seq<Sample>, f: Family)
    ensures Series(Apply(s, xs), f).Keys == Series(s, f).Keys + Written(xs, f)
    decreases |xs|
  {
    if xs != [] {
      ApplyKeys(s, xs[..|xs| - 1], f);
    }
  }

  /** A family no sample names is left as it was. */
  lemma {:induction false} ApplyOtherFamily(s: Store, xs: seq<Sample>, f: Family)
    requires forall i :: 0 <= i < |xs| ==> xs[i].family != f
    ensures Series(Apply(s, xs), f) == Series(s, f)
    decreases |xs|
  {
    if xs != [] {
      ApplyOtherFamily(s, xs[..|xs| - 1], f);
    }
  }

  /** The store after `Reset()` on family `f`. */
  function Cleared(s: Store, f: Family): (r: Store)
    ensures Series(r, f) == map[]
    ensures forall g :: g != f ==> Series(r, g) == Series(s, g)
  {
    s[f := map[]]
  }

  /** The metrics registry: gauge series and the `error_total` counter. */
  class Registry {
    var store: Store
    var errorTotal: nat

    constructor ()
      ensures store == map[] && errorTotal == 0
    {
      store := map[];
      errorTotal := 0;
    }

    /** `WithLabelValues(x.labels...).Set(x.value)` on family `x.family`. */
    method Set(x: Sample)
      modifies this
      ensures store == Put(old(store), x)
      ensures errorTotal == old(errorTotal)
    {
      store := Put(store, x);
    }

    /** `Reset()` on family `f`. */
    method Reset(f: Family)
      modifies this
      ensures store == Cleared(old(store), f)
      ensures errorTotal == old(errorTotal)
    {
      store := Cleared(store, f);
    }

    /** `ErrorTotal.Inc()`. */
    method IncError()
      modifies this
      ensures errorTotal == old(errorTotal) + 1
      ensures store == old(store)
    {
      errorTotal := errorTotal + 1;
    }
  }
}
