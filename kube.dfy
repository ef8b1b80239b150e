/**
 * What the Kubernetes checkers share: gathering objects with one `List`
 * request per (namespace, label selector) pair, and the annotation-selector
 * filter applied to each object before it is looked at.
 */
module Kube {
  import opened Base
  import opened Metrics

  /** One `List` request: a namespace and, when label selectors are configured, one of them. */
  datatype ListCall = ListCall(namespace: string, selector: Option<string>)

  /** One request per label selector, in selector order. */
  function SelectorCalls(ns: string, selectors: seq<string>): seq<ListCall>
    decreases |selectors|
  {
    if selectors == [] then []
    else SelectorCalls(ns, selectors[..|selectors| - 1]) + [ListCall(ns, Some(selectors[|selectors| - 1]))]
  }

  /** The requests of one namespace: one per label selector, or a single unfiltered one without selectors. */
  function NamespaceCalls(ns: string, selectors: seq<string>): seq<ListCall> {
    if |selectors| > 0 then SelectorCalls(ns, selectors) else [ListCall(ns, None)]
  }

  /** The requests of a tick, namespace by namespace. */
  function Calls(namespaces: seq<string>, selectors: seq<string>): seq<ListCall>
    decreases |namespaces|
  {
    if namespaces == [] then []
    else Calls(namespaces[..|namespaces| - 1], selectors) + NamespaceCalls(namespaces[|namespaces| - 1], selectors)
  }

  lemma {:induction false} SelectorCallsMembership(ns: string, selectors: seq<string>, c: ListCall)
    ensures c in SelectorCalls(ns, selectors) <==> c.namespace == ns && c.selector.Some? && c.selector.value in selectors
    decreases |selectors|
  {
    if selectors != [] {
      var init := selectors[..|selectors| - 1];
      SelectorCallsMembership(ns, init, c);
      assert selectors == init + [selectors[|selectors| - 1]];
    }
  }

  /**
   * A tick requests exactly the pairs of a configured namespace with a
   * configured label selector, or, without selectors, each namespace unfiltered.
   */
  lemma {:induction false} CallsMembership(namespaces: seq<string>, selectors: seq<string>, c: ListCall)
    ensures c in Calls(namespaces, selectors) <==>
      c.namespace in namespaces
      && (if |selectors| > 0 then c.selector.Some? && c.selector.value in selectors else c.selector == None)
    decreases |namespaces|
  {
    if namespaces != [] {
      var init := namespaces[..|namespaces| - 1];
      var last := namespaces[|namespaces| - 1];
      CallsMembership(init, selectors, c);
      if |selectors| > 0 {
        SelectorCallsMembership(last, selectors, c);
      }
      assert namespaces == init + [last];
    }
  }

  /** The objects the successful requests return, concatenated in request order. */
  function Gathered<T>(list: ListCall -> Result<seq<T>>, calls: seq<ListCall>): seq<T>
    decreases |calls|
  {
    if calls == [] then []
    else
      var last := list(calls[|calls| - 1]);
      Gathered(list, calls[..|calls| - 1]) + (if last.Ok? then last.value else [])
  }

  /** How many requests failed: each adds one to `error_total`. */
  function Failures<T>(list: ListCall -> Result<seq<T>>, calls: seq<ListCall>): (n: nat)
    ensures n <= |calls|
    decreases |calls|
  {
    if calls == [] then 0
    else Failures(list, calls[..|calls| - 1]) + (if list(calls[|calls| - 1]).Fail? then 1 else 0)
  }

  lemma {:induction false} GatheredAppend<T>(list: ListCall -> Result<seq<T>>, a: seq<ListCall>, b: seq<ListCall>)
    ensures Gathered(list, a + b) == Gathered(list, a) + Gathered(list, b)
    ensures Failures(list, a + b) == Failures(list, a) + Failures(list, b)
    decreases |b|
  {
    if b == [] {
      assert a + b == a;
    } else {
      var b' := b[..|b| - 1];
      assert (a + b)[..|a + b| - 1] == a + b';
      GatheredAppend(list, a, b');
    }
  }

  /**
   * A failed request only loses its own objects: an object is gathered
   * exactly when some successful request returned it.
   */
  lemma {:induction false} GatheredMembership<T>(list: ListCall -> Result<seq<T>>, calls: seq<ListCall>, x: T)
    ensures x in Gathered(list, calls) <==>
      exists i :: 0 <= i < |calls| && list(calls[i]).Ok? && x in list(calls[i]).value
    decreases |calls|
  {
    if calls != [] {
      var init := calls[..|calls| - 1];
      GatheredMembership(list, init, x);
      if exists i :: 0 <= i < |init| && list(init[i]).Ok? && x in list(init[i]).value {
        var i :| 0 <= i < |init| && list(init[i]).Ok? && x in list(init[i]).value;
        assert calls[i] == init[i];
      }
      if exists i :: 0 <= i < |calls| && list(calls[i]).Ok? && x in list(calls[i]).value {
        var i :| 0 <= i < |calls| && list(calls[i]).Ok? && x in list(calls[i]).value;
        if i < |init| {
          assert init[i] == calls[i];
        }
      }
    }
  }

  lemma SelectorCallsStep(ns: string, selectors: seq<string>, j: nat)
    requires j < |selectors|
    ensures SelectorCalls(ns, selectors[..j + 1]) == SelectorCalls(ns, selectors[..j]) + [ListCall(ns, Some(selectors[j]))]
  {
    assert selectors[..j + 1][..j] == selectors[..j];
  }

  /**
   * The list-gathering loop of the ConfigMap and CertificateRequest checkers:
   * each namespace is listed once per label selector (once unfiltered without
   * selectors); a failed request adds one to `error_total` and is skipped.
   */
  method Gather<T>(reg: Registry, list: ListCall -> Result<seq<T>>, namespaces: seq<string>, selectors: seq<string>)
    returns (items: seq<T>)
    modifies reg
    ensures items == Gathered(list, Calls(namespaces, selectors))
    ensures reg.errorTotal == old(reg.errorTotal) + Failures(list, Calls(namespaces, selectors))
    ensures reg.store == old(reg.store)
  {
    items := [];
    for i := 0 to |namespaces|
      invariant items == Gathered(list, Calls(namespaces[..i], selectors))
      invariant reg.errorTotal == old(reg.errorTotal) + Failures(list, Calls(namespaces[..i], selectors))
      invariant reg.store == old(reg.store)
    {
      var ns := namespaces[i];
      ghost var before := Calls(namespaces[..i], selectors);
      assert namespaces[..i + 1][..i] == namespaces[..i];
      assert Calls(namespaces[..i + 1], selectors) == before + NamespaceCalls(ns, selectors);
      if |selectors| > 0 {
        assert SelectorCalls(ns, selectors[..0]) == [];
        assert before + [] == before;
        for j := 0 to |selectors|
          invariant items == Gathered(list, before + SelectorCalls(ns, selectors[..j]))
          invariant reg.errorTotal == old(reg.errorTotal) + Failures(list, before + SelectorCalls(ns, selectors[..j]))
          invariant reg.store == old(reg.store)
        {
          var c := ListCall(ns, Some(selectors[j]));
          SelectorCallsStep(ns, selectors, j);
          GatheredAppend(list, before + SelectorCalls(ns, selectors[..j]), [c]);
          assert before + SelectorCalls(ns, selectors[..j + 1]) == before + SelectorCalls(ns, selectors[..j]) + [c];
          assert [c][..0] == [];
          var r := list(c);
          if r.Fail? {
            reg.IncError();
            continue;
          }
          items := items + r.value;
        }
        assert selectors[..|selectors|] == selectors;
      } else {
        var c := ListCall(ns, None);
        GatheredAppend(list, before, [c]);
        assert [c][..0] == [];
        var r := list(c);
        if r.Fail? {
          reg.IncError();
          continue;
        }
        items := items + r.value;
      }
    }
    assert namespaces[..|namespaces|] == namespaces;
  }

  /** The objects a cluster-scoped lister returns, one request per label selector; the first failure ends the walk. */
  function SelectorWalk<T>(list: Option<string> -> Result<seq<T>>, selectors: seq<string>): Result<seq<T>>
    decreases |selectors|
  {
    if selectors == [] then Ok([])
    else match SelectorWalk(list, selectors[..|selectors| - 1])
      case Fail(e) => Fail(e)
      case Ok(xs) =>
        match list(Some(selectors[|selectors| - 1]))
        case Fail(e) => Fail(e)
        case Ok(ys) => Ok(xs + ys)
  }

  /** What the webhook checker ends up with: the selector walk, or a single unfiltered request without selectors. */
  function Listed<T>(list: Option<string> -> Result<seq<T>>, selectors: seq<string>): Result<seq<T>> {
    if |selectors| > 0 then SelectorWalk(list, selectors) else list(None)
  }

  /** Once a prefix of the selectors fails, the whole walk fails with the same error. */
  lemma {:induction false} SelectorWalkStops<T>(list: Option<string> -> Result<seq<T>>, selectors: seq<string>, k: nat)
    requires k <= |selectors|
    requires SelectorWalk(list, selectors[..k]).Fail?
    ensures SelectorWalk(list, selectors) == SelectorWalk(list, selectors[..k])
    decreases |selectors| - k
  {
    if k < |selectors| {
      assert selectors[..k + 1][..k] == selectors[..k];
      SelectorWalkStops(list, selectors, k + 1);
    } else {
      assert selectors[..k] == selectors;
    }
  }

  /**
   * The walk succeeds exactly when every request does, and then returns their
   * objects in selector order; otherwise it fails with the first failure's error.
   */
  lemma {:induction false} SelectorWalkFirstFailure<T>(list: Option<string> -> Result<seq<T>>, selectors: seq<string>)
    ensures SelectorWalk(list, selectors).Ok? <==> forall i :: 0 <= i < |selectors| ==> list(Some(selectors[i])).Ok?
    ensures SelectorWalk(list, selectors).Fail? ==>
      exists i :: 0 <= i < |selectors| && list(Some(selectors[i])) == Fail(SelectorWalk(list, selectors).err)
        && forall j :: 0 <= j < i ==> list(Some(selectors[j])).Ok?
    decreases |selectors|
  {
    if selectors != [] {
      var init := selectors[..|selectors| - 1];
      var n := |selectors| - 1;
      SelectorWalkFirstFailure(list, init);
      assert forall i :: 0 <= i < n ==> selectors[i] == init[i];
      if SelectorWalk(list, init).Fail? {
        var i :| 0 <= i < |init| && list(Some(init[i])) == Fail(SelectorWalk(list, init).err)
          && forall j :: 0 <= j < i ==> list(Some(init[j])).Ok?;
        assert list(Some(selectors[i])) == Fail(SelectorWalk(list, selectors).err);
      } else if list(Some(selectors[n])).Fail? {
        assert list(Some(selectors[n])) == Fail(SelectorWalk(list, selectors).err);
      }
    }
  }

  /**
   * The selector loop of the webhook checker: it stops at the first failed
   * request and does not add one to `error_total` itself.
   */
  method ListAll<T>(list: Option<string> -> Result<seq<T>>, selectors: seq<string>) returns (r: Result<seq<T>>)
    ensures r == Listed(list, selectors)
  {
    if |selectors| > 0 {
      var configs: seq<T> := [];
      for i := 0 to |selectors|
        invariant SelectorWalk(list, selectors[..i]) == Ok(configs)
      {
        assert selectors[..i + 1][..i] == selectors[..i];
        var m := list(Some(selectors[i]));
        if m.Fail? {
          assert SelectorWalk(list, selectors[..i + 1]).Fail?;
          SelectorWalkStops(list, selectors, i + 1);
          return Fail(m.err);
        }
        configs := configs + m.value;
      }
      assert selectors[..|selectors|] == selectors;
      r := Ok(configs);
    } else {
      r := list(None);
    }
  }

  /** An object passes the annotation filter: no selectors, or one of them is a key of its annotations. */
  ghost predicate AnnotationsMatch(selectors: seq<string>, annotations: map<string, string>) {
    |selectors| == 0 || exists i :: 0 <= i < |selectors| && selectors[i] in annotations
  }

  /** The annotation-selector loop, stopping at the first selector present. */
  method MatchesAnnotations(selectors: seq<string>, annotations: map<string, string>) returns (r: bool)
    ensures r == AnnotationsMatch(selectors, annotations)
    ensures |selectors| == 0 ==> r
  {
    if |selectors| == 0 {
      return true;
    }
    r := false;
    for i := 0 to |selectors|
      invariant forall j :: 0 <= j < i ==> selectors[j] !in annotations
    {
      if selectors[i] in annotations {
        r := true;
        break;
      }
    }
  }
}
