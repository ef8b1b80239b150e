/**
 * The argument clean-up `main` does before it builds the checkers: the
 * namespace list of a checker, and the default data-key include glob.
 */
module CommandLine {
  import opened Strings

  /** One piece of the list: nothing when it trims to nothing, else the trimmed piece. */
  function Trimmed(piece: string): seq<string> {
    var v := TrimSpace(piece);
    if v != "" then [v] else []
  }

  /** What each piece yields under `f`, concatenated in piece order. */
  function Collect(f: string -> seq<string>, pieces: seq<string>): seq<string>
    decreases |pieces|
  {
    if pieces == [] then [] else Collect(f, pieces[..|pieces| - 1]) + f(pieces[|pieces| - 1])
  }

  /** The pieces of a comma-separated list, trimmed, with the empty ones dropped, in order. */
  function Kept(pieces: seq<string>): seq<string> {
    Collect(Trimmed, pieces)
  }

  lemma CollectStep(f: string -> seq<string>, pieces: seq<string>, i: nat)
    requires i < |pieces|
    ensures Collect(f, pieces[..i + 1]) == Collect(f, pieces[..i]) + f(pieces[i])
  {
    assert pieces[..i + 1][..i] == pieces[..i];
  }

  /** Collecting from two lists one after the other keeps them in the same order. */
  lemma {:induction false} CollectAppend(f: string -> seq<string>, a: seq<string>, b: seq<string>)
    ensures Collect(f, a + b) == Collect(f, a) + Collect(f, b)
    decreases |b|
  {
    if b != [] {
      var init := b[..|b| - 1];
      CollectAppendStep(f, a, b);
      CollectAppend(f, a, init);
    } else {
      assert a + b == a;
    }
  }

  lemma CollectAppendStep(f: string -> seq<string>, a: seq<string>, b: seq<string>)
    requires b != []
    ensures Collect(f, a + b) == Collect(f, a + b[..|b| - 1]) + f(b[|b| - 1])
  {
    assert (a + b)[..|a + b| - 1] == a + b[..|b| - 1];
  }

  /** A value is collected exactly when some piece yields it. */
  lemma {:induction false} CollectFrom(f: string -> seq<string>, pieces: seq<string>, v: string)
    ensures v in Collect(f, pieces) <==> exists i :: 0 <= i < |pieces| && v in f(pieces[i])
    decreases |pieces|
  {
    if pieces != [] {
      var n := |pieces| - 1;
      var init := pieces[..n];
      CollectFrom(f, init, v);
      if exists i :: 0 <= i < |init| && v in f(init[i]) {
        var i :| 0 <= i < |init| && v in f(init[i]);
        assert pieces[i] == init[i];
      }
      if exists i :: 0 <= i < |pieces| && v in f(pieces[i]) {
        var i :| 0 <= i < |pieces| && v in f(pieces[i]);
        if i < n {
          assert pieces[i] == init[i];
        }
      }
    }
  }

  /**
   * What `getSanitizedNamespaceList` returns: the kept pieces of the raw list,
   * then the single namespace untrimmed when it is non-empty, or `[""]` (all
   * namespaces) when that leaves nothing.
   */
  function SanitizedNamespaces(rawListOfNamespaces: string, namespace: string): seq<string> {
    var selected :=
      (if |rawListOfNamespaces| > 0 then Kept(Split(rawListOfNamespaces, ',')) else [])
      + (if |namespace| > 0 then [namespace] else []);
    if selected == [] then [""] else selected
  }

  /** `getSanitizedNamespaceList`. */
  method SanitizedNamespaceList(rawListOfNamespaces: string, namespace: string) returns (selected: seq<string>)
    ensures selected == SanitizedNamespaces(rawListOfNamespaces, namespace)
  {
    selected := [];
    if |rawListOfNamespaces| > 0 {
      var provided := Split(rawListOfNamespaces, ',');
      for i := 0 to |provided|
        invariant selected == Kept(provided[..i])
      {
        CollectStep(Trimmed, provided, i);
        var v := TrimSpace(provided[i]);
        if v != "" {
          selected := selected + [v];
        }
      }
      assert provided[..|provided|] == provided;
    }
    if |namespace| > 0 {
      selected := selected + [namespace];
    }
    if |selected| == 0 {
      return [""];
    }
  }

  /** The list is never empty. */
  lemma SanitizedNeverEmpty(rawListOfNamespaces: string, namespace: string)
    ensures SanitizedNamespaces(rawListOfNamespaces, namespace) != []
  {
  }

  /** Keeping the pieces of two lists one after the other keeps them in the same order. */
  lemma KeptAppend(a: seq<string>, b: seq<string>)
    ensures Kept(a + b) == Kept(a) + Kept(b)
  {
    CollectAppend(Trimmed, a, b);
  }

  /** A piece yields `v` exactly when it trims to the non-empty `v`. */
  lemma TrimmedMembership(piece: string, v: string)
    ensures v in Trimmed(piece) <==> v != "" && TrimSpace(piece) == v
  {
  }

  /** A kept piece is a non-empty trimmed piece, and every non-empty trimmed piece is kept. */
  lemma KeptMembership(pieces: seq<string>, v: string)
    ensures v in Kept(pieces) <==> v != "" && exists i :: 0 <= i < |pieces| && TrimSpace(pieces[i]) == v
  {
    CollectFrom(Trimmed, pieces, v);
    if v in Kept(pieces) {
      var i :| 0 <= i < |pieces| && v in Trimmed(pieces[i]);
      TrimmedMembership(pieces[i], v);
    }
    if v != "" && exists i :: 0 <= i < |pieces| && TrimSpace(pieces[i]) == v {
      var i :| 0 <= i < |pieces| && TrimSpace(pieces[i]) == v;
      TrimmedMembership(pieces[i], v);
    }
  }

  /** A namespace as the raw list yields it: non-empty, comma-free, not padded with white space. */
  ghost predicate Clean(v: string) {
    v != "" && ',' !in v && !IsSpace(v[0]) && !IsSpace(v[|v| - 1])
  }

  lemma TrimmedPieceClean(p: string)
    requires ',' !in p && TrimSpace(p) != ""
    ensures Clean(TrimSpace(p))
  {
    var v := TrimSpace(p);
    TrimSpaceShape(p);
    assert forall c :: c in v ==> c in p;
  }

  /** Every namespace taken from the raw list is clean. */
  lemma KeptClean(pieces: seq<string>)
    requires forall i :: 0 <= i < |pieces| ==> ',' !in pieces[i]
    ensures forall v :: v in Kept(pieces) ==> Clean(v)
  {
    forall v | v in Kept(pieces)
      ensures Clean(v)
    {
      CollectFrom(Trimmed, pieces, v);
      var i :| 0 <= i < |pieces| && v in Trimmed(pieces[i]);
      TrimmedPieceClean(pieces[i]);
    }
  }

  /**
   * With a non-empty single namespace the result is the raw list's kept
   * pieces followed by that namespace, as given.
   */
  lemma NamespaceLast(rawListOfNamespaces: string, namespace: string)
    requires namespace != ""
    ensures var r := SanitizedNamespaces(rawListOfNamespaces, namespace);
      r[|r| - 1] == namespace && r[..|r| - 1] == (if |rawListOfNamespaces| > 0 then Kept(Split(rawListOfNamespaces, ',')) else [])
  {
  }

  /** The namespaces of a raw list alone are its clean pieces, or `[""]` when it has none. */
  lemma RawListOnly(rawListOfNamespaces: string)
    ensures var r := SanitizedNamespaces(rawListOfNamespaces, "");
      r == [""] || forall v :: v in r ==> Clean(v)
  {
    if |rawListOfNamespaces| > 0 {
      KeptClean(Split(rawListOfNamespaces, ','));
    }
  }

  /** The include-glob default of `main`: an empty list becomes `["*"]`, any other is kept. */
  function DefaultIncludeGlobs(globs: seq<string>): (r: seq<string>)
    ensures r != []
    ensures globs != [] ==> r == globs
    ensures globs == [] ==> r == ["*"]
  {
    if |globs| == 0 then ["*"] else globs
  }
}
