/**
 * `PeriodicCertChecker`: the files on disk to export each tick are the
 * matches of the include globs minus the matches of the exclude globs, each
 * path once; each tick resets the exporter and then exports every path.
 */
module CertCheck {
  import opened Base
  import opened Metrics

  /** A glob split into the directory it searches from and the pattern below it. */
  datatype CertGlob = CertGlob(searchRoot: string, pattern: string)

  /**
   * The path and glob library: `doublestar.SplitPattern`, `filepath.Join`,
   * and `doublestar.Glob` in a directory (paths relative to it, files only).
   */
  datatype GlobOps = GlobOps(
    splitPattern: string -> (string, string),
    join: (string, string) -> string,
    glob: (string, string) -> Result<seq<string>>)

  function NewCertGlob(ops: GlobOps, s: string): (g: CertGlob)
    ensures (g.searchRoot, g.pattern) == ops.splitPattern(s)
  {
    CertGlob(ops.splitPattern(s).0, ops.splitPattern(s).1)
  }

  /** `Join`: a path relative to the search root made into one that resembles the original glob. */
  function Join(ops: GlobOps, g: CertGlob, p: string): string {
    ops.join(g.searchRoot, p)
  }

  /** `Apply`: the glob's matches relative to its search root. */
  function ApplyGlob(ops: GlobOps, g: CertGlob): Result<seq<string>> {
    ops.glob(g.searchRoot, g.pattern)
  }

  /** One glob per string, in order, each split into its search root and the pattern below it. */
  method NewCertGlobs(ops: GlobOps, globs: seq<string>) returns (gs: seq<CertGlob>)
    ensures |gs| == |globs|
    ensures forall i :: 0 <= i < |globs| ==> gs[i] == NewCertGlob(ops, globs[i])
    ensures forall i :: 0 <= i < |globs| ==> (gs[i].searchRoot, gs[i].pattern) == ops.splitPattern(globs[i])
  {
    gs := [];
    for i := 0 to |globs|
      invariant |gs| == i
      invariant forall k :: 0 <= k < i ==> gs[k] == NewCertGlob(ops, globs[k])
    {
      gs := gs + [NewCertGlob(ops, globs[i])];
    }
  }

  /** The joined paths of some matches. */
  function Joined(ops: GlobOps, g: CertGlob, ms: seq<string>): set<string>
    decreases |ms|
  {
    if ms == [] then {} else Joined(ops, g, ms[..|ms| - 1]) + {Join(ops, g, ms[|ms| - 1])}
  }

  lemma {:induction false} JoinedMembership(ops: GlobOps, g: CertGlob, ms: seq<string>, p: string)
    ensures p in Joined(ops, g, ms) <==> exists m :: m in ms && Join(ops, g, m) == p
    decreases |ms|
  {
    if ms != [] {
      var init := ms[..|ms| - 1];
      JoinedMembership(ops, g, init, p);
      assert ms == init + [ms[|ms| - 1]];
    }
  }

  /** The paths a glob stands for: its joined matches, none when `Apply` fails. */
  function GlobPaths(ops: GlobOps, g: CertGlob): set<string> {
    if ApplyGlob(ops, g).Ok? then Joined(ops, g, ApplyGlob(ops, g).value) else {}
  }

  /** The union of the paths of the globs. */
  function AllPaths(ops: GlobOps, gs: seq<CertGlob>): set<string>
    decreases |gs|
  {
    if gs == [] then {} else AllPaths(ops, gs[..|gs| - 1]) + GlobPaths(ops, gs[|gs| - 1])
  }

  /** How many globs fail to apply: each adds one to `error_total`. */
  function FailedGlobs(ops: GlobOps, gs: seq<CertGlob>): (n: nat)
    ensures n <= |gs|
    decreases |gs|
  {
    if gs == [] then 0 else FailedGlobs(ops, gs[..|gs| - 1]) + (if ApplyGlob(ops, gs[|gs| - 1]).Fail? then 1 else 0)
  }

  /**
   * A path is among the globs' paths exactly when some glob applied without
   * error and the path is the join of one of its matches.
   */
  lemma {:induction false} AllPathsMembership(ops: GlobOps, gs: seq<CertGlob>, p: string)
    ensures p in AllPaths(ops, gs) <==>
      exists i :: 0 <= i < |gs| && ApplyGlob(ops, gs[i]).Ok? && exists m :: m in ApplyGlob(ops, gs[i]).value && Join(ops, gs[i], m) == p
    decreases |gs|
  {
    if gs != [] {
      var n := |gs| - 1;
      var init := gs[..n];
      AllPathsMembership(ops, init, p);
      assert forall i :: 0 <= i < n ==> init[i] == gs[i];
      if ApplyGlob(ops, gs[n]).Ok? {
        JoinedMembership(ops, gs[n], ApplyGlob(ops, gs[n]).value, p);
      }
    }
  }

  /** Copies a set into a fresh array of its size, element by element with an index counter. */
  method ListSet(paths: set<string>) returns (res: seq<string>)
    ensures Enumerates(res, paths)
    ensures |res| == |paths|
  {
    var arr := new string[|paths|];
    var rest := paths;
    var i := 0;
    ghost var done: seq<string> := [];
    while rest != {}
      invariant rest <= paths
      invariant i + |rest| == |paths|
      invariant arr[..i] == done
      invariant Distinct(done)
      invariant forall p :: p in done <==> p in paths && p !in rest
      decreases |rest|
    {
      var k :| k in rest;
      arr[i] := k;
      done := done + [k];
      i := i + 1;
      rest := rest - {k};
    }
    res := arr[..];
    assert res == arr[..i];
  }

  /** The events an exporter sees. */
  datatype Event = Reset | Export(file: string, nodeName: string)

  /**
   * The file exporter a `PeriodicCertChecker` drives, seen through the
   * calls made on it; `outcome` says which exports fail.
   */
  class FileExporter {
    var log: seq<Event>
    const outcome: (string, string) -> Option<Err>

    constructor (outcome: (string, string) -> Option<Err>)
      ensures log == [] && this.outcome == outcome
    {
      log := [];
      this.outcome := outcome;
    }

    method ExportMetrics(file: string, nodeName: string) returns (err: Option<Err>)
      modifies this
      ensures log == old(log) + [Export(file, nodeName)]
      ensures err == outcome(file, nodeName)
    {
      log := log + [Export(file, nodeName)];
      err := outcome(file, nodeName);
    }

    method ResetMetrics()
      modifies this
      ensures log == old(log) + [Reset]
    {
      log := log + [Reset];
    }
  }

  /** The export events of a tick, one per path, in order. */
  function ExportEvents(paths: seq<string>, nodeName: string): (es: seq<Event>)
    ensures |es| == |paths|
    ensures forall i :: 0 <= i < |paths| ==> es[i] == Export(paths[i], nodeName)
    decreases |paths|
  {
    if paths == [] then [] else ExportEvents(paths[..|paths| - 1], nodeName) + [Export(paths[|paths| - 1], nodeName)]
  }

  /** How many exports fail. */
  function ExportFailures(outcome: (string, string) -> Option<Err>, paths: seq<string>, nodeName: string): (n: nat)
    ensures n <= |paths|
    decreases |paths|
  {
    if paths == [] then 0
    else ExportFailures(outcome, paths[..|paths| - 1], nodeName) + (if outcome(paths[|paths| - 1], nodeName).Some? then 1 else 0)
  }

  lemma ExportLoopStep(outcome: (string, string) -> Option<Err>, paths: seq<string>, i: nat, nodeName: string)
    requires i < |paths|
    ensures ExportEvents(paths[..i + 1], nodeName) == ExportEvents(paths[..i], nodeName) + [Export(paths[i], nodeName)]
    ensures ExportFailures(outcome, paths[..i + 1], nodeName)
         == ExportFailures(outcome, paths[..i], nodeName) + (if outcome(paths[i], nodeName).Some? then 1 else 0)
  {
    assert paths[..i + 1][..i] == paths[..i];
  }

  class PeriodicCertChecker {
    const period: nat
    const includeCertGlobs: seq<CertGlob>
    const excludeCertGlobs: seq<CertGlob>
    const nodeName: string
    const exporter: FileExporter
    const ops: GlobOps
    /** The process-wide metrics, for `error_total`. */
    const reg: Registry

    /** `NewCertChecker`: one glob per include string and one per exclude string, in order. */
    constructor (period: nat, includeGlobs: seq<string>, excludeGlobs: seq<string>, nodeName: string,
                 e: FileExporter, ops: GlobOps, reg: Registry)
      ensures this.period == period && this.nodeName == nodeName && this.exporter == e && this.ops == ops && this.reg == reg
      ensures |includeCertGlobs| == |includeGlobs| && forall i :: 0 <= i < |includeGlobs| ==> includeCertGlobs[i] == NewCertGlob(ops, includeGlobs[i])
      ensures |excludeCertGlobs| == |excludeGlobs| && forall i :: 0 <= i < |excludeGlobs| ==> excludeCertGlobs[i] == NewCertGlob(ops, excludeGlobs[i])
    {
      var includes := NewCertGlobs(ops, includeGlobs);
      var excludes := NewCertGlobs(ops, excludeGlobs);
      this.period := period;
      this.includeCertGlobs := includes;
      this.excludeCertGlobs := excludes;
      this.nodeName := nodeName;
      this.exporter := e;
      this.ops := ops;
      this.reg := reg;
    }

    /** The paths to export: include paths that no exclude glob produces. */
    function Selected(): set<string> {
      AllPaths(ops, includeCertGlobs) - AllPaths(ops, excludeCertGlobs)
    }

    /** `res` lists the selected paths, each once, in no particular order. */
    ghost predicate IsMatchList(res: seq<string>) {
      Distinct(res) && (forall p :: p in res <==> p in Selected()) && |res| == |Selected()|
    }

    /** Collects the include paths into the set, one glob at a time. */
    method AddIncludes(s0: set<string>) returns (s: set<string>)
      modifies reg
      ensures s == s0 + AllPaths(ops, includeCertGlobs)
      ensures reg.errorTotal == old(reg.errorTotal) + FailedGlobs(ops, includeCertGlobs)
      ensures reg.store == old(reg.store)
    {
      s := s0;
      for i := 0 to |includeCertGlobs|
        invariant s == s0 + AllPaths(ops, includeCertGlobs[..i])
        invariant reg.errorTotal == old(reg.errorTotal) + FailedGlobs(ops, includeCertGlobs[..i])
        invariant reg.store == old(reg.store)
      {
        var g := includeCertGlobs[i];
        assert includeCertGlobs[..i + 1][..i] == includeCertGlobs[..i];
        var matches := ApplyGlob(ops, g);
        if matches.Fail? {
          reg.IncError();
          continue;
        }
        var ms := matches.value;
        for j := 0 to |ms|
          invariant s == s0 + AllPaths(ops, includeCertGlobs[..i]) + Joined(ops, g, ms[..j])
        {
          assert ms[..j + 1][..j] == ms[..j];
          s := s + {Join(ops, g, ms[j])};
        }
        assert ms[..|ms|] == ms;
      }
      assert includeCertGlobs[..|includeCertGlobs|] == includeCertGlobs;
    }

    /** Removes the exclude paths from the set, one glob at a time. */
    method RemoveExcludes(s0: set<string>) returns (s: set<string>)
      modifies reg
      ensures s == s0 - AllPaths(ops, excludeCertGlobs)
      ensures reg.errorTotal == old(reg.errorTotal) + FailedGlobs(ops, excludeCertGlobs)
      ensures reg.store == old(reg.store)
    {
      s := s0;
      for i := 0 to |excludeCertGlobs|
        invariant s == s0 - AllPaths(ops, excludeCertGlobs[..i])
        invariant reg.errorTotal == old(reg.errorTotal) + FailedGlobs(ops, excludeCertGlobs[..i])
        invariant reg.store == old(reg.store)
      {
        var g := excludeCertGlobs[i];
        assert excludeCertGlobs[..i + 1][..i] == excludeCertGlobs[..i];
        var matches := ApplyGlob(ops, g);
        if matches.Fail? {
          reg.IncError();
          continue;
        }
        var ms := matches.value;
        for j := 0 to |ms|
          invariant s == s0 - AllPaths(ops, excludeCertGlobs[..i]) - Joined(ops, g, ms[..j])
        {
          assert ms[..j + 1][..j] == ms[..j];
          s := s - {Join(ops, g, ms[j])};
        }
        assert ms[..|ms|] == ms;
      }
      assert excludeCertGlobs[..|excludeCertGlobs|] == excludeCertGlobs;
    }

    /**
     * `getMatches`: the selected paths, each once; a glob that fails to
     * apply adds one to `error_total` and contributes nothing.
     */
    method GetMatches() returns (res: seq<string>)
      modifies reg
      ensures IsMatchList(res)
      ensures reg.errorTotal == old(reg.errorTotal) + FailedGlobs(ops, includeCertGlobs) + FailedGlobs(ops, excludeCertGlobs)
      ensures reg.store == old(reg.store)
    {
      var included := AddIncludes({});
      var paths := RemoveExcludes(included);
      assert paths == Selected();
      res := ListSet(paths);
    }

    /** The export loop of a tick: an export error adds one to `error_total` and the loop goes on. */
    method ExportAll(ms: seq<string>)
      modifies reg, exporter
      ensures exporter.log == old(exporter.log) + ExportEvents(ms, nodeName)
      ensures reg.errorTotal == old(reg.errorTotal) + ExportFailures(exporter.outcome, ms, nodeName)
      ensures reg.store == old(reg.store)
    {
      for i := 0 to |ms|
        invariant exporter.log == old(exporter.log) + ExportEvents(ms[..i], nodeName)
        invariant reg.errorTotal == old(reg.errorTotal) + ExportFailures(exporter.outcome, ms[..i], nodeName)
        invariant reg.store == old(reg.store)
      {
        ExportLoopStep(exporter.outcome, ms, i, nodeName);
        var err := exporter.ExportMetrics(ms[i], nodeName);
        if err.Some? {
          reg.IncError();
        }
      }
      assert ms[..|ms|] == ms;
    }

    /** One tick: reset the exporter, then export every match. */
    method Tick() returns (ghost matches: seq<string>)
      modifies reg, exporter
      ensures IsMatchList(matches)
      ensures exporter.log == old(exporter.log) + [Reset] + ExportEvents(matches, nodeName)
      ensures reg.errorTotal == old(reg.errorTotal) + FailedGlobs(ops, includeCertGlobs) + FailedGlobs(ops, excludeCertGlobs)
        + ExportFailures(exporter.outcome, matches, nodeName)
      ensures reg.store == old(reg.store)
    {
      exporter.ResetMetrics();
      var ms := GetMatches();
      matches := ms;
      ExportAll(ms);
    }
  }

  /**
   * Exclusion wins whatever the order of the globs: a path that some
   * successfully applied exclude glob produces is never selected, and every
   * selected path comes from a successfully applied include glob.
   */
  lemma SelectedPaths(ops: GlobOps, includes: seq<CertGlob>, excludes: seq<CertGlob>, p: string)
    requires p in AllPaths(ops, includes) - AllPaths(ops, excludes)
    ensures exists i :: (0 <= i < |includes| && ApplyGlob(ops, includes[i]).Ok?
      && exists m :: m in ApplyGlob(ops, includes[i]).value && Join(ops, includes[i], m) == p)
    ensures forall i, m :: (0 <= i < |excludes| && ApplyGlob(ops, excludes[i]).Ok? && m in ApplyGlob(ops, excludes[i]).value
      ==> Join(ops, excludes[i], m) != p)
  {
    AllPathsMembership(ops, includes, p);
    AllPathsMembership(ops, excludes, p);
  }

  /** A glob that fails to apply contributes no path, so the selection is that of the other globs. */
  lemma {:induction false} FailedGlobContributesNothing(ops: GlobOps, gs: seq<CertGlob>, i: nat)
    requires i < |gs| && ApplyGlob(ops, gs[i]).Fail?
    ensures AllPaths(ops, gs) == AllPaths(ops, gs[..i] + gs[i + 1..])
    ensures FailedGlobs(ops, gs) == FailedGlobs(ops, gs[..i] + gs[i + 1..]) + 1
    decreases |gs|
  {
    var n := |gs| - 1;
    if i == n {
      assert gs[..i] + gs[i + 1..] == gs[..n];
    } else {
      var rest := gs[..i] + gs[i + 1..];
      FailedGlobContributesNothing(ops, gs[..n], i);
      assert gs[..n][..i] + gs[..n][i + 1..] == rest[..|rest| - 1];
      assert rest[|rest| - 1] == gs[n];
    }
  }
}
