/**
 * The older file checker of `src/certs/certs.go`: it lists the matches of
 * its include globs after a leading empty path and names every match that
 * no exclude pattern matches. Its constructor keeps only the period.
 */
module LegacyCerts {
  import opened Base

  /** The matches of the include globs in glob order; a glob that fails adds nothing. */
  function GlobMatches(glob: string -> Result<seq<string>>, includeGlobs: seq<string>): seq<string>
    decreases |includeGlobs|
  {
    if includeGlobs == [] then []
    else
      var g := includeGlobs[|includeGlobs| - 1];
      GlobMatches(glob, includeGlobs[..|includeGlobs| - 1]) + (if glob(g).Ok? then glob(g).value else [])
  }

  /** No exclude pattern reports a match for `file`, and none of them is malformed. */
  ghost predicate NotExcluded(pathMatch: Matcher, excludeGlobs: seq<string>, file: string) {
    forall i :: 0 <= i < |excludeGlobs| ==> pathMatch(excludeGlobs[i], file) == NoMatch
  }

  /** The candidates that pass the exclude patterns, in candidate order. */
  ghost function Included(pathMatch: Matcher, excludeGlobs: seq<string>, candidates: seq<string>): seq<string>
    decreases |candidates|
  {
    if candidates == [] then []
    else
      var f := candidates[|candidates| - 1];
      Included(pathMatch, excludeGlobs, candidates[..|candidates| - 1])
      + (if NotExcluded(pathMatch, excludeGlobs, f) then [f] else [])
  }

  class PeriodicCertChecker {
    const period: nat
    const includeGlobs: seq<string>
    const excludeGlobs: seq<string>
    /** `filepath.Glob`. */
    const glob: string -> Result<seq<string>>
    /** `filepath.Match`. */
    const pathMatch: Matcher

    /** `NewCertChecker`: the glob lists it is given are dropped. */
    constructor (period: nat, includeGlobs: seq<string>, excludeGlobs: seq<string>,
                 glob: string -> Result<seq<string>>, pathMatch: Matcher)
      ensures this.period == period && this.includeGlobs == [] && this.excludeGlobs == []
      ensures this.glob == glob && this.pathMatch == pathMatch
    {
      this.period := period;
      this.includeGlobs := [];
      this.excludeGlobs := [];
      this.glob := glob;
      this.pathMatch := pathMatch;
    }

    /** `getMatches`: one empty path, then every include glob's matches in order. */
    method GetMatches() returns (ret: seq<string>)
      ensures ret == [""] + GlobMatches(glob, includeGlobs)
    {
      ret := [""];
      for i := 0 to |includeGlobs|
        invariant ret == [""] + GlobMatches(glob, includeGlobs[..i])
      {
        assert includeGlobs[..i + 1][..i] == includeGlobs[..i];
        var matches := glob(includeGlobs[i]);
        if matches.Fail? {
          continue;
        }
        ret := ret + matches.value;
      }
      assert includeGlobs[..|includeGlobs|] == includeGlobs;
    }

    /** `includeFile`: false at the first malformed or matching exclude pattern. */
    method IncludeFile(file: string) returns (r: bool)
      ensures r == NotExcluded(pathMatch, excludeGlobs, file)
    {
      for i := 0 to |excludeGlobs|
        invariant forall j :: 0 <= j < i ==> pathMatch(excludeGlobs[j], file) == NoMatch
      {
        var exclude := pathMatch(excludeGlobs[i], file);
        if exclude == Malformed {
          return false;
        }
        if exclude == Matched {
          return false;
        }
      }
      return true;
    }

    /** One check of `StartChecking`: the matches it publishes, in match order. */
    method Tick() returns (published: seq<string>)
      ensures published == Included(pathMatch, excludeGlobs, [""] + GlobMatches(glob, includeGlobs))
    {
      var matches := GetMatches();
      published := [];
      for i := 0 to |matches|
        invariant published == Included(pathMatch, excludeGlobs, matches[..i])
      {
        assert matches[..i + 1][..i] == matches[..i];
        var included := IncludeFile(matches[i]);
        if !included {
          continue;
        }
        published := published + [matches[i]];
      }
      assert matches[..|matches|] == matches;
    }
  }

  /** A path is a match exactly when some include glob succeeded and listed it. */
  lemma {:induction false} GlobMatchesMembership(glob: string -> Result<seq<string>>, includeGlobs: seq<string>, p: string)
    ensures p in GlobMatches(glob, includeGlobs) <==>
      exists g :: g in includeGlobs && glob(g).Ok? && p in glob(g).value
    decreases |includeGlobs|
  {
    if includeGlobs != [] {
      var init := includeGlobs[..|includeGlobs| - 1];
      GlobMatchesMembership(glob, init, p);
      assert includeGlobs == init + [includeGlobs[|includeGlobs| - 1]];
    }
  }

  /** A candidate is published exactly when it is a candidate that no exclude pattern rejects. */
  lemma {:induction false} IncludedMembership(pathMatch: Matcher, excludeGlobs: seq<string>, candidates: seq<string>, f: string)
    ensures f in Included(pathMatch, excludeGlobs, candidates) <==> f in candidates && NotExcluded(pathMatch, excludeGlobs, f)
    decreases |candidates|
  {
    if candidates != [] {
      var init := candidates[..|candidates| - 1];
      IncludedMembership(pathMatch, excludeGlobs, init, f);
      assert candidates == init + [candidates[|candidates| - 1]];
    }
  }

  /** Without exclude patterns every candidate is published, in order. */
  lemma {:induction false} NoExcludesIncludesAll(pathMatch: Matcher, candidates: seq<string>)
    ensures Included(pathMatch, [], candidates) == candidates
    decreases |candidates|
  {
    if candidates != [] {
      NoExcludesIncludesAll(pathMatch, candidates[..|candidates| - 1]);
    }
  }

  /** A checker built by `NewCertChecker` only ever publishes the empty path. */
  lemma FreshCheckerPublishesEmptyPath(glob: string -> Result<seq<string>>, pathMatch: Matcher)
    ensures Included(pathMatch, [], [""] + GlobMatches(glob, [])) == [""]
  {
    NoExcludesIncludesAll(pathMatch, [""]);
  }
}
