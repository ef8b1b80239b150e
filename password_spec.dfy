/**
 * The `--password-spec` command-line flag: a list of `glob:password` pairs.
 * `Set` parses one pair and appends it; `String` renders the list for help
 * text with every password masked.
 */
module PasswordSpecArgs {
  import opened Base
  import opened Strings

  /** A compiled glob (`glob.Glob` of gobwas/glob): whether it matches a path. */
  type CompiledGlob = string -> bool

  /** One `glob:password` pair with its compiled pattern. */
  datatype PasswordSpec = PasswordSpec(globPattern: string, password: string, compiled: CompiledGlob)

  /** The mask written in place of every password. */
  const Mask: string := "****"

  /**
   * How one spec is shown: its quoted glob pattern, a colon and the mask.
   * `printable` is strconv's table of printable characters above U+00FF.
   */
  function Masked(printable: char -> bool, spec: PasswordSpec): string {
    Quote(printable, spec.globPattern) + ":" + Mask
  }

  /** The rendered pieces, one per spec, in list order. */
  function MaskedParts(printable: char -> bool, specs: seq<PasswordSpec>): (parts: seq<string>) {
    seq(|specs|, i requires 0 <= i < |specs| => Masked(printable, specs[i]))
  }

  /** What `String` returns: nothing for an empty list, else the masked pieces joined by ", ". */
  function Render(printable: char -> bool, specs: seq<PasswordSpec>): string {
    if specs == [] then "" else Join(MaskedParts(printable, specs), ", ")
  }

  /**
   * Parses one flag value: it must contain a colon; the glob pattern is the
   * text before the first colon with white space trimmed and must be non-empty
   * and compile; the password is all the text after that colon, untouched.
   */
  function Parse(compile: string -> Result<CompiledGlob>, value: string): (r: Result<PasswordSpec>)
    ensures ':' !in value <==> r == Fail(PasswordSpecFormat(value))
    ensures r.Ok? ==>
      var k := |value| - |r.value.password| - 1;
      && 0 <= k && value[k] == ':' && ':' !in value[..k]
      && value[k + 1..] == r.value.password
      && r.value.globPattern == TrimSpace(value[..k])
      && r.value.globPattern != ""
      && compile(r.value.globPattern) == Ok(r.value.compiled)
    ensures r.Fail? && r.err.PasswordSpecEmptyGlob? ==> ':' in value && TrimSpace(value[..IndexOf(value, ':')]) == ""
    ensures r.Fail? && r.err.PasswordSpecBadGlob? ==>
      && ':' in value && r.err.pattern == TrimSpace(value[..IndexOf(value, ':')]) && r.err.spec == value
      && compile(r.err.pattern) == Fail(r.err.inner)
  {
    if ':' !in value then Fail(PasswordSpecFormat(value))
    else
      var k := IndexOf(value, ':');
      var pattern := TrimSpace(value[..k]);
      var password := value[k + 1..];
      if pattern == "" then Fail(PasswordSpecEmptyGlob(value))
      else
        match compile(pattern)
        case Fail(e) => Fail(PasswordSpecBadGlob(pattern, value, e))
        case Ok(g) => Ok(PasswordSpec(pattern, password, g))
  }

  /**
   * `PasswordSpecFlag`: the specs given so far, with the glob compiler and
   * strconv's table of printable characters above U+00FF as collaborators.
   */
  class PasswordSpecFlag {
    var specs: seq<PasswordSpec>
    const compile: string -> Result<CompiledGlob>
    const printable: char -> bool

    constructor (compile: string -> Result<CompiledGlob>, printable: char -> bool)
      ensures specs == [] && this.compile == compile && this.printable == printable
    {
      specs := [];
      this.compile := compile;
      this.printable := printable;
    }

    /** `String`: the masked pieces built one by one, then joined. */
    method String() returns (s: string)
      ensures s == Render(printable, specs)
    {
      if |specs| == 0 {
        return "";
      }
      var parts: seq<string> := [];
      for i := 0 to |specs|
        invariant |parts| == i
        invariant forall j :: 0 <= j < i ==> parts[j] == Masked(printable, specs[j])
      {
        parts := parts + [Quote(printable, specs[i].globPattern) + ":" + Mask];
      }
      assert parts == MaskedParts(printable, specs);
      s := Join(parts, ", ");
    }

    /** `Set`: a value that parses is appended at the end; on an error nothing changes. */
    method Set(value: string) returns (err: Option<Err>)
      modifies this
      ensures Parse(compile, value).Fail? ==> err == Some(Parse(compile, value).err) && specs == old(specs)
      ensures Parse(compile, value).Ok? ==> err == None && specs == old(specs) + [Parse(compile, value).value]
    {
      var r := Parse(compile, value);
      if r.Fail? {
        return Some(r.err);
      }
      specs := specs + [r.value];
      return None;
    }
  }

  /**
   * The rendering depends on the glob patterns only: two lists with the same
   * patterns in the same order render the same, whatever their passwords.
   */
  lemma RenderHidesPasswords(printable: char -> bool, a: seq<PasswordSpec>, b: seq<PasswordSpec>)
    requires |a| == |b|
    requires forall i :: 0 <= i < |a| ==> a[i].globPattern == b[i].globPattern
    ensures Render(printable, a) == Render(printable, b)
  {
    assert MaskedParts(printable, a) == MaskedParts(printable, b);
  }

  /** Joining one more piece puts the separator and that piece at the end. */
  lemma {:induction false} JoinAppend(parts: seq<string>, p: string, sep: string)
    requires parts != []
    ensures Join(parts + [p], sep) == Join(parts, sep) + sep + p
    decreases |parts|
  {
    if |parts| == 1 {
      assert (parts + [p])[1..] == [p];
    } else {
      JoinAppend(parts[1..], p, sep);
      assert (parts + [p])[1..] == parts[1..] + [p];
    }
  }

  /** Appending a spec to a non-empty list appends ", " and its masked form to the rendering. */
  lemma RenderAppend(printable: char -> bool, specs: seq<PasswordSpec>, spec: PasswordSpec)
    ensures specs == [] ==> Render(printable, specs + [spec]) == Masked(printable, spec)
    ensures specs != [] ==> Render(printable, specs + [spec]) == Render(printable, specs) + ", " + Masked(printable, spec)
  {
    assert MaskedParts(printable, specs + [spec]) == MaskedParts(printable, specs) + [Masked(printable, spec)];
    if specs != [] {
      JoinAppend(MaskedParts(printable, specs), Masked(printable, spec), ", ");
    }
  }

  /**
   * Writing a colon-free pattern, a colon and any password parses back to the
   * trimmed pattern and exactly that password, further colons and spaces
   * included.
   */
  lemma ParseJoined(compile: string -> Result<CompiledGlob>, pattern: string, password: string)
    requires ':' !in pattern
    requires TrimSpace(pattern) != ""
    requires compile(TrimSpace(pattern)).Ok?
    ensures Parse(compile, pattern + ":" + password).Ok?
    ensures Parse(compile, pattern + ":" + password).value.globPattern == TrimSpace(pattern)
    ensures Parse(compile, pattern + ":" + password).value.password == password
  {
    var value := pattern + ":" + password;
    assert value[|pattern|] == ':';
    assert value[..|pattern|] == pattern;
    assert IndexOf(value, ':') == |pattern|;
    assert value[|pattern| + 1..] == password;
  }
}
