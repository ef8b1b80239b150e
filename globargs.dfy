/**
 * `GlobArgs`: a repeatable command-line flag that collects its values in the
 * order they were given.
 */
module GlobArgsFlag {
  import opened Base

  class GlobArgs {
    var values: seq<string>

    constructor ()
      ensures values == []
    {
      values := [];
    }

    /** `String` names the flag type instead of listing the values. */
    method String() returns (s: string)
      ensures s == "globargs"
    {
      s := "globargs";
    }

    /** `Set` appends the value, the empty string included, and never fails. */
    method Set(value: string) returns (err: Option<Err>)
      modifies this
      ensures err == None
      ensures values == old(values) + [value]
    {
      values := values + [value];
      err := None;
    }
  }
}
