/**
 * Values shared by every part of the model: bytes, optional values, the
 * errors the exporter reports, and the outcome of a glob match.
 */
module Base {

  newtype byte = x: int | 0 <= x < 256

  /** A Go `[]byte`. */
  type Bytes = seq<byte>

  datatype Option<T> = None | Some(value: T)

  /**
   * The errors the modelled code creates or passes on. `Cause` stands for an
   * error produced by a collaborator (a decoder, an API client, the file
   * system) whose text the model does not look into; the other constructors
   * are the errors the exporter itself formats, with the values they mention.
   */
  datatype Err =
    | Cause(reason: string)
    | NoPemData
    | JksDecode(inner: Err)
    | JksTrustedEntry(alias: string, inner: Err)
    | JksTrustedParse(alias: string, inner: Err)
    | JksPrivateKeyEntry(alias: string, inner: Err)
    | JksChainParse(alias: string, index: nat, inner: Err)
    | AllFormatsFailed(pem: Option<Err>, pkcs: Option<Err>, jks: Option<Err>)
    | ClusterWithoutCertificate(cluster: string)
    | UserWithoutCertificate(user: string)
    | PasswordSpecFormat(spec: string)
    | PasswordSpecEmptyGlob(spec: string)
    | PasswordSpecBadGlob(pattern: string, spec: string, inner: Err)

  datatype Result<T> = Ok(value: T) | Fail(err: Err)

  /** What a glob engine says about one pattern and one string. */
  datatype MatchOutcome = Matched | NoMatch | Malformed

  /** A glob engine such as Go's `filepath.Match(pattern, name)`. */
  type Matcher = (string, string) -> MatchOutcome

  /** No element occurs twice. */
  ghost predicate Distinct<T>(xs: seq<T>) {
    forall i, j :: 0 <= i < j < |xs| ==> xs[i] != xs[j]
  }

  /** `xs` is `keys` listed in some order, each once: a map's iteration order. */
  ghost predicate Enumerates(xs: seq<string>, keys: set<string>) {
    Distinct(xs) && (forall x :: x in xs <==> x in keys)
  }

  /** Lists the elements of a set in an order the caller cannot rely on. */
  method Enumerate(keys: set<string>) returns (xs: seq<string>)
    ensures Enumerates(xs, keys)
    ensures |xs| == |keys|
  {
    xs := [];
    var rest := keys;
    while rest != {}
      invariant Distinct(xs)
      invariant forall x :: x in xs <==> x in keys && x !in rest
      invariant rest <= keys
      invariant |xs| + |rest| == |keys|
      decreases |rest|
    {
      var x :| x in rest;
      xs := xs + [x];
      rest := rest - {x};
    }
  }
}
