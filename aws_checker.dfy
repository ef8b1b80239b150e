/**
 * `PeriodicAwsChecker`: each tick resets the AWS gauge, builds a Secrets
 * Manager client for the configured region and reads every configured
 * secret. A secret's string value is a JSON object; each of its string
 * values whose key contains the configured substring is exported, a raw PEM
 * bundle after base64-encoding it, since the exporter expects base64.
 */
module AwsCheck {
  import opened Base
  import opened Metrics
  import opened Strings
  import opened CertHelpers
  import opened ExportCommon
  import opened AwsExport

  /** A value of the decoded JSON object: a string, or anything else. */
  datatype JsonValue = JsonString(text: string) | JsonOther

  /** What `GetSecretValue` returns: the secret's string value, absent for a binary secret. */
  datatype SecretValue = SecretValue(secretString: Option<string>)

  datatype Client = Client(getSecretValue: string -> Result<SecretValue>)

  const PemHeader := "-----BEGIN CERTIFICATE-----"

  /** The ARN `processSecret` asks for. */
  function SecretId(region: string, account: string, secretName: string): string {
    "arn:aws:secretsmanager:" + region + ":" + account + ":secret:" + secretName
  }

  /** The ARN starts with the service prefix and the region, and ends with `:secret:` and the name. */
  lemma SecretIdShape(region: string, account: string, secretName: string)
    ensures var id := SecretId(region, account, secretName);
      && "arn:aws:secretsmanager:" + region + ":" <= id
      && |id| == 32 + |region| + |account| + |secretName|
      && id[|id| - |secretName|..] == secretName
      && id[|id| - |secretName| - 8..|id| - |secretName|] == ":secret:"
  {
    var id := SecretId(region, account, secretName);
    var p := "arn:aws:secretsmanager:" + region + ":";
    assert id == p + (account + ":secret:" + secretName);
    assert id == ("arn:aws:secretsmanager:" + region + ":" + account) + (":secret:" + secretName);
  }

  /** In one account and region, different secret names ask for different ARNs. */
  lemma SecretIdInjective(region: string, account: string, a: string, b: string)
    requires SecretId(region, account, a) == SecretId(region, account, b)
    ensures a == b
  {
    var p := "arn:aws:secretsmanager:" + region + ":" + account + ":secret:";
    assert SecretId(region, account, a) == p + a;
    assert SecretId(region, account, b) == p + b;
    assert a == (p + a)[|p|..];
    assert b == (p + b)[|p|..];
  }

  /**
   * `processCertificateKey`'s decision: a non-string value is skipped, a raw
   * PEM bundle is base64-encoded, any other string is passed as it is.
   */
  function ExportValue(env: Env, value: JsonValue): (r: Option<string>)
    ensures r.None? <==> value.JsonOther?
    ensures value.JsonString? && !HasPrefix(value.text, PemHeader) ==> r == Some(value.text)
  {
    match value
    case JsonOther => None
    case JsonString(s) => if HasPrefix(s, PemHeader) then Some(env.base64Encode(env.utf8(s))) else Some(s)
  }

  /**
   * A raw PEM value reaches the certificate decoder as its own bytes, as long
   * as the base64 codec round-trips; a string without the header is decoded
   * from base64 as it stands.
   */
  lemma RawPemDecodedAsItself(env: Env, s: string)
    requires env.Valid()
    requires HasPrefix(s, PemHeader)
    requires env.base64Decode(env.base64Encode(env.utf8(s))) == Ok(env.utf8(s))
    ensures Base64Spec(env, ExportValue(env, JsonString(s)).value, "", NoExclusions) == DecodeSpec(env, env.utf8(s), "", NoExclusions)
  {
  }

  /** One export call: the value handed to the exporter, the secret's name, the key. */
  datatype Job = Job(file: string, secretName: string, key: string)

  /** The export calls for the keys of one decoded secret, in the order they are visited. */
  function KeyJobs(env: Env, keySubString: string, secretName: string, m: map<string, JsonValue>, keys: seq<string>): seq<Job>
    decreases |keys|
  {
    if keys == [] then []
    else
      var k := keys[|keys| - 1];
      KeyJobs(env, keySubString, secretName, m, keys[..|keys| - 1])
      + (if k in m && Contains(k, keySubString) && ExportValue(env, m[k]).Some?
         then [Job(ExportValue(env, m[k]).value, secretName, k)] else [])
  }

  /** What the exporter does with each call, in order. */
  ghost function Outcomes(env: Env, includeFile: bool, jobs: seq<Job>): (outs: seq<ExportOutcome>)
    requires env.Valid()
    ensures |outs| == |jobs|
    decreases |jobs|
  {
    if jobs == [] then []
    else
      var j := jobs[|jobs| - 1];
      Outcomes(env, includeFile, jobs[..|jobs| - 1]) + [ExportSpec(env, j.file, j.secretName, j.key, includeFile)]
  }

  lemma {:induction false} OutcomesAppend(env: Env, includeFile: bool, a: seq<Job>, b: seq<Job>)
    requires env.Valid()
    ensures Outcomes(env, includeFile, a + b) == Outcomes(env, includeFile, a) + Outcomes(env, includeFile, b)
    decreases |b|
  {
    if b == [] {
      assert a + b == a;
    } else {
      var b' := b[..|b| - 1];
      assert (a + b)[..|a + b| - 1] == a + b';
      OutcomesAppend(env, includeFile, a, b');
    }
  }

  lemma KeyJobsStep(env: Env, keySubString: string, secretName: string, m: map<string, JsonValue>, keys: seq<string>, j: nat)
    requires j < |keys|
    ensures KeyJobs(env, keySubString, secretName, m, keys[..j + 1])
         == KeyJobs(env, keySubString, secretName, m, keys[..j])
          + (if keys[j] in m && Contains(keys[j], keySubString) && ExportValue(env, m[keys[j]]).Some?
             then [Job(ExportValue(env, m[keys[j]]).value, secretName, keys[j])] else [])
  {
    assert keys[..j + 1][..j] == keys[..j];
  }

  /**
   * A key leads to an export call exactly when it is a key of the decoded
   * object, contains the substring, and holds a string.
   */
  lemma {:induction false} KeyExportedIff(env: Env, keySubString: string, secretName: string, m: map<string, JsonValue>,
                                          keys: seq<string>, k: string)
    ensures (exists j :: j in KeyJobs(env, keySubString, secretName, m, keys) && j.key == k)
        <==> k in keys && k in m && Contains(k, keySubString) && m[k].JsonString?
    ensures forall j :: j in KeyJobs(env, keySubString, secretName, m, keys) ==>
      j.secretName == secretName && j.key in m && Some(j.file) == ExportValue(env, m[j.key])
    decreases |keys|
  {
    if keys != [] {
      var init := keys[..|keys| - 1];
      var last := keys[|keys| - 1];
      KeyExportedIff(env, keySubString, secretName, m, init, k);
      assert keys == init + [last];
      if last == k && k in m && Contains(k, keySubString) && m[k].JsonString? {
        var j := Job(ExportValue(env, m[k]).value, secretName, k);
        assert j in KeyJobs(env, keySubString, secretName, m, keys);
      }
    }
  }

  /** With the empty substring every string value of the secret is exported. */
  lemma EmptySubstringSelectsAll(env: Env, secretName: string, m: map<string, JsonValue>, keys: seq<string>, k: string)
    requires k in keys && k in m && m[k].JsonString?
    ensures exists j :: j in KeyJobs(env, "", secretName, m, keys) && j.key == k
  {
    ContainsEmpty(k);
    KeyExportedIff(env, "", secretName, m, keys, k);
  }

  /** What reading one secret gives: an error, no string value, or the decoded JSON object. */
  function Fetched(client: Client, json: string -> Result<map<string, JsonValue>>, id: string): Result<Option<map<string, JsonValue>>> {
    match client.getSecretValue(id)
    case Fail(e) => Fail(e)
    case Ok(v) =>
      if v.secretString.None? then Ok(None)
      else match json(v.secretString.value)
        case Fail(e) => Fail(e)
        case Ok(m) => Ok(Some(m))
  }

  class PeriodicAwsChecker {
    const awsAccount: string
    const awsRegion: string
    const awsKeySubString: string
    const awsSecrets: seq<string>
    const awsIncludeFileInMetrics: bool
    const period: nat
    const exporter: AwsExporter
    const clientFactory: string -> Result<Client>
    /** `json.Unmarshal` into a map of JSON values. */
    const json: string -> Result<map<string, JsonValue>>

    /** `NewAwsCheckerWithClientFactory`: every argument is kept as given. */
    constructor (awsAccount: string, awsRegion: string, awsKeySubString: string, awsSecrets: seq<string>,
                 awsIncludeFileInMetrics: bool, period: nat, e: AwsExporter, clientFactory: string -> Result<Client>,
                 json: string -> Result<map<string, JsonValue>>)
      ensures this.awsAccount == awsAccount && this.awsRegion == awsRegion && this.awsKeySubString == awsKeySubString
      ensures this.awsSecrets == awsSecrets && this.awsIncludeFileInMetrics == awsIncludeFileInMetrics
      ensures this.period == period && this.exporter == e && this.clientFactory == clientFactory && this.json == json
    {
      this.awsAccount := awsAccount;
      this.awsRegion := awsRegion;
      this.awsKeySubString := awsKeySubString;
      this.awsSecrets := awsSecrets;
      this.awsIncludeFileInMetrics := awsIncludeFileInMetrics;
      this.period := period;
      this.exporter := e;
      this.clientFactory := clientFactory;
      this.json := json;
    }

    function Fetch(client: Client, secretName: string): Result<Option<map<string, JsonValue>>> {
      Fetched(client, json, SecretId(awsRegion, awsAccount, secretName))
    }

    /** The export calls for one secret: none unless it was read and decoded. */
    function SecretJobs(client: Client, secretName: string, keys: seq<string>): seq<Job> {
      match Fetch(client, secretName)
      case Ok(Some(m)) => KeyJobs(exporter.env, awsKeySubString, secretName, m, keys)
      case _ => []
    }

    /** `keys` lists the decoded object's keys, each once, when there is one. */
    ghost predicate VisitOrder(client: Client, secretName: string, keys: seq<string>) {
      match Fetch(client, secretName)
      case Ok(Some(m)) => Enumerates(keys, m.Keys)
      case _ => keys == []
    }

    /** `orders[i]` is the visit order of the `i`-th secret. */
    ghost predicate VisitOrders(client: Client, names: seq<string>, orders: seq<seq<string>>) {
      |orders| == |names| && forall i :: 0 <= i < |names| ==> VisitOrder(client, names[i], orders[i])
    }

    lemma VisitOrdersStep(client: Client, names: seq<string>, orders: seq<seq<string>>, keys: seq<string>)
      requires |orders| < |names|
      requires VisitOrders(client, names[..|orders|], orders)
      requires VisitOrder(client, names[|orders|], keys)
      ensures VisitOrders(client, names[..|orders| + 1], orders + [keys])
    {
      var i := |orders|;
      forall k | 0 <= k < i + 1
        ensures VisitOrder(client, names[..i + 1][k], (orders + [keys])[k])
      {
        if k < i {
          assert names[..i + 1][k] == names[..i][k];
        }
      }
    }

    /** The export calls for the secrets, secret by secret. */
    function AllJobs(client: Client, names: seq<string>, orders: seq<seq<string>>): seq<Job>
      requires |orders| == |names|
      decreases |names|
    {
      if names == [] then []
      else
        var n := |names| - 1;
        AllJobs(client, names[..n], orders[..n]) + SecretJobs(client, names[n], orders[n])
    }

    /** How many secrets could not be read or decoded. */
    function FetchFailures(client: Client, names: seq<string>): (n: nat)
      ensures n <= |names|
      decreases |names|
    {
      if names == [] then 0
      else FetchFailures(client, names[..|names| - 1]) + (if Fetch(client, names[|names| - 1]).Fail? then 1 else 0)
    }

    /** `processCertificateKey`: skips a non-string value, exports the (re-encoded) string otherwise. */
    method ProcessCertificateKey(secretName: string, key: string, value: JsonValue) returns (err: Option<Err>)
      requires exporter.env.Valid()
      modifies exporter.reg
      ensures ExportValue(exporter.env, value).None? ==> err == None && exporter.reg.store == old(exporter.reg.store)
      ensures ExportValue(exporter.env, value).Some? ==>
        var o := ExportSpec(exporter.env, ExportValue(exporter.env, value).value, secretName, key, awsIncludeFileInMetrics);
        err == o.err && exporter.reg.store == Apply(old(exporter.reg.store), o.samples)
      ensures exporter.reg.errorTotal == old(exporter.reg.errorTotal)
    {
      if !value.JsonString? {
        return None;
      }
      var stringValue := value.text;
      if HasPrefix(stringValue, PemHeader) {
        stringValue := exporter.env.base64Encode(exporter.env.utf8(stringValue));
      }
      err := exporter.ExportMetrics(stringValue, secretName, key, awsIncludeFileInMetrics);
    }

    /** `processSecret`: reads one secret and exports its selected keys; a failing key adds one to `error_total`. */
    method ProcessSecret(client: Client, secretName: string) returns (err: Option<Err>, ghost keys: seq<string>, ghost jobs: seq<Job>)
      requires exporter.env.Valid()
      modifies exporter.reg
      ensures err == (if Fetch(client, secretName).Fail? then Some(Fetch(client, secretName).err) else None)
      ensures VisitOrder(client, secretName, keys)
      ensures jobs == SecretJobs(client, secretName, keys)
      ensures exporter.reg.store == Apply(old(exporter.reg.store), AllSamples(Outcomes(exporter.env, awsIncludeFileInMetrics, jobs)))
      ensures exporter.reg.errorTotal == old(exporter.reg.errorTotal) + FailureCount(Outcomes(exporter.env, awsIncludeFileInMetrics, jobs))
    {
      var env := exporter.env;
      var reg := exporter.reg;
      keys, jobs := [], [];
      var secretValue := client.getSecretValue(SecretId(awsRegion, awsAccount, secretName));
      if secretValue.Fail? {
        return Some(secretValue.err), keys, jobs;
      }
      if secretValue.value.secretString.None? {
        return None, keys, jobs;
      }
      var secretMap := json(secretValue.value.secretString.value);
      if secretMap.Fail? {
        return Some(secretMap.err), keys, jobs;
      }
      var m := secretMap.value;
      var names := Enumerate(m.Keys);
      keys := names;
      for j := 0 to |names|
        invariant jobs == KeyJobs(env, awsKeySubString, secretName, m, names[..j])
        invariant reg.store == Apply(old(reg.store), AllSamples(Outcomes(env, awsIncludeFileInMetrics, jobs)))
        invariant reg.errorTotal == old(reg.errorTotal) + FailureCount(Outcomes(env, awsIncludeFileInMetrics, jobs))
      {
        var key := names[j];
        KeyJobsStep(env, awsKeySubString, secretName, m, names, j);
        if Contains(key, awsKeySubString) {
          var value := m[key];
          if ExportValue(env, value).Some? {
            var job := Job(ExportValue(env, value).value, secretName, key);
            assert (jobs + [job])[..|jobs|] == jobs;
            ExportStep(old(reg.store), Outcomes(env, awsIncludeFileInMetrics, jobs),
                       ExportSpec(env, job.file, secretName, key, awsIncludeFileInMetrics));
            jobs := jobs + [job];
          }
          var e := ProcessCertificateKey(secretName, key, value);
          if e.Some? {
            reg.IncError();
          }
        }
      }
      assert names[..|names|] == names;
      err := None;
    }

    /** The body of the secret loop of `checkSecrets`: a secret that fails adds one to `error_total`. */
    method ProcessCounted(client: Client, secretName: string) returns (ghost keys: seq<string>, ghost jobs: seq<Job>)
      requires exporter.env.Valid()
      modifies exporter.reg
      ensures VisitOrder(client, secretName, keys)
      ensures jobs == SecretJobs(client, secretName, keys)
      ensures exporter.reg.store == Apply(old(exporter.reg.store), AllSamples(Outcomes(exporter.env, awsIncludeFileInMetrics, jobs)))
      ensures exporter.reg.errorTotal == old(exporter.reg.errorTotal)
        + (if Fetch(client, secretName).Fail? then 1 else 0) + FailureCount(Outcomes(exporter.env, awsIncludeFileInMetrics, jobs))
    {
      var e;
      e, keys, jobs := ProcessSecret(client, secretName);
      if e.Some? {
        exporter.reg.IncError();
      }
    }

    /** The secret loop of `checkSecrets`: a failing secret adds one to `error_total` and the rest are still processed. */
    method ProcessAll(client: Client) returns (ghost orders: seq<seq<string>>, ghost jobs: seq<Job>)
      requires exporter.env.Valid()
      modifies exporter.reg
      ensures VisitOrders(client, awsSecrets, orders)
      ensures jobs == AllJobs(client, awsSecrets, orders)
      ensures exporter.reg.store == Apply(old(exporter.reg.store), AllSamples(Outcomes(exporter.env, awsIncludeFileInMetrics, jobs)))
      ensures exporter.reg.errorTotal == old(exporter.reg.errorTotal)
        + FetchFailures(client, awsSecrets) + FailureCount(Outcomes(exporter.env, awsIncludeFileInMetrics, jobs))
    {
      var env := exporter.env;
      var reg := exporter.reg;
      orders, jobs := [], [];
      for i := 0 to |awsSecrets|
        invariant VisitOrders(client, awsSecrets[..i], orders)
        invariant jobs == AllJobs(client, awsSecrets[..i], orders)
        invariant reg.store == Apply(old(reg.store), AllSamples(Outcomes(env, awsIncludeFileInMetrics, jobs)))
        invariant reg.errorTotal == old(reg.errorTotal)
          + FetchFailures(client, awsSecrets[..i]) + FailureCount(Outcomes(env, awsIncludeFileInMetrics, jobs))
      {
        ghost var s1, e1 := reg.store, reg.errorTotal;
        ghost var keys, more := ProcessCounted(client, awsSecrets[i]);
        ProcessAllStep(client, orders, jobs, keys, more, old(reg.store), old(reg.errorTotal), s1, e1, reg.store, reg.errorTotal);
        orders := orders + [keys];
        jobs := jobs + more;
      }
      assert awsSecrets[..|awsSecrets|] == awsSecrets;
    }

    /** One turn of the secret loop keeps the loop's four facts, one secret further. */
    lemma ProcessAllStep(client: Client, orders: seq<seq<string>>, jobs: seq<Job>, keys: seq<string>, more: seq<Job>,
                         s0: Store, e0: int, s1: Store, e1: int, s2: Store, e2: int)
      requires exporter.env.Valid()
      requires |orders| < |awsSecrets|
      requires VisitOrders(client, awsSecrets[..|orders|], orders)
      requires jobs == AllJobs(client, awsSecrets[..|orders|], orders)
      requires s1 == Apply(s0, AllSamples(Outcomes(exporter.env, awsIncludeFileInMetrics, jobs)))
      requires e1 == e0 + FetchFailures(client, awsSecrets[..|orders|]) + FailureCount(Outcomes(exporter.env, awsIncludeFileInMetrics, jobs))
      requires VisitOrder(client, awsSecrets[|orders|], keys)
      requires more == SecretJobs(client, awsSecrets[|orders|], keys)
      requires s2 == Apply(s1, AllSamples(Outcomes(exporter.env, awsIncludeFileInMetrics, more)))
      requires e2 == e1 + (if Fetch(client, awsSecrets[|orders|]).Fail? then 1 else 0)
        + FailureCount(Outcomes(exporter.env, awsIncludeFileInMetrics, more))
      ensures VisitOrders(client, awsSecrets[..|orders| + 1], orders + [keys])
      ensures jobs + more == AllJobs(client, awsSecrets[..|orders| + 1], orders + [keys])
      ensures s2 == Apply(s0, AllSamples(Outcomes(exporter.env, awsIncludeFileInMetrics, jobs + more)))
      ensures e2 == e0 + FetchFailures(client, awsSecrets[..|orders| + 1])
        + FailureCount(Outcomes(exporter.env, awsIncludeFileInMetrics, jobs + more))
    {
      var env := exporter.env;
      AllJobsStep(client, awsSecrets, orders, keys);
      VisitOrdersStep(client, awsSecrets, orders, keys);
      OutcomesAppend(env, awsIncludeFileInMetrics, jobs, more);
      ExportRuns(s0, Outcomes(env, awsIncludeFileInMetrics, jobs), Outcomes(env, awsIncludeFileInMetrics, more));
    }

    /**
     * `checkSecrets`: a client that cannot be built adds one to
     * `error_total` and is returned; otherwise every secret is processed and
     * the result is nil.
     */
    method CheckSecrets() returns (err: Option<Err>, ghost orders: seq<seq<string>>, ghost jobs: seq<Job>)
      requires exporter.env.Valid()
      modifies exporter.reg
      ensures clientFactory(awsRegion).Fail? ==>
        && err == Some(clientFactory(awsRegion).err) && jobs == []
        && exporter.reg.store == old(exporter.reg.store) && exporter.reg.errorTotal == old(exporter.reg.errorTotal) + 1
      ensures clientFactory(awsRegion).Ok? ==>
        var client := clientFactory(awsRegion).value;
        && err == None
        && VisitOrders(client, awsSecrets, orders)
        && jobs == AllJobs(client, awsSecrets, orders)
        && exporter.reg.store == Apply(old(exporter.reg.store), AllSamples(Outcomes(exporter.env, awsIncludeFileInMetrics, jobs)))
        && exporter.reg.errorTotal == old(exporter.reg.errorTotal)
             + FetchFailures(client, awsSecrets) + FailureCount(Outcomes(exporter.env, awsIncludeFileInMetrics, jobs))
    {
      var made := clientFactory(awsRegion);
      if made.Fail? {
        exporter.reg.IncError();
        return Some(made.err), [], [];
      }
      orders, jobs := ProcessAll(made.value);
      err := None;
    }

    lemma AllJobsStep(client: Client, names: seq<string>, orders: seq<seq<string>>, keys: seq<string>)
      requires |orders| < |names|
      ensures AllJobs(client, names[..|orders| + 1], orders + [keys])
           == AllJobs(client, names[..|orders|], orders) + SecretJobs(client, names[|orders|], keys)
      ensures FetchFailures(client, names[..|orders| + 1])
           == FetchFailures(client, names[..|orders|]) + (if Fetch(client, names[|orders|]).Fail? then 1 else 0)
    {
      var i := |orders|;
      assert names[..i + 1][..i] == names[..i];
      assert (orders + [keys])[..i] == orders;
    }

    /**
     * One tick: reset the AWS gauge and check the secrets; an error from the
     * check adds one more to `error_total`, so a client that cannot be built
     * counts twice.
     */
    method Tick() returns (ghost orders: seq<seq<string>>, ghost jobs: seq<Job>)
      requires exporter.env.Valid()
      modifies exporter.reg
      ensures clientFactory(awsRegion).Fail? ==>
        && jobs == []
        && exporter.reg.store == ResetStore(old(exporter.reg.store))
        && exporter.reg.errorTotal == old(exporter.reg.errorTotal) + 2
      ensures clientFactory(awsRegion).Ok? ==>
        var client := clientFactory(awsRegion).value;
        && VisitOrders(client, awsSecrets, orders)
        && jobs == AllJobs(client, awsSecrets, orders)
        && exporter.reg.store == Apply(ResetStore(old(exporter.reg.store)), AllSamples(Outcomes(exporter.env, awsIncludeFileInMetrics, jobs)))
        && exporter.reg.errorTotal == old(exporter.reg.errorTotal)
             + FetchFailures(client, awsSecrets) + FailureCount(Outcomes(exporter.env, awsIncludeFileInMetrics, jobs))
    {
      exporter.ResetMetrics();
      var err;
      err, orders, jobs := CheckSecrets();
      if err.Some? {
        exporter.reg.IncError();
      }
    }
  }
}
