/**
 * `GetPasswordForFile`: the password of the first spec whose glob matches a
 * path, or the default password when none does.
 */
module PasswordResolver {
  import opened PasswordSpecArgs

  /** The first spec, in list order, whose compiled glob matches `filePath`. */
  ghost predicate FirstMatch(filePath: string, specs: seq<PasswordSpec>, i: int) {
    && 0 <= i < |specs| && specs[i].compiled(filePath)
    && forall j :: 0 <= j < i ==> !specs[j].compiled(filePath)
  }

  function PasswordForFile(filePath: string, specs: seq<PasswordSpec>, defaultPassword: string): (r: string)
    ensures r == defaultPassword || exists i :: 0 <= i < |specs| && r == specs[i].password
    decreases |specs|
  {
    if specs == [] then defaultPassword
    else if specs[0].compiled(filePath) then specs[0].password
    else
      var r := PasswordForFile(filePath, specs[1..], defaultPassword);
      assert r != defaultPassword ==> exists i :: 1 <= i < |specs| && r == specs[i].password by {
        if r != defaultPassword {
          var i :| 0 <= i < |specs[1..]| && r == specs[1..][i].password;
          assert r == specs[i + 1].password;
        }
      }
      r
  }

  /** When some spec matches, the earliest matching one supplies the password. */
  lemma {:induction false} FirstMatchWins(filePath: string, specs: seq<PasswordSpec>, defaultPassword: string, i: int)
    requires FirstMatch(filePath, specs, i)
    ensures PasswordForFile(filePath, specs, defaultPassword) == specs[i].password
    decreases |specs|
  {
    if i > 0 {
      assert !specs[0].compiled(filePath);
      assert FirstMatch(filePath, specs[1..], i - 1);
      FirstMatchWins(filePath, specs[1..], defaultPassword, i - 1);
    }
  }

  /** When no spec matches, the empty list included, the default is returned. */
  lemma {:induction false} NoMatchDefault(filePath: string, specs: seq<PasswordSpec>, defaultPassword: string)
    requires forall i :: 0 <= i < |specs| ==> !specs[i].compiled(filePath)
    ensures PasswordForFile(filePath, specs, defaultPassword) == defaultPassword
    decreases |specs|
  {
    if specs != [] {
      NoMatchDefault(filePath, specs[1..], defaultPassword);
    }
  }
}
