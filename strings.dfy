/**
 * The parts of Go's `strings` and `strconv` packages the modelled code uses:
 * `TrimSpace`, `Split` and `Join` on a one-character separator, `HasPrefix`,
 * `Contains`, and the `%q` quoting of `fmt`.
 */
module Strings {

  /** Go's `unicode.IsSpace`. */
  predicate IsSpace(c: char) {
    c == ' ' || c == '\t' || c == '\n' || c == '\r' || c == '\U{000B}' || c == '\U{000C}'
    || c == '\U{0085}' || c == '\U{00A0}' || c == '\U{1680}'
    || ('\U{2000}' <= c <= '\U{200A}')
    || c == '\U{2028}' || c == '\U{2029}' || c == '\U{202F}' || c == '\U{205F}' || c == '\U{3000}'
  }

  /** `s` without its leading white space: a suffix of `s`. */
  function TrimLeft(s: string): (r: string)
    ensures |r| <= |s| && r == s[|s| - |r|..]
  {
    if s != [] && IsSpace(s[0]) then TrimLeft(s[1..]) else s
  }

  /** `s` without its trailing white space: a prefix of `s`. */
  function TrimRight(s: string): (r: string)
    ensures |r| <= |s| && r == s[..|r|]
  {
    if s != [] && IsSpace(s[|s| - 1]) then TrimRight(s[..|s| - 1]) else s
  }

  /** `TrimLeft` cuts only white space, and the rest does not start with it. */
  lemma {:induction false} TrimLeftCutsSpace(s: string)
    ensures forall i :: 0 <= i < |s| - |TrimLeft(s)| ==> IsSpace(s[i])
    ensures TrimLeft(s) == [] || !IsSpace(TrimLeft(s)[0])
    decreases |s|
  {
    if s != [] && IsSpace(s[0]) {
      TrimLeftCutsSpace(s[1..]);
      forall i | 1 <= i < |s| - |TrimLeft(s)|
        ensures IsSpace(s[i])
      {
        assert s[i] == s[1..][i - 1];
      }
    }
  }

  /** `TrimRight` cuts only white space, and the rest does not end with it. */
  lemma {:induction false} TrimRightCutsSpace(s: string)
    ensures forall i :: |TrimRight(s)| <= i < |s| ==> IsSpace(s[i])
    ensures TrimRight(s) == [] || !IsSpace(TrimRight(s)[|TrimRight(s)| - 1])
    decreases |s|
  {
    if s != [] && IsSpace(s[|s| - 1]) {
      TrimRightCutsSpace(s[..|s| - 1]);
    }
  }

  /** Go's `strings.TrimSpace`. */
  function TrimSpace(s: string): (r: string)
    ensures |r| <= |s|
  {
    TrimRight(TrimLeft(s))
  }

  /** `TrimSpace` cuts a slice out of `s`. */
  lemma TrimSpaceSlice(s: string)
    ensures var a := |s| - |TrimLeft(s)|; a + |TrimSpace(s)| <= |s| && TrimSpace(s) == s[a..a + |TrimSpace(s)|]
  {
    var l := TrimLeft(s);
    var a := |s| - |l|;
    assert l == s[a..];
  }

  /** What `TrimSpace` cuts from the end of `s` is white space. */
  lemma TrimSpaceCutsRight(s: string)
    ensures var a := |s| - |TrimLeft(s)|; forall i :: a + |TrimSpace(s)| <= i < |s| ==> IsSpace(s[i])
  {
    var l := TrimLeft(s);
    var a := |s| - |l|;
    var r := TrimRight(l);
    assert l == s[a..];
    assert TrimSpace(s) == r;
    TrimRightCutsSpace(l);
    forall i | a + |r| <= i < |s|
      ensures IsSpace(s[i])
    {
      assert |r| <= i - a < |l|;
      assert s[i] == l[i - a];
    }
  }

  /** The result of `TrimSpace` neither starts nor ends with white space. */
  lemma TrimSpaceEnds(s: string)
    ensures var r := TrimSpace(s); r == [] || (!IsSpace(r[0]) && !IsSpace(r[|r| - 1]))
  {
    var l := TrimLeft(s);
    var r := TrimRight(l);
    TrimLeftCutsSpace(s);
    TrimRightCutsSpace(l);
    assert r != [] ==> r[0] == l[0];
  }

  /**
   * `TrimSpace` cuts a slice out of `s`, everything it cuts from either end
   * is white space, and the slice neither starts nor ends with white space.
   */
  lemma TrimSpaceShape(s: string)
    ensures var a := |s| - |TrimLeft(s)|; var r := TrimSpace(s);
      && a + |r| <= |s| && r == s[a..a + |r|]
      && (forall i :: 0 <= i < a ==> IsSpace(s[i]))
      && (forall i :: a + |r| <= i < |s| ==> IsSpace(s[i]))
      && (r == [] || (!IsSpace(r[0]) && !IsSpace(r[|r| - 1])))
  {
    TrimSpaceSlice(s);
    TrimLeftCutsSpace(s);
    TrimSpaceCutsRight(s);
    TrimSpaceEnds(s);
  }

  /** A string of white space trims to nothing. */
  lemma TrimSpaceOfSpaces(s: string)
    requires forall i :: 0 <= i < |s| ==> IsSpace(s[i])
    ensures TrimSpace(s) == ""
  {
    TrimSpaceShape(s);
  }

  /** The index of the first `c` in `s`. */
  function IndexOf(s: string, c: char): (k: nat)
    requires c in s
    ensures k < |s| && s[k] == c && c !in s[..k]
  {
    if s[0] == c then 0 else IndexOf(s[1..], c) + 1
  }

  /**
   * Go's `strings.Split(s, sep)` for a one-character separator: the pieces
   * between the separators, so that there is always at least one piece and
   * no piece contains the separator.
   */
  function Split(s: string, sep: char): (parts: seq<string>)
    ensures |parts| >= 1
    ensures forall i :: 0 <= i < |parts| ==> sep !in parts[i]
    decreases |s|
  {
    if sep !in s then [s]
    else
      var k := IndexOf(s, sep);
      [s[..k]] + Split(s[k + 1..], sep)
  }

  /** Go's `strings.Join(parts, sep)`. */
  function Join(parts: seq<string>, sep: string): string {
    if |parts| == 0 then ""
    else if |parts| == 1 then parts[0]
    else parts[0] + sep + Join(parts[1..], sep)
  }

  /** Joining the pieces of `Split` with the separator gives back the input. */
  lemma {:induction false} JoinSplit(s: string, sep: char)
    ensures Join(Split(s, sep), [sep]) == s
    decreases |s|
  {
    if sep in s {
      var k := IndexOf(s, sep);
      var rest := Split(s[k + 1..], sep);
      JoinSplit(s[k + 1..], sep);
      assert Split(s, sep) == [s[..k]] + rest;
      assert (Split(s, sep))[1..] == rest;
      calc {
        Join(Split(s, sep), [sep]);
        s[..k] + [sep] + Join(rest, [sep]);
        s[..k] + [sep] + s[k + 1..];
        { assert s == s[..k] + [s[k]] + s[k + 1..]; }
        s;
      }
    }
  }

  /** The first `c` is at `k` when `s[k]` is `c` and no earlier character is. */
  lemma {:induction false} IndexOfAt(s: string, c: char, k: nat)
    requires k < |s| && s[k] == c && c !in s[..k]
    ensures IndexOf(s, c) == k
  {
    if k > 0 {
      assert s[0] in s[..k];
      assert s[1..][..k - 1] == s[1..k];
      assert forall x :: x in s[1..k] ==> x in s[..k];
      IndexOfAt(s[1..], c, k - 1);
    }
  }

  /** Splitting the pieces joined by the separator gives them back, when no piece contains it. */
  lemma {:induction false} SplitJoin(parts: seq<string>, sep: char)
    requires |parts| >= 1
    requires forall i :: 0 <= i < |parts| ==> sep !in parts[i]
    ensures Split(Join(parts, [sep]), sep) == parts
    decreases |parts|
  {
    if |parts| > 1 {
      var tail := parts[1..];
      var rest := Join(tail, [sep]);
      SplitJoin(tail, sep);
      var s := Join(parts, [sep]);
      var k := |parts[0]|;
      assert s == parts[0] + [sep] + rest;
      assert s[..k] == parts[0];
      assert s[k + 1..] == rest;
      IndexOfAt(s, sep, k);
      assert Split(s, sep) == [parts[0]] + Split(rest, sep);
    } else {
      assert Join(parts, [sep]) == parts[0];
    }
  }

  /** Go's `strings.HasPrefix`. */
  predicate HasPrefix(s: string, prefix: string) {
    prefix <= s
  }

  /** `sub` occurs in `s` starting at index `i`. */
  ghost predicate OccursAt(s: string, sub: string, i: int) {
    0 <= i <= |s| - |sub| && s[i..i + |sub|] == sub
  }

  /** Dropping the first character moves every later occurrence one place to the left. */
  lemma OccursShift(s: string, sub: string, i: int)
    requires s != [] && 1 <= i
    ensures OccursAt(s, sub, i) <==> OccursAt(s[1..], sub, i - 1)
  {
    if 0 <= i - 1 <= |s[1..]| - |sub| {
      var a, b := s[i..i + |sub|], s[1..][i - 1..i - 1 + |sub|];
      assert |a| == |b|;
      forall k | 0 <= k < |a|
        ensures a[k] == b[k]
      {
        assert a[k] == s[i + k];
        assert b[k] == s[1..][i - 1 + k];
      }
      assert a == b;
    }
  }

  /** Go's `strings.Contains`: `sub` occurs somewhere in `s`. */
  function Contains(s: string, sub: string): (r: bool)
    ensures r <==> exists i :: OccursAt(s, sub, i)
    decreases |s|
  {
    if sub <= s then
      assert OccursAt(s, sub, 0);
      true
    else if s == [] then
      false
    else
      var r := Contains(s[1..], sub);
      ContainsTail(s, sub, r);
      r
  }

  /** When `s` does not start with `sub`, `sub` occurs in `s` exactly when it occurs in its tail. */
  lemma ContainsTail(s: string, sub: string, r: bool)
    requires s != [] && !(sub <= s)
    requires r <==> exists j :: OccursAt(s[1..], sub, j)
    ensures r <==> exists i :: OccursAt(s, sub, i)
  {
    assert !OccursAt(s, sub, 0);
    if r {
      var j :| OccursAt(s[1..], sub, j);
      OccursShift(s, sub, j + 1);
    }
    if exists i :: OccursAt(s, sub, i) {
      var i :| OccursAt(s, sub, i);
      OccursShift(s, sub, i);
    }
  }

  /** Every string contains the empty string. */
  lemma ContainsEmpty(s: string)
    ensures Contains(s, "")
  {
  }

  /**
   * Go's `strconv.IsPrint`. Below U+0100 the rule is the one strconv spells
   * out (printable ASCII, and Latin-1 from U+00A1 except the soft hyphen);
   * above it strconv consults its Unicode tables, which are the collaborator
   * `printableAbove` here.
   */
  predicate IsPrint(printableAbove: char -> bool, c: char) {
    if c < '\U{0100}' then (' ' <= c <= '~') || ('\U{00A1}' <= c && c != '\U{00AD}')
    else printableAbove(c)
  }

  /** A hexadecimal digit, lower case as Go writes it. */
  function HexDigit(n: nat): (c: char)
    requires n < 16
    ensures '0' <= c <= '9' || 'a' <= c <= 'f'
  {
    if n < 10 then ('0' as int + n) as char else ('a' as int + n - 10) as char
  }

  function Pow16(n: nat): (r: nat)
    ensures r >= 1
  {
    if n == 0 then 1 else 16 * Pow16(n - 1)
  }

  /** The `n` lowest hexadecimal digits of `v`, most significant first, as `\x`, `\u` and `\U` escapes write them. */
  function Hex(v: nat, n: nat): (r: string)
    ensures |r| == n
    ensures forall i :: 0 <= i < n ==> '0' <= r[i] <= '9' || 'a' <= r[i] <= 'f'
  {
    if n == 0 then "" else Hex(v / 16, n - 1) + [HexDigit(v % 16)]
  }

  lemma HexDigitInjective(a: nat, b: nat)
    requires a < 16 && b < 16 && HexDigit(a) == HexDigit(b)
    ensures a == b
  {
  }

  /** `n` hexadecimal digits tell apart every two values below 16 to the power `n`. */
  lemma {:induction false} HexInjective(v: nat, w: nat, n: nat)
    requires v < Pow16(n) && w < Pow16(n)
    requires Hex(v, n) == Hex(w, n)
    ensures v == w
  {
    if n > 0 {
      var hv, hw := Hex(v, n), Hex(w, n);
      assert hv[n - 1] == HexDigit(v % 16) && hw[n - 1] == HexDigit(w % 16);
      HexDigitInjective(v % 16, w % 16);
      assert hv[..n - 1] == Hex(v / 16, n - 1) && hw[..n - 1] == Hex(w / 16, n - 1);
      HexInjective(v / 16, w / 16, n - 1);
    }
  }

  /** The text `%q` writes for one character: itself when printable, else its escape. */
  function QuoteChar(printableAbove: char -> bool, c: char): string {
    if c == '"' || c == '\\' then ['\\', c]
    else if IsPrint(printableAbove, c) then [c]
    else if c == '\U{0007}' then "\\a"
    else if c == '\U{0008}' then "\\b"
    else if c == '\U{000C}' then "\\f"
    else if c == '\n' then "\\n"
    else if c == '\r' then "\\r"
    else if c == '\t' then "\\t"
    else if c == '\U{000B}' then "\\v"
    else if c < ' ' || c == '\U{007F}' then "\\x" + Hex(c as int, 2)
    else if (c as int) < 0x10000 then "\\u" + Hex(c as int, 4)
    else "\\U" + Hex(c as int, 8)
  }

  /** Every character `%q` writes for one character is printable. */
  lemma QuoteCharPrintable(printableAbove: char -> bool, c: char)
    ensures forall k :: 0 <= k < |QuoteChar(printableAbove, c)| ==> IsPrint(printableAbove, QuoteChar(printableAbove, c)[k])
  {
  }

  /** A character stands for itself exactly when it is printable and neither a double quote nor a backslash. */
  lemma QuoteCharPlain(printableAbove: char -> bool, c: char)
    ensures QuoteChar(printableAbove, c) == [c] <==> IsPrint(printableAbove, c) && c != '"' && c != '\\'
  {
  }

  /** No two characters are written alike, so the escaped text determines the character. */
  lemma QuoteCharInjective(printableAbove: char -> bool, c: char, d: char)
    requires QuoteChar(printableAbove, c) == QuoteChar(printableAbove, d)
    ensures c == d
  {
    var q := QuoteChar(printableAbove, c);
    if |q| == 4 {
      assert q[2..] == Hex(c as int, 2) == Hex(d as int, 2);
      HexInjective(c as int, d as int, 2);
    } else if |q| == 6 {
      assert q[2..] == Hex(c as int, 4) == Hex(d as int, 4);
      HexInjective(c as int, d as int, 4);
    } else if |q| == 10 {
      assert q[2..] == Hex(c as int, 8) == Hex(d as int, 8);
      assert Pow16(8) == 0x1_0000_0000;
      HexInjective(c as int, d as int, 8);
    }
  }

  function QuoteBody(printableAbove: char -> bool, s: string): string {
    if s == [] then "" else QuoteBody(printableAbove, s[..|s| - 1]) + QuoteChar(printableAbove, s[|s| - 1])
  }

  lemma {:induction false} QuoteBodyPrintable(printableAbove: char -> bool, s: string)
    ensures forall k :: 0 <= k < |QuoteBody(printableAbove, s)| ==> IsPrint(printableAbove, QuoteBody(printableAbove, s)[k])
    decreases |s|
  {
    if s != [] {
      QuoteBodyPrintable(printableAbove, s[..|s| - 1]);
      QuoteCharPrintable(printableAbove, s[|s| - 1]);
    }
  }

  /** A string of plain printable characters is its own quoted body. */
  lemma {:induction false} QuoteBodyPlain(printableAbove: char -> bool, s: string)
    ensures (forall k :: 0 <= k < |s| ==> IsPrint(printableAbove, s[k]) && s[k] != '"' && s[k] != '\\')
      ==> QuoteBody(printableAbove, s) == s
    decreases |s|
  {
    if s != [] && forall k :: 0 <= k < |s| ==> IsPrint(printableAbove, s[k]) && s[k] != '"' && s[k] != '\\' {
      QuoteBodyPlain(printableAbove, s[..|s| - 1]);
      QuoteCharPlain(printableAbove, s[|s| - 1]);
    }
  }

  /**
   * Go's `%q` verb on a string (`strconv.Quote`): the text between double
   * quotes, with every character that is not printable, and every double
   * quote and backslash, escaped; a string of plain printable characters is
   * only wrapped in quotes.
   */
  function Quote(printableAbove: char -> bool, s: string): (r: string)
    ensures |r| >= 2 && r[0] == '"' && r[|r| - 1] == '"'
    ensures forall k :: 0 <= k < |r| ==> IsPrint(printableAbove, r[k])
    ensures (forall k :: 0 <= k < |s| ==> IsPrint(printableAbove, s[k]) && s[k] != '"' && s[k] != '\\')
      ==> r == "\"" + s + "\""
  {
    QuoteBodyPrintable(printableAbove, s);
    QuoteBodyPlain(printableAbove, s);
    "\"" + QuoteBody(printableAbove, s) + "\""
  }
}
