/** The string operations the services rely on, with JavaScript's meaning:
    the whitespace class shared by `String.prototype.trim` and the regular
    expression escape `\s`, `toLowerCase`/`toUpperCase` (on ASCII letters),
    `includes`, and `split(c)`. */
module Strings {
  import opened Util

  /** JavaScript WhiteSpace and LineTerminator code points: what `trim()` removes and `\s` matches. */
  predicate IsSpace(c: char) {
    var n := c as int;
    n == 0x20 || (0x09 <= n <= 0x0D) || n == 0xA0 || n == 0x1680 || (0x2000 <= n <= 0x200A)
    || n == 0x2028 || n == 0x2029 || n == 0x202F || n == 0x205F || n == 0x3000 || n == 0xFEFF
  }

  /** The characters a regular-expression `.` does not match. */
  predicate IsLineTerminator(c: char) {
    c == '\n' || c == '\r' || c as int == 0x2028 || c as int == 0x2029
  }

  /** `\d` */
  predicate IsDigit(c: char) {
    '0' <= c <= '9'
  }

  /** A non-empty run of digits, as `\d+` matches. */
  predicate IsNumeral(s: string) {
    s != [] && forall i | 0 <= i < |s| :: IsDigit(s[i])
  }

  /** True of "" and of every string `trim()` empties. */
  predicate IsBlank(s: string) {
    forall i | 0 <= i < |s| :: IsSpace(s[i])
  }

  /** Every character of s from position i up to j satisfies p. */
  predicate Run(s: string, p: char -> bool, i: nat, j: nat) {
    i <= j <= |s| && forall x | i <= x < j :: p(s[x])
  }

  /** `s.length`: the number of UTF-16 code units, two for each character outside
      the Basic Multilingual Plane. */
  function CodeUnits(s: string): (n: nat)
    ensures |s| <= n <= 2 * |s|
    ensures n == |s| <==> forall i | 0 <= i < |s| :: s[i] as int < 0x1_0000
  {
    if s == [] then 0
    else (if s[0] as int < 0x1_0000 then 1 else 2) + CodeUnits(s[1..])
  }

  /** Length of the longest prefix of s whose characters all satisfy p. */
  function LeadingRun(s: string, p: char -> bool): (n: nat)
    ensures n <= |s|
    ensures forall i | 0 <= i < n :: p(s[i])
    ensures n < |s| ==> !p(s[n])
  {
    RunFrom(s, p, 0)
  }

  /** Length of the longest run of characters satisfying p that starts at position i. */
  function RunFrom(s: string, p: char -> bool, i: nat): (n: nat)
    requires i <= |s|
    ensures i + n <= |s|
    ensures forall k | i <= k < i + n :: p(s[k])
    ensures i + n < |s| ==> !p(s[i + n])
    decreases |s| - i
  {
    if i < |s| && p(s[i]) then 1 + RunFrom(s, p, i + 1) else 0
  }

  /** The run stops at the first character that fails p. */
  lemma LeadingRunStops(s: string, p: char -> bool, k: nat)
    requires k < |s| && !p(s[k])
    ensures LeadingRun(s, p) <= k
  {
  }

  /** A run of n characters satisfying p, followed by the end of s or by one failing p. */
  lemma LeadingRunIs(s: string, p: char -> bool, n: nat)
    requires n <= |s| && forall i | 0 <= i < n :: p(s[i])
    requires n == |s| || !p(s[n])
    ensures LeadingRun(s, p) == n
  {
  }

  /** A run of p-characters followed by text that does not start with one is the whole run. */
  lemma LeadingRunOver(a: string, b: string, p: char -> bool)
    requires forall i | 0 <= i < |a| :: p(a[i])
    requires b == [] || !p(b[0])
    ensures LeadingRun(a + b, p) == |a|
  {
    var s := a + b;
    assert forall i | 0 <= i < |a| :: s[i] == a[i];
    assert |a| < |s| ==> s[|a|] == b[0];
    LeadingRunIs(s, p, |a|);
  }

  /** `s.trimStart()` */
  function TrimStart(s: string): (r: string)
    ensures |r| <= |s| && r == s[|s| - |r|..]
    ensures IsBlank(s[..|s| - |r|])
    ensures r == [] || !IsSpace(r[0])
  {
    s[LeadingRun(s, IsSpace)..]
  }

  /** `s.trimEnd()` */
  function TrimEnd(s: string): (r: string)
    ensures |r| <= |s| && r == s[..|r|]
    ensures IsBlank(s[|r|..])
    ensures r == [] || !IsSpace(r[|r| - 1])
  {
    if s != [] && IsSpace(s[|s| - 1]) then
      var t := s[..|s| - 1];
      var r := TrimEnd(t);
      assert s[|r|..] == t[|r|..] + [s[|s| - 1]];
      r
    else s
  }

  /** `s.trim()`: s without its leading and trailing whitespace. */
  function Trim(s: string): (r: string)
    ensures |r| <= |s|
    ensures r == [] <==> IsBlank(s)
    ensures r == [] || (!IsSpace(r[0]) && !IsSpace(r[|r| - 1]))
    ensures forall c :: c in r ==> c in s
  {
    var t := TrimStart(s);
    var r := TrimEnd(t);
    assert forall i | 0 <= i < |r| :: r[i] == t[i] == s[|s| - |t| + i];
    r
  }

  /** A string that has no whitespace at either end is its own trim. */
  lemma TrimTrimmed(s: string)
    requires s == [] || (!IsSpace(s[0]) && !IsSpace(s[|s| - 1]))
    ensures Trim(s) == s
  {
  }

  /** Trimming is idempotent. */
  lemma TrimTwice(s: string)
    ensures Trim(Trim(s)) == Trim(s)
  {
    TrimTrimmed(Trim(s));
  }

  function LowerChar(c: char): char {
    if 'A' <= c <= 'Z' then (c as int + 32) as char else c
  }

  function UpperChar(c: char): char {
    if 'a' <= c <= 'z' then (c as int - 32) as char else c
  }

  /** `s.toLowerCase()` on ASCII letters */
  function Lower(s: string): (r: string)
    ensures |r| == |s|
    ensures forall i | 0 <= i < |s| :: r[i] == LowerChar(s[i])
  {
    seq(|s|, i requires 0 <= i < |s| => LowerChar(s[i]))
  }

  /** `s.toUpperCase()` on ASCII letters */
  function Upper(s: string): (r: string)
    ensures |r| == |s|
    ensures forall i | 0 <= i < |s| :: r[i] == UpperChar(s[i])
  {
    seq(|s|, i requires 0 <= i < |s| => UpperChar(s[i]))
  }

  /** `s.includes(t)`: t occurs in s at some position (the empty string occurs everywhere). */
  predicate Contains(s: string, t: string)
    ensures Contains(s, t) ==> |t| <= |s|
    ensures t == [] ==> Contains(s, t)
    decreases |s|
  {
    IsPrefix(t, s) || (s != [] && Contains(s[1..], t))
  }

  /** An occurrence of t at position i of s is found by Contains. */
  lemma {:induction false} ContainsAt(s: string, t: string, i: nat)
    requires i + |t| <= |s| && s[i..i + |t|] == t
    ensures Contains(s, t)
  {
    if i > 0 {
      assert s[1..][i - 1..i - 1 + |t|] == s[i..i + |t|];
      ContainsAt(s[1..], t, i - 1);
    }
  }

  /** t occurs in s starting at index i. */
  predicate OccursAt(s: string, t: string, i: nat)
  {
    i + |t| <= |s| && s[i..i + |t|] == t
  }

  /** Conversely, Contains finds t only where it occurs. */
  lemma {:induction false} ContainsFound(s: string, t: string)
    requires Contains(s, t)
    ensures exists i: nat :: OccursAt(s, t, i)
    decreases |s|
  {
    if IsPrefix(t, s) {
      assert OccursAt(s, t, 0);
    } else {
      var u := s[1..];
      ContainsFound(u, t);
      var i: nat :| OccursAt(u, t, i);
      assert s[i + 1..i + 1 + |t|] == u[i..i + |t|];
      assert OccursAt(s, t, i + 1);
    }
  }

  /** `s.split(c)[0]`: the part of s before the first c (all of s when there is none). */
  function Before(s: string, c: char): (r: string)
    ensures |r| <= |s| && r == s[..|r|]
    ensures c !in r
    ensures |r| < |s| ==> s[|r|] == c
  {
    s[..LeadingRun(s, x => x != c)]
  }

  /** `s.split(c)`: the pieces of s between occurrences of c. */
  function Split(s: string, c: char): (parts: seq<string>)
    ensures |parts| >= 1 && parts[0] == Before(s, c)
    ensures forall k | 0 <= k < |parts| :: c !in parts[k]
    decreases |s|
  {
    var head := Before(s, c);
    if |head| == |s| then [s] else [head] + Split(s[|head| + 1..], c)
  }

  /** `parts.join(c)` */
  function Join(parts: seq<string>, c: char): string
    requires |parts| >= 1
  {
    if |parts| == 1 then parts[0] else parts[0] + [c] + Join(parts[1..], c)
  }

  /** Splitting and joining on the same character gives the string back. */
  lemma {:induction false} JoinSplit(s: string, c: char)
    ensures Join(Split(s, c), c) == s
    decreases |s|
  {
    var head := Before(s, c);
    if |head| < |s| {
      var tail := s[|head| + 1..];
      var rest := Split(tail, c);
      assert Split(s, c) == [head] + rest;
      assert ([head] + rest)[1..] == rest;
      assert Join(Split(s, c), c) == head + [c] + Join(rest, c);
      JoinSplit(tail, c);
      Around(s, |head|);
    }
  }

  /** s is what comes before position i, the character at i, and what follows. */
  lemma Around(s: string, i: nat)
    requires i < |s|
    ensures s == s[..i] + [s[i]] + s[i + 1..]
  {
  }
}
