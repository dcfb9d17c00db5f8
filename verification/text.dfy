/** String primitives with JavaScript semantics: `trim`, `\s`, ASCII
    `toLowerCase`, `join`, `startsWith`/`endsWith`/`includes`, the first-match
    `replace(string, string)`, number formatting, and code-point ordering. */
module Text {

  /** The characters JavaScript's `\s` and `String.prototype.trim` treat as
      white space: WhiteSpace and LineTerminator of ECMA-262. */
  predicate IsWhitespace(c: char) {
    || c == '\t' || c == '\n' || c == '\U{000B}' || c == '\U{000C}' || c == '\r'
    || c == ' ' || c == '\U{00A0}' || c == '\U{1680}'
    || ('\U{2000}' <= c <= '\U{200A}')
    || c == '\U{2028}' || c == '\U{2029}' || c == '\U{202F}' || c == '\U{205F}'
    || c == '\U{3000}' || c == '\U{FEFF}'
  }

  /** Every character is white space (the empty string included). */
  predicate IsBlank(s: string) {
    forall i :: 0 <= i < |s| ==> IsWhitespace(s[i])
  }

  /** Drops leading white space. */
  function TrimStart(s: string): (r: string)
    ensures |r| <= |s| && r == s[|s| - |r|..]
    ensures IsBlank(s[..|s| - |r|])
    ensures r == [] || !IsWhitespace(r[0])
  {
    if |s| > 0 && IsWhitespace(s[0]) then
      var r := TrimStart(s[1..]);
      assert s[..|s| - |r|] == [s[0]] + s[1..][..|s[1..]| - |r|];
      r
    else s
  }

  /** Drops trailing white space. */
  function TrimEnd(s: string): (r: string)
    ensures |r| <= |s| && r == s[..|r|]
    ensures IsBlank(s[|r|..])
    ensures r == [] || !IsWhitespace(r[|r| - 1])
  {
    if |s| > 0 && IsWhitespace(s[|s| - 1]) then
      var r := TrimEnd(s[..|s| - 1]);
      assert s[|r|..] == s[..|s| - 1][|r|..] + [s[|s| - 1]];
      r
    else s
  }

  /** `s.trim()`. */
  function Trim(s: string): string {
    TrimEnd(TrimStart(s))
  }

  /** `s.trim() === ''` holds exactly for the all-white-space strings. */
  lemma TrimEmptyIffBlank(s: string)
    ensures Trim(s) == "" <==> IsBlank(s)
  {
    var t := TrimStart(s);
    assert t != [] ==> t[0] == s[|s| - |t|];
    if !IsBlank(s) {
      var i :| 0 <= i < |s| && !IsWhitespace(s[i]);
      assert i >= |s| - |t|;
      assert t[i - (|s| - |t|)] == s[i];
      assert t[0..] == t;
    }
  }

  predicate IsAsciiUpper(c: char) { 'A' <= c <= 'Z' }
  predicate IsAsciiLower(c: char) { 'a' <= c <= 'z' }
  predicate IsDigit(c: char) { '0' <= c <= '9' }

  /** Some character is an ASCII capital. */
  predicate HasCapital(s: string) {
    exists k :: 0 <= k < |s| && IsAsciiUpper(s[k])
  }

  /** `toLowerCase` on one character, restricted to ASCII. */
  function LowerChar(c: char): (r: char)
    ensures !IsAsciiUpper(r)
    ensures IsAsciiUpper(c) ==> IsAsciiLower(r)
    ensures !IsAsciiUpper(c) ==> r == c
  {
    if IsAsciiUpper(c) then (c as int + 32) as char else c
  }

  /** `s.toLowerCase()`, restricted to ASCII letters. */
  function ToLower(s: string): (r: string)
    ensures |r| == |s|
    ensures forall i :: 0 <= i < |s| ==> r[i] == LowerChar(s[i])
  {
    seq(|s|, i requires 0 <= i < |s| => LowerChar(s[i]))
  }

  /** A string equals its lower-case form exactly when it has no ASCII capital. */
  lemma ToLowerFixedIffNoUpper(s: string)
    ensures ToLower(s) == s <==> forall i :: 0 <= i < |s| ==> !IsAsciiUpper(s[i])
  {
    if forall i :: 0 <= i < |s| ==> !IsAsciiUpper(s[i]) {
      assert ToLower(s) == s;
    }
  }

  /** `parts.join(sep)`. */
  function Join(parts: seq<string>, sep: string): string {
    if |parts| == 0 then ""
    else if |parts| == 1 then parts[0]
    else parts[0] + sep + Join(parts[1..], sep)
  }

  /** A join starts with its first part. */
  lemma JoinStartsWithFirst(parts: seq<string>, sep: string)
    requires |parts| > 0
    ensures StartsWith(Join(parts, sep), parts[0])
  {
    if |parts| > 1 {
      assert Join(parts, sep) == parts[0] + (sep + Join(parts[1..], sep));
    }
  }

  predicate StartsWith(s: string, prefix: string) {
    |prefix| <= |s| && s[..|prefix|] == prefix
  }

  lemma StartsWithConcat(prefix: string, rest: string)
    ensures StartsWith(prefix + rest, prefix)
  {
    assert (prefix + rest)[..|prefix|] == prefix;
  }

  predicate EndsWith(s: string, suffix: string) {
    |suffix| <= |s| && s[|s| - |suffix|..] == suffix
  }

  /** `pat` occurs in `s` at position `i`. */
  predicate OccursAt(s: string, pat: string, i: nat) {
    i + |pat| <= |s| && s[i..i + |pat|] == pat
  }

  /** `s.includes(pat)`. */
  predicate Includes(s: string, pat: string) {
    exists i :: 0 <= i <= |s| && OccursAt(s, pat, i)
  }

  /** The first position at or after `from` where `pat` occurs, or -1. */
  function FirstOccurrence(s: string, pat: string, from: nat): (r: int)
    requires from <= |s|
    decreases |s| - from
    ensures r == -1 || (from <= r <= |s| && OccursAt(s, pat, r))
    ensures forall j :: from <= j <= |s| && OccursAt(s, pat, j) ==> r != -1 && r <= j
  {
    if OccursAt(s, pat, from) then from
    else if from == |s| then -1
    else FirstOccurrence(s, pat, from + 1)
  }

  /** `s.replace(pat, rep)` with a string pattern: only the first occurrence is replaced. */
  function ReplaceFirst(s: string, pat: string, rep: string): (r: string)
    ensures !Includes(s, pat) ==> r == s
    ensures Includes(s, pat) ==>
      (exists i :: 0 <= i <= |s| - |pat| && OccursAt(s, pat, i)
        && (forall j :: 0 <= j < i ==> !OccursAt(s, pat, j))
        && r == s[..i] + rep + s[i + |pat|..])
  {
    var i := FirstOccurrence(s, pat, 0);
    FirstOccurrenceFinds(s, pat);
    if i == -1 then s else s[..i] + rep + s[i + |pat|..]
  }

  /** The search from the start fails exactly when `pat` does not occur, and
      otherwise stops at the first occurrence. */
  lemma FirstOccurrenceFinds(s: string, pat: string)
    ensures var i := FirstOccurrence(s, pat, 0);
      && (i == -1 <==> !Includes(s, pat))
      && (i != -1 ==> (0 <= i <= |s| - |pat| && OccursAt(s, pat, i)
        && forall j :: 0 <= j < i ==> !OccursAt(s, pat, j)))
  {
    var i := FirstOccurrence(s, pat, 0);
    if i != -1 {
      assert 0 <= i <= |s| && OccursAt(s, pat, i);
    }
  }

  function DigitChar(d: nat): (c: char)
    requires d < 10
    ensures IsDigit(c)
  {
    "0123456789"[d]
  }

  /** The decimal form JavaScript prints for a non-negative integer. */
  function NatToString(n: nat): (r: string)
    ensures |r| > 0
    ensures forall i :: 0 <= i < |r| ==> IsDigit(r[i])
  {
    if n < 10 then [DigitChar(n)] else NatToString(n / 10) + [DigitChar(n % 10)]
  }

  function IntToString(n: int): string {
    if n < 0 then "-" + NatToString(-n) else NatToString(n)
  }

  /** Lexicographic order on code points: the order of `Array.prototype.sort()`
      on strings for characters of the Basic Multilingual Plane. */
  predicate StrLeq(a: string, b: string) {
    |a| == 0 || (|b| > 0 && (a[0] < b[0] || (a[0] == b[0] && StrLeq(a[1..], b[1..]))))
  }

  lemma {:induction false} StrLeqTotal(a: string, b: string)
    ensures StrLeq(a, b) || StrLeq(b, a)
  {
    if |a| > 0 && |b| > 0 && a[0] == b[0] {
      StrLeqTotal(a[1..], b[1..]);
    }
  }

  lemma {:induction false} StrLeqTransitive(a: string, b: string, c: string)
    requires StrLeq(a, b) && StrLeq(b, c)
    ensures StrLeq(a, c)
  {
    if |a| > 0 && a[0] == b[0] && b[0] == c[0] {
      StrLeqTransitive(a[1..], b[1..], c[1..]);
    }
  }

  lemma {:induction false} StrLeqAntisymmetric(a: string, b: string)
    requires StrLeq(a, b) && StrLeq(b, a)
    ensures a == b
  {
    if |a| > 0 {
      StrLeqAntisymmetric(a[1..], b[1..]);
      assert a == [a[0]] + a[1..] && b == [b[0]] + b[1..];
    }
  }
}
