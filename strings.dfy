/** The .NET string operations the edit engine relies on, stated on `seq<char>` with ordinal
    (code-unit) comparison. */
module Strings {

  /** String.StartsWith, ordinal. */
  predicate StartsWith(s: string, prefix: string) {
    |prefix| <= |s| && s[..|prefix|] == prefix
  }

  /** String.EndsWith, ordinal. */
  predicate EndsWith(s: string, suffix: string) {
    |suffix| <= |s| && s[|s| - |suffix|..] == suffix
  }

  /** `s.Replace(token, "")`: scanning left to right, every non-overlapping occurrence of
      `token` is dropped. */
  function RemoveAll(s: string, token: string): (r: string)
    requires token != []
    ensures |r| <= |s|
    ensures token[0] !in s ==> r == s
    decreases |s|
  {
    if |s| < |token| then s
    else if s[..|token|] == token then RemoveAll(s[|token|..], token)
    else [s[0]] + RemoveAll(s[1..], token)
  }

  /** Appending a token to a text that cannot start one, then removing every occurrence of the
      token, gives the text back. */
  lemma {:induction false} RemoveAllAppended(v: string, token: string)
    requires token != [] && token[0] !in v
    ensures RemoveAll(v + token, token) == v
    decreases |v|
  {
    if v == [] {
      assert (v + token)[..|token|] == token;
      assert (v + token)[|token|..] == [];
    } else {
      assert (v + token)[0] == v[0];
      assert (v + token)[1..] == v[1..] + token;
      RemoveAllAppended(v[1..], token);
    }
  }

  /** `s.TrimEnd(c)`: drops every trailing occurrence of the character `c`. */
  function TrimEnd(s: string, c: char): (r: string)
    ensures r <= s
    ensures r == [] || r[|r| - 1] != c
    ensures forall k :: |r| <= k < |s| ==> s[k] == c
    decreases |s|
  {
    if |s| > 0 && s[|s| - 1] == c then TrimEnd(s[..|s| - 1], c) else s
  }

  /** Trimming a text that does not end with `c` after appending some copies of `c` gives the
      text back. */
  lemma {:induction false} TrimEndAppended(v: string, c: char, n: nat)
    requires v == [] || v[|v| - 1] != c
    ensures TrimEnd(v + Repeat(c, n), c) == v
    decreases n
  {
    if n > 0 {
      var s := v + Repeat(c, n);
      assert s[|s| - 1] == c;
      assert s[..|s| - 1] == v + Repeat(c, n - 1);
      TrimEndAppended(v, c, n - 1);
    }
  }

  function Repeat(c: char, n: nat): (r: string)
    ensures |r| == n && forall k :: 0 <= k < n ==> r[k] == c
  {
    if n == 0 then [] else Repeat(c, n - 1) + [c]
  }

  /** The inverse of Split: the parts with the separator between consecutive ones. */
  function Join(parts: seq<string>, sep: char): string
    requires |parts| >= 1
  {
    if |parts| == 1 then parts[0] else parts[0] + [sep] + Join(parts[1..], sep)
  }

  /** `s.Split(sep)`: every part, empty ones included; there is always at least one. */
  function Split(s: string, sep: char): (parts: seq<string>)
    ensures |parts| >= 1
    ensures forall k :: 0 <= k < |parts| ==> sep !in parts[k]
    ensures Join(parts, sep) == s
    decreases |s|
  {
    if |s| == 0 then [""]
    else
      var rest := Split(s[1..], sep);
      if s[0] == sep then
        assert ([""] + rest)[1..] == rest;
        [""] + rest
      else
        var parts := [[s[0]] + rest[0]] + rest[1..];
        assert parts[1..] == rest[1..];
        assert |rest| > 1 ==> Join(rest, sep) == rest[0] + [sep] + Join(rest[1..], sep);
        parts
  }

  /** A separator-free text splits into itself alone. */
  lemma {:induction false} SplitWithoutSeparator(s: string, sep: char)
    requires sep !in s
    ensures Split(s, sep) == [s]
    decreases |s|
  {
    if |s| > 0 {
      SplitWithoutSeparator(s[1..], sep);
    }
  }

  /** Splitting at the first separator: a separator-free head, then the split of the rest. */
  lemma {:induction false} SplitAtSeparator(a: string, b: string, sep: char)
    requires sep !in a
    ensures Split(a + [sep] + b, sep) == [a] + Split(b, sep)
    decreases |a|
  {
    var s := a + [sep] + b;
    if a == [] {
      assert s[0] == sep && s[1..] == b;
    } else {
      assert s[0] == a[0] && s[1..] == a[1..] + [sep] + b;
      SplitAtSeparator(a[1..], b, sep);
      assert [a[0]] + a[1..] == a;
    }
  }

  /** Split undoes Join when no part contains the separator. */
  lemma {:induction false} SplitJoin(parts: seq<string>, sep: char)
    requires |parts| >= 1
    requires forall k :: 0 <= k < |parts| ==> sep !in parts[k]
    ensures Split(Join(parts, sep), sep) == parts
    decreases |parts|
  {
    if |parts| == 1 {
      SplitWithoutSeparator(parts[0], sep);
    } else {
      SplitAtSeparator(parts[0], Join(parts[1..], sep), sep);
      SplitJoin(parts[1..], sep);
      assert [parts[0]] + parts[1..] == parts;
    }
  }

  /** Char.IsWhiteSpace: the Unicode separators together with U+0009 to U+000D and U+0085. */
  predicate IsWhiteSpace(c: char) {
    var n := c as int;
    (0x09 <= n <= 0x0D) || n == 0x20 || n == 0x85 || n == 0xA0 || n == 0x1680
    || (0x2000 <= n <= 0x200A) || n == 0x2028 || n == 0x2029 || n == 0x202F
    || n == 0x205F || n == 0x3000
  }

  /** String.IsNullOrWhiteSpace, with null folded into the empty text. */
  predicate IsNullOrWhiteSpace(s: string) {
    forall k :: 0 <= k < |s| ==> IsWhiteSpace(s[k])
  }

  function UpperAscii(c: char): char {
    if 'a' <= c <= 'z' then (c as int - 32) as char else c
  }

  /** String.Equals with StringComparison.OrdinalIgnoreCase, case-folding the ASCII letters. */
  predicate EqualsIgnoreCase(a: string, b: string) {
    |a| == |b| && forall k :: 0 <= k < |a| ==> UpperAscii(a[k]) == UpperAscii(b[k])
  }
}
