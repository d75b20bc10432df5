/**
 * The Python `str` operations the migration script relies on:
 * `startswith`, `lstrip('/')`, `strip('/')` and `lower()`.
 */
module PyStrings {

  /** `s.startswith(prefix)`. */
  predicate StartsWith(s: string, prefix: string)
  {
    |prefix| <= |s| && s[..|prefix|] == prefix
  }

  /** Every character of `t` is `/`. */
  predicate Slashes(t: string)
  {
    forall i :: 0 <= i < |t| ==> t[i] == '/'
  }

  /** The number of `/` at the start of `s`. */
  function LeadingSlashes(s: string): (n: nat)
    ensures n <= |s| && (n < |s| ==> s[n] != '/')
    ensures forall i :: 0 <= i < n ==> s[i] == '/'
    decreases |s|
  {
    if |s| > 0 && s[0] == '/' then 1 + LeadingSlashes(s[1..]) else 0
  }

  /** The number of `/` at the end of `s`. */
  function TrailingSlashes(s: string): (n: nat)
    ensures n <= |s| && (n < |s| ==> s[|s| - 1 - n] != '/')
    ensures forall i :: |s| - n <= i < |s| ==> s[i] == '/'
    decreases |s|
  {
    if |s| > 0 && s[|s| - 1] == '/' then 1 + TrailingSlashes(s[..|s| - 1]) else 0
  }

  /** `s.lstrip('/')`: the suffix of `s` left after every leading `/` is removed. */
  function LStripSlash(s: string): (r: string)
    ensures |r| <= |s| && r == s[|s| - |r|..]
    ensures Slashes(s[..|s| - |r|])
    ensures r == [] || r[0] != '/'
  {
    s[LeadingSlashes(s)..]
  }

  /** `s.rstrip('/')`: the prefix of `s` left after every trailing `/` is removed. */
  function RStripSlash(s: string): (r: string)
    ensures |r| <= |s| && r == s[..|r|]
    ensures Slashes(s[|r|..])
    ensures r == [] || r[|r| - 1] != '/'
  {
    s[..|s| - TrailingSlashes(s)]
  }

  /** `s.strip('/')`: the infix of `s` left after `/` is removed from both ends. */
  function StripSlash(s: string): (r: string)
    ensures var k := LeadingSlashes(s);
      k + |r| <= |s| && r == s[k..k + |r|] && Slashes(s[..k]) && Slashes(s[k + |r|..])
    ensures r == [] || (r[0] != '/' && r[|r| - 1] != '/')
  {
    var k := LeadingSlashes(s);
    var l := LStripSlash(s);
    var r := RStripSlash(l);
    assert r == s[k..k + |r|];
    assert l[|r|..] == s[k + |r|..];
    r
  }

  /** A string with no `/` at either end is left as it is by the strip. */
  lemma StripSlashClean(s: string)
    requires s == [] || (s[0] != '/' && s[|s| - 1] != '/')
    ensures StripSlash(s) == s
  {
  }

  /** ASCII lower-casing of one character. */
  function LowerChar(c: char): char
  {
    if 'A' <= c <= 'Z' then (c as int - 'A' as int + 'a' as int) as char else c
  }

  /** `s.lower()` over ASCII letters; every other character is kept. */
  function Lower(s: string): string
  {
    seq(|s|, i requires 0 <= i < |s| => LowerChar(s[i]))
  }
}
