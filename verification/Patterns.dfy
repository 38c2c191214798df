/** Resource patterns: `*` stands for any string, `?` for any one character. */
module Patterns {

  predicate Glob(pattern: string, s: string)
    decreases |pattern| + |s|
  {
    if pattern == "" then s == ""
    else if pattern[0] == '*' then Glob(pattern[1..], s) || (s != "" && Glob(pattern, s[1..]))
    else s != "" && (pattern[0] == '?' || pattern[0] == s[0]) && Glob(pattern[1..], s[1..])
  }

  predicate Plain(pattern: string) {
    forall i :: 0 <= i < |pattern| ==> pattern[i] != '*' && pattern[i] != '?'
  }

  lemma {:induction false} StarMatchesAll(s: string)
    ensures Glob("*", s)
  {
    if s == "" {
      assert Glob("*"[1..], "");
    } else {
      StarMatchesAll(s[1..]);
    }
  }

  /** A pattern without wildcards matches itself and nothing else. */
  lemma {:induction false} PlainMatchesItself(pattern: string, s: string)
    requires Plain(pattern)
    ensures Glob(pattern, s) <==> pattern == s
  {
    if pattern != "" && s != "" {
      PlainMatchesItself(pattern[1..], s[1..]);
      assert pattern == [pattern[0]] + pattern[1..] && s == [s[0]] + s[1..];
    }
  }

  /** A match of a concatenated pattern splits into matches of its parts. */
  lemma {:induction false} GlobSplits(p: string, q: string, s: string) returns (k: nat)
    requires Glob(p + q, s)
    ensures k <= |s| && Glob(p, s[..k]) && Glob(q, s[k..])
    decreases |p| + |s|
  {
    if p == "" {
      assert p + q == q && s[0..] == s;
      k := 0;
    } else {
      assert (p + q)[0] == p[0] && (p + q)[1..] == p[1..] + q;
      if p[0] == '*' && Glob(p[1..] + q, s) {
        k := GlobSplits(p[1..], q, s);
      } else {
        k := GlobSplits(if p[0] == '*' then p else p[1..], q, s[1..]);
        k := k + 1;
        assert s[..k][1..] == s[1..][..k - 1] && s[k..] == s[1..][k - 1..];
      }
    }
  }

  /** Matches of two patterns on adjacent strings make a match of their concatenation. */
  lemma {:induction false} GlobJoins(p: string, q: string, s: string, t: string)
    requires Glob(p, s) && Glob(q, t)
    ensures Glob(p + q, s + t)
    decreases |p| + |s|
  {
    if p == "" {
      assert p + q == q && s + t == t;
    } else {
      assert (p + q)[0] == p[0] && (p + q)[1..] == p[1..] + q;
      if p[0] == '*' && Glob(p[1..], s) {
        GlobJoins(p[1..], q, s, t);
      } else {
        GlobJoins(if p[0] == '*' then p else p[1..], q, s[1..], t);
        assert (s + t)[1..] == s[1..] + t;
      }
    }
  }

  /** Replacing the tail of a pattern by `*` only widens it. */
  lemma StarWidens(prefix: string, tail: string, s: string)
    requires Glob(prefix + tail, s)
    ensures Glob(prefix + "*", s)
  {
    var k := GlobSplits(prefix, tail, s);
    StarMatchesAll(s[k..]);
    GlobJoins(prefix, "*", s[..k], s[k..]);
    assert s[..k] + s[k..] == s;
  }
}
