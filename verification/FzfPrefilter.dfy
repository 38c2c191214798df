/**
 The ASCII prefilter: a cheap pass over the unfolded text that rejects most
 candidates and tells the matcher where the first match can be.
 */
module FzfPrefilter {
  import opened FzfText

  /** Array.prototype.indexOf: the first index of `c`, or -1. */
  function IndexOf(s: seq<Rune>, c: int): (i: int)
    ensures -1 <= i < |s|
    ensures i >= 0 ==> s[i] == c && forall j :: 0 <= j < i ==> s[j] != c
    ensures i < 0 ==> forall j :: 0 <= j < |s| ==> s[j] != c
  {
    if s == [] then -1
    else if s[0] == c then 0
    else
      var i := IndexOf(s[1..], c);
      assert forall j :: 1 <= j < |s| ==> s[j] == s[1..][j - 1];
      if i < 0 then -1 else i + 1
  }

  /** Does the prefilter take `c` for an occurrence of pattern character `p`? */
  predicate Admits(caseSensitive: bool, p: Rune, c: Rune) {
    c == p || (!caseSensitive && IsLowerAscii(p) && c == p - 32)
  }

  /** Is the pattern already folded the way a case-insensitive search folds it? */
  predicate PatternFolded(q: Query) {
    q.caseSensitive || forall k :: 0 <= k < |q.pattern| ==> !IsUpperAscii(q.pattern[k])
  }

  predicate AllAscii(s: seq<Rune>) {
    forall j :: 0 <= j < |s| ==> s[j] <= LAST_ASCII
  }

  /** Everything that folds to `p` is admitted for `p`; for a folded `p` nothing else is. */
  lemma AdmitsCoversFold(q: Query, p: Rune, c: Rune)
    requires c <= LAST_ASCII
    ensures q.Fold(c) == p ==> Admits(q.caseSensitive, p, c)
    ensures (q.caseSensitive || !IsUpperAscii(p)) && Admits(q.caseSensitive, p, c) ==> q.Fold(c) == p
  {}

  method IsAscii(s: seq<Rune>) returns (ascii: bool)
    ensures ascii <==> AllAscii(s)
  {
    for j := 0 to |s|
      invariant forall i :: 0 <= i < j ==> s[i] <= LAST_ASCII
    {
      if s[j] >= 128 {
        return false;
      }
    }
    return true;
  }

  /** The first position from `from` on that is admitted for `p`, or -1. */
  method TrySkip(text: seq<Rune>, caseSensitive: bool, p: Rune, from: nat) returns (found: int)
    requires from <= |text|
    ensures found == -1 || from <= found < |text|
    ensures found >= 0 ==> Admits(caseSensitive, p, text[found])
    ensures forall j :: from <= j < (if found < 0 then |text| else found) ==> !Admits(caseSensitive, p, text[j])
  {
    var rest := text[from..];
    assert forall j :: from <= j < |text| ==> text[j] == rest[j - from];
    var l := IndexOf(rest, p);
    if l == 0 {
      return from;
    }
    ghost var whole := rest;
    if !caseSensitive && IsLowerAscii(p) {
      if l > 0 {
        rest := rest[..l];
      }
      var u := IndexOf(rest, p - 32);
      assert forall j :: 0 <= j < |rest| ==> whole[j] == rest[j];
      if u >= 0 {
        l := u;
      }
    }
    return if l < 0 then -1 else from + l;
  }

  /**
   A negative result refutes the pattern.  Otherwise no character before or at a
   positive result can match the first pattern character, and on an ASCII text
   a folded pattern is known to be a subsequence.
   */
  method AsciiFuzzyIndex(q: Query) returns (start: int)
    ensures -1 <= start <= |q.text|
    ensures start < 0 ==> !Subsequence(q.Folded(), q.pattern)
    ensures start > 0 || (start == 0 && |q.pattern| > 0) ==> start < |q.text|
    ensures start > 0 && |q.pattern| > 0 ==> forall j :: 0 <= j <= start ==> q.Folded()[j] != q.pattern[0]
    ensures !AllAscii(q.text) ==> start == 0
    ensures AllAscii(q.text) && PatternFolded(q) ==>
              (start >= 0 <==> Subsequence(q.Folded(), q.pattern))
  {
    var text, pattern := q.text, q.pattern;
    ghost var folded := q.Folded();
    ScanDecides(folded, pattern);
    var asciiText := IsAscii(text);
    if !asciiText {
      return 0;
    }
    var asciiPattern := IsAscii(pattern);
    if !asciiPattern {
      NonAsciiPatternFails(q);
      return -1;
    }
    start := 0;
    var n := 0;
    for l := 0 to |pattern|
      invariant 0 <= n <= |text|
      invariant 0 <= start <= n
      invariant l > 0 ==> n > 0
      invariant l == 0 ==> n == 0
      invariant start > 0 ==> start < |text| && l > 0 && forall j :: 0 <= j <= start ==> folded[j] != pattern[0]
      invariant Scan(folded, pattern, n) <= l
      invariant PatternFolded(q) ==> Scan(folded, pattern, n) == l
    {
      var found := TrySkip(text, q.caseSensitive, pattern[l], n);
      SkipAdvancesScan(q, l, n, found);
      if found < 0 {
        return -1;
      }
      n := found;
      if l == 0 && n > 0 {
        start := n - 1;
      }
      n := n + 1;
    }
    if PatternFolded(q) {
      ScanIsMonotone(folded, pattern, n, |text|);
    }
  }

  lemma {:induction false} ScanStaysBelow(folded: seq<Rune>, pattern: seq<Rune>, m: nat, n: nat, k: nat)
    requires m <= n <= |folded|
    requires k < |pattern| && Scan(folded, pattern, m) <= k
    requires forall j :: m <= j < n ==> folded[j] != pattern[k]
    ensures Scan(folded, pattern, n) <= k
    decreases n
  {
    if m < n {
      ScanStaysBelow(folded, pattern, m, n - 1, k);
    }
  }

  /** What one skip says about the greedy scan of the folded text. */
  lemma SkipAdvancesScan(q: Query, l: nat, n: nat, found: int)
    requires AllAscii(q.text) && l < |q.pattern| && n <= |q.text|
    requires found == -1 || n <= found < |q.text|
    requires found >= 0 ==> Admits(q.caseSensitive, q.pattern[l], q.text[found])
    requires forall j :: n <= j < (if found < 0 then |q.text| else found) ==>
                           !Admits(q.caseSensitive, q.pattern[l], q.text[j])
    requires Scan(q.Folded(), q.pattern, n) <= l
    ensures found < 0 ==> Scan(q.Folded(), q.pattern, |q.text|) <= l
    ensures found >= 0 ==> Scan(q.Folded(), q.pattern, found + 1) <= l + 1
    ensures forall j :: n <= j < found ==> q.Folded()[j] != q.pattern[l]
    ensures found >= 0 && PatternFolded(q) && Scan(q.Folded(), q.pattern, n) == l ==>
              Scan(q.Folded(), q.pattern, found + 1) == l + 1
  {
    var folded, stop := q.Folded(), if found < 0 then |q.text| else found;
    forall j | n <= j < stop ensures folded[j] != q.pattern[l] {
      AdmitsCoversFold(q, q.pattern[l], q.text[j]);
    }
    ScanStaysBelow(folded, q.pattern, n, stop, l);
    if found >= 0 {
      AdmitsCoversFold(q, q.pattern[l], q.text[found]);
      if Scan(folded, q.pattern, n) == l {
        ScanStandsStill(folded, q.pattern, n, stop);
      }
    }
  }

  lemma NonAsciiPatternFails(q: Query)
    requires AllAscii(q.text) && !AllAscii(q.pattern)
    ensures !Subsequence(q.Folded(), q.pattern)
  {
    var k :| 0 <= k < |q.pattern| && q.pattern[k] > LAST_ASCII;
    forall j | 0 <= j < |q.text| ensures q.Folded()[j] != q.pattern[k] {
      assert q.text[j] <= LAST_ASCII;
      assert q.Fold(q.text[j]) <= LAST_ASCII;
    }
  }
}
