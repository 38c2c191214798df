/**
 The text side of the fuzzy matcher shipped with the public book: character
 classes, case folding, position bonuses, and what it means for a pattern to be
 a subsequence of a folded text.

 Texts are sequences of UTF-16 code units, as the matcher sees them.  What the
 Unicode tables say about a unit above 127 is left uninterpreted: it is a
 parameter of type `Unicode`, and every result holds for every such table.
 */
module FzfText {

  type Rune = c: int | 0 <= c < 0x110000

  /** 0: other, 1: lower case, 2: upper case, 3: other letter, 4: digit. */
  type CharClass = c: int | 0 <= c <= 4

  const OTHER: CharClass := 0
  const LOWER: CharClass := 1
  const UPPER: CharClass := 2
  const DIGIT: CharClass := 4

  const LAST_ASCII: Rune := 127

  /** The facts about non-ASCII units: class, lower case form, form without diacritics, where there is one. */
  datatype Unicode = Unicode(classes: map<Rune, CharClass>, lowers: map<Rune, Rune>, strips: map<Rune, Rune>) {
    function ClassOf(c: Rune): CharClass {
      if c in classes then classes[c] else OTHER
    }

    function Lower(c: Rune): Rune {
      if c in lowers then lowers[c] else c
    }

    function Strip(c: Rune): Rune {
      if c in strips then strips[c] else c
    }
  }

  predicate IsLowerAscii(c: int) {
    'a' as int <= c <= 'z' as int
  }

  predicate IsUpperAscii(c: int) {
    'A' as int <= c <= 'Z' as int
  }

  function AsciiClass(c: Rune): CharClass {
    if IsLowerAscii(c) then LOWER
    else if IsUpperAscii(c) then UPPER
    else if '0' as int <= c <= '9' as int then DIGIT
    else OTHER
  }

  // Scoring constants.
  const SCORE_MATCH := 16
  const GAP_START := -3
  const GAP_EXTENSION := -1
  const BONUS_BOUNDARY := 8
  const BONUS_NON_WORD := 8
  const BONUS_CAMEL := 7
  const BONUS_CONSECUTIVE := 4
  const FIRST_CHAR_MULTIPLIER := 2

  function Max(a: int, b: int): int {
    if a > b then a else b
  }

  /** The bonus for a character of class `current` that follows one of class `previous`. */
  function BonusFor(previous: CharClass, current: CharClass): (bonus: int)
    ensures 0 <= bonus <= BONUS_BOUNDARY
  {
    if previous == OTHER && current != OTHER then BONUS_BOUNDARY
    else if (previous == LOWER && current == UPPER) || (previous != DIGIT && current == DIGIT) then BONUS_CAMEL
    else if current == OTHER then BONUS_NON_WORD
    else 0
  }

  /** One search: a text, a pattern, and the options that decide how the text is folded. */
  datatype Query = Query(text: seq<Rune>, pattern: seq<Rune>, caseSensitive: bool, normalize: bool, unicode: Unicode) {

    function ClassOf(c: Rune): CharClass {
      if c <= LAST_ASCII then AsciiClass(c) else unicode.ClassOf(c)
    }

    /** The form without diacritics, when the search normalizes; only units 192..8580 have one. */
    function Strip(c: Rune): Rune {
      if normalize && 192 <= c <= 8580 then unicode.Strip(c) else c
    }

    /** Folding as the two-dimensional matcher does it: by character class. */
    function Fold(c: Rune): Rune {
      if c <= LAST_ASCII then
        if !caseSensitive && IsUpperAscii(c) then c + 32 else c
      else
        Strip(if !caseSensitive && unicode.ClassOf(c) == UPPER then unicode.Lower(c) else c)
    }

    /** Case folding as the greedy matcher does it: every non-ASCII unit is lowered. */
    function LowerGreedy(c: Rune): Rune {
      if caseSensitive then c
      else if IsUpperAscii(c) then c + 32
      else if c > LAST_ASCII then unicode.Lower(c)
      else c
    }

    function FoldGreedy(c: Rune): Rune {
      Strip(LowerGreedy(c))
    }

    ghost function Folded(): (t: seq<Rune>)
      ensures |t| == |text|
      ensures forall j :: 0 <= j < |t| ==> t[j] == Fold(text[j])
    {
      seq(|text|, j requires 0 <= j < |text| => Fold(text[j]))
    }

    /** The bonus of position `j`; the text is taken to start after a non-word character. */
    function Bonus(j: nat): (bonus: int)
      requires j < |text|
      ensures 0 <= bonus <= BONUS_BOUNDARY
    {
      BonusFor(if j == 0 then OTHER else ClassOf(text[j - 1]), ClassOf(text[j]))
    }

    /** How many pattern characters a left-to-right scan of the first `n` text characters matches. */
    ghost function Matched(n: nat): (k: nat)
      requires n <= |text|
      ensures k <= n && k <= |pattern|
    {
      Scan(Folded(), pattern, n)
    }
  }

  /** The greedy left-to-right scan, on an already folded text. */
  ghost function Scan(folded: seq<Rune>, pattern: seq<Rune>, n: nat): (k: nat)
    requires n <= |folded|
    ensures k <= n && k <= |pattern|
  {
    if n == 0 then 0
    else
      var k := Scan(folded, pattern, n - 1);
      if k < |pattern| && folded[n - 1] == pattern[k] then k + 1 else k
  }

  predicate StrictlyIncreasing(positions: seq<nat>) {
    forall i, j :: 0 <= i < j < |positions| ==> positions[i] < positions[j]
  }

  /** `positions` places every pattern character, in order, on an equal character of `folded`. */
  predicate Embeds(folded: seq<Rune>, pattern: seq<Rune>, positions: seq<nat>) {
    && |positions| == |pattern|
    && StrictlyIncreasing(positions)
    && forall i :: 0 <= i < |positions| ==> positions[i] < |folded| && folded[positions[i]] == pattern[i]
  }

  ghost predicate Subsequence(folded: seq<Rune>, pattern: seq<Rune>) {
    exists positions :: Embeds(folded, pattern, positions)
  }

  lemma {:induction false} ScanIsMonotone(folded: seq<Rune>, pattern: seq<Rune>, m: nat, n: nat)
    requires m <= n <= |folded|
    ensures Scan(folded, pattern, m) <= Scan(folded, pattern, n)
    ensures Scan(folded, pattern, n) <= Scan(folded, pattern, m) + (n - m)
    decreases n
  {
    if m < n {
      ScanIsMonotone(folded, pattern, m, n - 1);
    }
  }

  /** Over a stretch without the awaited character the scan stands still. */
  lemma {:induction false} ScanStandsStill(folded: seq<Rune>, pattern: seq<Rune>, m: nat, n: nat)
    requires m <= n <= |folded|
    requires var k := Scan(folded, pattern, m);
      k < |pattern| ==> forall j :: m <= j < n ==> folded[j] != pattern[k]
    ensures Scan(folded, pattern, n) == Scan(folded, pattern, m)
    decreases n
  {
    if m < n {
      ScanStandsStill(folded, pattern, m, n - 1);
    }
  }

  /** The scan finds an embedding of everything it counts, no later than where it stands. */
  lemma {:induction false} ScanEmbeds(folded: seq<Rune>, pattern: seq<Rune>, n: nat) returns (positions: seq<nat>)
    requires n <= |folded|
    ensures Embeds(folded[..n], pattern[..Scan(folded, pattern, n)], positions)
  {
    if n == 0 {
      positions := [];
    } else {
      positions := ScanEmbeds(folded, pattern, n - 1);
      var k := Scan(folded, pattern, n - 1);
      if k < |pattern| && folded[n - 1] == pattern[k] {
        positions := positions + [n - 1];
      }
    }
  }

  /** No embedding of a longer prefix of the pattern fits in the first `n` characters. */
  lemma {:induction false} ScanIsEarliest(folded: seq<Rune>, pattern: seq<Rune>, n: nat, b: nat, positions: seq<nat>)
    requires n <= |folded| && b <= |pattern|
    requires Embeds(folded[..n], pattern[..b], positions)
    ensures b <= Scan(folded, pattern, n)
    decreases n
  {
    if b > 0 {
      var last := positions[b - 1];
      assert Embeds(folded[..last], pattern[..b - 1], positions[..b - 1]) by {
        forall i | 0 <= i < b - 1 ensures positions[i] < last && folded[..last][positions[i]] == pattern[..b - 1][i] {
          assert folded[..n][positions[i]] == pattern[..b][i];
        }
      }
      ScanIsEarliest(folded, pattern, last, b - 1, positions[..b - 1]);
      assert folded[..n][last] == pattern[..b][b - 1];
      ScanIsMonotone(folded, pattern, last + 1, n);
    }
  }

  /** The greedy scan decides the subsequence relation, for every prefix of text and pattern. */
  lemma ScanDecidesSubsequence(folded: seq<Rune>, pattern: seq<Rune>, n: nat, b: nat)
    requires n <= |folded| && b <= |pattern|
    ensures Subsequence(folded[..n], pattern[..b]) <==> b <= Scan(folded, pattern, n)
  {
    if b <= Scan(folded, pattern, n) {
      var all := ScanEmbeds(folded, pattern, n);
      var k := Scan(folded, pattern, n);
      assert Embeds(folded[..n], pattern[..b], all[..b]) by {
        forall i | 0 <= i < b ensures folded[..n][all[i]] == pattern[..b][i] {
          assert pattern[..k][i] == pattern[..b][i];
        }
      }
    }
    if Subsequence(folded[..n], pattern[..b]) {
      var positions :| Embeds(folded[..n], pattern[..b], positions);
      ScanIsEarliest(folded, pattern, n, b, positions);
    }
  }

  /** For the whole text and pattern: matched to the end exactly when a subsequence. */
  lemma ScanDecides(folded: seq<Rune>, pattern: seq<Rune>)
    ensures Subsequence(folded, pattern) <==> Scan(folded, pattern, |folded|) == |pattern|
  {
    ScanDecidesSubsequence(folded, pattern, |folded|, |pattern|);
    assert folded[..|folded|] == folded && pattern[..|pattern|] == pattern;
  }
}
