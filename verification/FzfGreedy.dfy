/** The greedy matcher's scoring pass and entry point. */
module FzfGreedy {
  import opened FzfText
  import opened FzfPrefilter
  import opened FzfV1

  /** The state of the scoring pass after the characters before `g`. */
  datatype Pass = Pass(matched: nat, score: int, inGap: bool, run: nat, carried: int)

  /** Take a match whose plain bonus is `plain`. */
  function TakeMatch(s: Pass, plain: int): Pass {
    var carried := if s.run == 0 || plain == BONUS_BOUNDARY then plain else s.carried;
    var bonus := if s.run == 0 then plain else Max(Max(plain, carried), BONUS_CONSECUTIVE);
    Pass(s.matched + 1, s.score + SCORE_MATCH + (if s.matched == 0 then bonus * FIRST_CHAR_MULTIPLIER else bonus),
         false, s.run + 1, carried)
  }

  function TakeGap(s: Pass): Pass {
    Pass(s.matched, s.score + (if s.inGap then GAP_EXTENSION else GAP_START), true, 0, 0)
  }

  /** The `i`-th position lies in the window and folds to the `i`-th pattern character. */
  ghost predicate MatchesAt(q: Query, start: nat, end: nat, at: seq<nat>, i: nat)
    requires end <= |q.text| && i < |at| && i < |q.pattern|
  {
    start <= at[i] < end && q.FoldGreedy(q.text[at[i]]) == q.pattern[i]
  }

  /** The `i`-th position is where the scan of the window takes the `i`-th pattern character. */
  ghost predicate TakenAt(window: seq<Rune>, pattern: seq<Rune>, start: nat, at: seq<nat>, i: nat)
    requires i < |at|
  {
    && start <= at[i] < start + |window|
    && Scan(window, pattern, at[i] - start) == i && Scan(window, pattern, at[i] - start + 1) == i + 1
  }

  /** What that state says about the characters matched so far. */
  ghost predicate PassInv(q: Query, start: nat, g: nat, at: seq<nat>, s: Pass)
    requires start <= g <= |q.text|
  {
    && InText(q, at) && StrictlyIncreasing(at)
    && s.matched == |at| <= |q.pattern|
    && (forall i: nat :: i < |at| ==> MatchesAt(q, start, g, at, i))
    && (at != [] ==> start <= at[0] && at[|at| - 1] < g)
    && s.score == AlignmentScore(q, at, |at|) + Margins(at, start, g)
    && (s.inGap <==> start < g && (at == [] || at[|at| - 1] < g - 1))
    && (s.run > 0 <==> at != [] && at[|at| - 1] == g - 1)
    && (s.run > 0 ==> s.carried == RunCarries(q, at, |at| - 1))
  }

  /** The pass matches the character at `g`. */
  lemma PassMatches(q: Query, start: nat, g: nat, at: seq<nat>, s: Pass)
    requires start <= g < |q.text| && PassInv(q, start, g, at, s) && s.matched < |q.pattern|
    requires q.FoldGreedy(q.text[g]) == q.pattern[s.matched]
    ensures PassInv(q, start, g + 1, at + [g], TakeMatch(s, q.Bonus(g)))
  {
    var longer := at + [g];
    assert InText(q, longer) && StrictlyIncreasing(longer);
    AlignmentPrefix(q, at, [g], |at|);
    var next := g + 1;
    forall i: nat | i < |longer| ensures MatchesAt(q, start, next, longer, i) {
      assert i < |at| ==> MatchesAt(q, start, g, at, i);
    }
    assert forall i :: 0 <= i < |at| ==> longer[i] == at[i];
    assert s.run == 0 <==> StartsRun(longer, |at|);
  }

  /** The pass skips the character at `g`. */
  lemma PassSkips(q: Query, start: nat, g: nat, at: seq<nat>, s: Pass)
    requires start <= g < |q.text| && PassInv(q, start, g, at, s)
    ensures PassInv(q, start, g + 1, at, TakeGap(s))
  {
    var next := g + 1;
    forall i: nat | i < |at| ensures MatchesAt(q, start, next, at, i) {
      assert MatchesAt(q, start, g, at, i);
    }
  }

  /** One iteration of the scoring pass. */
  method ScoreStep(q: Query, start: nat, g: nat, s: Pass, bonus: int, positions: set<nat>, ghost at: seq<nat>,
                   ghost window: seq<Rune>)
    returns (s': Pass, positions': set<nat>, ghost at': seq<nat>)
    requires start <= g < |q.text| && PassInv(q, start, g, at, s) && bonus == q.Bonus(g)
    requires forall p :: p in positions <==> p in at
    requires g - start < |window| && window[g - start] == q.FoldGreedy(q.text[g])
    requires |at| == Scan(window, q.pattern, g - start)
    requires forall i: nat :: i < |at| ==> TakenAt(window, q.pattern, start, at, i)
    ensures forall i: nat :: i < |at'| ==> TakenAt(window, q.pattern, start, at', i)
    ensures PassInv(q, start, g + 1, at', s')
    ensures forall p :: p in positions' <==> p in at'
    ensures |at'| == Scan(window, q.pattern, g - start + 1)
  {
    if s.matched < |q.pattern| && q.FoldGreedy(q.text[g]) == q.pattern[s.matched] {
      PassMatches(q, start, g, at, s);
      at' := at + [g];
      forall i: nat | i < |at'| ensures TakenAt(window, q.pattern, start, at', i) {
        assert i < |at| ==> TakenAt(window, q.pattern, start, at, i);
      }
      return TakeMatch(s, bonus), positions + {g}, at';
    } else {
      PassSkips(q, start, g, at, s);
      return TakeGap(s), positions, at;
    }
  }

  /** Score the window `[start, end)`, matching the pattern greedily from its left. */
  method ScoreWindow(q: Query, start: nat, end: nat, ghost window: seq<Rune>)
    returns (score: int, positions: set<nat>, ghost at: seq<nat>)
    requires start <= end <= |q.text|
    requires |window| == end - start
    requires forall j :: 0 <= j < |window| ==> window[j] == q.FoldGreedy(q.text[start + j])
    ensures InText(q, at) && StrictlyIncreasing(at)
    ensures |at| == Scan(window, q.pattern, |window|)
    ensures forall i: nat :: i < |at| ==> TakenAt(window, q.pattern, start, at, i)
    ensures forall i: nat :: i < |at| ==> MatchesAt(q, start, end, at, i)
    ensures at != [] ==> start <= at[0] && at[|at| - 1] < end
    ensures score == AlignmentScore(q, at, |at|) + Margins(at, start, end)
    ensures forall p :: p in positions <==> p in at
  {
    var s := Pass(0, 0, false, 0, 0);
    positions, at := {}, [];
    var previousClass := if start > 0 then q.ClassOf(q.text[start - 1]) else OTHER;
    for g := start to end
      invariant PassInv(q, start, g, at, s)
      invariant |at| == Scan(window, q.pattern, g - start)
      invariant forall i: nat :: i < |at| ==> TakenAt(window, q.pattern, start, at, i)
      invariant previousClass == if g > 0 then q.ClassOf(q.text[g - 1]) else OTHER
      invariant forall p :: p in positions <==> p in at
    {
      var class_ := q.ClassOf(q.text[g]);
      s, positions, at := ScoreStep(q, start, g, s, BonusFor(previousClass, class_), positions, at, window);
      previousClass := class_;
    }
    score := s.score;
  }

  /** The window of an answer, in the coordinates of the scan that found it. */
  function WindowStart(q: Query, forward: bool, found: Found): int {
    if forward then found.start else |q.text| - found.end
  }

  function WindowEnd(q: Query, forward: bool, found: Found): int {
    if forward then found.end else |q.text| - found.start
  }

  ghost predicate TightAnswer(q: Query, forward: bool, found: Found) {
    TightWindow(Facing(GreedyText(q), forward), Facing(q.pattern, forward),
                WindowStart(q, forward, found), WindowEnd(q, forward, found))
  }

  /** The score and the positions are those of an alignment that fills the window. */
  ghost predicate FilledBy(q: Query, withPositions: bool, found: Found, at: seq<nat>) {
    && |q.pattern| > 0 && Embeds(GreedyText(q), q.pattern, at)
    && at[0] == found.start && at[|at| - 1] + 1 == found.end
    && found.score == AlignmentScore(q, at, |at|)
    && (if withPositions then found.positions == Present(set p | p in at) else found.positions == Absent)
  }

  /** The score and the positions are those of the greedy alignment of the window. */
  ghost predicate ScoredBy(q: Query, withPositions: bool, found: Found, at: seq<nat>) {
    && 0 <= found.start < found.end <= |q.text| && InText(q, at) && StrictlyIncreasing(at)
    && var window := GreedyText(q)[found.start..found.end];
    && |at| == Scan(window, q.pattern, |window|)
    && (forall i: nat :: i < |at| ==> TakenAt(window, q.pattern, found.start, at, i))
    && (forall i: nat :: i < |at| ==> MatchesAt(q, found.start, found.end, at, i))
    && (at != [] ==> found.start <= at[0] && at[|at| - 1] < found.end)
    && found.score == AlignmentScore(q, at, |at|) + Margins(at, found.start, found.end)
    && found.positions == if withPositions then Present(set p | p in at) else Absent
  }

  /** More text never loses a subsequence. */
  lemma SubsequenceGrows(text: seq<Rune>, pattern: seq<Rune>, a: nat, b: nat, c: nat, d: nat)
    requires a <= b <= c <= d <= |text|
    requires Subsequence(text[b..c], pattern)
    ensures Subsequence(text[a..d], pattern)
  {
    var at :| Embeds(text[b..c], pattern, at);
    var moved := seq(|at|, i requires 0 <= i < |at| => at[i] + (b - a));
    assert Embeds(text[a..d], pattern, moved) by {
      forall i | 0 <= i < |moved| ensures moved[i] < d - a && text[a..d][moved[i]] == pattern[i] {
        assert text[b..c][at[i]] == pattern[i];
      }
    }
  }

  /** The window holds the pattern, and no longer does when its first or last character is dropped. */
  ghost predicate Minimal(text: seq<Rune>, pattern: seq<Rune>, start: nat, end: nat) {
    && start < end <= |text|
    && Subsequence(text[start..end], pattern)
    && !Subsequence(text[start + 1..end], pattern)
    && !Subsequence(text[start..end - 1], pattern)
  }

  /** A tight window, whichever way it was found, loses the pattern when either end is dropped. */
  lemma TightEitherWay(text: seq<Rune>, pattern: seq<Rune>, forward: bool, start: nat, end: nat)
    requires start < end <= |text|
    requires TightWindow(Facing(text, forward), Facing(pattern, forward),
                         if forward then start else |text| - end, if forward then end else |text| - start)
    ensures Minimal(text, pattern, start, end)
  {
    if forward {
      assert Facing(text, true) == text && Facing(pattern, true) == pattern;
      if Subsequence(text[start..end - 1], pattern) {
        SubsequenceGrows(text, pattern, 0, start, end - 1, end - 1);
      }
    } else {
      var n := |text|;
      assert Facing(text, false)[n - end..n - start] == Facing(text[start..end], false);
      ReversedSubsequence(text[start..end], pattern);
      assert Facing(text, false)[n - end + 1..n - start] == Facing(text[start..end - 1], false);
      ReversedSubsequence(text[start..end - 1], pattern);
      assert Facing(text, false)[..n - start - 1] == Facing(text[start + 1..n], false);
      ReversedSubsequence(text[start + 1..n], pattern);
      if Subsequence(text[start + 1..end], pattern) {
        SubsequenceGrows(text, pattern, start + 1, start + 1, end, n);
      }
    }
  }

  /** An embedding into a tight window touches both of its ends. */
  lemma TightIsTouched(text: seq<Rune>, pattern: seq<Rune>, start: nat, end: nat, at: seq<nat>)
    requires Minimal(text, pattern, start, end) && |pattern| > 0
    requires Embeds(text, pattern, at) && start <= at[0] && at[|at| - 1] < end
    ensures at[0] == start && at[|at| - 1] == end - 1
  {
    if at[0] > start {
      EmbedsInside(text, pattern, start + 1, end, at);
    }
    if at[|at| - 1] < end - 1 {
      EmbedsInside(text, pattern, start, end - 1, at);
    }
  }

  lemma EmbedsInside(text: seq<Rune>, pattern: seq<Rune>, start: nat, end: nat, at: seq<nat>)
    requires start <= end <= |text| && |pattern| > 0
    requires Embeds(text, pattern, at) && start <= at[0] && at[|at| - 1] < end
    ensures Subsequence(text[start..end], pattern)
  {
    var n := |at| - 1;
    forall i | 0 <= i < |at| ensures start <= at[i] < end {
      assert at[0] <= at[i] <= at[n];
    }
    var moved := seq(|at|, i requires 0 <= i < |at| => at[i] - start);
    assert Embeds(text[start..end], pattern, moved);
  }

  /** A greedy alignment of a minimal window fills it. */
  lemma FillsWindow(q: Query, withPositions: bool, found: Found, at: seq<nat>)
    requires |q.pattern| > 0 && ScoredBy(q, withPositions, found, at)
    requires Minimal(GreedyText(q), q.pattern, found.start, found.end)
    ensures FilledBy(q, withPositions, found, at)
  {
    var window := GreedyText(q)[found.start..found.end];
    ScanDecides(window, q.pattern);
    MatchesEmbed(q, found.start, found.end, at);
    TightIsTouched(GreedyText(q), q.pattern, found.start, found.end, at);
  }

  lemma MatchesEmbed(q: Query, start: nat, end: nat, at: seq<nat>)
    requires start <= end <= |q.text| && InText(q, at) && StrictlyIncreasing(at) && |at| == |q.pattern|
    requires forall i: nat :: i < |at| ==> MatchesAt(q, start, end, at, i)
    ensures Embeds(GreedyText(q), q.pattern, at)
  {
    forall i | 0 <= i < |at| ensures GreedyText(q)[at[i]] == q.pattern[i] {
      assert MatchesAt(q, start, end, at, i);
    }
  }

  /** Score a window that the two scans found. */
  method ScoreFound(q: Query, withPositions: bool, start: nat, end: nat) returns (found: Found)
    requires |q.pattern| > 0 && start < end <= |q.text|
    ensures found.start == start && found.end == end
    ensures exists at :: ScoredBy(q, withPositions, found, at)
  {
    ghost var window := GreedyText(q)[start..end];
    var score, positions;
    ghost var at;
    score, positions, at := ScoreWindow(q, start, end, window);
    found := Found(start, end, score, if withPositions then Present(positions) else Absent);
    assert withPositions ==> found.positions == Present(set p | p in at);
    assert ScoredBy(q, withPositions, found, at);
  }

  /** The text as the backward scan sees it: lowered, but with its diacritics. */
  ghost function LoweredText(q: Query): (t: seq<Rune>)
    ensures |t| == |q.text|
    ensures forall j :: 0 <= j < |t| ==> t[j] == q.LowerGreedy(q.text[j])
  {
    seq(|q.text|, j requires 0 <= j < |q.text| => q.LowerGreedy(q.text[j]))
  }

  /** The same ends of `[first, end)` hold the pattern with and without diacritics; when with them
      nothing holds it, only the whole of `[first, end)` does without. */
  ghost predicate SameEnds(text: seq<Rune>, lowered: seq<Rune>, pattern: seq<Rune>, first: nat, end: nat)
    requires first < end <= |text| == |lowered|
  {
    if Subsequence(lowered[first..end], pattern) then
      forall s :: first <= s <= end ==> (Subsequence(lowered[s..end], pattern) <==> Subsequence(text[s..end], pattern))
    else !Subsequence(text[first + 1..end], pattern)
  }

  /** Exactly then the window is tight, although the backward scan forgets to strip diacritics. */
  lemma TightExactly(text: seq<Rune>, lowered: seq<Rune>, pattern: seq<Rune>, first: nat, start: nat, end: nat)
    requires |text| == |lowered| && ScansTo(text, pattern, first, end)
    requires StopsBackAt(lowered, pattern, first, end, start)
    ensures TightWindow(text, pattern, start, end) <==> SameEnds(text, lowered, pattern, first, end)
  {
    PrefixDecides(text, pattern, end - 1);
    PrefixDecides(text, pattern, end);
    SkipUnmatched(text, pattern, first, end);
    if Subsequence(lowered[first..end], pattern) {
      forall s: nat | first <= s <= end
        ensures Subsequence(lowered[s..end], pattern) <==> s <= start
        ensures TightWindow(text, pattern, start, end) ==> (Subsequence(text[s..end], pattern) <==> s <= start)
      {
        LatestStart(lowered, pattern, start, end, s);
        if TightWindow(text, pattern, start, end) {
          LatestStart(text, pattern, start, end, s);
        }
      }
    }
  }

  /** Ends of the text hold the pattern up to the latest start. */
  lemma LatestStart(text: seq<Rune>, pattern: seq<Rune>, start: nat, end: nat, s: nat)
    requires start < end <= |text| && s <= end
    requires Subsequence(text[start..end], pattern) && !Subsequence(text[start + 1..end], pattern)
    ensures Subsequence(text[s..end], pattern) <==> s <= start
  {
    if s <= start {
      SubsequenceGrows(text, pattern, s, start, end, end);
    } else if Subsequence(text[s..end], pattern) {
      SubsequenceGrows(text, pattern, start + 1, s, end, end);
    }
  }

  /** Both scans, in their own coordinates. */
  ghost predicate Scanned(q: Query, forward: bool, first: int, start: int, end: int) {
    && ScansTo(Facing(GreedyText(q), forward), Facing(q.pattern, forward), first, end)
    && StopsBackAt(Facing(LoweredText(q), forward), Facing(q.pattern, forward), first, end, start)
  }

  /** The window that the two scans find, in the coordinates of the text. */
  ghost predicate FoundBy(q: Query, forward: bool, first: int, found: Found) {
    Scanned(q, forward, first, WindowStart(q, forward, found), WindowEnd(q, forward, found))
  }

  /** The condition on the texts under which that window is tight. */
  ghost predicate TightCondition(q: Query, forward: bool, first: nat, end: nat)
    requires first < end <= |q.text|
  {
    SameEnds(Facing(GreedyText(q), forward), Facing(LoweredText(q), forward), Facing(q.pattern, forward), first, end)
  }

  lemma TightAnswerExactly(q: Query, forward: bool, first: int, found: Found)
    requires FoundBy(q, forward, first, found)
    ensures TightAnswer(q, forward, found) <==> TightCondition(q, forward, first, WindowEnd(q, forward, found))
  {
    TightExactly(Facing(GreedyText(q), forward), Facing(LoweredText(q), forward), Facing(q.pattern, forward), first,
                 WindowStart(q, forward, found), WindowEnd(q, forward, found));
  }

  lemma TightWhenNeutral(q: Query, forward: bool, first: int, found: Found)
    requires FoundBy(q, forward, first, found) && StripNeutral(q)
    ensures TightAnswer(q, forward, found)
  {
    TightAnswerExactly(q, forward, first, found);
    NothingStripped(q, forward, first, WindowEnd(q, forward, found));
  }

  lemma NothingStripped(q: Query, forward: bool, first: nat, end: nat)
    requires StripNeutral(q)
    requires ScansTo(Facing(GreedyText(q), forward), Facing(q.pattern, forward), first, end)
    ensures TightCondition(q, forward, first, end)
  {
    assert LoweredText(q) == GreedyText(q);
    PrefixDecides(Facing(GreedyText(q), forward), Facing(q.pattern, forward), end);
    SkipUnmatched(Facing(GreedyText(q), forward), Facing(q.pattern, forward), first, end);
  }

  /** The window is a function of the query. */
  lemma WindowIsUnique(q: Query, forward: bool, i: int, x: Found, j: int, y: Found)
    requires FoundBy(q, forward, i, x) && FoundBy(q, forward, j, y)
    ensures i == j && x.start == y.start && x.end == y.end
  {
    ScansAreUnique(Facing(GreedyText(q), forward), Facing(LoweredText(q), forward), Facing(q.pattern, forward), i,
                   WindowStart(q, forward, x), WindowEnd(q, forward, x), j, WindowStart(q, forward, y),
                   WindowEnd(q, forward, y));
  }

  lemma ScansAreUnique(text: seq<Rune>, lowered: seq<Rune>, pattern: seq<Rune>, i: int, s: int, a: int, j: int,
                       u: int, b: int)
    requires ScansTo(text, pattern, i, a) && StopsBackAt(lowered, pattern, i, a, s)
    requires ScansTo(text, pattern, j, b) && StopsBackAt(lowered, pattern, j, b, u)
    ensures i == j && a == b && s == u
  {
    MatchesStart(text, pattern, i, j);
    MatchesStart(text, pattern, j, i);
    if a < b {
      ScanIsMonotone(text, pattern, a, b - 1);
    } else if b < a {
      ScanIsMonotone(text, pattern, b, a - 1);
    }
    if Subsequence(lowered[i..a], pattern) {
      LatestStart(lowered, pattern, s, a, u);
      LatestStart(lowered, pattern, u, a, s);
    }
  }

  // ------------------------------------------------------------------
  // A window that is not tight.

  /** The pattern "ab" in a text of `a`, an `a` with an acute accent, and `b`. */
  predicate IsAccented(q: Query) {
    && q.normalize && q.unicode.Strip(225) == 97 && q.unicode.Lower(225) == 225
    && |q.text| == 3 && q.text[0] == 97 && q.text[1] == 225 && q.text[2] == 98
    && |q.pattern| == 2 && q.pattern[0] == 97 && q.pattern[1] == 98
  }

  /** The window starts at 0, although the pattern is matched from 1 on. */
  lemma AccentedIsNotTight(q: Query, first: int, found: Found)
    requires IsAccented(q) && FoundBy(q, true, first, found)
    ensures found.start == 0 && found.end == 3
    ensures Subsequence(GreedyText(q)[1..3], q.pattern) && !TightAnswer(q, true, found)
  {
    AccentedTexts(q);
    AccentedWindow(q);
    WindowIsUnique(q, true, first, found, 0, Found(0, 3, 0, Absent));
    AccentedSuffix(GreedyText(q), q.pattern);
  }

  lemma AccentedTexts(q: Query)
    requires IsAccented(q)
    ensures Facing(GreedyText(q), true) == GreedyText(q) == [97, 97, 98]
    ensures Facing(LoweredText(q), true) == [97, 225, 98] && Facing(q.pattern, true) == q.pattern == [97, 98]
  {
    assert Facing(GreedyText(q), true) == GreedyText(q) && Facing(q.pattern, true) == q.pattern;
  }

  lemma AccentedWindow(q: Query)
    requires IsAccented(q)
    ensures FoundBy(q, true, 0, Found(0, 3, 0, Absent))
  {
    AccentedTexts(q);
    var lowered, pattern := Facing(LoweredText(q), true), Facing(q.pattern, true);
    AccentedScan(Facing(GreedyText(q), true), pattern);
    AccentedScanBack(lowered, pattern);
    StopsWhereComplete(lowered, pattern, 0, 3, 0);
  }

  lemma AccentedSuffix(text: seq<Rune>, pattern: seq<Rune>)
    requires text == [97, 97, 98] && pattern == [97, 98]
    ensures Subsequence(text[1..3], pattern) && !TightWindow(text, pattern, 0, 3)
  {
    assert text[0 + 1..3] == text[1..3] == pattern;
    assert Embeds(text[1..3], pattern, [0, 1]);
  }

  lemma AccentedScan(text: seq<Rune>, pattern: seq<Rune>)
    requires text == [97, 97, 98] && pattern == [97, 98]
    ensures ScansTo(text, pattern, 0, 3)
  {
    assert Scan(text, pattern, 0) == 0 && Scan(text, pattern, 1) == 1 && Scan(text, pattern, 2) == 1;
  }

  lemma AccentedScanBack(lowered: seq<Rune>, pattern: seq<Rune>)
    requires lowered == [97, 225, 98] && pattern == [97, 98]
    ensures ScanBack(lowered, pattern, 0, 3) == 2 && ScanBack(lowered, pattern, 1, 3) == 1
  {
    assert ScanBack(lowered, pattern, 3, 3) == 0 && ScanBack(lowered, pattern, 2, 3) == 1;
  }

  /** Both scans: the window of the match in scan coordinates, or a negative end. */
  method FindWindow(q: Query, forward: bool, ghost text: seq<Rune>, ghost pattern: seq<Rune>)
    returns (start: int, end: int, ghost first: int)
    requires |q.pattern| > 0
    requires text == Facing(GreedyText(q), forward) && pattern == Facing(q.pattern, forward)
    ensures end < 0 <==> Scan(text, pattern, |q.text|) < |pattern|
    ensures end >= 0 ==> Scanned(q, forward, first, start, end)
  {
    var from;
    from, end := ScanForward(q, forward, text, pattern);
    first := from;
    if end < 0 {
      return -1, end, first;
    }
    ScanIsMonotone(text, pattern, end, |text|);
    start := ScanBackward(q, forward, from, end, Facing(LoweredText(q), forward), pattern);
  }

  /** The window of the two scans, with the score and the positions of its greedy alignment. */
  ghost predicate GreedyAnswer(q: Query, forward: bool, withPositions: bool, found: Found) {
    (exists first :: FoundBy(q, forward, first, found)) && exists at :: ScoredBy(q, withPositions, found, at)
  }

  /** Both scans and the scoring pass, without the prefilter. */
  method MatchScanned(q: Query, forward: bool, withPositions: bool) returns (found: Found)
    requires |q.pattern| > 0
    ensures found != NOT_FOUND <==> Subsequence(GreedyText(q), q.pattern)
    ensures found != NOT_FOUND ==> GreedyAnswer(q, forward, withPositions, found)
  {
    FacingDecides(q, forward);
    var start, end;
    ghost var first;
    start, end, first := FindWindow(q, forward, Facing(GreedyText(q), forward), Facing(q.pattern, forward));
    if end < 0 {
      return NOT_FOUND;
    }
    found := ScoreFound(q, withPositions, if forward then start else |q.text| - end,
                        if forward then end else |q.text| - start);
    ghost var from, to := WindowStart(q, forward, found), WindowEnd(q, forward, found);
    assert from == start && to == end;
    assert Scanned(q, forward, first, from, to);
    assert FoundBy(q, forward, first, found);
  }

  /**
   The greedy matcher: it finds the pattern exactly when it is a subsequence, in
   the window of the two scans, and reports the greedy alignment of that window.
   */
  method FuzzyMatchV1(q: Query, forward: bool, withPositions: bool) returns (found: Found)
    ensures |q.pattern| == 0 ==> found == Found(0, 0, 0, Absent)
    ensures |q.pattern| > 0 ==> (found != NOT_FOUND <==> Subsequence(GreedyText(q), q.pattern))
    ensures |q.pattern| > 0 && found != NOT_FOUND ==> GreedyAnswer(q, forward, withPositions, found)
  {
    if |q.pattern| == 0 {
      return Found(0, 0, 0, Absent);
    }
    var admitted := AsciiFuzzyIndex(q);
    if admitted < 0 {
      AsciiFoldsAgree(q);
      return NOT_FOUND;
    }
    found := MatchScanned(q, forward, withPositions);
  }

  /** The answer is a function of the query and the options. */
  lemma GreedyAnswerIsUnique(q: Query, forward: bool, withPositions: bool, x: Found, y: Found)
    requires GreedyAnswer(q, forward, withPositions, x) && GreedyAnswer(q, forward, withPositions, y)
    ensures x == y
  {
    var i :| FoundBy(q, forward, i, x);
    var j :| FoundBy(q, forward, j, y);
    WindowIsUnique(q, forward, i, x, j, y);
    var a :| ScoredBy(q, withPositions, x, a);
    var b :| ScoredBy(q, withPositions, y, b);
    AlignmentIsUnique(q, withPositions, x, y, a, b);
  }

  lemma AlignmentIsUnique(q: Query, withPositions: bool, x: Found, y: Found, a: seq<nat>, b: seq<nat>)
    requires ScoredBy(q, withPositions, x, a) && ScoredBy(q, withPositions, y, b)
    requires x.start == y.start && x.end == y.end
    ensures a == b && x == y
  {
    var window := GreedyText(q)[x.start..x.end];
    forall n: nat | n < |a| ensures a[n] == b[n] {
      TakenOnce(window, q.pattern, x.start, a, b, n);
    }
  }

  lemma TakenOnce(window: seq<Rune>, pattern: seq<Rune>, start: nat, a: seq<nat>, b: seq<nat>, n: nat)
    requires n < |a| && n < |b| && TakenAt(window, pattern, start, a, n) && TakenAt(window, pattern, start, b, n)
    ensures a[n] == b[n]
  {
    if a[n] < b[n] {
      ScanIsMonotone(window, pattern, a[n] - start + 1, b[n] - start);
    } else if b[n] < a[n] {
      ScanIsMonotone(window, pattern, b[n] - start + 1, a[n] - start);
    }
  }

  /** A tight window is filled: its alignment embeds the whole pattern and touches both ends. */
  lemma TightIsFilled(q: Query, forward: bool, withPositions: bool, found: Found, at: seq<nat>)
    requires |q.pattern| > 0 && TightAnswer(q, forward, found) && ScoredBy(q, withPositions, found, at)
    ensures FilledBy(q, withPositions, found, at)
  {
    TightEitherWay(GreedyText(q), q.pattern, forward, found.start, found.end);
    FillsWindow(q, withPositions, found, at);
  }

  /** No embedding is complete sooner, seen in the direction of the scan, and none that is so soon begins later. */
  predicate IsShortestBeside(at: seq<nat>, forward: bool, start: int, end: int)
    requires |at| > 0
  {
    var first, last := at[0], at[|at| - 1] + 1;
    if forward then end <= last && (end == last ==> first <= start)
    else first <= start && (first == start ==> end <= last)
  }

  lemma TightIsSoonest(text: seq<Rune>, pattern: seq<Rune>, start: nat, end: nat, at: seq<nat>)
    requires TightWindow(text, pattern, start, end) && |pattern| > 0 && Embeds(text, pattern, at)
    ensures IsShortestBeside(at, true, start, end)
  {
    assert text[0..end - 1] == text[..end - 1];
    if at[|at| - 1] + 1 < end {
      EmbedsInside(text, pattern, 0, end - 1, at);
    } else if at[|at| - 1] + 1 == end && at[0] > start {
      EmbedsInside(text, pattern, start + 1, end, at);
    }
  }

  lemma TightIsLatest(text: seq<Rune>, pattern: seq<Rune>, start: nat, end: nat, at: seq<nat>)
    requires start < end <= |text| && |pattern| > 0 && Embeds(text, pattern, at)
    requires TightWindow(Facing(text, false), Facing(pattern, false), |text| - end, |text| - start)
    ensures IsShortestBeside(at, false, start, end)
  {
    var n := |text|;
    TightEitherWay(text, pattern, false, start, end);
    assert Facing(text, false)[..n - start - 1] == Facing(text[start + 1..n], false);
    ReversedSubsequence(text[start + 1..n], pattern);
    if at[0] > start {
      EmbedsInside(text, pattern, start + 1, n, at);
    } else if at[0] == start && at[|at| - 1] + 1 < end {
      EmbedsInside(text, pattern, start, end - 1, at);
    }
  }

  lemma TightIsShortest(q: Query, forward: bool, found: Found, at: seq<nat>)
    requires TightAnswer(q, forward, found) && |q.pattern| > 0 && Embeds(GreedyText(q), q.pattern, at)
    ensures IsShortestBeside(at, forward, found.start, found.end)
  {
    if forward {
      assert Facing(GreedyText(q), true) == GreedyText(q) && Facing(q.pattern, true) == q.pattern;
      TightIsSoonest(GreedyText(q), q.pattern, found.start, found.end, at);
    } else {
      TightIsLatest(GreedyText(q), q.pattern, found.start, found.end, at);
    }
  }

  /** On ASCII text nothing is stripped, and the window that the two scans find is tight. */
  lemma AsciiIsTight(q: Query, forward: bool, withPositions: bool, found: Found)
    requires AllAscii(q.text) && GreedyAnswer(q, forward, withPositions, found)
    ensures |q.pattern| > 0 && GreedyText(q) == q.Folded() && TightAnswer(q, forward, found)
  {
    AsciiFoldsAgree(q);
    var first :| FoundBy(q, forward, first, found);
    TightWhenNeutral(q, forward, first, found);
  }

  /** There the alignment places the whole pattern, from one end of the window to the other. */
  lemma AsciiIsFilled(q: Query, forward: bool, withPositions: bool, found: Found)
    requires AllAscii(q.text) && GreedyAnswer(q, forward, withPositions, found)
    ensures exists taken :: FilledBy(q, withPositions, found, taken)
  {
    AsciiIsTight(q, forward, withPositions, found);
    var taken :| ScoredBy(q, withPositions, found, taken);
    TightIsFilled(q, forward, withPositions, found, taken);
  }

  /** And no other place of the pattern is complete sooner, or is complete as soon and is shorter. */
  lemma AsciiIsShortest(q: Query, forward: bool, withPositions: bool, found: Found, at: seq<nat>)
    requires AllAscii(q.text) && GreedyAnswer(q, forward, withPositions, found)
    requires Embeds(q.Folded(), q.pattern, at)
    ensures |at| > 0 && IsShortestBeside(at, forward, found.start, found.end)
  {
    AsciiIsTight(q, forward, withPositions, found);
    TightIsShortest(q, forward, found, at);
  }

  /** A scan in either direction decides the subsequence relation of the text itself. */
  lemma FacingDecides(q: Query, forward: bool)
    ensures Subsequence(GreedyText(q), q.pattern) <==>
            Scan(Facing(GreedyText(q), forward), Facing(q.pattern, forward), |q.text|) == |q.pattern|
  {
    ScanDecides(Facing(GreedyText(q), forward), Facing(q.pattern, forward));
    if forward {
      assert Facing(GreedyText(q), true) == GreedyText(q) && Facing(q.pattern, true) == q.pattern;
    } else {
      ReversedSubsequence(GreedyText(q), q.pattern);
    }
  }
}
