/**
 The greedy matcher: a forward scan to the earliest end, a backward scan to the
 latest start, and one scoring pass over that window.
 */
module FzfV1 {
  import opened FzfText
  import opened FzfPrefilter

  /** What a search reports; `positions` is absent when it was not asked for or not found. */
  datatype Positions = Absent | Present(at: set<nat>)
  datatype Found = Found(start: int, end: int, score: int, positions: Positions)

  const NOT_FOUND := Found(-1, -1, 0, Absent)

  /** The index a scan in the given direction reads at its step `t`. */
  function IndexAt(t: int, length: int, forward: bool): int {
    if forward then t else length - t - 1
  }

  /** A sequence in the order in which a scan visits it. */
  ghost function Facing<T>(s: seq<T>, forward: bool): (v: seq<T>)
    ensures |v| == |s|
    ensures forall i :: 0 <= i < |s| ==> v[i] == s[IndexAt(i, |s|, forward)]
  {
    seq(|s|, i requires 0 <= i < |s| => s[IndexAt(i, |s|, forward)])
  }

  ghost function GreedyText(q: Query): (t: seq<Rune>)
    ensures |t| == |q.text|
    ensures forall j :: 0 <= j < |t| ==> t[j] == q.FoldGreedy(q.text[j])
  {
    seq(|q.text|, j requires 0 <= j < |q.text| => q.FoldGreedy(q.text[j]))
  }

  /** The backward scan forgets to strip diacritics; on such texts it makes no difference. */
  predicate StripNeutral(q: Query) {
    forall j :: 0 <= j < |q.text| ==> q.FoldGreedy(q.text[j]) == q.LowerGreedy(q.text[j])
  }

  /** On ASCII text both matchers fold alike, and nothing is stripped. */
  lemma AsciiFoldsAgree(q: Query)
    requires AllAscii(q.text)
    ensures GreedyText(q) == q.Folded() && StripNeutral(q)
  {
    forall j | 0 <= j < |q.text|
      ensures q.FoldGreedy(q.text[j]) == q.Fold(q.text[j]) == q.LowerGreedy(q.text[j])
    {
      assert q.text[j] <= LAST_ASCII;
    }
  }

  /** Reversal keeps the subsequence relation. */
  lemma ReversedSubsequence(folded: seq<Rune>, pattern: seq<Rune>)
    ensures Subsequence(Facing(folded, false), Facing(pattern, false)) <==> Subsequence(folded, pattern)
  {
    if positions :| Embeds(folded, pattern, positions) {
      ReversedEmbeds(folded, pattern, positions);
    }
    if positions :| Embeds(Facing(folded, false), Facing(pattern, false), positions) {
      ReversedEmbeds(Facing(folded, false), Facing(pattern, false), positions);
      assert Facing(Facing(folded, false), false) == folded;
      assert Facing(Facing(pattern, false), false) == pattern;
    }
  }

  lemma ReversedEmbeds(folded: seq<Rune>, pattern: seq<Rune>, positions: seq<nat>)
    requires Embeds(folded, pattern, positions)
    ensures Subsequence(Facing(folded, false), Facing(pattern, false))
  {
    var n := |folded|;
    var mirrored := seq(|positions|, i requires 0 <= i < |positions| =>
      var p := positions[|positions| - 1 - i]; if p < n then n - 1 - p else 0);
    assert Embeds(Facing(folded, false), Facing(pattern, false), mirrored);
  }

  /** `[from, to)` is the shortest window that ends at the earliest possible end. */
  ghost predicate TightWindow(text: seq<Rune>, pattern: seq<Rune>, from: int, to: int) {
    && 0 <= from < to <= |text|
    && Subsequence(text[from..to], pattern)
    && !Subsequence(text[..to - 1], pattern)
    && !Subsequence(text[from + 1..to], pattern)
  }

  /** The first match is at `first`, and the pattern is first complete just before `end`. */
  ghost predicate ScansTo(text: seq<Rune>, pattern: seq<Rune>, first: int, end: int) {
    && 0 <= first < end <= |text| && |pattern| > 0
    && Scan(text, pattern, first) == 0 && text[first] == pattern[0]
    && Scan(text, pattern, end) == |pattern| == Scan(text, pattern, end - 1) + 1
  }

  /** The latest start of the pattern in `[first, end)` of the text that the backward scan sees, or `first`. */
  ghost predicate StopsBackAt(lowered: seq<Rune>, pattern: seq<Rune>, first: int, end: int, start: int) {
    && 0 <= first <= start < end <= |lowered|
    && if Subsequence(lowered[first..end], pattern) then
         Subsequence(lowered[start..end], pattern) && !Subsequence(lowered[start + 1..end], pattern)
       else start == first
  }

  /** The forward scan: where the first match is, and where the pattern is first complete. */
  method ScanForward(q: Query, forward: bool, ghost text: seq<Rune>, ghost pattern: seq<Rune>)
    returns (first: int, end: int)
    requires |q.pattern| > 0
    requires |text| == |q.text| && Facing(q.pattern, forward) == pattern
    requires forall c :: 0 <= c < |text| ==> text[c] == q.FoldGreedy(q.text[IndexAt(c, |q.text|, forward)])
    ensures if end < 0 then Scan(text, pattern, |text|) < |pattern|
            else ScansTo(text, pattern, first, end)
  {
    var r := 0;
    first, end := -1, -1;
    for c := 0 to |q.text|
      invariant r == Scan(text, pattern, c) < |q.pattern|
      invariant first < 0 <==> r == 0
      invariant first >= 0 ==> first < c && Scan(text, pattern, first) == 0 && text[first] == pattern[0]
      invariant end < 0
    {
      var h := q.FoldGreedy(q.text[IndexAt(c, |q.text|, forward)]);
      assert h == text[c];
      if h == q.pattern[IndexAt(r, |q.pattern|, forward)] {
        if first < 0 {
          first := c;
        }
        r := r + 1;
        if r == |q.pattern| {
          end := c + 1;
          break;
        }
      }
    }
  }

  /** The mirrored scan decides whether a suffix of `text[..end]` holds the pattern. */
  lemma MirrorDecides(text: seq<Rune>, pattern: seq<Rune>, from: nat, end: nat)
    requires from <= end <= |text|
    ensures Subsequence(text[from..end], pattern) <==>
            ScanBack(text, pattern, from, end) == |pattern|
  {
    ScanBackIsScan(text, pattern, from, end);
    var mirror := Facing(text[..end], false);
    ReversedSubsequence(text[from..end], pattern);
    ScanDecidesSubsequence(mirror, Facing(pattern, false), end - from, |pattern|);
    assert Facing(text[from..end], false) == mirror[..end - from];
    assert Facing(pattern, false)[..|pattern|] == Facing(pattern, false);
  }

  /** How much of the pattern, read backwards, a backward scan of `[from, end)` matches. */
  ghost function ScanBack(text: seq<Rune>, pattern: seq<Rune>, from: nat, end: nat): (k: nat)
    requires from <= end <= |text|
    ensures k <= |pattern|
    decreases end - from
  {
    if from == end then 0
    else
      var k := ScanBack(text, pattern, from + 1, end);
      if k < |pattern| && text[from] == pattern[|pattern| - 1 - k] then k + 1 else k
  }

  lemma {:induction false} ScanBackIsScan(text: seq<Rune>, pattern: seq<Rune>, from: nat, end: nat)
    requires from <= end <= |text|
    ensures ScanBack(text, pattern, from, end)
            == Scan(Facing(text[..end], false), Facing(pattern, false), end - from)
    decreases end - from
  {
    if from < end {
      ScanBackIsScan(text, pattern, from + 1, end);
      var k := ScanBack(text, pattern, from + 1, end);
      assert Facing(text[..end], false)[end - 1 - from] == text[from];
      assert k < |pattern| ==> Facing(pattern, false)[k] == pattern[|pattern| - 1 - k];
    }
  }

  lemma {:induction false} ScanBackMonotone(text: seq<Rune>, pattern: seq<Rune>, from: nat, to: nat, end: nat)
    requires from <= to <= end <= |text|
    ensures ScanBack(text, pattern, to, end) <= ScanBack(text, pattern, from, end)
    decreases end - from
  {
    if from < to {
      ScanBackMonotone(text, pattern, from + 1, to, end);
    }
  }

  lemma StopsWhereComplete(text: seq<Rune>, pattern: seq<Rune>, first: nat, end: nat, start: nat)
    requires first <= start < end <= |text|
    requires ScanBack(text, pattern, first, end) == ScanBack(text, pattern, start, end) == |pattern|
    requires ScanBack(text, pattern, start + 1, end) < |pattern|
    ensures StopsBackAt(text, pattern, first, end, start)
  {
    MirrorDecides(text, pattern, first, end);
    MirrorDecides(text, pattern, start, end);
    MirrorDecides(text, pattern, start + 1, end);
  }

  /** The backward scan from `end`: the latest start, or `first` when it does not complete. */
  method ScanBackward(q: Query, forward: bool, first: nat, end: nat, ghost text: seq<Rune>, ghost pattern: seq<Rune>)
    returns (start: nat)
    requires 0 < |q.pattern| && first < end <= |q.text|
    requires |text| == |q.text| && Facing(q.pattern, forward) == pattern
    requires forall c :: 0 <= c < |text| ==> text[c] == q.LowerGreedy(q.text[IndexAt(c, |q.text|, forward)])
    ensures StopsBackAt(text, pattern, first, end, start)
  {
    var r := |q.pattern| - 1;
    var g := end - 1;
    while g >= first
      invariant first - 1 <= g < end && 0 <= r < |q.pattern|
      invariant |pattern| - 1 - r == ScanBack(text, pattern, g + 1, end)
    {
      var p := q.LowerGreedy(q.text[IndexAt(g, |q.text|, forward)]);
      assert p == text[g];
      if p == q.pattern[IndexAt(r, |q.pattern|, forward)] {
        r := r - 1;
        if r < 0 {
          ScanBackMonotone(text, pattern, first, g, end);
          StopsWhereComplete(text, pattern, first, end, g);
          return g;
        }
      }
      g := g - 1;
    }
    MirrorDecides(text, pattern, first, end);
    return first;
  }

  lemma PrefixDecides(text: seq<Rune>, pattern: seq<Rune>, n: nat)
    requires n <= |text|
    ensures Subsequence(text[..n], pattern) <==> Scan(text, pattern, n) == |pattern|
  {
    ScanDecidesSubsequence(text, pattern, n, |pattern|);
    assert pattern[..|pattern|] == pattern;
  }

  /** Nothing that the greedy scan has not yet started on is needed. */
  lemma SkipUnmatched(text: seq<Rune>, pattern: seq<Rune>, first: nat, end: nat)
    requires first <= end <= |text| && |pattern| > 0 && Scan(text, pattern, first) == 0
    requires Subsequence(text[..end], pattern)
    ensures Subsequence(text[first..end], pattern)
  {
    var positions :| Embeds(text[..end], pattern, positions);
    assert text[..end][positions[0]] == pattern[0];
    MatchesStart(text, pattern, first, positions[0]);
    ShiftEmbeds(text, pattern, first, end, positions);
  }

  lemma ScanStarts(text: seq<Rune>, pattern: seq<Rune>, first: nat, at: nat)
    requires at < first <= |text| && |pattern| > 0 && text[at] == pattern[0]
    ensures Scan(text, pattern, first) > 0
  {
    ScanIsMonotone(text, pattern, at + 1, first);
    ScanIsMonotone(text, pattern, at, first);
  }

  /** A first match is never left behind by an unstarted scan. */
  lemma MatchesStart(text: seq<Rune>, pattern: seq<Rune>, first: nat, at: nat)
    requires first <= |text| && at < |text| && |pattern| > 0 && text[at] == pattern[0]
    requires Scan(text, pattern, first) == 0
    ensures at >= first
  {
    if at < first {
      ScanStarts(text, pattern, first, at);
    }
  }

  lemma ShiftEmbeds(text: seq<Rune>, pattern: seq<Rune>, first: nat, end: nat, positions: seq<nat>)
    requires first <= end <= |text| && |pattern| > 0
    requires Embeds(text[..end], pattern, positions) && positions[0] >= first
    ensures Subsequence(text[first..end], pattern)
  {
    var shifted := seq(|positions|, i requires 0 <= i < |positions| =>
      if positions[i] >= first then positions[i] - first else 0);
    forall i | 0 <= i < |shifted|
      ensures positions[i] >= positions[0] && shifted[i] < end - first && text[first..end][shifted[i]] == pattern[i]
    {
      assert text[..end][positions[i]] == pattern[i];
    }
    assert Embeds(text[first..end], pattern, shifted);
  }

  // ------------------------------------------------------------------
  // The score of an alignment, independent of how it was found.

  /** What a gap of `n` skipped characters costs. */
  function Gap(n: nat): int {
    if n == 0 then 0 else GAP_START + (n - 1) * GAP_EXTENSION
  }

  predicate InText(q: Query, at: seq<nat>) {
    forall i :: 0 <= i < |at| ==> at[i] < |q.text|
  }

  /** Does the `i`-th matched character start a run of consecutive ones? */
  predicate StartsRun(at: seq<nat>, i: nat)
    requires i < |at|
  {
    i == 0 || at[i] != at[i - 1] + 1
  }

  /** The bonus a run carries at its `i`-th matched character: that of its start or of a later boundary. */
  ghost function RunCarries(q: Query, at: seq<nat>, i: nat): (bonus: int)
    requires InText(q, at) && i < |at|
    ensures 0 <= bonus <= BONUS_BOUNDARY
  {
    if StartsRun(at, i) || q.Bonus(at[i]) == BONUS_BOUNDARY then q.Bonus(at[i]) else RunCarries(q, at, i - 1)
  }

  ghost function CharScore(q: Query, at: seq<nat>, i: nat): int
    requires InText(q, at) && i < |at|
  {
    var bonus := if StartsRun(at, i) then q.Bonus(at[i])
                 else Max(Max(q.Bonus(at[i]), RunCarries(q, at, i)), BONUS_CONSECUTIVE);
    SCORE_MATCH + if i == 0 then bonus * FIRST_CHAR_MULTIPLIER else bonus
  }

  /** The score of the first `n` matched characters and of the gaps between them. */
  ghost function AlignmentScore(q: Query, at: seq<nat>, n: nat): int
    requires InText(q, at) && n <= |at| && StrictlyIncreasing(at)
  {
    if n == 0 then 0
    else AlignmentScore(q, at, n - 1) + CharScore(q, at, n - 1)
         + if n > 1 then Gap(at[n - 1] - at[n - 2] - 1) else 0
  }

  /** Adding a matched character leaves the score of the earlier ones alone. */
  lemma {:induction false} AlignmentPrefix(q: Query, at: seq<nat>, more: seq<nat>, n: nat)
    requires InText(q, at + more) && n <= |at| && StrictlyIncreasing(at + more)
    ensures InText(q, at) && StrictlyIncreasing(at)
    ensures AlignmentScore(q, at + more, n) == AlignmentScore(q, at, n)
    ensures n > 0 ==> RunCarries(q, at + more, n - 1) == RunCarries(q, at, n - 1)
  {
    assert forall i :: 0 <= i < |at| ==> (at + more)[i] == at[i];
    if n > 0 {
      AlignmentPrefix(q, at, more, n - 1);
    }
  }

  /** What a window costs outside its matched characters. */
  function Margins(at: seq<nat>, start: nat, end: nat): int
    requires start <= end
    requires at != [] ==> start <= at[0] && at[|at| - 1] < end
  {
    if at == [] then Gap(end - start) else Gap(at[0] - start) + Gap(end - 1 - at[|at| - 1])
  }
}
