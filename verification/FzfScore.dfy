/**
 The score of the two-dimensional matcher as a plain recursion over pattern
 index and text position, with no slab, no windows and no first-occurrence
 bookkeeping.
 */
module FzfScore {
  import opened FzfText

  /**
   One cell: the best score of a match of `pattern[..b+1]` that the matcher has
   carried to position `j`, how long a consecutive run ends here, and whether
   the score was reached by skipping text.
   */
  datatype Cell = Cell(score: nat, run: nat, gap: bool)

  const EMPTY := Cell(0, 0, false)

  function CellBound(b: nat): nat {
    24 * (b + 1) + 8
  }

  /** The length of the run and its bonus when `j` extends a run to length `run`. */
  function RunBonus(q: Query, j: nat, run: nat): (r: (nat, int))
    requires j < |q.text| && 1 <= run <= j + 1
    ensures 1 <= r.0 <= run && q.Bonus(j) <= r.1 <= BONUS_BOUNDARY
  {
    var bonus := q.Bonus(j);
    if bonus == BONUS_BOUNDARY then (1, bonus)
    else if run > 1 then (run, Max(bonus, Max(BONUS_CONSECUTIVE, q.Bonus(j - run + 1))))
    else (run, bonus)
  }

  /** The score left after skipping one more character. */
  function AfterGap(left: Cell): int {
    left.score + if left.gap then GAP_EXTENSION else GAP_START
  }

  /** The cell of a matching character in a row after the first. */
  function MatchCell(q: Query, j: nat, left: Cell, diagonal: Cell): (cell: Cell)
    requires j < |q.text| && diagonal.run <= j
    ensures cell.score <= Max(left.score, diagonal.score + SCORE_MATCH + BONUS_BOUNDARY)
    ensures cell.score >= diagonal.score + SCORE_MATCH && cell.run <= diagonal.run + 1
    ensures cell.run > 1 ==> cell.run == diagonal.run + 1
    ensures cell.gap ==> cell.score < left.score
  {
    var skipped := AfterGap(left);
    var (run, bonus) := RunBonus(q, j, diagonal.run + 1);
    var kept := diagonal.score + SCORE_MATCH + bonus >= skipped;
    var matched := diagonal.score + SCORE_MATCH + if kept then bonus else q.Bonus(j);
    Cell(Max(matched, skipped), if kept then run else 0, matched < skipped)
  }

  ghost function CellAt(q: Query, b: nat, j: int): (cell: Cell)
    requires b < |q.pattern| && -1 <= j < |q.text|
    ensures cell.score <= CellBound(b)
    ensures cell.run <= b + 1 && cell.run <= j + 1
    decreases b, j + 1
  {
    if j < 0 || q.Matched(j + 1) <= b then EMPTY
    else
      var left := CellAt(q, b, j - 1);
      if q.Fold(q.text[j]) != q.pattern[b] then Cell(Max(AfterGap(left), 0), 0, b == 0 || AfterGap(left) > 0)
      else if b == 0 then Cell(SCORE_MATCH + FIRST_CHAR_MULTIPLIER * q.Bonus(j), 1, false)
      else MatchCell(q, j, left, CellAt(q, b - 1, j - 1))
  }

  ghost function LastRow(q: Query, j: nat): nat
    requires |q.pattern| > 0 && j < |q.text|
  {
    CellAt(q, |q.pattern| - 1, j).score
  }

  /** `score` is the maximum of the last row; `end` is just past its first (or last) occurrence. */
  ghost predicate IsBest(q: Query, forward: bool, score: int, end: int) {
    && |q.pattern| > 0
    && 0 < end <= |q.text|
    && score == LastRow(q, end - 1)
    && (forall j: nat :: j < |q.text| ==> LastRow(q, j) <= score)
    && (forall j: nat :: j < |q.text| && (if forward then j < end - 1 else j > end - 1) ==> LastRow(q, j) < score)
  }

  /** The maximum and its place are determined, so the result of a search is a function of its query. */
  lemma BestIsUnique(q: Query, forward: bool, s1: int, e1: int, s2: int, e2: int)
    requires IsBest(q, forward, s1, e1) && IsBest(q, forward, s2, e2)
    ensures s1 == s2 && e1 == e2
  {
    assert LastRow(q, e1 - 1) == LastRow(q, e2 - 1);
  }

  /** Skipping text never pays. */
  lemma GapLoses(q: Query, b: nat, j: nat)
    requires b < |q.pattern| && j < |q.text|
    requires q.Fold(q.text[j]) != q.pattern[b]
    ensures CellAt(q, b, j).score <= CellAt(q, b, j - 1).score
    ensures CellAt(q, b, j).score > 0 ==> CellAt(q, b, j).score < CellAt(q, b, j - 1).score
  {}

  /** Where the score is not beaten from the left nor from the diagonal, the character matches. */
  lemma PeakIsMatch(q: Query, b: nat, j: nat)
    requires b < |q.pattern| && j < |q.text|
    requires CellAt(q, b, j).score > 0
    requires CellAt(q, b, j).score >= CellAt(q, b, j - 1).score
    ensures q.Fold(q.text[j]) == q.pattern[b]
    ensures b > 0 ==> CellAt(q, b, j).score >= CellAt(q, b - 1, j - 1).score + SCORE_MATCH
  {
    if q.Fold(q.text[j]) != q.pattern[b] {
      GapLoses(q, b, j);
    }
  }

  /** Where the greedy scan first completes `pattern[..b+1]`, the cell is a match and beats the diagonal. */
  lemma FirstOccurrenceScores(q: Query, b: nat, j: nat)
    requires b < |q.pattern| && j < |q.text|
    requires q.Matched(j) == b && q.Matched(j + 1) == b + 1
    ensures CellAt(q, b, j - 1) == EMPTY
    ensures q.Fold(q.text[j]) == q.pattern[b]
    ensures CellAt(q, b, j).score >= SCORE_MATCH
    ensures b > 0 ==> CellAt(q, b, j).score >= CellAt(q, b - 1, j - 1).score + SCORE_MATCH
  {}

  /** Past the last occurrence of a pattern character its row only falls. */
  lemma {:induction false} RowFallsBehind(q: Query, b: nat, from: nat, j: nat)
    requires b < |q.pattern| && from <= j < |q.text|
    requires forall i :: from < i <= j ==> q.Fold(q.text[i]) != q.pattern[b]
    ensures CellAt(q, b, j).score <= CellAt(q, b, from).score
    ensures from < j && CellAt(q, b, j).score > 0 ==> CellAt(q, b, j).score < CellAt(q, b, from).score
    decreases j
  {
    if from < j {
      RowFallsBehind(q, b, from, j - 1);
      GapLoses(q, b, j);
    }
  }

  // ------------------------------------------------------------------
  // The recursion laid out as a table, for the loops that fill it.

  /** Everything the recursion says about one query. */
  datatype Grid = Grid(folded: seq<Rune>, bonus: seq<int>, matched: seq<nat>, rows: seq<seq<Cell>>) {
    /** The cell left of position `j`. */
    function Left(b: nat, j: nat): Cell
      requires b < |rows| && j <= |rows[b]|
    {
      if j == 0 then EMPTY else rows[b][j - 1]
    }
  }

  /** Instantiates the laws of a grid at one place. */
  predicate Look(b: nat, j: nat) {
    b + j >= 0
  }

  ghost predicate IsGrid(q: Query, t: Grid) {
    var n, r := |q.text|, |q.pattern|;
    && |t.folded| == |t.bonus| == n && |t.matched| == n + 1 && |t.rows| == r
    && (forall b :: 0 <= b < r ==> |t.rows[b]| == n)
    && (forall j {:trigger Look(0, j)} :: 0 <= j < n ==> t.folded[j] == q.Fold(q.text[j]) && t.bonus[j] == q.Bonus(j))
    && (forall j {:trigger Look(0, j)} :: 0 <= j <= n ==> t.matched[j] == q.Matched(j))
    && (forall b, j {:trigger Look(b, j)} :: 0 <= b < r && 0 <= j < n ==> t.rows[b][j] == CellAt(q, b, j))
  }

  ghost function GridOf(q: Query): (t: Grid)
    ensures IsGrid(q, t)
  {
    Grid(q.Folded(),
         seq(|q.text|, j requires 0 <= j < |q.text| => q.Bonus(j)),
         seq(|q.text| + 1, j requires 0 <= j <= |q.text| => q.Matched(j)),
         seq(|q.pattern|, b requires 0 <= b < |q.pattern| =>
           seq(|q.text|, j requires 0 <= j < |q.text| => CellAt(q, b, j))))
  }

  /** The greedy scan takes in one character. */
  lemma GridScan(q: Query, t: Grid, j: nat)
    requires IsGrid(q, t) && j < |q.text|
    ensures t.matched[0] == 0 && t.matched[j] <= |q.pattern|
    ensures t.folded[j] == q.Fold(q.text[j])
    ensures var k := t.matched[j];
      t.matched[j + 1] == if k < |q.pattern| && t.folded[j] == q.pattern[k] then k + 1 else k
    ensures |q.pattern| > 0 && t.folded[j] == q.pattern[0] ==> t.matched[j + 1] > 0
  {
    assert Look(0, j) && Look(0, j + 1) && Look(0, 0);
    assert t.matched[0] == q.Matched(0) && t.matched[j] == q.Matched(j) && t.matched[j + 1] == q.Matched(j + 1);
  }

  lemma GridScanMonotone(q: Query, t: Grid, i: nat, j: nat)
    requires IsGrid(q, t) && i <= j <= |q.text|
    ensures t.matched[i] <= t.matched[j] <= t.matched[i] + (j - i)
    ensures t.matched[j] <= |q.pattern|
  {
    assert Look(0, i) && Look(0, j);
    assert t.matched[i] == q.Matched(i) && t.matched[j] == q.Matched(j);
    ScanIsMonotone(q.Folded(), q.pattern, i, j);
  }

  /** One cell of the grid, from its neighbours. */
  lemma GridCell(q: Query, t: Grid, b: nat, j: nat)
    requires IsGrid(q, t) && b < |q.pattern| && j < |q.text|
    ensures t.rows[b][j].score <= CellBound(b) && t.rows[b][j].run <= b + 1 && t.rows[b][j].run <= j + 1
    ensures t.bonus[j] == q.Bonus(j) && t.folded[j] == q.Fold(q.text[j])
    ensures t.matched[j + 1] <= b ==> t.rows[b][j] == EMPTY
    ensures t.matched[j + 1] > b && t.folded[j] != q.pattern[b] ==>
              t.rows[b][j] == Cell(Max(AfterGap(t.Left(b, j)), 0), 0, b == 0 || AfterGap(t.Left(b, j)) > 0)
    ensures b == 0 && t.folded[j] == q.pattern[0] ==>
              t.rows[0][j] == Cell(SCORE_MATCH + FIRST_CHAR_MULTIPLIER * t.bonus[j], 1, false)
    ensures b > 0 ==> t.Left(b - 1, j).run <= j
    ensures b > 0 && t.matched[j + 1] > b && t.folded[j] == q.pattern[b] ==>
              t.rows[b][j] == MatchCell(q, j, t.Left(b, j), t.Left(b - 1, j))
  {
    assert Look(b, j) && Look(0, j) && Look(0, j + 1);
    assert t.rows[b][j] == CellAt(q, b, j) && t.matched[j + 1] == q.Matched(j + 1);
    assert t.Left(b, j) == CellAt(q, b, j - 1) by {
      assert j > 0 ==> Look(b, j - 1);
    }
    if b > 0 {
      assert t.Left(b - 1, j) == CellAt(q, b - 1, j - 1) by {
        assert j > 0 ==> Look(b - 1, j - 1);
      }
    }
    GridScan(q, t, j);
  }
}
