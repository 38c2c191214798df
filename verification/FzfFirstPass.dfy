/**
 The first pass of the two-dimensional matcher: it folds the text in place,
 fills the first score row, and records where each pattern character is first
 reached.
 */
module FzfFirstPass {
  import opened FzfText
  import opened FzfScore
  import opened FzfSlab

  /** `P` at `S` is the best cell among the first `n` of a row; `P == 0` when none scores. */
  ghost predicate BestSoFar(row: seq<Cell>, forward: bool, n: nat, P: int, S: nat)
    requires n <= |row|
  {
    && P >= 0
    && (P > 0 ==> S < n && row[S].score == P)
    && (forall j :: 0 <= j < n ==> row[j].score <= P)
    && (forall j :: 0 <= j < n && (if forward then j < S else j > S) ==> P == 0 || row[j].score < P)
  }

  /** Folded text, row 0, run length and bonus, as stored for position `j`. */
  ghost predicate Stored(t: Grid, f: nat, j: nat, p: Window<int32>, c: Window<int16>, h: Window<int16>,
                         g: Window<int16>)
    requires p.Fits() && c.Fits() && h.Fits() && g.Fits()
    requires j < p.length == c.length == h.length == g.length
    requires j < |t.folded| && j < |t.bonus| && |t.rows| > 0 && j < |t.rows[0]|
    reads p.buffer, c.buffer, h.buffer, g.buffer
  {
    && Get(p, j) as int == t.folded[j]
    && Get(c, j) as int == t.rows[0][j].score
    && Get(h, j) as int == t.rows[0][j].run
    && (j > f || f == 0 ==> Get(g, j) as int == t.bonus[j])
  }

  /** All positions from `f` up to `n` are stored. */
  ghost predicate RowZero(q: Query, t: Grid, f: nat, n: nat, p: Window<int32>, c: Window<int16>, h: Window<int16>,
                          g: Window<int16>)
    requires IsGrid(q, t) && |q.pattern| > 0 && f <= n <= |q.text|
    requires p.Fits() && c.Fits() && h.Fits() && g.Fits()
    requires p.length == c.length == h.length == g.length == |q.text|
    reads p.buffer, c.buffer, h.buffer, g.buffer
  {
    forall j: nat :: f <= j < n ==> Stored(t, f, j, p, c, h, g)
  }

  /** `m[b]` is where the greedy scan completes `pattern[..b+1]`, for the first `k` of them. */
  ghost predicate FirstOccurrences(q: Query, t: Grid, m: Window<int32>, k: nat)
    requires IsGrid(q, t) && m.Fits() && k <= m.length == |q.pattern|
    reads m.buffer
  {
    forall b :: 0 <= b < k ==>
      var at := Get(m, b) as int;
      0 <= at < |q.text| && t.matched[at] == b && t.matched[at + 1] == b + 1
  }

  /** What the scan knows after `n` characters: how far it came, where, and the last place of its end. */
  ghost predicate Reached(q: Query, t: Grid, n: nat, m: Window<int32>, K: nat, Y: nat)
    requires IsGrid(q, t) && m.Fits() && m.length == |q.pattern| > 0 && n <= |q.text|
    reads m.buffer
  {
    && K == t.matched[n] <= |q.pattern|
    && FirstOccurrences(q, t, m, K)
    && (K == |q.pattern| ==>
          && Get(m, K - 1) as int <= Y < n && t.folded[Y] == q.pattern[K - 1]
          && forall j :: Y < j < n ==> t.folded[j] != q.pattern[K - 1])
  }

  ghost predicate Ready(q: Query, t: Grid, f: nat, p: Window<int32>, c: Window<int16>, h: Window<int16>,
                        g: Window<int16>, m: Window<int32>)
  {
    && IsGrid(q, t)
    && 0 < |q.pattern| && |q.text| <= SLAB_16_SIZE && f < |q.text|
    && p.Fits() && c.Fits() && h.Fits() && g.Fits() && m.Fits()
    && p.length == c.length == h.length == g.length == |q.text| && m.length == |q.pattern|
    && Separate(c, h) && Separate(c, g) && Separate(h, g) && Separate(p, m)
    && (f > 0 ==> t.matched[f + 1] == 0)
  }

  /** The running maximum of a row takes in position `n`. */
  method KeepBest(ghost row: seq<Cell>, forward: bool, n: nat, score: int, P: int, S: nat) returns (P': int, S': nat)
    requires n < |row| && score == row[n].score && BestSoFar(row, forward, n, P, S)
    ensures BestSoFar(row, forward, n + 1, P', S')
    ensures P <= P' && score <= P'
    ensures P' == P || (P' == score && S' == n)
  {
    if (forward && score > P) || (!forward && score >= P) {
      return score, n;
    }
    return P, S;
  }

  /** A cell below its left neighbour never becomes the maximum. */
  lemma BestUnmoved(q: Query, t: Grid, b: nat, forward: bool, n: nat, P: int, S: nat)
    requires IsGrid(q, t) && b < |q.pattern| && n < |q.text|
    requires BestSoFar(t.rows[b], forward, n, P, S)
    requires t.folded[n] != q.pattern[b]
    ensures BestSoFar(t.rows[b], forward, n + 1, P, S)
  {
    GridCell(q, t, b, n);
  }

  /** Row 0 at `j`, from the score on its left and whether that score comes from a gap. */
  lemma RowZeroCell(q: Query, t: Grid, f: nat, j: nat, left: int, gap: bool, bonus: int)
    requires IsGrid(q, t) && |q.pattern| > 0 && f <= j < |q.text|
    requires f > 0 ==> t.matched[f + 1] == 0
    requires left == t.Left(0, j).score && (left > 0 ==> gap == t.Left(0, j).gap)
    requires bonus == BonusFor(if j == f then OTHER else q.ClassOf(q.text[j - 1]), q.ClassOf(q.text[j]))
    ensures t.folded[j] == q.Fold(q.text[j])
    ensures j > f || f == 0 ==> bonus == t.bonus[j]
    ensures var cell := t.rows[0][j];
      if q.Fold(q.text[j]) == q.pattern[0]
      then cell == Cell(SCORE_MATCH + bonus * FIRST_CHAR_MULTIPLIER, 1, false)
      else cell.score == Max(left + if gap then GAP_EXTENSION else GAP_START, 0)
           && cell.run == 0 && (cell.score > 0 ==> cell.gap)
    ensures 0 <= t.rows[0][j].score <= CellBound(0)
  {
    GridCell(q, t, 0, j);
    GridScan(q, t, j);
    if f > 0 {
      GridScan(q, t, f);
    }
    if t.matched[j + 1] == 0 && j > 0 {
      GridScanMonotone(q, t, j, j + 1);
      GridCell(q, t, 0, j - 1);
    }
  }

  /** Write one position of the folded text and of the first row. */
  method StoreCell(j: nat, unit: int32, score: int16, run: int16, bonus: int16, p: Window<int32>, c: Window<int16>,
                   h: Window<int16>, g: Window<int16>, ghost m: Window<int32>, ghost rest: Window<int16>)
    requires p.Fits() && c.Fits() && h.Fits() && g.Fits() && m.Fits() && Separate(p, m)
    requires rest.Fits() && Separate(rest, c) && Separate(rest, h) && Separate(rest, g)
    requires j < p.length == c.length == h.length == g.length
    requires Separate(c, h) && Separate(c, g) && Separate(h, g)
    modifies p.buffer, c.buffer, h.buffer, g.buffer
    ensures Get(p, j) == unit && Get(c, j) == score && Get(h, j) == run && Get(g, j) == bonus
    ensures forall i: nat :: i < p.length && i != j ==> Get(p, i) == old(Get(p, i))
    ensures forall i: nat :: i < c.length && i != j ==> Get(c, i) == old(Get(c, i))
    ensures forall i: nat :: i < h.length && i != j ==> Get(h, i) == old(Get(h, i))
    ensures forall i: nat :: i < g.length && i != j ==> Get(g, i) == old(Get(g, i))
    ensures forall i: nat :: i < m.length ==> Get(m, i) == old(Get(m, i))
    ensures forall i: nat :: i < rest.length ==> Get(rest, i) == old(Get(rest, i))
  {
    p.buffer[p.offset + j] := unit;
    c.buffer[c.offset + j] := score;
    h.buffer[h.offset + j] := run;
    g.buffer[g.offset + j] := bonus;
  }

  /** Note position `j` as the place where the awaited pattern character is first reached. */
  method NoteOccurrence(q: Query, ghost t: Grid, j: nat, ghost p: Window<int32>, m: Window<int32>, K: nat, Y: nat)
    returns (K': nat, Y': nat)
    requires IsGrid(q, t) && j < |q.text| <= SLAB_16_SIZE
    requires m.Fits() && p.Fits() && Separate(p, m) && m.length == |q.pattern| > 0
    requires Reached(q, t, j, m, K, Y)
    modifies m.buffer
    ensures Reached(q, t, j + 1, m, K', Y')
    ensures forall i: nat :: i < p.length ==> Get(p, i) == old(Get(p, i))
  {
    var r := |q.pattern|;
    K', Y' := K, Y;
    GridScan(q, t, j);
    if q.Fold(q.text[j]) == q.pattern[if K < r then K else r - 1] {
      if K < r {
        m.buffer[m.offset + K] := j as int32;
        assert Get(m, K) as int == j;
        assert forall b: nat :: b < K ==> Get(m, b) == old(Get(m, b));
        K' := K + 1;
      }
      Y' := j;
    }
  }

  /** One iteration: fold and class the character at `j`, write its cell, note where it is first reached. */
  method Visit(q: Query, ghost t: Grid, f: nat, j: nat, previousScore: int, previousClass: CharClass, inGap: bool,
               p: Window<int32>, c: Window<int16>, h: Window<int16>, g: Window<int16>, m: Window<int32>,
               K: nat, Y: nat, ghost rest: Window<int16>)
    returns (score: int, class_: CharClass, bonus: int, isFirst: bool, K': nat, Y': nat)
    requires Ready(q, t, f, p, c, h, g, m) && f <= j < |q.text|
    requires rest.Fits() && Separate(rest, c) && Separate(rest, h) && Separate(rest, g)
    requires RowZero(q, t, f, j, p, c, h, g) && Reached(q, t, j, m, K, Y)
    requires previousScore == t.Left(0, j).score && (previousScore > 0 ==> inGap == t.Left(0, j).gap)
    requires previousClass == if j == f then OTHER else q.ClassOf(q.text[j - 1])
    modifies p.buffer, c.buffer, h.buffer, g.buffer, m.buffer
    ensures RowZero(q, t, f, j + 1, p, c, h, g) && Reached(q, t, j + 1, m, K', Y')
    ensures score == t.rows[0][j].score && (score > 0 ==> !isFirst == t.rows[0][j].gap)
    ensures isFirst ==> score == SCORE_MATCH + bonus * FIRST_CHAR_MULTIPLIER && bonus >= 0
    ensures isFirst <==> t.folded[j] == q.pattern[0]
    ensures class_ == q.ClassOf(q.text[j])
    ensures isFirst ==> K' > 0
    ensures |q.pattern| == 1 && K' > K ==> isFirst
    ensures forall i: nat :: i < rest.length ==> Get(rest, i) == old(Get(rest, i))
  {
    var unit := q.text[j];
    class_ := q.ClassOf(unit);
    var folded := q.Fold(unit);
    bonus := BonusFor(previousClass, class_);
    isFirst := folded == q.pattern[0];
    score := if isFirst then SCORE_MATCH + bonus * FIRST_CHAR_MULTIPLIER
             else Max(previousScore + if inGap then GAP_EXTENSION else GAP_START, 0);
    RowZeroCell(q, t, f, j, previousScore, inGap, bonus);
    GridScan(q, t, j);
    StoreCell(j, folded as int32, score as int16, if isFirst then 1 else 0, bonus as int16, p, c, h, g, m, rest);
    K', Y' := NoteOccurrence(q, t, j, p, m, K, Y);
    forall i: nat | f <= i < j + 1 ensures Stored(t, f, i, p, c, h, g) {
      assert i < j ==> old(Stored(t, f, i, p, c, h, g));
    }
  }

  /** The single-character pattern keeps its maximum during the first pass, and may stop at a boundary. */
  method KeepSingle(q: Query, ghost t: Grid, forward: bool, j: nat, score: int, bonus: int, isFirst: bool,
                    P: int, S: nat)
    returns (P': int, S': nat, stop: bool)
    requires IsGrid(q, t) && |q.pattern| == 1 && j < |q.text|
    requires score == t.rows[0][j].score && (isFirst <==> t.folded[j] == q.pattern[0])
    requires isFirst ==> score == SCORE_MATCH + bonus * FIRST_CHAR_MULTIPLIER && bonus >= 0
    requires BestSoFar(t.rows[0], forward, j, P, S)
    ensures BestSoFar(t.rows[0], forward, j + 1, P', S')
    ensures P' >= P && (isFirst ==> P' > 0)
    ensures stop ==> isFirst && BestSoFar(t.rows[0], forward, |q.text|, P', S')
  {
    P', S', stop := P, S, false;
    if isFirst {
      P', S' := KeepBest(t.rows[0], forward, j, score, P, S);
      if forward && P' > P && bonus == BONUS_BOUNDARY {
        forall i: nat | j < i < |q.text| ensures t.rows[0][i].score <= P' {
          GridCell(q, t, 0, i);
        }
        stop := true;
      }
    } else {
      BestUnmoved(q, t, 0, forward, j, P, S);
    }
  }

  /** Before the prefilter's start nothing is matched and row 0 is empty. */
  lemma NothingBefore(q: Query, t: Grid, f: nat)
    requires IsGrid(q, t) && |q.pattern| > 0 && f < |q.text|
    requires f > 0 ==> t.matched[f + 1] == 0
    ensures t.matched[f] == 0 && t.Left(0, f) == EMPTY
    ensures forall j: nat :: j < f ==> t.rows[0][j] == EMPTY
  {
    GridScan(q, t, f);
    GridScanMonotone(q, t, f, f + 1);
    forall j: nat | j < f ensures t.rows[0][j] == EMPTY {
      GridScanMonotone(q, t, j + 1, f);
      GridCell(q, t, 0, j);
    }
  }

  /** Cells that none of the windows shows, such as `rest`, keep their value. */
  method FirstPass(q: Query, ghost t: Grid, forward: bool, f: nat, p: Window<int32>, c: Window<int16>,
                   h: Window<int16>, g: Window<int16>, m: Window<int32>, ghost rest: Window<int16>)
    returns (K: nat, Y: nat, P: int, S: nat)
    requires Ready(q, t, f, p, c, h, g, m)
    requires rest.Fits() && Separate(rest, c) && Separate(rest, h) && Separate(rest, g)
    modifies p.buffer, c.buffer, h.buffer, g.buffer, m.buffer
    ensures K <= |q.pattern|
    ensures K == |q.pattern| <==> t.matched[|q.text|] == |q.pattern|
    ensures |q.pattern| == 1 && K == 1 ==> P > 0 && BestSoFar(t.rows[0], forward, |q.text|, P, S)
    ensures |q.pattern| > 1 ==> P == 0 && S == 0 && Reached(q, t, |q.text|, m, K, Y)
    ensures |q.pattern| > 1 ==> RowZero(q, t, f, |q.text|, p, c, h, g)
    ensures forall i: nat :: i < rest.length ==> Get(rest, i) == old(Get(rest, i))
  {
    var r := |q.pattern|;
    K, Y, P, S := 0, 0, 0, 0;
    var previousScore: int, previousClass, inGap := 0, OTHER, false;
    NothingBefore(q, t, f);
    for j := f to |q.text|
      invariant Reached(q, t, j, m, K, Y)
      invariant RowZero(q, t, f, j, p, c, h, g)
      invariant previousScore == t.Left(0, j).score
      invariant previousScore > 0 ==> inGap == t.Left(0, j).gap
      invariant previousClass == if j == f then OTHER else q.ClassOf(q.text[j - 1])
      invariant if r == 1 then BestSoFar(t.rows[0], forward, j, P, S) && (K > 0 ==> P > 0) else P == 0 && S == 0
      invariant forall i: nat :: i < rest.length ==> Get(rest, i) == old(Get(rest, i))
    {
      var score, bonus, isFirst;
      score, previousClass, bonus, isFirst, K, Y :=
        Visit(q, t, f, j, previousScore, previousClass, inGap, p, c, h, g, m, K, Y, rest);
      if r == 1 {
        var stop;
        P, S, stop := KeepSingle(q, t, forward, j, score, bonus, isFirst, P, S);
        if stop {
          GridScanMonotone(q, t, j + 1, |q.text|);
          break;
        }
      }
      inGap := !isFirst;
      previousScore := score;
    }
  }
}
