/**
 Filling the score rows after the first, in a flat window of `N` columns per
 pattern character.  Columns left of a row's first occurrence are never written
 and keep whatever the slab held.
 */
module FzfRows {
  import opened FzfText
  import opened FzfScore
  import opened FzfSlab
  import opened FzfFirstPass

  /** The size guard of the matcher bounds the pattern length. */
  const MAX_PATTERN := 320

  /** Where row `b` starts. */
  function Base(b: nat, N: nat): nat {
    b * N
  }

  lemma BaseStep(b: nat, N: nat, r: nat)
    requires b < r
    ensures Base(b + 1, N) == Base(b, N) + N <= Base(r, N)
    ensures b > 0 ==> Base(b - 1, N) + N == Base(b, N)
  {
    assert (b + 1) * N == b * N + N;
    assert (b + 1) * N <= r * N;
    assert b > 0 ==> (b - 1) * N + N == b * N;
  }

  /** A cell of a window, or -1 outside of it. */
  function Peek(w: Window<int16>, i: int): int
    requires w.Fits()
    reads w.buffer
  {
    if 0 <= i < w.length then Get(w, i) as int else -1
  }

  ghost predicate CellStored(t: Grid, k: Window<int16>, D: Window<int16>, M: nat, N: nat, b: nat, j: nat)
    requires k.Fits() && D.Fits() && b < |t.rows| && j < |t.rows[b]|
    reads k.buffer, D.buffer
  {
    && Peek(k, Base(b, N) + j - M) == t.rows[b][j].score
    && Peek(D, Base(b, N) + j - M) == t.rows[b][j].run
  }

  /** Row `b` holds the recursion's cells from position `from` to `Y`. */
  ghost predicate RowStored(q: Query, t: Grid, k: Window<int16>, D: Window<int16>, M: nat, N: nat, b: nat, from: nat,
                            Y: nat)
    requires IsGrid(q, t) && k.Fits() && D.Fits() && b < |q.pattern| && Y < |q.text|
    reads k.buffer, D.buffer
  {
    forall j: nat :: from <= j <= Y ==> CellStored(t, k, D, M, N, b, j)
  }

  /** The folded text and the bonus of one position, as the first pass left them. */
  ghost predicate Source(t: Grid, p: Window<int32>, g: Window<int16>, j: nat)
    requires p.Fits() && g.Fits() && j < p.length == g.length == |t.folded| == |t.bonus|
    reads p.buffer, g.buffer
  {
    Get(p, j) as int == t.folded[j] && Get(g, j) as int == t.bonus[j]
  }

  ghost predicate Sources(q: Query, t: Grid, p: Window<int32>, g: Window<int16>, M: nat)
    requires IsGrid(q, t) && p.Fits() && g.Fits() && p.length == g.length == |q.text|
    reads p.buffer, g.buffer
  {
    forall j: nat :: M <= j < |q.text| ==> Source(t, p, g, j)
  }

  /** The shape of the windows while rows are filled. */
  ghost predicate Tables(q: Query, t: Grid, M: nat, Y: nat, p: Window<int32>, g: Window<int16>, k: Window<int16>,
                         D: Window<int16>)
  {
    && IsGrid(q, t) && 1 < |q.pattern| <= MAX_PATTERN && M <= Y < |q.text| && t.matched[M] == 0
    && p.Fits() && g.Fits() && k.Fits() && D.Fits()
    && p.length == g.length == |q.text|
    && k.length == D.length == Base(|q.pattern|, Y - M + 1)
    && Separate(k, D) && Separate(k, g) && Separate(D, g)
  }

  /** A run reaches back no further than the first match. */
  lemma {:induction false} GridRunStart(q: Query, t: Grid, b: nat, j: nat, M: nat)
    requires IsGrid(q, t) && b < |q.pattern| && j < |q.text| && M <= |q.text| && t.matched[M] == 0
    requires t.rows[b][j].run > 0
    ensures M <= j - t.rows[b][j].run + 1
    decreases b
  {
    GridCell(q, t, b, j);
    if t.rows[b][j].run == 1 {
      if j < M {
        GridScanMonotone(q, t, j + 1, M);
      }
    } else {
      GridRunStart(q, t, b - 1, j - 1, M);
    }
  }

  /** The value of one cell, computed from stored neighbours. */
  method ComputeCell(q: Query, ghost t: Grid, x: nat, j: nat, M: nat, Y: nat, p: Window<int32>, g: Window<int16>,
                     left: int, inGap: bool, diagonal: int, diagonalRun: int)
    returns (score: nat, run: nat, gap: bool)
    requires IsGrid(q, t) && p.Fits() && g.Fits() && p.length == g.length == |q.text|
    requires M <= Y < |q.text| && t.matched[M] == 0
    requires 0 < x < |q.pattern| && M < j <= Y && t.matched[j + 1] > x
    requires Sources(q, t, p, g, M)
    requires left == t.Left(x, j).score && inGap == t.Left(x, j).gap
    requires diagonal == t.rows[x - 1][j - 1].score && diagonalRun == t.rows[x - 1][j - 1].run
    ensures Cell(score, run, gap) == t.rows[x][j]
    ensures score <= CellBound(x) && run <= x + 1
  {
    GridCell(q, t, x, j);
    assert Source(t, p, g, j);
    var H: int, T: nat := 0, 0;
    var X := left + if inGap then GAP_EXTENSION else GAP_START;
    if q.pattern[x] == Get(p, j) as int {
      H := diagonal + SCORE_MATCH;
      var Q := Get(g, j) as int;
      T := diagonalRun + 1;
      if Q == BONUS_BOUNDARY {
        T := 1;
      } else if T > 1 {
        GridRunStart(q, t, x - 1, j - 1, M);
        assert Source(t, p, g, j - T + 1);
        GridCell(q, t, 0, j - T + 1);
        Q := Max(Q, Max(BONUS_CONSECUTIVE, Get(g, j - T + 1) as int));
      }
      if H + Q < X {
        H, T := H + Get(g, j) as int, 0;
      } else {
        H := H + Q;
      }
    }
    score, run, gap := Max(Max(H, X), 0), T, H < X;
  }

  /** Cells of other positions keep their value when index `at` of both tables is written. */
  method StoreTables(k: Window<int16>, D: Window<int16>, at: nat, score: int16, run: int16, ghost g: Window<int16>)
    requires k.Fits() && D.Fits() && g.Fits() && at < k.length == D.length
    requires Separate(k, D) && Separate(k, g) && Separate(D, g)
    modifies k.buffer, D.buffer
    ensures Peek(k, at) == score as int && Peek(D, at) == run as int
    ensures forall i :: i != at ==> Peek(k, i) == old(Peek(k, i))
    ensures forall i :: i != at ==> Peek(D, i) == old(Peek(D, i))
    ensures forall i: nat :: i < g.length ==> Get(g, i) == old(Get(g, i))
  {
    k.buffer[k.offset + at] := score;
    D.buffer[D.offset + at] := run;
  }

  method StoreScore(k: Window<int16>, D: Window<int16>, at: nat, score: int16, ghost g: Window<int16>)
    requires k.Fits() && D.Fits() && g.Fits() && at < k.length == D.length
    requires Separate(k, D) && Separate(k, g)
    modifies k.buffer
    ensures Peek(k, at) == score as int
    ensures forall i :: i != at ==> Peek(k, i) == old(Peek(k, i))
    ensures forall i :: Peek(D, i) == old(Peek(D, i))
    ensures forall i: nat :: i < g.length ==> Get(g, i) == old(Get(g, i))
  {
    k.buffer[k.offset + at] := score;
  }

  /** One iteration of a row: compute the cell at `j` from its stored neighbours and write it. */
  method FillCell(q: Query, ghost t: Grid, x: nat, M: nat, Y: nat, ghost previous: nat, ghost A: nat, j: nat,
                  inGap: bool, p: Window<int32>, g: Window<int16>, k: Window<int16>, D: Window<int16>)
    returns (score: nat, gap: bool)
    requires Tables(q, t, M, Y, p, g, k, D) && Sources(q, t, p, g, M)
    requires 0 < x < |q.pattern| && M <= previous < A <= j <= Y
    requires t.matched[j + 1] > x
    requires RowStored(q, t, k, D, M, Y - M + 1, x - 1, previous, Y)
    requires RowStored(q, t, k, D, M, Y - M + 1, x, A, j - 1)
    requires Peek(k, Base(x, Y - M + 1) + j - M - 1) == t.Left(x, j).score
    requires inGap == t.Left(x, j).gap
    modifies k.buffer, D.buffer
    ensures Sources(q, t, p, g, M)
    ensures RowStored(q, t, k, D, M, Y - M + 1, x - 1, previous, Y)
    ensures RowStored(q, t, k, D, M, Y - M + 1, x, A, j)
    ensures forall i :: i < Base(x, Y - M + 1) ==> Peek(k, i) == old(Peek(k, i))
    ensures forall i :: i != Base(x, Y - M + 1) + j - M ==> Peek(D, i) == old(Peek(D, i))
    ensures score == t.rows[x][j].score && gap == t.rows[x][j].gap
    ensures Peek(k, Base(x, Y - M + 1) + j - M) == score
  {
    var N := Y - M + 1;
    var F := Base(x, N);
    BaseStep(x, N, |q.pattern|);
    assert CellStored(t, k, D, M, N, x - 1, j - 1);
    var run;
    score, run, gap := ComputeCell(q, t, x, j, M, Y, p, g, Get(k, F + j - M - 1) as int, inGap,
                                   Get(k, F + j - M - 1 - N) as int, Get(D, F + j - M - 1 - N) as int);
    StoreTables(k, D, F + j - M, score as int16, run as int16, g);
    forall i: nat | A <= i <= j ensures CellStored(t, k, D, M, N, x, i) {
      assert i < j ==> old(CellStored(t, k, D, M, N, x, i));
    }
    ghost var above: nat := x - 1;
    forall i: nat | previous <= i <= Y ensures CellStored(t, k, D, M, N, above, i) {
      assert old(CellStored(t, k, D, M, N, above, i));
    }
    forall i: nat | M <= i < |q.text| ensures Source(t, p, g, i) {
      assert old(Source(t, p, g, i));
    }
  }

  /** Fill row `x` from its first occurrence `A`; on the last row, keep the maximum. */
  method FillRow(q: Query, ghost t: Grid, forward: bool, x: nat, M: nat, Y: nat, ghost previous: nat, A: nat,
                 p: Window<int32>, g: Window<int16>, k: Window<int16>, D: Window<int16>, P: int, S: nat)
    returns (P': int, S': nat)
    requires Tables(q, t, M, Y, p, g, k, D) && Sources(q, t, p, g, M)
    requires 0 < x < |q.pattern| && M <= previous < A <= Y
    requires t.matched[A] == x && t.matched[A + 1] == x + 1
    requires RowStored(q, t, k, D, M, Y - M + 1, x - 1, previous, Y)
    requires P == 0 && S == 0
    modifies k.buffer, D.buffer
    ensures Sources(q, t, p, g, M)
    ensures RowStored(q, t, k, D, M, Y - M + 1, x, A, Y)
    ensures forall i :: i < Base(x, Y - M + 1) ==> Peek(k, i) == old(Peek(k, i))
    ensures forall i :: i < Base(x, Y - M + 1) + A - M || i > Base(x, Y - M + 1) + Y - M ==>
                          Peek(D, i) == old(Peek(D, i))
    ensures if x == |q.pattern| - 1 then BestSoFar(t.rows[x], forward, Y + 1, P', S') else P' == P && S' == S
  {
    var N := Y - M + 1;
    var F := Base(x, N);
    BaseStep(x, N, |q.pattern|);
    P', S' := P, S;
    var inGap := false;
    StoreScore(k, D, F + A - M - 1, 0, g);
    ghost var above: nat := x - 1;
    forall i: nat | previous <= i <= Y ensures CellStored(t, k, D, M, N, above, i) {
      assert old(CellStored(t, k, D, M, N, above, i));
    }
    forall i: nat | M <= i < |q.text| ensures Source(t, p, g, i) {
      assert old(Source(t, p, g, i));
    }
    EmptyBefore(q, t, x, A);
    for j := A to Y + 1
      invariant Sources(q, t, p, g, M)
      invariant RowStored(q, t, k, D, M, N, x - 1, previous, Y)
      invariant RowStored(q, t, k, D, M, N, x, A, j - 1)
      invariant forall i :: i < F ==> Peek(k, i) == old(Peek(k, i))
      invariant forall i :: i < F + A - M || i > F + Y - M ==> Peek(D, i) == old(Peek(D, i))
      invariant Peek(k, F + j - M - 1) == t.Left(x, j).score
      invariant inGap == t.Left(x, j).gap
      invariant if x == |q.pattern| - 1 then BestSoFar(t.rows[x], forward, j, P', S') else P' == P && S' == S
    {
      GridScanMonotone(q, t, A + 1, j + 1);
      var score;
      score, inGap := FillCell(q, t, x, M, Y, previous, A, j, inGap, p, g, k, D);
      if x == |q.pattern| - 1 {
        P', S' := KeepBest(t.rows[x], forward, j, score, P', S');
      }
    }
  }

  /** Left of its first occurrence a row is empty. */
  lemma EmptyBefore(q: Query, t: Grid, x: nat, A: nat)
    requires IsGrid(q, t) && x < |q.pattern| && A < |q.text| && t.matched[A] == x
    ensures t.Left(x, A) == EMPTY
    ensures forall j: nat :: j < A ==> t.rows[x][j] == EMPTY
  {
    forall j: nat | j < A ensures t.rows[x][j] == EMPTY {
      GridScanMonotone(q, t, j + 1, A);
      GridCell(q, t, x, j);
    }
  }
}
