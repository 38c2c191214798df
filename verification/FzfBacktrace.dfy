/**
 Filling all rows, and walking back from the best cell to one text position per
 pattern character.
 */
module FzfBacktrace {
  import opened FzfText
  import opened FzfScore
  import opened FzfSlab
  import opened FzfFirstPass
  import opened FzfRows
  import opened FzfWalk

  /** The first `n` rows are stored, each from its first occurrence on. */
  ghost predicate RowsStored(q: Query, t: Grid, first: seq<nat>, k: Window<int16>, D: Window<int16>, N: nat, Y: nat,
                             n: nat)
    requires Firsts(q, t, first) && k.Fits() && D.Fits() && n <= |q.pattern| && Y < |q.text|
    reads k.buffer, D.buffer
  {
    forall b: nat :: b < n ==> RowStored(q, t, k, D, first[0], N, b, first[b], Y)
  }

  lemma {:induction false} BaseMonotone(b: nat, x: nat, N: nat)
    requires b < x
    ensures Base(b, N) + N <= Base(x, N)
  {
    BaseStep(b, N, x);
  }

  /** Copy `size` cells, as the loops that start both tables from the first row do. */
  method CopyCells(from: Window<int16>, start: nat, to: Window<int16>, size: nat, ghost keep: seq<Window<int16>>)
    requires from.Fits() && to.Fits() && start + size <= from.length && size <= to.length
    requires Separate(from, to) && forall w :: w in keep ==> w.Fits() && Separate(w, to)
    modifies to.buffer
    ensures forall i: nat :: i < size ==> Peek(to, i) == Peek(from, start + i)
    ensures forall i :: i >= size ==> Peek(to, i) == old(Peek(to, i))
    ensures forall i :: Peek(from, i) == old(Peek(from, i))
    ensures forall w, i :: w in keep ==> Peek(w, i) == old(Peek(w, i))
  {
    for i := 0 to size
      invariant forall j :: Peek(from, j) == old(Peek(from, j))
      invariant forall w, j :: w in keep ==> Peek(w, j) == old(Peek(w, j))
      invariant forall j :: j >= i ==> Peek(to, j) == old(Peek(to, j))
      invariant forall j: nat :: j < i ==> Peek(to, j) == Peek(from, start + j)
    {
      label before:
      to.buffer[to.offset + i] := from.buffer[from.offset + start + i];
      assert forall j :: Peek(from, j) == old@before(Peek(from, j));
      forall j: nat | j <= i ensures Peek(to, j) == Peek(from, start + j) {
        assert j < i ==> old@before(Peek(to, j)) == old@before(Peek(from, start + j));
      }
    }
  }

  /** The cell of row `b` at `j` still holds what it held before. */
  ghost predicate CellKept(D: Window<int16>, stale: seq<int16>, M: nat, N: nat, b: nat, j: nat)
    requires D.Fits()
    reads D.buffer
  {
    var i := Base(b, N) + j - M;
    0 <= i < |stale| ==> Peek(D, i) == stale[i] as int
  }

  /** No row from the second on was written left of its first occurrence. */
  ghost predicate LeftKept(first: seq<nat>, N: nat, D: Window<int16>, stale: seq<int16>)
    requires D.Fits() && |first| > 0
    reads D.buffer
  {
    forall b: nat, j: nat :: 0 < b < |first| && first[0] <= j < first[b] ==>
      CellKept(D, stale, first[0], N, b, j)
  }

  /** Row `x` lies beyond the cells of an earlier row and before those of a later one. */
  lemma RowsApart(x: nat, b: nat, N: nat)
    ensures b < x ==> Base(b, N) + N <= Base(x, N)
    ensures x < b ==> Base(x, N) + N <= Base(b, N)
  {
    if b < x {
      BaseMonotone(b, x, N);
    } else if x < b {
      BaseMonotone(x, b, N);
    }
  }

  /** Fill row `x`; what lies left of any row's first occurrence is not written. */
  method FillRowKeeping(q: Query, ghost t: Grid, ghost first: seq<nat>, forward: bool, x: nat, M: nat, Y: nat, A: nat,
                        p: Window<int32>, g: Window<int16>, k: Window<int16>, D: Window<int16>, P: int, S: nat,
                        ghost stale: seq<int16>)
    returns (P': int, S': nat)
    requires Tables(q, t, M, Y, p, g, k, D) && Sources(q, t, p, g, M) && P == 0 && S == 0
    requires Firsts(q, t, first) && 0 < x < |first| && M == first[0] && A == first[x] <= Y
    requires RowStored(q, t, k, D, M, Y - M + 1, x - 1, first[x - 1], Y)
    requires LeftKept(first, Y - M + 1, D, stale)
    modifies k.buffer, D.buffer
    ensures Sources(q, t, p, g, M)
    ensures RowStored(q, t, k, D, M, Y - M + 1, x, A, Y)
    ensures forall i :: i < Base(x, Y - M + 1) ==> Peek(k, i) == old(Peek(k, i)) && Peek(D, i) == old(Peek(D, i))
    ensures LeftKept(first, Y - M + 1, D, stale)
    ensures if x == |q.pattern| - 1 then BestSoFar(t.rows[x], forward, Y + 1, P', S') else P' == P && S' == S
  {
    P', S' := FillRow(q, t, forward, x, M, Y, first[x - 1], A, p, g, k, D, P, S);
    var N := Y - M + 1;
    forall b: nat, j: nat | 0 < b < |first| && M <= j < first[b] ensures CellKept(D, stale, M, N, b, j) {
      assert old(CellKept(D, stale, M, N, b, j));
      RowsApart(x, b, N);
    }
  }

  /** Fill the rows after the first; the last one yields the best score and its position. */
  method FillRows(q: Query, ghost t: Grid, ghost first: seq<nat>, forward: bool, Y: nat, p: Window<int32>,
                  g: Window<int16>, m: Window<int32>, k: Window<int16>, D: Window<int16>,
                  ghost stale: seq<int16>)
    returns (P: int, S: nat)
    requires Firsts(q, t, first) && |first| > 1 && first[|first| - 1] <= Y
    requires Tables(q, t, first[0], Y, p, g, k, D) && Sources(q, t, p, g, first[0])
    requires m.Fits() && m.length == |first| && forall b :: 0 <= b < |first| ==> Get(m, b) as int == first[b]
    requires RowStored(q, t, k, D, first[0], Y - first[0] + 1, 0, first[0], Y)
    requires LeftKept(first, Y - first[0] + 1, D, stale)
    modifies k.buffer, D.buffer
    ensures LeftKept(first, Y - first[0] + 1, D, stale)
    ensures RowsStored(q, t, first, k, D, Y - first[0] + 1, Y, |first|)
    ensures BestSoFar(t.rows[|first| - 1], forward, Y + 1, P, S)
    ensures forall b :: 0 <= b < |first| ==> Get(m, b) as int == first[b]
  {
    var N := Y - Get(m, 0) as int + 1;
    P, S := 0, 0;
    for x := 1 to |q.pattern|
      invariant Sources(q, t, p, g, first[0])
      invariant forall b :: 0 <= b < |first| ==> Get(m, b) as int == first[b]
      invariant RowsStored(q, t, first, k, D, N, Y, x)
      invariant LeftKept(first, N, D, stale)
      invariant if x == |first| then BestSoFar(t.rows[x - 1], forward, Y + 1, P, S) else P == 0 && S == 0
    {
      label before:
      ghost var above: nat := x - 1;
      assert RowStored(q, t, k, D, first[0], N, above, first[above], Y);
      P, S := FillRowKeeping(q, t, first, forward, x, Get(m, 0) as int, Y, Get(m, x) as int, p, g, k, D, P, S, stale);
      forall b: nat | b < x ensures RowStored(q, t, k, D, first[0], N, b, first[b], Y) {
        assert old@before(RowStored(q, t, k, D, first[0], N, b, first[b], Y));
        BaseMonotone(b, x, N);
        forall j: nat | first[b] <= j <= Y ensures CellStored(t, k, D, first[0], N, b, j) {
          assert old@before(CellStored(t, k, D, first[0], N, b, j));
        }
      }
    }
  }

  /** One stored cell: its value and where it lies. */
  lemma StoredAt(q: Query, t: Grid, first: seq<nat>, k: Window<int16>, D: Window<int16>, N: nat, Y: nat, b: nat, j: nat)
    requires Firsts(q, t, first) && k.Fits() && D.Fits() && Y < |q.text|
    requires RowsStored(q, t, first, k, D, N, Y, |first|)
    requires b < |first| && first[b] <= j <= Y
    ensures Peek(k, Base(b, N) + j - first[0]) == t.rows[b][j].score
    ensures Peek(D, Base(b, N) + j - first[0]) == t.rows[b][j].run
    ensures 0 <= Base(b, N) + j - first[0] < k.length && Base(b, N) + j - first[0] < D.length
  {
    assert RowStored(q, t, k, D, first[0], N, b, first[b], Y);
    assert CellStored(t, k, D, first[0], N, b, j);
  }

  /** The cell of `D` diagonally below `O` of row `b`, if there is one, is what the flag reads there. */
  lemma NextRead(q: Query, t: Grid, first: seq<nat>, Y: nat, k: Window<int16>, D: Window<int16>, stale: seq<int16>,
                 b: nat, O: nat)
    requires OnWalk(q, t, first, Y, b, O) && |first| > 1 && first[0] <= O
    requires k.Fits() && D.Fits() && k.length == D.length == |stale| == Base(|first|, Y - first[0] + 1)
    requires RowsStored(q, t, first, k, D, Y - first[0] + 1, Y, |first|) && LeftKept(first, Y - first[0] + 1, D, stale)
    ensures var i := NextIndex(first, Y, b, O);
      NextRun(q, t, first, Y, stale, b, O) == if i < D.length then Peek(D, i) else 0
  {
    var N, M, i := Y - first[0] + 1, first[0], NextIndex(first, Y, b, O);
    if b + 1 == |first| {
    } else if ReadsUnwritten(first, Y, b, O) {
      IndexFits(first, Y, b, O);
      if O < Y {
        assert CellKept(D, stale, M, N, b + 1, O + 1);
      } else {
        BaseStep(b + 1, N, |first|);
        assert M < first[b + 2];
        assert CellKept(D, stale, M, N, b + 2, M);
      }
    } else if O < Y {
      StoredAt(q, t, first, k, D, N, Y, b + 1, O + 1);
    } else {
      BaseStep(b + 1, N, |first|);
    }
  }

  /** The cell at `O` of row `b`, the one on its diagonal, and the one on its left; 0 where there is none.
      Also whether the next tie goes to the match, which may read a cell of `D` that no row has written. */
  method ReadAround(q: Query, ghost t: Grid, ghost first: seq<nat>, Y: nat, m: Window<int32>, k: Window<int16>,
                    D: Window<int16>, ghost stale: seq<int16>, b: nat, O: nat)
    returns (here: int, diagonal: int, left: int, preferNext: bool)
    requires Firsts(q, t, first) && |first| > 1 && first[|first| - 1] <= Y < |q.text|
    requires k.Fits() && D.Fits() && k.length == D.length == |stale| == Base(|first|, Y - first[0] + 1)
    requires m.Fits() && m.length == |first| && forall b :: 0 <= b < |first| ==> Get(m, b) as int == first[b]
    requires RowsStored(q, t, first, k, D, Y - first[0] + 1, Y, |first|) && LeftKept(first, Y - first[0] + 1, D, stale)
    requires OnWalk(q, t, first, Y, b, O)
    ensures here == t.rows[b][O].score
    ensures diagonal == Diagonal(t, b, O) && left == LeftOf(t, first, b, O)
    ensures preferNext == PrefersMatch(q, t, first, Y, stale, b, O)
  {
    var r, M := |q.pattern|, Get(m, 0) as int;
    var N := Y - M + 1;
    assert first[0] <= first[b];
    StoredAt(q, t, first, k, D, N, Y, b, O);
    var y, L := Base(b, N), O - M;
    here, diagonal, left := Get(k, y + L) as int, 0, 0;
    if b > 0 && O >= Get(m, b) as int {
      BaseStep(b, N, r);
      StoredAt(q, t, first, k, D, N, Y, b - 1, O - 1);
      diagonal := Get(k, y - N + L - 1) as int;
    }
    if O > Get(m, b) as int {
      StoredAt(q, t, first, k, D, N, Y, b, O - 1);
      left := Get(k, y + L - 1) as int;
    }
    BaseStep(b, N, r);
    NextRead(q, t, first, Y, k, D, stale, b, O);
    preferNext := Get(D, y + L) > 1 || (y + N + L + 1 < D.length && Get(D, y + N + L + 1) > 0);
  }

  /** The best cell of the last row lies in it, and no cell left of it scores more. */
  lemma BestOnWalk(q: Query, t: Grid, first: seq<nat>, forward: bool, Y: nat, P: int, S: nat)
    requires Firsts(q, t, first) && |first| > 0 && Y < |q.text|
    requires BestSoFar(t.rows[|first| - 1], forward, Y + 1, P, S) && P > 0
    ensures OnWalk(q, t, first, Y, |first| - 1, S)
    ensures t.rows[|first| - 1][S].score == P >= t.Left(|first| - 1, S).score
  {
    if S < first[|first| - 1] {
      EmptyBefore(q, t, |first| - 1, first[|first| - 1]);
    }
  }

  /**
   Walk back from the best cell.  The positions are those of `Walk`, for the
   content `stale` that the unwritten cells of `D` hold.  Whatever that is, the
   walk ends with one strictly increasing position per pattern character, the
   last one at the best cell.
   */
  method Backtrace(q: Query, ghost t: Grid, ghost first: seq<nat>, forward: bool, Y: nat, m: Window<int32>,
                   k: Window<int16>, D: Window<int16>, ghost stale: seq<int16>, P: int, S: nat)
    returns (start: nat, positions: set<nat>, ghost trail: seq<nat>)
    requires Firsts(q, t, first) && |first| > 1 && first[|first| - 1] <= Y < |q.text|
    requires k.Fits() && D.Fits() && k.length == D.length == |stale| == Base(|first|, Y - first[0] + 1)
    requires m.Fits() && m.length == |first| && forall b :: 0 <= b < |first| ==> Get(m, b) as int == first[b]
    requires RowsStored(q, t, first, k, D, Y - first[0] + 1, Y, |first|) && LeftKept(first, Y - first[0] + 1, D, stale)
    requires BestSoFar(t.rows[|first| - 1], forward, Y + 1, P, S) && P > 0
    ensures OnWalk(q, t, first, Y, |first| - 1, S) && trail == Walk(q, t, first, Y, stale, |first| - 1, S, true)
    ensures Embeds(t.folded, q.pattern, trail) && trail[0] == start && trail[|trail| - 1] == S
    ensures start == Walk(q, t, first, Y, stale, |first| - 1, S, true)[0]
    ensures forall at :: at in positions <==> at in Walk(q, t, first, Y, stale, |first| - 1, S, true)
  {
    var r := |q.pattern|;
    var b, O, preferMatch := r - 1, S, true;
    positions, trail := {}, [];
    BestOnWalk(q, t, first, forward, Y, P, S);
    WalkFromBest(q, t, first, Y, stale, S);
    ghost var whole := Walk(q, t, first, Y, stale, r - 1, S, true);
    while true
      invariant 0 <= b < r && OnWalk(q, t, first, Y, b, O)
      invariant whole == Walk(q, t, first, Y, stale, b, O, preferMatch) + trail
      invariant forall at :: at in positions <==> at in trail
      decreases O
    {
      WalkUnrolls(q, t, first, Y, stale, b, O, preferMatch, trail);
      var here, diagonal, left, preferNext := ReadAround(q, t, first, Y, m, k, D, stale, b, O);
      if here > diagonal && (here > left || (here == left && preferMatch)) {
        positions, trail := positions + {O}, [O] + trail;
        if b == 0 {
          break;
        }
        b := b - 1;
      }
      preferMatch := preferNext;
      O := O - 1;
    }
    start := O;
  }
}
