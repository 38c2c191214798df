/**
 When the answer of the two-dimensional matcher depends on what an earlier
 search left in the slab.
 */
module FzfStale {
  import opened FzfText
  import opened FzfScore
  import opened FzfSlab
  import opened FzfRows
  import opened FzfWalk
  import opened FzfV1
  import opened FzfV2

  /** Strictly increasing positions are determined by their set. */
  lemma {:induction false} SamePositions(a: seq<nat>, b: seq<nat>)
    requires StrictlyIncreasing(a) && StrictlyIncreasing(b)
    requires forall p :: p in a <==> p in b
    ensures a == b
  {
    assert a != [] ==> a[0] in a;
    assert b != [] ==> b[0] in b;
    if a != [] {
      var n, m: nat := |a| - 1, |b| - 1;
      LastIsGreatest(a, b[m]);
      LastIsGreatest(b, a[n]);
      var a', b' := a[..n], b[..m];
      forall p ensures p in a' <==> p in b' {
        ButLast(a, p);
        ButLast(b, p);
      }
      SamePositions(a', b');
      assert a == a' + [a[n]] && b == b' + [b[m]];
    }
  }

  lemma LastIsGreatest(a: seq<nat>, p: nat)
    requires StrictlyIncreasing(a) && p in a
    ensures p <= a[|a| - 1] && a[|a| - 1] in a
  {}

  lemma ButLast(a: seq<nat>, p: nat)
    requires StrictlyIncreasing(a) && a != []
    ensures p in a[..|a| - 1] <==> p in a && p != a[|a| - 1]
  {
    if p in a && p != a[|a| - 1] {
      var i :| 0 <= i < |a| && a[i] == p;
      assert a[..|a| - 1][i] == p;
    }
  }

  /** The answer is a function of the query, the direction and the cells of the slab. */
  lemma AnswerIsDetermined(q: Query, t: Grid, forward: bool, withPositions: bool, cells: seq<int16>, x: Found, y: Found)
    requires IsGrid(q, t)
    requires BestAnswer(q, t, forward, withPositions, cells, x) && BestAnswer(q, t, forward, withPositions, cells, y)
    ensures x == y
  {
    BestIsUnique(q, forward, x.score, x.end, y.score, y.end);
    if |q.pattern| == 1 {
    } else if withPositions {
      var first, Y :| Walked(q, t, cells, first, Y, x);
      var first', Y' :| Walked(q, t, cells, first', Y', y);
      SameWalk(q, t, cells, cells, first, Y, first', Y', x, y);
    } else {
      FirstMatchIsUnique(q, t, x.start, y.start);
    }
  }

  lemma FirstMatchIsUnique(q: Query, t: Grid, i: int, j: int)
    requires IsGrid(q, t) && |q.pattern| > 0 && IsFirstMatch(q, t, i) && IsFirstMatch(q, t, j)
    ensures i == j
  {
    if i < j {
      GridScanMonotone(q, t, i + 1, j);
    } else if j < i {
      GridScanMonotone(q, t, j + 1, i);
    }
  }

  /** The content of the table of runs when the slab holds `cells`. */
  ghost function RunsIn(q: Query, cells: seq<int16>, first: seq<nat>, Y: nat): seq<int16>
    requires |first| > 0 && first[0] <= Y
  {
    StaleRuns(q, cells, Base(|first|, Y - first[0] + 1))
  }

  /** Answers with the same end differ only when their walks do. */
  lemma SameWalk(q: Query, t: Grid, cells: seq<int16>, other: seq<int16>, first: seq<nat>, Y: nat, first': seq<nat>,
                 Y': nat, x: Found, y: Found)
    requires Walked(q, t, cells, first, Y, x) && Walked(q, t, other, first', Y', y)
    requires x.end == y.end && x.score == y.score
    requires first[0] <= Y &&
             Walk(q, t, first, Y, RunsIn(q, cells, first, Y), |first| - 1, x.end - 1, true)
             == Walk(q, t, first, Y, RunsIn(q, other, first, Y), |first| - 1, x.end - 1, true)
    ensures x == y
  {
    LaidIsUnique(q, t, first, Y, first', Y');
  }

  /** The end of the best answer is a place of the walk. */
  lemma BestEndOnWalk(q: Query, t: Grid, forward: bool, first: seq<nat>, Y: nat, score: int, end: int)
    requires Laid(q, t, first, Y) && IsBest(q, forward, score, end)
    ensures OnWalk(q, t, first, Y, |first| - 1, end - 1)
    ensures t.rows[|first| - 1][end - 1].score > 0
    ensures t.rows[|first| - 1][end - 1].score >= t.Left(|first| - 1, end - 1).score
  {
    var b: nat, S: nat := |first| - 1, end - 1;
    LastRowOfGrid(q, t, S);
    LastRowOfGrid(q, t, first[b]);
    WalkStep(q, t, first, b, first[b]);
    if S < first[b] {
      EmptyBefore(q, t, b, first[b]);
    }
    if S > 0 {
      LastRowOfGrid(q, t, S - 1);
    }
    if Y < S {
      LastRowOfGrid(q, t, Y);
      FallsBehindLast(q, t, first, Y, S);
    }
  }

  lemma LastRowOfGrid(q: Query, t: Grid, j: nat)
    requires IsGrid(q, t) && |q.pattern| > 0 && j < |q.text|
    ensures LastRow(q, j) == t.rows[|q.pattern| - 1][j].score
  {
    assert Look(|q.pattern| - 1, j);
  }

  /** Past the last occurrence of the last pattern character no score is the best. */
  lemma FallsBehindLast(q: Query, t: Grid, first: seq<nat>, Y: nat, S: nat)
    requires Laid(q, t, first, Y) && Y < S < |q.text|
    ensures LastRow(q, S) > 0 ==> LastRow(q, S) < LastRow(q, Y)
  {
    forall i | Y < i <= S ensures q.Fold(q.text[i]) != q.pattern[|first| - 1] {
      assert Look(0, i);
    }
    RowFallsBehind(q, |first| - 1, Y, S);
  }

  /** Every answer is that of the walk. */
  lemma AnswerIsWalk(q: Query, t: Grid, forward: bool, first: seq<nat>, Y: nat, score: int, end: int,
                     cells: seq<int16>, x: Found)
    requires Laid(q, t, first, Y) && |first| > 1 && IsBest(q, forward, score, end)
    requires BestAnswer(q, t, forward, true, cells, x)
    ensures x.score == score && x.end == end && Walked(q, t, cells, first, Y, x)
  {
    BestIsUnique(q, forward, x.score, x.end, score, end);
    var first', Y' :| Walked(q, t, cells, first', Y', x);
    LaidIsUnique(q, t, first, Y, first', Y');
  }

  /** Every content of the slab has an answer, whose positions are those of its walk. */
  lemma WalkAnswers(q: Query, t: Grid, forward: bool, first: seq<nat>, Y: nat, score: int, end: int,
                    cells: seq<int16>, at: seq<nat>)
    returns (x: Found)
    requires Laid(q, t, first, Y) && |first| > 1 && IsBest(q, forward, score, end)
    requires OnWalk(q, t, first, Y, |first| - 1, end - 1)
    requires first[0] <= Y && at == Walk(q, t, first, Y, RunsIn(q, cells, first, Y), |first| - 1, end - 1, true)
    ensures BestAnswer(q, t, forward, true, cells, x)
    ensures x == Found(at[0], end, score, Present(PlaceSet(at))) && StrictlyIncreasing(at)
  {
    BestEndOnWalk(q, t, forward, first, Y, score, end);
    WalkFromBest(q, t, first, Y, RunsIn(q, cells, first, Y), end - 1);
    x := Found(at[0], end, score, Present(PlaceSet(at)));
    WalkIsAnswer(q, t, first, forward, Y, cells, x, at);
  }

  ghost function PlaceSet(at: seq<nat>): (places: set<nat>)
    ensures forall p :: p in places <==> p in at
  {
    set p | p in at
  }

  ghost function Zeros(size: nat): (zeros: seq<int16>)
    ensures |zeros| == size && forall i :: 0 <= i < size ==> zeros[i] == 0
  {
    seq(size, _ => 0)
  }

  /** An answer that some slab of `length` cells leads to. */
  ghost predicate CanAnswer(q: Query, t: Grid, forward: bool, length: nat, x: Found)
    requires IsGrid(q, t)
  {
    exists cells: seq<int16> :: |cells| == length && BestAnswer(q, t, forward, true, cells, x)
  }

  /** All slabs of `length` cells lead to one answer. */
  ghost predicate SameForEverySlab(q: Query, t: Grid, forward: bool, length: nat)
    requires IsGrid(q, t)
  {
    forall x, y :: CanAnswer(q, t, forward, length, x) && CanAnswer(q, t, forward, length, y) ==> x == y
  }

  /** The table of runs is a fresh array, as the slab has no room for it. */
  ghost predicate NoRoom(q: Query, length: nat, size: nat) {
    length <= RunsCursor(q, length, size) + size
  }

  /** On a zeroed table no tie is met right after the flag was decided by an unwritten cell. */
  ghost predicate SettledFor(q: Query, t: Grid, first: seq<nat>, Y: nat, S: nat)
    requires |first| > 0 && OnWalk(q, t, first, Y, |first| - 1, S) && first[0] <= Y
  {
    Settles(q, t, first, Y, Zeros(Base(|first|, Y - first[0] + 1)), |first| - 1, S, true, false)
  }

  lemma SettledWalks(q: Query, t: Grid, first: seq<nat>, Y: nat, S: nat, cells: seq<int16>, other: seq<int16>)
    requires |first| > 0 && OnWalk(q, t, first, Y, |first| - 1, S) && first[0] <= Y
    requires |cells| == |other|
    requires NoRoom(q, |cells|, Base(|first|, Y - first[0] + 1)) || SettledFor(q, t, first, Y, S)
    ensures Walk(q, t, first, Y, RunsIn(q, cells, first, Y), |first| - 1, S, true)
            == Walk(q, t, first, Y, RunsIn(q, other, first, Y), |first| - 1, S, true)
  {
    if NoRoom(q, |cells|, Base(|first|, Y - first[0] + 1)) {
      assert RunsIn(q, cells, first, Y) == RunsIn(q, other, first, Y);
    } else {
      SameForEveryContent(q, t, first, Y, Zeros(Base(|first|, Y - first[0] + 1)), S);
      assert |RunsIn(q, cells, first, Y)| == |RunsIn(q, other, first, Y)| == Base(|first|, Y - first[0] + 1);
    }
  }

  /** A slab that shows `stale` where the table of runs lies. */
  lemma SlabShowing(q: Query, length: nat, first: seq<nat>, Y: nat, stale: seq<int16>) returns (cells: seq<int16>)
    requires |first| > 0 && first[0] <= Y && |stale| == Base(|first|, Y - first[0] + 1)
    requires !NoRoom(q, length, |stale|)
    ensures |cells| == length && RunsIn(q, cells, first, Y) == stale
  {
    var at := RunsCursor(q, length, |stale|);
    cells := Zeros(at) + stale + Zeros(length - at - |stale|);
    assert cells[at..at + |stale|] == stale;
  }

  lemma SettledAnswers(q: Query, t: Grid, forward: bool, first: seq<nat>, Y: nat, score: int, end: int, length: nat,
                       x: Found, y: Found)
    requires Laid(q, t, first, Y) && |first| > 1 && IsBest(q, forward, score, end)
    requires OnWalk(q, t, first, Y, |first| - 1, end - 1) && first[0] <= Y
    requires NoRoom(q, length, Base(|first|, Y - first[0] + 1)) || SettledFor(q, t, first, Y, end - 1)
    requires CanAnswer(q, t, forward, length, x) && CanAnswer(q, t, forward, length, y)
    ensures x == y
  {
    var cells :| |cells| == length && BestAnswer(q, t, forward, true, cells, x);
    var other :| |other| == length && BestAnswer(q, t, forward, true, other, y);
    AnswerIsWalk(q, t, forward, first, Y, score, end, cells, x);
    AnswerIsWalk(q, t, forward, first, Y, score, end, other, y);
    SettledWalks(q, t, first, Y, end - 1, cells, other);
    SameWalk(q, t, cells, other, first, Y, first, Y, x, y);
  }

  /**
   With positions asked for, the answer is the same whatever an earlier search
   left in the slab exactly when the slab has no room for the table of runs, or
   no tie is met right after an unwritten cell decided the flag.
   */
  lemma AnswerForEverySlab(q: Query, t: Grid, forward: bool, first: seq<nat>, Y: nat, score: int, end: int, length: nat)
    requires Laid(q, t, first, Y) && |first| > 1 && IsBest(q, forward, score, end)
    requires OnWalk(q, t, first, Y, |first| - 1, end - 1) && first[0] <= Y
    ensures SameForEverySlab(q, t, forward, length) <==>
            NoRoom(q, length, Base(|first|, Y - first[0] + 1)) || SettledFor(q, t, first, Y, end - 1)
  {
    if NoRoom(q, length, Base(|first|, Y - first[0] + 1)) || SettledFor(q, t, first, Y, end - 1) {
      forall x, y | CanAnswer(q, t, forward, length, x) && CanAnswer(q, t, forward, length, y) ensures x == y {
        SettledAnswers(q, t, forward, first, Y, score, end, length, x, y);
      }
    } else {
      UnsettledAnswers(q, t, forward, first, Y, score, end, length);
    }
  }

  lemma UnsettledAnswers(q: Query, t: Grid, forward: bool, first: seq<nat>, Y: nat, score: int, end: int, length: nat)
    requires Laid(q, t, first, Y) && |first| > 1 && IsBest(q, forward, score, end)
    requires OnWalk(q, t, first, Y, |first| - 1, end - 1) && first[0] <= Y
    requires !NoRoom(q, length, Base(|first|, Y - first[0] + 1)) && !SettledFor(q, t, first, Y, end - 1)
    ensures !SameForEverySlab(q, t, forward, length)
  {
    var zeros := Zeros(Base(|first|, Y - first[0] + 1));
    SameForEveryContent(q, t, first, Y, zeros, end - 1);
    var stale: seq<int16> :| |stale| == |zeros| &&
      Walk(q, t, first, Y, stale, |first| - 1, end - 1, true)
      != Walk(q, t, first, Y, zeros, |first| - 1, end - 1, true);
    TwoAnswers(q, t, forward, first, Y, score, end, length, zeros, stale);
  }

  /** What a table that held `stale` leads to: its walk and an answer with these positions. */
  lemma AnswerShowing(q: Query, t: Grid, forward: bool, first: seq<nat>, Y: nat, score: int, end: int, length: nat,
                      stale: seq<int16>)
    returns (x: Found, at: seq<nat>)
    requires Laid(q, t, first, Y) && |first| > 1 && IsBest(q, forward, score, end)
    requires OnWalk(q, t, first, Y, |first| - 1, end - 1) && first[0] <= Y
    requires |stale| == Base(|first|, Y - first[0] + 1) && !NoRoom(q, length, |stale|)
    ensures CanAnswer(q, t, forward, length, x)
    ensures at == Walk(q, t, first, Y, stale, |first| - 1, end - 1, true) && StrictlyIncreasing(at)
    ensures x == Found(at[0], end, score, Present(PlaceSet(at)))
  {
    at := Walk(q, t, first, Y, stale, |first| - 1, end - 1, true);
    var cells := SlabShowing(q, length, first, Y, stale);
    x := WalkAnswers(q, t, forward, first, Y, score, end, cells, at);
  }

  /** Two contents with different walks lead to different answers. */
  lemma TwoAnswers(q: Query, t: Grid, forward: bool, first: seq<nat>, Y: nat, score: int, end: int, length: nat,
                   zeros: seq<int16>, stale: seq<int16>)
    requires Laid(q, t, first, Y) && |first| > 1 && IsBest(q, forward, score, end)
    requires OnWalk(q, t, first, Y, |first| - 1, end - 1) && first[0] <= Y
    requires |zeros| == |stale| == Base(|first|, Y - first[0] + 1) && !NoRoom(q, length, |stale|)
    requires Walk(q, t, first, Y, stale, |first| - 1, end - 1, true)
             != Walk(q, t, first, Y, zeros, |first| - 1, end - 1, true)
    ensures !SameForEverySlab(q, t, forward, length)
  {
    var x, a := AnswerShowing(q, t, forward, first, Y, score, end, length, zeros);
    var y, b := AnswerShowing(q, t, forward, first, Y, score, end, length, stale);
    DifferentPositions(a, b);
    assert x.positions.at != y.positions.at;
    assert x != y;
    NotSame(q, t, forward, length, x, y);
  }

  lemma DifferentPositions(a: seq<nat>, b: seq<nat>)
    requires StrictlyIncreasing(a) && StrictlyIncreasing(b) && a != b
    ensures PlaceSet(a) != PlaceSet(b)
  {
    if PlaceSet(a) == PlaceSet(b) {
      forall p ensures p in a <==> p in b {
        assert (p in PlaceSet(a) <==> p in a) && (p in PlaceSet(b) <==> p in b);
      }
      SamePositions(a, b);
    }
  }

  lemma NotSame(q: Query, t: Grid, forward: bool, length: nat, x: Found, y: Found)
    requires IsGrid(q, t) && x != y
    requires CanAnswer(q, t, forward, length, x) && CanAnswer(q, t, forward, length, y)
    ensures !SameForEverySlab(q, t, forward, length)
  {}

  // ------------------------------------------------------------------
  // A search whose answer depends on the slab.

  /** The pattern " bc" in the text "  bxc". */
  predicate IsExample(q: Query) {
    && |q.text| == 5 && q.text[0] == q.text[1] == 32 && q.text[2] == 98 && q.text[3] == 120 && q.text[4] == 99
    && |q.pattern| == 3 && q.pattern[0] == 32 && q.pattern[1] == 98 && q.pattern[2] == 99
  }

  lemma ExampleScan(q: Query, t: Grid)
    requires IsExample(q) && IsGrid(q, t)
    ensures t.matched == [0, 1, 1, 2, 2, 3]
    ensures forall j :: 0 <= j < 5 ==> t.folded[j] == q.text[j] && t.bonus[j] == if j <= 2 then 8 else 0
  {
    GridScan(q, t, 0);
    GridScan(q, t, 1);
    GridScan(q, t, 2);
    GridScan(q, t, 3);
    GridScan(q, t, 4);
    forall j | 0 <= j < 5 ensures t.folded[j] == q.text[j] && t.bonus[j] == if j <= 2 then 8 else 0 {
      GridCell(q, t, 0, j);
    }
  }

  lemma ExampleRows(q: Query, t: Grid)
    requires IsExample(q) && IsGrid(q, t)
    ensures t.rows[0][0] == t.rows[0][1] == Cell(32, 1, false) && t.rows[0][2] == Cell(29, 0, true)
    ensures t.rows[1][2] == Cell(56, 1, false) && t.rows[1][3] == Cell(53, 0, true)
    ensures t.rows[2][4] == Cell(69, 1, false)
    ensures forall j :: 0 <= j < 4 ==> t.rows[2][j] == EMPTY
  {
    ExampleScan(q, t);
    GridCell(q, t, 0, 0);
    GridCell(q, t, 0, 1);
    GridCell(q, t, 0, 2);
    GridCell(q, t, 1, 1);
    GridCell(q, t, 1, 2);
    GridCell(q, t, 1, 3);
    GridCell(q, t, 2, 3);
    GridCell(q, t, 2, 4);
    forall j | 0 <= j < 4 ensures t.rows[2][j] == EMPTY {
      GridCell(q, t, 2, j);
    }
  }

  lemma ExampleBest(q: Query, t: Grid, forward: bool)
    requires IsExample(q) && IsGrid(q, t)
    ensures IsBest(q, forward, 69, 5) && Laid(q, t, [0, 2, 4], 4)
  {
    ExampleScan(q, t);
    ExampleRows(q, t);
    forall j: nat | j < 5 ensures LastRow(q, j) == if j == 4 then 69 else 0 {
      LastRowOfGrid(q, t, j);
    }
    FirstsIncrease(q, t, [0, 2, 4]);
  }

  /** The walk of the example: the tie of the first character is decided by cell 13 of the table of runs. */
  lemma ExampleWalk(q: Query, t: Grid, stale: seq<int16>)
    requires IsExample(q) && IsGrid(q, t) && |stale| == 15 && Laid(q, t, [0, 2, 4], 4)
    ensures Walk(q, t, [0, 2, 4], 4, stale, 2, 4, true) == if stale[13] > 0 then [1, 2, 4] else [0, 2, 4]
  {
    ExampleRows(q, t);
    var first: seq<nat> := [0, 2, 4];
    var late: bool := stale[13] > 0;
    assert NextIndex(first, 4, 1, 2) == 13;
    assert PrefersMatch(q, t, first, 4, stale, 1, 2) == late;
    assert PrefersMatch(q, t, first, 4, stale, 1, 3);
    assert !PrefersMatch(q, t, first, 4, stale, 2, 4);
    assert Walk(q, t, first, 4, stale, 0, 0, PrefersMatch(q, t, first, 4, stale, 0, 1)) == [0];
    assert Walk(q, t, first, 4, stale, 0, 1, late) == if late then [1] else [0];
    assert Walk(q, t, first, 4, stale, 1, 2, true) == if late then [1, 2] else [0, 2];
    assert Walk(q, t, first, 4, stale, 1, 3, false) == Walk(q, t, first, 4, stale, 1, 2, true);
  }

  lemma ExampleAnswer(q: Query, t: Grid, forward: bool, stale: seq<int16>) returns (x: Found)
    requires IsExample(q) && IsGrid(q, t) && |stale| == 15
    ensures CanAnswer(q, t, forward, SLAB_16_SIZE, x) && x.start == if stale[13] > 0 then 1 else 0
  {
    ExampleBest(q, t, forward);
    ExampleWalk(q, t, stale);
    var at;
    x, at := AnswerShowing(q, t, forward, [0, 2, 4], 4, 69, 5, SLAB_16_SIZE, stale);
  }

  /** Slabs of the matcher's size for which the search reports different starts. */
  lemma StartDependsOnSlab(q: Query, t: Grid, forward: bool) returns (x: Found, y: Found)
    requires IsExample(q) && IsGrid(q, t)
    ensures CanAnswer(q, t, forward, SLAB_16_SIZE, x) && CanAnswer(q, t, forward, SLAB_16_SIZE, y)
    ensures x.start == 0 && y.start == 1
  {
    var stale := Zeros(15);
    x := ExampleAnswer(q, t, forward, stale);
    y := ExampleAnswer(q, t, forward, stale[13 := 1]);
  }
}
