/** The two-dimensional matcher: prefilter, first pass, rows, backtrace, all in one slab. */
module FzfV2 {
  import opened FzfText
  import opened FzfPrefilter
  import opened FzfScore
  import opened FzfSlab
  import opened FzfFirstPass
  import opened FzfRows
  import opened FzfWalk
  import opened FzfBacktrace
  import opened FzfV1
  import opened FzfGreedy

  /** A pattern that matches inside the size guard has at most 320 characters, so no cell overflows. */
  lemma SizeGuard(o: nat, r: nat)
    requires o * r <= SLAB_16_SIZE && r <= o
    ensures r <= MAX_PATTERN
    ensures forall b :: 0 <= b < r ==> CellBound(b) < 0x8000
  {
    if r > MAX_PATTERN {
      ProductGrows(o, r);
    }
  }

  lemma ProductGrows(o: nat, r: nat)
    requires MAX_PATTERN < r <= o
    ensures o * r > SLAB_16_SIZE
  {
    assert 321 * r <= o * r;
  }

  /** Past the last occurrence of the last pattern character the maximum stands. */
  lemma {:induction false} BestStands(q: Query, t: Grid, b: nat, forward: bool, n: nat, P: int, S: nat)
    requires IsGrid(q, t) && b < |q.pattern| && n <= |q.text|
    requires BestSoFar(t.rows[b], forward, n, P, S)
    requires forall j :: n <= j < |q.text| ==> t.folded[j] != q.pattern[b]
    ensures BestSoFar(t.rows[b], forward, |q.text|, P, S)
    decreases |q.text| - n
  {
    if n < |q.text| {
      BestUnmoved(q, t, b, forward, n, P, S);
      BestStands(q, t, b, forward, n + 1, P, S);
    }
  }

  /** The running maximum of the whole last row is the best score of the recursion. */
  lemma BestOfRow(q: Query, t: Grid, forward: bool, P: int, S: nat)
    requires IsGrid(q, t) && |q.pattern| > 0 && P > 0
    requires BestSoFar(t.rows[|q.pattern| - 1], forward, |q.text|, P, S)
    ensures IsBest(q, forward, P, S + 1)
  {
    var b: nat := |q.pattern| - 1;
    forall j: nat | j < |q.text| ensures LastRow(q, j) == t.rows[b][j].score {
      assert Look(b, j);
    }
  }

  /** A last row that the scan completed has a positive maximum. */
  lemma BestIsPositive(q: Query, t: Grid, first: seq<nat>, forward: bool, Y: nat, P: int, S: nat)
    requires Firsts(q, t, first) && |first| > 0 && first[|first| - 1] <= Y < |q.text|
    requires BestSoFar(t.rows[|first| - 1], forward, Y + 1, P, S)
    ensures P > 0
  {
    WalkStep(q, t, first, |first| - 1, first[|first| - 1]);
  }

  /** The match positions run from the reported start to just before the reported end. */
  ghost predicate PlacedBy(q: Query, found: Found, at: seq<nat>) {
    && |q.pattern| > 0 && Embeds(q.Folded(), q.pattern, at)
    && at[0] == found.start && at[|at| - 1] + 1 == found.end
    && found.positions == Present(set p | p in at)
  }

  /** Where the table of runs starts in a slab of `length` cells, after the windows of the first pass and the scores. */
  ghost function RunsCursor(q: Query, length: nat, size: nat): nat {
    var o := |q.text|;
    CursorAfter(length, CursorAfter(length, CursorAfter(length, CursorAfter(length, 0, o), o), o), size)
  }

  /** What the table of runs shows before the rows are filled, when the slab holds `cells`. */
  ghost function StaleRuns(q: Query, cells: seq<int16>, size: nat): seq<int16> {
    Shown(cells, RunsCursor(q, |cells|, size), size, 0)
  }

  /** The positions are those of the walk back from the reported end, for what the slab held. */
  ghost predicate Walked(q: Query, t: Grid, cells: seq<int16>, first: seq<nat>, Y: nat, found: Found) {
    && Laid(q, t, first, Y) && found.end > 0 && OnWalk(q, t, first, Y, |first| - 1, found.end - 1)
    && PlacedBy(q, found, Walk(q, t, first, Y, StaleRuns(q, cells, Base(|first|, Y - first[0] + 1)), |first| - 1,
                               found.end - 1, true))
  }

  /** Nothing is matched before `start`, and the first pattern character there. */
  ghost predicate IsFirstMatch(q: Query, t: Grid, start: int)
    requires IsGrid(q, t) && |q.pattern| > 0
  {
    && 0 <= start < |q.text| && t.matched[start] == 0 && t.matched[start + 1] == 1
    && t.folded[start] == q.pattern[0]
  }

  /**
   What the two-dimensional matcher answers for a pattern that is a subsequence,
   when the slab held `cells` before: the best score of the recursion, where it
   is reached, and the placement of the pattern that the walk back from there
   finds; without positions, the first match instead of a start.
   */
  ghost predicate BestAnswer(q: Query, t: Grid, forward: bool, withPositions: bool, cells: seq<int16>, found: Found)
    requires IsGrid(q, t)
  {
    && IsBest(q, forward, found.score, found.end)
    && if |q.pattern| == 1 then
         && found.start == found.end - 1 && t.folded[found.start] == q.pattern[0]
         && found.positions == if withPositions then Present({found.start}) else Absent
       else if withPositions then exists first, Y :: Walked(q, t, cells, first, Y, found)
       else found.positions == Absent && found.start < found.end && IsFirstMatch(q, t, found.start)
  }

  /** Start both tables with the first row. */
  method StartTables(q: Query, ghost t: Grid, ghost f: nat, M: nat, Y: nat, p: Window<int32>, c: Window<int16>,
                     h: Window<int16>, g: Window<int16>, k: Window<int16>, D: Window<int16>,
                     ghost stale: seq<int16>)
    requires Tables(q, t, M, Y, p, g, k, D)
    requires forall i :: 0 <= i < |stale| ==> Peek(D, i) == stale[i] as int
    requires c.Fits() && h.Fits() && c.length == h.length == |q.text| && f <= M && (f > 0 ==> f < M)
    requires Separate(c, k) && Separate(h, k) && Separate(c, D) && Separate(h, D)
    requires RowZero(q, t, f, |q.text|, p, c, h, g)
    modifies k.buffer, D.buffer
    ensures Sources(q, t, p, g, M)
    ensures RowStored(q, t, k, D, M, Y - M + 1, 0, M, Y)
    ensures forall i :: Y - M + 1 <= i < |stale| ==> Peek(D, i) == stale[i] as int
  {
    var N := Y - M + 1;
    BaseStep(0, N, |q.pattern|);
    forall j: nat | M <= j < |q.text|
      ensures Get(p, j) as int == t.folded[j] && Peek(g, j) == t.bonus[j]
              && Peek(c, j) == t.rows[0][j].score && Peek(h, j) == t.rows[0][j].run
    {
      assert Stored(t, f, j, p, c, h, g);
    }
    CopyCells(c, M, k, N, [h, g, D]);
    CopyCells(h, M, D, N, [k, g]);
    forall j: nat | M <= j <= Y ensures CellStored(t, k, D, M, N, 0, j) {
      assert Peek(k, j - M) == t.rows[0][j].score && Peek(D, j - M) == t.rows[0][j].run;
    }
    forall j: nat | M <= j < |q.text| ensures Source(t, p, g, j) {
      assert Peek(g, j) == t.bonus[j];
    }
  }

  /** The recorded first occurrences, as a sequence. */
  lemma ReadFirsts(q: Query, t: Grid, m: Window<int32>) returns (first: seq<nat>)
    requires IsGrid(q, t) && m.Fits() && m.length == |q.pattern| && FirstOccurrences(q, t, m, |q.pattern|)
    ensures Firsts(q, t, first) && forall b :: 0 <= b < |first| ==> Get(m, b) as int == first[b]
  {
    first := [];
    for n := 0 to |q.pattern|
      invariant |first| == n && forall b :: 0 <= b < n ==> Get(m, b) as int == first[b]
    {
      first := first + [Get(m, n) as int];
    }
    FirstsIncrease(q, t, first);
  }

  /** The maximum kept while filling the last row is the best score of the recursion. */
  lemma LastRowIsBest(q: Query, t: Grid, first: seq<nat>, forward: bool, Y: nat, P: int, S: nat)
    requires Laid(q, t, first, Y)
    requires BestSoFar(t.rows[|first| - 1], forward, Y + 1, P, S)
    ensures P > 0 && IsBest(q, forward, P, S + 1)
  {
    BestIsPositive(q, t, first, forward, Y, P, S);
    BestStands(q, t, |first| - 1, forward, Y + 1, P, S);
    BestOfRow(q, t, forward, P, S);
  }

  /** Walk back when positions were asked for. */
  method Answer(q: Query, ghost t: Grid, ghost first: seq<nat>, forward: bool, withPositions: bool, Y: nat,
                m: Window<int32>, k: Window<int16>, D: Window<int16>, P: int, S: nat, ghost cells: seq<int16>)
    returns (found: Found)
    requires Laid(q, t, first, Y) && |first| > 1
    requires k.Fits() && D.Fits() && k.length == D.length == Base(|first|, Y - first[0] + 1)
    requires m.Fits() && m.length == |first| && forall b :: 0 <= b < |first| ==> Get(m, b) as int == first[b]
    requires RowsStored(q, t, first, k, D, Y - first[0] + 1, Y, |first|)
    requires LeftKept(first, Y - first[0] + 1, D, StaleRuns(q, cells, D.length))
    requires BestSoFar(t.rows[|first| - 1], forward, Y + 1, P, S) && P > 0
    requires IsBest(q, forward, P, S + 1)
    ensures BestAnswer(q, t, forward, withPositions, cells, found)
  {
    if withPositions {
      var start, positions;
      ghost var at;
      start, positions, at := Backtrace(q, t, first, forward, Y, m, k, D, StaleRuns(q, cells, D.length), P, S);
      assert positions == set p | p in at;
      found := Found(start, S + 1, P, Present(positions));
      WalkIsAnswer(q, t, first, forward, Y, cells, found, at);
    } else {
      found := Found(Get(m, 0) as int, S + 1, P, Absent);
      FirstIsAnswer(q, t, first, forward, Y, P, S, cells);
    }
  }

  /** The positions of the walk are the answer. */
  lemma WalkIsAnswer(q: Query, t: Grid, first: seq<nat>, forward: bool, Y: nat, cells: seq<int16>, found: Found,
                     at: seq<nat>)
    requires Laid(q, t, first, Y) && |first| > 1 && IsBest(q, forward, found.score, found.end)
    requires OnWalk(q, t, first, Y, |first| - 1, found.end - 1)
    requires at == Walk(q, t, first, Y, StaleRuns(q, cells, Base(|first|, Y - first[0] + 1)), |first| - 1,
                        found.end - 1, true)
    requires Embeds(t.folded, q.pattern, at) && at[0] == found.start && at[|at| - 1] + 1 == found.end
    requires found.positions == Present(set p | p in at)
    ensures BestAnswer(q, t, forward, true, cells, found)
  {
    GridIsFolded(q, t);
    assert PlacedBy(q, found, at);
    assert Walked(q, t, cells, first, Y, found);
  }

  /** Without positions the first match is the answer. */
  lemma FirstIsAnswer(q: Query, t: Grid, first: seq<nat>, forward: bool, Y: nat, P: int, S: nat, cells: seq<int16>)
    requires Laid(q, t, first, Y) && |first| > 1 && IsBest(q, forward, P, S + 1)
    requires BestSoFar(t.rows[|first| - 1], forward, Y + 1, P, S) && P > 0
    ensures BestAnswer(q, t, forward, false, cells, Found(first[0], S + 1, P, Absent))
  {
    WalkStep(q, t, first, 0, first[0]);
    FirstBeforeBest(q, t, first, forward, Y, P, S);
  }

  lemma GridIsFolded(q: Query, t: Grid)
    requires IsGrid(q, t)
    ensures t.folded == q.Folded()
  {
    forall j | 0 <= j < |q.text| ensures t.folded[j] == q.Folded()[j] {
      assert Look(0, j);
    }
  }

  /** The best cell of the last row does not lie before the first match. */
  lemma FirstBeforeBest(q: Query, t: Grid, first: seq<nat>, forward: bool, Y: nat, P: int, S: nat)
    requires Firsts(q, t, first) && |first| > 1 && Y < |q.text|
    requires BestSoFar(t.rows[|first| - 1], forward, Y + 1, P, S) && P > 0
    ensures first[0] <= S
  {
    EmptyBefore(q, t, |first| - 1, first[|first| - 1]);
    assert first[0] < first[|first| - 1];
  }

  /** The cells from the cursor on hold what they held when the slab held `cells`. */
  ghost predicate HeldFrom(slab: array<int16>, cursor: nat, cells: seq<int16>)
    reads slab
  {
    cursor <= slab.Length == |cells| && slab[cursor..] == cells[cursor..]
  }

  /** The cursor after the windows of the first pass. */
  ghost predicate AfterFirstPass(q: Query, length: nat, cursor: nat) {
    var o := |q.text|;
    cursor == CursorAfter(length, CursorAfter(length, CursorAfter(length, 0, o), o), o)
  }

  /** Rows and backtrace, for a pattern of at least two characters that the first pass completed. */
  method MatchRows(q: Query, ghost t: Grid, forward: bool, withPositions: bool, slab: Slab, cursor: nat,
                   ghost f: nat, Y: nat, p: Window<int32>, c: Window<int16>, h: Window<int16>, g: Window<int16>,
                   m: Window<int32>, ghost cells: seq<int16>)
    returns (found: Found)
    requires Ready(q, t, f, p, c, h, g, m) && 1 < |q.pattern| <= MAX_PATTERN
    requires RowZero(q, t, f, |q.text|, p, c, h, g) && Reached(q, t, |q.text|, m, |q.pattern|, Y)
    requires Below(c, slab.i16, cursor) && Below(h, slab.i16, cursor) && Below(g, slab.i16, cursor)
    requires HeldFrom(slab.i16, cursor, cells) && AfterFirstPass(q, |cells|, cursor)
    modifies slab.i16
    ensures BestAnswer(q, t, forward, withPositions, cells, found)
  {
    ghost var first := ReadFirsts(q, t, m);
    var k, D, P, S := FillTables(q, t, first, forward, slab, cursor, f, Y, p, c, h, g, m, cells);
    LastRowIsBest(q, t, first, forward, Y, P, S);
    found := Answer(q, t, first, forward, withPositions, Y, m, k, D, P, S, cells);
  }

  /** Take the two tables. */
  method TakeTables(q: Query, slab: Slab, cursor: nat, size: nat, ghost cells: seq<int16>, ghost c: Window<int16>,
                    ghost h: Window<int16>, ghost g: Window<int16>)
    returns (k: Window<int16>, D: Window<int16>)
    requires Below(c, slab.i16, cursor) && Below(h, slab.i16, cursor) && Below(g, slab.i16, cursor)
    requires HeldFrom(slab.i16, cursor, cells) && AfterFirstPass(q, |cells|, cursor)
    ensures k.Fits() && D.Fits() && k.length == D.length == size && Separate(k, D)
    ensures Separate(c, k) && Separate(h, k) && Separate(g, k) && Separate(c, D) && Separate(h, D) && Separate(g, D)
    ensures k.buffer == slab.i16 || fresh(k.buffer)
    ensures D.buffer == slab.i16 || fresh(D.buffer)
    ensures D.buffer[D.offset..D.offset + size] == StaleRuns(q, cells, size)
  {
    var next;
    next, k := Take(cursor, slab.i16, size, 0);
    ShownFrom(slab.i16[..], cells, cursor, next, size, 0);
    next, D := Take(next, slab.i16, size, 0);
  }

  lemma ShowsStale(D: Window<int16>, stale: seq<int16>)
    requires D.Fits() && D.length == |stale| && D.buffer[D.offset..D.offset + D.length] == stale
    ensures forall i :: 0 <= i < |stale| ==> Peek(D, i) == stale[i] as int
  {
    forall i | 0 <= i < |stale| ensures Peek(D, i) == stale[i] as int {
      assert D.buffer[D.offset..D.offset + D.length][i] == stale[i];
    }
  }

  lemma KeptBeyondRowZero(first: seq<nat>, N: nat, D: Window<int16>, stale: seq<int16>)
    requires |first| > 0 && D.Fits() && forall i :: N <= i < |stale| ==> Peek(D, i) == stale[i] as int
    ensures LeftKept(first, N, D, stale)
  {
    forall b: nat, j: nat | 0 < b < |first| && first[0] <= j < first[b]
      ensures CellKept(D, stale, first[0], N, b, j)
    {
      BaseMonotone(0, b, N);
    }
  }

  /** Take the two tables, start them with row 0, and fill the rest. */
  method FillTables(q: Query, ghost t: Grid, ghost first: seq<nat>, forward: bool, slab: Slab, cursor: nat,
                    ghost f: nat, Y: nat, p: Window<int32>, c: Window<int16>, h: Window<int16>, g: Window<int16>,
                    m: Window<int32>, ghost cells: seq<int16>)
    returns (k: Window<int16>, D: Window<int16>, P: int, S: nat)
    requires Ready(q, t, f, p, c, h, g, m) && 1 < |q.pattern| <= MAX_PATTERN
    requires Firsts(q, t, first) && forall b :: 0 <= b < |first| ==> Get(m, b) as int == first[b]
    requires first[|first| - 1] <= Y < |q.text|
    requires RowZero(q, t, f, |q.text|, p, c, h, g)
    requires Below(c, slab.i16, cursor) && Below(h, slab.i16, cursor) && Below(g, slab.i16, cursor)
    requires HeldFrom(slab.i16, cursor, cells) && AfterFirstPass(q, |cells|, cursor)
    modifies slab.i16
    ensures k.Fits() && D.Fits() && k.length == D.length == Base(|first|, Y - first[0] + 1)
    ensures forall b :: 0 <= b < |first| ==> Get(m, b) as int == first[b]
    ensures RowsStored(q, t, first, k, D, Y - first[0] + 1, Y, |first|)
    ensures LeftKept(first, Y - first[0] + 1, D, StaleRuns(q, cells, D.length))
    ensures BestSoFar(t.rows[|first| - 1], forward, Y + 1, P, S)
  {
    var M := Get(m, 0) as int;
    var N := Y - M + 1;
    k, D := TakeTables(q, slab, cursor, Base(|q.pattern|, N), cells, c, h, g);
    if f > 0 && M <= f {
      GridScanMonotone(q, t, M + 1, f + 1);
    }
    ghost var stale := StaleRuns(q, cells, D.length);
    ShowsStale(D, stale);
    StartTables(q, t, f, M, Y, p, c, h, g, k, D, stale);
    KeptBeyondRowZero(first, N, D, stale);
    P, S := FillRows(q, t, first, forward, Y, p, g, m, k, D, stale);
  }

  /** The answer for a single-character pattern, whose maximum the first pass has kept. */
  lemma SingleIsBest(q: Query, t: Grid, forward: bool, P: int, S: nat, cells: seq<int16>)
    requires IsGrid(q, t) && |q.pattern| == 1 && P > 0
    requires BestSoFar(t.rows[0], forward, |q.text|, P, S)
    ensures BestAnswer(q, t, forward, true, cells, Found(S, S + 1, P, Present({S})))
    ensures BestAnswer(q, t, forward, false, cells, Found(S, S + 1, P, Absent))
  {
    BestOfRow(q, t, forward, P, S);
    GridCell(q, t, 0, S);
    assert t.Left(0, S).score <= P;
  }

  /** First pass, then rows and backtrace, on windows already taken. */
  method MatchInWindows(q: Query, ghost t: Grid, forward: bool, withPositions: bool, slab: Slab, cursor: nat,
                        f: nat, p: Window<int32>, c: Window<int16>, h: Window<int16>, g: Window<int16>,
                        m: Window<int32>)
    returns (found: Found)
    requires Ready(q, t, f, p, c, h, g, m) && |q.text| * |q.pattern| <= SLAB_16_SIZE
    requires Below(c, slab.i16, cursor) && Below(h, slab.i16, cursor) && Below(g, slab.i16, cursor)
    requires cursor <= slab.i16.Length && AfterFirstPass(q, slab.i16.Length, cursor)
    modifies p.buffer, c.buffer, h.buffer, g.buffer, m.buffer, slab.i16
    ensures found != NOT_FOUND <==> t.matched[|q.text|] == |q.pattern|
    ensures found != NOT_FOUND ==> BestAnswer(q, t, forward, withPositions, old(slab.i16[..]), found)
  {
    ghost var cells := slab.i16[..];
    ghost var rest := Window(slab.i16, cursor, slab.i16.Length - cursor);
    var K, Y, P, S := FirstPass(q, t, forward, f, p, c, h, g, m, rest);
    if K != |q.pattern| {
      return NOT_FOUND;
    }
    GridScanMonotone(q, t, 0, |q.text|);
    GridScan(q, t, 0);
    if |q.pattern| == 1 {
      SingleIsBest(q, t, forward, P, S, cells);
      return Found(S, S + 1, P, if withPositions then Present({S}) else Absent);
    }
    assert HeldFrom(slab.i16, cursor, cells) by {
      forall i | cursor <= i < |cells| ensures slab.i16[i] == cells[i] {
        assert Get(rest, i - cursor) == old(Get(rest, i - cursor));
      }
    }
    SizeGuard(|q.text|, |q.pattern|);
    found := MatchRows(q, t, forward, withPositions, slab, cursor, f, Y, p, c, h, g, m, cells);
  }

  method FuzzyMatchV2(q: Query, forward: bool, withPositions: bool, slab: Slab) returns (found: Found)
    requires slab.i16.Length == SLAB_16_SIZE && slab.i32.Length == SLAB_32_SIZE
    modifies slab.i16, slab.i32
    ensures |q.pattern| == 0 ==> found == Found(0, 0, 0, if withPositions then Present({}) else Absent)
    ensures |q.pattern| > 0 && |q.text| * |q.pattern| <= SLAB_16_SIZE ==>
              (found != NOT_FOUND <==> Subsequence(q.Folded(), q.pattern))
    ensures |q.pattern| > 0 && |q.text| * |q.pattern| <= SLAB_16_SIZE && found != NOT_FOUND ==>
              BestAnswer(q, GridOf(q), forward, withPositions, old(slab.i16[..]), found)
    ensures |q.pattern| > 0 && |q.text| * |q.pattern| > SLAB_16_SIZE ==>
              (found != NOT_FOUND <==> Subsequence(GreedyText(q), q.pattern))
    ensures |q.pattern| > 0 && |q.text| * |q.pattern| > SLAB_16_SIZE && found != NOT_FOUND ==>
              GreedyAnswer(q, forward, withPositions, found)
  {
    var r, o := |q.pattern|, |q.text|;
    if r == 0 {
      return Found(0, 0, 0, if withPositions then Present({}) else Absent);
    }
    if o * r > SLAB_16_SIZE {
      found := FuzzyMatchV1(q, forward, withPositions);
      return;
    }
    var f := AsciiFuzzyIndex(q);
    if f < 0 {
      return NOT_FOUND;
    }
    found := MatchAdmitted(q, forward, withPositions, slab, f);
  }

  /** The scan of the grid decides the match, and stands still up to an admitted start. */
  lemma AdmittedGrid(q: Query, t: Grid, f: nat)
    requires IsGrid(q, t) && |q.pattern| > 0 && f < |q.text|
    requires f > 0 ==> forall j :: 0 <= j <= f ==> q.Folded()[j] != q.pattern[0]
    ensures t.matched[|q.text|] == |q.pattern| <==> Subsequence(q.Folded(), q.pattern)
    ensures f > 0 ==> t.matched[f + 1] == 0
  {
    assert Look(0, |q.text|) && Look(0, f + 1);
    assert t.matched[|q.text|] == q.Matched(|q.text|) && t.matched[f + 1] == q.Matched(f + 1);
    ScanDecides(q.Folded(), q.pattern);
    if f > 0 {
      ScanStandsStill(q.Folded(), q.pattern, 0, f + 1);
    }
  }

  /** Take the windows of the first pass. */
  method TakeWindows(q: Query, slab: Slab)
    returns (cursor: nat, p: Window<int32>, c: Window<int16>, h: Window<int16>, g: Window<int16>, m: Window<int32>)
    ensures p.Fits() && c.Fits() && h.Fits() && g.Fits() && m.Fits()
    ensures p.length == c.length == h.length == g.length == |q.text| && m.length == |q.pattern|
    ensures Separate(c, h) && Separate(c, g) && Separate(h, g) && Separate(p, m)
    ensures Below(c, slab.i16, cursor) && Below(h, slab.i16, cursor) && Below(g, slab.i16, cursor)
    ensures (p.buffer == slab.i32 || fresh(p.buffer)) && (m.buffer == slab.i32 || fresh(m.buffer))
    ensures c.buffer == slab.i16 || fresh(c.buffer)
    ensures h.buffer == slab.i16 || fresh(h.buffer)
    ensures g.buffer == slab.i16 || fresh(g.buffer)
    ensures cursor <= slab.i16.Length && AfterFirstPass(q, slab.i16.Length, cursor)
  {
    var o := |q.text|;
    cursor, c := Take(0, slab.i16, o, 0);
    cursor, h := Take(cursor, slab.i16, o, 0);
    cursor, g := Take(cursor, slab.i16, o, 0);
    var d;
    d, m := Take(0, slab.i32, |q.pattern|, 0);
    d, p := Take(d, slab.i32, o, 0);
  }

  /** Match in windows of the slab. */
  method MatchAdmitted(q: Query, forward: bool, withPositions: bool, slab: Slab, f: nat) returns (found: Found)
    requires |q.pattern| > 0 && |q.text| * |q.pattern| <= SLAB_16_SIZE && f < |q.text|
    requires f > 0 ==> forall j :: 0 <= j <= f ==> q.Folded()[j] != q.pattern[0]
    modifies slab.i16, slab.i32
    ensures found != NOT_FOUND <==> Subsequence(q.Folded(), q.pattern)
    ensures found != NOT_FOUND ==> BestAnswer(q, GridOf(q), forward, withPositions, old(slab.i16[..]), found)
  {
    var o, r := |q.text|, |q.pattern|;
    ghost var t := GridOf(q);
    AdmittedGrid(q, t, f);
    var a, p, c, h, g, m := TakeWindows(q, slab);
    assert o <= o * r;
    found := MatchInWindows(q, t, forward, withPositions, slab, a, f, p, c, h, g, m);
  }
}
