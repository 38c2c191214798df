/**
 The walk back from the best cell, as a function of the score grid and of what
 the table of runs held before any row was written.  Columns left of a row's
 first occurrence are never written, and the flag that decides ties may read
 them, so the walk can depend on an earlier search.
 */
module FzfWalk {
  import opened FzfText
  import opened FzfScore
  import opened FzfSlab
  import opened FzfRows

  /** `first[b]` is where the greedy scan completes `pattern[..b+1]`. */
  ghost predicate Firsts(q: Query, t: Grid, first: seq<nat>) {
    && IsGrid(q, t) && |first| == |q.pattern| && StrictlyIncreasing(first)
    && forall b :: 0 <= b < |first| ==>
         first[b] < |q.text| && t.matched[first[b]] == b && t.matched[first[b] + 1] == b + 1
  }

  lemma FirstsIncrease(q: Query, t: Grid, first: seq<nat>)
    requires IsGrid(q, t) && |first| == |q.pattern|
    requires forall b :: 0 <= b < |first| ==>
               first[b] < |q.text| && t.matched[first[b]] == b && t.matched[first[b] + 1] == b + 1
    ensures Firsts(q, t, first)
  {
    forall b, c | 0 <= b < c < |first| ensures first[b] < first[c] {
      if first[c] <= first[b] {
        GridScanMonotone(q, t, first[c], first[b]);
      }
    }
  }

  /** A place the walk can stand at: row `b`, position `O`. */
  ghost predicate OnWalk(q: Query, t: Grid, first: seq<nat>, Y: nat, b: nat, O: nat) {
    Firsts(q, t, first) && b < |first| && first[b] <= O <= Y < |q.text|
  }

  function Diagonal(t: Grid, b: nat, O: nat): int
    requires b <= |t.rows| && (b > 0 ==> O <= |t.rows[b - 1]|)
  {
    if b > 0 then t.Left(b - 1, O).score else 0
  }

  function LeftOf(t: Grid, first: seq<nat>, b: nat, O: nat): int
    requires b < |t.rows| && b < |first| && O <= |t.rows[b]|
  {
    if O > first[b] then t.Left(b, O).score else 0
  }

  /** The score could as well have come from the left. */
  ghost predicate Tie(q: Query, t: Grid, first: seq<nat>, Y: nat, b: nat, O: nat)
    requires OnWalk(q, t, first, Y, b, O)
  {
    Diagonal(t, b, O) < t.rows[b][O].score == LeftOf(t, first, b, O)
  }

  /** Does the walk place pattern character `b` on position `O`? */
  ghost predicate Stops(q: Query, t: Grid, first: seq<nat>, Y: nat, b: nat, O: nat, prefer: bool)
    requires OnWalk(q, t, first, Y, b, O)
  {
    var here := t.rows[b][O].score;
    here > Diagonal(t, b, O) && (here > LeftOf(t, first, b, O) || (here == LeftOf(t, first, b, O) && prefer))
  }

  /** Why the walk stops on a match: at a first occurrence always, elsewhere only on a match. */
  lemma WalkStep(q: Query, t: Grid, first: seq<nat>, b: nat, O: nat)
    requires Firsts(q, t, first) && b < |first| && first[b] <= O < |q.text|
    ensures O == first[b] ==> t.rows[b][O].score > 0 && t.folded[O] == q.pattern[b]
    ensures O == first[b] && b > 0 ==> t.rows[b][O].score > t.Left(b - 1, O).score
    ensures O > first[b] && t.rows[b][O].score > 0 && t.rows[b][O].score >= t.Left(b, O).score ==>
              t.folded[O] == q.pattern[b] && (b > 0 ==> t.rows[b][O].score > t.Left(b - 1, O).score)
  {
    GridScan(q, t, first[b]);
    GridScanMonotone(q, t, first[b] + 1, O + 1);
    GridCell(q, t, b, O);
    if b > 0 {
      assert first[b - 1] < first[b];
    }
  }

  /** Where in the flat table the flag reads the cell diagonally below `O` of row `b`. */
  function NextIndex(first: seq<nat>, Y: nat, b: nat, O: nat): (i: nat)
    requires |first| > 0 && first[0] <= O <= Y
  {
    Base(b + 1, Y - first[0] + 1) + O + 1 - first[0]
  }

  /** That cell lies left of its row's first occurrence; past the last column it is the first one two rows below. */
  predicate ReadsUnwritten(first: seq<nat>, Y: nat, b: nat, O: nat) {
    b + 1 < |first| && if O < Y then O + 1 < first[b + 1] else b + 2 < |first|
  }

  /** What the flag reads there; `stale` is what the table held before. */
  ghost function NextRun(q: Query, t: Grid, first: seq<nat>, Y: nat, stale: seq<int16>, b: nat, O: nat): int
    requires OnWalk(q, t, first, Y, b, O)
  {
    if b + 1 >= |first| then 0
    else if ReadsUnwritten(first, Y, b, O) then
      assert first[0] <= first[b];
      var i := NextIndex(first, Y, b, O);
      if i < |stale| then stale[i] as int else 0
    else if O < Y then t.rows[b + 1][O + 1].run
    else 0
  }

  /** The flag set at `O` of row `b`, by which a tie at the next place goes to the match. */
  ghost predicate PrefersMatch(q: Query, t: Grid, first: seq<nat>, Y: nat, stale: seq<int16>, b: nat, O: nat)
    requires OnWalk(q, t, first, Y, b, O)
  {
    t.rows[b][O].run > 1 || NextRun(q, t, first, Y, stale, b, O) > 0
  }

  /** The next place of the walk, unless it ends here. */
  lemma NextPlace(q: Query, t: Grid, first: seq<nat>, Y: nat, b: nat, O: nat, prefer: bool)
    requires OnWalk(q, t, first, Y, b, O)
    ensures !Stops(q, t, first, Y, b, O, prefer) ==> O > 0 && OnWalk(q, t, first, Y, b, O - 1)
    ensures b > 0 ==> O > 0 && OnWalk(q, t, first, Y, b - 1, O - 1)
  {
    WalkStep(q, t, first, b, O);
    if b > 0 {
      assert first[b - 1] < first[b];
    }
  }

  /** The positions of pattern characters `0` to `b`, walking back from position `O`. */
  ghost function Walk(q: Query, t: Grid, first: seq<nat>, Y: nat, stale: seq<int16>, b: nat, O: nat, prefer: bool)
    : (trail: seq<nat>)
    requires OnWalk(q, t, first, Y, b, O)
    ensures |trail| == b + 1 && trail[b] <= O
    decreases O
  {
    NextPlace(q, t, first, Y, b, O, prefer);
    var next := PrefersMatch(q, t, first, Y, stale, b, O);
    if !Stops(q, t, first, Y, b, O, prefer) then Walk(q, t, first, Y, stale, b, O - 1, next)
    else if b == 0 then [O]
    else Walk(q, t, first, Y, stale, b - 1, O - 1, next) + [O]
  }

  lemma StopsOnMatch(q: Query, t: Grid, first: seq<nat>, Y: nat, b: nat, O: nat, prefer: bool)
    requires OnWalk(q, t, first, Y, b, O) && Stops(q, t, first, Y, b, O, prefer)
    ensures O < |t.folded| && t.folded[O] == q.pattern[b]
  {
    WalkStep(q, t, first, b, O);
  }

  /** One step of the walk, in front of the positions that later steps have found. */
  lemma WalkUnrolls(q: Query, t: Grid, first: seq<nat>, Y: nat, stale: seq<int16>, b: nat, O: nat, prefer: bool,
                    trail: seq<nat>)
    requires OnWalk(q, t, first, Y, b, O)
    ensures var next, walked := PrefersMatch(q, t, first, Y, stale, b, O), Walk(q, t, first, Y, stale, b, O, prefer);
      if !Stops(q, t, first, Y, b, O, prefer) then
        && O > 0 && OnWalk(q, t, first, Y, b, O - 1)
        && walked + trail == Walk(q, t, first, Y, stale, b, O - 1, next) + trail
      else if b == 0 then walked + trail == [O] + trail
      else
        && O > 0 && OnWalk(q, t, first, Y, b - 1, O - 1)
        && walked + trail == Walk(q, t, first, Y, stale, b - 1, O - 1, next) + ([O] + trail)
  {
    NextPlace(q, t, first, Y, b, O, prefer);
  }

  lemma PlacesOneMore(folded: seq<Rune>, pattern: seq<Rune>, b: nat, at: seq<nat>, O: nat)
    requires b < |pattern| && O < |folded| && folded[O] == pattern[b]
    requires Embeds(folded, pattern[..b], at) && (b > 0 ==> at[b - 1] < O)
    ensures Embeds(folded, pattern[..b + 1], at + [O])
  {}

  /** Whatever the table held, the walk places every pattern character. */
  lemma {:induction false} WalkPlaces(q: Query, t: Grid, first: seq<nat>, Y: nat, stale: seq<int16>, b: nat, O: nat,
                                      prefer: bool)
    requires OnWalk(q, t, first, Y, b, O)
    ensures Embeds(t.folded, q.pattern[..b + 1], Walk(q, t, first, Y, stale, b, O, prefer))
    decreases O
  {
    NextPlace(q, t, first, Y, b, O, prefer);
    var next := PrefersMatch(q, t, first, Y, stale, b, O);
    if !Stops(q, t, first, Y, b, O, prefer) {
      WalkPlaces(q, t, first, Y, stale, b, O - 1, next);
    } else {
      StopsOnMatch(q, t, first, Y, b, O, prefer);
      if b == 0 {
        PlacesOneMore(t.folded, q.pattern, b, [], O);
      } else {
        WalkPlaces(q, t, first, Y, stale, b - 1, O - 1, next);
        PlacesOneMore(t.folded, q.pattern, b, Walk(q, t, first, Y, stale, b - 1, O - 1, next), O);
      }
    }
  }

  /** A best cell is one the walk stops at. */
  lemma WalkFromBest(q: Query, t: Grid, first: seq<nat>, Y: nat, stale: seq<int16>, S: nat)
    requires |first| > 0 && OnWalk(q, t, first, Y, |first| - 1, S)
    requires t.rows[|first| - 1][S].score > 0 && t.rows[|first| - 1][S].score >= t.Left(|first| - 1, S).score
    ensures var at := Walk(q, t, first, Y, stale, |first| - 1, S, true);
      Embeds(t.folded, q.pattern, at) && at[|at| - 1] == S
  {
    WalkStep(q, t, first, |first| - 1, S);
    WalkPlaces(q, t, first, Y, stale, |first| - 1, S, true);
    assert q.pattern[..|first|] == q.pattern;
  }

  /** Where pattern characters are first reached and where the last one occurs last. */
  ghost predicate Laid(q: Query, t: Grid, first: seq<nat>, Y: nat) {
    && Firsts(q, t, first) && |first| > 0
    && first[|first| - 1] <= Y < |q.text| && t.folded[Y] == q.pattern[|first| - 1]
    && forall j :: Y < j < |q.text| ==> t.folded[j] != q.pattern[|first| - 1]
  }

  lemma LaidIsUnique(q: Query, t: Grid, first: seq<nat>, Y: nat, first': seq<nat>, Y': nat)
    requires Laid(q, t, first, Y) && Laid(q, t, first', Y')
    ensures first == first' && Y == Y'
  {
    forall b | 0 <= b < |first| ensures first[b] == first'[b] {
      if first[b] < first'[b] {
        GridScanMonotone(q, t, first[b] + 1, first'[b]);
      } else if first'[b] < first[b] {
        GridScanMonotone(q, t, first'[b] + 1, first[b]);
      }
    }
  }

  // ------------------------------------------------------------------
  // When the walk depends on what the table held.

  /** The flag set here is decided by a cell that no row has written. */
  ghost predicate Open(q: Query, t: Grid, first: seq<nat>, Y: nat, b: nat, O: nat)
    requires OnWalk(q, t, first, Y, b, O)
  {
    t.rows[b][O].run <= 1 && ReadsUnwritten(first, Y, b, O)
  }

  /** No tie is met right after the flag was decided by an unwritten cell. */
  ghost predicate Settles(q: Query, t: Grid, first: seq<nat>, Y: nat, stale: seq<int16>, b: nat, O: nat,
                          prefer: bool, open: bool)
    requires OnWalk(q, t, first, Y, b, O)
    decreases O
  {
    NextPlace(q, t, first, Y, b, O, prefer);
    var next, nextOpen := PrefersMatch(q, t, first, Y, stale, b, O), Open(q, t, first, Y, b, O);
    && !(open && Tie(q, t, first, Y, b, O))
    && (if !Stops(q, t, first, Y, b, O, prefer) then Settles(q, t, first, Y, stale, b, O - 1, next, nextOpen)
        else b > 0 ==> Settles(q, t, first, Y, stale, b - 1, O - 1, next, nextOpen))
  }

  /** A flag that is not open does not depend on the content. */
  lemma FlagAgrees(q: Query, t: Grid, first: seq<nat>, Y: nat, stale: seq<int16>, other: seq<int16>, b: nat, O: nat)
    requires OnWalk(q, t, first, Y, b, O) && |other| == |stale|
    requires Open(q, t, first, Y, b, O) && first[0] <= O && NextIndex(first, Y, b, O) < |stale| ==>
               other[NextIndex(first, Y, b, O)] == stale[NextIndex(first, Y, b, O)]
    ensures PrefersMatch(q, t, first, Y, other, b, O) == PrefersMatch(q, t, first, Y, stale, b, O)
  {
    assert first[0] <= first[b];
  }

  lemma {:induction false} SettledAgree(q: Query, t: Grid, first: seq<nat>, Y: nat, stale: seq<int16>,
                                        other: seq<int16>, b: nat, O: nat, prefer: bool, otherwise: bool, open: bool)
    requires OnWalk(q, t, first, Y, b, O) && |other| == |stale|
    requires Settles(q, t, first, Y, stale, b, O, prefer, open) && (open || prefer == otherwise)
    ensures Walk(q, t, first, Y, other, b, O, otherwise) == Walk(q, t, first, Y, stale, b, O, prefer)
    decreases O
  {
    NextPlace(q, t, first, Y, b, O, prefer);
    var next, nextOpen := PrefersMatch(q, t, first, Y, stale, b, O), Open(q, t, first, Y, b, O);
    var across := PrefersMatch(q, t, first, Y, other, b, O);
    if !nextOpen {
      FlagAgrees(q, t, first, Y, stale, other, b, O);
    }
    if !Stops(q, t, first, Y, b, O, prefer) {
      SettledAgree(q, t, first, Y, stale, other, b, O - 1, next, across, nextOpen);
    } else if b > 0 {
      SettledAgree(q, t, first, Y, stale, other, b - 1, O - 1, next, across, nextOpen);
    }
  }

  /** The flag at a later place of the walk reads at a smaller index. */
  lemma IndexFalls(first: seq<nat>, Y: nat, c: nat, b: nat, O: nat)
    requires |first| > 0 && first[0] < O <= Y && c <= b
    ensures NextIndex(first, Y, c, O - 1) < NextIndex(first, Y, b, O)
  {
    if c < b {
      BaseStep(c + 1, Y - first[0] + 1, b + 1);
    }
  }

  lemma IndexFits(first: seq<nat>, Y: nat, b: nat, O: nat)
    requires |first| > 0 && first[0] <= O <= Y && ReadsUnwritten(first, Y, b, O)
    ensures NextIndex(first, Y, b, O) < Base(|first|, Y - first[0] + 1)
  {
    var N := Y - first[0] + 1;
    BaseStep(b + 1, N, |first|);
    if O == Y {
      BaseStep(b + 2, N, |first|);
    }
  }

  /** At an open tie the content of one cell decides between this position and an earlier one. */
  lemma TieDecides(q: Query, t: Grid, first: seq<nat>, Y: nat, stale: seq<int16>, other: seq<int16>, b: nat, O: nat,
                   prefer: bool)
    requires OnWalk(q, t, first, Y, b, O) && Tie(q, t, first, Y, b, O)
    ensures Walk(q, t, first, Y, other, b, O, !prefer) != Walk(q, t, first, Y, stale, b, O, prefer)
  {
    NextPlace(q, t, first, Y, b, O, false);
    assert Walk(q, t, first, Y, other, b, O, true)[b] == Walk(q, t, first, Y, stale, b, O, true)[b] == O;
    assert Walk(q, t, first, Y, other, b, O, false)[b] <= O - 1;
    assert Walk(q, t, first, Y, stale, b, O, false)[b] <= O - 1;
  }

  lemma SuffixKeepsApart<T>(a: seq<T>, b: seq<T>, x: T)
    requires |a| == |b| && a != b
    ensures a + [x] != b + [x]
  {
    assert (a + [x])[..|a|] == a && (b + [x])[..|b|] == b;
  }

  /** Changing one cell that no row writes changes an unsettled walk. */
  lemma {:induction false} UnsettledDiffers(q: Query, t: Grid, first: seq<nat>, Y: nat, stale: seq<int16>, b: nat,
                                            O: nat, prefer: bool, open: bool)
    returns (other: seq<int16>)
    requires OnWalk(q, t, first, Y, b, O) && first[0] <= O && |stale| == Base(|first|, Y - first[0] + 1)
    requires !Settles(q, t, first, Y, stale, b, O, prefer, open) && !(open && Tie(q, t, first, Y, b, O))
    ensures |other| == |stale|
    ensures forall i :: NextIndex(first, Y, b, O) < i < |stale| ==> other[i] == stale[i]
    ensures Walk(q, t, first, Y, other, b, O, prefer) != Walk(q, t, first, Y, stale, b, O, prefer)
    decreases O
  {
    NextPlace(q, t, first, Y, b, O, prefer);
    var next, nextOpen := PrefersMatch(q, t, first, Y, stale, b, O), Open(q, t, first, Y, b, O);
    var c := if Stops(q, t, first, Y, b, O, prefer) then b - 1 else b;
    assert first[0] <= first[c];
    if nextOpen && Tie(q, t, first, Y, c, O - 1) {
      IndexFits(first, Y, b, O);
      var i := NextIndex(first, Y, b, O);
      other := stale[i := if stale[i] > 0 then 0 else 1];
      assert PrefersMatch(q, t, first, Y, other, b, O) == !next;
      TieDecides(q, t, first, Y, stale, other, c, O - 1, next);
    } else {
      other := UnsettledDiffers(q, t, first, Y, stale, c, O - 1, next, nextOpen);
      IndexFalls(first, Y, c, b, O);
      FlagAgrees(q, t, first, Y, stale, other, b, O);
    }
    var across := PrefersMatch(q, t, first, Y, other, b, O);
    if c < b {
      SuffixKeepsApart(Walk(q, t, first, Y, other, c, O - 1, across), Walk(q, t, first, Y, stale, c, O - 1, next), O);
    }
  }

  /**
   The walk from the best cell is the same whatever the table held exactly when
   no tie is met right after the flag was decided by an unwritten cell.
   */
  lemma SameForEveryContent(q: Query, t: Grid, first: seq<nat>, Y: nat, stale: seq<int16>, S: nat)
    requires |first| > 0 && OnWalk(q, t, first, Y, |first| - 1, S)
    requires |stale| == Base(|first|, Y - first[0] + 1)
    ensures Settles(q, t, first, Y, stale, |first| - 1, S, true, false) <==>
            forall other: seq<int16> :: |other| == |stale| ==>
              Walk(q, t, first, Y, other, |first| - 1, S, true) == Walk(q, t, first, Y, stale, |first| - 1, S, true)
  {
    if Settles(q, t, first, Y, stale, |first| - 1, S, true, false) {
      forall other: seq<int16> | |other| == |stale|
        ensures Walk(q, t, first, Y, other, |first| - 1, S, true) == Walk(q, t, first, Y, stale, |first| - 1, S, true)
      {
        SettledAgree(q, t, first, Y, stale, other, |first| - 1, S, true, true, false);
      }
    } else {
      assert first[0] <= first[|first| - 1];
      var other := UnsettledDiffers(q, t, first, Y, stale, |first| - 1, S, true, false);
    }
  }
}
