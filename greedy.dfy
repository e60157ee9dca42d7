/** The greedy rounds of solve (min_rectangle_cover/solution.cpp:44-108),
    stated on values: the choice of a rectangle, the toggle of its cells,
    the repetition until no true cell remains, and the argument checks that
    come first. */
module Greedy {

  import opened Wrappers
  import opened CellCount
  import opened RectEnumeration

  /** Every listed rectangle fits an m by n matrix. */
  predicate AllValid(rects: seq<Rect>, m: int, n: int)
  {
    forall i :: 0 <= i < |rects| ==> ValidRect(rects[i], m, n)
  }

  /** The search considers only rectangles whose top-left cell is true. */
  predicate Eligible(g: Grid, n: int, rc: Rect)
    requires IsRectangular(g, |g|, n) && ValidRect(rc, |g|, n)
  {
    g[rc.r1][rc.c1]
  }

  /** best_idx and best_cover after a scan; (-1, -1) before any hit. */
  datatype Choice = Choice(idx: int, cover: int)

  /** The scan over the first k rectangles: a rectangle replaces the
      current choice only when it is eligible and covers strictly more. */
  function Best(g: Grid, n: int, rects: seq<Rect>, k: nat): Choice
    requires IsRectangular(g, |g|, n) && AllValid(rects, |g|, n) && k <= |rects|
  {
    if k == 0 then Choice(-1, -1)
    else
      var prev := Best(g, n, rects, k - 1);
      var rc := rects[k - 1];
      if Eligible(g, n, rc) && RectOnes(g, n, rc) > prev.cover then Choice(k - 1, RectOnes(g, n, rc))
      else prev
  }

  /** The scan finds the first eligible rectangle of maximum count: none is
      found exactly when none is eligible; otherwise the one found is
      eligible, its count is the cover, no eligible rectangle covers more,
      and every earlier eligible one covers less. */
  lemma {:induction false} BestIsFirstMaximum(g: Grid, n: int, rects: seq<Rect>, k: nat)
    requires IsRectangular(g, |g|, n) && AllValid(rects, |g|, n) && k <= |rects|
    ensures var b := Best(g, n, rects, k);
      && -1 <= b.idx < k
      && (b.idx == -1 <==> forall i :: 0 <= i < k ==> !Eligible(g, n, rects[i]))
      && (b.idx == -1 ==> b.cover == -1)
      && (b.idx >= 0 ==>
            && Eligible(g, n, rects[b.idx])
            && b.cover == RectOnes(g, n, rects[b.idx])
            && (forall i :: 0 <= i < k && Eligible(g, n, rects[i]) ==> RectOnes(g, n, rects[i]) <= b.cover)
            && (forall i :: 0 <= i < b.idx && Eligible(g, n, rects[i]) ==> RectOnes(g, n, rects[i]) < b.cover))
  {
    if k > 0 {
      BestIsFirstMaximum(g, n, rects, k - 1);
    }
  }

  /** A rectangle with a true top-left cell covers at least one true cell. */
  lemma EligibleCoversOne(g: Grid, n: int, rc: Rect)
    requires IsRectangular(g, |g|, n) && ValidRect(rc, |g|, n) && Eligible(g, n, rc)
    ensures RectOnes(g, n, rc) >= 1
  {
    BandCoversFirstRow(g, rc.r1, rc.r2 + 1, rc.c1, rc.c2 + 1);
    var s := g[rc.r1][rc.c1..rc.c2 + 1];
    assert s == [s[0]] + s[1..];
    CountRowAppend([s[0]], s[1..]);
    assert [s[0]][..0] == [];
  }

  lemma {:induction false} BandCoversFirstRow(g: Grid, lo: nat, hi: nat, c1: nat, c2: nat)
    requires lo < hi <= |g| && c1 <= c2
    requires forall r :: lo <= r < hi ==> c2 <= |g[r]|
    ensures Band(g, lo, hi, c1, c2) >= CountRow(g[lo][c1..c2])
    decreases hi - lo
  {
    if hi - 1 > lo {
      BandCoversFirstRow(g, lo, hi - 1, c1, c2);
    }
  }

  /** The rectangle a round flips, or None when the runtime_error check
      (best_cover <= 0 or best_idx out of range) fires. */
  function Pick(g: Grid, n: int, rects: seq<Rect>): (r: Option<Rect>)
    requires IsRectangular(g, |g|, n) && AllValid(rects, |g|, n)
    ensures r.Some? ==> r.value in rects && ValidRect(r.value, |g|, n) && Eligible(g, n, r.value)
  {
    var b := Best(g, n, rects, |rects|);
    BestIsFirstMaximum(g, n, rects, |rects|);
    if b.cover <= 0 || b.idx < 0 || b.idx >= |rects| then None else Some(rects[b.idx])
  }

  /** Toggle every cell of the rectangle; the shape of the matrix is kept. */
  function Toggle(g: Grid, rc: Rect): (h: Grid)
    ensures |h| == |g| && forall i :: 0 <= i < |g| ==> |h[i]| == |g[i]|
  {
    seq(|g|, i requires 0 <= i < |g| =>
      seq(|g[i]|, j requires 0 <= j < |g[i]| => if InRect(rc, i, j) then !g[i][j] else g[i][j]))
  }

  /** Exactly the rectangle's cells change. */
  lemma ToggleChangesRect(g: Grid, rc: Rect)
    ensures var h := Toggle(g, rc);
      forall i, j :: 0 <= i < |g| && 0 <= j < |g[i]| ==> (h[i][j] != g[i][j] <==> InRect(rc, i, j))
  {
  }

  /** Toggling the same rectangle twice restores the matrix. */
  lemma ToggleTwice(g: Grid, rc: Rect)
    ensures Toggle(Toggle(g, rc), rc) == g
  {
    var h := Toggle(Toggle(g, rc), rc);
    assert |h| == |g|;
    forall i | 0 <= i < |g|
      ensures h[i] == g[i]
    {
      assert |h[i]| == |g[i]|;
      ToggleChangesRect(g, rc);
      ToggleChangesRect(Toggle(g, rc), rc);
      forall j | 0 <= j < |g[i]|
        ensures h[i][j] == g[i][j]
      {
      }
    }
  }

  /** One round of the while loop body: the matrix with the picked
      rectangle toggled, None when nothing can be picked. */
  function Round(g: Grid, n: int, rects: seq<Rect>): (r: Option<Grid>)
    requires IsRectangular(g, |g|, n) && AllValid(rects, |g|, n)
    ensures r.Some? <==> Pick(g, n, rects).Some?
    ensures r.Some? ==> IsRectangular(r.value, |g|, n)
  {
    match Pick(g, n, rects)
    case None => None
    case Some(rc) => Some(Toggle(g, rc))
  }

  /** The loop body as a step on any matrix: Round on a matrix of width n
      that the list fits, None otherwise. */
  function RoundFn(n: int, rects: seq<Rect>): Grid -> Option<Grid>
  {
    g => if IsRectangular(g, |g|, n) && AllValid(rects, |g|, n) then Round(g, n, rects) else None
  }

  /** The matrix after k rounds of `round`, None if a round found no
      rectangle to flip. */
  function Play(round: Grid -> Option<Grid>, g: Grid, k: nat): Option<Grid>
    decreases k
  {
    if k == 0 then Some(g)
    else
      match round(g)
      case None => None
      case Some(h) => Play(round, h, k - 1)
  }

  /** How the while loop ends: the matrix has no true cell after `flips`
      rounds, the runtime_error check fired, or the round allowance ran out. */
  datatype Run = Finished(flips: nat, last: Grid) | Failed | Exhausted

  /** The while loop of solve, from a count of `flips` rounds done, with at
      most `fuel` more rounds. */
  function Rounds(round: Grid -> Option<Grid>, g: Grid, fuel: nat, flips: nat): Run
    decreases fuel
  {
    if !HasOnes(g) then Finished(flips, g)
    else if fuel == 0 then Exhausted
    else
      match round(g)
      case None => Failed
      case Some(h) => Rounds(round, h, fuel - 1, flips + 1)
  }

  /** Playing k rounds is one round followed by k - 1 more. */
  lemma PlayStep(round: Grid -> Option<Grid>, g: Grid, h: Grid, k: nat, rest: nat)
    requires round(g) == Some(h) && k == rest + 1
    ensures Play(round, g, k) == Play(round, h, rest)
  {
  }

  /** One more round of the loop, when the matrix still has a true cell. */
  lemma RoundsStep(round: Grid -> Option<Grid>, g: Grid, h: Grid, fuel: nat, rest: nat, flips: nat)
    requires HasOnes(g) && round(g) == Some(h) && fuel == rest + 1
    ensures Rounds(round, g, fuel, flips) == Rounds(round, h, rest, flips + 1)
  {
  }

  /** A round that finds nothing to flip ends the loop with the
      runtime_error outcome. */
  lemma RoundsFail(round: Grid -> Option<Grid>, g: Grid, fuel: nat, flips: nat)
    requires HasOnes(g) && fuel > 0 && round(g).None?
    ensures Rounds(round, g, fuel, flips) == Failed
  {
  }

  /** The loop stops at once on a matrix without true cells, or when no
      round is left. */
  lemma RoundsStop(round: Grid -> Option<Grid>, g: Grid, fuel: nat, flips: nat)
    requires !HasOnes(g) || fuel == 0
    ensures Rounds(round, g, fuel, flips) == if HasOnes(g) then Exhausted else Finished(flips, g)
  {
  }

  /** When the loop finishes, the count is the number of rounds played, the
      last matrix is what those rounds produce, it has no true cell, and
      every earlier matrix still had one. */
  lemma {:induction false} RoundsFinished(round: Grid -> Option<Grid>, g: Grid, fuel: nat, flips: nat)
    ensures var r := Rounds(round, g, fuel, flips);
      r.Finished? ==>
        && flips <= r.flips <= flips + fuel
        && Play(round, g, r.flips - flips) == Some(r.last)
        && !HasOnes(r.last)
        && forall j :: 0 <= j < r.flips - flips ==> Play(round, g, j).Some? && HasOnes(Play(round, g, j).value)
    decreases fuel
  {
    if HasOnes(g) && fuel > 0 {
      var p := round(g);
      if p.Some? {
        var h := p.value;
        RoundsStep(round, g, h, fuel, fuel - 1, flips);
        RoundsFinished(round, h, fuel - 1, flips + 1);
        var r := Rounds(round, h, fuel - 1, flips + 1);
        if r.Finished? {
          var d: nat := r.flips - (flips + 1);
          PlayStep(round, g, h, d + 1, d);
          forall j | 0 <= j < d + 1
            ensures Play(round, g, j).Some? && HasOnes(Play(round, g, j).value)
          {
            if j > 0 {
              PlayStep(round, g, h, j, j - 1);
            }
          }
        }
      }
    }
  }

  /** The same, counted from zero rounds. */
  lemma RoundsCount(round: Grid -> Option<Grid>, g: Grid, fuel: nat)
    ensures var r := Rounds(round, g, fuel, 0);
      r.Finished? ==>
        && Play(round, g, r.flips) == Some(r.last) && !HasOnes(r.last)
        && forall j :: 0 <= j < r.flips ==> Play(round, g, j).Some? && HasOnes(Play(round, g, j).value)
  {
    RoundsFinished(round, g, fuel, 0);
  }

  /** More rounds allowed do not change a result reached within fewer. */
  lemma {:induction false} RoundsFuelMonotone(round: Grid -> Option<Grid>, g: Grid, fuel: nat, more: nat, flips: nat)
    requires fuel <= more && !Rounds(round, g, fuel, flips).Exhausted?
    ensures Rounds(round, g, more, flips) == Rounds(round, g, fuel, flips)
    decreases fuel
  {
    if HasOnes(g) && fuel > 0 {
      var p := round(g);
      if p.Some? {
        RoundsStep(round, g, p.value, fuel, fuel - 1, flips);
        RoundsStep(round, g, p.value, more, more - 1, flips);
        RoundsFuelMonotone(round, p.value, fuel - 1, more - 1, flips + 1);
      }
    }
  }

  /** With every rectangle of the matrix on the list, a matrix that has a
      true cell always yields a rectangle to flip. */
  lemma PickSucceeds(g: Grid, n: int, rects: seq<Rect>)
    requires IsRectangular(g, |g|, n) && AllValid(rects, |g|, n)
    requires forall rc :: ValidRect(rc, |g|, n) ==> rc in rects
    requires HasOnes(g)
    ensures Pick(g, n, rects).Some?
  {
    var i, j :| 0 <= i < |g| && 0 <= j < |g[i]| && g[i][j];
    var one := Rect(i, j, i, j);
    assert ValidRect(one, |g|, n);
    var p :| 0 <= p < |rects| && rects[p] == one;
    SingleCellOnes(g, n, i, j);
    BestIsFirstMaximum(g, n, rects, |rects|);
    assert Eligible(g, n, rects[p]);
  }

  /** The runtime_error branch is unreachable when the list holds every
      rectangle of the matrix. */
  lemma {:induction false} RoundsNeverFail(g: Grid, n: int, fuel: nat, flips: nat)
    requires IsRectangular(g, |g|, n)
    ensures !Rounds(RoundFn(n, AllRects(|g|, n)), g, fuel, flips).Failed?
    decreases fuel
  {
    var rects := AllRects(|g|, n);
    if HasOnes(g) && fuel > 0 {
      AllRectsMembers(|g|, n);
      PickSucceeds(g, n, rects);
      var h := Round(g, n, rects).value;
      assert RoundFn(n, rects)(g) == Some(h);
      RoundsStep(RoundFn(n, rects), g, h, fuel, fuel - 1, flips);
      RoundsNeverFail(h, n, fuel - 1, flips + 1);
    } else {
      RoundsStop(RoundFn(n, rects), g, fuel, flips);
    }
  }

  /** The std::invalid_argument cases, in the order solve checks them. */
  datatype InvalidReason = NegativeSize | RowCountMismatch | RowLengthMismatch

  /** What solve returns or throws; OutOfFuel is the model's own bound on the
      while loop, which has no termination argument. */
  datatype Outcome = Flips(count: nat) | InvalidArgument(reason: InvalidReason) | RuntimeError | OutOfFuel

  /** What solve reports when the while loop ends: the round counter, the
      runtime_error, or the model's exhausted allowance. */
  function Report(r: Run): (o: Outcome)
    ensures o.Flips? <==> r.Finished?
    ensures o.Flips? ==> o.count == r.flips
  {
    match r
    case Finished(k, _) => Flips(k)
    case Failed => RuntimeError
    case Exhausted => OutOfFuel
  }

  /** solve(m, n, matrix) with at most `fuel` greedy rounds. */
  function SolveSpec(m: int, n: int, matrix: Grid, fuel: nat): (r: Outcome)
    // an empty dimension wins over every check
    ensures m == 0 || n == 0 ==> r == Flips(0)
    ensures r.InvalidArgument? <==> m != 0 && n != 0 && !IsRectangular(matrix, m, n)
    ensures r == InvalidArgument(NegativeSize) <==> m != 0 && n != 0 && (m < 0 || n < 0)
    ensures r == InvalidArgument(RowCountMismatch) <==> m > 0 && n > 0 && |matrix| != m
    ensures m != 0 && n != 0 && IsRectangular(matrix, m, n) && !HasOnes(matrix) ==> r == Flips(0)
  {
    if m == 0 || n == 0 then Flips(0)
    else if m < 0 || n < 0 then
      assert m > 0 && |matrix| == m ==> |matrix[0]| != n;
      InvalidArgument(NegativeSize)
    else if m != |matrix| then InvalidArgument(RowCountMismatch)
    else if exists i :: 0 <= i < m && |matrix[i]| != n then InvalidArgument(RowLengthMismatch)
    else if !HasOnes(matrix) then Flips(0)
    else
      Report(Rounds(RoundFn(n, AllRects(m, n)), matrix, fuel, 0))
  }

  /** solve never reaches its runtime_error. */
  lemma SolveNeverRuntimeError(m: int, n: int, matrix: Grid, fuel: nat)
    ensures SolveSpec(m, n, matrix, fuel) != RuntimeError
  {
    if m > 0 && n > 0 && IsRectangular(matrix, m, n) && HasOnes(matrix) {
      RoundsNeverFail(matrix, n, fuel, 0);
    }
  }

  /** A count returned for a valid matrix is the number of greedy rounds
      after which no true cell remains, and no fewer rounds achieve that. */
  lemma SolveCountsRounds(m: int, n: int, matrix: Grid, fuel: nat)
    requires m > 0 && n > 0 && IsRectangular(matrix, m, n)
    requires SolveSpec(m, n, matrix, fuel).Flips?
    ensures var k, round := SolveSpec(m, n, matrix, fuel).count, RoundFn(n, AllRects(m, n));
      && Play(round, matrix, k).Some? && !HasOnes(Play(round, matrix, k).value)
      && forall j :: 0 <= j < k ==> Play(round, matrix, j).Some? && HasOnes(Play(round, matrix, j).value)
  {
    var round := RoundFn(n, AllRects(m, n));
    RoundsCount(round, matrix, fuel);
    var r := Rounds(round, matrix, fuel, 0);
    assert !(exists i :: 0 <= i < m && |matrix[i]| != n);
    var k := SolveSpec(m, n, matrix, fuel).count;
    if HasOnes(matrix) {
      assert SolveSpec(m, n, matrix, fuel) == Report(r);
      assert r.Finished? && k == r.flips;
    } else {
      assert k == 0;
      assert Play(round, matrix, k) == Some(matrix);
    }
  }
}
