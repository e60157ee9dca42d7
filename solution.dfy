/** The greedy minimum rectangle cover solver of
    min_rectangle_cover/solution.cpp as imperative code: each helper and
    solve itself are proved against the functions of Greedy, CellCount and
    RectEnumeration. */
module Solution {

  import opened Wrappers
  import opened CellCount
  import opened RectEnumeration
  import opened Greedy

  /** matrix_has_ones: scan row by row, returning at the first true cell. */
  method MatrixHasOnes(matrix: Grid) returns (b: bool)
    ensures b == HasOnes(matrix)
  {
    for i := 0 to |matrix|
      invariant forall r, c :: 0 <= r < i && 0 <= c < |matrix[r]| ==> !matrix[r][c]
    {
      for j := 0 to |matrix[i]|
        invariant forall c :: 0 <= c < j ==> !matrix[i][c]
      {
        if matrix[i][j] {
          return true;
        }
      }
    }
    return false;
  }

  /** One pass of build_pref's outer loop: row i + 1 of the table from row
      i and a running sum over row i of the matrix. */
  method FillRow(matrix: Grid, n: int, pref: array2<int>, i: int)
    requires IsRectangular(matrix, |matrix|, n) && 0 <= i < |matrix|
    requires pref.Length0 > |matrix| && pref.Length1 > n
    requires forall c :: 1 <= c <= n ==> pref[i, c] == Count(matrix, i, c)
    modifies pref
    ensures forall r, c :: 0 <= r < pref.Length0 && 0 <= c < pref.Length1 ==>
      pref[r, c] == if r == i + 1 && 1 <= c <= n then Count(matrix, i + 1, c) else old(pref[r, c])
  {
    var row := 0;
    for j := 0 to n
      invariant row == CountRow(matrix[i][..j])
      invariant forall r, c :: 0 <= r < pref.Length0 && 0 <= c < pref.Length1 ==>
        pref[r, c] == if r == i + 1 && 1 <= c <= j then Count(matrix, i + 1, c) else old(pref[r, c])
    {
      CountRowStep(matrix[i], j);
      row := row + Bit(matrix[i][j]);
      pref[i + 1, j + 1] := pref[i, j + 1] + row;
    }
  }

  /** build_pref: fill rows 1..m and columns 1..n of the table with the
      prefix counts, row by row; row 0 is read as zero and column 0 is
      never touched. */
  method BuildPref(matrix: Grid, pref: array2<int>)
    requires |matrix| > 0 && IsRectangular(matrix, |matrix|, |matrix[0]|)
    requires pref.Length0 > |matrix| && pref.Length1 > |matrix[0]|
    requires forall j :: 1 <= j <= |matrix[0]| ==> pref[0, j] == 0
    modifies pref
    ensures forall i, j :: 0 <= i < pref.Length0 && 0 <= j < pref.Length1 ==>
      pref[i, j] == if 1 <= i <= |matrix| && 1 <= j <= |matrix[0]| then Count(matrix, i, j) else old(pref[i, j])
  {
    var m := |matrix|;
    var n := |matrix[0]|;
    for i := 0 to m
      invariant forall r, c :: 0 <= r < pref.Length0 && 0 <= c < pref.Length1 ==>
        pref[r, c] == if 1 <= r <= i && 1 <= c <= n then Count(matrix, r, c) else old(pref[r, c])
    {
      FillRow(matrix, n, pref, i);
    }
  }

  /** The table holds every prefix count of the m by n matrix, borders
      included. */
  ghost predicate PrefixTable(matrix: Grid, n: int, pref: array2<int>)
    reads pref
  {
    && IsRectangular(matrix, |matrix|, n)
    && pref.Length0 > |matrix| && pref.Length1 > n
    && forall i, j :: 0 <= i <= |matrix| && 0 <= j <= n ==> pref[i, j] == Count(matrix, i, j)
  }

  /** sum_rect: inclusion-exclusion over four table entries. */
  function SumRect(pref: array2<int>, r1: int, c1: int, r2: int, c2: int): int
    reads pref
    requires 0 <= r1 <= r2 + 1 < pref.Length0 && 0 <= c1 <= c2 + 1 < pref.Length1
  {
    pref[r2 + 1, c2 + 1] - pref[r1, c2 + 1] - pref[r2 + 1, c1] + pref[r1, c1]
  }

  /** On a prefix table, sum_rect is the number of true cells of the
      inclusive rectangle. */
  lemma SumRectCountsOnes(matrix: Grid, n: int, pref: array2<int>, rc: Rect)
    requires PrefixTable(matrix, n, pref) && ValidRect(rc, |matrix|, n)
    ensures SumRect(pref, rc.r1, rc.c1, rc.r2, rc.c2) == RectOnes(matrix, n, rc)
  {
    BandByPrefixes(matrix, rc.r1, rc.r2 + 1, rc.c1, rc.c2 + 1);
  }

  /** Regrouping a list built by appending one part after another. */
  lemma Regroup(a: seq<Rect>, b: seq<Rect>, c: seq<Rect>, d: seq<Rect>)
    requires d == b + c
    ensures (a + b) + c == a + d
  {
  }

  /** The innermost loop: push (r1, c1, r2, c2) for c2 from c1 to n - 1. */
  method PushColumns(rects: seq<Rect>, r1: int, c1: int, r2: int, n: int) returns (out: seq<Rect>)
    ensures out == rects + Columns(r1, c1, r2, c1, n)
  {
    out := rects;
    var c2 := c1;
    while c2 < n
      invariant out + Columns(r1, c1, r2, c2, n) == rects + Columns(r1, c1, r2, c1, n)
      decreases n - c2
    {
      Regroup(out, [Rect(r1, c1, r2, c2)], Columns(r1, c1, r2, c2 + 1, n), Columns(r1, c1, r2, c2, n));
      out := out + [Rect(r1, c1, r2, c2)];
      c2 := c2 + 1;
    }
  }

  /** The third loop: r2 from r1 to m - 1, each running the innermost one. */
  method PushEnds(rects: seq<Rect>, r1: int, c1: int, m: int, n: int) returns (out: seq<Rect>)
    ensures out == rects + Ends(r1, c1, r1, m, n)
  {
    out := rects;
    var r2 := r1;
    while r2 < m
      invariant out + Ends(r1, c1, r2, m, n) == rects + Ends(r1, c1, r1, m, n)
      decreases m - r2
    {
      Regroup(out, Columns(r1, c1, r2, c1, n), Ends(r1, c1, r2 + 1, m, n), Ends(r1, c1, r2, m, n));
      out := PushColumns(out, r1, c1, r2, n);
      r2 := r2 + 1;
    }
  }

  /** The second loop: c1 from 0 to n - 1, each running the third one. */
  method PushCorners(rects: seq<Rect>, r1: int, m: int, n: int) returns (out: seq<Rect>)
    ensures out == rects + Corners(r1, 0, m, n)
  {
    out := rects;
    var c1 := 0;
    while c1 < n
      invariant out + Corners(r1, c1, m, n) == rects + Corners(r1, 0, m, n)
      decreases n - c1
    {
      Regroup(out, Ends(r1, c1, r1, m, n), Corners(r1, c1 + 1, m, n), Corners(r1, c1, m, n));
      out := PushEnds(out, r1, c1, m, n);
      c1 := c1 + 1;
    }
  }

  /** The outer loop: r1 from 0 to m - 1, each running the second one. */
  method PushRows(rects: seq<Rect>, m: int, n: int) returns (out: seq<Rect>)
    ensures out == rects + Rows(0, m, n)
  {
    out := rects;
    var r1 := 0;
    while r1 < m
      invariant out + Rows(r1, m, n) == rects + Rows(0, m, n)
      decreases m - r1
    {
      Regroup(out, Corners(r1, 0, m, n), Rows(r1 + 1, m, n), Rows(r1, m, n));
      out := PushCorners(out, r1, m, n);
      r1 := r1 + 1;
    }
  }

  /** The four nested loops of solve that push every rectangle, starting
      from an empty list. */
  method EnumerateRects(m: int, n: int) returns (rects: seq<Rect>)
    ensures rects == AllRects(m, n)
  {
    rects := PushRows([], m, n);
    assert [] + Rows(0, m, n) == Rows(0, m, n);
  }

  /** The search for best_idx and best_cover over the list. */
  method ChooseBest(matrix: Grid, n: int, rects: seq<Rect>, pref: array2<int>) returns (bestIdx: int, bestCover: int)
    requires PrefixTable(matrix, n, pref) && AllValid(rects, |matrix|, n)
    ensures Choice(bestIdx, bestCover) == Best(matrix, n, rects, |rects|)
  {
    bestIdx, bestCover := -1, -1;
    for i := 0 to |rects|
      invariant Choice(bestIdx, bestCover) == Best(matrix, n, rects, i)
    {
      var rc := rects[i];
      if !matrix[rc.r1][rc.c1] {
        continue;
      }
      var cover := SumRect(pref, rc.r1, rc.c1, rc.r2, rc.c2);
      SumRectCountsOnes(matrix, n, pref, rc);
      if cover > bestCover {
        bestCover := cover;
        bestIdx := i;
      }
    }
  }

  /** The nested loops that negate every cell of the chosen rectangle. */
  method FlipRect(matrix: Grid, n: int, rc: Rect) returns (flipped: Grid)
    requires IsRectangular(matrix, |matrix|, n) && ValidRect(rc, |matrix|, n)
    ensures flipped == Toggle(matrix, rc)
  {
    ghost var goal := Toggle(matrix, rc);
    ToggleChangesRect(matrix, rc);
    flipped := matrix;
    for r := rc.r1 to rc.r2 + 1
      invariant |flipped| == |matrix|
      invariant forall i :: 0 <= i < |matrix| ==> flipped[i] == if rc.r1 <= i < r then goal[i] else matrix[i]
    {
      for c := rc.c1 to rc.c2 + 1
        invariant |flipped| == |matrix| && |flipped[r]| == n
        invariant forall i :: 0 <= i < |matrix| && i != r ==> flipped[i] == if rc.r1 <= i < r then goal[i] else matrix[i]
        invariant forall j :: 0 <= j < n ==> flipped[r][j] == if rc.c1 <= j < c then !matrix[r][j] else matrix[r][j]
      {
        flipped := flipped[r := flipped[r][c := !flipped[r][c]]];
      }
      assert flipped[r] == goal[r];
    }
    forall i | 0 <= i < |matrix|
      ensures flipped[i] == goal[i]
    {
      if i < rc.r1 || i > rc.r2 {
        assert |goal[i]| == |matrix[i]|;
        assert forall j :: 0 <= j < |matrix[i]| ==> goal[i][j] == matrix[i][j];
      }
    }
    assert flipped == goal;
  }

  /** One round of solve's loop on a matrix with true cells: build_pref,
      the search for the best rectangle and its flip; None where the
      runtime_error check fires. The table is scratch space whose border
      stays zero. */
  method PlayRound(g: Grid, n: int, rects: seq<Rect>, pref: array2<int>) returns (next: Option<Grid>)
    requires |g| > 0 && n > 0 && IsRectangular(g, |g|, n) && AllValid(rects, |g|, n)
    requires pref.Length0 == |g| + 1 && pref.Length1 == n + 1
    requires forall j :: 0 <= j <= n ==> pref[0, j] == 0
    requires forall i :: 0 <= i <= |g| ==> pref[i, 0] == 0
    modifies pref
    ensures next == Round(g, n, rects)
    ensures forall j :: 0 <= j <= n ==> pref[0, j] == 0
    ensures forall i :: 0 <= i <= |g| ==> pref[i, 0] == 0
  {
    BuildPref(g, pref);
    forall i | 0 <= i <= |g|
      ensures pref[i, 0] == Count(g, i, 0)
    {
      CountNoColumns(g, i);
    }
    assert PrefixTable(g, n, pref);
    var bestIdx, bestCover := ChooseBest(g, n, rects, pref);
    if bestCover <= 0 || bestIdx < 0 || bestIdx >= |rects| {
      return None;
    }
    var flipped := FlipRect(g, n, rects[bestIdx]);
    return Some(flipped);
  }

  /** solve, with its while loop allowed at most `fuel` rounds. */
  method Solve(m: int, n: int, matrix: Grid, fuel: nat) returns (result: Outcome)
    ensures result == SolveSpec(m, n, matrix, fuel)
  {
    if m == 0 || n == 0 {
      return Flips(0);
    }
    if m < 0 || n < 0 {
      return InvalidArgument(NegativeSize);
    }
    if m != |matrix| {
      return InvalidArgument(RowCountMismatch);
    }
    for i := 0 to m
      invariant forall r :: 0 <= r < i ==> |matrix[r]| == n
    {
      if |matrix[i]| != n {
        return InvalidArgument(RowLengthMismatch);
      }
    }
    var hasOnes := MatrixHasOnes(matrix);
    if !hasOnes {
      return Flips(0);
    }

    var rects := EnumerateRects(m, n);
    assert AllValid(rects, m, n);
    var pref := new int[m + 1, n + 1]((i, j) => 0);
    var g := matrix;
    var flips: nat := 0;
    ghost var round := RoundFn(n, rects);
    var left: nat := fuel;
    assert SolveSpec(m, n, matrix, fuel) == Report(Rounds(round, g, left, flips));
    while true
      invariant IsRectangular(g, m, n)
      invariant Report(Rounds(round, g, left, flips)) == SolveSpec(m, n, matrix, fuel)
      invariant pref.Length0 == m + 1 && pref.Length1 == n + 1
      invariant forall j :: 0 <= j <= n ==> pref[0, j] == 0
      invariant forall i :: 0 <= i <= m ==> pref[i, 0] == 0
      decreases left
    {
      hasOnes := MatrixHasOnes(g);
      if !hasOnes || left == 0 {
        RoundsStop(round, g, left, flips);
        return if hasOnes then OutOfFuel else Flips(flips);
      }
      var next := PlayRound(g, n, rects, pref);
      assert round(g) == next;
      if next.None? {
        RoundsFail(round, g, left, flips);
        return RuntimeError;
      }
      var rest: nat := left - 1;
      RoundsStep(round, g, next.value, left, rest, flips);
      g, flips, left := next.value, flips + 1, rest;
    }
  }
}
