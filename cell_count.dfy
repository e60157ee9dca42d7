/** Boolean grids, rectangles over them, and the numbers of true cells the
    greedy cover solver (min_rectangle_cover/solution.cpp) works with: the
    prefix counts that build_pref tabulates and the rectangle counts that
    sum_rect recovers from them. */
module CellCount {

  /** A matrix of cells, row by row; rows may differ in length until the
      solver has validated them. */
  type Grid = seq<seq<bool>>

  /** The matrix has exactly m rows, each of exactly n cells. */
  predicate IsRectangular(g: Grid, m: int, n: int)
  {
    |g| == m && forall i :: 0 <= i < |g| ==> |g[i]| == n
  }

  /** Some cell of the matrix is true. */
  predicate HasOnes(g: Grid)
  {
    exists i, j :: 0 <= i < |g| && 0 <= j < |g[i]| && g[i][j]
  }

  /** The value a cell adds to a count (bool to int). */
  function Bit(b: bool): nat { if b then 1 else 0 }

  /** The number of true cells in a row segment. */
  function CountRow(s: seq<bool>): nat
  {
    if |s| == 0 then 0 else CountRow(s[..|s| - 1]) + Bit(s[|s| - 1])
  }

  /** Counting a concatenation adds the counts. */
  lemma {:induction false} CountRowAppend(s: seq<bool>, t: seq<bool>)
    ensures CountRow(s + t) == CountRow(s) + CountRow(t)
    decreases |t|
  {
    if |t| == 0 {
      assert s + t == s;
    } else {
      var t' := t[..|t| - 1];
      assert (s + t)[..|s + t| - 1] == s + t';
      CountRowAppend(s, t');
    }
  }

  /** A segment's count lies between 0 and its length, and it is 0 exactly
      when no cell of the segment is true. */
  lemma {:induction false} CountRowZero(s: seq<bool>)
    ensures CountRow(s) <= |s|
    ensures CountRow(s) == 0 <==> forall j :: 0 <= j < |s| ==> !s[j]
  {
    if |s| > 0 {
      var s' := s[..|s| - 1];
      CountRowZero(s');
      assert forall j :: 0 <= j < |s'| ==> s'[j] == s[j];
    }
  }

  /** The count of a segment is the count up to its end minus the count up
      to its start. */
  lemma CountRowSlice(s: seq<bool>, a: nat, b: nat)
    requires a <= b <= |s|
    ensures CountRow(s[..b]) == CountRow(s[..a]) + CountRow(s[a..b])
  {
    assert s[..b] == s[..a] + s[a..b];
    CountRowAppend(s[..a], s[a..b]);
  }

  /** Extending a prefix by one cell adds that cell's bit. */
  lemma CountRowStep(s: seq<bool>, j: nat)
    requires j < |s|
    ensures CountRow(s[..j + 1]) == CountRow(s[..j]) + Bit(s[j])
  {
    assert s[..j + 1][..j] == s[..j];
  }

  /** Count(g, i, j): the true cells in rows 0..i-1 and columns 0..j-1,
      which is what build_pref stores at pref[i][j]. */
  function Count(g: Grid, i: nat, j: nat): nat
    requires i <= |g| && forall r :: 0 <= r < i ==> j <= |g[r]|
  {
    if i == 0 then 0 else Count(g, i - 1, j) + CountRow(g[i - 1][..j])
  }

  /** Prefix counts over no columns are zero. */
  lemma {:induction false} CountNoColumns(g: Grid, i: nat)
    requires i <= |g|
    ensures Count(g, i, 0) == 0
  {
    if i > 0 {
      CountNoColumns(g, i - 1);
      assert g[i - 1][..0] == [];
    }
  }

  /** Band(g, lo, hi, c1, c2): the true cells in rows lo..hi-1 and columns
      c1..c2-1, summed row by row. */
  function Band(g: Grid, lo: nat, hi: nat, c1: nat, c2: nat): nat
    requires lo <= hi <= |g| && c1 <= c2
    requires forall r :: lo <= r < hi ==> c2 <= |g[r]|
    decreases hi - lo
  {
    if lo == hi then 0 else Band(g, lo, hi - 1, c1, c2) + CountRow(g[hi - 1][c1..c2])
  }

  /** The inclusion-exclusion identity: four prefix counts give the count of
      the band between them. */
  lemma {:induction false} BandByPrefixes(g: Grid, lo: nat, hi: nat, c1: nat, c2: nat)
    requires lo <= hi <= |g| && c1 <= c2
    requires forall r :: 0 <= r < hi ==> c2 <= |g[r]|
    ensures Count(g, hi, c2) - Count(g, lo, c2) - Count(g, hi, c1) + Count(g, lo, c1) == Band(g, lo, hi, c1, c2)
    decreases hi - lo
  {
    if lo < hi {
      BandByPrefixes(g, lo, hi - 1, c1, c2);
      CountRowSlice(g[hi - 1], c1, c2);
      assert g[hi - 1][..c2][..c1] == g[hi - 1][..c1];
    }
  }

  /** A rectangle given by inclusive corners (r1, c1) and (r2, c2). */
  datatype Rect = Rect(r1: int, c1: int, r2: int, c2: int)

  /** The corners are ordered and inside an m by n matrix. */
  predicate ValidRect(rc: Rect, m: int, n: int)
  {
    0 <= rc.r1 <= rc.r2 < m && 0 <= rc.c1 <= rc.c2 < n
  }

  /** Cell (r, c) lies in the rectangle. */
  predicate InRect(rc: Rect, r: int, c: int)
  {
    rc.r1 <= r <= rc.r2 && rc.c1 <= c <= rc.c2
  }

  /** The number of true cells inside the rectangle. */
  function RectOnes(g: Grid, n: int, rc: Rect): nat
    requires IsRectangular(g, |g|, n) && ValidRect(rc, |g|, n)
  {
    Band(g, rc.r1, rc.r2 + 1, rc.c1, rc.c2 + 1)
  }

  /** A one-cell rectangle counts just its cell. */
  lemma SingleCellOnes(g: Grid, n: int, r: int, c: int)
    requires IsRectangular(g, |g|, n) && 0 <= r < |g| && 0 <= c < n
    ensures RectOnes(g, n, Rect(r, c, r, c)) == Bit(g[r][c])
  {
    var cell := g[r][c..c + 1];
    assert cell == [g[r][c]] && cell[..0] == [];
    assert CountRow(cell) == Bit(g[r][c]);
    assert Band(g, r, r + 1, c, c + 1) == Band(g, r, r, c, c + 1) + CountRow(cell);
  }

  /** The grid has a true cell exactly when its full prefix count is
      positive. */
  lemma {:induction false} HasOnesByCount(g: Grid, m: nat, n: nat)
    requires IsRectangular(g, m, n)
    ensures HasOnes(g) <==> Count(g, m, n) > 0
  {
    CountZeroRows(g, m, n);
    if HasOnes(g) {
      var i, j :| 0 <= i < |g| && 0 <= j < |g[i]| && g[i][j];
      CountRowZero(g[i][..n]);
      assert g[i][..n][j];
    } else {
      forall i | 0 <= i < m
        ensures CountRow(g[i][..n]) == 0
      {
        CountRowZero(g[i][..n]);
      }
    }
  }

  /** A prefix count is zero exactly when each of its rows counts zero. */
  lemma {:induction false} CountZeroRows(g: Grid, i: nat, n: nat)
    requires i <= |g| && forall r :: 0 <= r < i ==> n <= |g[r]|
    ensures Count(g, i, n) == 0 <==> forall r :: 0 <= r < i ==> CountRow(g[r][..n]) == 0
  {
    if i > 0 {
      CountZeroRows(g, i - 1, n);
    }
  }
}
