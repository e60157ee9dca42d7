/** The list of candidate rectangles that solve builds once
    (min_rectangle_cover/solution.cpp:59-69): for every top-left corner
    (r1, c1) in row-major order, every bottom-right corner (r2, c2) with
    r2 >= r1 and c2 >= c1, again in row-major order. */
module RectEnumeration {

  import opened CellCount

  /** The innermost loop: c2 running from c2 up to n - 1. */
  function Columns(r1: int, c1: int, r2: int, c2: int, n: int): seq<Rect>
    decreases n - c2
  {
    if c2 >= n then [] else [Rect(r1, c1, r2, c2)] + Columns(r1, c1, r2, c2 + 1, n)
  }

  /** The third loop: r2 running from r2 up to m - 1, each with c2 from c1. */
  function Ends(r1: int, c1: int, r2: int, m: int, n: int): seq<Rect>
    decreases m - r2
  {
    if r2 >= m then [] else Columns(r1, c1, r2, c1, n) + Ends(r1, c1, r2 + 1, m, n)
  }

  /** The second loop: c1 running from c1 up to n - 1, each with r2 from r1. */
  function Corners(r1: int, c1: int, m: int, n: int): seq<Rect>
    decreases n - c1
  {
    if c1 >= n then [] else Ends(r1, c1, r1, m, n) + Corners(r1, c1 + 1, m, n)
  }

  /** The outer loop: r1 running from r1 up to m - 1, each with c1 from 0. */
  function Rows(r1: int, m: int, n: int): seq<Rect>
    decreases m - r1
  {
    if r1 >= m then [] else Corners(r1, 0, m, n) + Rows(r1 + 1, m, n)
  }

  /** Every candidate rectangle of an m by n matrix, in the order solve
      pushes them. */
  function AllRects(m: int, n: int): (r: seq<Rect>)
    ensures forall i :: 0 <= i < |r| ==> ValidRect(r[i], m, n)
  {
    RowsMembers(0, m, n);
    var r := Rows(0, m, n);
    assert forall i :: 0 <= i < |r| ==> r[i] in r;
    r
  }

  /** Lexicographic order on (r1, c1, r2, c2). */
  predicate Before(a: Rect, b: Rect)
  {
    a.r1 < b.r1 ||
    (a.r1 == b.r1 && (a.c1 < b.c1 ||
    (a.c1 == b.c1 && (a.r2 < b.r2 ||
    (a.r2 == b.r2 && a.c2 < b.c2)))))
  }

  /** Each element comes strictly before every later one. */
  predicate StrictlySorted(s: seq<Rect>)
  {
    forall i, j :: 0 <= i < j < |s| ==> Before(s[i], s[j])
  }

  lemma SortedConcat(a: seq<Rect>, b: seq<Rect>)
    requires StrictlySorted(a) && StrictlySorted(b)
    requires forall x, y :: x in a && y in b ==> Before(x, y)
    ensures StrictlySorted(a + b)
  {
    var s := a + b;
    forall i, j | 0 <= i < j < |s|
      ensures Before(s[i], s[j])
    {
      if j < |a| {
        assert s[i] == a[i] && s[j] == a[j];
      } else if i >= |a| {
        assert s[i] == b[i - |a|] && s[j] == b[j - |a|];
      } else {
        assert s[i] == a[i] && s[j] == b[j - |a|];
      }
    }
  }

  lemma {:induction false} ColumnsMembers(r1: int, c1: int, r2: int, c2: int, n: int)
    ensures forall rc :: rc in Columns(r1, c1, r2, c2, n) <==>
      rc.r1 == r1 && rc.c1 == c1 && rc.r2 == r2 && c2 <= rc.c2 < n
    decreases n - c2
  {
    if c2 < n {
      ColumnsMembers(r1, c1, r2, c2 + 1, n);
    }
  }

  lemma {:induction false} ColumnsSorted(r1: int, c1: int, r2: int, c2: int, n: int)
    ensures StrictlySorted(Columns(r1, c1, r2, c2, n))
    decreases n - c2
  {
    if c2 < n {
      ColumnsMembers(r1, c1, r2, c2 + 1, n);
      ColumnsSorted(r1, c1, r2, c2 + 1, n);
      SortedConcat([Rect(r1, c1, r2, c2)], Columns(r1, c1, r2, c2 + 1, n));
    }
  }

  predicate InEnds(rc: Rect, r1: int, c1: int, r2: int, m: int, n: int)
  {
    rc.r1 == r1 && rc.c1 == c1 && r2 <= rc.r2 < m && c1 <= rc.c2 < n
  }

  lemma {:induction false} EndsSound(r1: int, c1: int, r2: int, m: int, n: int)
    ensures forall rc :: rc in Ends(r1, c1, r2, m, n) ==> InEnds(rc, r1, c1, r2, m, n)
    decreases m - r2
  {
    if r2 < m {
      var a, b := Columns(r1, c1, r2, c1, n), Ends(r1, c1, r2 + 1, m, n);
      ColumnsMembers(r1, c1, r2, c1, n);
      EndsSound(r1, c1, r2 + 1, m, n);
      assert Ends(r1, c1, r2, m, n) == a + b;
      forall rc | rc in a + b
        ensures InEnds(rc, r1, c1, r2, m, n)
      {
        if rc in a {
          assert rc.r2 == r2;
        } else {
          assert rc in b;
        }
      }
    }
  }

  lemma {:induction false} EndsComplete(r1: int, c1: int, r2: int, m: int, n: int)
    ensures forall rc :: InEnds(rc, r1, c1, r2, m, n) ==> rc in Ends(r1, c1, r2, m, n)
    decreases m - r2
  {
    if r2 < m {
      var a, b := Columns(r1, c1, r2, c1, n), Ends(r1, c1, r2 + 1, m, n);
      ColumnsMembers(r1, c1, r2, c1, n);
      EndsComplete(r1, c1, r2 + 1, m, n);
      assert Ends(r1, c1, r2, m, n) == a + b;
      forall rc | InEnds(rc, r1, c1, r2, m, n)
        ensures rc in a + b
      {
        if rc.r2 == r2 {
          assert rc in a;
        } else {
          assert InEnds(rc, r1, c1, r2 + 1, m, n);
          assert rc in b;
        }
      }
    }
  }

  lemma EndsMembers(r1: int, c1: int, r2: int, m: int, n: int)
    ensures forall rc :: rc in Ends(r1, c1, r2, m, n) <==> InEnds(rc, r1, c1, r2, m, n)
  {
    EndsSound(r1, c1, r2, m, n);
    EndsComplete(r1, c1, r2, m, n);
  }

  lemma {:induction false} EndsSorted(r1: int, c1: int, r2: int, m: int, n: int)
    ensures StrictlySorted(Ends(r1, c1, r2, m, n))
    decreases m - r2
  {
    if r2 < m {
      ColumnsMembers(r1, c1, r2, c1, n);
      EndsMembers(r1, c1, r2 + 1, m, n);
      ColumnsSorted(r1, c1, r2, c1, n);
      EndsSorted(r1, c1, r2 + 1, m, n);
      var a, b := Columns(r1, c1, r2, c1, n), Ends(r1, c1, r2 + 1, m, n);
      forall x, y | x in a && y in b
        ensures Before(x, y)
      {
        assert x.r2 == r2 && InEnds(y, r1, c1, r2 + 1, m, n);
      }
      SortedConcat(a, b);
    }
  }

  predicate InCorners(rc: Rect, r1: int, c1: int, m: int, n: int)
  {
    rc.r1 == r1 && c1 <= rc.c1 < n && r1 <= rc.r2 < m && rc.c1 <= rc.c2 < n
  }

  lemma {:induction false} CornersSound(r1: int, c1: int, m: int, n: int)
    ensures forall rc :: rc in Corners(r1, c1, m, n) ==> InCorners(rc, r1, c1, m, n)
    decreases n - c1
  {
    if c1 < n {
      var a, b := Ends(r1, c1, r1, m, n), Corners(r1, c1 + 1, m, n);
      EndsMembers(r1, c1, r1, m, n);
      CornersSound(r1, c1 + 1, m, n);
      assert Corners(r1, c1, m, n) == a + b;
      forall rc | rc in a + b
        ensures InCorners(rc, r1, c1, m, n)
      {
        if rc in a {
          assert InEnds(rc, r1, c1, r1, m, n);
        } else {
          assert InCorners(rc, r1, c1 + 1, m, n);
        }
      }
    }
  }

  lemma {:induction false} CornersComplete(r1: int, c1: int, m: int, n: int)
    ensures forall rc :: InCorners(rc, r1, c1, m, n) ==> rc in Corners(r1, c1, m, n)
    decreases n - c1
  {
    if c1 < n {
      var a, b := Ends(r1, c1, r1, m, n), Corners(r1, c1 + 1, m, n);
      EndsMembers(r1, c1, r1, m, n);
      CornersComplete(r1, c1 + 1, m, n);
      assert Corners(r1, c1, m, n) == a + b;
      forall rc | InCorners(rc, r1, c1, m, n)
        ensures rc in a + b
      {
        if rc.c1 == c1 {
          assert InEnds(rc, r1, c1, r1, m, n);
          assert rc in a;
        } else {
          assert InCorners(rc, r1, c1 + 1, m, n);
          assert rc in b;
        }
      }
    }
  }

  lemma CornersMembers(r1: int, c1: int, m: int, n: int)
    ensures forall rc :: rc in Corners(r1, c1, m, n) <==> InCorners(rc, r1, c1, m, n)
  {
    CornersSound(r1, c1, m, n);
    CornersComplete(r1, c1, m, n);
  }

  lemma {:induction false} CornersSorted(r1: int, c1: int, m: int, n: int)
    ensures StrictlySorted(Corners(r1, c1, m, n))
    decreases n - c1
  {
    if c1 < n {
      EndsMembers(r1, c1, r1, m, n);
      CornersMembers(r1, c1 + 1, m, n);
      EndsSorted(r1, c1, r1, m, n);
      CornersSorted(r1, c1 + 1, m, n);
      var a, b := Ends(r1, c1, r1, m, n), Corners(r1, c1 + 1, m, n);
      forall x, y | x in a && y in b
        ensures Before(x, y)
      {
        assert InEnds(x, r1, c1, r1, m, n) && InCorners(y, r1, c1 + 1, m, n);
      }
      SortedConcat(a, b);
    }
  }

  /** The corners and ends that the outer loop's iterations produce. */
  predicate InRows(rc: Rect, r1: int, m: int, n: int)
  {
    r1 <= rc.r1 < m && 0 <= rc.c1 < n && rc.r1 <= rc.r2 < m && rc.c1 <= rc.c2 < n
  }

  lemma {:induction false} RowsSound(r1: int, m: int, n: int)
    ensures forall rc :: rc in Rows(r1, m, n) ==> InRows(rc, r1, m, n)
    decreases m - r1
  {
    if r1 < m {
      var a, b := Corners(r1, 0, m, n), Rows(r1 + 1, m, n);
      CornersMembers(r1, 0, m, n);
      RowsSound(r1 + 1, m, n);
      assert Rows(r1, m, n) == a + b;
      forall rc | rc in a + b
        ensures InRows(rc, r1, m, n)
      {
        if rc in a {
          assert rc.r1 == r1;
        } else {
          assert rc in b;
        }
      }
    }
  }

  lemma {:induction false} RowsComplete(r1: int, m: int, n: int)
    ensures forall rc :: InRows(rc, r1, m, n) ==> rc in Rows(r1, m, n)
    decreases m - r1
  {
    if r1 < m {
      var a, b := Corners(r1, 0, m, n), Rows(r1 + 1, m, n);
      CornersMembers(r1, 0, m, n);
      RowsComplete(r1 + 1, m, n);
      assert Rows(r1, m, n) == a + b;
      forall rc | InRows(rc, r1, m, n)
        ensures rc in a + b
      {
        if rc.r1 == r1 {
          assert rc in a;
        } else {
          assert InRows(rc, r1 + 1, m, n);
          assert rc in b;
        }
      }
    }
  }

  lemma RowsMembers(r1: int, m: int, n: int)
    ensures forall rc :: rc in Rows(r1, m, n) <==> InRows(rc, r1, m, n)
  {
    RowsSound(r1, m, n);
    RowsComplete(r1, m, n);
  }

  lemma {:induction false} RowsSorted(r1: int, m: int, n: int)
    ensures StrictlySorted(Rows(r1, m, n))
    decreases m - r1
  {
    if r1 < m {
      var a, b := Corners(r1, 0, m, n), Rows(r1 + 1, m, n);
      CornersMembers(r1, 0, m, n);
      RowsMembers(r1 + 1, m, n);
      CornersSorted(r1, 0, m, n);
      RowsSorted(r1 + 1, m, n);
      forall x, y | x in a && y in b
        ensures Before(x, y)
      {
        assert InCorners(x, r1, 0, m, n) && InRows(y, r1 + 1, m, n);
      }
      SortedConcat(a, b);
    }
  }

  /** The list holds exactly the rectangles with ordered corners inside the
      matrix, in strictly increasing lexicographic order, so each of them
      exactly once. */
  lemma AllRectsMembers(m: int, n: int)
    ensures forall rc :: rc in AllRects(m, n) <==> ValidRect(rc, m, n)
    ensures StrictlySorted(AllRects(m, n))
    ensures forall i, j :: 0 <= i < j < |AllRects(m, n)| ==> AllRects(m, n)[i] != AllRects(m, n)[j]
  {
    RowsMembers(0, m, n);
    RowsSorted(0, m, n);
  }

  /** 0 + 1 + ... + k. */
  function Tri(k: nat): nat
  {
    if k == 0 then 0 else k + Tri(k - 1)
  }

  lemma {:induction false} TriClosed(k: nat)
    ensures Tri(k) == k * (k + 1) / 2
  {
    if k > 0 {
      TriClosed(k - 1);
      assert k * (k + 1) == (k - 1) * k + 2 * k;
    }
  }

  lemma MulAdd(a: int, b: int, c: int)
    ensures (a + b) * c == a * c + b * c && c * (a + b) == c * a + c * b
  {
  }

  lemma {:induction false} ColumnsLength(r1: int, c1: int, r2: int, c2: int, n: int)
    requires c2 <= n
    ensures |Columns(r1, c1, r2, c2, n)| == n - c2
    decreases n - c2
  {
    if c2 < n {
      ColumnsLength(r1, c1, r2, c2 + 1, n);
    }
  }

  lemma {:induction false} EndsLength(r1: int, c1: int, r2: int, m: int, n: int)
    requires r2 <= m && c1 <= n
    ensures |Ends(r1, c1, r2, m, n)| == (m - r2) * (n - c1)
    decreases m - r2
  {
    if r2 < m {
      ColumnsLength(r1, c1, r2, c1, n);
      EndsLength(r1, c1, r2 + 1, m, n);
      MulAdd(1, m - (r2 + 1), n - c1);
    }
  }

  lemma {:induction false} CornersLength(r1: int, c1: int, m: int, n: int)
    requires r1 <= m && 0 <= c1 <= n
    ensures |Corners(r1, c1, m, n)| == (m - r1) * Tri(n - c1)
    decreases n - c1
  {
    if c1 < n {
      EndsLength(r1, c1, r1, m, n);
      CornersLength(r1, c1 + 1, m, n);
      assert Tri(n - c1) == (n - c1) + Tri(n - (c1 + 1));
      MulAdd(n - c1, Tri(n - (c1 + 1)), m - r1);
    }
  }

  lemma {:induction false} RowsLength(r1: int, m: int, n: nat)
    requires 0 <= r1 <= m
    ensures |Rows(r1, m, n)| == Tri(m - r1) * Tri(n)
    decreases m - r1
  {
    if r1 < m {
      CornersLength(r1, 0, m, n);
      RowsLength(r1 + 1, m, n);
      assert Tri(m - r1) == (m - r1) + Tri(m - (r1 + 1));
      MulAdd(m - r1, Tri(m - (r1 + 1)), Tri(n));
    }
  }

  /** The size that solve reserves: (m(m+1)/2) * (n(n+1)/2). */
  lemma AllRectsLength(m: nat, n: nat)
    ensures |AllRects(m, n)| == (m * (m + 1) / 2) * (n * (n + 1) / 2)
  {
    RowsLength(0, m, n);
    TriClosed(m);
    TriClosed(n);
  }
}
