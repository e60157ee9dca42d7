/** Casting the ray of one inner step against every wall face
    (scale_for, within, SideHit, maybe_add_vertical, maybe_add_horizontal
    and the face loop of simulate). */
module RayCast {

  import opened Wrappers
  import opened Walls

  /** A recorded face hit: the distance along the ray, the impact point, the
      orientation of the struck face and the wall's behaviour. Every recorded
      hit has the source's `hit` flag set, so the flag is not kept. */
  datatype SideHit = SideHit(dist: real, x: real, y: real, vertical: bool, horizontal: bool, behavior: WallBehavior)

  /** The three tolerances the face tests use. */
  datatype FaceTolerances = FaceTolerances(epsDir: real, epsFace: real, epsD: real)

  predicate ValidTolerances(tol: FaceTolerances)
  {
    tol.epsDir > 0.0 && tol.epsFace > 0.0 && tol.epsD > 0.0
  }

  /** The magnitude that scales the face tolerance: the largest of 1 and the
      absolute values of the four coordinates. */
  function ScaleFor(a: real, b: real, c: real, d: real): (r: real)
    ensures r >= 1.0 && r >= Abs(a) && r >= Abs(b) && r >= Abs(c) && r >= Abs(d)
    ensures r == 1.0 || r == Abs(a) || r == Abs(b) || r == Abs(c) || r == Abs(d)
  {
    Max(Max(Max(Max(1.0, Abs(a)), Abs(b)), Abs(c)), Abs(d))
  }

  /** v lies in [lo, hi] widened by eps on both sides. */
  predicate Within(v: real, lo: real, hi: real, eps: real)
    // widening keeps the span itself, and no widening is the plain span
    ensures lo <= v <= hi && eps >= 0.0 ==> Within(v, lo, hi, eps)
    ensures eps == 0.0 ==> (Within(v, lo, hi, eps) <==> lo <= v <= hi)
  {
    v >= lo - eps && v <= hi + eps
  }

  /** The distance is ahead of the origin and within reach of this step. */
  predicate InReach(s: real, maxDist: real, tol: FaceTolerances)
  {
    tol.epsD < s <= maxDist + tol.epsD
  }

  /** The hit (if any) of the ray from (sx, sy) along (dx, dy) on the
      vertical face x = xSide of wall w. */
  function VerticalHit(xSide: real, w: Wall, sx: real, sy: real, dx: real, dy: real,
                       maxDist: real, tol: FaceTolerances): (r: Option<SideHit>)
    requires ValidTolerances(tol)
    ensures r.Some? <==>
      Abs(dx) > tol.epsDir
      && InReach((xSide - sx) / dx, maxDist, tol)
      && Within(sy + dy * ((xSide - sx) / dx), w.y1, w.y2, tol.epsFace)
    ensures r.Some? ==>
      var h := r.value;
      && h.x == xSide && h.vertical && !h.horizontal && h.behavior == w.behavior
      && InReach(h.dist, maxDist, tol) && Within(h.y, w.y1, w.y2, tol.epsFace)
  {
    if Abs(dx) <= tol.epsDir then None
    else
      var s := (xSide - sx) / dx;
      if s <= tol.epsD || s > maxDist + tol.epsD then None
      else
        var y := sy + dy * s;
        if !Within(y, w.y1, w.y2, tol.epsFace) then None
        else Some(SideHit(s, xSide, y, true, false, w.behavior))
  }

  /** The hit (if any) of the ray on the horizontal face y = ySide of wall w. */
  function HorizontalHit(ySide: real, w: Wall, sx: real, sy: real, dx: real, dy: real,
                         maxDist: real, tol: FaceTolerances): (r: Option<SideHit>)
    requires ValidTolerances(tol)
    ensures r.Some? <==>
      Abs(dy) > tol.epsDir
      && InReach((ySide - sy) / dy, maxDist, tol)
      && Within(sx + dx * ((ySide - sy) / dy), w.x1, w.x2, tol.epsFace)
    ensures r.Some? ==>
      var h := r.value;
      && h.y == ySide && h.horizontal && !h.vertical && h.behavior == w.behavior
      && InReach(h.dist, maxDist, tol) && Within(h.x, w.x1, w.x2, tol.epsFace)
  {
    if Abs(dy) <= tol.epsDir then None
    else
      var s := (ySide - sy) / dy;
      if s <= tol.epsD || s > maxDist + tol.epsD then None
      else
        var x := sx + dx * s;
        if !Within(x, w.x1, w.x2, tol.epsFace) then None
        else Some(SideHit(s, x, ySide, false, true, w.behavior))
  }

  function HitList(o: Option<SideHit>): seq<SideHit>
  {
    if o.Some? then [o.value] else []
  }

  /** maybe_add_vertical: appends the face hit, if any, to out. */
  method MaybeAddVertical(xSide: real, w: Wall, sx: real, sy: real, dx: real, dy: real,
                          maxDist: real, tol: FaceTolerances, out: seq<SideHit>)
    returns (out': seq<SideHit>)
    requires ValidTolerances(tol)
    ensures out' == out + HitList(VerticalHit(xSide, w, sx, sy, dx, dy, maxDist, tol))
  {
    out' := out;
    if Abs(dx) <= tol.epsDir { return; }
    var s := (xSide - sx) / dx;
    if s <= tol.epsD || s > maxDist + tol.epsD { return; }
    var y := sy + dy * s;
    if !Within(y, w.y1, w.y2, tol.epsFace) { return; }
    assert VerticalHit(xSide, w, sx, sy, dx, dy, maxDist, tol).value.y == y;
    assert VerticalHit(xSide, w, sx, sy, dx, dy, maxDist, tol) == Some(SideHit(s, xSide, y, true, false, w.behavior));
    out' := out + [SideHit(s, xSide, y, true, false, w.behavior)];
  }

  /** maybe_add_horizontal: appends the face hit, if any, to out. */
  method MaybeAddHorizontal(ySide: real, w: Wall, sx: real, sy: real, dx: real, dy: real,
                            maxDist: real, tol: FaceTolerances, out: seq<SideHit>)
    returns (out': seq<SideHit>)
    requires ValidTolerances(tol)
    ensures out' == out + HitList(HorizontalHit(ySide, w, sx, sy, dx, dy, maxDist, tol))
  {
    out' := out;
    if Abs(dy) <= tol.epsDir { return; }
    var s := (ySide - sy) / dy;
    if s <= tol.epsD || s > maxDist + tol.epsD { return; }
    var x := sx + dx * s;
    if !Within(x, w.x1, w.x2, tol.epsFace) { return; }
    assert HorizontalHit(ySide, w, sx, sy, dx, dy, maxDist, tol).value.x == x;
    assert HorizontalHit(ySide, w, sx, sy, dx, dy, maxDist, tol) == Some(SideHit(s, x, ySide, false, true, w.behavior));
    out' := out + [SideHit(s, x, ySide, false, true, w.behavior)];
  }

  /** A wall of (near) zero width has a single vertical face. */
  predicate ZeroWidth(w: Wall) { Abs(w.x1 - w.x2) <= ZeroTolerance }

  /** A wall of (near) zero height has a single horizontal face. */
  predicate ZeroHeight(w: Wall) { Abs(w.y1 - w.y2) <= ZeroTolerance }

  /** The vertical-face hits of one wall, in the order the source tests them. */
  function VerticalHits(w: Wall, sx: real, sy: real, dx: real, dy: real,
                        maxDist: real, tol: FaceTolerances): (r: seq<SideHit>)
    requires ValidTolerances(tol)
    ensures |r| <= if ZeroWidth(w) then 1 else 2
    ensures forall h :: h in r ==>
      && h.vertical && !h.horizontal && h.behavior == w.behavior
      && (h.x == w.x1 || h.x == w.x2) && InReach(h.dist, maxDist, tol)
  {
    if ZeroWidth(w) then HitList(VerticalHit(w.x1, w, sx, sy, dx, dy, maxDist, tol))
    else (HitList(VerticalHit(w.x1, w, sx, sy, dx, dy, maxDist, tol))
          + HitList(VerticalHit(w.x2, w, sx, sy, dx, dy, maxDist, tol)))
  }

  /** The horizontal-face hits of one wall, in the order the source tests them. */
  function HorizontalHits(w: Wall, sx: real, sy: real, dx: real, dy: real,
                          maxDist: real, tol: FaceTolerances): (r: seq<SideHit>)
    requires ValidTolerances(tol)
    ensures |r| <= if ZeroHeight(w) then 1 else 2
    ensures forall h :: h in r ==>
      && h.horizontal && !h.vertical && h.behavior == w.behavior
      && (h.y == w.y1 || h.y == w.y2) && InReach(h.dist, maxDist, tol)
  {
    if ZeroHeight(w) then HitList(HorizontalHit(w.y1, w, sx, sy, dx, dy, maxDist, tol))
    else (HitList(HorizontalHit(w.y1, w, sx, sy, dx, dy, maxDist, tol))
          + HitList(HorizontalHit(w.y2, w, sx, sy, dx, dy, maxDist, tol)))
  }

  /** All hits of one wall. */
  function WallHits(w: Wall, sx: real, sy: real, dx: real, dy: real,
                    maxDist: real, tol: FaceTolerances): (r: seq<SideHit>)
    requires ValidTolerances(tol)
    ensures |r| <= 4
    ensures forall h :: h in r ==> h.behavior == w.behavior && h.vertical != h.horizontal && InReach(h.dist, maxDist, tol)
  {
    VerticalHits(w, sx, sy, dx, dy, maxDist, tol) + HorizontalHits(w, sx, sy, dx, dy, maxDist, tol)
  }

  /** h is a hit of the ray on one of the faces of wall w. */
  predicate IsFaceHit(h: SideHit, w: Wall, sx: real, sy: real, dx: real, dy: real,
                      maxDist: real, tol: FaceTolerances)
  {
    && h.behavior == w.behavior
    && h.vertical != h.horizontal
    && h.x == sx + dx * h.dist && h.y == sy + dy * h.dist
    && InReach(h.dist, maxDist, tol)
    && (h.vertical ==> (h.x == w.x1 || h.x == w.x2) && Within(h.y, w.y1, w.y2, tol.epsFace))
    && (h.horizontal ==> (h.y == w.y1 || h.y == w.y2) && Within(h.x, w.x1, w.x2, tol.epsFace))
  }

  /** The candidate list of one inner step: the hits of every wall, in wall order. */
  function Candidates(walls: seq<Wall>, sx: real, sy: real, dx: real, dy: real,
                      maxDist: real, tol: FaceTolerances): (r: seq<SideHit>)
    requires ValidTolerances(tol)
    ensures |r| <= 4 * |walls|
    ensures forall h :: h in r ==> h.vertical != h.horizontal && InReach(h.dist, maxDist, tol)
  {
    if walls == [] then []
    else Candidates(walls[..|walls| - 1], sx, sy, dx, dy, maxDist, tol)
         + WallHits(walls[|walls| - 1], sx, sy, dx, dy, maxDist, tol)
  }

  /** A vertical-face hit lies on the ray at its recorded distance. */
  lemma VerticalHitIsFaceHit(xSide: real, w: Wall, sx: real, sy: real, dx: real, dy: real,
                             maxDist: real, tol: FaceTolerances)
    requires ValidTolerances(tol) && (xSide == w.x1 || xSide == w.x2)
    ensures var r := VerticalHit(xSide, w, sx, sy, dx, dy, maxDist, tol);
      r.Some? ==> IsFaceHit(r.value, w, sx, sy, dx, dy, maxDist, tol)
  {
    if Abs(dx) > tol.epsDir {
      assert dx * ((xSide - sx) / dx) == xSide - sx;
    }
  }

  /** A horizontal-face hit lies on the ray at its recorded distance. */
  lemma HorizontalHitIsFaceHit(ySide: real, w: Wall, sx: real, sy: real, dx: real, dy: real,
                               maxDist: real, tol: FaceTolerances)
    requires ValidTolerances(tol) && (ySide == w.y1 || ySide == w.y2)
    ensures var r := HorizontalHit(ySide, w, sx, sy, dx, dy, maxDist, tol);
      r.Some? ==> IsFaceHit(r.value, w, sx, sy, dx, dy, maxDist, tol)
  {
    if Abs(dy) > tol.epsDir {
      assert dy * ((ySide - sy) / dy) == ySide - sy;
    }
  }

  /** Every hit of a wall is a hit on one of its faces, on the ray, within reach. */
  lemma WallHitsAreFaceHits(w: Wall, sx: real, sy: real, dx: real, dy: real,
                            maxDist: real, tol: FaceTolerances)
    requires ValidTolerances(tol)
    ensures forall h :: h in WallHits(w, sx, sy, dx, dy, maxDist, tol) ==>
      IsFaceHit(h, w, sx, sy, dx, dy, maxDist, tol)
  {
    VerticalHitIsFaceHit(w.x1, w, sx, sy, dx, dy, maxDist, tol);
    VerticalHitIsFaceHit(w.x2, w, sx, sy, dx, dy, maxDist, tol);
    HorizontalHitIsFaceHit(w.y1, w, sx, sy, dx, dy, maxDist, tol);
    HorizontalHitIsFaceHit(w.y2, w, sx, sy, dx, dy, maxDist, tol);
  }

  /** Every face of w that the source tests, and that is hit, has its hit
      in c: both x faces (only x1 for a zero-width wall) and both y faces
      (only y1 for a zero-height wall). */
  predicate FacesFound(w: Wall, sx: real, sy: real, dx: real, dy: real,
                       maxDist: real, tol: FaceTolerances, c: seq<SideHit>)
    requires ValidTolerances(tol)
  {
    && (VerticalHit(w.x1, w, sx, sy, dx, dy, maxDist, tol).Some? ==>
          VerticalHit(w.x1, w, sx, sy, dx, dy, maxDist, tol).value in c)
    && (!ZeroWidth(w) && VerticalHit(w.x2, w, sx, sy, dx, dy, maxDist, tol).Some? ==>
          VerticalHit(w.x2, w, sx, sy, dx, dy, maxDist, tol).value in c)
    && (HorizontalHit(w.y1, w, sx, sy, dx, dy, maxDist, tol).Some? ==>
          HorizontalHit(w.y1, w, sx, sy, dx, dy, maxDist, tol).value in c)
    && (!ZeroHeight(w) && HorizontalHit(w.y2, w, sx, sy, dx, dy, maxDist, tol).Some? ==>
          HorizontalHit(w.y2, w, sx, sy, dx, dy, maxDist, tol).value in c)
  }

  /** A list that keeps every element of c keeps the faces found in c. */
  lemma FacesFoundGrows(w: Wall, sx: real, sy: real, dx: real, dy: real,
                        maxDist: real, tol: FaceTolerances, c: seq<SideHit>, d: seq<SideHit>)
    requires ValidTolerances(tol) && FacesFound(w, sx, sy, dx, dy, maxDist, tol, c)
    requires forall h :: h in c ==> h in d
    ensures FacesFound(w, sx, sy, dx, dy, maxDist, tol, d)
  {
  }

  /** The hits of one wall include the hit of every face it tests. */
  lemma WallHitsComplete(w: Wall, sx: real, sy: real, dx: real, dy: real,
                         maxDist: real, tol: FaceTolerances)
    requires ValidTolerances(tol)
    ensures FacesFound(w, sx, sy, dx, dy, maxDist, tol, WallHits(w, sx, sy, dx, dy, maxDist, tol))
  {
    var v := VerticalHits(w, sx, sy, dx, dy, maxDist, tol);
    var r := WallHits(w, sx, sy, dx, dy, maxDist, tol);
    assert forall h :: h in v ==> h in r;
    assert forall h :: h in HorizontalHits(w, sx, sy, dx, dy, maxDist, tol) ==> h in r;
  }

  /** The candidate list gathers every hit of every wall: each face that a
      wall's test finds is among the candidates. */
  lemma {:induction false} CandidatesComplete(walls: seq<Wall>, sx: real, sy: real, dx: real, dy: real,
                                              maxDist: real, tol: FaceTolerances, k: int)
    requires ValidTolerances(tol) && 0 <= k < |walls|
    ensures FacesFound(walls[k], sx, sy, dx, dy, maxDist, tol, Candidates(walls, sx, sy, dx, dy, maxDist, tol))
  {
    var init := walls[..|walls| - 1];
    var w := walls[|walls| - 1];
    var c := Candidates(walls, sx, sy, dx, dy, maxDist, tol);
    var a := Candidates(init, sx, sy, dx, dy, maxDist, tol);
    var b := WallHits(w, sx, sy, dx, dy, maxDist, tol);
    assert c == a + b;
    if k == |walls| - 1 {
      WallHitsComplete(w, sx, sy, dx, dy, maxDist, tol);
      FacesFoundGrows(w, sx, sy, dx, dy, maxDist, tol, b, c);
    } else {
      CandidatesComplete(init, sx, sy, dx, dy, maxDist, tol, k);
      assert init[k] == walls[k];
      FacesFoundGrows(walls[k], sx, sy, dx, dy, maxDist, tol, a, c);
    }
  }

  /** Every candidate is a hit on a face of some wall: on the ray, strictly
      ahead, within this step's reach, and inside the face's widened span. */
  lemma {:induction false} CandidatesAreFaceHits(walls: seq<Wall>, sx: real, sy: real, dx: real, dy: real,
                                                 maxDist: real, tol: FaceTolerances)
    requires ValidTolerances(tol)
    ensures forall h :: h in Candidates(walls, sx, sy, dx, dy, maxDist, tol) ==>
      exists k :: 0 <= k < |walls| && IsFaceHit(h, walls[k], sx, sy, dx, dy, maxDist, tol)
  {
    if walls != [] {
      var init := walls[..|walls| - 1];
      var w := walls[|walls| - 1];
      CandidatesAreFaceHits(init, sx, sy, dx, dy, maxDist, tol);
      WallHitsAreFaceHits(w, sx, sy, dx, dy, maxDist, tol);
      forall h | h in Candidates(walls, sx, sy, dx, dy, maxDist, tol)
        ensures exists k :: 0 <= k < |walls| && IsFaceHit(h, walls[k], sx, sy, dx, dy, maxDist, tol)
      {
        if h in Candidates(init, sx, sy, dx, dy, maxDist, tol) {
          var k :| 0 <= k < |init| && IsFaceHit(h, init[k], sx, sy, dx, dy, maxDist, tol);
          assert walls[k] == init[k];
        } else {
          assert walls[|walls| - 1] == w;
        }
      }
    }
  }

  /** Every candidate struck exactly one face orientation, beyond the
      minimal travel distance. */
  lemma CandidatesShape(walls: seq<Wall>, sx: real, sy: real, dx: real, dy: real,
                        maxDist: real, tol: FaceTolerances)
    requires ValidTolerances(tol)
    ensures forall h :: h in Candidates(walls, sx, sy, dx, dy, maxDist, tol) ==> h.vertical != h.horizontal && tol.epsD < h.dist
  {
    CandidatesAreFaceHits(walls, sx, sy, dx, dy, maxDist, tol);
  }

  /** The vertical faces of one wall (one face if the wall has zero width). */
  method AddVerticalHits(w: Wall, sx: real, sy: real, dx: real, dy: real,
                         maxDist: real, tol: FaceTolerances, out: seq<SideHit>)
    returns (out': seq<SideHit>)
    requires ValidTolerances(tol)
    ensures out' == out + VerticalHits(w, sx, sy, dx, dy, maxDist, tol)
  {
    if Abs(w.x1 - w.x2) <= ZeroTolerance {
      out' := MaybeAddVertical(w.x1, w, sx, sy, dx, dy, maxDist, tol, out);
    } else {
      out' := MaybeAddVertical(w.x1, w, sx, sy, dx, dy, maxDist, tol, out);
      out' := MaybeAddVertical(w.x2, w, sx, sy, dx, dy, maxDist, tol, out');
    }
  }

  /** The horizontal faces of one wall (one face if the wall has zero height). */
  method AddHorizontalHits(w: Wall, sx: real, sy: real, dx: real, dy: real,
                           maxDist: real, tol: FaceTolerances, out: seq<SideHit>)
    returns (out': seq<SideHit>)
    requires ValidTolerances(tol)
    ensures out' == out + HorizontalHits(w, sx, sy, dx, dy, maxDist, tol)
  {
    if Abs(w.y1 - w.y2) <= ZeroTolerance {
      out' := MaybeAddHorizontal(w.y1, w, sx, sy, dx, dy, maxDist, tol, out);
    } else {
      out' := MaybeAddHorizontal(w.y1, w, sx, sy, dx, dy, maxDist, tol, out);
      out' := MaybeAddHorizontal(w.y2, w, sx, sy, dx, dy, maxDist, tol, out');
    }
  }

  /** One iteration of the wall loop of simulate: the faces of one wall. */
  method AddWallHits(w: Wall, sx: real, sy: real, dx: real, dy: real,
                     maxDist: real, tol: FaceTolerances, out: seq<SideHit>)
    returns (out': seq<SideHit>)
    requires ValidTolerances(tol)
    ensures out' == out + WallHits(w, sx, sy, dx, dy, maxDist, tol)
  {
    out' := AddVerticalHits(w, sx, sy, dx, dy, maxDist, tol, out);
    out' := AddHorizontalHits(w, sx, sy, dx, dy, maxDist, tol, out');
  }

  /** The wall loop of simulate: gathers every face hit of every wall. */
  method GatherCandidates(walls: seq<Wall>, sx: real, sy: real, dx: real, dy: real,
                          maxDist: real, tol: FaceTolerances)
    returns (candidates: seq<SideHit>)
    requires ValidTolerances(tol)
    ensures candidates == Candidates(walls, sx, sy, dx, dy, maxDist, tol)
  {
    candidates := [];
    for i := 0 to |walls|
      invariant candidates == Candidates(walls[..i], sx, sy, dx, dy, maxDist, tol)
    {
      candidates := AddWallHits(walls[i], sx, sy, dx, dy, maxDist, tol, candidates);
      assert walls[..i + 1][..i] == walls[..i];
    }
    assert walls[..|walls|] == walls;
  }

  /** A face that is hit lies strictly ahead of the origin along the axis. */
  lemma VerticalHitAhead(xSide: real, w: Wall, sx: real, sy: real, dx: real, dy: real,
                         maxDist: real, tol: FaceTolerances)
    requires ValidTolerances(tol)
    ensures VerticalHit(xSide, w, sx, sy, dx, dy, maxDist, tol).Some? ==>
      (dx > 0.0 && xSide > sx) || (dx < 0.0 && xSide < sx)
  {
    if Abs(dx) > tol.epsDir {
      var s := (xSide - sx) / dx;
      if s > 0.0 {
        assert s * dx == xSide - sx;
      }
    }
  }

  /** A face that is hit lies strictly ahead of the origin along the axis. */
  lemma HorizontalHitAhead(ySide: real, w: Wall, sx: real, sy: real, dx: real, dy: real,
                           maxDist: real, tol: FaceTolerances)
    requires ValidTolerances(tol)
    ensures HorizontalHit(ySide, w, sx, sy, dx, dy, maxDist, tol).Some? ==>
      (dy > 0.0 && ySide > sy) || (dy < 0.0 && ySide < sy)
  {
    if Abs(dy) > tol.epsDir {
      var s := (ySide - sy) / dy;
      if s > 0.0 {
        assert s * dy == ySide - sy;
      }
    }
  }

  /** Starting inside a wall, only the exit face (the one ahead in the
      direction of travel) can be hit, never the entry face. */
  lemma InsideStartOnlyExitVertical(w: Wall, sx: real, sy: real, dx: real, dy: real,
                                    maxDist: real, tol: FaceTolerances)
    requires ValidTolerances(tol)
    requires Ordered(w) && w.x1 <= sx <= w.x2
    ensures forall h :: h in VerticalHits(w, sx, sy, dx, dy, maxDist, tol) ==>
      h.x == (if dx > 0.0 then w.x2 else w.x1) && h.x != sx
  {
    VerticalHitAhead(w.x1, w, sx, sy, dx, dy, maxDist, tol);
    VerticalHitAhead(w.x2, w, sx, sy, dx, dy, maxDist, tol);
  }

  /** The same for the horizontal faces. */
  lemma InsideStartOnlyExitHorizontal(w: Wall, sx: real, sy: real, dx: real, dy: real,
                                      maxDist: real, tol: FaceTolerances)
    requires ValidTolerances(tol)
    requires Ordered(w) && w.y1 <= sy <= w.y2
    ensures forall h :: h in HorizontalHits(w, sx, sy, dx, dy, maxDist, tol) ==>
      h.y == (if dy > 0.0 then w.y2 else w.y1) && h.y != sy
  {
    HorizontalHitAhead(w.y1, w, sx, sy, dx, dy, maxDist, tol);
    HorizontalHitAhead(w.y2, w, sx, sy, dx, dy, maxDist, tol);
  }
}
