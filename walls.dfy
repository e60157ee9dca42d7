/** Wall behaviours and walls (projectile_path_simulator.h), and the
    normalisation and filtering that add_wall and simulatePath apply before
    a wall is stored. */
module Walls {

  import opened Wrappers

  /** The three collision behaviours; the enum's underlying values are the
      characters 'R', 'P' and 'S'. */
  datatype WallBehavior = Reflect | PassThrough | Stop

  /** A vertex of a path, or any point of the plane. */
  datatype Point = Point(x: real, y: real)

  /** A wall: two corners, in any order, and one behaviour. */
  datatype Wall = Wall(x1: real, y1: real, x2: real, y2: real, behavior: WallBehavior)

  /** The absolute tolerance (1e-12) under which a coordinate difference is zero. */
  const ZeroTolerance: real := 0.000000000001

  function Abs(x: real): real { if x < 0.0 then -x else x }

  function Min(a: real, b: real): real { if a <= b then a else b }

  function Max(a: real, b: real): real { if a >= b then a else b }

  /** The character that represents a behaviour. */
  function Code(b: WallBehavior): char
  {
    match b
    case Reflect => 'R'
    case PassThrough => 'P'
    case Stop => 'S'
  }

  /** The behaviour a character represents, if any. */
  function FromCode(c: char): (r: Option<WallBehavior>)
    ensures r.Some? <==> c in {'R', 'P', 'S'}
  {
    if c == 'R' then Some(Reflect)
    else if c == 'P' then Some(PassThrough)
    else if c == 'S' then Some(Stop)
    else None
  }

  /** The behaviours form a closed set of three tags with distinct codes. */
  lemma CodeRoundTrip(b: WallBehavior)
    ensures FromCode(Code(b)) == Some(b)
    ensures forall b' :: Code(b') == Code(b) ==> b' == b
  {
  }

  /** Corners are ordered: the form in which add_wall stores a wall. */
  predicate Ordered(w: Wall)
  {
    w.x1 <= w.x2 && w.y1 <= w.y2
  }

  /** add_wall's drop test: both extents below the tolerance (a point). */
  predicate IsPointLike(x1: real, y1: real, x2: real, y2: real)
  {
    Abs(x1 - x2) < ZeroTolerance && Abs(y1 - y2) < ZeroTolerance
  }

  /** simulatePath's pre-filter: some extent strictly above the tolerance. */
  predicate HasExtent(w: Wall)
  {
    Abs(w.x1 - w.x2) > ZeroTolerance || Abs(w.y1 - w.y2) > ZeroTolerance
  }

  /** The wall add_wall stores for the given corners. */
  function Normalized(x1: real, y1: real, x2: real, y2: real, b: WallBehavior): (w: Wall)
    ensures Ordered(w) && w.behavior == b
    ensures (w.x1, w.x2) == (x1, x2) || (w.x1, w.x2) == (x2, x1)
    ensures (w.y1, w.y2) == (y1, y2) || (w.y1, w.y2) == (y2, y1)
  {
    Wall(Min(x1, x2), Min(y1, y2), Max(x1, x2), Max(y1, y2), b)
  }

  /** The store after add_wall(x1, y1, x2, y2, b). */
  function Insert(store: seq<Wall>, x1: real, y1: real, x2: real, y2: real, b: WallBehavior): (r: seq<Wall>)
    // only appends: every stored wall stays as it was
    ensures |store| <= |r| <= |store| + 1 && r[..|store|] == store
    ensures |r| == |store| + 1 <==> !IsPointLike(x1, y1, x2, y2)
    // what is appended is the wall with its corners ordered per axis
    ensures |r| == |store| + 1 ==> r[|store|] == Normalized(x1, y1, x2, y2, b)
    ensures |r| == |store| + 1 ==> Ordered(r[|store|]) && r[|store|].behavior == b
  {
    if IsPointLike(x1, y1, x2, y2) then store else store + [Normalized(x1, y1, x2, y2, b)]
  }

  /** The store simulatePath builds from a wall list: pre-filter, then add_wall. */
  function StoreAll(walls: seq<Wall>): (store: seq<Wall>)
    ensures |store| <= |walls|
    ensures forall i :: 0 <= i < |store| ==> Ordered(store[i]) && HasExtent(store[i])
  {
    if walls == [] then []
    else
      var rest := StoreAll(walls[..|walls| - 1]);
      var w := walls[|walls| - 1];
      if HasExtent(w) then Insert(rest, w.x1, w.y1, w.x2, w.y2, w.behavior) else rest
  }

  /** The store holds exactly the walls with extent, normalised: each such
      wall of the input is stored, and each stored wall comes from one. */
  lemma {:induction false} StoreAllExact(walls: seq<Wall>)
    ensures forall w :: w in walls && HasExtent(w) ==>
      Normalized(w.x1, w.y1, w.x2, w.y2, w.behavior) in StoreAll(walls)
    ensures forall v :: v in StoreAll(walls) ==>
      exists w :: w in walls && HasExtent(w) && v == Normalized(w.x1, w.y1, w.x2, w.y2, w.behavior)
  {
    if walls != [] {
      var init := walls[..|walls| - 1];
      var last := walls[|walls| - 1];
      StoreAllExact(init);
      assert walls == init + [last];
      var rest := StoreAll(init);
      if HasExtent(last) {
        PrefilterMakesDropTestRedundant(rest, last);
        assert StoreAll(walls) == rest + [Normalized(last.x1, last.y1, last.x2, last.y2, last.behavior)];
      } else {
        assert StoreAll(walls) == rest;
      }
      forall w | w in walls && HasExtent(w)
        ensures Normalized(w.x1, w.y1, w.x2, w.y2, w.behavior) in StoreAll(walls)
      {
        if w != last {
          assert w in init;
        }
      }
      forall v | v in StoreAll(walls)
        ensures exists w :: w in walls && HasExtent(w) && v == Normalized(w.x1, w.y1, w.x2, w.y2, w.behavior)
      {
        if v in rest {
          var w :| w in init && HasExtent(w) && v == Normalized(w.x1, w.y1, w.x2, w.y2, w.behavior);
          assert w in walls;
        } else {
          assert last in walls;
        }
      }
    }
  }

  /** After the pre-filter, add_wall's own drop test never fires: every wall
      that passes is stored, normalised. */
  lemma PrefilterMakesDropTestRedundant(store: seq<Wall>, w: Wall)
    requires HasExtent(w)
    ensures Insert(store, w.x1, w.y1, w.x2, w.y2, w.behavior)
         == store + [Normalized(w.x1, w.y1, w.x2, w.y2, w.behavior)]
  {
  }

  /** A wall without extent, wherever it stands in the list, does not change
      the stored walls (and so not the simulated path). */
  lemma {:induction false} PointWallIgnored(before: seq<Wall>, w: Wall, after: seq<Wall>)
    requires !HasExtent(w)
    ensures StoreAll(before + [w] + after) == StoreAll(before + after)
  {
    if after == [] {
      assert (before + [w] + after)[..|before + [w] + after| - 1] == before;
      assert before + after == before;
    } else {
      var a' := after[..|after| - 1];
      var last := after[|after| - 1];
      PointWallIgnored(before, w, a');
      assert (before + [w] + after)[..|before + [w] + after| - 1] == before + [w] + a';
      assert (before + after)[..|before + after| - 1] == before + a';
    }
  }
}
