/** Event resolution of one inner step of simulate: the earliest distances,
    the batching rule, the tie set, the averaged impact point and the
    aggregate effect with its precedence STOP over REFLECT over PASS_THROUGH. */
module Resolve {

  import opened Wrappers
  import opened Walls
  import opened RayCast

  predicate IsPass(h: SideHit) { h.behavior == PassThrough }

  /** The earliest distance among the pass-through candidates (pass) or
      among the blocking, REFLECT or STOP, candidates (!pass); None stands
      for the source's infinity. */
  function Earliest(cands: seq<SideHit>, pass: bool): (r: Option<real>)
    ensures r.None? <==> forall i :: 0 <= i < |cands| ==> IsPass(cands[i]) != pass
    ensures r.Some? ==> exists i :: 0 <= i < |cands| && IsPass(cands[i]) == pass && cands[i].dist == r.value
    ensures r.Some? ==> forall i :: 0 <= i < |cands| && IsPass(cands[i]) == pass ==> r.value <= cands[i].dist
  {
    if |cands| == 0 then None
    else
      var init := cands[..|cands| - 1];
      var rest := Earliest(init, pass);
      var h := cands[|cands| - 1];
      assert forall i :: 0 <= i < |init| ==> init[i] == cands[i];
      if IsPass(h) == pass && (rest.None? || h.dist < rest.value) then Some(h.dist) else rest
  }

  /** The first loop over the candidates: s_np_min and s_p_min. */
  method EarliestDistances(cands: seq<SideHit>) returns (sNonPass: Option<real>, sPass: Option<real>)
    ensures sNonPass == Earliest(cands, false) && sPass == Earliest(cands, true)
  {
    sNonPass, sPass := None, None;
    for i := 0 to |cands|
      invariant sNonPass == Earliest(cands[..i], false) && sPass == Earliest(cands[..i], true)
    {
      var h := cands[i];
      if h.behavior == PassThrough {
        if sPass.None? || h.dist < sPass.value { sPass := Some(h.dist); }
      } else {
        if sNonPass.None? || h.dist < sNonPass.value { sNonPass := Some(h.dist); }
      }
      assert cands[..i + 1][..i] == cands[..i];
    }
    assert cands[..|cands|] == cands;
  }

  /** d is earlier than every blocking candidate by more than epsTie. */
  predicate AheadOfBlocking(cands: seq<SideHit>, d: real, epsTie: real)
  {
    forall j :: 0 <= j < |cands| && !IsPass(cands[j]) ==> d + epsTie < cands[j].dist
  }

  /** Some pass-through candidate is earlier than every blocking one by more than epsTie. */
  predicate PassAhead(cands: seq<SideHit>, epsTie: real)
  {
    exists i :: 0 <= i < |cands| && IsPass(cands[i]) && AheadOfBlocking(cands, cands[i].dist, epsTie)
  }

  /** The resolved event distance s_min. With a blocking candidate ahead, at
      most one pass-through is taken before it: the earliest pass-through is
      chosen only if none has been recorded yet in this tick and it is
      earlier than the earliest blocking hit by more than epsTie. */
  function ResolvedDistance(cands: seq<SideHit>, recordedPass: bool, epsTie: real): (r: Option<real>)
    requires epsTie >= 0.0
    ensures r.None? <==> |cands| == 0
    ensures r.Some? ==> exists i :: 0 <= i < |cands| && cands[i].dist == r.value
    // a blocking hit is never jumped over
    ensures r.Some? ==> forall i :: 0 <= i < |cands| && !IsPass(cands[i]) ==> r.value <= cands[i].dist
    // once a pass-through is recorded, the next event is the blocking hit
    ensures r.Some? && recordedPass && (exists i :: 0 <= i < |cands| && !IsPass(cands[i])) ==>
      exists i :: 0 <= i < |cands| && !IsPass(cands[i]) && cands[i].dist == r.value
    // with no blocking candidate, the earliest pass-through
    ensures r.Some? && (forall i :: 0 <= i < |cands| ==> IsPass(cands[i])) ==>
      forall i :: 0 <= i < |cands| ==> r.value <= cands[i].dist
    // a pass-through well ahead of every blocking hit, none recorded yet: it is taken
    ensures r.Some? && !recordedPass && PassAhead(cands, epsTie) ==>
      (exists i :: 0 <= i < |cands| && IsPass(cands[i]) && cands[i].dist == r.value)
      && forall i :: 0 <= i < |cands| && IsPass(cands[i]) ==> r.value <= cands[i].dist
    // otherwise, with a blocking candidate present, the earliest blocking hit
    ensures (exists i :: 0 <= i < |cands| && !IsPass(cands[i])) && (recordedPass || !PassAhead(cands, epsTie)) ==>
      r == Earliest(cands, false)
  {
    var np := Earliest(cands, false);
    var p := Earliest(cands, true);
    if np.Some? then
      if !recordedPass && p.Some? && p.value + epsTie < np.value then p else np
    else p
  }

  /** The simultaneous-hit set: every candidate within epsTie of s, in
      candidate order. */
  function TieSet(cands: seq<SideHit>, s: real, epsTie: real): (r: seq<SideHit>)
    ensures forall h :: h in r <==> h in cands && Abs(h.dist - s) <= epsTie
    // each tying hit is kept as often as it occurs, the others never
    ensures forall h :: multiset(r)[h] == if Abs(h.dist - s) <= epsTie then multiset(cands)[h] else 0
    ensures multiset(r) <= multiset(cands) && |r| <= |cands|
  {
    if |cands| == 0 then []
    else
      var rest := TieSet(cands[..|cands| - 1], s, epsTie);
      var h := cands[|cands| - 1];
      assert cands == cands[..|cands| - 1] + [h];
      if Abs(h.dist - s) <= epsTie then rest + [h] else rest
  }

  /** The second loop over the candidates: collect the hits that tie with s. */
  method CollectTies(cands: seq<SideHit>, s: real, epsTie: real) returns (hits: seq<SideHit>)
    ensures hits == TieSet(cands, s, epsTie)
  {
    hits := [];
    for i := 0 to |cands|
      invariant hits == TieSet(cands[..i], s, epsTie)
    {
      if Abs(cands[i].dist - s) <= epsTie { hits := hits + [cands[i]]; }
      assert cands[..i + 1][..i] == cands[..i];
    }
    assert cands[..|cands|] == cands;
  }

  /** The tie set of the resolved distance is never empty, so the average
      below never divides by zero. */
  lemma TieSetOfResolvedNonEmpty(cands: seq<SideHit>, recordedPass: bool, epsTie: real)
    requires |cands| > 0 && epsTie >= 0.0
    ensures ResolvedDistance(cands, recordedPass, epsTie).Some?
    ensures |TieSet(cands, ResolvedDistance(cands, recordedPass, epsTie).value, epsTie)| > 0
  {
    var s := ResolvedDistance(cands, recordedPass, epsTie).value;
    var i :| 0 <= i < |cands| && cands[i].dist == s;
    assert cands[i] in TieSet(cands, s, epsTie);
  }

  function SumX(hits: seq<SideHit>): real
  {
    if |hits| == 0 then 0.0 else SumX(hits[..|hits| - 1]) + hits[|hits| - 1].x
  }

  function SumY(hits: seq<SideHit>): real
  {
    if |hits| == 0 then 0.0 else SumY(hits[..|hits| - 1]) + hits[|hits| - 1].y
  }

  /** All the hits lie at one point. */
  predicate Coincident(hits: seq<SideHit>)
    requires |hits| > 0
  {
    forall i :: 0 <= i < |hits| ==> hits[i].x == hits[0].x && hits[i].y == hits[0].y
  }

  /** The impact point: the coordinate-wise average of the tied hits. */
  function ImpactPoint(hits: seq<SideHit>): (r: Point)
    requires |hits| > 0
    // a single hit, or hits at one corner, give that point itself
    ensures Coincident(hits) ==> r == Point(hits[0].x, hits[0].y)
  {
    CoincidentSums(hits);
    Point(SumX(hits) / (|hits| as real), SumY(hits) / (|hits| as real))
  }

  lemma {:induction false} CoincidentSums(hits: seq<SideHit>)
    requires |hits| > 0
    ensures Coincident(hits) ==>
      SumX(hits) == (|hits| as real) * hits[0].x && SumY(hits) == (|hits| as real) * hits[0].y
  {
    if Coincident(hits) {
      ConstantSums(hits, hits[0].x, hits[0].y);
    }
  }

  lemma {:induction false} ConstantSums(hits: seq<SideHit>, x: real, y: real)
    requires forall i :: 0 <= i < |hits| ==> hits[i].x == x && hits[i].y == y
    ensures SumX(hits) == (|hits| as real) * x && SumY(hits) == (|hits| as real) * y
  {
    if |hits| > 0 {
      var init := hits[..|hits| - 1];
      assert forall i :: 0 <= i < |init| ==> init[i] == hits[i];
      ConstantSums(init, x, y);
      var k := |init| as real;
      assert (k + 1.0) * x == k * x + x && (k + 1.0) * y == k * y + y;
    }
  }

  /** The loop that sums the impact points, and the division. */
  method AverageImpact(hits: seq<SideHit>) returns (ix: real, iy: real)
    requires |hits| > 0
    ensures Point(ix, iy) == ImpactPoint(hits)
  {
    ix, iy := 0.0, 0.0;
    for i := 0 to |hits|
      invariant ix == SumX(hits[..i]) && iy == SumY(hits[..i])
    {
      ix, iy := ix + hits[i].x, iy + hits[i].y;
      assert hits[..i + 1][..i] == hits[..i];
    }
    assert hits[..|hits|] == hits;
    ix := ix / (|hits| as real);
    iy := iy / (|hits| as real);
  }

  lemma {:induction false} SumXBounds(hits: seq<SideHit>, lo: real, hi: real)
    requires forall i :: 0 <= i < |hits| ==> lo <= hits[i].x <= hi
    ensures (|hits| as real) * lo <= SumX(hits) <= (|hits| as real) * hi
  {
    if |hits| > 0 {
      var init := hits[..|hits| - 1];
      assert forall i :: 0 <= i < |init| ==> init[i] == hits[i];
      SumXBounds(init, lo, hi);
      var k := |init| as real;
      var a := SumX(init);
      var v := hits[|hits| - 1].x;
      assert k * lo <= a <= k * hi;
      assert lo <= v <= hi;
      assert SumX(hits) == a + v;
      assert |hits| as real == k + 1.0;
      assert (k + 1.0) * lo == k * lo + lo && (k + 1.0) * hi == k * hi + hi;
    }
  }

  lemma {:induction false} SumYBounds(hits: seq<SideHit>, lo: real, hi: real)
    requires forall i :: 0 <= i < |hits| ==> lo <= hits[i].y <= hi
    ensures (|hits| as real) * lo <= SumY(hits) <= (|hits| as real) * hi
  {
    if |hits| > 0 {
      var init := hits[..|hits| - 1];
      assert forall i :: 0 <= i < |init| ==> init[i] == hits[i];
      SumYBounds(init, lo, hi);
      var k := |init| as real;
      var a := SumY(init);
      var v := hits[|hits| - 1].y;
      assert k * lo <= a <= k * hi;
      assert lo <= v <= hi;
      assert SumY(hits) == a + v;
      assert |hits| as real == k + 1.0;
      assert (k + 1.0) * lo == k * lo + lo && (k + 1.0) * hi == k * hi + hi;
    }
  }

  lemma QuotientBounds(sum: real, k: real, lo: real, hi: real)
    requires k > 0.0 && k * lo <= sum <= k * hi
    ensures lo <= sum / k <= hi
  {
    assert (sum / k) * k == sum;
  }

  /** The averaged impact point lies in the bounding box of the tied hits;
      in particular, hits on one face (all with the same x, or the same y)
      average to a point on that face. */
  lemma ImpactWithinHits(hits: seq<SideHit>, xlo: real, xhi: real, ylo: real, yhi: real)
    requires |hits| > 0
    requires forall i :: 0 <= i < |hits| ==> xlo <= hits[i].x <= xhi && ylo <= hits[i].y <= yhi
    ensures xlo <= ImpactPoint(hits).x <= xhi && ylo <= ImpactPoint(hits).y <= yhi
  {
    ImpactXWithin(hits, xlo, xhi);
    ImpactYWithin(hits, ylo, yhi);
  }

  lemma ImpactXWithin(hits: seq<SideHit>, lo: real, hi: real)
    requires |hits| > 0
    requires forall i :: 0 <= i < |hits| ==> lo <= hits[i].x <= hi
    ensures lo <= ImpactPoint(hits).x <= hi
  {
    var k := |hits| as real;
    SumXBounds(hits, lo, hi);
    QuotientBounds(SumX(hits), k, lo, hi);
  }

  lemma ImpactYWithin(hits: seq<SideHit>, lo: real, hi: real)
    requires |hits| > 0
    requires forall i :: 0 <= i < |hits| ==> lo <= hits[i].y <= hi
    ensures lo <= ImpactPoint(hits).y <= hi
  {
    var k := |hits| as real;
    SumYBounds(hits, lo, hi);
    QuotientBounds(SumY(hits), k, lo, hi);
  }

  /** What the tied hits do: stop, and reflect on the x axis (a vertical
      face) and/or the y axis (a horizontal face). */
  datatype Effect = Effect(stop: bool, reflectV: bool, reflectH: bool)

  /** The precedence loop: a STOP hit sets stop; a REFLECT hit sets the
      axis of its face; a PASS_THROUGH hit sets nothing. */
  function AggregateEffect(hits: seq<SideHit>): (e: Effect)
    ensures e.stop <==> exists i :: 0 <= i < |hits| && hits[i].behavior == Stop
    ensures e.reflectV <==> exists i :: 0 <= i < |hits| && hits[i].behavior == Reflect && hits[i].vertical
    ensures e.reflectH <==> exists i :: 0 <= i < |hits| && hits[i].behavior == Reflect && hits[i].horizontal
  {
    if |hits| == 0 then Effect(false, false, false)
    else
      var init := hits[..|hits| - 1];
      var e := AggregateEffect(init);
      var h := hits[|hits| - 1];
      assert forall i :: 0 <= i < |init| ==> init[i] == hits[i];
      if h.behavior == Stop then e.(stop := true)
      else if h.behavior == Reflect then Effect(e.stop, e.reflectV || h.vertical, e.reflectH || h.horizontal)
      else e
  }

  /** The source's loop computing anyStop, anyReflectV and anyReflectH. */
  method ComputeEffect(hits: seq<SideHit>) returns (e: Effect)
    ensures e == AggregateEffect(hits)
  {
    var anyStop, anyReflectV, anyReflectH := false, false, false;
    for i := 0 to |hits|
      invariant Effect(anyStop, anyReflectV, anyReflectH) == AggregateEffect(hits[..i])
    {
      var h := hits[i];
      if h.behavior == Stop {
        anyStop := true;
      } else if h.behavior == Reflect {
        if h.vertical { anyReflectV := true; }
        if h.horizontal { anyReflectH := true; }
      }
      assert hits[..i + 1][..i] == hits[..i];
    }
    assert hits[..|hits|] == hits;
    e := Effect(anyStop, anyReflectV, anyReflectH);
  }
}
