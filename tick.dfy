/** The state machine of simulate: one pass of the inner loop (InnerStep),
    one tick (RunTick), the outer loop over ticks (RunTicks), the final
    near-duplicate test (FinalPath) and the whole run (Trace). The loop
    counters max_outer and max_inner_per_tick are the fuel of RunTicks and
    RunTick. */
module Tick {

  import opened Wrappers
  import opened Walls
  import opened RayCast
  import opened Resolve

  /** std::numeric_limits<double>::epsilon(), 2^-52. */
  const MachineEpsilon: real := 1.0 / 4503599627370496.0

  /** The cap on events in one tick. */
  const MaxInnerPerTick: nat := 256

  /** Tolerance below which a direction component counts as zero. */
  const EpsDir: real := 64.0 * MachineEpsilon

  /** The smallest travel distance that counts as movement. */
  function EpsD(speed: real): real { 64.0 * MachineEpsilon * (1.0 + speed) }

  /** Distance within which two hits are simultaneous. */
  function EpsTie(speed: real): real { 128.0 * MachineEpsilon * (1.0 + speed) }

  /** The nudge off a face after an event. */
  function EpsPush(speed: real): real { 1024.0 * MachineEpsilon * (1.0 + speed) }

  /** std::ceil on reals. */
  function Ceil(x: real): (r: int)
    ensures (r - 1) as real < x <= r as real
  {
    -((-x).Floor)
  }

  /** The number of ticks the outer loop may run: ceil(budget / speed) + 2,
      with the speed clamped below by 1e-12. */
  function MaxOuter(budget: real, speed: real): (r: nat)
    requires budget >= 0.0
    ensures r >= 2
  {
    Ceil(budget / Max(ZeroTolerance, speed)) + 2
  }

  /** Two ticks beyond the ceiling: MaxOuter - 2 ticks of the clamped speed
      are the fewest that cover the budget. */
  lemma MaxOuterBounds(budget: real, speed: real)
    requires budget >= 0.0
    ensures var r := MaxOuter(budget, speed);
      ((r - 3) as real) * Max(ZeroTolerance, speed) < budget <= ((r - 2) as real) * Max(ZeroTolerance, speed)
  {
    var c := Max(ZeroTolerance, speed);
    var q := budget / c;
    assert q * c == budget;
    var k := Ceil(q);
    assert (k - 1) as real < q <= k as real;
    assert ((k - 1) as real) * c < q * c;
    assert q * c <= (k as real) * c;
    var r: int := MaxOuter(budget, speed);
    assert r == k + 2;
    assert ((r - 3) as real) * c == ((k - 1) as real) * c;
    assert ((r - 2) as real) * c == (k as real) * c;
  }

  /** The coordinate reached from p after travelling t along direction
      component d. */
  function Travel(p: real, d: real, t: real): real { p + d * t }

  /** The loop variables of simulate: position, direction, the remaining
      budget, the rest of the current tick and the batching flag. */
  datatype Mover = Mover(px: real, py: real, dx: real, dy: real,
                         budget: real, inTick: real, recordedPass: bool)

  /** scale_now: the magnitude of the coordinates at the current position
      and one tick (at least one unit) ahead. */
  function ScaleNow(m: Mover, speed: real): real
  {
    var reach := Max(1.0, speed);
    ScaleFor(m.px, m.py, Travel(m.px, m.dx, reach), Travel(m.py, m.dy, reach))
  }

  /** The face tolerances of the current inner step. */
  function TolerancesAt(m: Mover, speed: real): (tol: FaceTolerances)
    requires speed >= 0.0
    ensures ValidTolerances(tol) && tol.epsD == EpsD(speed)
  {
    FaceTolerances(EpsDir, 64.0 * MachineEpsilon * ScaleNow(m, speed), EpsD(speed))
  }

  /** The hits within the rest of this tick. */
  function CandidatesAt(walls: seq<Wall>, speed: real, m: Mover): seq<SideHit>
    requires speed >= 0.0
  {
    Candidates(walls, m.px, m.py, m.dx, m.dy, m.inTick, TolerancesAt(m, speed))
  }

  /** s_min: the distance of the next event among non-empty candidates. */
  function EventDistance(cands: seq<SideHit>, speed: real, recordedPass: bool): real
    requires |cands| > 0 && speed >= 0.0
  {
    TieSetOfResolvedNonEmpty(cands, recordedPass, EpsTie(speed));
    ResolvedDistance(cands, recordedPass, EpsTie(speed)).value
  }

  /** The hits that make up the next event: those simultaneous with the
      resolved distance. */
  function EventTies(cands: seq<SideHit>, speed: real, recordedPass: bool): (r: seq<SideHit>)
    requires |cands| > 0 && speed >= 0.0
    ensures |r| > 0
  {
    TieSetOfResolvedNonEmpty(cands, recordedPass, EpsTie(speed));
    TieSet(cands, EventDistance(cands, speed, recordedPass), EpsTie(speed))
  }

  /** The simultaneous hits of the next pass (empty when there is no candidate). */
  function Ties(walls: seq<Wall>, speed: real, m: Mover): (r: seq<SideHit>)
    requires speed >= 0.0
    ensures |r| > 0 <==> |CandidatesAt(walls, speed, m)| > 0
  {
    var cands := CandidatesAt(walls, speed, m);
    if |cands| == 0 then [] else EventTies(cands, speed, m.recordedPass)
  }

  /** The result of one pass of the inner loop: the tick ends without a
      vertex (Drift), the run ends at a STOP vertex (Halt), or an event
      vertex is recorded and the loop goes on (Event). */
  datatype Step = Drift(m: Mover) | Halt(p: Point) | Event(p: Point, m: Mover)

  /** The loop variables after an event that does not stop the run: the
      reflections, the consumed distance, the batching flag and the nudge
      off the face when the tick and the budget go on. */
  function AfterEvent(m: Mover, p: Point, e: Effect, used: real, speed: real): (r: Mover)
    // a reflection flips a component's sign, so the speed along the path is kept
    ensures Abs(r.dx) == Abs(m.dx) && Abs(r.dy) == Abs(m.dy)
    ensures r.dx * r.dx + r.dy * r.dy == m.dx * m.dx + m.dy * m.dy
    // the distance travelled comes off both the tick and the budget
    ensures r.budget == m.budget - used && r.inTick == m.inTick - used
    // only a pure pass-through keeps the batching flag set
    ensures r.recordedPass <==> !(e.stop || e.reflectV || e.reflectH)
    // the new position is the vertex, nudged along the new direction while the tick and the budget go on
    ensures if m.inTick - used > 10.0 * EpsD(speed) && m.budget - used > 10.0 * EpsD(speed)
            then r.px == Travel(p.x, r.dx, EpsPush(speed)) && r.py == Travel(p.y, r.dy, EpsPush(speed))
            else r.px == p.x && r.py == p.y
  {
    var dx := if e.reflectV then -m.dx else m.dx;
    var dy := if e.reflectH then -m.dy else m.dy;
    var next := Mover(p.x, p.y, dx, dy, m.budget - used, m.inTick - used, !(e.stop || e.reflectV || e.reflectH));
    if next.inTick > 10.0 * EpsD(speed) && next.budget > 10.0 * EpsD(speed) then
      next.(px := Travel(p.x, dx, EpsPush(speed)), py := Travel(p.y, dy, EpsPush(speed)))
    else next
  }

  /** One pass of the inner loop when there are candidates. */
  function EventStep(cands: seq<SideHit>, speed: real, m: Mover): (r: Step)
    requires |cands| > 0 && speed >= 0.0
    // every event records a vertex at the average of its tied hits
    ensures !r.Drift? && r.p == ImpactPoint(EventTies(cands, speed, m.recordedPass))
  {
    var s := EventDistance(cands, speed, m.recordedPass);
    var hits := EventTies(cands, speed, m.recordedPass);
    var p := ImpactPoint(hits);
    var e := AggregateEffect(hits);
    if e.stop then Halt(p) else Event(p, AfterEvent(m, p, e, Min(s, m.inTick), speed))
  }

  /** One pass of the inner loop. */
  function InnerStep(walls: seq<Wall>, speed: real, m: Mover): (r: Step)
    requires speed >= 0.0
    // the tick ends without a vertex exactly when nothing is hit in its rest
    ensures r.Drift? <==> |CandidatesAt(walls, speed, m)| == 0
    // then the rest of the tick is used up, keeping direction and flag
    ensures r.Drift? ==>
      && r.m.inTick == 0.0 && r.m.budget == m.budget - m.inTick
      && r.m.dx == m.dx && r.m.dy == m.dy && r.m.recordedPass == m.recordedPass
    // a tiny remainder is swallowed in place; otherwise the point flies the rest of the tick
    ensures r.Drift? ==>
      if m.inTick <= EpsD(speed) then r.m.px == m.px && r.m.py == m.py
      else r.m.px == Travel(m.px, m.dx, m.inTick) && r.m.py == Travel(m.py, m.dy, m.inTick)
    ensures !r.Drift? ==> r == EventStep(CandidatesAt(walls, speed, m), speed, m)
  {
    var cands := CandidatesAt(walls, speed, m);
    if |cands| == 0 then
      if m.inTick <= EpsD(speed) then Drift(m.(budget := m.budget - m.inTick, inTick := 0.0))
      else Drift(Mover(Travel(m.px, m.dx, m.inTick), Travel(m.py, m.dy, m.inTick), m.dx, m.dy,
                       m.budget - m.inTick, 0.0, m.recordedPass))
    else EventStep(cands, speed, m)
  }

  /** s_min from the two earliest distances. */
  method ResolveDistance(cands: seq<SideHit>, recordedPass: bool, epsTie: real) returns (sMin: real)
    requires |cands| > 0 && epsTie >= 0.0
    ensures ResolvedDistance(cands, recordedPass, epsTie) == Some(sMin)
  {
    var sNonPass, sPass := EarliestDistances(cands);
    if sNonPass.Some? {
      if !recordedPass && sPass.Some? && sPass.value + epsTie < sNonPass.value {
        sMin := sPass.value;
      } else {
        sMin := sNonPass.value;
      }
    } else {
      assert IsPass(cands[0]);
      sMin := sPass.value;
    }
  }

  /** The part of the inner loop's body after the candidates are gathered. */
  method ResolveEvent(cands: seq<SideHit>, speed: real, m: Mover) returns (r: Step)
    requires |cands| > 0 && speed >= 0.0
    ensures r == EventStep(cands, speed, m)
  {
    var epsTie := EpsTie(speed);
    var sMin := ResolveDistance(cands, m.recordedPass, epsTie);
    var hits := CollectTies(cands, sMin, epsTie);
    TieSetOfResolvedNonEmpty(cands, m.recordedPass, epsTie);
    var ix, iy := AverageImpact(hits);
    var used := Min(sMin, m.inTick);
    var e := ComputeEffect(hits);
    if e.stop {
      return Halt(Point(ix, iy));
    }
    var next := ApplyEvent(m, Point(ix, iy), e, used, speed);
    return Event(Point(ix, iy), next);
  }

  /** The end of the inner loop's body: reflect, update the batching flag,
      and nudge off the face when the run goes on within this tick. */
  method ApplyEvent(m: Mover, p: Point, e: Effect, used: real, speed: real) returns (next: Mover)
    ensures next == AfterEvent(m, p, e, used, speed)
  {
    var epsD := EpsD(speed);
    var epsPush := EpsPush(speed);
    var dx, dy := m.dx, m.dy;
    if e.reflectV { dx := -dx; }
    if e.reflectH { dy := -dy; }
    var inTick := m.inTick - used;
    var budget := m.budget - used;
    var recordedPass := true;
    if e.stop || e.reflectV || e.reflectH { recordedPass := false; }
    var px, py := p.x, p.y;
    if inTick > 10.0 * epsD && budget > 10.0 * epsD {
      px := Travel(px, dx, epsPush);
      py := Travel(py, dy, epsPush);
    }
    next := Mover(px, py, dx, dy, budget, inTick, recordedPass);
  }

  /** The body of the inner loop of simulate. */
  method AdvanceStep(walls: seq<Wall>, speed: real, m: Mover) returns (r: Step)
    requires speed >= 0.0
    ensures r == InnerStep(walls, speed, m)
  {
    var tol := TolerancesAt(m, speed);
    var cands := GatherCandidates(walls, m.px, m.py, m.dx, m.dy, m.inTick, tol);
    if |cands| == 0 {
      if m.inTick <= tol.epsD {
        return Drift(m.(budget := m.budget - m.inTick, inTick := 0.0));
      }
      return Drift(Mover(Travel(m.px, m.dx, m.inTick), Travel(m.py, m.dy, m.inTick), m.dx, m.dy,
                         m.budget - m.inTick, 0.0, m.recordedPass));
    }
    r := ResolveEvent(cands, speed, m);
  }

  /** A run either goes on with the loop variables and the path so far, or
      has ended at a STOP vertex. */
  datatype Outcome = Running(m: Mover, path: seq<Point>) | Stopped(path: seq<Point>)

  /** The body of the inner loop as a function of the loop variables. */
  function StepFn(walls: seq<Wall>, speed: real): Mover -> Step
    requires speed >= 0.0
  {
    m => InnerStep(walls, speed, m)
  }

  /** The inner loop of one tick, with at most fuel passes of pass. */
  function RunTick(pass: Mover -> Step, m: Mover, path: seq<Point>, fuel: nat): Outcome
    decreases fuel, 0
  {
    if fuel == 0 || m.inTick <= 0.0 then Running(m, path)
    else AfterStep(pass, pass(m), path, fuel - 1)
  }

  /** What follows a pass: the tick ends after a drift, the run after a
      STOP, and an event vertex is appended before the next pass. */
  function AfterStep(pass: Mover -> Step, step: Step, path: seq<Point>, fuel: nat): Outcome
    decreases fuel, 1
  {
    match step
    case Drift(next) => Running(next, path)
    case Halt(p) => Stopped(path + [p])
    case Event(p, next) => RunTick(pass, next, path + [p], fuel)
  }

  /** One pass of RunTick: the step decides whether the tick goes on. */
  lemma PassUnfolds(pass: Mover -> Step, m: Mover, path: seq<Point>, fuel: nat, rest: nat)
    requires fuel == rest + 1 && m.inTick > 0.0
    ensures RunTick(pass, m, path, fuel) == AfterStep(pass, pass(m), path, rest)
  {
  }

  /** The inner loop of simulate: at most innerCap passes while the
      tick has distance left; a STOP vertex ends the run. */
  method RunTickLoop(walls: seq<Wall>, speed: real, m: Mover, path: seq<Point>, innerCap: nat) returns (o: Outcome)
    requires speed >= 0.0
    ensures o == RunTick(StepFn(walls, speed), m, path, innerCap)
  {
    ghost var pass := StepFn(walls, speed);
    var cur, vertices := m, path;
    ghost var target := RunTick(pass, m, path, innerCap);
    ghost var left: nat := innerCap;
    var inner := 0;
    while inner < innerCap && cur.inTick > 0.0
      invariant 0 <= inner <= innerCap && left == innerCap - inner
      invariant RunTick(pass, cur, vertices, left) == target
      decreases innerCap - inner
    {
      ghost var rest: nat := left - 1;
      PassUnfolds(pass, cur, vertices, left, rest);
      var step := AdvanceStep(walls, speed, cur);
      assert step == pass(cur);
      match step
      case Drift(next) =>
        return Running(next, vertices);
      case Halt(p) =>
        return Stopped(vertices + [p]);
      case Event(p, next) =>
        vertices := vertices + [p];
        cur := next;
        inner, left := inner + 1, rest;
    }
    return Running(cur, vertices);
  }

  /** The loop variables at the start of a tick: the batching flag is
      reset and the tick grants min(speed, remaining budget) of travel. */
  function TickStart(m: Mover, speed: real): (r: Mover)
    // the tick grants the speed, or whatever budget is left if that is less
    ensures r.inTick <= speed && r.inTick <= m.budget && (r.inTick == speed || r.inTick == m.budget)
    // the batching flag starts cleared; position, direction and budget carry over
    ensures !r.recordedPass && r.(recordedPass := m.recordedPass, inTick := m.inTick) == m
  {
    m.(recordedPass := false, inTick := Min(speed, m.budget))
  }

  /** The outer loop: at most fuel ticks while budget remains, each from
      TickStart with at most innerCap passes. */
  function RunTicks(pass: Mover -> Step, speed: real, m: Mover, path: seq<Point>, fuel: nat, innerCap: nat): Outcome
    decreases fuel, 0
  {
    if fuel == 0 || m.budget <= 0.0 then Running(m, path)
    else AfterTick(pass, speed, RunTick(pass, TickStart(m, speed), path, innerCap), fuel - 1, innerCap)
  }

  /** What follows a tick: nothing after a stop, otherwise the remaining ticks. */
  function AfterTick(pass: Mover -> Step, speed: real, tick: Outcome, fuel: nat, innerCap: nat): Outcome
    decreases fuel, 1
  {
    match tick
    case Stopped(p) => Stopped(p)
    case Running(next, p) => RunTicks(pass, speed, next, p, fuel, innerCap)
  }

  /** One tick of RunTicks. */
  lemma TickUnfolds(pass: Mover -> Step, speed: real, m: Mover, path: seq<Point>, fuel: nat, rest: nat, innerCap: nat)
    requires fuel == rest + 1 && m.budget > 0.0
    ensures RunTicks(pass, speed, m, path, fuel, innerCap)
            == AfterTick(pass, speed, RunTick(pass, TickStart(m, speed), path, innerCap), rest, innerCap)
  {
  }

  /** The outer loop of simulate: at most fuel ticks while budget remains;
      each tick resets the batching flag and grants min(speed, budget). */
  method RunTicksLoop(walls: seq<Wall>, speed: real, m: Mover, path: seq<Point>, fuel: nat, innerCap: nat)
    returns (o: Outcome)
    requires speed >= 0.0
    ensures o == RunTicks(StepFn(walls, speed), speed, m, path, fuel, innerCap)
  {
    ghost var pass := StepFn(walls, speed);
    var cur, vertices := m, path;
    ghost var target := RunTicks(pass, speed, m, path, fuel, innerCap);
    ghost var left: nat := fuel;
    var outer := 0;
    while outer < fuel && cur.budget > 0.0
      invariant 0 <= outer <= fuel && left == fuel - outer
      invariant RunTicks(pass, speed, cur, vertices, left, innerCap) == target
      decreases fuel - outer
    {
      var tick := RunTickLoop(walls, speed, TickStart(cur, speed), vertices, innerCap);
      ghost var rest: nat := left - 1;
      TickUnfolds(pass, speed, cur, vertices, left, rest, innerCap);
      if tick.Stopped? {
        return tick;
      }
      cur, vertices := tick.m, tick.path;
      outer, left := outer + 1, rest;
    }
    return Running(cur, vertices);
  }

  /** eps_out: how far the final position must be from the last vertex to
      be appended. */
  function EpsOut(px: real, py: real, speed: real): (r: real)
    // at least 64 ulps of the position's magnitude and sixteen nudges
    ensures r >= 64.0 * MachineEpsilon * ScaleFor(px, py, px, py) && r >= 16.0 * EpsPush(speed)
    ensures r >= 64.0 * MachineEpsilon
  {
    Max(64.0 * MachineEpsilon * ScaleFor(px, py, px, py), 16.0 * EpsPush(speed))
  }

  /** The path with the final position appended unless it is a near
      duplicate of the last vertex. */
  function FinalPath(path: seq<Point>, px: real, py: real, speed: real): (r: seq<Point>)
    ensures |path| <= |r| <= |path| + 1 && |r| > 0 && r[..|path|] == path
    // the path ends near the final position, and at it when anything is appended
    ensures Abs(r[|r| - 1].x - px) <= EpsOut(px, py, speed) && Abs(r[|r| - 1].y - py) <= EpsOut(px, py, speed)
    ensures |r| == |path| + 1 ==> r[|path|] == Point(px, py)
    // a final position near the last vertex is swallowed
    ensures (&& |path| > 0
             && Abs(px - path[|path| - 1].x) <= EpsOut(px, py, speed)
             && Abs(py - path[|path| - 1].y) <= EpsOut(px, py, speed)) ==> r == path
    // and one that is not near it is appended
    ensures (|| |path| == 0
             || Abs(px - path[|path| - 1].x) > EpsOut(px, py, speed)
             || Abs(py - path[|path| - 1].y) > EpsOut(px, py, speed)) ==> r == path + [Point(px, py)]
  {
    if |path| == 0
       || Abs(px - path[|path| - 1].x) > EpsOut(px, py, speed)
       || Abs(py - path[|path| - 1].y) > EpsOut(px, py, speed)
    then path + [Point(px, py)]
    else path
  }

  /** The vertices simulate returns for a (normalised) direction. */
  function Trace(walls: seq<Wall>, speed: real, budget: real, start: Point, dir: Point): seq<Point>
    requires speed >= 0.0 && budget >= 0.0
  {
    var m := Mover(start.x, start.y, dir.x, dir.y, budget, 0.0, false);
    match RunTicks(StepFn(walls, speed), speed, m, [start], MaxOuter(budget, speed), MaxInnerPerTick)
    case Stopped(p) => p
    case Running(last, p) => FinalPath(p, last.px, last.py, speed)
  }
}
