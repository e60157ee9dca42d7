/** What one pass of the inner loop of simulate promises: a STOP among the
    simultaneous hits ends the run, REFLECT hits flip the struck axis,
    PASS_THROUGH hits leave the direction alone and set the batching flag,
    and the tick and the budget are consumed by the same distance. */
module TickProperties {

  import opened Wrappers
  import opened Walls
  import opened RayCast
  import opened Resolve
  import opened Tick

  /** Some simultaneous hit has the given behaviour (and, for REFLECT, the
      given face orientation). */
  predicate AnyStop(hits: seq<SideHit>)
  {
    exists i :: 0 <= i < |hits| && hits[i].behavior == Stop
  }

  predicate AnyReflectVertical(hits: seq<SideHit>)
  {
    exists i :: 0 <= i < |hits| && hits[i].behavior == Reflect && hits[i].vertical
  }

  predicate AnyReflectHorizontal(hits: seq<SideHit>)
  {
    exists i :: 0 <= i < |hits| && hits[i].behavior == Reflect && hits[i].horizontal
  }

  predicate AllPass(hits: seq<SideHit>)
  {
    forall i :: 0 <= i < |hits| ==> IsPass(hits[i])
  }

  /** A STOP among the simultaneous hits, and only a STOP, ends the run;
      either way the vertex is the average of the simultaneous impact points. */
  lemma EventStopRule(cands: seq<SideHit>, speed: real, m: Mover)
    requires |cands| > 0 && speed >= 0.0
    ensures EventStep(cands, speed, m).Halt? <==> AnyStop(EventTies(cands, speed, m.recordedPass))
    ensures EventStep(cands, speed, m).p == ImpactPoint(EventTies(cands, speed, m.recordedPass))
  {
  }

  /** After an event, a direction component is negated exactly when a
      simultaneous REFLECT hit struck a face across that axis. */
  lemma EventReflectionRule(cands: seq<SideHit>, speed: real, m: Mover)
    requires |cands| > 0 && speed >= 0.0
    ensures var step := EventStep(cands, speed, m);
      var hits := EventTies(cands, speed, m.recordedPass);
      step.Event? ==>
        && step.m.dx == (if AnyReflectVertical(hits) then -m.dx else m.dx)
        && step.m.dy == (if AnyReflectHorizontal(hits) then -m.dy else m.dy)
  {
    var hits := EventTies(cands, speed, m.recordedPass);
    var p := ImpactPoint(hits);
    var e := AggregateEffect(hits);
    if !e.stop {
      var next := AfterEvent(m, p, e, Min(EventDistance(cands, speed, m.recordedPass), m.inTick), speed);
      assert EventStep(cands, speed, m) == Event(p, next);
      assert next.dx == (if e.reflectV then -m.dx else m.dx);
      assert next.dy == (if e.reflectH then -m.dy else m.dy);
    }
  }

  /** After an event, the batching flag is set exactly when every
      simultaneous hit was a PASS_THROUGH, given that every candidate struck
      exactly one face orientation. */
  lemma EventBatchingRule(cands: seq<SideHit>, speed: real, m: Mover)
    requires |cands| > 0 && speed >= 0.0
    requires forall i :: 0 <= i < |cands| ==> cands[i].vertical != cands[i].horizontal
    ensures var step := EventStep(cands, speed, m);
      step.Event? ==> (step.m.recordedPass <==> AllPass(EventTies(cands, speed, m.recordedPass)))
  {
    var hits := EventTies(cands, speed, m.recordedPass);
    var p := ImpactPoint(hits);
    var e := AggregateEffect(hits);
    var next := AfterEvent(m, p, e, Min(EventDistance(cands, speed, m.recordedPass), m.inTick), speed);
    assert next.recordedPass <==> !(e.stop || e.reflectV || e.reflectH);
    if !e.stop {
      assert EventStep(cands, speed, m) == Event(p, next);
    }
    forall i | 0 <= i < |hits|
      ensures hits[i].vertical != hits[i].horizontal
    {
      assert hits[i] in cands;
      var k :| 0 <= k < |cands| && cands[k] == hits[i];
    }
  }

  /** An event consumes a positive distance no larger than the rest of the
      tick, and the same distance from the budget, given that every
      candidate lies beyond the minimal travel distance. */
  lemma EventConsumption(cands: seq<SideHit>, speed: real, m: Mover)
    requires |cands| > 0 && speed >= 0.0 && m.inTick > 0.0
    requires forall i :: 0 <= i < |cands| ==> cands[i].dist > EpsD(speed)
    ensures var step := EventStep(cands, speed, m);
      step.Event? ==>
        && 0.0 <= step.m.inTick < m.inTick
        && m.inTick - step.m.inTick == Min(EventDistance(cands, speed, m.recordedPass), m.inTick)
        && m.budget - step.m.budget == m.inTick - step.m.inTick
  {
    var hits := EventTies(cands, speed, m.recordedPass);
    var s := EventDistance(cands, speed, m.recordedPass);
    EventDistanceBeyond(cands, speed, m.recordedPass);
    var p := ImpactPoint(hits);
    var e := AggregateEffect(hits);
    if !e.stop {
      var used := Min(s, m.inTick);
      var next := AfterEvent(m, p, e, used, speed);
      assert EventStep(cands, speed, m) == Event(p, next);
      assert 0.0 < used <= m.inTick;
      assert next.inTick == m.inTick - used && next.budget == m.budget - used;
    }
  }

  /** The event distance is one of the candidates' distances, so it lies
      beyond eps_d when they all do. */
  lemma EventDistanceBeyond(cands: seq<SideHit>, speed: real, recordedPass: bool)
    requires |cands| > 0 && speed >= 0.0
    requires forall i :: 0 <= i < |cands| ==> cands[i].dist > EpsD(speed)
    ensures EventDistance(cands, speed, recordedPass) > EpsD(speed)
  {
    var s := EventDistance(cands, speed, recordedPass);
    var i :| 0 <= i < |cands| && cands[i].dist == s;
  }

  /** Every candidate of a pass struck one face orientation, beyond the
      minimal travel distance. */
  lemma CandidatesAtShape(walls: seq<Wall>, speed: real, m: Mover)
    requires speed >= 0.0
    ensures var c := CandidatesAt(walls, speed, m);
      forall i :: 0 <= i < |c| ==> c[i].vertical != c[i].horizontal && c[i].dist > EpsD(speed)
  {
    var c := CandidatesAt(walls, speed, m);
    CandidatesShape(walls, m.px, m.py, m.dx, m.dy, m.inTick, TolerancesAt(m, speed));
    assert forall i :: 0 <= i < |c| ==> c[i] in c;
  }

  /** A STOP among the simultaneous hits, and only a STOP, ends the run,
      and the vertex of a STOP or an event is the average of the
      simultaneous impact points. */
  lemma StopEndsRun(walls: seq<Wall>, speed: real, m: Mover)
    requires speed >= 0.0
    ensures InnerStep(walls, speed, m).Halt? <==> AnyStop(Ties(walls, speed, m))
    ensures !InnerStep(walls, speed, m).Drift? ==> InnerStep(walls, speed, m).p == ImpactPoint(Ties(walls, speed, m))
  {
    var cands := CandidatesAt(walls, speed, m);
    if |cands| > 0 {
      EventStopRule(cands, speed, m);
    }
  }

  /** After an event, a direction component is negated exactly when a
      simultaneous REFLECT hit struck a face across that axis. */
  lemma ReflectionRule(walls: seq<Wall>, speed: real, m: Mover)
    requires speed >= 0.0
    ensures var step := InnerStep(walls, speed, m);
      step.Event? ==>
        && step.m.dx == (if AnyReflectVertical(Ties(walls, speed, m)) then -m.dx else m.dx)
        && step.m.dy == (if AnyReflectHorizontal(Ties(walls, speed, m)) then -m.dy else m.dy)
  {
    var cands := CandidatesAt(walls, speed, m);
    if |cands| > 0 {
      EventReflectionRule(cands, speed, m);
    }
  }

  /** After an event, the batching flag is set exactly when every
      simultaneous hit was a PASS_THROUGH. */
  lemma BatchingRule(walls: seq<Wall>, speed: real, m: Mover)
    requires speed >= 0.0
    ensures var step := InnerStep(walls, speed, m);
      step.Event? ==> (step.m.recordedPass <==> AllPass(Ties(walls, speed, m)))
  {
    var cands := CandidatesAt(walls, speed, m);
    if |cands| > 0 {
      CandidatesAtShape(walls, speed, m);
      EventBatchingRule(cands, speed, m);
    }
  }

  /** One pass with distance left in the tick: an event consumes a positive
      distance from the tick and the same from the budget; without
      candidates the tick ends, its rest taken from the budget, and the
      direction is kept. */
  lemma Consumption(walls: seq<Wall>, speed: real, m: Mover)
    requires speed >= 0.0 && m.inTick > 0.0
    ensures var step := InnerStep(walls, speed, m);
      step.Event? ==>
        && 0.0 <= step.m.inTick < m.inTick
        && m.budget - step.m.budget == m.inTick - step.m.inTick
    ensures var step := InnerStep(walls, speed, m);
      step.Drift? ==>
        && step.m.inTick == 0.0 && step.m.budget == m.budget - m.inTick
        && step.m.dx == m.dx && step.m.dy == m.dy && step.m.recordedPass == m.recordedPass
  {
    var cands := CandidatesAt(walls, speed, m);
    if |cands| > 0 {
      CandidatesAtShape(walls, speed, m);
      EventConsumption(cands, speed, m);
    }
  }

  /** Once an event of PASS_THROUGH hits only has been recorded, the next
      event is at a blocking hit whenever one is in reach: at most one
      pass-through vertex precedes a REFLECT or STOP within a tick. */
  lemma AtMostOnePassBeforeBlocking(walls: seq<Wall>, speed: real, m: Mover)
    requires speed >= 0.0
    requires InnerStep(walls, speed, m).Event? && AllPass(Ties(walls, speed, m))
    ensures var next := InnerStep(walls, speed, m).m;
      var c := CandidatesAt(walls, speed, next);
      (exists i :: 0 <= i < |c| && !IsPass(c[i])) ==>
        exists i :: 0 <= i < |c| && !IsPass(c[i]) && c[i].dist == EventDistance(c, speed, next.recordedPass)
  {
    BatchingRule(walls, speed, m);
    var next := InnerStep(walls, speed, m).m;
    assert next.recordedPass;
    var c := CandidatesAt(walls, speed, next);
    if exists i :: 0 <= i < |c| && !IsPass(c[i]) {
      var r := ResolvedDistance(c, true, EpsTie(speed));
      assert r == Earliest(c, false);
      assert EventDistance(c, speed, next.recordedPass) == r.value;
    }
  }

  /** Within a tick the rest of the tick never grows or goes negative, and
      the budget is reduced by exactly what the tick consumes, so the budget
      never falls below the rest of the tick. */
  lemma {:induction false} RunTickKeepsBudget(walls: seq<Wall>, speed: real, m: Mover, path: seq<Point>, fuel: nat)
    requires speed >= 0.0 && 0.0 <= m.inTick <= m.budget
    ensures var o := RunTick(StepFn(walls, speed), m, path, fuel);
      o.Running? ==>
        && 0.0 <= o.m.inTick <= m.inTick && o.m.inTick <= o.m.budget
        && o.m.budget - o.m.inTick == m.budget - m.inTick
    decreases fuel
  {
    if fuel > 0 && m.inTick > 0.0 {
      var pass := StepFn(walls, speed);
      var rest: nat := fuel - 1;
      PassUnfolds(pass, m, path, fuel, rest);
      Consumption(walls, speed, m);
      var step := InnerStep(walls, speed, m);
      assert pass(m) == step;
      if step.Event? {
        RunTickKeepsBudget(walls, speed, step.m, path + [step.p], rest);
      }
    }
  }

  /** A tick only appends to the path, at most one vertex per pass. */
  lemma {:induction false} RunTickExtendsPath(pass: Mover -> Step, m: Mover, path: seq<Point>, fuel: nat)
    ensures var o := RunTick(pass, m, path, fuel);
      |path| <= |o.path| <= |path| + fuel && o.path[..|path|] == path
    decreases fuel
  {
    if fuel > 0 && m.inTick > 0.0 {
      var rest: nat := fuel - 1;
      PassUnfolds(pass, m, path, fuel, rest);
      var step := pass(m);
      if step.Event? {
        var longer := path + [step.p];
        RunTickExtendsPath(pass, step.m, longer, rest);
        var o := RunTick(pass, step.m, longer, rest);
        assert o.path[..|path|] == o.path[..|longer|][..|path|];
      } else if step.Halt? {
        assert (path + [step.p])[..|path|] == path;
      }
    }
  }

  /** Over the ticks the budget never grows and never goes negative. */
  lemma {:induction false} RunTicksKeepsBudget(walls: seq<Wall>, speed: real, m: Mover, path: seq<Point>,
                                               fuel: nat, innerCap: nat)
    requires speed >= 0.0 && m.budget >= 0.0
    ensures var o := RunTicks(StepFn(walls, speed), speed, m, path, fuel, innerCap);
      o.Running? ==> 0.0 <= o.m.budget <= m.budget
    decreases fuel
  {
    if fuel > 0 && m.budget > 0.0 {
      var pass := StepFn(walls, speed);
      var rest: nat := fuel - 1;
      TickUnfolds(pass, speed, m, path, fuel, rest, innerCap);
      var start := TickStart(m, speed);
      RunTickKeepsBudget(walls, speed, start, path, innerCap);
      var tick := RunTick(pass, start, path, innerCap);
      if tick.Running? {
        RunTicksKeepsBudget(walls, speed, tick.m, tick.path, rest, innerCap);
      }
    }
  }

  lemma Distribute(fuel: nat, rest: nat, innerCap: nat)
    requires fuel == rest + 1
    ensures fuel * innerCap == rest * innerCap + innerCap && rest * innerCap >= 0
  {
  }

  /** The ticks only append to the path, at most innerCap vertices each. */
  lemma {:induction false} RunTicksExtendsPath(pass: Mover -> Step, speed: real, m: Mover, path: seq<Point>,
                                               fuel: nat, innerCap: nat)
    ensures var o := RunTicks(pass, speed, m, path, fuel, innerCap);
      |path| <= |o.path| <= |path| + fuel * innerCap && o.path[..|path|] == path
    decreases fuel
  {
    assert fuel * innerCap >= 0 by { Distribute(fuel + 1, fuel, innerCap); }
    if fuel > 0 && m.budget > 0.0 {
      var rest: nat := fuel - 1;
      TickUnfolds(pass, speed, m, path, fuel, rest, innerCap);
      var start := TickStart(m, speed);
      RunTickExtendsPath(pass, start, path, innerCap);
      var tick := RunTick(pass, start, path, innerCap);
      Distribute(fuel, rest, innerCap);
      if tick.Running? {
        RunTicksExtendsPath(pass, speed, tick.m, tick.path, rest, innerCap);
        var o := RunTicks(pass, speed, tick.m, tick.path, rest, innerCap);
        assert o.path[..|path|] == o.path[..|tick.path|][..|path|];
      }
    }
  }

  /** The path starts at the start point and holds at most one vertex per
      permitted pass, plus the start and the final position. */
  lemma TraceShape(walls: seq<Wall>, speed: real, budget: real, start: Point, dir: Point)
    requires speed >= 0.0 && budget >= 0.0
    ensures var t := Trace(walls, speed, budget, start, dir);
      1 <= |t| <= MaxOuter(budget, speed) * MaxInnerPerTick + 2 && t[0] == start
  {
    var m := Mover(start.x, start.y, dir.x, dir.y, budget, 0.0, false);
    RunTicksExtendsPath(StepFn(walls, speed), speed, m, [start], MaxOuter(budget, speed), MaxInnerPerTick);
    var o := RunTicks(StepFn(walls, speed), speed, m, [start], MaxOuter(budget, speed), MaxInnerPerTick);
    var t := Trace(walls, speed, budget, start, dir);
    assert o.path[0] == o.path[..1][0] == start;
    if o.Running? {
      var f := FinalPath(o.path, o.m.px, o.m.py, speed);
      assert t == f;
      assert f[0] == f[..|o.path|][0] == o.path[0];
    } else {
      assert t == o.path;
    }
  }

  /** With no budget the path is the start point alone. */
  lemma TraceZeroBudget(walls: seq<Wall>, speed: real, start: Point, dir: Point)
    requires speed >= 0.0
    ensures Trace(walls, speed, 0.0, start, dir) == [start]
  {
    assert EpsOut(start.x, start.y, speed) > 0.0;
  }

  /** A final position that is only the nudge off the last vertex (along a
      direction with components of at most one) is swallowed, not appended. */
  lemma NudgeSwallowed(path: seq<Point>, speed: real, dx: real, dy: real)
    requires |path| > 0 && speed >= 0.0 && Abs(dx) <= 1.0 && Abs(dy) <= 1.0
    ensures var q := path[|path| - 1];
      FinalPath(path, Travel(q.x, dx, EpsPush(speed)), Travel(q.y, dy, EpsPush(speed)), speed) == path
  {
    var q := path[|path| - 1];
    var e := EpsPush(speed);
    var px, py := Travel(q.x, dx, e), Travel(q.y, dy, e);
    NudgeBound(dx, e);
    NudgeBound(dy, e);
    assert Abs(px - q.x) <= e && Abs(py - q.y) <= e;
    assert e <= EpsOut(px, py, speed);
  }

  lemma NudgeBound(d: real, e: real)
    requires Abs(d) <= 1.0 && e >= 0.0
    ensures Abs(d * e) <= e
  {
    if d >= 0.0 {
      assert d * e <= 1.0 * e;
    } else {
      assert (-d) * e <= 1.0 * e;
    }
  }

  /** A pass that always drifts never records a vertex in a tick. */
  lemma {:induction false} DriftTickKeepsPath(pass: Mover -> Step, m: Mover, path: seq<Point>, fuel: nat)
    requires forall n :: pass(n).Drift?
    ensures var o := RunTick(pass, m, path, fuel); o.Running? && o.path == path
  {
    if fuel > 0 && m.inTick > 0.0 {
      PassUnfolds(pass, m, path, fuel, fuel - 1);
    }
  }

  /** A pass that always drifts never records a vertex over the ticks. */
  lemma {:induction false} DriftTicksKeepPath(pass: Mover -> Step, speed: real, m: Mover, path: seq<Point>,
                                              fuel: nat, innerCap: nat)
    requires forall n :: pass(n).Drift?
    ensures var o := RunTicks(pass, speed, m, path, fuel, innerCap); o.Running? && o.path == path
    decreases fuel
  {
    if fuel > 0 && m.budget > 0.0 {
      var rest: nat := fuel - 1;
      TickUnfolds(pass, speed, m, path, fuel, rest, innerCap);
      var start := TickStart(m, speed);
      DriftTickKeepsPath(pass, start, path, innerCap);
      var tick := RunTick(pass, start, path, innerCap);
      DriftTicksKeepPath(pass, speed, tick.m, tick.path, rest, innerCap);
    }
  }

  /** With no walls every pass drifts, so the path is the start point,
      followed by the final position unless that is a near duplicate of the
      start. */
  lemma NoWallsTrace(speed: real, budget: real, start: Point, dir: Point)
    requires speed >= 0.0 && budget >= 0.0
    ensures var t := Trace([], speed, budget, start, dir);
      1 <= |t| <= 2 && t[0] == start
  {
    var pass := StepFn([], speed);
    forall n
      ensures pass(n).Drift?
    {
      assert CandidatesAt([], speed, n) == [];
    }
    var m := Mover(start.x, start.y, dir.x, dir.y, budget, 0.0, false);
    DriftTicksKeepPath(pass, speed, m, [start], MaxOuter(budget, speed), MaxInnerPerTick);
  }

  /** With no walls, a pass with more than eps_d left in the tick flies the
      whole rest of the tick without a vertex. */
  lemma NoWallsTick(speed: real, m: Mover, path: seq<Point>, innerCap: nat)
    requires speed >= 0.0 && innerCap > 0 && m.inTick > EpsD(speed)
    ensures RunTick(StepFn([], speed), m, path, innerCap)
         == Running(Mover(Travel(m.px, m.dx, m.inTick), Travel(m.py, m.dy, m.inTick), m.dx, m.dy,
                          m.budget - m.inTick, 0.0, m.recordedPass), path)
  {
    var pass := StepFn([], speed);
    PassUnfolds(pass, m, path, innerCap, innerCap - 1);
    assert CandidatesAt([], speed, m) == [];
    var step := InnerStep([], speed, m);
    assert step.Drift?;
    assert pass(m) == step;
  }

  /** With no walls, a tick that grants more than eps_d flies its grant. */
  lemma NoWallsOneTick(speed: real, m: Mover, path: seq<Point>, innerCap: nat)
    requires speed >= 0.0 && innerCap > 0 && Min(speed, m.budget) > EpsD(speed)
    ensures var g := Min(speed, m.budget);
      RunTick(StepFn([], speed), TickStart(m, speed), path, innerCap)
        == Running(Mover(Travel(m.px, m.dx, g), Travel(m.py, m.dy, g), m.dx, m.dy, m.budget - g, 0.0, false), path)
  {
    NoWallsTick(speed, TickStart(m, speed), path, innerCap);
  }

  /** With no walls, a tick that grants more than eps_d is one flight. */
  lemma NoWallsTicksStep(speed: real, m: Mover, path: seq<Point>, fuel: nat, rest: nat, innerCap: nat)
    requires speed >= 0.0 && innerCap > 0 && fuel == rest + 1 && m.budget > 0.0
    requires Min(speed, m.budget) > EpsD(speed)
    ensures var g := Min(speed, m.budget);
      RunTicks(StepFn([], speed), speed, m, path, fuel, innerCap)
        == RunTicks(StepFn([], speed), speed,
                    Mover(Travel(m.px, m.dx, g), Travel(m.py, m.dy, g), m.dx, m.dy, m.budget - g, 0.0, false),
                    path, rest, innerCap)
  {
    TickUnfolds(StepFn([], speed), speed, m, path, fuel, rest, innerCap);
    NoWallsOneTick(speed, m, path, innerCap);
  }

  /** With no walls and a budget in ((k - 1) speed + eps_d, k speed], k
      ticks fly the whole budget along the direction, recording nothing:
      every tick but the last grants the full speed, and the last grants the
      remainder, which is more than eps_d and so is not swallowed. */
  lemma {:induction false} NoWallsTicks(speed: real, m: Mover, path: seq<Point>, fuel: nat, innerCap: nat, k: nat)
    requires speed >= 0.0 && innerCap > 0 && 1 <= k <= fuel
    requires ((k - 1) as real) * speed + EpsD(speed) < m.budget <= (k as real) * speed
    ensures var o := RunTicks(StepFn([], speed), speed, m, path, fuel, innerCap);
      && o.Running? && o.path == path && o.m.budget == 0.0
      && o.m.px == Travel(m.px, m.dx, m.budget) && o.m.py == Travel(m.py, m.dy, m.budget)
    decreases k
  {
    var rest: nat := fuel - 1;
    var g := Min(speed, m.budget);
    TicksArith(k, speed, m.budget, EpsD(speed));
    if k == 1 {
      NoWallsLastTick(speed, m, path, fuel, innerCap);
    } else {
      var next := Mover(Travel(m.px, m.dx, g), Travel(m.py, m.dy, g), m.dx, m.dy, m.budget - g, 0.0, false);
      NoWallsTicks(speed, next, path, rest, innerCap, k - 1);
      var o := RunTicks(StepFn([], speed), speed, next, path, rest, innerCap);
      TravelAdd(m.px, m.dx, g, m.budget - g);
      TravelAdd(m.py, m.dy, g, m.budget - g);
      assert o.m.px == Travel(m.px, m.dx, m.budget) && o.m.py == Travel(m.py, m.dy, m.budget);
      NoWallsTicksStep(speed, m, path, fuel, rest, innerCap);
      assert RunTicks(StepFn([], speed), speed, m, path, fuel, innerCap) == o;
    }
  }

  /** With no walls, a budget in (eps_d, speed] is flown in one tick. */
  lemma NoWallsLastTick(speed: real, m: Mover, path: seq<Point>, fuel: nat, innerCap: nat)
    requires speed >= 0.0 && innerCap > 0 && fuel >= 1 && EpsD(speed) < m.budget <= speed
    ensures var o := RunTicks(StepFn([], speed), speed, m, path, fuel, innerCap);
      && o.Running? && o.path == path && o.m.budget == 0.0
      && o.m.px == Travel(m.px, m.dx, m.budget) && o.m.py == Travel(m.py, m.dy, m.budget)
  {
    assert Min(speed, m.budget) == m.budget;
    NoWallsTicksStep(speed, m, path, fuel, fuel - 1, innerCap);
  }

  /** The tick arithmetic of NoWallsTicks: the last tick grants the whole
      budget; any earlier one grants the speed and leaves a budget of the
      same form for k - 1. */
  lemma TicksArith(k: nat, speed: real, budget: real, e: real)
    requires speed >= 0.0 && e >= 0.0 && k >= 1
    requires ((k - 1) as real) * speed + e < budget <= (k as real) * speed
    ensures k == 1 ==> Min(speed, budget) == budget && budget - Min(speed, budget) == 0.0
    ensures k > 1 ==> (((k - 1) - 1) as real) * speed + e < budget - Min(speed, budget) <= ((k - 1) as real) * speed
    ensures Min(speed, budget) > e
  {
    assert ((k - 1) as real) * speed == (k as real) * speed - speed;
    if k > 1 {
      assert (((k - 1) - 1) as real) * speed == ((k - 1) as real) * speed - speed;
      assert ((k - 1) as real) * speed >= speed;
    }
  }

  /** Flying a then b along d is flying a + b. */
  lemma TravelAdd(p: real, d: real, a: real, b: real)
    ensures Travel(Travel(p, d, a), d, b) == Travel(p, d, a + b)
  {
    assert d * (a + b) == d * a + d * b;
  }

  /** With no walls and a budget in ((k - 1) speed + eps_d, k speed] the
      path is the start point followed by start + budget * dir, unless that
      end is a near duplicate of the start. */
  lemma NoWallsEndpoint(speed: real, budget: real, start: Point, dir: Point, k: nat)
    requires speed >= ZeroTolerance && k >= 1
    requires ((k - 1) as real) * speed + EpsD(speed) < budget <= (k as real) * speed
    ensures Trace([], speed, budget, start, dir)
         == FinalPath([start], Travel(start.x, dir.x, budget), Travel(start.y, dir.y, budget), speed)
    ensures var end := Point(Travel(start.x, dir.x, budget), Travel(start.y, dir.y, budget));
      Abs(end.x - start.x) > EpsOut(end.x, end.y, speed) ==> Trace([], speed, budget, start, dir) == [start, end]
  {
    var m := Mover(start.x, start.y, dir.x, dir.y, budget, 0.0, false);
    EnoughTicks(speed, budget, k);
    NoWallsTicks(speed, m, [start], MaxOuter(budget, speed), MaxInnerPerTick, k);
    var path := [start];
    assert path[|path| - 1] == start;
  }

  /** A budget above (k - 1) speed leaves max_outer at least k ticks. */
  lemma EnoughTicks(speed: real, budget: real, k: nat)
    requires speed >= ZeroTolerance && budget >= 0.0 && ((k - 1) as real) * speed < budget
    ensures k <= MaxOuter(budget, speed)
  {
    var fuel := MaxOuter(budget, speed);
    MaxOuterBounds(budget, speed);
    assert Max(ZeroTolerance, speed) == speed;
    assert budget <= ((fuel - 2) as real) * Max(ZeroTolerance, speed);
    assert budget <= ((fuel - 2) as real) * speed;
    MulOrder(k - 1, fuel - 2, speed);
  }

  lemma MulOrder(a: int, b: int, c: real)
    requires c > 0.0 && (a as real) * c < (b as real) * c
    ensures a < b
  {
    assert ((b - a) as real) * c == (b as real) * c - (a as real) * c;
  }

  /** Start (0, 0), direction (1, 0), speed 1, budget 5, no walls: the path is
      [(0, 0), (5, 0)]. */
  lemma NoWallsFiveTicks(speed: real, budget: real)
    requires speed == 1.0 && budget == 5.0
    ensures Trace([], speed, budget, Point(0.0, 0.0), Point(1.0, 0.0)) == [Point(0.0, 0.0), Point(budget, 0.0)]
  {
    ScenarioTolerances(speed, budget);
    NoWallsEndpoint(speed, budget, Point(0.0, 0.0), Point(1.0, 0.0), 5);
  }

  /** The numbers of the five-tick scenario. */
  lemma ScenarioTolerances(speed: real, budget: real)
    requires speed == 1.0 && budget == 5.0
    ensures ((5 - 1) as real) * speed + EpsD(speed) < budget <= (5 as real) * speed
    ensures Travel(0.0, 1.0, budget) == budget && Travel(0.0, 0.0, budget) == 0.0
    ensures Abs(budget - 0.0) > EpsOut(budget, 0.0, speed)
  {
    assert MachineEpsilon < 0.001;
    assert EpsD(speed) < 0.5;
    assert ScaleFor(budget, 0.0, budget, 0.0) == budget;
    assert EpsPush(speed) < 0.01;
    assert EpsOut(budget, 0.0, speed) < 1.0;
  }
}
