/** The simulator object of projectile_path_simulator.h: its validated
    construction, add_wall, simulate and the static simulatePath. */
module Simulator {

  import opened Wrappers
  import opened Walls
  import opened RayCast
  import opened Tick

  /** The std::invalid_argument cases, in the order they are checked. */
  datatype ArgumentError = SpeedNotPositive | BudgetNegative | ZeroDirection

  /** The constructor's checks: the speed first, then the budget. */
  function CheckArguments(speed: real, distanceBudget: real): (r: Option<ArgumentError>)
    ensures r.None? <==> speed > 0.0 && distanceBudget >= 0.0
    ensures r == Some(SpeedNotPositive) <==> speed <= 0.0
    ensures r == Some(BudgetNegative) <==> speed > 0.0 && distanceBudget < 0.0
  {
    if speed <= 0.0 then Some(SpeedNotPositive)
    else if distanceBudget < 0.0 then Some(BudgetNegative)
    else None
  }

  /** len can be the value of std::hypot(x, y): it is non-negative and
      zero exactly for the zero vector. */
  predicate IsLength(len: real, x: real, y: real)
  {
    len >= 0.0 && (len == 0.0 <==> x == 0.0 && y == 0.0)
  }

  /** normalize: divide by the length, unless it is zero. */
  function Normalize(x: real, y: real, len: real): (r: Point)
    requires IsLength(len, x, y)
    ensures len == 0.0 ==> r == Point(x, y) == Point(0.0, 0.0)
    // scaling back by the length gives the input, and a non-zero vector stays non-zero
    ensures len > 0.0 ==> r.x * len == x && r.y * len == y && r != Point(0.0, 0.0)
  {
    if len == 0.0 then Point(x, y)
    else
      NonZeroQuotient(x, y, len);
      Point(x / len, y / len)
  }

  lemma NonZeroQuotient(x: real, y: real, len: real)
    requires len > 0.0 && (x != 0.0 || y != 0.0)
    ensures x / len != 0.0 || y / len != 0.0
  {
    if x != 0.0 { assert (x / len) * len == x; } else { assert (y / len) * len == y; }
  }

  class ProjectilePathSimulator {
    var speed: real
    var distanceBudget: real
    var walls: seq<Wall>

    /** The constructor's checks hold, and every stored wall is ordered and
        not a point. */
    predicate Valid()
      reads this
    {
      && CheckArguments(speed, distanceBudget).None?
      && forall i :: 0 <= i < |walls| ==>
           Ordered(walls[i]) && !IsPointLike(walls[i].x1, walls[i].y1, walls[i].x2, walls[i].y2)
    }

    /** The constructor for arguments that pass its checks. */
    constructor (speed: real, distanceBudget: real)
      requires CheckArguments(speed, distanceBudget).None?
      ensures Valid()
      ensures this.speed == speed && this.distanceBudget == distanceBudget && walls == []
    {
      this.speed := speed;
      this.distanceBudget := distanceBudget;
      walls := [];
    }

    /** The constructor with its checks: the first failing check is the
        exception thrown. */
    static method Create(speed: real, distanceBudget: real) returns (r: Result<ProjectilePathSimulator, ArgumentError>)
      ensures r.Failure? <==> CheckArguments(speed, distanceBudget).Some?
      ensures r.Failure? ==> r.error == CheckArguments(speed, distanceBudget).value
      ensures r.Success? ==> fresh(r.value) && r.value.Valid()
      ensures r.Success? ==> r.value.speed == speed && r.value.distanceBudget == distanceBudget && r.value.walls == []
    {
      if speed <= 0.0 {
        return Failure(SpeedNotPositive);
      }
      if distanceBudget < 0.0 {
        return Failure(BudgetNegative);
      }
      var sim := new ProjectilePathSimulator(speed, distanceBudget);
      return Success(sim);
    }

    /** add_wall: ignore a point, otherwise append the wall with ordered corners. */
    method AddWall(x1: real, y1: real, x2: real, y2: real, behavior: WallBehavior)
      requires Valid()
      modifies this
      ensures Valid()
      ensures walls == Insert(old(walls), x1, y1, x2, y2, behavior)
      ensures speed == old(speed) && distanceBudget == old(distanceBudget)
    {
      if Abs(x1 - x2) < ZeroTolerance && Abs(y1 - y2) < ZeroTolerance {
        return;
      }
      walls := walls + [Wall(Min(x1, x2), Min(y1, y2), Max(x1, x2), Max(y1, y2), behavior)];
    }

    /** simulate: the vertices of the path from (startX, startY) along the
        normalised direction. dirLen stands for std::hypot(dirX, dirY). */
    method Simulate(startX: real, startY: real, dirX: real, dirY: real, dirLen: real) returns (path: seq<Point>)
      requires Valid()
      requires IsLength(dirLen, dirX, dirY)
      ensures path == Trace(walls, speed, distanceBudget, Point(startX, startY), Normalize(dirX, dirY, dirLen))
    {
      var dir := Normalize(dirX, dirY, dirLen);
      path := [Point(startX, startY)];
      var maxOuter := MaxOuter(distanceBudget, speed);
      var run := RunTicksLoop(walls, speed, Mover(startX, startY, dir.x, dir.y, distanceBudget, 0.0, false),
                              path, maxOuter, MaxInnerPerTick);
      match run
      case Stopped(vertices) =>
        path := vertices;
      case Running(last, vertices) =>
        path := vertices;
        var epsOut := EpsOut(last.px, last.py, speed);
        if |path| == 0 || Abs(last.px - path[|path| - 1].x) > epsOut || Abs(last.py - path[|path| - 1].y) > epsOut {
          path := path + [Point(last.px, last.py)];
        }
    }

    /** simulatePath: check the arguments, normalise the direction (length
        directionLength, standing for std::hypot), store the walls that have
        extent in a fresh simulator and simulate. */
    static method SimulatePath(start: Point, direction: Point, directionLength: real,
                               speed: real, distanceBudget: real, walls: seq<Wall>)
      returns (r: Result<seq<Point>, ArgumentError>)
      requires IsLength(directionLength, direction.x, direction.y)
      ensures CheckArguments(speed, distanceBudget).Some? ==> r == Failure(CheckArguments(speed, distanceBudget).value)
      ensures CheckArguments(speed, distanceBudget).None? && directionLength == 0.0 ==> r == Failure(ZeroDirection)
      ensures CheckArguments(speed, distanceBudget).None? && directionLength > 0.0 ==>
        r == Success(Trace(StoreAll(walls), speed, distanceBudget, start,
                           Point(direction.x / directionLength, direction.y / directionLength)))
    {
      if speed <= 0.0 {
        return Failure(SpeedNotPositive);
      }
      if distanceBudget < 0.0 {
        return Failure(BudgetNegative);
      }
      if directionLength == 0.0 {
        return Failure(ZeroDirection);
      }
      var ux, uy := direction.x / directionLength, direction.y / directionLength;
      var sim := new ProjectilePathSimulator(speed, distanceBudget);
      for i := 0 to |walls|
        invariant sim.Valid() && sim.speed == speed && sim.distanceBudget == distanceBudget
        invariant sim.walls == StoreAll(walls[..i])
      {
        var w := walls[i];
        if Abs(w.x1 - w.x2) > ZeroTolerance || Abs(w.y1 - w.y2) > ZeroTolerance {
          sim.AddWall(w.x1, w.y1, w.x2, w.y2, w.behavior);
        }
        assert walls[..i + 1][..i] == walls[..i];
      }
      assert walls[..|walls|] == walls;
      NonZeroQuotient(direction.x, direction.y, directionLength);
      var path := sim.Simulate(start.x, start.y, ux, uy, 1.0);
      return Success(path);
    }
  }
}
