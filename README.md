# Projectile path simulator and greedy rectangle cover, in Dafny

This project models two small solvers and proves properties of the models.

**Projectile path simulator** (`pojectile_path_simulator/`). A point moves
at a fixed speed through axis-aligned rectangular walls. Each wall either
reflects the point (REFLECT), lets it through (PASS_THROUGH) or absorbs it
(STOP). The simulator works tick by tick. Each tick covers at most `speed`
units of the remaining distance budget. Within a tick it repeats these steps:

- cast the ray against every wall face;
- choose the event distance by the batching rule: at most one pass-through
  may come before a blocking hit in each tick;
- gather the hits that tie with that distance and average their impact
  points;
- apply the precedence rule: STOP beats REFLECT, and REFLECT beats
  PASS_THROUGH;
- consume the distance;
- record the vertex.

At the end it appends the final position unless that position duplicates the
last vertex.

The simulator is modelled in these modules:

- `Walls`: walls, the behaviour codes and the wall store.
- `RayCast`: the face tests, `maybe_add_vertical`/`maybe_add_horizontal`
  and the candidate list.
- `Resolve`: the resolved distance, the tie set, the averaged impact point
  and the aggregate effect.
- `Tick`: the loop variables as a `Mover` value, one inner step, the inner
  and outer loops, and the final de-duplication. `Trace` is the functional
  specification of `simulate`.
- `TickProperties`: the rules the engine promises, stated over `InnerStep`,
  `RunTick`, `RunTicks` and `Trace`.
- `Simulator`: the class `ProjectilePathSimulator`. Its fields are `speed`,
  `distanceBudget` and `walls`. It has a validating factory, `AddWall`,
  `Simulate` and the static `SimulatePath`.

Coordinates are Dafny `real`s. The tolerances are computed as in the source
from the machine epsilon 2^-52, taken as an exact real.

**Greedy minimum rectangle cover** (`min_rectangle_cover/solution.cpp`).
`solve(m, n, matrix)` first validates its arguments. It then lists every
sub-rectangle of the m by n boolean matrix. While the matrix has a true cell,
each round does the following:

- rebuild a 2-D prefix-sum table;
- pick the first rectangle whose top-left cell is true and which covers the
  most true cells;
- toggle every cell of that rectangle.

It returns the number of rounds.

The solver is modelled in these modules:

- `CellCount`: grids, row counts, prefix counts, the inclusion–exclusion
  identity and rectangles.
- `RectEnumeration`: the list of rectangles in push order, with membership,
  order, distinctness and length.
- `Greedy`: the choice of one round, the toggle, the rounds of the while loop
  and `SolveSpec`, the functional specification of `solve`.
- `Solution`: the source's loops as methods, each proved equal to those
  functions. `pref` is an `array2<int>` filled in place. The matrix, a
  by-value copy in `solve`, is a local `seq<seq<bool>>` that is reassigned.

## Model

| member | source | states |
|---|---|---|
| Walls.FromCode | pojectile_path_simulator/projectile_path_simulator.h:10-14 | a character stands for a behaviour exactly when it is 'R', 'P' or 'S' |
| Walls.CodeRoundTrip | pojectile_path_simulator/projectile_path_simulator.h:10-14 | decoding a behaviour's character gives back that behaviour, and no two behaviours share a character: the enum is a closed set of three tags |
| Walls.Normalized | pojectile_path_simulator/projectile_path_simulator.cpp:89 | the stored wall has x1 <= x2 and y1 <= y2 and keeps its behaviour; its corners are the given coordinates, swapped per axis where needed |
| Walls.Insert | pojectile_path_simulator/projectile_path_simulator.cpp:86-90 | add_wall only appends: the stored walls stay as they were; a wall is appended exactly when it is not a point (both extents below 1e-12), and what is appended is that wall with its corners ordered per axis (min/max of x and of y) and the given behaviour |
| Walls.StoreAll | pojectile_path_simulator/projectile_path_simulator.cpp:105-110 | simulatePath stores at most as many walls as it is given, each with ordered corners and a non-zero extent; StoreAllExact says which ones |
| Walls.StoreAllExact | pojectile_path_simulator/projectile_path_simulator.cpp:105-110 | the stored walls are exactly the given walls with a non-zero extent in their corner-ordered form: each such wall is stored, and each stored wall comes from one |
| Walls.PrefilterMakesDropTestRedundant | pojectile_path_simulator/projectile_path_simulator.cpp:107-108 | for a wall that passes simulatePath's extent filter, add_wall appends exactly that wall normalised, so add_wall's own point test never fires |
| Walls.PointWallIgnored | pojectile_path_simulator/projectile_path_simulator.cpp:106-110 | a wall without extent anywhere in simulatePath's input leaves the stored walls as if it were absent |
| Simulator.CheckArguments | pojectile_path_simulator/projectile_path_simulator.cpp:80-84 | no error iff speed > 0 and budget >= 0; a non-positive speed is reported first, a negative budget only when the speed is fine |
| Simulator.Normalize | pojectile_path_simulator/projectile_path_simulator.cpp:19-23 | the zero vector is returned unchanged; otherwise the result scaled back by the length is the input, and the result is not zero |
| Simulator.ProjectilePathSimulator.Create | pojectile_path_simulator/projectile_path_simulator.cpp:80-84 | fails iff a constructor check fails, with that check's error; otherwise a fresh, valid simulator with the given speed and budget and no walls |
| Simulator.ProjectilePathSimulator.AddWall | pojectile_path_simulator/projectile_path_simulator.cpp:86-90 | the store becomes Insert of the old store (unchanged for a point, else the normalised wall appended); speed and budget unchanged; validity kept |
| Simulator.ProjectilePathSimulator.Simulate | pojectile_path_simulator/projectile_path_simulator.cpp:114-281 | the returned vertices are Trace of the stored walls, speed and budget from the start point along the normalised direction |
| Simulator.ProjectilePathSimulator.SimulatePath | pojectile_path_simulator/projectile_path_simulator.cpp:92-112 | the constructor's error when its checks fail, else ZeroDirection for a zero direction, else Trace over the walls that have extent from a fresh simulator along the unit direction |
| RayCast.ScaleFor | pojectile_path_simulator/projectile_path_simulator.cpp:25-27 | the result is the maximum of 1 and the four magnitudes: at least each of them and equal to one of them |
| RayCast.Within | pojectile_path_simulator/projectile_path_simulator.cpp:29-31 | a value inside the span is within it for any widening, and with no widening within means inside the span |
| RayCast.VerticalHit | pojectile_path_simulator/projectile_path_simulator.cpp:42-58 | a hit exists iff \|dx\| > eps_dir, eps_d < s <= maxDist + eps_d and the impact y lies within the wall's y span widened by eps_face; the hit has x = x_side, is vertical only and carries the wall's behaviour |
| RayCast.HorizontalHit | pojectile_path_simulator/projectile_path_simulator.cpp:60-76 | the same for horizontal faces: \|dy\| > eps_dir, the reach test, impact x within the x span, y = y_side, horizontal only |
| RayCast.MaybeAddVertical | pojectile_path_simulator/projectile_path_simulator.cpp:42-58 | the output is the input with the vertical hit appended when there is one, else unchanged |
| RayCast.MaybeAddHorizontal | pojectile_path_simulator/projectile_path_simulator.cpp:60-76 | the output is the input with the horizontal hit appended when there is one, else unchanged |
| RayCast.VerticalHits | pojectile_path_simulator/projectile_path_simulator.cpp:156-164 | a zero-width wall tests one vertical face, any other wall two, so at most one or two hits; each is vertical only, on x1 or x2, within reach (eps_d < s <= remaining_in_tick + eps_d) and carries the wall's behaviour; WallHitsComplete says no face hit is missed |
| RayCast.HorizontalHits | pojectile_path_simulator/projectile_path_simulator.cpp:166-174 | the same for the horizontal faces: at most one hit for a zero-height wall, otherwise two; each horizontal only, on y1 or y2, within reach, with the wall's behaviour; WallHitsComplete says no face hit is missed |
| RayCast.WallHits | pojectile_path_simulator/projectile_path_simulator.cpp:156-174 | a wall yields at most four hits, each on exactly one face orientation, within reach and with the wall's behaviour; WallHitsAreFaceHits and WallHitsComplete give both directions of "exactly the face hits" |
| RayCast.Candidates | pojectile_path_simulator/projectile_path_simulator.cpp:154-175 | at most four hits per wall, each on exactly one face orientation and within reach of the rest of the tick; CandidatesAreFaceHits and CandidatesComplete give both directions |
| RayCast.AddVerticalHits | pojectile_path_simulator/projectile_path_simulator.cpp:156-164 | the vertical-face branch appends exactly VerticalHits to the candidates |
| RayCast.AddHorizontalHits | pojectile_path_simulator/projectile_path_simulator.cpp:166-174 | the horizontal-face branch appends exactly HorizontalHits to the candidates |
| RayCast.AddWallHits | pojectile_path_simulator/projectile_path_simulator.cpp:156-174 | the loop body for one wall appends exactly WallHits to the candidates |
| RayCast.GatherCandidates | pojectile_path_simulator/projectile_path_simulator.cpp:152-175 | the loop over walls produces exactly Candidates, wall by wall and face by face in the source's order |
| RayCast.WallHitsAreFaceHits | pojectile_path_simulator/projectile_path_simulator.cpp:154-175 | every hit produced for a wall lies on one of that wall's four faces and passes the face test |
| RayCast.CandidatesAreFaceHits | pojectile_path_simulator/projectile_path_simulator.cpp:154-175 | every candidate is a face hit of some stored wall |
| RayCast.WallHitsComplete | pojectile_path_simulator/projectile_path_simulator.cpp:156-174 | every face test that succeeds on a wall (x1, x2 unless the width is zero, y1, y2 unless the height is zero) contributes its hit |
| RayCast.CandidatesComplete | pojectile_path_simulator/projectile_path_simulator.cpp:154-175 | for every stored wall, every successful face test of that wall is among the candidates |
| RayCast.CandidatesShape | pojectile_path_simulator/projectile_path_simulator.cpp:42-76 | every candidate is on exactly one face orientation and lies strictly beyond eps_d |
| RayCast.VerticalHitAhead | pojectile_path_simulator/projectile_path_simulator.cpp:50-57 | a vertical face is hit only if it lies ahead of the point in the direction of dx |
| RayCast.HorizontalHitAhead | pojectile_path_simulator/projectile_path_simulator.cpp:68-75 | a horizontal face is hit only if it lies ahead of the point in the direction of dy |
| RayCast.InsideStartOnlyExitVertical | pojectile_path_simulator/projectile_path_simulator.cpp:157-163 | from a point between a wall's x faces, the only vertical face that can be hit is the one it is moving towards, never the one it is on |
| RayCast.InsideStartOnlyExitHorizontal | pojectile_path_simulator/projectile_path_simulator.cpp:167-173 | the same for the y faces |
| Resolve.Earliest | pojectile_path_simulator/projectile_path_simulator.cpp:192-200 | None (infinity) iff no candidate of that kind exists, otherwise the distance of such a candidate that no candidate of that kind undercuts |
| Resolve.EarliestDistances | pojectile_path_simulator/projectile_path_simulator.cpp:192-200 | the scan yields the earliest blocking distance and the earliest pass-through distance |
| Resolve.ResolvedDistance | pojectile_path_simulator/projectile_path_simulator.cpp:202-214 | None iff there are no candidates; the result is some candidate's distance and never beyond a blocking candidate; with a pass already recorded and a blocker present it is a blocker's distance; with no blocker it is the minimum; a pass-through well ahead of every blocker (by eps_tie) on an unbatched tick gives the earliest pass-through; in every other case with a blocker present it is the earliest blocking distance |
| Resolve.TieSet | pojectile_path_simulator/projectile_path_simulator.cpp:216-219 | a hit is in the tie set iff it is a candidate within eps_tie of s_min, and each tying candidate is kept as many times as it occurs, so the tie set is a sub-multiset of the candidates |
| Resolve.CollectTies | pojectile_path_simulator/projectile_path_simulator.cpp:216-219 | the loop collects exactly TieSet |
| Resolve.TieSetOfResolvedNonEmpty | pojectile_path_simulator/projectile_path_simulator.cpp:202-219 | on any non-empty candidate list the resolved distance exists and its tie set is non-empty, so the division by hits.size() is safe |
| Resolve.AverageImpact | pojectile_path_simulator/projectile_path_simulator.cpp:222-225 | the loop computes ImpactPoint, the mean of the hits' coordinates |
| Resolve.ImpactPoint | pojectile_path_simulator/projectile_path_simulator.cpp:222-225 | the mean of the tied hits' coordinates; when every tied hit is at one point (a single hit, or two faces met at a corner) that point itself |
| Resolve.ImpactWithinHits | pojectile_path_simulator/projectile_path_simulator.cpp:222-225 | the averaged impact point lies in every box that holds all tied hits |
| Resolve.AggregateEffect | pojectile_path_simulator/projectile_path_simulator.cpp:234-241 | stop iff some tied hit is STOP; reflectV iff some REFLECT hit is vertical; reflectH iff some REFLECT hit is horizontal |
| Resolve.ComputeEffect | pojectile_path_simulator/projectile_path_simulator.cpp:234-241 | the flag loop computes AggregateEffect |
| Tick.Ceil | pojectile_path_simulator/projectile_path_simulator.cpp:135 | the least integer not below x |
| Tick.MaxOuter | pojectile_path_simulator/projectile_path_simulator.cpp:135 | max_outer is at least 2; MaxOuterBounds gives its exact relation to the budget |
| Tick.MaxOuterBounds | pojectile_path_simulator/projectile_path_simulator.cpp:135 | max_outer - 2 ticks of max(1e-12, speed) are just enough to cover the budget, and one fewer is not |
| Tick.TolerancesAt | pojectile_path_simulator/projectile_path_simulator.cpp:144-149 | the tolerances of a step are positive and eps_d depends only on the speed |
| Tick.Ties | pojectile_path_simulator/projectile_path_simulator.cpp:177-219 | the tie set of a step is non-empty exactly when the step has candidates |
| Tick.TickStart | pojectile_path_simulator/projectile_path_simulator.cpp:139-141 | a tick starts with the batching flag cleared and min(speed, remaining budget) of travel, which is the speed or the budget and exceeds neither; position, direction and budget carry over |
| Tick.AfterEvent | pojectile_path_simulator/projectile_path_simulator.cpp:227-262 | after an event the direction keeps each component's magnitude (a reflection only flips a sign); step_used comes off both the tick and the budget; the batching flag is set iff the event neither stops nor reflects; the position is the impact point, nudged by eps_push along the new direction exactly when the tick and the budget both exceed 10 eps_d |
| Tick.EventStep | pojectile_path_simulator/projectile_path_simulator.cpp:191-264 | a step with candidates never drifts: it stops or records a vertex, and the vertex is the averaged impact point of the tie set; EventStopRule, EventReflectionRule, EventBatchingRule and EventConsumption state the rest |
| Tick.InnerStep | pojectile_path_simulator/projectile_path_simulator.cpp:144-264 | a step ends the tick without a vertex exactly when there are no candidates, and then spends the whole rest of the tick from the budget, keeping direction and flag, and leaves the point in place when the rest is at most eps_d, otherwise moves it by the rest along the direction; otherwise it is the event step |
| Tick.ResolveDistance | pojectile_path_simulator/projectile_path_simulator.cpp:202-214 | the branch on infinities returns Some(s_min) equal to ResolvedDistance |
| Tick.ResolveEvent | pojectile_path_simulator/projectile_path_simulator.cpp:191-264 | the event part of the inner loop body computes EventStep |
| Tick.ApplyEvent | pojectile_path_simulator/projectile_path_simulator.cpp:227-264 | the state updates after an event compute AfterEvent |
| Tick.AdvanceStep | pojectile_path_simulator/projectile_path_simulator.cpp:144-264 | one inner loop body computes InnerStep |
| Tick.RunTickLoop | pojectile_path_simulator/projectile_path_simulator.cpp:141-265 | the inner loop computes RunTick, with the 256 cap as fuel |
| Tick.RunTick | pojectile_path_simulator/projectile_path_simulator.cpp:143-265 | the inner loop as a function with the 256 cap as fuel; its properties are RunTickKeepsBudget and RunTickExtendsPath |
| Tick.RunTicksLoop | pojectile_path_simulator/projectile_path_simulator.cpp:138-267 | the outer loop computes RunTicks, with max_outer as fuel |
| Tick.RunTicks | pojectile_path_simulator/projectile_path_simulator.cpp:138-267 | the outer loop as a function with max_outer as fuel; its properties are RunTicksKeepsBudget and RunTicksExtendsPath |
| Tick.FinalPath | pojectile_path_simulator/projectile_path_simulator.cpp:269-280 | the path gains at most one vertex, and only (px, py); afterwards its last vertex is within eps_out of the final position on both axes; a final position within eps_out of the last vertex leaves the path unchanged, and any other (or an empty path) gets (px, py) appended |
| Tick.EpsOut | pojectile_path_simulator/projectile_path_simulator.cpp:270-273 | eps_out is at least 64 ulps of the final position's scale and at least sixteen nudges; NudgeSwallowed uses this |
| Tick.Trace | pojectile_path_simulator/projectile_path_simulator.cpp:114-281 | the vertices simulate returns, from the outer loop and the final de-duplication; its properties are TraceShape, TraceZeroBudget and NoWallsTrace |
| TickProperties.EventStopRule | pojectile_path_simulator/projectile_path_simulator.cpp:243-246 | an event step halts iff some tied hit is STOP, and the halting vertex is the averaged impact point, whatever else ties |
| TickProperties.EventReflectionRule | pojectile_path_simulator/projectile_path_simulator.cpp:248-250 | after a non-stop event dx is negated iff a tied REFLECT hit is vertical and dy iff one is horizontal; PASS hits change nothing |
| TickProperties.EventBatchingRule | pojectile_path_simulator/projectile_path_simulator.cpp:252-257 | after a non-stop event the batching flag is true iff every tied hit is a pass-through |
| TickProperties.EventConsumption | pojectile_path_simulator/projectile_path_simulator.cpp:227-231 | an event consumes min(s_min, remaining_in_tick) from the tick and the same from the budget, and the tick's remainder stays non-negative and strictly decreases |
| TickProperties.CandidatesAtShape | pojectile_path_simulator/projectile_path_simulator.cpp:152-175 | each candidate of a step is on exactly one orientation and beyond eps_d |
| TickProperties.StopEndsRun | pojectile_path_simulator/projectile_path_simulator.cpp:243-246 | an inner step halts iff a tied hit is STOP; any event's vertex is the averaged impact point |
| TickProperties.ReflectionRule | pojectile_path_simulator/projectile_path_simulator.cpp:248-250 | the reflection rule for a whole inner step |
| TickProperties.BatchingRule | pojectile_path_simulator/projectile_path_simulator.cpp:252-257 | the batching rule for a whole inner step |
| TickProperties.Consumption | pojectile_path_simulator/projectile_path_simulator.cpp:177-231 | an event decreases the tick's remainder and spends the same amount of budget; a step without candidates spends the whole remainder, with direction and flag unchanged |
| TickProperties.AtMostOnePassBeforeBlocking | pojectile_path_simulator/projectile_path_simulator.cpp:202-214 | right after a pure pass-through event, if blockers remain, the next resolved distance is a blocker's: at most one pass-through precedes a blocking hit |
| TickProperties.RunTickKeepsBudget | pojectile_path_simulator/projectile_path_simulator.cpp:141-265 | through a tick the remainder stays between 0 and its start and within the budget, and the budget minus the remainder is unchanged |
| TickProperties.RunTickExtendsPath | pojectile_path_simulator/projectile_path_simulator.cpp:243-244 | a tick only appends vertices, at most one per inner step |
| TickProperties.RunTicksKeepsBudget | pojectile_path_simulator/projectile_path_simulator.cpp:138-267 | the budget never increases and stays non-negative |
| TickProperties.RunTicksExtendsPath | pojectile_path_simulator/projectile_path_simulator.cpp:138-267 | the outer loop only appends vertices, at most the inner cap per tick |
| TickProperties.TraceShape | pojectile_path_simulator/projectile_path_simulator.cpp:120-121 | the path starts at the start point and has between 1 and max_outer * 256 + 2 vertices |
| TickProperties.TraceZeroBudget | pojectile_path_simulator/projectile_path_simulator.cpp:269-280 | with budget 0 the path is exactly [start] |
| TickProperties.NudgeSwallowed | pojectile_path_simulator/projectile_path_simulator.cpp:269-280 | a final position that is only one eps_push nudge off the last vertex is not appended again |
| TickProperties.DriftTickKeepsPath | pojectile_path_simulator/projectile_path_simulator.cpp:177-189 | a tick whose every step finds no candidate appends no vertex |
| TickProperties.DriftTicksKeepPath | pojectile_path_simulator/projectile_path_simulator.cpp:138-267 | ticks without candidates append no vertex |
| TickProperties.NoWallsTrace | pojectile_path_simulator/projectile_path_simulator.cpp:269-280 | with no walls the path starts at the start point and has at most one more vertex |
| TickProperties.NoWallsTick | pojectile_path_simulator/projectile_path_simulator.cpp:177-187 | with no walls and more than eps_d left in the tick, a tick moves the point by the rest of the tick along its direction and spends it, with no vertex |
| TickProperties.NoWallsTicks | pojectile_path_simulator/projectile_path_simulator.cpp:138-267 | with no walls, enough outer ticks move the point by the whole budget along its direction, spend the budget and add no vertex |
| TickProperties.NoWallsEndpoint | pojectile_path_simulator/projectile_path_simulator.cpp:114-281 | with no walls the trace is the start point followed by the final de-duplication of start + budget * direction, which is appended when it is farther than eps_out from the start on x |
| TickProperties.NoWallsFiveTicks | pojectile_path_simulator/projectile_path_simulator.cpp:114-281 | start (0, 0), direction (1, 0), speed 1, budget 5 and no walls give the path [(0, 0), (5, 0)] |
| CellCount.CountRowAppend | min_rectangle_cover/solution.cpp:28-30 | counting the true cells of a concatenation adds the counts |
| CellCount.CountRowZero | min_rectangle_cover/solution.cpp:13-20 | a row's count is at most its length and is 0 iff no cell is true |
| CellCount.BandByPrefixes | min_rectangle_cover/solution.cpp:36-42 | inclusion–exclusion: four prefix counts give the count of the band between them |
| CellCount.SingleCellOnes | min_rectangle_cover/solution.cpp:82-85 | a one-cell rectangle counts exactly its own cell |
| CellCount.HasOnesByCount | min_rectangle_cover/solution.cpp:13-20 | the matrix has a true cell iff its full prefix count is positive |
| CellCount.CountZeroRows | min_rectangle_cover/solution.cpp:27-33 | a prefix count is zero iff every row in it counts zero |
| Solution.MatrixHasOnes | min_rectangle_cover/solution.cpp:13-20 | the scan returns true exactly when some cell is true |
| Solution.FillRow | min_rectangle_cover/solution.cpp:28-32 | one row pass writes Count(i + 1, c) to row i + 1, columns 1..n, and nothing else |
| Solution.BuildPref | min_rectangle_cover/solution.cpp:22-34 | afterwards pref[i][j] is the number of true cells in rows < i and columns < j for 1 <= i <= m, 1 <= j <= n; every other entry is unchanged |
| Solution.SumRect | min_rectangle_cover/solution.cpp:36-42 | inclusion-exclusion over four table entries; SumRectCountsOnes proves it is the rectangle's count of true cells |
| Solution.SumRectCountsOnes | min_rectangle_cover/solution.cpp:36-42 | on a full prefix table, sum_rect is the number of true cells of the inclusive rectangle |
| Solution.PushColumns | min_rectangle_cover/solution.cpp:64-66 | the innermost loop appends exactly the Columns segment |
| Solution.PushEnds | min_rectangle_cover/solution.cpp:63-67 | the third loop appends exactly the Ends segment |
| Solution.PushCorners | min_rectangle_cover/solution.cpp:62-68 | the second loop appends exactly the Corners segment |
| Solution.PushRows | min_rectangle_cover/solution.cpp:61-69 | the outer loop appends exactly Rows from 0 |
| Solution.EnumerateRects | min_rectangle_cover/solution.cpp:59-69 | the four loops build exactly AllRects(m, n) |
| Solution.ChooseBest | min_rectangle_cover/solution.cpp:76-91 | the search returns the choice Best over the whole list |
| Solution.FlipRect | min_rectangle_cover/solution.cpp:97-102 | the nested loops produce Toggle of the matrix by the rectangle |
| Solution.PlayRound | min_rectangle_cover/solution.cpp:75-102 | one round returns Round: the toggled matrix, or None exactly where the runtime_error check fires; row 0 and column 0 of the table stay 0 |
| Solution.Solve | min_rectangle_cover/solution.cpp:44-108 | the outcome equals SolveSpec for the same arguments and round allowance |
| RectEnumeration.AllRects | min_rectangle_cover/solution.cpp:59-69 | every listed rectangle has 0 <= r1 <= r2 < m and 0 <= c1 <= c2 < n |
| RectEnumeration.AllRectsMembers | min_rectangle_cover/solution.cpp:59-69 | a rectangle is listed iff its corners are ordered and inside the matrix; the list is strictly increasing in (r1, c1, r2, c2) order, hence without repeats |
| RectEnumeration.AllRectsLength | min_rectangle_cover/solution.cpp:60 | the list has (m(m+1)/2)·(n(n+1)/2) entries, the size reserved for it |
| RectEnumeration.TriClosed | min_rectangle_cover/solution.cpp:60 | the number of (lo, hi) pairs with lo <= hi < k is k(k+1)/2 |
| Greedy.Best | min_rectangle_cover/solution.cpp:76-91 | the scan over the first k rectangles; BestIsFirstMaximum states what it finds |
| Greedy.BestIsFirstMaximum | min_rectangle_cover/solution.cpp:76-91 | the choice is -1/-1 iff no rectangle has a true top-left cell; otherwise it is eligible, its cover is its count of true cells, no eligible rectangle covers more, and every earlier eligible one covers strictly less |
| Greedy.EligibleCoversOne | min_rectangle_cover/solution.cpp:82-87 | a rectangle with a true top-left cell covers at least one true cell |
| Greedy.Pick | min_rectangle_cover/solution.cpp:93-97 | a picked rectangle is listed, valid and has a true top-left cell |
| Greedy.PickSucceeds | min_rectangle_cover/solution.cpp:93-95 | when every valid rectangle is listed and the matrix has a true cell, a rectangle is picked |
| Greedy.Toggle | min_rectangle_cover/solution.cpp:97-102 | toggling keeps the number of rows and each row's length |
| Greedy.ToggleChangesRect | min_rectangle_cover/solution.cpp:97-102 | a cell changes iff it lies in the rectangle, so every other cell is unchanged |
| Greedy.ToggleTwice | min_rectangle_cover/solution.cpp:97-102 | toggling the same rectangle twice restores the matrix |
| Greedy.Round | min_rectangle_cover/solution.cpp:75-104 | a round yields a matrix iff a rectangle is picked, and that matrix keeps the shape |
| Greedy.Play | min_rectangle_cover/solution.cpp:73-107 | the matrix after k rounds, or None once a round picks nothing; RoundsFinished and RoundsCount relate it to the loop |
| Greedy.Rounds | min_rectangle_cover/solution.cpp:73-107 | the while loop with a round allowance; RoundsFinished, RoundsCount, RoundsFuelMonotone and RoundsNeverFail state its properties |
| Greedy.RoundsFinished | min_rectangle_cover/solution.cpp:74-107 | on finishing, the count is the starting count plus the rounds played; the last matrix is what those rounds produce and has no true cell; every earlier matrix had one |
| Greedy.RoundsCount | min_rectangle_cover/solution.cpp:73-107 | from zero flips, the count returned is the number of rounds that reach a matrix without true cells |
| Greedy.RoundsFuelMonotone | min_rectangle_cover/solution.cpp:74 | once a round allowance suffices, any larger allowance gives the same outcome, so the answer does not depend on the allowance |
| Greedy.RoundsNeverFail | min_rectangle_cover/solution.cpp:93-95 | with the full rectangle list the runtime_error outcome is never reached |
| Greedy.Report | min_rectangle_cover/solution.cpp:94-107 | the outcome is a count iff the loop finished, and then it is the loop's flip count |
| Greedy.SolveSpec | min_rectangle_cover/solution.cpp:44-57 | 0 when m or n is 0, before any other check; invalid_argument iff the dimensions are otherwise wrong; NegativeSize iff m or n is negative; RowCountMismatch iff the row count differs from a positive m; 0 for a valid matrix without true cells |
| Greedy.SolveNeverRuntimeError | min_rectangle_cover/solution.cpp:93-95 | solve never throws runtime_error |
| Greedy.SolveCountsRounds | min_rectangle_cover/solution.cpp:73-107 | a returned count k is the number of rounds: after k rounds the matrix has no true cell, and after each j < k it still has one |

## Left out

- Floating point: coordinates, distances and tolerances are exact reals. IEEE rounding and the infinities `s_np_min`/`s_p_min` start from are not modelled; the infinities are `None`.
- `std::hypot` and `vec_len` are calls into the C library: `Simulate` and `SimulatePath` take their value as a parameter that satisfies `IsLength` (non-negative, zero exactly for the zero vector). `SimulatePath` passes length 1 for the direction it has already normalised, so `simulate`'s second normalisation is taken as exact.
- Simulator.Normalize: does not prove that the normalised direction has unit length, because there are no square roots over exact reals.
- The projectile loops: `max_outer` and the cap of 256 inner steps are modelled only as the fuel of `RunTicks` and `RunTick`. Beyond MaxOuterBounds, nothing is proved about their being enough to spend the whole budget.
- Exact geometry is not claimed: for example, that the polyline length equals the budget. The `eps_push` nudge moves the point without spending budget.
- Greedy loop termination: the source gives no termination argument for `while (matrix_has_ones(matrix))`. `Solve` takes a round allowance `fuel` and reports `OutOfFuel` when it runs out. Partial correctness is proved, together with RoundsFuelMonotone.
- `int` width: counts, indices and `static_cast<int>` are unbounded integers. The overflow of `(m * (m + 1) / 2) * (n * (n + 1) / 2)` for huge m and n is not modelled.
- Error messages are not modelled: `std::invalid_argument` is a reason tag. The row-length message's text, including its literal "i", is not kept.
- Solution.BuildPref: requires a non-empty matrix, because the source reads `matrix[0]`. `solve` only calls it with m > 0.
- `rects.reserve` is a capacity hint with no observable effect. Only the length it names is proved (AllRectsLength).
- The test files `pojectile_path_simulator/test.cpp` and `min_rectangle_cover/test.cpp` are not part of this model; they serve only as evidence of intent. Neither is `min_rectangle_cover/harmonic.h`, whose approximation-ratio bound the solver does not promise.
- The `hit` field of `SideHit` is left out: every hit pushed has it set, and nothing reads it.
