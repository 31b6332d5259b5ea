/** The firmware's rotary controller: a step counter that follows a logical angle. */
module Firmware {
  import opened Circle

  // ---- calibration ---------------------------------------------------------

  datatype BinMap = BinMap(degreesPerStep: real, angles: seq<real>)

  ghost predicate ValidMap(m: BinMap) {
    m.degreesPerStep > 0.0 && |m.angles| == 4 && forall i :: 0 <= i < 4 ==> 0.0 <= m.angles[i] < 360.0
  }

  /** C's fmod: the remainder has the sign of the dividend. */
  function Fmod(a: real): (r: real)
    ensures a >= 0.0 ==> 0.0 <= r < 360.0
    ensures a <= 0.0 ==> -360.0 < r <= 0.0
  {
    if a >= 0.0 then Norm(a) else -Norm(-a)
  }

  function Norm360(a: real): real {
    var r := Fmod(a);
    if r < 0.0 then r + 360.0 else r
  }

  /** The truncating remainder, corrected, is the point of [0, 360). */
  lemma Norm360IsNorm(a: real)
    ensures Norm360(a) == Norm(a)
  {
    if a < 0.0 {
      var back := Norm(-a);
      NormUnique(a, Norm360(a), -Turns(-a) - (if back > 0.0 then 1 else 0));
    }
  }

  /** C's lround: to the nearest integer, halves away from zero. */
  function Lround(x: real): (n: int)
    ensures -0.5 <= n as real - x <= 0.5
  {
    if x >= 0.0 then (x + 0.5).Floor else -((-x + 0.5).Floor)
  }

  function StepsForDelta(m: BinMap, delta: real): int
    requires m.degreesPerStep > 0.0
  {
    Lround(delta / m.degreesPerStep)
  }

  function FirmwareDelta(current: real, target: real): (d: real)
    ensures d == ShortestDelta(current, target)
  {
    Norm360IsNorm(target - current);
    var d := Norm360(target - current);
    if d > 180.0 then d - 360.0 else d
  }

  // ---- the controller as a value -------------------------------------------

  datatype Status = UNHOMED | HOMING | IDLE | MOVING | JAMMED | ESTOP

  /** steps and goal are the stepper's counter and where it is told to go. */
  datatype Rotor = Rotor(status: Status, homed: bool, current: real, target: real, steps: int, goal: int)

  datatype Envelope = Envelope(degreesPerSecond: real, moveTimeout: real)

  predicate IsMoving(r: Rotor) {
    r.status == MOVING || r.status == HOMING
  }

  predicate Refuses(r: Rotor) {
    !r.homed || IsMoving(r) || r.status == ESTOP
  }

  /** A move outside the safety envelope. */
  predicate TooSlow(env: Envelope, delta: real)
    requires env.degreesPerSecond > 0.0
  {
    Abs(delta) / env.degreesPerSecond > env.moveTimeout
  }

  function MoveStarted(m: BinMap, env: Envelope, r: Rotor, target: real): (Rotor, bool)
    requires m.degreesPerStep > 0.0 && env.degreesPerSecond > 0.0
  {
    var delta := ShortestDelta(r.current, target);
    if Abs(delta) < m.degreesPerStep / 2.0 then (r, true)
    else if TooSlow(env, delta) then (r.(status := JAMMED), false)
    else (r.(status := MOVING, target := target, goal := r.steps + StepsForDelta(m, delta)), true)
  }

  function RouteTo(m: BinMap, env: Envelope, r: Rotor, position: int): (Rotor, bool)
    requires ValidMap(m) && env.degreesPerSecond > 0.0 && 1 <= position <= 4
  {
    if Refuses(r) then (r, false) else MoveStarted(m, env, r, m.angles[position - 1])
  }

  /** One tick of a motion: moved is what the stepper did in it, late is the watchdog. */
  function Ticked(r: Rotor, moved: int, late: bool): Rotor {
    if r.status != MOVING then r
    else if late then r.(status := JAMMED, steps := r.steps + moved)
    else if r.steps + moved == r.goal then r.(status := IDLE, steps := r.goal, current := r.target)
    else r.(steps := r.steps + moved)
  }

  /** Halves round away from zero. */
  lemma HalvesRoundOut(x: real)
    ensures Lround(x) as real - x == 0.5 ==> x > 0.0
    ensures Lround(x) as real - x == -0.5 ==> x < 0.0
  {
  }

  /** A route is refused exactly when the chute is not homed, on the move or stopped by
      hand. Otherwise nothing happens within half a motor step, a longer arc than the
      motor can turn in the time allowed jams the controller where it stands, and any
      other arc starts a move to the compartment with a goal half a motor step off at
      most. */
  lemma RouteRule(m: BinMap, env: Envelope, r: Rotor, position: int)
    requires ValidMap(m) && env.degreesPerSecond > 0.0 && 1 <= position <= 4
    ensures var to := m.angles[position - 1];
            var arc := Distance(r.current, to);
            var after := RouteTo(m, env, r, position);
            if !r.homed || r.status == MOVING || r.status == HOMING || r.status == ESTOP then after == (r, false)
            else if arc < m.degreesPerStep / 2.0 then after == (r, true)
            else if arc > env.moveTimeout * env.degreesPerSecond then
              after == (Rotor(JAMMED, r.homed, r.current, r.target, r.steps, r.goal), false)
            else
              && after == (Rotor(MOVING, r.homed, r.current, to, r.steps, after.0.goal), true)
              && Abs(ShortestDelta(r.current, to) - Angle(m.degreesPerStep, after.0.goal - r.steps)) <= m.degreesPerStep / 2.0
  {
    var delta := ShortestDelta(r.current, m.angles[position - 1]);
    QuotientExceeds(Abs(delta), env.degreesPerSecond, env.moveTimeout);
    RoundingError(m, delta);
  }

  /** A tick moves nothing but a motion under way: the watchdog stops it as jammed where
      it is, and otherwise it ends at its target exactly when the steps reach the goal. */
  lemma TickRule(r: Rotor, moved: int, late: bool)
    ensures var after := Ticked(r, moved, late);
            if r.status != MOVING then after == r
            else
              var steps := r.steps + moved;
              && (late ==> after == Rotor(JAMMED, r.homed, r.current, r.target, steps, r.goal))
              && (!late && steps == r.goal ==> after == Rotor(IDLE, r.homed, r.target, r.target, steps, r.goal))
              && (!late && steps != r.goal ==> after == Rotor(MOVING, r.homed, r.current, r.target, steps, r.goal))
  {
  }

  // ---- drift ---------------------------------------------------------------

  /** The angle n motor steps make. */
  function Angle(dps: real, n: int): real
    decreases if n < 0 then -n else n
  {
    if n == 0 then 0.0 else if n > 0 then Angle(dps, n - 1) + dps else Angle(dps, n + 1) - dps
  }

  lemma {:induction false} AngleProduct(dps: real, n: int)
    ensures Angle(dps, n) == (n as real) * dps
    decreases if n < 0 then -n else n
  {
    if n > 0 {
      AngleProduct(dps, n - 1);
    } else if n < 0 {
      AngleProduct(dps, n + 1);
    }
  }

  lemma AngleAdd(dps: real, a: int, b: int)
    ensures Angle(dps, a + b) == Angle(dps, a) + Angle(dps, b)
  {
    AngleProduct(dps, a);
    AngleProduct(dps, b);
    AngleProduct(dps, a + b);
    Distribute(dps, a, b);
  }

  lemma Distribute(dps: real, a: int, b: int)
    ensures ((a + b) as real) * dps == (a as real) * dps + (b as real) * dps
  {
    var x, y := a as real, b as real;
    assert (a + b) as real == x + y;
    assert (x + y) * dps == x * dps + y * dps;
  }

  /** How far the motor's real angle is from the logical one. */
  function Drift(m: BinMap, r: Rotor): real {
    Distance(Angle(m.degreesPerStep, r.steps), r.current)
  }

  lemma DistanceShift(x: real, y: real, d: real)
    ensures Distance(x + d, y + d) == Distance(x, y)
  {
    var e := ShortestDelta(x, y);
    var k := TurnsBetween(x + e, y);
    AddTurns(x + d + e, y + d, k);
    ShortestIsShortest(x + d, y + d, e);
    var f := ShortestDelta(x + d, y + d);
    var l := TurnsBetween(x + d + f, y + d);
    AddTurns(x + f, y, l);
    ShortestIsShortest(x, y, f);
  }

  lemma DistanceAtMost(x: real, a: real, b: real)
    ensures Distance(x + a, x + b) <= Abs(b - a)
  {
    ShortestIsShortest(x + a, x + b, b - a);
  }

  /** Rounding a rotation to whole steps is off by half a step at most. */
  lemma RoundingError(m: BinMap, delta: real)
    requires m.degreesPerStep > 0.0
    ensures Abs(delta - Angle(m.degreesPerStep, StepsForDelta(m, delta))) <= m.degreesPerStep / 2.0
  {
    AngleProduct(m.degreesPerStep, StepsForDelta(m, delta));
    Quotient(delta, m.degreesPerStep);
    HalfStep(delta / m.degreesPerStep, StepsForDelta(m, delta) as real, m.degreesPerStep,
             delta, Angle(m.degreesPerStep, StepsForDelta(m, delta)));
  }

  lemma Quotient(a: real, b: real)
    requires b > 0.0
    ensures a / b * b == a
  {
  }

  lemma HalfStep(q: real, n: real, dps: real, x: real, y: real)
    requires dps > 0.0 && -0.5 <= n - q <= 0.5 && x == q * dps && y == n * dps
    ensures Abs(x - y) <= dps / 2.0
  {
    NonNegative(q - n + 0.5, dps);
    NonNegative(n - q + 0.5, dps);
    assert (q - n + 0.5) * dps == q * dps - n * dps + 0.5 * dps;
    assert (n - q + 0.5) * dps == n * dps - q * dps + 0.5 * dps;
  }

  /** A completed move adds at most half a motor step of drift. */
  lemma MoveDrift(m: BinMap, steps: int, current: real, target: real)
    requires m.degreesPerStep > 0.0
    ensures var dps := m.degreesPerStep;
            var n := StepsForDelta(m, ShortestDelta(current, target));
            Distance(Angle(dps, steps + n), target) <= Distance(Angle(dps, steps), current) + dps / 2.0
  {
    var dps, n := m.degreesPerStep, StepsForDelta(m, ShortestDelta(current, target));
    RoundingError(m, ShortestDelta(current, target));
    AngleAdd(dps, steps, n);
    MoveDriftAt(Angle(dps, steps), Angle(dps, n), current, target);
  }

  lemma MoveDriftAt(x: real, a: real, current: real, target: real)
    ensures Distance(x + a, target) <= Distance(x, current) + Abs(ShortestDelta(current, target) - a)
  {
    var delta := ShortestDelta(current, target);
    Shift(x, current, a, delta);
    DistanceToPoint(x + a, current + delta, target);
  }

  lemma Shift(x: real, y: real, a: real, b: real)
    ensures Distance(x + a, y + b) <= Distance(x, y) + Abs(b - a)
  {
    DistanceAtMost(x, a, b);
    DistanceShift(x, y, b);
    DistanceTriangle(x + a, x + b, y + b);
  }

  /** Distance is between points, not angles. */
  lemma DistanceToPoint(a: real, b: real, c: real)
    requires SamePoint(b, c)
    ensures Distance(a, b) == Distance(a, c)
  {
    ShortestIsShortest(b, c, 0.0);
    ShortestIsShortest(c, b, 0.0);
    DistanceTriangle(a, b, c);
    DistanceTriangle(a, c, b);
  }

  // ---- runs of moves -------------------------------------------------------

  datatype Act = Route(position: int) | Tick(moved: int)

  /** A sequence of calls: routes to the compartments and ticks of a healthy motor. */
  ghost predicate Calls(acts: seq<Act>) {
    forall i :: 0 <= i < |acts| && acts[i].Route? ==> 1 <= acts[i].position <= 4
  }

  function Do(m: BinMap, env: Envelope, r: Rotor, act: Act): Rotor
    requires ValidMap(m) && env.degreesPerSecond > 0.0
    requires act.Route? ==> 1 <= act.position <= 4
  {
    match act
    case Route(position) => RouteTo(m, env, r, position).0
    case Tick(moved) => Ticked(r, moved, false)
  }

  function Run(m: BinMap, env: Envelope, r: Rotor, acts: seq<Act>): Rotor
    requires ValidMap(m) && env.degreesPerSecond > 0.0 && Calls(acts)
  {
    if acts == [] then r else Do(m, env, Run(m, env, r, acts[..|acts| - 1]), acts[|acts| - 1])
  }

  /** How many moves a run completed. */
  function Completed(m: BinMap, env: Envelope, r: Rotor, acts: seq<Act>): nat
    requires ValidMap(m) && env.degreesPerSecond > 0.0 && Calls(acts)
  {
    if acts == [] then 0
    else
      var before := Run(m, env, r, acts[..|acts| - 1]);
      Completed(m, env, r, acts[..|acts| - 1])
      + if before.status == MOVING && Do(m, env, before, acts[|acts| - 1]).status == IDLE then 1 else 0
  }

  /** Just homed, at zero steps and zero degrees. */
  function Homed(): Rotor {
    Rotor(IDLE, true, 0.0, 0.0, 0, 0)
  }

  /** A homed rotor whose drift is at most slack, also once a move under way ends,
      which may cost another half step. */
  ghost predicate Tracks(m: BinMap, r: Rotor, slack: real) {
    && r.homed && r.status in {IDLE, MOVING, JAMMED}
    && (r.status != MOVING ==> Drift(m, r) <= slack)
    && (r.status == MOVING ==> Distance(Angle(m.degreesPerStep, r.goal), r.target) <= slack + m.degreesPerStep / 2.0)
  }

  lemma StartTracks(m: BinMap, env: Envelope, r: Rotor, target: real, slack: real)
    requires ValidMap(m) && env.degreesPerSecond > 0.0 && Tracks(m, r, slack) && r.status != MOVING
    ensures Tracks(m, MoveStarted(m, env, r, target).0, slack)
  {
    MoveDrift(m, r.steps, r.current, target);
  }

  lemma TickTracks(m: BinMap, r: Rotor, moved: int, slack: real)
    requires m.degreesPerStep > 0.0 && Tracks(m, r, slack)
    ensures var after := Ticked(r, moved, false);
            Tracks(m, after, if r.status == MOVING && after.status == IDLE then slack + m.degreesPerStep / 2.0 else slack)
  {
  }

  /** After homing and any sequence of calls without a watchdog jam, the motor is
      where the controller thinks it is to within half a step for each completed move. */
  lemma {:induction false} DriftIsBounded(m: BinMap, env: Envelope, acts: seq<Act>)
    requires ValidMap(m) && env.degreesPerSecond > 0.0 && Calls(acts)
    ensures Tracks(m, Run(m, env, Homed(), acts), Angle(m.degreesPerStep / 2.0, Completed(m, env, Homed(), acts)))
  {
    if acts == [] {
      DistanceToPoint(0.0, 0.0, 0.0);
      ShortestIsShortest(0.0, 0.0, 0.0);
    } else {
      var rest, last := acts[..|acts| - 1], acts[|acts| - 1];
      var before, slack := Run(m, env, Homed(), rest), Angle(m.degreesPerStep / 2.0, Completed(m, env, Homed(), rest));
      DriftIsBounded(m, env, rest);
      if last.Tick? {
        TickTracks(m, before, last.moved, slack);
      } else if !Refuses(before) {
        StartTracks(m, env, before, m.angles[last.position - 1], slack);
      }
    }
  }

  // ---- exact calibrations --------------------------------------------------

  /** A turn and every bin angle are whole numbers of motor steps. */
  ghost predicate WholeSteps(m: BinMap, turn: int, bins: seq<int>) {
    && |bins| == |m.angles| && Angle(m.degreesPerStep, turn) == 360.0
    && forall i :: 0 <= i < |bins| ==> m.angles[i] == Angle(m.degreesPerStep, bins[i])
  }

  /** The step counter names the logical angle exactly, and so it will when a move
      under way ends; the logical angle is a whole number of steps. */
  ghost predicate Exact(m: BinMap, r: Rotor, at: int) {
    && r.homed && r.status in {IDLE, MOVING, JAMMED}
    && (if r.status == MOVING then r.target else r.current) == Angle(m.degreesPerStep, at)
    && SamePoint(Angle(m.degreesPerStep, if r.status == MOVING then r.goal else r.steps), Angle(m.degreesPerStep, at))
  }

  /** A rotation between whole numbers of steps is a whole number of steps. */
  lemma WholeDelta(dps: real, turn: int, a: int, b: int) returns (n: int)
    requires Angle(dps, turn) == 360.0
    ensures ShortestDelta(Angle(dps, a), Angle(dps, b)) == Angle(dps, n)
  {
    var d := ShortestDelta(Angle(dps, a), Angle(dps, b));
    var k := TurnsBetween(Angle(dps, a) + d, Angle(dps, b));
    n := b + (turn * k + -a);
    AngleAdd(dps, b, turn * k + -a);
    AngleAdd(dps, turn * k, -a);
    AngleAdd(dps, a, -a);
    WholeTurns(dps, turn, k);
  }

  lemma WholeTurns(dps: real, turn: int, k: int)
    requires Angle(dps, turn) == 360.0
    ensures Angle(dps, turn * k) == 360.0 * (k as real)
  {
    AngleProduct(dps, turn);
    AngleProduct(dps, turn * k);
    assert ((turn * k) as real) == (turn as real) * (k as real);
    assert ((turn as real) * (k as real)) * dps == ((turn as real) * dps) * (k as real);
  }

  lemma WholeRounds(m: BinMap, n: int)
    requires m.degreesPerStep > 0.0
    ensures StepsForDelta(m, Angle(m.degreesPerStep, n)) == n
  {
    AngleProduct(m.degreesPerStep, n);
    assert Angle(m.degreesPerStep, n) / m.degreesPerStep == n as real;
  }

  lemma StartExact(m: BinMap, env: Envelope, r: Rotor, turn: int, at: int, to: int)
    requires ValidMap(m) && env.degreesPerSecond > 0.0 && Angle(m.degreesPerStep, turn) == 360.0
    requires Exact(m, r, at) && r.status != MOVING
    ensures var after := MoveStarted(m, env, r, Angle(m.degreesPerStep, to)).0;
            Exact(m, after, if after.status == MOVING then to else at)
  {
    var dps := m.degreesPerStep;
    var n := WholeDelta(dps, turn, at, to);
    WholeRounds(m, n);
    AngleAdd(dps, r.steps, n);
    var k := TurnsBetween(Angle(dps, r.steps), Angle(dps, at));
    AddTurns(Angle(dps, r.steps) + Angle(dps, n), Angle(dps, at) + Angle(dps, n), k);
  }

  /** With such a calibration the motor is exactly where the controller thinks. */
  lemma {:induction false} NoDrift(m: BinMap, env: Envelope, acts: seq<Act>, turn: int,
                                   bins: seq<int>) returns (at: int)
    requires ValidMap(m) && env.degreesPerSecond > 0.0 && Calls(acts) && WholeSteps(m, turn, bins)
    ensures Exact(m, Run(m, env, Homed(), acts), at)
    ensures Run(m, env, Homed(), acts).status != MOVING ==> Drift(m, Run(m, env, Homed(), acts)) == 0.0
  {
    if acts == [] {
      at := 0;
    } else {
      var rest, last := acts[..|acts| - 1], acts[|acts| - 1];
      var before := Run(m, env, Homed(), rest);
      at := NoDrift(m, env, rest, turn, bins);
      if last.Route? && !Refuses(before) {
        StartExact(m, env, before, turn, at, bins[last.position - 1]);
        at := if Run(m, env, Homed(), acts).status == MOVING then bins[last.position - 1] else at;
      }
    }
    var r := Run(m, env, Homed(), acts);
    if r.status != MOVING {
      ShortestIsShortest(Angle(m.degreesPerStep, r.steps), r.current, 0.0);
    }
  }

  // ---- aligned compartment -------------------------------------------------

  /** The first compartment from i on within one degree, or 0. */
  function AlignedFrom(m: BinMap, angle: real, i: int): int
    requires |m.angles| == 4 && 1 <= i <= 5
    decreases 5 - i
  {
    if i == 5 then 0
    else if Distance(angle, m.angles[i - 1]) < 1.0 then i
    else AlignedFrom(m, angle, i + 1)
  }

  /** The compartment a position within one degree reports, when no other is that near. */
  lemma {:induction false} AlignedAt(m: BinMap, angle: real, position: int, i: int)
    requires |m.angles| == 4 && 1 <= i <= 5 && 1 <= position <= 4
    requires forall j :: 0 <= j < 4 && j != position - 1 ==> Distance(angle, m.angles[j]) >= 1.0
    ensures AlignedFrom(m, angle, i) ==
            if i <= position && Distance(angle, m.angles[position - 1]) < 1.0 then position else 0
    decreases 5 - i
  {
    if i < 5 {
      AlignedAt(m, angle, position, i + 1);
    }
  }

  /** Bins pairwise at least one degree and half a motor step apart. */
  ghost predicate WellSpaced(m: BinMap) {
    forall j, k :: 0 <= j < k < |m.angles| ==> Distance(m.angles[j], m.angles[k]) >= 1.0 + m.degreesPerStep / 2.0
  }

  lemma NearBinReports(m: BinMap, angle: real, position: int)
    requires ValidMap(m) && WellSpaced(m) && 1 <= position <= 4
    requires Distance(angle, m.angles[position - 1]) < m.degreesPerStep / 2.0 || angle == m.angles[position - 1]
    ensures AlignedFrom(m, angle, 1) == if Distance(angle, m.angles[position - 1]) < 1.0 then position else 0
    ensures m.degreesPerStep <= 2.0 || angle == m.angles[position - 1] ==> AlignedFrom(m, angle, 1) == position
  {
    var here := m.angles[position - 1];
    ShortestIsShortest(here, here, 0.0);
    forall j | 0 <= j < 4 && j != position - 1
      ensures Distance(angle, m.angles[j]) >= 1.0
    {
      DistanceTriangle(here, angle, m.angles[j]);
      DistanceSymmetric(here, angle);
      DistanceSymmetric(here, m.angles[j]);
    }
    AlignedAt(m, angle, position, 1);
  }

  /** The ticks after a call, without a watchdog jam. */
  function Ticks(r: Rotor, moves: seq<int>): Rotor {
    if moves == [] then r else Ticked(Ticks(r, moves[..|moves| - 1]), moves[|moves| - 1], false)
  }

  /** A move under way stays under way to its target until it ends there, at rest. */
  lemma {:induction false} MoveEndsAtTarget(r: Rotor, moves: seq<int>)
    ensures var after := Ticks(r, moves);
            if r.status != MOVING then after == r
            else (after.status == MOVING || (after.status == IDLE && after.current == r.target)) && after.target == r.target
  {
    if moves != [] {
      MoveEndsAtTarget(r, moves[..|moves| - 1]);
    }
  }

  /** An accepted route, once it is over: a move has ended IDLE and reports its
      compartment; a chute that was aligned already stays where it is and reports the
      compartment exactly when it is within one degree, which motor steps of at most
      two degrees ensure. */
  lemma AcceptedRouteReports(m: BinMap, env: Envelope, r: Rotor, position: int, moves: seq<int>)
    requires ValidMap(m) && WellSpaced(m) && env.degreesPerSecond > 0.0 && 1 <= position <= 4
    requires RouteTo(m, env, r, position).1
    ensures var started, after := RouteTo(m, env, r, position).0, Ticks(RouteTo(m, env, r, position).0, moves);
            after.status != MOVING ==>
              && (started.status == MOVING ==> after.status == IDLE && AlignedFrom(m, after.current, 1) == position)
              && (started.status != MOVING ==>
                    && after == r
                    && AlignedFrom(m, r.current, 1) ==
                       (if Distance(r.current, m.angles[position - 1]) < 1.0 then position else 0)
                    && (m.degreesPerStep <= 2.0 ==> AlignedFrom(m, r.current, 1) == position))
  {
    var started := RouteTo(m, env, r, position).0;
    MoveEndsAtTarget(started, moves);
    if started.status == MOVING {
      NearBinReports(m, m.angles[position - 1], position);
    } else {
      NearBinReports(m, r.current, position);
    }
  }

  // ---- the controller ------------------------------------------------------

  class RotaryController {
    const bins: BinMap
    const envelope: Envelope
    var status: Status
    var homed: bool
    var current: real
    var target: real
    var steps: int
    var goal: int

    ghost predicate Valid()
      reads this
    {
      ValidMap(bins) && envelope.degreesPerSecond > 0.0
    }

    ghost function View(): Rotor
      reads this
    {
      Rotor(status, homed, current, target, steps, goal)
    }

    constructor (bins: BinMap, envelope: Envelope)
      requires ValidMap(bins) && envelope.degreesPerSecond > 0.0
      ensures Valid() && this.bins == bins && this.envelope == envelope
      ensures View() == Rotor(UNHOMED, false, 0.0, 0.0, 0, 0)
    {
      this.bins := bins;
      this.envelope := envelope;
      status, homed := UNHOMED, false;
      current, target := 0.0, 0.0;
      steps, goal := 0, 0;
    }

    /** Starts a rotation by the shorter way; nothing moves when the chute is aligned
        already or the move would take too long. */
    method StartMoveTo(to: real) returns (ok: bool)
      requires Valid()
      modifies `status, `target, `goal
      ensures Valid() && (View(), ok) == MoveStarted(bins, envelope, old(View()), to)
    {
      var delta := FirmwareDelta(current, to);
      if Abs(delta) < bins.degreesPerStep / 2.0 {
        return true;
      }
      if Abs(delta) / envelope.degreesPerSecond > envelope.moveTimeout {
        status := JAMMED;
        return false;
      }
      goal := steps + StepsForDelta(bins, delta);
      target := to;
      status := MOVING;
      ok := true;
    }

    method RouteToPosition(position: int) returns (ok: bool)
      requires Valid() && 1 <= position <= 4
      modifies `status, `target, `goal
      ensures Valid() && (View(), ok) == RouteTo(bins, envelope, old(View()), position)
    {
      if !homed || status == MOVING || status == HOMING || status == ESTOP {
        return false;
      }
      ok := StartMoveTo(bins.angles[position - 1]);
    }

    /** One pass of the loop while a motion is under way. */
    method Tick(moved: int, late: bool)
      requires Valid()
      modifies `status, `current, `steps
      ensures Valid() && View() == Ticked(old(View()), moved, late)
    {
      if status != MOVING {
        return;
      }
      steps := steps + moved;
      if late {
        status := JAMMED;
        return;
      }
      if steps == goal {
        current := target;
        status := IDLE;
      }
    }

    method MechanismPosition() returns (position: int)
      requires Valid()
      ensures position == AlignedFrom(bins, current, 1)
    {
      position := 1;
      while position <= 4
        invariant 1 <= position <= 5
        invariant AlignedFrom(bins, current, 1) == AlignedFrom(bins, current, position)
      {
        if Abs(FirmwareDelta(current, bins.angles[position - 1])) < 1.0 {
          return;
        }
        position := position + 1;
      }
      position := 0;
    }
  }
}
