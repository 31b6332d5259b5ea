/** The rotary chute: its calibration table, homing, routing and jams.

    Angles are reals; the code also rounds each normalized angle to four decimals. */
module Rotary {
  import opened Sums
  import opened Circle

  /** One calibrated bin: a compartment index and its home-relative angle. */
  datatype BinTarget = BinTarget(position: int, angle: real)

  /** The calibration table in declaration order. */
  datatype BinMap = BinMap(targets: seq<BinTarget>, degreesPerStep: real)

  /** What the table's constructor makes sure of. */
  ghost predicate ValidMap(m: BinMap) {
    && m.degreesPerStep > 0.0 && |m.targets| == 4
    && (forall i :: 0 <= i < 4 ==> 1 <= m.targets[i].position <= 4 && 0.0 <= m.targets[i].angle < 360.0)
    && (forall i, j :: 0 <= i < j < 4 ==> m.targets[i].position != m.targets[j].position)
  }

  /** The angle of a compartment; None is the code's KeyError. */
  function Lookup(targets: seq<BinTarget>, position: int): (angle: Option<real>)
    ensures angle.Some? ==> BinTarget(position, angle.value) in targets
    ensures angle.None? ==> forall i :: 0 <= i < |targets| ==> targets[i].position != position
  {
    if targets == [] then None
    else if targets[0].position == position then Some(targets[0].angle)
    else Lookup(targets[1..], position)
  }

  /** A valid table has exactly the compartments 1 to 4. */
  lemma KnownPositions(m: BinMap, position: int)
    requires ValidMap(m)
    ensures Lookup(m.targets, position).Some? <==> 1 <= position <= 4
  {
    var t := m.targets;
    if 1 <= position <= 4 {
      assert position in [t[0].position, t[1].position, t[2].position, t[3].position];
    }
  }

  // ---- aligned compartment -------------------------------------------------

  /** The first compartment within one degree, or 0 between compartments. */
  function Aligned(targets: seq<BinTarget>, angle: real): int {
    if targets == [] then 0
    else if Distance(angle, targets[0].angle) < 1.0 then targets[0].position
    else Aligned(targets[1..], angle)
  }

  lemma {:induction false} AlignedAt(targets: seq<BinTarget>, angle: real, i: nat)
    requires i < |targets| && Distance(angle, targets[i].angle) < 1.0
    requires forall j :: 0 <= j < |targets| && j != i ==> Distance(angle, targets[j].angle) >= 1.0
    ensures Aligned(targets, angle) == targets[i].position
  {
    if i > 0 {
      AlignedAt(targets[1..], angle, i - 1);
    }
  }

  lemma {:induction false} AlignedNowhere(targets: seq<BinTarget>, angle: real)
    requires forall j :: 0 <= j < |targets| ==> Distance(angle, targets[j].angle) >= 1.0
    ensures Aligned(targets, angle) == 0
  {
    if targets != [] {
      AlignedNowhere(targets[1..], angle);
    }
  }

  /** Bins pairwise more than one degree and half a motor step apart. */
  ghost predicate WellSpaced(m: BinMap) {
    forall i, j :: 0 <= i < j < |m.targets| ==>
      Distance(m.targets[i].angle, m.targets[j].angle) >= 1.0 + m.degreesPerStep / 2.0
  }

  /** An angle a route to a compartment can end at reports that compartment
      exactly when it is within one degree of it, and no compartment otherwise. */
  lemma ReportsCompartment(m: BinMap, angle: real, i: nat)
    requires ValidMap(m) && WellSpaced(m) && i < 4
    requires Distance(angle, m.targets[i].angle) < m.degreesPerStep / 2.0 || SamePoint(angle, m.targets[i].angle)
    ensures Aligned(m.targets, angle) == if Distance(angle, m.targets[i].angle) < 1.0 then m.targets[i].position else 0
    ensures m.degreesPerStep <= 2.0 ==> Aligned(m.targets, angle) == m.targets[i].position
  {
    var here := m.targets[i].angle;
    SamePointNoDistance(angle, here);
    forall j | 0 <= j < 4 && j != i
      ensures Distance(angle, m.targets[j].angle) >= 1.0
    {
      var there := m.targets[j].angle;
      DistanceTriangle(here, angle, there);
      DistanceSymmetric(here, angle);
      DistanceSymmetric(here, there);
    }
    if Distance(angle, here) < 1.0 {
      AlignedAt(m.targets, angle, i);
    } else {
      AlignedNowhere(m.targets, angle);
    }
  }

  lemma SamePointNoDistance(a: real, b: real)
    ensures SamePoint(a, b) ==> Distance(a, b) == 0.0
  {
    if SamePoint(a, b) {
      ShortestIsShortest(a, b, 0.0);
    }
  }

  // ---- the path of one move ------------------------------------------------

  /** The rotation i steps of s degrees make. */
  function Along(s: real, i: nat): real {
    if i == 0 then 0.0 else Along(s, i - 1) + s
  }

  /** Where they lead. */
  function At(start: real, s: real, i: nat): real {
    Norm(start + Along(s, i))
  }

  predicate JamsAt(start: real, s: real, mark: Option<real>, i: nat) {
    mark.Some? && Crosses(At(start, s, i), At(start, s, i + 1), mark.value)
  }

  /** The first of n steps that runs into the mark, or n. */
  function FirstJam(start: real, s: real, mark: Option<real>, i: nat, n: nat): (j: nat)
    requires i <= n
    ensures i <= j <= n && (j < n ==> JamsAt(start, s, mark, j))
    ensures forall k :: i <= k < j ==> !JamsAt(start, s, mark, k)
    decreases n - i
  {
    if i == n || JamsAt(start, s, mark, i) then i else FirstJam(start, s, mark, i + 1, n)
  }

  function Max(a: real, b: real): real {
    if a < b then b else a
  }

  /** How many steps a rotation is cut into. */
  function Steps(delta: real): (n: nat)
    ensures n >= 1
  {
    var n := (Abs(delta) / 2.5).Floor;
    if n < 1 then 1 else n
  }

  /** The signed size of one step. */
  function StepSize(delta: real): real {
    var size := Abs(delta) / (Steps(delta) as real);
    if delta > 0.0 then size else -size
  }

  /** Every step of a move is shorter than five degrees and together they cover
      the rotation. */
  lemma StepsCover(delta: real)
    ensures Abs(StepSize(delta)) < 5.0
    ensures Along(StepSize(delta), Steps(delta)) == delta
    ensures delta > 0.0 ==> StepSize(delta) > 0.0
    ensures delta < 0.0 ==> StepSize(delta) < 0.0
    ensures Steps(delta) >= 2 <==> Abs(delta) >= 5.0
  {
    var n := Steps(delta);
    var size := Abs(delta) / (n as real);
    AlongProduct(size, n);
    AlongNegated(size, n);
    assert Abs(delta) < 5.0 * (n as real);
    Share(Abs(delta), n as real);
  }

  /** One of n equal shares of a total. */
  lemma Share(total: real, n: real)
    requires 0.0 <= total < 5.0 * n && n > 0.0
    ensures total / n * n == total && 0.0 <= total / n < 5.0 && (total > 0.0 ==> total / n > 0.0)
  {
    var x := total / n;
    assert x * n == total;
    if x < 0.0 {
      NonNegative(-x, n);
    } else if x >= 5.0 {
      NonNegative(x - 5.0, n);
    }
  }

  lemma {:induction false} AlongProduct(s: real, n: nat)
    ensures Along(s, n) == s * (n as real)
  {
    if n > 0 {
      AlongProduct(s, n - 1);
    }
  }

  lemma {:induction false} Monotone(s: real, i: nat, j: nat)
    requires 0.0 < s && i <= j
    ensures Along(s, i) <= Along(s, j)
  {
    if i < j {
      Monotone(s, i, j - 1);
    }
  }

  lemma {:induction false} AlongNegated(s: real, i: nat)
    ensures Along(-s, i) == -Along(s, i)
  {
    if i > 0 {
      AlongNegated(s, i - 1);
    }
  }

  datatype Outcome = Arrived | AlreadyThere | Jammed | TimedOut | NotHomed | UnknownPosition

  /** What one routing request did: how it ended, where the chute stands and the
      angles reported on the way. */
  datatype Run = Run(outcome: Outcome, angle: real, trail: seq<real>)

  datatype Limits = Limits(degreesPerSecond: real, moveTimeout: real, maxRotation: real)

  function MoveSeconds(limits: Limits, delta: real): real
  {
    Abs(delta) / Max(limits.degreesPerSecond, 0.000000001)
  }

  function Trail(start: real, s: real, n: nat): (trail: seq<real>)
    ensures |trail| == n
    ensures forall k :: 0 <= k < n ==> trail[k] == At(start, s, k + 1)
  {
    seq(n, k requires 0 <= k < n => At(start, s, k + 1))
  }

  /** A rotation by delta that ends on the target unless a step runs into the mark. */
  function Rotate(start: real, delta: real, target: real, mark: Option<real>): Run {
    var s, n := StepSize(delta), Steps(delta);
    var j := FirstJam(start, s, mark, 0, n);
    if j < n then Run(Jammed, if j == 0 then start else At(start, s, j), Trail(start, s, j))
    else Run(Arrived, Norm(target), Trail(start, s, n) + [Norm(target)])
  }

  function Route(m: BinMap, limits: Limits, homed: bool, angle: real, mark: Option<real>, position: int): Run {
    if !homed then Run(NotHomed, angle, [])
    else if Lookup(m.targets, position).None? then Run(UnknownPosition, angle, [])
    else
      var target := Lookup(m.targets, position).value;
      var delta := ShortestDelta(angle, target);
      if Abs(delta) < m.degreesPerStep / 2.0 then Run(AlreadyThere, angle, [])
      else if MoveSeconds(limits, delta) > limits.moveTimeout then Run(TimedOut, angle, [])
      else Rotate(angle, delta, target, mark)
  }

  // ---- jams ----------------------------------------------------------------

  /** A step of a clockwise move runs into the mark exactly when the mark lies on
      the stretch the step covers. */
  lemma ClockwiseStep(start: real, s: real, mark: real, i: nat)
    requires 0.0 < s && Along(s, i + 1) <= 180.0
    ensures JamsAt(start, s, Some(mark), i)
       <==> Along(s, i) < Norm(mark - start) <= Along(s, i + 1)
  {
    var here, next := At(start, s, i), At(start, s, i + 1);
    Monotone(s, 0, i);
    CrossesClockwise(here, next, mark);
    Gap(start, s, i);
    Ahead(start, Along(s, i), mark);
  }

  /** Consecutive stops are one step apart. */
  lemma Gap(start: real, s: real, i: nat)
    requires -180.0 <= s <= 180.0
    ensures Norm(At(start, s, i + 1) - At(start, s, i)) == if s >= 0.0 then s else s + 360.0
    ensures At(start, s, i + 1) == Norm(At(start, s, i) + s)
  {
    var x := start + Along(s, i);
    NormDifference(x, x + s);
    NormAdd(x, s);
    NormUnique(s, if s >= 0.0 then s else s + 360.0, if s >= 0.0 then 0 else -1);
  }

  /** How far ahead the mark is after a rotation by t. */
  lemma Ahead(start: real, t: real, mark: real)
    requires -180.0 <= t <= 180.0
    ensures var left := Norm(mark - start) - t;
            Norm(mark - Norm(start + t)) == if left < 0.0 then left + 360.0 else if left >= 360.0 then left - 360.0 else left
  {
    NormAdd(start + t, mark);
    NormAdd(mark - start, -t);
    var left := Norm(mark - start) - t;
    if left < 0.0 {
      NormUnique(left, left + 360.0, -1);
    } else if left >= 360.0 {
      NormUnique(left, left - 360.0, 1);
    } else {
      NormUnique(left, left, 0);
    }
  }

  /** The step on which a distance is covered. */
  lemma {:induction false} CoveringStep(s: real, n: nat, x: real) returns (i: nat)
    requires 0.0 < s && 0.0 < x <= Along(s, n)
    ensures i < n && Along(s, i) < x <= Along(s, i + 1)
  {
    assert n >= 1;
    if Along(s, n - 1) < x {
      i := n - 1;
    } else {
      i := CoveringStep(s, n - 1, x);
    }
  }

  /** Some step of a clockwise move runs into the mark exactly when the mark lies
      in the arc the move covers. */
  lemma ClockwiseArc(start: real, s: real, mark: real, n: nat)
    requires 0.0 < s && Along(s, n) <= 180.0
    ensures FirstJam(start, s, Some(mark), 0, n) < n <==> 0.0 < Norm(mark - start) <= Along(s, n)
  {
    var ahead, j := Norm(mark - start), FirstJam(start, s, Some(mark), 0, n);
    if j < n {
      Monotone(s, 0, j);
      Monotone(s, j + 1, n);
      ClockwiseStep(start, s, mark, j);
    }
    if 0.0 < ahead <= Along(s, n) {
      var i := CoveringStep(s, n, ahead);
      Monotone(s, i + 1, n);
      ClockwiseStep(start, s, mark, i);
    }
  }

  /** Rotation clockwise jams exactly when the mark lies in the half-open arc from
      the start to the target, and it stops short of the mark by less than five degrees. */
  lemma ClockwiseJam(start: real, delta: real, target: real, mark: real)
    requires 0.0 < delta <= 180.0
    ensures var run := Rotate(start, delta, target, Some(mark));
            && (run.outcome == Jammed <==> 0.0 < Norm(mark - start) <= delta)
            && (run.outcome == Jammed ==> 0.0 < Norm(mark - run.angle) < 5.0)
            && (run.outcome == Jammed ==> Norm(run.angle - start) < Norm(mark - start))
  {
    StepsCover(delta);
    var s, n := StepSize(delta), Steps(delta);
    ClockwiseArc(start, s, mark, n);
    var j := FirstJam(start, s, Some(mark), 0, n);
    if j < n {
      Monotone(s, 0, j);
      Monotone(s, j + 1, n);
      ClockwiseStep(start, s, mark, j);
      StoppedShort(start, s, mark, j);
    }
  }

  lemma StoppedShort(start: real, s: real, mark: real, j: nat)
    requires 0.0 < s < 5.0 && Along(s, j + 1) <= 180.0 && 0.0 <= Along(s, j)
    requires Along(s, j) < Norm(mark - start) <= Along(s, j + 1)
    ensures var angle := if j == 0 then start else At(start, s, j);
            && 0.0 < Norm(mark - angle) < 5.0
            && Norm(angle - start) < Norm(mark - start)
  {
    var t := Along(s, j);
    Ahead(start, t, mark);
    NormAdd(start + t, -start);
    NormUnique(t, t, 0);
    if j == 0 {
      NormUnique(0.0, 0.0, 0);
    }
  }

  /** A step of a counter-clockwise move jams unless the mark lies on the stretch
      it covers: the test reads every step clockwise. */
  lemma CounterClockwiseStep(start: real, s: real, mark: real, i: nat)
    requires s < 0.0 && -180.0 <= Along(s, i + 1) && Along(s, i) <= 0.0
    ensures JamsAt(start, s, Some(mark), i)
       <==> !(-Along(s, i) <= Norm(start - mark) < -Along(s, i + 1))
  {
    var here, next, t := At(start, s, i), At(start, s, i + 1), -Along(s, i);
    CrossesClockwise(here, next, mark);
    Gap(start, s, i);
    Ahead(start, -t, mark);
    Opposite(start, mark);
  }

  lemma Opposite(a: real, b: real)
    ensures Norm(a - b) == if Norm(b - a) == 0.0 then 0.0 else 360.0 - Norm(b - a)
  {
    var back := Norm(b - a);
    AddTurns(a - b, -back, -Turns(b - a));
    if back == 0.0 {
      NormUnique(0.0, 0.0, 0);
    } else {
      NormUnique(-back, 360.0 - back, -1);
    }
  }

  /** Rotation counter-clockwise: any mark at all stops a move of five degrees or
      more, and a shorter move is stopped unless the mark lies in its arc. */
  lemma CounterClockwiseJam(start: real, delta: real, target: real, mark: real)
    requires -180.0 < delta < 0.0
    ensures Rotate(start, delta, target, Some(mark)).outcome == Jammed
       <==> delta <= -5.0 || !(Norm(start - mark) < -delta)
  {
    StepsCover(delta);
    var s, n := StepSize(delta), Steps(delta);
    AlongNegated(s, 1);
    AlongNegated(s, n);
    Monotone(-s, 1, n);
    CounterClockwiseStep(start, s, mark, 0);
    if n >= 2 {
      AlongNegated(s, 2);
      Monotone(-s, 2, n);
      CounterClockwiseStep(start, s, mark, 1);
      assert JamsAt(start, s, Some(mark), 0) || JamsAt(start, s, Some(mark), 1);
    }
  }

  /** A healthy chute that moves arrives, and a completed move advances along one
      arc of at most half a turn, step by step, onto the target. */
  lemma ArrivalPath(start: real, target: real, mark: Option<real>)
    ensures var delta := ShortestDelta(start, target);
            var run := Rotate(start, delta, target, mark);
            && (mark.None? ==> run.outcome == Arrived)
            && (run.outcome == Arrived ==>
                  && run.angle == Norm(target)
                  && |run.trail| == Steps(delta) + 1
                  && run.trail[Steps(delta) - 1] == run.trail[Steps(delta)] == Norm(target)
                  && run.trail[0] == Norm(start + StepSize(delta))
                  && forall k :: 1 <= k < Steps(delta) ==> run.trail[k] == Norm(run.trail[k - 1] + StepSize(delta)))
  {
    var delta := ShortestDelta(start, target);
    StepsCover(delta);
    TrailSteps(start, StepSize(delta), Steps(delta));
  }

  /** Every reported angle is one step further along. */
  lemma TrailSteps(start: real, s: real, n: nat)
    requires -180.0 <= s <= 180.0
    ensures n > 0 ==> Trail(start, s, n)[0] == Norm(start + s)
    ensures forall k :: 1 <= k < n ==> Trail(start, s, n)[k] == Norm(Trail(start, s, n)[k - 1] + s)
  {
    assert Along(s, 1) == s;
    forall k | 1 <= k < n
      ensures Trail(start, s, n)[k] == Norm(Trail(start, s, n)[k - 1] + s)
    {
      Gap(start, s, k);
    }
  }

  /** Every reported angle lies on the one arc from the start to the target, and
      each lies further along it than the one before, also when the move jams. */
  lemma StaysOnArc(start: real, target: real, mark: Option<real>, k: nat)
    ensures var delta := ShortestDelta(start, target);
            var trail := Rotate(start, delta, target, mark).trail;
            k < |trail| && delta != 0.0 ==>
              var gone := if delta > 0.0 then Norm(trail[k] - start) else Norm(start - trail[k]);
              && gone == Along(Abs(StepSize(delta)), if k < Steps(delta) then k + 1 else Steps(delta))
              && 0.0 < gone <= Abs(delta)
  {
    var delta := ShortestDelta(start, target);
    if k < |Rotate(start, delta, target, mark).trail| && delta != 0.0 {
      StepsCover(delta);
      var s, n := StepSize(delta), Steps(delta);
      TrailIsStops(start, delta, target, mark, k);
      GoneAlong(start, s, if k < n then k + 1 else n, n);
    }
  }

  /** The arc covered by the first i of n steps. */
  lemma GoneAlong(start: real, s: real, i: nat, n: nat)
    requires s != 0.0 && 1 <= i <= n && -180.0 <= Along(s, n) <= 180.0
    ensures var gone := if s > 0.0 then Norm(At(start, s, i) - start) else Norm(start - At(start, s, i));
            gone == Along(Abs(s), i) && 0.0 < gone <= Abs(Along(s, n))
  {
    AlongNegated(s, i);
    AlongNegated(s, n);
    Monotone(Abs(s), 1, i);
    Monotone(Abs(s), i, n);
    Travelled(start, Along(s, i));
  }

  lemma TrailIsStops(start: real, delta: real, target: real, mark: Option<real>, k: nat)
    requires SamePoint(start + delta, target) && k < |Rotate(start, delta, target, mark).trail|
    ensures Rotate(start, delta, target, mark).trail[k]
         == At(start, StepSize(delta), if k < Steps(delta) then k + 1 else Steps(delta))
  {
    StepsCover(delta);
  }

  lemma Travelled(start: real, t: real)
    requires -180.0 <= t <= 180.0
    ensures t >= 0.0 ==> Norm(Norm(start + t) - start) == t
    ensures t <= 0.0 ==> Norm(start - Norm(start + t)) == -t
  {
    NormAdd(start + t, -start);
    NormAdd(start + t, start);
    NormUnique(Abs(t), Abs(t), 0);
  }

  /** After a route to a compartment that neither jams nor is refused the chute
      reports that compartment. */
  lemma RouteReports(m: BinMap, limits: Limits, angle: real, mark: Option<real>, position: int)
    requires ValidMap(m) && WellSpaced(m) && m.degreesPerStep <= 2.0
    ensures var run := Route(m, limits, true, angle, mark, position);
            run.outcome in {Arrived, AlreadyThere} ==> Aligned(m.targets, run.angle) == position
  {
    var run := Route(m, limits, true, angle, mark, position);
    if run.outcome in {Arrived, AlreadyThere} {
      var i := RouteEnds(m, limits, angle, mark, position);
      ReportsCompartment(m, run.angle, i);
    }
  }

  /** A route that is neither jammed nor refused ends at the compartment's angle or
      less than half a motor step from it. */
  lemma RouteEnds(m: BinMap, limits: Limits, angle: real, mark: Option<real>, position: int) returns (i: nat)
    requires Route(m, limits, true, angle, mark, position).outcome in {Arrived, AlreadyThere}
    ensures i < |m.targets| && m.targets[i].position == position
    ensures var end := Route(m, limits, true, angle, mark, position).angle;
            SamePoint(end, m.targets[i].angle) || Distance(end, m.targets[i].angle) < m.degreesPerStep / 2.0
  {
    var target := Lookup(m.targets, position).value;
    i :| i < |m.targets| && m.targets[i] == BinTarget(position, target);
    NormAdd(target, 0.0);
  }

  // ---- how a route ends ----------------------------------------------------

  /** How many steps a rotation is cut into: one below five degrees, otherwise as many as
      keep a step at two and a half degrees or more. */
  lemma StepCount(delta: real)
    ensures Abs(delta) < 5.0 ==> Steps(delta) == 1
    ensures Abs(delta) >= 5.0 ==> 2.5 * (Steps(delta) as real) <= Abs(delta) < 2.5 * (Steps(delta) as real) + 2.5
    ensures StepSize(delta) * (Steps(delta) as real) == delta
  {
    StepsCover(delta);
    AlongProduct(StepSize(delta), Steps(delta));
  }

  /** The longest arc the chute may take on: what it turns in the time allowed. */
  function Reach(limits: Limits): real {
    limits.moveTimeout * (if limits.degreesPerSecond < 0.000000001 then 0.000000001 else limits.degreesPerSecond)
  }

  /** A mark that stops the rotation from start by delta. */
  predicate Stops(start: real, delta: real, mark: real) {
    if delta > 0.0 then 0.0 < Norm(mark - start) <= delta
    else delta <= -5.0 || Norm(start - mark) >= -delta
  }

  /** Every outcome of a route to bin i by the shorter arc: nothing to do below half a
      motor step, refused when the arc is longer than the chute can turn in the time
      allowed, otherwise jammed exactly when the mark stops it. */
  lemma OutcomeExactlyWhen(m: BinMap, limits: Limits, angle: real, mark: Option<real>, i: nat)
    requires ValidMap(m) && i < 4
    ensures var delta := ShortestDelta(angle, m.targets[i].angle);
            var arc := Distance(angle, m.targets[i].angle);
            var outcome := Route(m, limits, true, angle, mark, m.targets[i].position).outcome;
            && (outcome == AlreadyThere <==> arc < m.degreesPerStep / 2.0)
            && (outcome == TimedOut <==> arc >= m.degreesPerStep / 2.0 && arc > Reach(limits))
            && (outcome == Jammed <==>
                  && arc >= m.degreesPerStep / 2.0 && arc <= Reach(limits)
                  && mark.Some? && Stops(angle, delta, mark.value))
            && (outcome == Arrived <==>
                  && arc >= m.degreesPerStep / 2.0 && arc <= Reach(limits)
                  && (mark.Some? ==> !Stops(angle, delta, mark.value)))
  {
    TooFarExactlyWhen(limits, ShortestDelta(angle, m.targets[i].angle));
    OutcomeOf(m, limits, angle, mark, i, Distance(angle, m.targets[i].angle) > Reach(limits));
  }

  lemma TooFarExactlyWhen(limits: Limits, delta: real)
    ensures MoveSeconds(limits, delta) > limits.moveTimeout <==> Abs(delta) > Reach(limits)
  {
    QuotientExceeds(Abs(delta), Max(limits.degreesPerSecond, 0.000000001), limits.moveTimeout);
  }

  lemma OutcomeOf(m: BinMap, limits: Limits, angle: real, mark: Option<real>, i: nat, far: bool)
    requires ValidMap(m) && i < 4
    requires far <==> MoveSeconds(limits, ShortestDelta(angle, m.targets[i].angle)) > limits.moveTimeout
    ensures var delta, half := ShortestDelta(angle, m.targets[i].angle), m.degreesPerStep / 2.0;
            var outcome := Route(m, limits, true, angle, mark, m.targets[i].position).outcome;
            && (outcome == AlreadyThere <==> Abs(delta) < half)
            && (outcome == TimedOut <==> Abs(delta) >= half && far)
            && (outcome == Jammed <==> Abs(delta) >= half && !far && mark.Some? && Stops(angle, delta, mark.value))
            && (outcome == Arrived <==> Abs(delta) >= half && !far && (mark.Some? ==> !Stops(angle, delta, mark.value)))
  {
    var target := m.targets[i].angle;
    var delta := ShortestDelta(angle, target);
    LookupFinds(m, i);
    if mark.Some? && Abs(delta) >= m.degreesPerStep / 2.0 {
      RotationJams(angle, delta, target, mark.value);
    }
  }

  lemma LookupFinds(m: BinMap, i: nat)
    requires ValidMap(m) && i < 4
    ensures Lookup(m.targets, m.targets[i].position) == Some(m.targets[i].angle)
  {
    KnownPositions(m, m.targets[i].position);
    var angle := Lookup(m.targets, m.targets[i].position).value;
    var j :| 0 <= j < 4 && m.targets[j] == BinTarget(m.targets[i].position, angle);
  }

  lemma RotationJams(start: real, delta: real, target: real, mark: real)
    requires -180.0 < delta <= 180.0 && delta != 0.0
    ensures Rotate(start, delta, target, Some(mark)).outcome == Jammed <==> Stops(start, delta, mark)
  {
    if delta > 0.0 {
      ClockwiseJam(start, delta, target, mark);
    } else {
      CounterClockwiseJam(start, delta, target, mark);
    }
  }

  /** A chute that is not homed refuses, and so does a compartment that does not exist. */
  lemma RefusedExactlyWhen(m: BinMap, limits: Limits, homed: bool, angle: real, mark: Option<real>, position: int)
    requires ValidMap(m)
    ensures var run := Route(m, limits, homed, angle, mark, position);
            && (run.outcome == NotHomed <==> !homed)
            && (run.outcome == UnknownPosition <==> homed && !(1 <= position <= 4))
            && (run.outcome != Arrived && run.outcome != Jammed ==> run.angle == angle && run.trail == [])
  {
    KnownPositions(m, position);
  }

  /** A route to the compartment goes through, by the table and the mark alone. */
  ghost predicate Reachable(m: BinMap, limits: Limits, angle: real, mark: Option<real>, position: int) {
    exists i :: 0 <= i < |m.targets| && m.targets[i].position == position && Passes(m, limits, angle, mark, i)
  }

  predicate Passes(m: BinMap, limits: Limits, angle: real, mark: Option<real>, i: nat)
    requires i < |m.targets|
  {
    var arc := Distance(angle, m.targets[i].angle);
    || arc < m.degreesPerStep / 2.0
    || (arc <= Reach(limits) && (mark.Some? ==> !Stops(angle, ShortestDelta(angle, m.targets[i].angle), mark.value)))
  }

  /** A route completes if and only if its compartment exists and is within half a motor
      step, or within reach and not cut off by the mark. */
  lemma CompletesExactlyWhen(m: BinMap, limits: Limits, angle: real, mark: Option<real>, position: int)
    requires ValidMap(m)
    ensures Route(m, limits, true, angle, mark, position).outcome in {Arrived, AlreadyThere} <==>
            Reachable(m, limits, angle, mark, position)
  {
    KnownPositions(m, position);
    RefusedExactlyWhen(m, limits, true, angle, mark, position);
    forall i | 0 <= i < 4 && m.targets[i].position == position
      ensures Route(m, limits, true, angle, mark, position).outcome in {Arrived, AlreadyThere} <==>
              Passes(m, limits, angle, mark, i)
    {
      OutcomeExactlyWhen(m, limits, angle, mark, i);
    }
    if 1 <= position <= 4 {
      var t := m.targets;
      assert position in [t[0].position, t[1].position, t[2].position, t[3].position];
    }
  }

  /** So a healthy chute completes every route to a compartment within its reach. */
  lemma HealthyChuteArrives(m: BinMap, limits: Limits, angle: real, i: nat)
    requires ValidMap(m) && i < 4
    requires Distance(angle, m.targets[i].angle) <= Reach(limits)
    ensures Route(m, limits, true, angle, None, m.targets[i].position).outcome in {Arrived, AlreadyThere}
  {
    OutcomeExactlyWhen(m, limits, angle, None, i);
  }

  // ---- homing --------------------------------------------------------------

  /** Seek steps from an angle to the home sensor: at least one. */
  function SeekSteps(angle: real): (k: nat)
    requires 0.0 <= angle
    ensures k >= 1 && angle <= 2.5 * (k as real)
    ensures k > 1 ==> 2.5 * ((k - 1) as real) < angle
  {
    if angle <= 2.5 then 1 else
      var q := (angle / 2.5).Floor;
      if angle == 2.5 * (q as real) then q else q + 1
  }

  /** The seek travels too far before it meets the sensor. */
  predicate HomingFails(limits: Limits, angle: real)
    requires 0.0 <= angle
  {
    2.5 * (SeekSteps(angle) as real) > limits.maxRotation
  }

  /** With a rotation limit of at least a full turn homing always succeeds. */
  lemma HomingSucceeds(limits: Limits, angle: real)
    requires 0.0 <= angle < 360.0 && limits.maxRotation >= 360.0
    ensures !HomingFails(limits, angle)
  {
    assert SeekSteps(angle) as real - 1.0 < 144.0;
  }

  // ---- the chute -----------------------------------------------------------

  class RotaryChute {
    const bins: BinMap
    const limits: Limits
    var angle: real
    var isHomed: bool
    var hallTriggered: bool
    var jamAt: Option<real>

    /** The sensor never lets go once it has fired, so a homed chute has fired it. */
    ghost predicate Valid()
      reads this
    {
      ValidMap(bins) && 0.0 <= angle < 360.0 && (isHomed ==> hallTriggered)
    }

    constructor (bins: BinMap, limits: Limits, initialAngle: real)
      requires ValidMap(bins)
      ensures Valid() && this.bins == bins && this.limits == limits
      ensures angle == Norm(initialAngle) && !isHomed && jamAt.None?
      ensures hallTriggered <==> initialAngle == 0.0
    {
      this.bins := bins;
      this.limits := limits;
      angle := Norm(initialAngle);
      isHomed := false;
      hallTriggered := initialAngle == 0.0;
      jamAt := None;
    }

    /** Seeks the home sensor counter-clockwise and settles on zero. */
    method Home() returns (found: bool, trail: seq<real>)
      requires Valid()
      modifies this
      ensures Valid() && jamAt == old(jamAt)
      ensures found <==> old(hallTriggered) || !HomingFails(limits, old(angle))
      ensures found ==> angle == 0.0 && isHomed && hallTriggered
      ensures !found ==> isHomed == old(isHomed) && !hallTriggered
      ensures !found ==> angle == old(angle) - 2.5 * (|trail| as real) && 2.5 * ((|trail| + 1) as real) > limits.maxRotation
      ensures found && !old(hallTriggered) ==> |trail| == SeekSteps(old(angle)) + 1
      ensures old(hallTriggered) ==> trail == [0.0]
    {
      trail := [];
      ghost var start, needed := angle, SeekSteps(angle);
      ghost var i: nat := 0;
      var travelled := 0.0;
      while !hallTriggered
        invariant 0.0 <= angle < 360.0 && isHomed == old(isHomed) && jamAt == old(jamAt)
        invariant i <= needed && travelled == 2.5 * (i as real) && |trail| == i
        invariant old(hallTriggered) ==> hallTriggered && i == 0
        invariant i > 0 ==> travelled <= limits.maxRotation
        invariant !old(hallTriggered) ==> (hallTriggered <==> i == needed)
        invariant !hallTriggered ==> angle == start - travelled
        decreases needed - i
      {
        SeekStep(start, i);
        travelled := travelled + 2.5;
        if travelled > limits.maxRotation {
          assert 2.5 * (needed as real) >= travelled;
          return false, trail;
        }
        var raw := angle - 2.5;
        if raw <= 0.0 {
          angle := 0.0;
          hallTriggered := true;
        } else {
          NormUnique(raw, raw, 0);
          angle := Norm(raw);
        }
        trail := trail + [angle];
        i := i + 1;
      }
      angle := 0.0;
      isHomed := true;
      trail := trail + [0.0];
      found := true;
    }

    /** Rotates to a compartment by the shorter way. */
    method RouteToPosition(position: int) returns (run: Run)
      requires Valid()
      modifies `angle
      ensures Valid()
      ensures run == Route(bins, limits, isHomed, old(angle), jamAt, position)
      ensures angle == run.angle
    {
      if !isHomed {
        return Run(NotHomed, angle, []);
      }
      var found := Lookup(bins.targets, position);
      if found.None? {
        return Run(UnknownPosition, angle, []);
      }
      var target := found.value;
      var delta := ShortestDelta(angle, target);
      if Abs(delta) < bins.degreesPerStep / 2.0 {
        return Run(AlreadyThere, angle, []);
      }
      if MoveSeconds(limits, delta) > limits.moveTimeout {
        return Run(TimedOut, angle, []);
      }
      run := Turn(delta, target);
    }

    /** Rotates in steps of less than five degrees, up to the mark or to the target. */
    method Turn(delta: real, target: real) returns (run: Run)
      requires Valid() && delta == ShortestDelta(angle, target)
      modifies `angle
      ensures Valid()
      ensures run == Rotate(old(angle), delta, target, jamAt) && angle == run.angle
    {
      StepsCover(delta);
      var s, n := StepSize(delta), Steps(delta);
      ghost var start := angle;
      var trail := [];
      var i: nat := 0;
      while i < n
        invariant i <= n && 0.0 <= angle < 360.0
        invariant angle == if i == 0 then start else At(start, s, i)
        invariant trail == Trail(start, s, i)
        invariant FirstJam(start, s, jamAt, 0, n) == FirstJam(start, s, jamAt, i, n)
      {
        var next := Norm(angle + s);
        Advance(start, s, i, angle);
        if jamAt.Some? && Crosses(angle, next, jamAt.value) {
          assert JamsAt(start, s, jamAt, i);
          return Run(Jammed, angle, trail);
        }
        assert !JamsAt(start, s, jamAt, i);
        angle := next;
        trail := trail + [angle];
        i := i + 1;
      }
      angle := Norm(target);
      trail := trail + [angle];
      run := Run(Arrived, angle, trail);
    }

    /** The compartment the chute points at, or 0. */
    method MechanismPosition() returns (position: int)
      ensures position == Aligned(bins.targets, angle)
    {
      var i := 0;
      while i < |bins.targets|
        invariant i <= |bins.targets|
        invariant Aligned(bins.targets, angle) == Aligned(bins.targets[i..], angle)
      {
        if Abs(ShortestDelta(angle, bins.targets[i].angle)) < 1.0 {
          return bins.targets[i].position;
        }
        i := i + 1;
      }
      position := 0;
    }
  }

  lemma SeekStep(angle: real, i: nat)
    requires 0.0 <= angle && i < SeekSteps(angle)
    ensures angle - 2.5 * (i as real) - 2.5 <= 0.0 <==> i + 1 == SeekSteps(angle)
    ensures 2.5 * (i as real) + 2.5 <= 2.5 * (SeekSteps(angle) as real)
  {
  }

  lemma Advance(start: real, s: real, i: nat, angle: real)
    requires -180.0 <= s <= 180.0 && angle == if i == 0 then start else At(start, s, i)
    ensures Norm(angle + s) == At(start, s, i + 1)
    ensures forall b, mark :: Crosses(angle, b, mark) == Crosses(At(start, s, i), b, mark)
  {
    Gap(start, s, i);
    NormAdd(start, s);
    NormAdd(angle, 0.0);
    NormAdd(start + Along(s, i), 0.0);
  }
}
