/** From the chute to the balance: a station run, the at-least-once delivery of what
    it publishes, and what the backend makes of it. */
module EndToEnd {
  import opened Sums
  import opened Schema
  import opened Circle
  import opened Rotary
  import D = DepositService
  import L = Lifecycle
  import S = Station
  import Delivery

  /** A live, classified session at the station, which measures with the backend's
      own minimum weight. */
  ghost predicate Awaits(cfg: Config, db: Db, scfg: S.StationConfig, op: OperationId) {
    && L.Inv(cfg, db) && op in db.sessions && db.sessions[op].user in db.users
    && !Terminal(db.sessions[op].status) && db.sessions[op].cls.Classified?
    && scfg.ref in cfg.stationRefs && cfg.stationRefs[scfg.ref] == db.sessions[op].station
    && scfg.minWeight == cfg.minWeight
  }

  /** A calibration under which an aligned chute reports its compartment. */
  ghost predicate Calibrated(bins: BinMap) {
    ValidMap(bins) && WellSpaced(bins) && bins.degreesPerStep <= 2.0
  }

  /** Where the plan sends the chute, and whether that is not where it was told to. */
  function Where(plan: S.DepositPlan, destination: int): int {
    if plan.actual.Some? then plan.actual.value
    else if plan.destination.Some? then plan.destination.value else destination
  }

  predicate Astray(plan: S.DepositPlan, destination: int) {
    plan.actual.Some? && plan.actual.value != (if plan.destination.Some? then plan.destination.value else destination)
  }

  /** The weight that is reported: the scale's reading, or for a misplaced deposit the
      plan's weight, with 18.4 g for none or zero. */
  function WeightReported(destination: int, plan: S.DepositPlan, reading: Weight): Weight {
    if !Astray(plan, destination) then reading
    else if plan.finalWeight.Some? && plan.finalWeight.value != 0 then plan.finalWeight.value
    else 1840
  }

  /** The waste really ends up, heavy enough, where the session wants it: the chute can
      get there from where it stands, the plan is confirmed and mechanically confirmed,
      and place and weight are right. */
  ghost predicate Genuine(cfg: Config, s: Session, scfg: S.StationConfig, st: S.Station, destination: int,
                          plan: S.DepositPlan, reading: Weight)
    requires s.cls.Classified?
  {
    && Reachable(scfg.bins, scfg.limits, st.angle, plan.jamAngle, Where(plan, destination))
    && plan.status == ClaimConfirmed && plan.mechanical
    && WeightReported(destination, plan, reading) >= cfg.minWeight
    && Where(plan, destination) == s.cls.position
  }

  lemma ReachableExists(m: BinMap, limits: Limits, angle: real, mark: Option<real>, position: int)
    requires ValidMap(m) && Reachable(m, limits, angle, mark, position)
    ensures 1 <= position <= 4
  {
  }

  lemma MoveCompletes(scfg: S.StationConfig, st: S.Station, destination: int, plan: S.DepositPlan)
    requires ValidMap(scfg.bins) && st.homed
    ensures S.Completes(S.Move(scfg, st, destination, plan)) <==>
            Reachable(scfg.bins, scfg.limits, st.angle, plan.jamAngle, Where(plan, destination))
  {
    CompletesExactlyWhen(scfg.bins, scfg.limits, st.angle, plan.jamAngle, Where(plan, destination));
  }

  /** A command is well formed exactly when its compartment exists and its plan has a
      weight timeline in case the deposit gets to the scale. */
  lemma WellformedExactlyWhen(scfg: S.StationConfig, st: S.Station, destination: int, plan: S.DepositPlan)
    requires ValidMap(scfg.bins) && st.homed
    ensures var to := Where(plan, destination);
            S.Wellformed(S.Move(scfg, st, destination, plan), destination, plan) <==>
              && 1 <= to <= 4
              && (Reachable(scfg.bins, scfg.limits, st.angle, plan.jamAngle, to) && !Astray(plan, destination) ==>
                    plan.hasTimeline)
  {
    MoveCompletes(scfg, st, destination, plan);
  }

  /** A report passes every physical gate exactly when the deposit was genuine. */
  lemma GatesAreExact(cfg: Config, s: Session, scfg: S.StationConfig, st: S.Station, op: OperationId, destination: int,
                      plan: S.DepositPlan, reading: Weight)
    requires Calibrated(scfg.bins) && S.ValidStation(scfg, st) && S.AtRest(st) && s.cls.Classified?
    requires scfg.minWeight == cfg.minWeight
    requires S.Wellformed(S.Move(scfg, st, destination, plan), destination, plan)
    ensures var run := S.Move(scfg, st, destination, plan);
            (D.PhysicalFailure(cfg, s, S.ResultFor(scfg, run, op, destination, plan, reading)) == NoReason) <==>
            Genuine(cfg, s, scfg, st, destination, plan, reading)
  {
    var run := S.Move(scfg, st, destination, plan);
    KnownPositions(scfg.bins, S.Target(plan, destination));
    S.MoveOutcome(scfg, st, destination, plan);
    MoveCompletes(scfg, st, destination, plan);
    if S.Completes(run) {
      assert run.outcome in {Arrived, AlreadyThere};
      RouteReports(scfg.bins, scfg.limits, st.angle, plan.jamAngle, S.Target(plan, destination));
    }
    Gates(cfg, s, scfg, run, op, destination, plan, reading);
  }

  lemma Gates(cfg: Config, s: Session, scfg: S.StationConfig, run: Run, op: OperationId, destination: int,
              plan: S.DepositPlan, reading: Weight)
    requires s.cls.Classified? && scfg.minWeight == cfg.minWeight
    requires run.outcome in {Arrived, AlreadyThere, Jammed, TimedOut}
    requires S.Completes(run) ==> Aligned(scfg.bins.targets, run.angle) == Where(plan, destination)
    ensures D.PhysicalFailure(cfg, s, S.ResultFor(scfg, run, op, destination, plan, reading)) == NoReason
       <==> && S.Completes(run) && plan.status == ClaimConfirmed && plan.mechanical
            && WeightReported(destination, plan, reading) >= cfg.minWeight && Where(plan, destination) == s.cls.position
  {
  }

  /** The judgement on a timely report from the session's own station. */
  lemma ReportIsJudged(cfg: Config, db: Db, scfg: S.StationConfig, op: OperationId, e: D.ResultEvent, now: Instant)
    requires Awaits(cfg, db, scfg, op) && e.operation == Some(op) && e.station == Some(scfg.ref)
    requires now <= db.sessions[op].expiresAt
    ensures D.Judge(cfg, db, e, now)
         == if D.PhysicalFailure(cfg, db.sessions[op], e) == NoReason then D.Award
            else D.Close(D.PhysicalFailure(cfg, db.sessions[op], e), SessionStatus.Rejected)
  {
    assert L.SessionOk(cfg, db.sessions[op], L.EventOf(db, op));
  }

  /** The session is confirmed and its user paid the session's points and the
      challenge bonus, or it is rejected and nobody is paid. */
  ghost predicate SettledAs(cfg: Config, db: Db, after: Db, op: OperationId, e: D.ResultEvent, genuine: bool)
    requires op in db.sessions
  {
    var s := db.sessions[op];
    && op in after.sessions && op in after.events
    && s.cls.Classified? && s.user in db.users
    && (if genuine then
          && after.sessions[op].status == Confirmed && after.events[op].status == Accepted
          && after.users == D.Credited(db.users, s.user, s.potentialPoints + D.BonusOf(cfg, db, op, e))
        else
          && after.sessions[op].status == SessionStatus.Rejected && after.events[op].status == Refused
          && after.users == db.users)
  }

  /** Exactness from end to end. The station runs a well-formed command; its messages
      arrive any number of times, in any order, the result at least once and all
      before the session expires. Then the session is confirmed exactly when the
      deposit was genuine, and otherwise rejected; the user is paid the session's
      points and the challenge bonus once in the first case and nothing in the other. */
  lemma Exact(cfg: Config, db: Db, scfg: S.StationConfig, st: S.Station, op: OperationId, destination: int,
              plan: S.DepositPlan, reading: Weight, arrivals: seq<Delivery.Arrival>)
    requires Awaits(cfg, db, scfg, op)
    requires Calibrated(scfg.bins) && S.ValidStation(scfg, st) && S.AtRest(st)
    requires S.Wellformed(S.Move(scfg, st, destination, plan), destination, plan)
    requires Delivery.InTime(db, op, arrivals) && Delivery.Sent(arrivals, Delivery.Result)
    ensures var published := S.Results(S.RunPlan(scfg, st, op, destination, plan, reading).log);
            && |published| > 0 && (forall i :: 0 <= i < |published| ==> published[i] == published[0])
            && SettledAs(cfg, db, Delivery.DeliverAll(cfg, db, published[0], op, arrivals), op, published[0],
                         Genuine(cfg, db.sessions[op], scfg, st, destination, plan, reading))
  {
    S.CommandOutcome(scfg, st, op, destination, plan, reading);
    var e := S.ResultFor(scfg, S.Move(scfg, st, destination, plan), op, destination, plan, reading);
    DeliveredReport(cfg, db, scfg, op, e, arrivals);
    GatesAreExact(cfg, db.sessions[op], scfg, st, op, destination, plan, reading);
  }

  /** The backend's half: a timely report, however delivered, settles the session by
      its physical gates alone. */
  lemma DeliveredReport(cfg: Config, db: Db, scfg: S.StationConfig, op: OperationId, e: D.ResultEvent,
                        arrivals: seq<Delivery.Arrival>)
    requires Awaits(cfg, db, scfg, op) && e.operation == Some(op) && e.station == Some(scfg.ref)
    requires Delivery.InTime(db, op, arrivals) && Delivery.Sent(arrivals, Delivery.Result)
    ensures SettledAs(cfg, db, Delivery.DeliverAll(cfg, db, e, op, arrivals), op, e,
                      D.PhysicalFailure(cfg, db.sessions[op], e) == NoReason)
  {
    var now := db.sessions[op].expiresAt;
    Delivery.ResultAloneDecides(cfg, db, e, op, arrivals, now);
    ReportIsJudged(cfg, db, scfg, op, e, now);
    Settled(cfg, db, op, e, now);
  }

  /** The rows an award or a rejection leaves. */
  lemma Settled(cfg: Config, db: Db, op: OperationId, e: D.ResultEvent, now: Instant)
    requires e.operation == Some(op) && op in db.sessions
    requires D.Judge(cfg, db, e, now).Award? || D.Judge(cfg, db, e, now).Close?
    ensures var v, s, after := D.Judge(cfg, db, e, now), db.sessions[op], D.CompleteFromEvent(cfg, db, e, now);
            && op in after.sessions && op in after.events
            && (v.Award? ==>
                  && s.cls.Classified? && s.user in db.users
                  && after.sessions[op].status == Confirmed && after.events[op].status == Accepted
                  && after.users == D.Credited(db.users, s.user, s.potentialPoints + D.BonusOf(cfg, db, op, e)))
            && (v.Close? ==>
                  && after.sessions[op].status == v.status && after.events[op].status == Refused
                  && after.users == db.users)
  {
  }

  /** The weight of a misplaced deposit is the plan's own exactly when it is given and
      not zero. */
  lemma ReportedWeightIsThePlans(plan: S.DepositPlan)
    ensures plan.finalWeight == Some(S.ReportedWeight(plan)) <==> plan.finalWeight.Some? && plan.finalWeight.value != 0
  {
  }

  /** What that means for a misplaced deposit that is sound in every other respect and
      ends up where its session wants it: it is paid when its weight suffices, and also
      when it weighs nothing at all, unless the minimum is above 18.4 g. */
  lemma WeightlessDepositIsPaid(cfg: Config, db: Db, scfg: S.StationConfig, st: S.Station, op: OperationId,
                                destination: int, plan: S.DepositPlan, reading: Weight,
                                arrivals: seq<Delivery.Arrival>)
    requires Awaits(cfg, db, scfg, op)
    requires Calibrated(scfg.bins) && S.ValidStation(scfg, st) && S.AtRest(st)
    requires Reachable(scfg.bins, scfg.limits, st.angle, plan.jamAngle, Where(plan, destination))
    requires Astray(plan, destination)
    requires plan.status == ClaimConfirmed && plan.mechanical && plan.finalWeight.Some?
    requires Where(plan, destination) == db.sessions[op].cls.position
    requires Delivery.InTime(db, op, arrivals) && Delivery.Sent(arrivals, Delivery.Result)
    ensures var published := S.Results(S.RunPlan(scfg, st, op, destination, plan, reading).log);
            var weight := plan.finalWeight.value;
            && |published| > 0
            && SettledAs(cfg, db, Delivery.DeliverAll(cfg, db, published[0], op, arrivals), op, published[0],
                         weight >= cfg.minWeight || (weight == 0 && cfg.minWeight <= 1840))
  {
    ReachableExists(scfg.bins, scfg.limits, st.angle, plan.jamAngle, Where(plan, destination));
    WellformedExactlyWhen(scfg, st, destination, plan);
    Exact(cfg, db, scfg, st, op, destination, plan, reading, arrivals);
  }

  // ---- live phases ---------------------------------------------------------

  /** The announced states of a run, applied in order. */
  function Applied(db: Db, op: OperationId, states: seq<D.MachineState>): Db {
    if states == [] then db
    else D.ApplyMachineState(Applied(db, op, states[..|states| - 1]), op, states[|states| - 1])
  }

  /** The furthest phase among a first one and those of some states. */
  function Furthest(first: SessionStatus, states: seq<D.MachineState>): SessionStatus {
    if states == [] then first else Delivery.Later(Furthest(first, states[..|states| - 1]), states[|states| - 1])
  }

  /** A live session stands at the furthest announced phase. */
  lemma {:induction false} PhasesFollow(db: Db, op: OperationId, states: seq<D.MachineState>)
    requires op in db.sessions && !Terminal(db.sessions[op].status)
    ensures var s := Furthest(db.sessions[op].status, states);
            !Terminal(s) && Applied(db, op, states) == Delivery.AtPhase(db, op, s)
  {
    if states == [] {
      Delivery.SamePhaseIsSame(db, op);
    } else {
      PhasesFollow(db, op, states[..|states| - 1]);
      Delivery.FrameMoves(db, op, Furthest(db.sessions[op].status, states[..|states| - 1]), states[|states| - 1]);
    }
  }

  /** How far a command's announcements take a pending session. */
  function PhaseReached(run: Run, destination: int, plan: S.DepositPlan): SessionStatus {
    if !S.Completes(run) then Moving else if S.Misplaced(plan, destination) then SessionStatus.Ready else Measuring
  }

  /** What a student sees of a pending session while its station carries out a command,
      whatever the command: it follows the chute as far as the run gets, to the scale
      if the waste lands where it should, and no fault, reset or idle state moves it. */
  lemma LivePhases(db: Db, op: OperationId, scfg: S.StationConfig, st: S.Station, destination: int,
                   plan: S.DepositPlan, reading: Weight)
    requires op in db.sessions && db.sessions[op].status == SessionStatus.Pending && st.state == D.IDLE
    ensures var run := S.Move(scfg, st, destination, plan);
            Applied(db, op, S.States(S.RunPlan(scfg, st, op, destination, plan, reading).log)) ==
            Delivery.AtPhase(db, op, PhaseReached(run, destination, plan))
  {
    var run := S.Move(scfg, st, destination, plan);
    AnnouncedPhases(scfg, st, run, op, destination, plan, reading);
    PhasesFollow(db, op, S.States(S.RunPlan(scfg, st, op, destination, plan, reading).log));
  }

  /** The furthest phase among the states a run announces. */
  lemma AnnouncedPhases(scfg: S.StationConfig, st: S.Station, run: Run, op: OperationId, destination: int,
                        plan: S.DepositPlan, reading: Weight)
    requires st.state == D.IDLE
    ensures Furthest(SessionStatus.Pending, S.States(S.Executed(scfg, st, run, op, destination, plan, reading).log))
         == PhaseReached(run, destination, plan)
  {
    if run.outcome.Jammed? || run.outcome.TimedOut? {
      StoppedPhases(scfg, st, run, op, destination, plan, reading);
    } else if S.Completes(run) && (S.Misplaced(plan, destination) || (plan.hasTimeline && plan.status != ClaimConfirmed)) {
      FaultPhases(scfg, st, run, op, destination, plan, reading);
    } else {
      RoutinePhases(op);
      if S.Completes(run) && plan.hasTimeline {
        DeliveredPhases(op, S.ResultFor(scfg, run, op, destination, plan, reading), plan.duplicateTerminal);
      } else {
        S.Crash(scfg, st, run, op, destination, plan, reading);
      }
    }
  }

  lemma StoppedLog(scfg: S.StationConfig, st: S.Station, run: Run, op: OperationId, destination: int,
                   plan: S.DepositPlan, reading: Weight) returns (fault: D.MachineState, result: D.ResultEvent)
    requires st.state == D.IDLE && (run.outcome.Jammed? || run.outcome.TimedOut?)
    ensures D.PhaseOf(fault).None?
    ensures S.Executed(scfg, st, run, op, destination, plan, reading).log == S.Prefix(op) + S.Close(op, fault, result)
  {
    fault := if run.outcome.Jammed? then D.JAMMED else D.TIMEOUT;
    result := S.ResultFor(scfg, run, op, destination, plan, reading);
  }

  lemma StoppedPhases(scfg: S.StationConfig, st: S.Station, run: Run, op: OperationId, destination: int,
                      plan: S.DepositPlan, reading: Weight)
    requires st.state == D.IDLE && (run.outcome.Jammed? || run.outcome.TimedOut?)
    ensures Furthest(SessionStatus.Pending, S.States(S.Executed(scfg, st, run, op, destination, plan, reading).log))
         == Moving
  {
    var fault, result := StoppedLog(scfg, st, run, op, destination, plan, reading);
    ClosedLog(op, S.Executed(scfg, st, run, op, destination, plan, reading).log, S.Prefix(op), fault, result);
    RoutinePhases(op);
  }

  lemma FaultLog(scfg: S.StationConfig, st: S.Station, run: Run, op: OperationId, destination: int,
                 plan: S.DepositPlan, reading: Weight)
    returns (before: seq<S.Message>, fault: D.MachineState, result: D.ResultEvent)
    requires st.state == D.IDLE && S.Completes(run)
    requires S.Misplaced(plan, destination) || (plan.hasTimeline && plan.status != ClaimConfirmed)
    ensures before == if S.Misplaced(plan, destination) then S.Seated(op) else S.Weighed(op)
    ensures D.PhaseOf(fault).None?
    ensures S.Executed(scfg, st, run, op, destination, plan, reading).log == before + S.Close(op, fault, result)
  {
    before := if S.Misplaced(plan, destination) then S.Seated(op) else S.Weighed(op);
    fault := if S.Misplaced(plan, destination) then D.WRONG_POSITION else S.FaultFor(plan.status);
    result := S.ResultFor(scfg, run, op, destination, plan, reading);
  }

  lemma FaultPhases(scfg: S.StationConfig, st: S.Station, run: Run, op: OperationId, destination: int,
                    plan: S.DepositPlan, reading: Weight)
    requires st.state == D.IDLE && S.Completes(run)
    requires S.Misplaced(plan, destination) || (plan.hasTimeline && plan.status != ClaimConfirmed)
    ensures Furthest(SessionStatus.Pending, S.States(S.Executed(scfg, st, run, op, destination, plan, reading).log))
         == if S.Misplaced(plan, destination) then SessionStatus.Ready else Measuring
  {
    var before, fault, result := FaultLog(scfg, st, run, op, destination, plan, reading);
    ClosedLog(op, S.Executed(scfg, st, run, op, destination, plan, reading).log, before, fault, result);
    RoutinePhases(op);
  }

  lemma ClosedLog(op: OperationId, log: seq<S.Message>, before: seq<S.Message>, last: D.MachineState,
                  result: D.ResultEvent)
    requires D.PhaseOf(last).None? && log == before + S.Close(op, last, result)
    ensures Furthest(SessionStatus.Pending, S.States(log)) == Furthest(SessionStatus.Pending, S.States(before))
  {
    ClosingPhases(op, before, last, result);
  }

  /** The four closing messages of a run announce no phase. */
  lemma ClosingPhases(op: OperationId, log: seq<S.Message>, last: D.MachineState, result: D.ResultEvent)
    requires D.PhaseOf(last).None?
    ensures Furthest(SessionStatus.Pending, S.States(log + S.Close(op, last, result)))
         == Furthest(SessionStatus.Pending, S.States(log))
  {
    var states := S.States(log);
    S.Closing(op, log, last, result);
    Advance(SessionStatus.Pending, states, last);
    Advance(SessionStatus.Pending, states + [last], D.RESETTING);
    Advance(SessionStatus.Pending, states + [last] + [D.RESETTING], D.IDLE);
    assert states + [last] + [D.RESETTING] + [D.IDLE] == states + [last, D.RESETTING, D.IDLE];
  }

  lemma DeliveredPhases(op: OperationId, result: D.ResultEvent, again: bool)
    ensures Furthest(SessionStatus.Pending, S.States(S.Delivered(op, result, again)))
         == Furthest(SessionStatus.Pending, S.States(S.Weighed(op)))
  {
    var all := S.Weighed(op) + S.Close(op, D.DEPOSIT_CONFIRMED, result);
    ClosingPhases(op, S.Weighed(op), D.DEPOSIT_CONFIRMED, result);
    S.OneMessage(all, S.Result(result));
    assert S.Delivered(op, result, false) == all;
    assert S.Delivered(op, result, true) == all + [S.Result(result)];
    assert S.States(all + [S.Result(result)]) == S.States(all);
  }

  lemma RoutinePhases(op: OperationId)
    ensures Furthest(SessionStatus.Pending, S.States(S.Prefix(op))) == Moving
    ensures Furthest(SessionStatus.Pending, S.States(S.Seated(op))) == SessionStatus.Ready
    ensures Furthest(SessionStatus.Pending, S.States(S.Weighed(op))) == Measuring
  {
    S.Routine(op);
    ReachMotion();
    ReachBin();
    ReachScale();
  }

  lemma ReachMotion()
    ensures Furthest(SessionStatus.Pending, [D.ROUTING, D.MOVING]) == Moving
  {
    assert [D.ROUTING][..0] == [];
    assert Furthest(SessionStatus.Pending, [D.ROUTING]) == Routing;
    assert [D.ROUTING, D.MOVING][..1] == [D.ROUTING];
  }

  lemma ReachBin()
    ensures Furthest(SessionStatus.Pending, [D.ROUTING, D.MOVING, D.POSITIONED]) == SessionStatus.Ready
  {
    var moving := [D.ROUTING, D.MOVING];
    ReachMotion();
    Advance(SessionStatus.Pending, moving, D.POSITIONED);
    assert moving + [D.POSITIONED] == [D.ROUTING, D.MOVING, D.POSITIONED];
  }

  lemma ReachScale()
    ensures Furthest(SessionStatus.Pending, [D.ROUTING, D.MOVING, D.POSITIONED, D.READY_FOR_DEPOSIT, D.DETECTING,
                                             D.MEASURING]) == Measuring
  {
    var seated := [D.ROUTING, D.MOVING, D.POSITIONED];
    ReachBin();
    Advance(SessionStatus.Pending, seated, D.READY_FOR_DEPOSIT);
    Advance(SessionStatus.Pending, seated + [D.READY_FOR_DEPOSIT], D.DETECTING);
    Advance(SessionStatus.Pending, seated + [D.READY_FOR_DEPOSIT] + [D.DETECTING], D.MEASURING);
    assert seated + [D.READY_FOR_DEPOSIT] + [D.DETECTING] + [D.MEASURING]
        == [D.ROUTING, D.MOVING, D.POSITIONED, D.READY_FOR_DEPOSIT, D.DETECTING, D.MEASURING];
  }

  lemma Advance(first: SessionStatus, states: seq<D.MachineState>, m: D.MachineState)
    ensures Furthest(first, states + [m]) == Delivery.Later(Furthest(first, states), m)
  {
    assert (states + [m])[..|states|] == states;
  }
}
