/** The station runtime: it drives the state machine and the chute through a plan,
    publishes what happens and suppresses repeated commands. */
module Simulator {
  import opened Sums
  import opened Schema
  import opened DepositService
  import opened HardwareStateMachine
  import opened Rotary
  import S = Station

  /** The last 64 entries: a deque that drops its oldest. */
  function Latest(s: seq<OperationId>): (r: seq<OperationId>)
    ensures |r| <= 64
  {
    if |s| <= 64 then s else s[|s| - 64..]
  }

  class EcoLoopRotarySimulator {
    const cfg: S.StationConfig
    const machine: StateMachine
    const chute: RotaryChute
    var log: seq<S.Message>
    var inFlight: set<OperationId>
    var completed: seq<OperationId>

    ghost predicate Valid()
      reads this, chute
    {
      chute.Valid() && chute.bins == cfg.bins && chute.limits == cfg.limits && |completed| <= 64
    }

    ghost function View(): S.Station
      reads this, machine, chute
    {
      S.Station(machine.state, chute.angle, chute.isHomed, chute.hallTriggered)
    }

    /** A station before its chute is homed. */
    constructor (cfg: S.StationConfig, chute: RotaryChute)
      requires chute.Valid() && chute.bins == cfg.bins && chute.limits == cfg.limits
      ensures Valid() && this.cfg == cfg && this.chute == chute && fresh(machine)
      ensures machine.state == IDLE && log == [] && inFlight == {} && completed == []
    {
      this.cfg := cfg;
      this.chute := chute;
      machine := new StateMachine();
      log := [];
      inFlight := {};
      completed := [];
    }

    /** The homing a station starts with; when the seek fails no station comes up. */
    method Home() returns (found: bool)
      requires Valid()
      modifies chute
      ensures Valid()
      ensures found <==> old(chute.hallTriggered) || !HomingFails(cfg.limits, old(chute.angle))
      ensures found ==> View() == old(View()).(angle := 0.0, homed := true, hall := true)
    {
      var trail: seq<real>;
      found, trail := chute.Home();
    }

    method Emit(op: OperationId, state: MachineState)
      modifies `log
      ensures log == old(log) + [S.StateChanged(op, state)]
    {
      log := log + [S.StateChanged(op, state)];
    }

    method PublishTerminal(result: ResultEvent)
      modifies `log
      ensures log == old(log) + [S.Result(result)]
    {
      log := log + [S.Result(result)];
    }

    /** Moves along the table and announces the new state. */
    method Announce(op: OperationId, state: MachineState) returns (ok: bool)
      modifies `log, machine
      ensures ok <==> Allowed(old(machine.state), state)
      ensures machine.state == if ok then state else old(machine.state)
      ensures log == old(log) + if ok then [S.StateChanged(op, state)] else []
    {
      ok := machine.Transition(state);
      if ok {
        Emit(op, state);
      }
    }

    /** Back to IDLE, homing again after a fault. */
    method Reset(op: OperationId)
      requires Valid() && chute.hallTriggered && Allowed(machine.state, RESETTING)
      modifies `log, machine, chute
      ensures Valid() && machine.state == IDLE && chute.hallTriggered
      ensures chute.isHomed == (old(chute.isHomed) || InErrorState(old(machine.state)))
      ensures chute.angle == if InErrorState(old(machine.state)) then 0.0 else old(chute.angle)
      ensures log == old(log) + [S.StateChanged(op, RESETTING), S.StateChanged(op, IDLE)]
    {
      var errored := InErrorState(machine.state);
      var _ := Announce(op, RESETTING);
      if errored {
        var _, _ := chute.Home();
      }
      var _ := Announce(op, IDLE);
    }

    /** A fault: announced, reported, reset. */
    method Fault(op: OperationId, fault: MachineState, result: ResultEvent)
      requires Valid() && chute.hallTriggered && Allowed(machine.state, fault) && InErrorState(fault)
      modifies `log, machine, chute
      ensures Valid() && View() == S.Station(IDLE, 0.0, true, true)
      ensures log == old(log) + S.Close(op, fault, result)
    {
      var _ := Announce(op, fault);
      PublishTerminal(result);
      Reset(op);
    }

    method TerminalMessage(op: OperationId, actual: int, weight: Weight, status: Claim, mechanical: bool,
                           beamSeen: bool)
      returns (result: ResultEvent)
      requires Valid()
      ensures result == S.ResultOf(cfg, op, chute.angle, actual, weight, status, mechanical, beamSeen)
    {
      var at := chute.MechanismPosition();
      result := ResultEvent(Some(op), Some(cfg.ref), Some(status), Some(actual), Some(weight), Some(weight >= cfg.minWeight),
                            Some(beamSeen), Some(mechanical), Some(at));
    }

    /** The move and, when it stops early, the fault that ends the run. */
    method Route(op: OperationId, destination: int, plan: S.DepositPlan) returns (run: Run)
      requires Valid() && machine.state == MOVING && chute.jamAt == plan.jamAngle
      modifies `log, machine, chute
      ensures Valid() && run == S.Move(cfg, old(View()), destination, plan)
      ensures run.outcome.Jammed? || run.outcome.TimedOut? ==>
                && View() == S.Station(IDLE, 0.0, true, true)
                && log == old(log) + S.Close(op, if run.outcome.Jammed? then JAMMED else TIMEOUT,
                                             S.ResultFor(cfg, run, op, destination, plan, 0))
      ensures !run.outcome.Jammed? && !run.outcome.TimedOut? ==>
                View() == old(View()).(angle := run.angle) && log == old(log)
    {
      run := chute.RouteToPosition(S.Target(plan, destination));
      if run.outcome.Jammed? || run.outcome.TimedOut? {
        var at := chute.MechanismPosition();
        var result := TerminalMessage(op, at, 0, if run.outcome.Jammed? then ClaimJam else ClaimTimeout, false, false);
        Fault(op, if run.outcome.Jammed? then JAMMED else TIMEOUT, result);
      }
    }

    /** The last stretch of a run that measured what it was told to measure. */
    method Finish(op: OperationId, plan: S.DepositPlan, result: ResultEvent)
      requires Valid() && machine.state == MEASURING && chute.hallTriggered && plan.status.ClaimConfirmed?
      modifies `log, machine, chute
      ensures Valid() && View() == old(View()).(state := IDLE)
      ensures log == old(log) + S.Close(op, DEPOSIT_CONFIRMED, result)
                     + (if plan.duplicateTerminal then [S.Result(result)] else [])
    {
      var _ := Announce(op, DEPOSIT_CONFIRMED);
      PublishTerminal(result);
      Reset(op);
      if plan.duplicateTerminal {
        PublishTerminal(result);
      }
    }

    /** From the aligned chute to the scale. */
    method Weigh(op: OperationId, ghost start: seq<S.Message>)
      requires machine.state == POSITIONED && log == start + S.Seated(op)
      modifies `log, machine
      ensures machine.state == MEASURING && log == start + S.Weighed(op)
    {
      var _ := Announce(op, READY_FOR_DEPOSIT);
      var _ := Announce(op, DETECTING);
      var _ := Announce(op, MEASURING);
    }

    /** What follows a completed move that went where it was told to. */
    method Measure(op: OperationId, destination: int, plan: S.DepositPlan, reading: Weight, ghost run: Run,
                   ghost start: seq<S.Message>)
      returns (crashed: bool)
      requires Valid() && machine.state == POSITIONED && chute.isHomed && chute.angle == run.angle
      requires S.Completes(run) && !S.Misplaced(plan, destination) && log == start + S.Seated(op)
      modifies `log, machine, chute
      ensures Valid() && (crashed <==> !plan.hasTimeline)
      ensures var result := S.ResultFor(cfg, run, op, destination, plan, reading);
              if crashed then
                View() == old(View()).(state := MEASURING) && log == start + S.Weighed(op)
              else if plan.status != ClaimConfirmed then
                && View() == S.Station(IDLE, 0.0, true, true)
                && log == start + (S.Weighed(op) + S.Close(op, S.FaultFor(plan.status), result))
              else
                View() == old(View()).(state := IDLE) && log == start + S.Delivered(op, result, plan.duplicateTerminal)
    {
      Weigh(op, start);
      if !plan.hasTimeline {
        return true;
      }
      crashed := false;
      var at := chute.MechanismPosition();
      if plan.status != ClaimConfirmed {
        var result := TerminalMessage(op, at, reading, plan.status, false, true);
        Fault(op, S.FaultFor(plan.status), result);
      } else {
        var result := TerminalMessage(op, at, reading, plan.status, plan.mechanical, true);
        Finish(op, plan, result);
      }
    }

    /** One plan from start to end. */
    method RunPlan(op: OperationId, destination: int, plan: S.DepositPlan, reading: Weight) returns (crashed: bool)
      requires Valid()
      modifies `log, machine, chute
      ensures Valid()
      ensures var r := S.RunPlan(cfg, old(View()), op, destination, plan, reading);
              View() == r.station && log == old(log) + r.log && crashed == r.crashed
    {
      chute.jamAt := plan.jamAngle;
      var ok := Announce(op, ROUTING);
      if !ok {
        return true;
      }
      var _ := Announce(op, MOVING);
      assert log == old(log) + S.Prefix(op);
      var run := Route(op, destination, plan);
      crashed := Continue(op, destination, plan, reading, run, old(log), old(View()));
    }

    /** The rest of a plan once its move is over. */
    method Continue(op: OperationId, destination: int, plan: S.DepositPlan, reading: Weight, run: Run,
                    ghost start: seq<S.Message>, ghost st: S.Station)
      returns (crashed: bool)
      requires Valid() && st.state == IDLE && run == S.Move(cfg, st, destination, plan)
      requires if run.outcome.Jammed? || run.outcome.TimedOut? then
                 && View() == S.Station(IDLE, 0.0, true, true)
                 && log == start + S.Prefix(op) + S.Close(op, if run.outcome.Jammed? then JAMMED else TIMEOUT,
                                                          S.ResultFor(cfg, run, op, destination, plan, 0))
               else View() == st.(state := MOVING, angle := run.angle) && log == start + S.Prefix(op)
      modifies `log, machine, chute
      ensures Valid()
      ensures var r := S.Executed(cfg, st, run, op, destination, plan, reading);
              View() == r.station && log == start + r.log && crashed == r.crashed
    {
      if run.outcome.Jammed? || run.outcome.TimedOut? {
        return false;
      }
      if !S.Completes(run) {
        return true;
      }
      crashed := Settle(op, destination, plan, reading, run, start, st);
    }

    /** The rest of a plan whose move ended where the chute was sent. */
    method Settle(op: OperationId, destination: int, plan: S.DepositPlan, reading: Weight, run: Run,
                  ghost start: seq<S.Message>, ghost st: S.Station)
      returns (crashed: bool)
      requires Valid() && st.state == IDLE && S.Completes(run) && chute.isHomed
      requires View() == st.(state := MOVING, angle := run.angle) && log == start + S.Prefix(op)
      modifies `log, machine, chute
      ensures Valid()
      ensures var r := S.Executed(cfg, st, run, op, destination, plan, reading);
              View() == r.station && log == start + r.log && crashed == r.crashed
    {
      var _ := Announce(op, POSITIONED);
      assert log == start + S.Seated(op);
      if S.Misplaced(plan, destination) {
        var result := TerminalMessage(op, plan.actual.value, S.ReportedWeight(plan), plan.status, plan.mechanical, true);
        Fault(op, WRONG_POSITION, result);
        return false;
      }
      crashed := Measure(op, destination, plan, reading, run, start);
    }

    /** A route command. One that is running or among the last 64 finished is
        ignored; any other runs, and is remembered however it ended. */
    method OnRoute(op: OperationId, destination: int, plan: S.DepositPlan, reading: Weight)
      requires Valid()
      modifies this, machine, chute
      ensures Valid() && inFlight == old(inFlight)
      ensures op in old(inFlight) || op in old(completed) ==>
                View() == old(View()) && log == old(log) && completed == old(completed)
      ensures op !in old(inFlight) && op !in old(completed) ==>
                && View() == S.RunPlan(cfg, old(View()), op, destination, plan, reading).station
                && log == old(log) + S.RunPlan(cfg, old(View()), op, destination, plan, reading).log
                && completed == Latest(old(completed) + [op])
    {
      if op in inFlight || op in completed {
        return;
      }
      inFlight := inFlight + {op};
      var _ := RunPlan(op, destination, plan, reading);
      inFlight := inFlight - {op};
      completed := Latest(completed + [op]);
    }
  }
}
