/** The station's strict state machine. */
module HardwareStateMachine {
  import opened DepositService

  predicate InErrorState(s: MachineState) {
    s in {JAMMED, WRONG_POSITION, UNDERWEIGHT, SENSOR_ERROR, TIMEOUT}
  }

  /** The transition table. */
  predicate Allowed(from: MachineState, to: MachineState) {
    match from
    case IDLE => to == ROUTING
    case ROUTING => to == MOVING
    case MOVING => to in {POSITIONED, JAMMED, WRONG_POSITION, TIMEOUT, SENSOR_ERROR}
    case POSITIONED => to in {READY_FOR_DEPOSIT, JAMMED, WRONG_POSITION}
    case READY_FOR_DEPOSIT => to == DETECTING
    case DETECTING => to in {MEASURING, SENSOR_ERROR}
    case MEASURING => to in {DEPOSIT_CONFIRMED, UNDERWEIGHT, SENSOR_ERROR}
    case RESETTING => to == IDLE
    case _ => to == RESETTING
  }

  /** The transitions, one by one. */
  const TRANSITIONS: set<(MachineState, MachineState)> :=
    {(IDLE, ROUTING), (ROUTING, MOVING), (MOVING, POSITIONED), (MOVING, JAMMED), (MOVING, WRONG_POSITION),
     (MOVING, TIMEOUT), (MOVING, SENSOR_ERROR), (POSITIONED, READY_FOR_DEPOSIT), (POSITIONED, JAMMED),
     (POSITIONED, WRONG_POSITION), (READY_FOR_DEPOSIT, DETECTING), (DETECTING, MEASURING), (DETECTING, SENSOR_ERROR),
     (MEASURING, DEPOSIT_CONFIRMED), (MEASURING, UNDERWEIGHT), (MEASURING, SENSOR_ERROR),
     (DEPOSIT_CONFIRMED, RESETTING), (JAMMED, RESETTING), (WRONG_POSITION, RESETTING), (UNDERWEIGHT, RESETTING),
     (SENSOR_ERROR, RESETTING), (TIMEOUT, RESETTING), (RESETTING, IDLE)}

  /** The table allows these and no others, and every state but the error states and the
      confirmation leads on without a reset. */
  lemma TableIs(from: MachineState, to: MachineState)
    ensures Allowed(from, to) <==> (from, to) in TRANSITIONS
    ensures Allowed(from, RESETTING) <==> InErrorState(from) || from == DEPOSIT_CONFIRMED
  {
  }

  class StateMachine {
    var state: MachineState

    constructor ()
      ensures state == IDLE
    {
      state := IDLE;
    }

    /** Moves along the table; false is the code's IllegalTransition. */
    method Transition(to: MachineState) returns (ok: bool)
      modifies this
      ensures ok <==> Allowed(old(state), to)
      ensures state == if ok then to else old(state)
    {
      ok := Allowed(state, to);
      if ok {
        state := to;
      }
    }
  }
}

/** The station simulator: one deposit plan driven through the state machine and
    the chute, and what it publishes on the way. */
module Station {
  import opened Sums
  import opened Schema
  import opened DepositService
  import opened HardwareStateMachine
  import opened Rotary

  /** A physical scenario. hasTimeline says the weight timeline is not empty. */
  datatype DepositPlan = DepositPlan(
    destination: Option<int>,
    actual: Option<int>,
    hasTimeline: bool,
    finalWeight: Option<Weight>,
    mechanical: bool,
    jamAngle: Option<real>,
    duplicateTerminal: bool,
    status: Claim)

  datatype StationConfig = StationConfig(bins: BinMap, limits: Limits, ref: StationRef, minWeight: Weight)

  /** What the station publishes on its event topic. */
  datatype Message =
    | StateChanged(operation: OperationId, state: MachineState)
    | Result(event: ResultEvent)

  /** Where the machine and the chute stand between commands. */
  datatype Station = Station(state: MachineState, angle: real, homed: bool, hall: bool)

  ghost predicate ValidStation(cfg: StationConfig, st: Station) {
    ValidMap(cfg.bins) && 0.0 <= st.angle < 360.0 && (st.homed ==> st.hall)
  }

  /** The station can take a command. */
  predicate AtRest(st: Station) {
    st.state == IDLE && st.homed
  }

  /** What became of one command. crashed is an exception that left run_plan. */
  datatype Report = Report(station: Station, log: seq<Message>, crashed: bool)

  function Effective(plan: DepositPlan, destination: int): int {
    plan.destination.GetOr(destination)
  }

  function Target(plan: DepositPlan, destination: int): int {
    plan.actual.GetOr(Effective(plan, destination))
  }

  /** A zero weight counts as no weight, and then 18.4 g is reported. */
  function ReportedWeight(plan: DepositPlan): Weight {
    if plan.finalWeight == Some(0) then 1840 else plan.finalWeight.GetOr(1840)
  }

  function ResultOf(cfg: StationConfig, op: OperationId, angle: real, actual: int, weight: Weight, status: Claim,
                      mechanical: bool, beamSeen: bool): ResultEvent {
    ResultEvent(Some(op), Some(cfg.ref), Some(status), Some(actual), Some(weight), Some(weight >= cfg.minWeight),
                Some(beamSeen), Some(mechanical), Some(Aligned(cfg.bins.targets, angle)))
  }

  function Prefix(op: OperationId): seq<Message> {
    [StateChanged(op, ROUTING), StateChanged(op, MOVING)]
  }

  function Seated(op: OperationId): seq<Message> {
    Prefix(op) + [StateChanged(op, POSITIONED)]
  }

  function Weighed(op: OperationId): seq<Message> {
    Seated(op) + [StateChanged(op, READY_FOR_DEPOSIT), StateChanged(op, DETECTING), StateChanged(op, MEASURING)]
  }

  /** The four messages that close a run: its last state, its report and the reset. */
  function Close(op: OperationId, last: MachineState, result: ResultEvent): seq<Message> {
    [StateChanged(op, last), Result(result), StateChanged(op, RESETTING), StateChanged(op, IDLE)]
  }

  /** A fault is announced, reported, reset and homed again; the sensor of a homed
      chute has fired, so that cannot fail. */
  function Faulted(op: OperationId, log: seq<Message>, fault: MachineState, result: ResultEvent): Report {
    Report(Station(IDLE, 0.0, true, true), log + Close(op, fault, result), false)
  }

  /** A delivery is announced, reported and reset; the report may go out again. */
  function Delivered(op: OperationId, result: ResultEvent, again: bool): seq<Message> {
    Weighed(op) + Close(op, DEPOSIT_CONFIRMED, result) + (if again then [Result(result)] else [])
  }

  function FaultFor(status: Claim): MachineState {
    if status.ClaimUnderweight? then UNDERWEIGHT else SENSOR_ERROR
  }

  function Move(cfg: StationConfig, st: Station, destination: int, plan: DepositPlan): Run {
    Route(cfg.bins, cfg.limits, st.homed, st.angle, plan.jamAngle, Target(plan, destination))
  }

  /** The plan sends the chute elsewhere than it was told. */
  predicate Misplaced(plan: DepositPlan, destination: int) {
    plan.actual.Some? && plan.actual.value != Effective(plan, destination)
  }

  /** A plan, given how its move went. */
  function Executed(cfg: StationConfig, st: Station, run: Run, op: OperationId, destination: int, plan: DepositPlan,
                    reading: Weight): Report
  {
    var aligned := Aligned(cfg.bins.targets, run.angle);
    if st.state != IDLE then Report(st, [], true)
    else if run.outcome.NotHomed? || run.outcome.UnknownPosition? then Report(st.(state := MOVING), Prefix(op), true)
    else if run.outcome.Jammed? then
      Faulted(op, Prefix(op), JAMMED, ResultOf(cfg, op, run.angle, aligned, 0, ClaimJam, false, false))
    else if run.outcome.TimedOut? then
      Faulted(op, Prefix(op), TIMEOUT, ResultOf(cfg, op, run.angle, aligned, 0, ClaimTimeout, false, false))
    else if Misplaced(plan, destination) then
      Faulted(op, Seated(op), WRONG_POSITION,
              ResultOf(cfg, op, run.angle, plan.actual.value, ReportedWeight(plan), plan.status, plan.mechanical, true))
    else if !plan.hasTimeline then Report(st.(state := MEASURING, angle := run.angle), Weighed(op), true)
    else if plan.status != ClaimConfirmed then
      Faulted(op, Weighed(op), FaultFor(plan.status), ResultOf(cfg, op, run.angle, aligned, reading, plan.status, false, true))
    else
      Report(st.(angle := run.angle),
             Delivered(op, ResultOf(cfg, op, run.angle, aligned, reading, plan.status, plan.mechanical, true),
                       plan.duplicateTerminal), false)
  }

  function RunPlan(cfg: StationConfig, st: Station, op: OperationId, destination: int, plan: DepositPlan,
                   reading: Weight): Report
  {
    Executed(cfg, st, Move(cfg, st, destination, plan), op, destination, plan, reading)
  }

  // ---- one command ---------------------------------------------------------

  /** The deposit_result messages among the published ones. */
  function Results(log: seq<Message>): seq<ResultEvent> {
    if log == [] then []
    else Results(log[..|log| - 1]) + (if log[|log| - 1].Result? then [log[|log| - 1].event] else [])
  }

  /** The announced states. */
  function States(log: seq<Message>): seq<MachineState> {
    if log == [] then []
    else States(log[..|log| - 1]) + (if log[|log| - 1].StateChanged? then [log[|log| - 1].state] else [])
  }

  lemma {:induction false} ResultsConcat(a: seq<Message>, b: seq<Message>)
    ensures Results(a + b) == Results(a) + Results(b)
    ensures States(a + b) == States(a) + States(b)
  {
    if b == [] {
      assert a + b == a;
    } else {
      assert (a + b)[..|a + b| - 1] == a + b[..|b| - 1];
      ResultsConcat(a, b[..|b| - 1]);
    }
  }

  function End(from: MachineState, path: seq<MachineState>): MachineState {
    if path == [] then from else path[|path| - 1]
  }

  /** Every state of the path is one the transition table allows after the one before. */
  predicate LegalPath(from: MachineState, path: seq<MachineState>) {
    path == []
    || (LegalPath(from, path[..|path| - 1]) && Allowed(End(from, path[..|path| - 1]), path[|path| - 1]))
  }

  lemma Extended(from: MachineState, path: seq<MachineState>, next: MachineState)
    requires LegalPath(from, path) && Allowed(End(from, path), next)
    ensures LegalPath(from, path + [next]) && End(from, path + [next]) == next
  {
    assert (path + [next])[..|path + [next]| - 1] == path;
  }

  lemma OneMessage(log: seq<Message>, m: Message)
    ensures Results(log + [m]) == Results(log) + (if m.Result? then [m.event] else [])
    ensures States(log + [m]) == States(log) + (if m.StateChanged? then [m.state] else [])
  {
    assert (log + [m])[..|log + [m]| - 1] == log;
  }

  lemma Routine(op: OperationId)
    ensures Results(Prefix(op)) == [] && States(Prefix(op)) == [ROUTING, MOVING]
    ensures Results(Seated(op)) == [] && States(Seated(op)) == [ROUTING, MOVING, POSITIONED]
    ensures Results(Weighed(op)) == []
    ensures States(Weighed(op)) == [ROUTING, MOVING, POSITIONED, READY_FOR_DEPOSIT, DETECTING, MEASURING]
  {
    OneMessage([], StateChanged(op, ROUTING));
    OneMessage([StateChanged(op, ROUTING)], StateChanged(op, MOVING));
    assert Prefix(op) == [StateChanged(op, ROUTING)] + [StateChanged(op, MOVING)];
    OneMessage(Prefix(op), StateChanged(op, POSITIONED));
    var a := Seated(op) + [StateChanged(op, READY_FOR_DEPOSIT)];
    var b := a + [StateChanged(op, DETECTING)];
    OneMessage(Seated(op), StateChanged(op, READY_FOR_DEPOSIT));
    OneMessage(a, StateChanged(op, DETECTING));
    OneMessage(b, StateChanged(op, MEASURING));
    assert Weighed(op) == b + [StateChanged(op, MEASURING)];
  }

  lemma Closing(op: OperationId, log: seq<Message>, last: MachineState, result: ResultEvent)
    ensures var all := log + Close(op, last, result);
            Results(all) == Results(log) + [result] && States(all) == States(log) + [last, RESETTING, IDLE]
  {
    var a := log + [StateChanged(op, last)];
    var b := a + [Result(result)];
    var c := b + [StateChanged(op, RESETTING)];
    OneMessage(log, StateChanged(op, last));
    OneMessage(a, Result(result));
    OneMessage(b, StateChanged(op, RESETTING));
    OneMessage(c, StateChanged(op, IDLE));
    assert log + Close(op, last, result) == c + [StateChanged(op, IDLE)];
  }

  /** The terminal message a run publishes, when it publishes one. */
  function ResultFor(cfg: StationConfig, run: Run, op: OperationId, destination: int, plan: DepositPlan,
                     reading: Weight)
    : ResultEvent
  {
    var aligned := Aligned(cfg.bins.targets, run.angle);
    if run.outcome.Jammed? then ResultOf(cfg, op, run.angle, aligned, 0, ClaimJam, false, false)
    else if run.outcome.TimedOut? then ResultOf(cfg, op, run.angle, aligned, 0, ClaimTimeout, false, false)
    else if Misplaced(plan, destination) then
      ResultOf(cfg, op, run.angle, plan.actual.value, ReportedWeight(plan), plan.status, plan.mechanical, true)
    else
      ResultOf(cfg, op, run.angle, aligned, reading, plan.status, plan.status.ClaimConfirmed? && plan.mechanical, true)
  }

  // ---- what each command publishes -----------------------------------------

  /** A report: the weight counts as stable when it reaches the minimum, and the
      mechanism is where the chute points. */
  predicate Reports(cfg: StationConfig, run: Run, e: ResultEvent, op: OperationId, claim: Claim, actual: int,
                    weight: Weight, mechanical: bool, beam: bool)
  {
    e == ResultEvent(Some(op), Some(cfg.ref), Some(claim), Some(actual), Some(weight), Some(weight >= cfg.minWeight),
                     Some(beam), Some(mechanical), Some(Aligned(cfg.bins.targets, run.angle)))
  }

  /** The weight of a misplaced deposit: the plan's if it is given and not zero, and
      18.4 g otherwise. */
  function MisplacedWeight(plan: DepositPlan): Weight {
    if plan.finalWeight.Some? && plan.finalWeight.value != 0 then plan.finalWeight.value else 1840
  }

  /** A stopped move is announced as a jam or a time out and reported without weight,
      beam or mechanical confirmation. */
  lemma StoppedRule(cfg: StationConfig, st: Station, run: Run, op: OperationId, destination: int, plan: DepositPlan,
                    reading: Weight)
    requires st.state == IDLE && (run.outcome.Jammed? || run.outcome.TimedOut?)
    ensures var r := Executed(cfg, st, run, op, destination, plan, reading);
            && States(r.log) == [ROUTING, MOVING, if run.outcome.Jammed? then JAMMED else TIMEOUT, RESETTING, IDLE]
            && |Results(r.log)| == 1
            && Reports(cfg, run, Results(r.log)[0], op, if run.outcome.Jammed? then ClaimJam else ClaimTimeout,
                       Aligned(cfg.bins.targets, run.angle), 0, false, false)
            && r.station == Station(IDLE, 0.0, true, true) && !r.crashed
  {
    Routine(op);
    Closing(op, Prefix(op), if run.outcome.Jammed? then JAMMED else TIMEOUT,
            ResultFor(cfg, run, op, destination, plan, reading));
  }

  /** A deposit in another compartment than the plan sends the chute to is announced as
      a wrong position and reported with the plan's status, weight and confirmation. */
  lemma MisplacedRule(cfg: StationConfig, st: Station, run: Run, op: OperationId, destination: int, plan: DepositPlan,
                      reading: Weight)
    requires st.state == IDLE && (run.outcome.Arrived? || run.outcome.AlreadyThere?)
    requires plan.actual.Some? && plan.actual.value != plan.destination.GetOr(destination)
    ensures var r := Executed(cfg, st, run, op, destination, plan, reading);
            && States(r.log) == [ROUTING, MOVING, POSITIONED, WRONG_POSITION, RESETTING, IDLE]
            && |Results(r.log)| == 1
            && Reports(cfg, run, Results(r.log)[0], op, plan.status, plan.actual.value, MisplacedWeight(plan),
                       plan.mechanical, true)
            && r.station == Station(IDLE, 0.0, true, true) && !r.crashed
  {
    Routine(op);
    Closing(op, Seated(op), WRONG_POSITION, ResultFor(cfg, run, op, destination, plan, reading));
  }

  /** A measured deposit whose plan is not confirmed: underweight is announced as such,
      every other status as a sensor error, and no mechanical confirmation is reported. */
  lemma FaultRule(cfg: StationConfig, st: Station, run: Run, op: OperationId, destination: int, plan: DepositPlan,
                  reading: Weight)
    requires st.state == IDLE && (run.outcome.Arrived? || run.outcome.AlreadyThere?)
    requires plan.actual.Some? ==> plan.actual.value == plan.destination.GetOr(destination)
    requires plan.hasTimeline && plan.status != ClaimConfirmed
    ensures var r := Executed(cfg, st, run, op, destination, plan, reading);
            && States(r.log) == [ROUTING, MOVING, POSITIONED, READY_FOR_DEPOSIT, DETECTING, MEASURING,
                                 if plan.status == ClaimUnderweight then UNDERWEIGHT else SENSOR_ERROR, RESETTING, IDLE]
            && |Results(r.log)| == 1
            && Reports(cfg, run, Results(r.log)[0], op, plan.status, Aligned(cfg.bins.targets, run.angle), reading, false, true)
            && r.station == Station(IDLE, 0.0, true, true) && !r.crashed
  {
    Routine(op);
    Closing(op, Weighed(op), if plan.status == ClaimUnderweight then UNDERWEIGHT else SENSOR_ERROR,
            ResultFor(cfg, run, op, destination, plan, reading));
  }

  /** A confirmed deposit goes to the scale and is reported with the reading and the
      plan's mechanical confirmation, twice when the plan asks for a duplicate. */
  lemma DeliveryRule(cfg: StationConfig, st: Station, run: Run, op: OperationId, destination: int, plan: DepositPlan,
                     reading: Weight)
    requires st.state == IDLE && (run.outcome.Arrived? || run.outcome.AlreadyThere?)
    requires plan.actual.Some? ==> plan.actual.value == plan.destination.GetOr(destination)
    requires plan.hasTimeline && plan.status == ClaimConfirmed
    ensures var r := Executed(cfg, st, run, op, destination, plan, reading);
            && States(r.log) == [ROUTING, MOVING, POSITIONED, READY_FOR_DEPOSIT, DETECTING, MEASURING, DEPOSIT_CONFIRMED,
                                 RESETTING, IDLE]
            && |Results(r.log)| == (if plan.duplicateTerminal then 2 else 1)
            && (forall i :: 0 <= i < |Results(r.log)| ==>
                  Reports(cfg, run, Results(r.log)[i], op, ClaimConfirmed, Aligned(cfg.bins.targets, run.angle), reading,
                          plan.mechanical, true))
            && r.station == Station(IDLE, run.angle, st.homed, st.hall) && !r.crashed
  {
    DeliveredLog(op, ResultFor(cfg, run, op, destination, plan, reading), plan.duplicateTerminal);
  }

  lemma DeliveredLog(op: OperationId, result: ResultEvent, again: bool)
    ensures States(Delivered(op, result, again)) ==
            [ROUTING, MOVING, POSITIONED, READY_FOR_DEPOSIT, DETECTING, MEASURING, DEPOSIT_CONFIRMED, RESETTING, IDLE]
    ensures Results(Delivered(op, result, again)) == if again then [result, result] else [result]
  {
    var all := Weighed(op) + Close(op, DEPOSIT_CONFIRMED, result);
    Routine(op);
    Closing(op, Weighed(op), DEPOSIT_CONFIRMED, result);
    OneMessage(all, Result(result));
    assert Delivered(op, result, again) == if again then all + [Result(result)] else all;
  }

  /** The move ends at the compartment it was sent to. */
  predicate Completes(run: Run) {
    run.outcome.Arrived? || run.outcome.AlreadyThere?
  }

  /** The run ends without a fault. */
  predicate Delivers(run: Run, destination: int, plan: DepositPlan) {
    Completes(run) && !Misplaced(plan, destination) && plan.status.ClaimConfirmed?
  }

  /** A command whose compartment exists and whose plan has a weight to measure when
      it comes to that. */
  predicate Wellformed(run: Run, destination: int, plan: DepositPlan) {
    && 1 <= Target(plan, destination) <= 4
    && (Completes(run) && !Misplaced(plan, destination) ==> plan.hasTimeline)
  }

  /** One command on a ready station. It stays ready exactly when the command is
      well formed; it then publishes exactly one terminal message, or the same one
      twice for a confirmed plan that asks for a duplicate, and after any fault it
      stands homed at zero. Otherwise an exception leaves the machine where it was
      and no terminal message goes out. */
  lemma CommandOutcome(cfg: StationConfig, st: Station, op: OperationId, destination: int, plan: DepositPlan,
                       reading: Weight)
    requires ValidStation(cfg, st) && AtRest(st)
    ensures var r := RunPlan(cfg, st, op, destination, plan, reading);
            var run := Move(cfg, st, destination, plan);
            var result := ResultFor(cfg, run, op, destination, plan, reading);
            && ValidStation(cfg, r.station)
            && (AtRest(r.station) <==> Wellformed(run, destination, plan))
            && (r.crashed <==> !AtRest(r.station))
            && (!r.crashed && !Delivers(run, destination, plan) ==> r.station.angle == 0.0)
            && Results(r.log) == (if r.crashed then []
                                  else if Delivers(run, destination, plan) && plan.duplicateTerminal
                                  then [result, result] else [result])
  {
    var run := Move(cfg, st, destination, plan);
    KnownPositions(cfg.bins, Target(plan, destination));
    MoveOutcome(cfg, st, destination, plan);
    Standing(cfg, st, run, op, destination, plan, reading);
    Published(cfg, st, run, op, destination, plan, reading);
  }

  lemma MoveOutcome(cfg: StationConfig, st: Station, destination: int, plan: DepositPlan)
    requires 0.0 <= st.angle < 360.0 && st.homed
    ensures var run := Move(cfg, st, destination, plan);
            && 0.0 <= run.angle < 360.0
            && !run.outcome.NotHomed?
            && (run.outcome.UnknownPosition? <==> Lookup(cfg.bins.targets, Target(plan, destination)).None?)
  {
  }

  lemma Standing(cfg: StationConfig, st: Station, run: Run, op: OperationId, destination: int, plan: DepositPlan,
                 reading: Weight)
    requires ValidStation(cfg, st) && AtRest(st)
    requires 0.0 <= run.angle < 360.0 && !run.outcome.NotHomed?
    requires run.outcome.UnknownPosition? <==> !(1 <= Target(plan, destination) <= 4)
    ensures var r := Executed(cfg, st, run, op, destination, plan, reading);
            && ValidStation(cfg, r.station)
            && (AtRest(r.station) <==> Wellformed(run, destination, plan))
            && (r.crashed <==> !AtRest(r.station))
            && (!r.crashed && !Delivers(run, destination, plan) ==> r.station.angle == 0.0)
  {
  }

  /** The announced states follow the transition table from IDLE to the given
      state, and the terminal messages are the given ones. */
  ghost predicate Publishes(log: seq<Message>, state: MachineState, results: seq<ResultEvent>) {
    LegalPath(IDLE, States(log)) && End(IDLE, States(log)) == state && Results(log) == results
  }

  /** Whatever the command, the announced states follow the transition table from
      IDLE to where the machine ends, and the terminal messages are the run's. */
  lemma Published(cfg: StationConfig, st: Station, run: Run, op: OperationId, destination: int, plan: DepositPlan,
                  reading: Weight)
    requires st.state == IDLE
    ensures var r := Executed(cfg, st, run, op, destination, plan, reading);
            var result := ResultFor(cfg, run, op, destination, plan, reading);
            Publishes(r.log, r.station.state,
                      if r.crashed then []
                      else if Delivers(run, destination, plan) && plan.duplicateTerminal then [result, result]
                      else [result])
  {
    if run.outcome.Jammed? || run.outcome.TimedOut? {
      StoppedMove(cfg, st, run, op, destination, plan, reading);
    } else if Completes(run) && (Misplaced(plan, destination) || (plan.hasTimeline && plan.status != ClaimConfirmed)) {
      FaultAfterMove(cfg, st, run, op, destination, plan, reading);
    } else if Completes(run) && plan.hasTimeline {
      Measured(op, ResultFor(cfg, run, op, destination, plan, reading));
    } else {
      RoutinePublishes(op);
      Crash(cfg, st, run, op, destination, plan, reading);
    }
  }

  lemma Crash(cfg: StationConfig, st: Station, run: Run, op: OperationId, destination: int, plan: DepositPlan,
              reading: Weight)
    requires st.state == IDLE && !run.outcome.Jammed? && !run.outcome.TimedOut?
    requires Completes(run) ==> !Misplaced(plan, destination) && !plan.hasTimeline
    ensures var r := Executed(cfg, st, run, op, destination, plan, reading);
            && r.crashed && r.station.state == (if Completes(run) then MEASURING else MOVING)
            && r.log == if Completes(run) then Weighed(op) else Prefix(op)
  {
  }

  lemma StoppedMove(cfg: StationConfig, st: Station, run: Run, op: OperationId, destination: int, plan: DepositPlan,
                    reading: Weight)
    requires st.state == IDLE && (run.outcome.Jammed? || run.outcome.TimedOut?)
    ensures Publishes(Executed(cfg, st, run, op, destination, plan, reading).log, IDLE,
                      [ResultFor(cfg, run, op, destination, plan, reading)])
  {
    RoutinePublishes(op);
    Fault(op, Prefix(op), MOVING, if run.outcome.Jammed? then JAMMED else TIMEOUT,
          ResultFor(cfg, run, op, destination, plan, reading));
  }

  lemma FaultAfterMove(cfg: StationConfig, st: Station, run: Run, op: OperationId, destination: int,
                       plan: DepositPlan, reading: Weight)
    requires st.state == IDLE && Completes(run)
    requires Misplaced(plan, destination) || (plan.hasTimeline && plan.status != ClaimConfirmed)
    ensures Publishes(Executed(cfg, st, run, op, destination, plan, reading).log, IDLE,
                      [ResultFor(cfg, run, op, destination, plan, reading)])
  {
    RoutinePublishes(op);
    var result := ResultFor(cfg, run, op, destination, plan, reading);
    if Misplaced(plan, destination) {
      Fault(op, Seated(op), POSITIONED, WRONG_POSITION, result);
    } else {
      Fault(op, Weighed(op), MEASURING, FaultFor(plan.status), result);
    }
  }

  lemma RoutinePublishes(op: OperationId)
    ensures Publishes(Prefix(op), MOVING, []) && Publishes(Seated(op), POSITIONED, []) && Publishes(Weighed(op), MEASURING, [])
  {
    Routine(op);
    LegalRoutine();
  }

  lemma Fault(op: OperationId, log: seq<Message>, at: MachineState, fault: MachineState, result: ResultEvent)
    requires Publishes(log, at, []) && Allowed(at, fault) && Allowed(fault, RESETTING)
    ensures Publishes(Faulted(op, log, fault, result).log, IDLE, [result])
  {
    Closing(op, log, fault, result);
    LegalClosing(States(log), fault);
  }

  lemma Measured(op: OperationId, result: ResultEvent)
    ensures Publishes(Delivered(op, result, false), IDLE, [result])
    ensures Publishes(Delivered(op, result, true), IDLE, [result, result])
  {
    RoutinePublishes(op);
    Fault(op, Weighed(op), MEASURING, DEPOSIT_CONFIRMED, result);
    var all := Faulted(op, Weighed(op), DEPOSIT_CONFIRMED, result).log;
    assert Delivered(op, result, false) == all;
    assert Delivered(op, result, true) == all + [Result(result)];
    OneMessage(all, Result(result));
    assert States(all + [Result(result)]) == States(all);
  }

  lemma LegalRoutine()
    ensures LegalPath(IDLE, [ROUTING, MOVING])
    ensures LegalPath(IDLE, [ROUTING, MOVING, POSITIONED])
    ensures LegalPath(IDLE, [ROUTING, MOVING, POSITIONED, READY_FOR_DEPOSIT, DETECTING, MEASURING])
  {
    Extended(IDLE, [], ROUTING);
    Extended(IDLE, [ROUTING], MOVING);
    assert [ROUTING] + [MOVING] == [ROUTING, MOVING];
    Extended(IDLE, [ROUTING, MOVING], POSITIONED);
    var seated := [ROUTING, MOVING, POSITIONED];
    assert [ROUTING, MOVING] + [POSITIONED] == seated;
    Extended(IDLE, seated, READY_FOR_DEPOSIT);
    Extended(IDLE, seated + [READY_FOR_DEPOSIT], DETECTING);
    Extended(IDLE, seated + [READY_FOR_DEPOSIT] + [DETECTING], MEASURING);
    assert seated + [READY_FOR_DEPOSIT] + [DETECTING] + [MEASURING]
        == [ROUTING, MOVING, POSITIONED, READY_FOR_DEPOSIT, DETECTING, MEASURING];
  }

  lemma LegalClosing(path: seq<MachineState>, last: MachineState)
    requires LegalPath(IDLE, path) && Allowed(End(IDLE, path), last) && Allowed(last, RESETTING)
    ensures LegalPath(IDLE, path + [last, RESETTING, IDLE])
  {
    Extended(IDLE, path, last);
    Extended(IDLE, path + [last], RESETTING);
    Extended(IDLE, path + [last] + [RESETTING], IDLE);
    assert path + [last] + [RESETTING] + [IDLE] == path + [last, RESETTING, IDLE];
  }
}
