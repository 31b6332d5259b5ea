/** Whole runs of a station: any sequence of route commands, one after the other. */
module StationRuns {
  import opened Schema
  import opened DepositService
  import opened HardwareStateMachine
  import opened Rotary
  import opened Station

  datatype Command = Command(operation: OperationId, destination: int, plan: DepositPlan, reading: Weight)

  function Execute(cfg: StationConfig, st: Station, c: Command): Report {
    RunPlan(cfg, st, c.operation, c.destination, c.plan, c.reading)
  }

  function After(cfg: StationConfig, st: Station, commands: seq<Command>): Station {
    if commands == [] then st
    else Execute(cfg, After(cfg, st, commands[..|commands| - 1]), commands[|commands| - 1]).station
  }

  /** Everything published, in order. */
  function Log(cfg: StationConfig, st: Station, commands: seq<Command>): seq<Message> {
    if commands == [] then []
    else
      Log(cfg, st, commands[..|commands| - 1])
      + Execute(cfg, After(cfg, st, commands[..|commands| - 1]), commands[|commands| - 1]).log
  }

  ghost predicate WellformedAt(cfg: StationConfig, st: Station, c: Command) {
    Wellformed(Move(cfg, st, c.destination, c.plan), c.destination, c.plan)
  }

  /** Every command is well formed where the station stands when it arrives. */
  ghost predicate AllWellformed(cfg: StationConfig, st: Station, commands: seq<Command>) {
    commands == []
    || (AllWellformed(cfg, st, commands[..|commands| - 1])
        && WellformedAt(cfg, After(cfg, st, commands[..|commands| - 1]), commands[|commands| - 1]))
  }

  /** A station wedges exactly when some command was not well formed on arrival:
      over any sequence of commands it ends ready, idle and homed, if and only if
      every one of them was. */
  lemma {:induction false} WedgesExactlyWhen(cfg: StationConfig, st: Station, commands: seq<Command>)
    requires ValidStation(cfg, st) && AtRest(st)
    ensures ValidStation(cfg, After(cfg, st, commands))
    ensures AtRest(After(cfg, st, commands)) <==> After(cfg, st, commands).state == IDLE
    ensures AtRest(After(cfg, st, commands)) <==> AllWellformed(cfg, st, commands)
  {
    if commands != [] {
      var rest, c := commands[..|commands| - 1], commands[|commands| - 1];
      var before := After(cfg, st, rest);
      WedgesExactlyWhen(cfg, st, rest);
      if before.state == IDLE {
        CommandOutcome(cfg, before, c.operation, c.destination, c.plan, c.reading);
        IdleIsHomed(cfg, before, Move(cfg, before, c.destination, c.plan), c);
      }
    }
  }

  lemma IdleIsHomed(cfg: StationConfig, st: Station, run: Run, c: Command)
    requires st.homed
    ensures Executed(cfg, st, run, c.operation, c.destination, c.plan, c.reading).station.homed
  {
  }

  /** Commands for compartments 1 to 4 with a weight timeline. */
  ghost predicate Serviceable(commands: seq<Command>) {
    forall i :: 0 <= i < |commands| ==>
      1 <= Target(commands[i].plan, commands[i].destination) <= 4 && commands[i].plan.hasTimeline
  }

  lemma {:induction false} ServiceableIsWellformed(cfg: StationConfig, st: Station, commands: seq<Command>)
    requires Serviceable(commands)
    ensures AllWellformed(cfg, st, commands)
  {
    if commands != [] {
      ServiceableIsWellformed(cfg, st, commands[..|commands| - 1]);
    }
  }

  /** With compartments 1 to 4 and weights to measure a station never wedges, and
      each command publishes exactly one terminal message, or the same one twice
      for a confirmed plan that asks for a duplicate. */
  lemma NeverWedges(cfg: StationConfig, st: Station, commands: seq<Command>, i: nat)
    requires ValidStation(cfg, st) && AtRest(st) && i < |commands|
    requires Serviceable(commands)
    ensures AtRest(After(cfg, st, commands))
    ensures var c := commands[i];
            var before := After(cfg, st, commands[..i]);
            var run := Move(cfg, before, c.destination, c.plan);
            var result := ResultFor(cfg, run, c.operation, c.destination, c.plan, c.reading);
            && AtRest(before) && !Execute(cfg, before, c).crashed
            && Results(Execute(cfg, before, c).log)
            == (if Delivers(run, c.destination, c.plan) && c.plan.duplicateTerminal then [result, result] else [result])
  {
    ServiceableIsWellformed(cfg, st, commands);
    ServiceableIsWellformed(cfg, st, commands[..i]);
    WedgesExactlyWhen(cfg, st, commands);
    WedgesExactlyWhen(cfg, st, commands[..i]);
    var c := commands[i];
    CommandOutcome(cfg, After(cfg, st, commands[..i]), c.operation, c.destination, c.plan, c.reading);
  }

  /** A wedged station stays as it is and publishes nothing more, whatever it is sent. */
  lemma {:induction false} WedgedForever(cfg: StationConfig, st: Station, commands: seq<Command>)
    requires st.state != IDLE
    ensures After(cfg, st, commands) == st && Log(cfg, st, commands) == []
  {
    if commands != [] {
      WedgedForever(cfg, st, commands[..|commands| - 1]);
    }
  }

  /** Every transition a run announces is one the table allows, whatever it is sent. */
  lemma {:induction false} RunsFollowTheTable(cfg: StationConfig, st: Station, commands: seq<Command>)
    requires st.state == IDLE
    ensures LegalPath(IDLE, States(Log(cfg, st, commands)))
    ensures End(IDLE, States(Log(cfg, st, commands))) == After(cfg, st, commands).state
  {
    if commands != [] {
      var rest, c := commands[..|commands| - 1], commands[|commands| - 1];
      var before := After(cfg, st, rest);
      RunsFollowTheTable(cfg, st, rest);
      var step := Execute(cfg, before, c);
      ResultsConcat(Log(cfg, st, rest), step.log);
      if before.state == IDLE {
        Published(cfg, before, Move(cfg, before, c.destination, c.plan), c.operation, c.destination, c.plan, c.reading);
        LegalConcat(States(Log(cfg, st, rest)), States(step.log));
      } else {
        assert Log(cfg, st, commands) == Log(cfg, st, rest);
      }
    }
  }

  lemma {:induction false} LegalConcat(a: seq<MachineState>, b: seq<MachineState>)
    requires LegalPath(IDLE, a) && End(IDLE, a) == IDLE && LegalPath(IDLE, b)
    ensures LegalPath(IDLE, a + b) && End(IDLE, a + b) == End(IDLE, b)
  {
    if b == [] {
      assert a + b == a;
    } else {
      var rest, last := b[..|b| - 1], b[|b| - 1];
      LegalConcat(a, rest);
      Extended(IDLE, a + rest, last);
      assert a + rest + [last] == a + b;
    }
  }
}
