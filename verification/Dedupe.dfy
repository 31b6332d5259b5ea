/** Repeated route commands: what the station's in-flight set and its list of the
    last 64 finished operations let through, however starts and finishes interleave. */
module Dedupe {
  import opened Schema
  import opened Simulator

  /** The station's memory, and beside it what really runs and has run. */
  datatype Memory = Memory(
    inFlight: set<OperationId>,
    completed: seq<OperationId>,
    running: multiset<OperationId>,
    finished: seq<OperationId>)

  datatype Event = Start(operation: OperationId) | Finish(operation: OperationId)

  predicate Accepted(m: Memory, op: OperationId) {
    op !in m.inFlight && op !in m.completed
  }

  /** A start that is a duplicate is ignored; only what runs can finish. */
  function Step(m: Memory, e: Event): Memory {
    match e
    case Start(op) =>
      if Accepted(m, op) then m.(inFlight := m.inFlight + {op}, running := m.running + multiset{op}) else m
    case Finish(op) =>
      if op in m.running then
        Memory(m.inFlight - {op}, Latest(m.completed + [op]), m.running - multiset{op}, m.finished + [op])
      else m
  }

  function Play(events: seq<Event>): Memory {
    if events == [] then Memory({}, [], multiset{}, [])
    else Step(Play(events[..|events| - 1]), events[|events| - 1])
  }

  /** Equal entries are more than 64 places apart. */
  ghost predicate Spaced(finished: seq<OperationId>) {
    forall i, j :: 0 <= i < j < |finished| && finished[i] == finished[j] ==> j - i > 64
  }

  ghost predicate Inv(m: Memory) {
    && (forall op :: op in m.inFlight <==> op in m.running)
    && (forall op :: m.running[op] <= 1)
    && (forall op :: op in m.inFlight ==> op !in m.completed)
    && m.completed == Latest(m.finished)
    && Spaced(m.finished)
  }

  lemma LatestAppend(finished: seq<OperationId>, op: OperationId)
    ensures Latest(Latest(finished) + [op]) == Latest(finished + [op])
  {
  }

  lemma InLatest(finished: seq<OperationId>, op: OperationId)
    ensures op in Latest(finished) <==> exists i :: |finished| - 64 <= i < |finished| && 0 <= i && finished[i] == op
  {
    var last := Latest(finished);
    if i :| 0 <= i < |finished| && |finished| - 64 <= i && finished[i] == op {
      assert last[i - (|finished| - |last|)] == op;
    }
  }

  lemma FinishKeepsSpacing(finished: seq<OperationId>, op: OperationId)
    requires Spaced(finished) && op !in Latest(finished)
    ensures Spaced(finished + [op])
  {
    InLatest(finished, op);
  }

  lemma StepKeepsInv(m: Memory, e: Event)
    requires Inv(m)
    ensures Inv(Step(m, e))
  {
    if e.Finish? && e.operation in m.running {
      LatestAppend(m.finished, e.operation);
      FinishKeepsSpacing(m.finished, e.operation);
    }
  }

  lemma {:induction false} RunKeepsInv(events: seq<Event>)
    ensures Inv(Play(events))
  {
    if events != [] {
      RunKeepsInv(events[..|events| - 1]);
      StepKeepsInv(Play(events[..|events| - 1]), events[|events| - 1]);
    }
  }

  /** In any interleaving no operation runs twice at once. */
  lemma NeverTwiceInFlight(events: seq<Event>, op: OperationId)
    ensures Play(events).running[op] <= 1
  {
    RunKeepsInv(events);
  }

  /** A start is let through exactly when the operation is neither running nor among
      the last 64 finished executions. */
  lemma AcceptedExactlyWhen(events: seq<Event>, op: OperationId)
    ensures var m := Play(events);
            Accepted(m, op) <==>
            (op !in m.running && forall i :: 0 <= i < |m.finished| && m.finished[i] == op ==> i < |m.finished| - 64)
  {
    RunKeepsInv(events);
    InLatest(Play(events).finished, op);
  }

  /** When an operation that has finished before is let through again, at least 64
      executions finished in between, and the last 64 of them were of pairwise
      different other operations. */
  lemma ExecutionsAreApart(events: seq<Event>, op: OperationId, i: nat)
    requires Accepted(Play(events), op) && i < |Play(events).finished| && Play(events).finished[i] == op
    ensures var finished := Play(events).finished;
            && |finished| - 1 - i >= 64
            && (forall j :: |finished| - 64 <= j < |finished| ==> finished[j] != op)
            && (forall j, k :: |finished| - 64 <= j < k < |finished| ==> finished[j] != finished[k])
  {
    RunKeepsInv(events);
    AcceptedExactlyWhen(events, op);
  }
}
