/** At-least-once delivery (MQTT 3.1.1 section 4.3.2): the messages of one operation
    may arrive any number of times and in any order. */
module Delivery {
  import opened Sums
  import opened Schema
  import D = DepositService
  import opened Lifecycle

  /** A message of the operation: a live phase, or its terminal result. */
  datatype Message = Phase(state: D.MachineState) | Result

  datatype Arrival = Arrival(message: Message, now: Instant)

  ghost function Deliver(cfg: Config, db: Db, e: D.ResultEvent, op: OperationId, a: Arrival): Db {
    match a.message
    case Phase(m) => D.ApplyMachineState(db, op, m)
    case Result => D.CompleteFromEvent(cfg, db, e, a.now)
  }

  ghost function DeliverAll(cfg: Config, db: Db, e: D.ResultEvent, op: OperationId, arrivals: seq<Arrival>): Db {
    if arrivals == [] then db
    else
      Deliver(cfg, DeliverAll(cfg, db, e, op, arrivals[..|arrivals| - 1]), e, op, arrivals[|arrivals| - 1])
  }

  ghost predicate Sent(arrivals: seq<Arrival>, m: Message) {
    exists i :: 0 <= i < |arrivals| && arrivals[i].message == m
  }

  ghost predicate InTime(db: Db, op: OperationId, arrivals: seq<Arrival>)
    requires op in db.sessions
  {
    forall i :: 0 <= i < |arrivals| ==> arrivals[i].now <= db.sessions[op].expiresAt
  }

  /** db with a live session moved to another live phase. */
  function AtPhase(db: Db, op: OperationId, s: SessionStatus): Db
    requires op in db.sessions
  {
    db.(sessions := db.sessions[op := db.sessions[op].(status := s)])
  }

  ghost predicate Closes(cfg: Config, db: Db, e: D.ResultEvent, now: Instant) {
    D.Judge(cfg, db, e, now).Close? || D.Judge(cfg, db, e, now).Award?
  }

  /** The verdict on a live session depends neither on its phase nor on the time
      before its expiry. */
  lemma VerdictIgnoresPhaseAndTime(cfg: Config, db: Db, e: D.ResultEvent, op: OperationId, s: SessionStatus,
                                   t: Instant, now: Instant)
    requires e.operation == Some(op) && op in db.sessions && !Terminal(db.sessions[op].status) && !Terminal(s)
    requires t <= db.sessions[op].expiresAt && now <= db.sessions[op].expiresAt
    ensures D.Judge(cfg, AtPhase(db, op, s), e, now) == D.Judge(cfg, db, e, t)
  {
  }

  /** Nor do the rows a closing verdict leaves. */
  lemma ClosingIgnoresPhaseAndTime(cfg: Config, db: Db, e: D.ResultEvent, op: OperationId, s: SessionStatus,
                                   t: Instant, now: Instant)
    requires e.operation == Some(op) && op in db.sessions && !Terminal(db.sessions[op].status) && !Terminal(s)
    requires t <= db.sessions[op].expiresAt && now <= db.sessions[op].expiresAt
    requires Closes(cfg, db, e, t)
    ensures D.CompleteFromEvent(cfg, AtPhase(db, op, s), e, now) == D.CompleteFromEvent(cfg, db, e, t)
  {
    VerdictIgnoresPhaseAndTime(cfg, db, e, op, s, t, now);
    if D.Judge(cfg, db, e, t).Award? {
      ConfirmIgnoresPhase(cfg, db, e, op, s);
    } else {
      ClosedIgnoresPhase(db, op, s, D.Judge(cfg, db, e, t).reason, D.Judge(cfg, db, e, t).status);
    }
  }

  lemma ConfirmIgnoresPhase(cfg: Config, db: Db, e: D.ResultEvent, op: OperationId, s: SessionStatus)
    requires op in db.sessions && db.sessions[op].cls.Classified? && db.sessions[op].user in db.users
    ensures D.Confirm(cfg, AtPhase(db, op, s), op, e) == D.Confirm(cfg, db, op, e)
  {
    var moved := AtPhase(db, op, s);
    assert D.ConfirmedSession(moved.sessions[op], e) == D.ConfirmedSession(db.sessions[op], e);
    assert D.ProgressAfter(moved, op, e) == D.ProgressAfter(db, op, e);
    assert D.Confirm(cfg, moved, op, e).sessions == D.Confirm(cfg, db, op, e).sessions;
  }

  lemma ClosedIgnoresPhase(db: Db, op: OperationId, s: SessionStatus, reason: Reason, status: SessionStatus)
    requires op in db.sessions && db.sessions[op].cls.Classified?
    ensures D.Closed(AtPhase(db, op, s), op, reason, status) == D.Closed(db, op, reason, status)
  {
    assert D.Closed(AtPhase(db, op, s), op, reason, status).sessions == D.Closed(db, op, reason, status).sessions;
  }

  /** s is the furthest of a first phase and the phases that arrived. */
  ghost predicate IsPeak(first: SessionStatus, arrivals: seq<Arrival>, s: SessionStatus) {
    && !Terminal(s) && D.Rank(first) <= D.Rank(s)
    && (s == first || exists m :: Sent(arrivals, Phase(m)) && D.PhaseOf(m) == Some(s))
    && forall m :: Sent(arrivals, Phase(m)) && D.PhaseOf(m).Some? ==> D.Rank(D.PhaseOf(m).value) <= D.Rank(s)
  }

  lemma PeakIsUnique(first: SessionStatus, a: seq<Arrival>, b: seq<Arrival>, s: SessionStatus, t: SessionStatus)
    requires IsPeak(first, a, s) && IsPeak(first, b, t) && !Terminal(first)
    requires forall m :: Sent(a, m) <==> Sent(b, m)
    ensures s == t
  {
    assert D.Rank(s) == D.Rank(t);
  }

  /** Where a live session stands after some arrivals: closed by the result as if it
      had come first and alone, or at the furthest phase. */
  ghost predicate Outcome(cfg: Config, db: Db, e: D.ResultEvent, op: OperationId, arrivals: seq<Arrival>, after: Db)
    requires op in db.sessions
  {
    if Sent(arrivals, Result) && Closes(cfg, db, e, db.sessions[op].expiresAt) then
      after == D.CompleteFromEvent(cfg, db, e, db.sessions[op].expiresAt)
    else
      exists s :: IsPeak(db.sessions[op].status, arrivals, s) && after == AtPhase(db, op, s)
  }

  lemma SentGrows(arrivals: seq<Arrival>, m: Message)
    requires arrivals != []
    ensures Sent(arrivals, m) <==> Sent(arrivals[..|arrivals| - 1], m) || arrivals[|arrivals| - 1].message == m
  {
    if Sent(arrivals[..|arrivals| - 1], m) {
      var i :| 0 <= i < |arrivals| - 1 && arrivals[..|arrivals| - 1][i].message == m;
      assert arrivals[i].message == m;
    }
  }

  /** The phase a state frame leaves a session at. */
  function Later(s: SessionStatus, m: D.MachineState): SessionStatus {
    if D.PhaseOf(m).Some? && D.Rank(D.PhaseOf(m).value) > D.Rank(s) then D.PhaseOf(m).value else s
  }

  lemma FrameMoves(db: Db, op: OperationId, s: SessionStatus, m: D.MachineState)
    requires op in db.sessions && !Terminal(s)
    ensures D.ApplyMachineState(AtPhase(db, op, s), op, m) == AtPhase(db, op, Later(s, m))
  {
    if D.Advances(AtPhase(db, op, s), op, m) {
      AtPhaseTwice(db, op, s, D.PhaseOf(m).value);
    }
  }

  lemma AtPhaseTwice(db: Db, op: OperationId, s: SessionStatus, r: SessionStatus)
    requires op in db.sessions
    ensures AtPhase(AtPhase(db, op, s), op, r) == AtPhase(db, op, r)
  {
    assert AtPhase(AtPhase(db, op, s), op, r).sessions == AtPhase(db, op, r).sessions;
  }

  /** One more state frame. */
  lemma PeakStep(first: SessionStatus, arrivals: seq<Arrival>, s: SessionStatus, m: D.MachineState)
    requires arrivals != [] && arrivals[|arrivals| - 1].message == Phase(m)
    requires IsPeak(first, arrivals[..|arrivals| - 1], s)
    ensures IsPeak(first, arrivals, Later(s, m))
  {
    PeakIsSent(first, arrivals, s, m);
    PeakIsFurthest(arrivals, s, m);
  }

  lemma PeakIsFurthest(arrivals: seq<Arrival>, s: SessionStatus, m: D.MachineState)
    requires arrivals != [] && arrivals[|arrivals| - 1].message == Phase(m)
    requires forall n :: Sent(arrivals[..|arrivals| - 1], Phase(n)) && D.PhaseOf(n).Some? ==>
               D.Rank(D.PhaseOf(n).value) <= D.Rank(s)
    ensures forall n :: Sent(arrivals, Phase(n)) && D.PhaseOf(n).Some? ==>
              D.Rank(D.PhaseOf(n).value) <= D.Rank(Later(s, m))
  {
    forall n | Sent(arrivals, Phase(n)) && D.PhaseOf(n).Some?
      ensures D.Rank(D.PhaseOf(n).value) <= D.Rank(Later(s, m))
    {
      SentGrows(arrivals, Phase(n));
    }
  }

  lemma PeakIsSent(first: SessionStatus, arrivals: seq<Arrival>, s: SessionStatus, m: D.MachineState)
    requires arrivals != [] && arrivals[|arrivals| - 1].message == Phase(m)
    requires s == first || exists n :: Sent(arrivals[..|arrivals| - 1], Phase(n)) && D.PhaseOf(n) == Some(s)
    ensures Later(s, m) == first || exists n :: Sent(arrivals, Phase(n)) && D.PhaseOf(n) == Some(Later(s, m))
  {
    SentGrows(arrivals, Phase(m));
    if Later(s, m) == s && s != first {
      var n :| Sent(arrivals[..|arrivals| - 1], Phase(n)) && D.PhaseOf(n) == Some(s);
      SentGrows(arrivals, Phase(n));
    } else {
      assert Sent(arrivals, Phase(m));
    }
  }

  lemma PeakIgnoresResult(first: SessionStatus, arrivals: seq<Arrival>, s: SessionStatus)
    requires arrivals != [] && arrivals[|arrivals| - 1].message == Result
    requires IsPeak(first, arrivals[..|arrivals| - 1], s)
    ensures IsPeak(first, arrivals, s)
  {
    forall n ensures Sent(arrivals, n) <==> Sent(arrivals[..|arrivals| - 1], n) || n == Result { SentGrows(arrivals, n); }
  }

  /** A closed session ignores every further message. */
  lemma ClosedIgnores(cfg: Config, db: Db, e: D.ResultEvent, op: OperationId, a: Arrival)
    requires e.operation == Some(op) && op in db.sessions && Terminal(db.sessions[op].status)
    ensures Deliver(cfg, db, e, op, a) == db
  {
  }

  lemma CompletionCloses(cfg: Config, db: Db, e: D.ResultEvent, op: OperationId, now: Instant)
    requires e.operation == Some(op) && Closes(cfg, db, e, now)
    ensures var after := D.CompleteFromEvent(cfg, db, e, now);
            op in after.sessions && Terminal(after.sessions[op].status)
  {
  }

  lemma {:induction false} DeliveredOutcome(cfg: Config, db: Db, e: D.ResultEvent, op: OperationId,
                                            arrivals: seq<Arrival>)
    requires e.operation == Some(op) && op in db.sessions && !Terminal(db.sessions[op].status) && InTime(db, op, arrivals)
    ensures Outcome(cfg, db, e, op, arrivals, DeliverAll(cfg, db, e, op, arrivals))
  {
    var first := db.sessions[op].status;
    var limit := db.sessions[op].expiresAt;
    if arrivals == [] {
      assert IsPeak(first, arrivals, first);
      SamePhaseIsSame(db, op);
    } else {
      var before := arrivals[..|arrivals| - 1];
      var last := arrivals[|arrivals| - 1];
      var mid := DeliverAll(cfg, db, e, op, before);
      DeliveredOutcome(cfg, db, e, op, before);
      SentGrows(arrivals, Result);
      if Sent(before, Result) && Closes(cfg, db, e, limit) {
        CompletionCloses(cfg, db, e, op, limit);
        ClosedIgnores(cfg, mid, e, op, last);
      } else {
        var s :| IsPeak(first, before, s) && mid == AtPhase(db, op, s);
        if last.message.Phase? {
          FrameMoves(db, op, s, last.message.state);
          PeakStep(first, arrivals, s, last.message.state);
        } else {
          ResultStep(cfg, db, e, op, arrivals, s);
        }
      }
    }
  }

  /** The result, for a session that is not closed. */
  lemma ResultStep(cfg: Config, db: Db, e: D.ResultEvent, op: OperationId, arrivals: seq<Arrival>, s: SessionStatus)
    requires e.operation == Some(op) && op in db.sessions && !Terminal(db.sessions[op].status) && InTime(db, op, arrivals)
    requires arrivals != [] && arrivals[|arrivals| - 1].message == Result
    requires IsPeak(db.sessions[op].status, arrivals[..|arrivals| - 1], s)
    ensures Outcome(cfg, db, e, op, arrivals,
                    D.CompleteFromEvent(cfg, AtPhase(db, op, s), e, arrivals[|arrivals| - 1].now))
  {
    var now := arrivals[|arrivals| - 1].now;
    var limit := db.sessions[op].expiresAt;
    SentGrows(arrivals, Result);
    VerdictIgnoresPhaseAndTime(cfg, db, e, op, s, limit, now);
    if Closes(cfg, db, e, limit) {
      ClosingIgnoresPhaseAndTime(cfg, db, e, op, s, limit, now);
    } else {
      PeakIgnoresResult(db.sessions[op].status, arrivals, s);
    }
  }

  /** Confluence: two deliveries of the same set of messages, each message any number
      of times and in any order before the session expires, leave the same database. */
  lemma Confluent(cfg: Config, db: Db, e: D.ResultEvent, op: OperationId, a: seq<Arrival>, b: seq<Arrival>)
    requires e.operation == Some(op) && op in db.sessions && InTime(db, op, a) && InTime(db, op, b)
    requires forall m :: Sent(a, m) <==> Sent(b, m)
    ensures DeliverAll(cfg, db, e, op, a) == DeliverAll(cfg, db, e, op, b)
  {
    if Terminal(db.sessions[op].status) {
      AllIgnored(cfg, db, e, op, a);
      AllIgnored(cfg, db, e, op, b);
    } else {
      DeliveredOutcome(cfg, db, e, op, a);
      DeliveredOutcome(cfg, db, e, op, b);
      if !(Sent(a, Result) && Closes(cfg, db, e, db.sessions[op].expiresAt)) {
        var first := db.sessions[op].status;
        var s :| IsPeak(first, a, s) && DeliverAll(cfg, db, e, op, a) == AtPhase(db, op, s);
        var t :| IsPeak(first, b, t) && DeliverAll(cfg, db, e, op, b) == AtPhase(db, op, t);
        PeakIsUnique(first, a, b, s, t);
      }
    }
  }

  lemma {:induction false} AllIgnored(cfg: Config, db: Db, e: D.ResultEvent, op: OperationId, arrivals: seq<Arrival>)
    requires e.operation == Some(op) && op in db.sessions && Terminal(db.sessions[op].status)
    ensures DeliverAll(cfg, db, e, op, arrivals) == db
  {
    if arrivals != [] {
      AllIgnored(cfg, db, e, op, arrivals[..|arrivals| - 1]);
      ClosedIgnores(cfg, db, e, op, arrivals[|arrivals| - 1]);
    }
  }

  /** Against in-order exactly-once delivery: once the result of a classified session
      has arrived, in time and however often, everything is as if it had come alone. */
  lemma ResultAloneDecides(cfg: Config, db: Db, e: D.ResultEvent, op: OperationId, arrivals: seq<Arrival>, now: Instant)
    requires Inv(cfg, db) && e.operation == Some(op) && op in db.sessions && InTime(db, op, arrivals)
    requires !Terminal(db.sessions[op].status) && db.sessions[op].cls.Classified? && db.sessions[op].user in db.users
    requires Sent(arrivals, Result) && now <= db.sessions[op].expiresAt
    ensures DeliverAll(cfg, db, e, op, arrivals) == D.CompleteFromEvent(cfg, db, e, now)
    ensures Terminal(DeliverAll(cfg, db, e, op, arrivals).sessions[op].status)
  {
    DeliveredOutcome(cfg, db, e, op, arrivals);
    assert SessionOk(cfg, db.sessions[op], EventOf(db, op));
    SamePhaseIsSame(db, op);
    ClosesExactlyWhen(cfg, db, e, op, now);
    ClosesExactlyWhen(cfg, db, e, op, db.sessions[op].expiresAt);
    ClosingIgnoresPhaseAndTime(cfg, db, e, op, db.sessions[op].status, db.sessions[op].expiresAt, now);
    CompletionCloses(cfg, db, e, op, now);
  }

  lemma SamePhaseIsSame(db: Db, op: OperationId)
    requires op in db.sessions
    ensures AtPhase(db, op, db.sessions[op].status) == db
  {
    assert AtPhase(db, op, db.sessions[op].status).sessions == db.sessions;
  }

  /** A message that passes every gate, so that only an award is left. */
  ghost predicate PassesGates(cfg: Config, s: Session, e: D.ResultEvent, now: Instant) {
    !D.StationDiffers(cfg, s, e) && now <= s.expiresAt && D.PhysicalFailure(cfg, s, e) == NoReason
  }

  /** A result closes a live session exactly when the session is classified and, where
      all gates pass, its user exists; otherwise the call aborts and changes nothing. */
  lemma ClosesExactlyWhen(cfg: Config, db: Db, e: D.ResultEvent, op: OperationId, now: Instant)
    requires Inv(cfg, db) && e.operation == Some(op) && op in db.sessions && !Terminal(db.sessions[op].status)
    ensures Closes(cfg, db, e, now) <==>
              && db.sessions[op].cls.Classified?
              && (PassesGates(cfg, db.sessions[op], e, now) ==> db.sessions[op].user in db.users)
    ensures !Closes(cfg, db, e, now) ==> D.CompleteFromEvent(cfg, db, e, now) == db
    ensures Closes(cfg, db, e, now) ==>
              && op in D.CompleteFromEvent(cfg, db, e, now).sessions
              && Terminal(D.CompleteFromEvent(cfg, db, e, now).sessions[op].status)
  {
    assert SessionOk(cfg, db.sessions[op], EventOf(db, op));
    if Closes(cfg, db, e, now) {
      CompletionCloses(cfg, db, e, op, now);
    }
  }
}
