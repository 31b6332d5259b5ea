/** What every run of service calls keeps about deposit sessions. */
module Lifecycle {
  import opened Sums
  import opened Schema
  import D = DepositService
  import opened Ledger

  ghost function EventOf(db: Db, op: OperationId): Option<WasteEvent> {
    if op in db.events then Some(db.events[op]) else None
  }

  /** A classified session carries the class, position and points of one policy row,
      and a low confidence only survives in a rejected one. */
  ghost predicate FollowsPolicy(cfg: Config, s: Session) {
    s.cls.Classified? ==>
      && s.cls.cls in cfg.policies
      && s.cls.position == cfg.policies[s.cls.cls].position
      && s.potentialPoints == cfg.policies[s.cls.cls].points
      && (s.cls.level.Low? ==> s.status == SessionStatus.Rejected)
  }

  /** The waste event a confirmed session must have. */
  ghost predicate ProvesDeposit(cfg: Config, s: Session, e: WasteEvent) {
    && s.cls.Classified? && !s.cls.level.Low?
    && e.user == s.user && e.station == s.station && e.prediction == s.cls.prediction && e.cls == s.cls.cls
    && e.points == s.potentialPoints
    && e.actualPosition == s.cls.position && e.weight >= cfg.minWeight && e.mechanical
    && s.reading == Measured(e.actualPosition, e.weight, true, true)
  }

  /** A session is confirmed exactly when its accepted event exists, a refused event
      belongs to a rejected or expired one, and a live one has no event or reading. */
  ghost predicate SessionOk(cfg: Config, s: Session, e: Option<WasteEvent>) {
    && FollowsPolicy(cfg, s)
    && s.potentialPoints >= 0
    && (s.status == Confirmed <==> e.Some? && e.value.status == Accepted)
    && (s.status == Confirmed ==> ProvesDeposit(cfg, s, e.value))
    && (e.Some? && e.value.status == Refused ==>
          && s.status in {SessionStatus.Rejected, Expired}
          && e.value.points == 0 && e.value.user == s.user)
    && (!Terminal(s.status) ==> e.None? && s.reading == NotMeasured)
  }

  ghost predicate Inv(cfg: Config, db: Db) {
    && (forall op :: op in db.sessions ==> SessionOk(cfg, db.sessions[op], EventOf(db, op)))
    && (forall op :: op in db.events ==> op in db.sessions)
    && (forall op :: op in db.sessions ==> op.number <= D.CounterOf(db, op.day))
  }

  /** The counter only ever hands out operation ids nobody has. */
  lemma MintedIsFresh(cfg: Config, db: Db, day: nat)
    requires Inv(cfg, db)
    ensures D.Minted(db, day) !in db.sessions && D.Minted(db, day) !in db.events
  {
  }

  /** A call that added one session. */
  ghost predicate Opens(db: Db, after: Db, op: OperationId) {
    && op !in db.sessions && op in after.sessions
    && after.sessions == db.sessions[op := after.sessions[op]] && after.events == db.events
  }

  lemma CreateKeepsInv(cfg: Config, db: Db, u: UserId, station: StationId, prediction: Option<PredictionId>, day: nat,
                       now: Instant)
    requires Inv(cfg, db)
    ensures var after := D.CreateSession(cfg, db, u, station, prediction, day, now);
            Inv(cfg, after) && (after == db || Opens(db, after, D.Minted(db, day)))
  {
    if D.CreateRefusal(cfg, db, u, station, prediction, day, now).None? {
      MintedIsFresh(cfg, db, day);
      var after := D.CreateSession(cfg, db, u, station, prediction, day, now);
      assert SessionOk(cfg, D.OpenedSession(cfg, db, u, station, prediction, now), None);
      forall op | op in after.sessions
        ensures SessionOk(cfg, after.sessions[op], EventOf(after, op)) && op.number <= D.CounterOf(after, op.day)
      {
        if op != D.Minted(db, day) { assert op in db.sessions; }
      }
    }
  }

  /** A step that writes the rows of one operation only. */
  ghost predicate Touches(db: Db, after: Db, op: OperationId) {
    && op in db.sessions && op in after.sessions
    && after.counters == db.counters
    && after.sessions == db.sessions[op := after.sessions[op]]
    && (forall o :: o != op ==> EventOf(after, o) == EventOf(db, o))
  }

  lemma TouchKeepsInv(cfg: Config, db: Db, after: Db, op: OperationId)
    requires Inv(cfg, db) && Touches(db, after, op)
    requires SessionOk(cfg, after.sessions[op], EventOf(after, op))
    ensures Inv(cfg, after)
  {
    forall o | o in after.sessions
      ensures SessionOk(cfg, after.sessions[o], EventOf(after, o)) && o.number <= D.CounterOf(after, o.day)
    {
      if o != op { assert o in db.sessions && EventOf(after, o) == EventOf(db, o); }
    }
    forall o | o in after.events ensures o in after.sessions {
      if o != op { assert EventOf(after, o) == EventOf(db, o); }
    }
  }

  lemma CloseKeepsInv(cfg: Config, db: Db, op: OperationId, reason: Reason, status: SessionStatus)
    requires Inv(cfg, db) && op in db.sessions && db.sessions[op].cls.Classified? && !Terminal(db.sessions[op].status)
    requires status in {SessionStatus.Rejected, Expired}
    ensures Touches(db, D.Closed(db, op, reason, status), op) && Inv(cfg, D.Closed(db, op, reason, status))
  {
    TouchKeepsInv(cfg, db, D.Closed(db, op, reason, status), op);
  }

  lemma ConfirmKeepsInv(cfg: Config, db: Db, op: OperationId, e: D.ResultEvent)
    requires Inv(cfg, db) && op in db.sessions && db.sessions[op].user in db.users && !Terminal(db.sessions[op].status)
    requires D.PhysicalFailure(cfg, db.sessions[op], e) == NoReason
    ensures db.sessions[op].cls.Classified?
    ensures Touches(db, D.Confirm(cfg, db, op, e), op) && Inv(cfg, D.Confirm(cfg, db, op, e))
  {
    var s := db.sessions[op];
    var after := D.Confirm(cfg, db, op, e);
    assert after.sessions[op] == D.ConfirmedSession(s, e) && EventOf(after, op) == Some(D.ConfirmedEvent(s, e));
    assert SessionOk(cfg, s, EventOf(db, op));
    assert ProvesDeposit(cfg, after.sessions[op], D.ConfirmedEvent(s, e));
    TouchKeepsInv(cfg, db, after, op);
  }

  /** A call that wrote the rows of one live session, or nothing. */
  ghost predicate MovesLive(db: Db, after: Db) {
    || after == db
    || exists op :: op in db.sessions && !Terminal(db.sessions[op].status) && Touches(db, after, op)
  }

  lemma UploadKeepsInv(cfg: Config, db: Db, op: OperationId, ref: StationRef, frame: D.Frame, now: Instant)
    requires Inv(cfg, db)
    ensures var after := D.HandleCapture(cfg, db, op, ref, frame, now);
            Inv(cfg, after) && MovesLive(db, after)
  {
    if D.CaptureRefusal(cfg, db, op, ref).None? {
      assert SessionOk(cfg, db.sessions[op], EventOf(db, op));
      TouchKeepsInv(cfg, db, D.HandleCapture(cfg, db, op, ref, frame, now), op);
    }
  }

  lemma CancelKeepsInv(cfg: Config, db: Db, u: UserId, op: OperationId)
    requires Inv(cfg, db)
    ensures var after := D.CancelDeposit(db, u, op);
            Inv(cfg, after) && MovesLive(db, after)
  {
    if D.CancelRefusal(db, u, op).None? {
      assert SessionOk(cfg, db.sessions[op], EventOf(db, op));
      TouchKeepsInv(cfg, db, D.CancelDeposit(db, u, op), op);
    }
  }

  lemma MachineKeepsInv(cfg: Config, db: Db, op: OperationId, m: D.MachineState)
    requires Inv(cfg, db)
    ensures var after := D.ApplyMachineState(db, op, m);
            Inv(cfg, after) && MovesLive(db, after)
  {
    if D.Advances(db, op, m) {
      assert SessionOk(cfg, db.sessions[op], EventOf(db, op));
      TouchKeepsInv(cfg, db, D.ApplyMachineState(db, op, m), op);
    }
  }

  lemma CompleteKeepsInv(cfg: Config, db: Db, e: D.ResultEvent, now: Instant)
    requires Inv(cfg, db)
    ensures var after := D.CompleteFromEvent(cfg, db, e, now);
            Inv(cfg, after) && MovesLive(db, after)
  {
    var verdict := D.Judge(cfg, db, e, now);
    if verdict.Close? {
      CloseKeepsInv(cfg, db, e.operation.value, verdict.reason, verdict.status);
    } else if verdict.Award? {
      ConfirmKeepsInv(cfg, db, e.operation.value, e);
    }
  }

  /** What a call can do to the deposits. */
  ghost predicate Shape(db: Db, after: Db) {
    MovesLive(db, after) || SameDeposits(db, after) || exists op :: Opens(db, after, op)
  }

  lemma StepKeepsInv(cfg: Config, db: Db, call: Call)
    requires Inv(cfg, db)
    ensures Inv(cfg, Apply(cfg, db, call)) && Shape(db, Apply(cfg, db, call))
  {
    match call
    case Create(u, station, prediction, day, now) => CreateKeepsInv(cfg, db, u, station, prediction, day, now);
    case Upload(op, ref, frame, now) => UploadKeepsInv(cfg, db, op, ref, frame, now);
    case CancelDeposit(u, op) => CancelKeepsInv(cfg, db, u, op);
    case Machine(op, m) => MachineKeepsInv(cfg, db, op, m);
    case Complete(e, now) => CompleteKeepsInv(cfg, db, e, now);
    case Market(m) => assert SameDeposits(db, ApplyMarket(db, m));
  }

  /** Deposit safety over every run of calls. */
  lemma {:induction false} RunKeepsInv(cfg: Config, db: Db, calls: seq<Call>)
    requires Inv(cfg, db)
    ensures Inv(cfg, Run(cfg, db, calls))
  {
    if calls != [] {
      RunKeepsInv(cfg, db, calls[..|calls| - 1]);
      StepKeepsInv(cfg, Run(cfg, db, calls[..|calls| - 1]), calls[|calls| - 1]);
    }
  }

  // ---- terminal sessions ---------------------------------------------------

  ghost predicate Frozen(db: Db, after: Db, op: OperationId)
    requires op in db.sessions
  {
    op in after.sessions && after.sessions[op] == db.sessions[op] && EventOf(after, op) == EventOf(db, op)
  }

  lemma ShapeFreezes(db: Db, after: Db, op: OperationId)
    requires Shape(db, after) && op in db.sessions && Terminal(db.sessions[op].status)
    ensures Frozen(db, after, op)
  {
  }

  /** Terminal states are absorbing: no run changes a closed session or its event. */
  lemma {:induction false} TerminalIsAbsorbing(cfg: Config, db: Db, calls: seq<Call>, op: OperationId)
    requires Inv(cfg, db) && op in db.sessions && Terminal(db.sessions[op].status)
    ensures Frozen(db, Run(cfg, db, calls), op)
  {
    if calls != [] {
      var before := calls[..|calls| - 1];
      TerminalIsAbsorbing(cfg, db, before, op);
      RunKeepsInv(cfg, db, before);
      StepKeepsInv(cfg, Run(cfg, db, before), calls[|calls| - 1]);
      ShapeFreezes(Run(cfg, db, before), Run(cfg, db, calls), op);
    }
  }

  // ---- points move exactly on confirmation ---------------------------------

  ghost predicate IsConfirmed(db: Db, op: OperationId) {
    op in db.sessions && db.sessions[op].status == Confirmed
  }

  ghost predicate Confirms(cfg: Config, db: Db, call: Call, op: OperationId) {
    !IsConfirmed(db, op) && IsConfirmed(Apply(cfg, db, call), op)
  }

  /** A call that confirms a session credits its user with the policy points and the
      challenge bonus; every other deposit call leaves every balance alone. */
  lemma PointsMoveOnConfirmation(cfg: Config, db: Db, e: D.ResultEvent, now: Instant, op: OperationId)
    requires Inv(cfg, db)
    ensures var after := D.CompleteFromEvent(cfg, db, e, now);
            && (!IsConfirmed(db, op) && IsConfirmed(after, op) ==>
                  && op in db.sessions && db.sessions[op].cls.Classified? && db.sessions[op].user in db.users
                  && after.users == D.Credited(db.users, db.sessions[op].user,
                       cfg.policies[db.sessions[op].cls.cls].points + D.BonusOf(cfg, db, op, e)))
            && ((forall o :: IsConfirmed(after, o) ==> IsConfirmed(db, o)) ==> after.users == db.users)
  {
    var verdict := D.Judge(cfg, db, e, now);
    if verdict.Award? {
      AwardMovesPoints(cfg, db, e.operation.value, e, op);
    } else if verdict.Close? {
      ClosureConfirmsNone(cfg, db, e.operation.value, verdict.reason, verdict.status, op);
    }
  }

  lemma AwardMovesPoints(cfg: Config, db: Db, op: OperationId, e: D.ResultEvent, o: OperationId)
    requires Inv(cfg, db) && op in db.sessions && !Terminal(db.sessions[op].status)
    requires db.sessions[op].user in db.users && D.PhysicalFailure(cfg, db.sessions[op], e) == NoReason
    ensures db.sessions[op].cls.Classified?
    ensures var after := D.Confirm(cfg, db, op, e);
            && (!IsConfirmed(db, o) && IsConfirmed(after, o) ==>
                  && o == op
                  && after.users == D.Credited(db.users, db.sessions[o].user,
                       cfg.policies[db.sessions[o].cls.cls].points + D.BonusOf(cfg, db, o, e)))
            && !forall p :: IsConfirmed(after, p) ==> IsConfirmed(db, p)
  {
    AwardConfirms(cfg, db, op, e);
    assert IsConfirmed(D.Confirm(cfg, db, op, e), op);
  }

  lemma AwardConfirms(cfg: Config, db: Db, op: OperationId, e: D.ResultEvent)
    requires Inv(cfg, db) && op in db.sessions && !Terminal(db.sessions[op].status)
    requires db.sessions[op].cls.Classified? && db.sessions[op].user in db.users
    ensures var after := D.Confirm(cfg, db, op, e);
            && IsConfirmed(after, op) && !IsConfirmed(db, op)
            && (forall o :: o != op ==> IsConfirmed(after, o) == IsConfirmed(db, o))
            && db.sessions[op].cls.cls in cfg.policies
            && after.users == D.Credited(db.users, db.sessions[op].user,
                 cfg.policies[db.sessions[op].cls.cls].points + D.BonusOf(cfg, db, op, e))
  {
    assert SessionOk(cfg, db.sessions[op], EventOf(db, op));
  }

  lemma ClosureConfirmsNone(cfg: Config, db: Db, op: OperationId, reason: Reason, status: SessionStatus, o: OperationId)
    requires op in db.sessions && db.sessions[op].cls.Classified? && status in {SessionStatus.Rejected, Expired}
    ensures var after := D.Closed(db, op, reason, status);
            after.users == db.users && (IsConfirmed(after, o) ==> IsConfirmed(db, o))
  {
  }

  /** Only a deposit_result confirms. */
  lemma StepNeverConfirms(cfg: Config, db: Db, call: Call, op: OperationId)
    requires Inv(cfg, db) && !call.Complete?
    ensures !Confirms(cfg, db, call, op)
  {
    StepKeepsInv(cfg, db, call);
    var after := Apply(cfg, db, call);
    assert after.events == db.events;
    if op in after.sessions && after.sessions[op].status == Confirmed {
      assert SessionOk(cfg, after.sessions[op], EventOf(after, op));
      assert SessionOk(cfg, db.sessions[op], EventOf(db, op));
    }
  }

  /** How many calls of a run confirm op. */
  ghost function Confirmations(cfg: Config, db: Db, calls: seq<Call>, op: OperationId): nat {
    if calls == [] then 0
    else
      var before := calls[..|calls| - 1];
      Confirmations(cfg, db, before, op)
        + if Confirms(cfg, Run(cfg, db, before), calls[|calls| - 1], op) then 1 else 0
  }

  /** One award per operation: a run confirms op at most once, and once exactly when
      op was not confirmed before the run and is after it. */
  lemma {:induction false} ConfirmedAtMostOnce(cfg: Config, db: Db, calls: seq<Call>, op: OperationId)
    requires Inv(cfg, db)
    ensures Confirmations(cfg, db, calls, op)
         == if !IsConfirmed(db, op) && IsConfirmed(Run(cfg, db, calls), op) then 1 else 0
  {
    if calls != [] {
      var before := calls[..|calls| - 1];
      ConfirmedAtMostOnce(cfg, db, before, op);
      RunKeepsInv(cfg, db, before);
      StepKeepsInv(cfg, Run(cfg, db, before), calls[|calls| - 1]);
      if IsConfirmed(Run(cfg, db, before), op) {
        ShapeFreezes(Run(cfg, db, before), Run(cfg, db, calls), op);
      }
      if IsConfirmed(db, op) {
        TerminalIsAbsorbing(cfg, db, before, op);
      }
    }
  }
}
