/** What each deposit call answers and leaves, read off the fields of the rows and the
    message alone. */
module DepositRules {
  import opened Sums
  import opened Schema
  import D = DepositService

  // ---- opening a session ---------------------------------------------------

  /** A session is opened exactly when the station and the user exist and a prediction,
      if one is named, exists, is the user's own, has not expired, is not of low
      confidence and names a class with a policy; the first failing check decides the
      refusal. An operation id that is taken aborts. */
  lemma CreateRule(cfg: Config, db: Db, u: UserId, station: StationId, prediction: Option<PredictionId>, day: nat,
                   now: Instant)
    ensures var number := (if day in db.counters then db.counters[day] else 0) + 1;
            var taken := if OperationId(day, number) in db.sessions then Some(D.Aborted) else None;
            var refusal := D.CreateRefusal(cfg, db, u, station, prediction, day, now);
            if station !in cfg.stations then refusal == Some(D.NoSuchStation)
            else if u !in db.users then refusal == Some(D.NoSuchUser)
            else if prediction == None then refusal == taken
            else if prediction.value !in db.predictions then refusal == Some(D.NoSuchPrediction)
            else
              var p := db.predictions[prediction.value];
              && (p.user != u ==> refusal == Some(D.NotYourPrediction))
              && (p.user == u && p.expiresAt < now ==> refusal == Some(D.PredictionExpired))
              && (p.user == u && p.expiresAt >= now && p.level == Low ==> refusal == Some(D.ConfidenceTooLow))
              && (p.user == u && p.expiresAt >= now && p.level != Low && p.cls !in cfg.policies ==>
                    refusal == Some(D.NoPolicy))
              && (p.user == u && p.expiresAt >= now && p.level != Low && p.cls in cfg.policies ==> refusal == taken)
    ensures D.CreateRefusal(cfg, db, u, station, prediction, day, now).Some? ==>
              D.CreateSession(cfg, db, u, station, prediction, day, now) == db
  {
  }

  /** The one new session and the counter it is numbered from. */
  lemma CreateLeaves(cfg: Config, db: Db, u: UserId, station: StationId, prediction: Option<PredictionId>, day: nat,
                     now: Instant)
    requires D.CreateRefusal(cfg, db, u, station, prediction, day, now).None?
    ensures var after := D.CreateSession(cfg, db, u, station, prediction, day, now);
            var number := (if day in db.counters then db.counters[day] else 0) + 1;
            var op := OperationId(day, number);
            && op in after.sessions && op !in db.sessions
            && after == db.(counters := db.counters[day := number], sessions := db.sessions[op := after.sessions[op]])
            && var s := after.sessions[op];
               && s.user == u && s.station == station && s.expiresAt == now + cfg.ttl
               && s.reading == NotMeasured && s.reason == NoReason
               && (prediction.None? ==> s.status == Capture && s.cls == Unclassified && s.potentialPoints == 0)
               && (prediction.Some? ==>
                     && prediction.value in db.predictions
                     && var p := db.predictions[prediction.value];
                        && p.cls in cfg.policies && s.status == SessionStatus.Pending
                        && s.cls == Classified(prediction.value, p.cls, cfg.policies[p.cls].position, p.level)
                        && s.potentialPoints == cfg.policies[p.cls].points)
  {
  }

  // ---- camera uploads ------------------------------------------------------

  predicate Live(s: SessionStatus) {
    s != Confirmed && s != SessionStatus.Rejected && s != SessionStatus.Cancelled && s != Expired
  }

  /** Uploads that are turned away, and what the others leave: back to capture when the
      gate or the wire refused the frame, analyzing when something else went wrong, and
      a classification otherwise, which a low confidence closes. */
  lemma UploadRule(cfg: Config, db: Db, op: OperationId, station: StationRef, frame: D.Frame, now: Instant)
    ensures var failure := D.CaptureError(cfg, db, op, station, frame);
            var after := D.HandleCapture(cfg, db, op, station, frame, now);
            if op !in db.sessions then failure == Some(D.NoSuchDeposit) && after == db
            else
              var s := db.sessions[op];
              if station !in cfg.stationRefs || cfg.stationRefs[station] != s.station then
                failure == Some(D.WrongStation) && after == db
              else if !Live(s.status) then failure == Some(D.AlreadyTerminal) && after == db
              else if s.user !in db.users then failure == Some(D.NoSuchUser) && Marked(db, after, op, Analyzing)
              else match frame
                case GateRejected => failure == Some(D.FrameRejected) && Marked(db, after, op, Capture)
                case WireError => failure == Some(D.ServiceUnavailable) && Marked(db, after, op, Capture)
                case Broken => failure == Some(D.PredictorFailed) && Marked(db, after, op, Analyzing)
                case Seen(id, cls, level) =>
                  if cls !in cfg.policies then failure == Some(D.NoPolicy) && Marked(db, after, op, Analyzing)
                  else if id in db.predictions then failure == Some(D.Aborted) && Marked(db, after, op, Analyzing)
                  else failure == None && SeenBy(cfg, db, after, op, id, cls, level, now)
  {
  }

  /** Only the status of the session changes. */
  ghost predicate Marked(db: Db, after: Db, op: OperationId, status: SessionStatus)
    requires op in db.sessions
  {
    var s := db.sessions[op];
    after == db.(sessions := db.sessions[op := Session(s.user, s.station, s.cls, s.potentialPoints, status, s.reading,
                                                       s.reason, s.expiresAt)])
  }

  ghost predicate SeenBy(cfg: Config, db: Db, after: Db, op: OperationId, id: PredictionId, cls: WasteClass,
                         level: Confidence, now: Instant)
    requires op in db.sessions && cls in cfg.policies
  {
    var s, policy := db.sessions[op], cfg.policies[cls];
    after == db.(
      sessions := db.sessions[op := Session(s.user, s.station, Classified(id, cls, policy.position, level), policy.points,
                                            if level == Low then SessionStatus.Rejected else SessionStatus.Pending,
                                            s.reading, if level == Low then LowConfidence else s.reason, s.expiresAt)],
      predictions := db.predictions[id := Prediction(s.user, cls, level, now + cfg.ttl)])
  }

  // ---- cancellation and state frames ---------------------------------------

  /** The owner of a live session can cancel it, and nobody else. */
  lemma CancelRule(db: Db, u: UserId, op: OperationId)
    ensures var refusal, after := D.CancelRefusal(db, u, op), D.CancelDeposit(db, u, op);
            if op !in db.sessions || db.sessions[op].user != u then refusal == Some(D.NoSuchDeposit) && after == db
            else if !Live(db.sessions[op].status) then refusal == Some(D.AlreadyTerminal) && after == db
            else refusal == None && Marked(db, after, op, SessionStatus.Cancelled)
  {
  }

  /** The live phases in order. */
  const PHASES: seq<SessionStatus> :=
    [Capture, Analyzing, SessionStatus.Pending, Routing, Moving, SessionStatus.Ready, Detecting, Measuring]

  /** Which phase a machine state announces, as an index of PHASES. */
  const ANNOUNCED: map<D.MachineState, int> :=
    map[D.ROUTING := 3, D.MOVING := 4, D.POSITIONED := 5, D.READY_FOR_DEPOSIT := 5, D.DETECTING := 6, D.MEASURING := 7]

  /** A state frame moves a live session to the phase it announces if that is later, and
      nothing else. */
  lemma FrameRule(db: Db, op: OperationId, m: D.MachineState, i: nat)
    requires i < 8 && op in db.sessions && db.sessions[op].status == PHASES[i]
    ensures var after := D.ApplyMachineState(db, op, m);
            if m in ANNOUNCED && ANNOUNCED[m] > i then Marked(db, after, op, PHASES[ANNOUNCED[m]]) else after == db
  {
  }

  lemma FrameElsewhere(db: Db, op: OperationId, m: D.MachineState)
    requires op in db.sessions ==> !Live(db.sessions[op].status)
    ensures D.ApplyMachineState(db, op, m) == db
  {
  }

  // ---- deposit_result: the gates -------------------------------------------

  predicate FromStation(cfg: Config, s: Session, e: D.ResultEvent) {
    e.station.Some? ==> e.station.value in cfg.stationRefs && cfg.stationRefs[e.station.value] == s.station
  }

  predicate ClaimsSuccess(e: D.ResultEvent) {
    e.status == None || e.status == Some(ClaimConfirmed)
  }

  /** A missing number counts as zero. */
  function Number(n: Option<int>): int {
    if n == None then 0 else n.value
  }

  /** Everything a message must say about a classified session to confirm it. */
  predicate Sound(cfg: Config, s: Session, e: D.ResultEvent)
    requires s.cls.Classified?
  {
    && ClaimsSuccess(e)
    && Number(e.actualPosition) == s.cls.position
    && Number(e.weight) >= cfg.minWeight
    && e.weightStable == Some(true) && e.beamSeen == Some(true) && e.mechanical == Some(true)
    && Number(e.mechanismPosition) == s.cls.position
  }

  /** A message confirms a live session if and only if its station is absent or the
      session's, the session has not expired and is classified, the message claims
      success at the expected position with enough weight, stable, with a broken beam, a
      mechanical confirmation and the mechanism in place, the user exists and the
      operation has no event. */
  lemma ConfirmsExactlyWhen(cfg: Config, db: Db, e: D.ResultEvent, op: OperationId, now: Instant)
    requires e.operation == Some(op) && op in db.sessions && Live(db.sessions[op].status)
    ensures var s, after := db.sessions[op], D.CompleteFromEvent(cfg, db, e, now);
            && op in after.sessions
            && (after.sessions[op].status == Confirmed <==>
                  && FromStation(cfg, s, e) && now <= s.expiresAt
                  && s.cls.Classified? && Sound(cfg, s, e)
                  && s.user in db.users && op !in db.events)
  {
  }

  /** The status and reason of the first gate a message about a classified session fails,
      in the order of the checks. */
  function FirstFailing(cfg: Config, s: Session, e: D.ResultEvent, now: Instant): Option<(SessionStatus, Reason)>
    requires s.cls.Classified?
  {
    var at := Number(e.actualPosition);
    if !FromStation(cfg, s, e) then Some((SessionStatus.Rejected, StationMismatch))
    else if now > s.expiresAt then Some((Expired, SessionExpired))
    else if !ClaimsSuccess(e) then Some((SessionStatus.Rejected, MachineReported(e.status.value)))
    else if at != s.cls.position then Some((SessionStatus.Rejected, WrongPosition(at)))
    else if Number(e.weight) < cfg.minWeight then Some((SessionStatus.Rejected, Underweight(Number(e.weight))))
    else if e.weightStable != Some(true) then Some((SessionStatus.Rejected, WeightNotStable))
    else if e.beamSeen != Some(true) then Some((SessionStatus.Rejected, NoBeamBreak))
    else if e.mechanical != Some(true) then Some((SessionStatus.Rejected, NoMechanicalConfirmation))
    else if Number(e.mechanismPosition) != at then
      Some((SessionStatus.Rejected, MechanismElsewhere(Number(e.mechanismPosition))))
    else None
  }

  lemma Verdict(cfg: Config, db: Db, e: D.ResultEvent, op: OperationId, now: Instant)
    requires e.operation == Some(op) && op in db.sessions && Live(db.sessions[op].status)
    requires db.sessions[op].cls.Classified? && op !in db.events
    ensures var s := db.sessions[op];
            var failing := FirstFailing(cfg, s, e, now);
            D.Judge(cfg, db, e, now) ==
            if failing.Some? then D.Close(failing.value.1, failing.value.0)
            else if s.user in db.users then D.Award else D.Refuse(D.Aborted)
    ensures FirstFailing(cfg, db.sessions[op], e, now).None? ==> Sound(cfg, db.sessions[op], e)
  {
  }

  lemma ClosureLeaves(db: Db, op: OperationId, status: SessionStatus, reason: Reason)
    requires op in db.sessions && db.sessions[op].cls.Classified?
    ensures ClosedAs(db, D.Closed(db, op, reason, status), op, status, reason)
  {
  }

  lemma ConfirmationLeaves(cfg: Config, db: Db, op: OperationId, e: D.ResultEvent)
    requires op in db.sessions && db.sessions[op].cls.Classified? && db.sessions[op].user in db.users
    requires Sound(cfg, db.sessions[op], e)
    ensures ConfirmedBy(db, D.Confirm(cfg, db, op, e), op, e)
  {
  }

  /** The first failing gate of a classified session decides the status and the reason it
      is closed with; a message that fails none confirms it when its user exists. */
  lemma FirstFailingGate(cfg: Config, db: Db, e: D.ResultEvent, op: OperationId, now: Instant)
    requires e.operation == Some(op) && op in db.sessions && Live(db.sessions[op].status)
    requires db.sessions[op].cls.Classified? && op !in db.events
    ensures var s, after := db.sessions[op], D.CompleteFromEvent(cfg, db, e, now);
            var failing := FirstFailing(cfg, s, e, now);
            if failing.Some? then ClosedAs(db, after, op, failing.value.0, failing.value.1)
            else if s.user !in db.users then after == db
            else ConfirmedBy(db, after, op, e)
  {
    Verdict(cfg, db, e, op, now);
    var failing := FirstFailing(cfg, db.sessions[op], e, now);
    if failing.Some? {
      ClosureLeaves(db, op, failing.value.0, failing.value.1);
    } else if db.sessions[op].user in db.users {
      ConfirmationLeaves(cfg, db, op, e);
    }
  }

  /** The session is closed and its event says that nothing was confirmed; the account
      of nobody changes. */
  ghost predicate ClosedAs(db: Db, after: Db, op: OperationId, status: SessionStatus, reason: Reason)
    requires op in db.sessions && db.sessions[op].cls.Classified?
  {
    var s := db.sessions[op];
    && op in after.events
    && after == db.(
         sessions := db.sessions[op := Session(s.user, s.station, s.cls, s.potentialPoints, status, s.reading, reason,
                                               s.expiresAt)],
         events := db.events[op := after.events[op]])
    && var event := after.events[op];
       && event.status == Refused && event.points == 0 && !event.mechanical
       && event.user == s.user && event.station == s.station
       && event.prediction == s.cls.prediction && event.cls == s.cls.cls
       && (s.reading == NotMeasured ==> event.actualPosition == 0 && event.weight == 0)
  }

  /** The session is confirmed with the readings of the message, and its event carries
      the session's points. */
  ghost predicate ConfirmedBy(db: Db, after: Db, op: OperationId, e: D.ResultEvent)
    requires op in db.sessions && db.sessions[op].cls.Classified?
  {
    var s, weight := db.sessions[op], Number(e.weight);
    && after.sessions == db.sessions[op := Session(s.user, s.station, s.cls, s.potentialPoints, Confirmed,
                                                   Measured(s.cls.position, weight, true, true), s.reason, s.expiresAt)]
    && after.events == db.events[op := WasteEvent(s.user, s.station, s.cls.prediction, s.cls.cls, s.cls.position, weight,
                                                  true, s.potentialPoints, Accepted)]
  }

  /** A message that names no live, classified session changes nothing. */
  lemma ResultIgnored(cfg: Config, db: Db, e: D.ResultEvent, now: Instant)
    requires e.operation.Some? && e.operation.value in db.sessions ==>
               !Live(db.sessions[e.operation.value].status) || db.sessions[e.operation.value].cls.Unclassified?
    ensures D.CompleteFromEvent(cfg, db, e, now) == db
  {
  }

  /** Which error it raises; a message from another station about a closed session is
      passed over in silence. */
  lemma ResultErrors(cfg: Config, db: Db, e: D.ResultEvent, now: Instant)
    ensures var verdict := D.Judge(cfg, db, e, now);
            if e.operation.None? then verdict == D.Refuse(D.MissingOperation)
            else if e.operation.value !in db.sessions then verdict == D.Refuse(D.UnknownOperation)
            else
              var s := db.sessions[e.operation.value];
              && (!Live(s.status) && FromStation(cfg, s, e) ==> verdict == D.Refuse(D.AlreadyTerminal))
              && (!Live(s.status) && !FromStation(cfg, s, e) ==> verdict == D.Ignore)
              && (Live(s.status) && s.cls.Unclassified? ==> verdict == D.Refuse(D.Aborted))
  {
  }
}
