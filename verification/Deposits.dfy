/** The deposit lifecycle, one service call at a time. */
module DepositService {
  import opened Sums
  import opened Schema

  /** The states a machine publishes. */
  datatype MachineState =
    | IDLE | ROUTING | MOVING | POSITIONED | READY_FOR_DEPOSIT | DETECTING | MEASURING
    | DEPOSIT_CONFIRMED | RESETTING | JAMMED | WRONG_POSITION | UNDERWEIGHT | SENSOR_ERROR | TIMEOUT

  /** A deposit_result message; a field the payload leaves out is None. */
  datatype ResultEvent = ResultEvent(
    operation: Option<OperationId>,
    station: Option<StationRef>,
    status: Option<Claim>,
    actualPosition: Option<int>,
    weight: Option<Weight>,
    weightStable: Option<bool>,
    beamSeen: Option<bool>,
    mechanical: Option<bool>,
    mechanismPosition: Option<int>)

  /** What came back for a camera frame; Broken is any failure the service does
      not handle, such as a class it does not know. */
  datatype Frame =
    | GateRejected
    | WireError
    | Broken
    | Seen(id: PredictionId, cls: WasteClass, level: Confidence)

  datatype Error =
    | NoSuchStation | NoSuchPrediction | NotYourPrediction | PredictionExpired | ConfidenceTooLow
    | NoPolicy | NoSuchUser | NoSuchDeposit | WrongStation | AlreadyTerminal
    | MissingOperation | UnknownOperation | Aborted
    | FrameRejected | ServiceUnavailable | PredictorFailed

  // ---- session creation ----------------------------------------------------

  function CounterOf(db: Db, day: nat): nat {
    if day in db.counters then db.counters[day] else 0
  }

  /** The next operation id of a day. */
  function Minted(db: Db, day: nat): OperationId {
    OperationId(day, CounterOf(db, day) + 1)
  }

  /** Why a session cannot be opened, first failing check first. Without a
      prediction the session waits for the station camera. */
  function CreateRefusal(cfg: Config, db: Db, u: UserId, station: StationId, prediction: Option<PredictionId>,
                         day: nat, now: Instant): Option<Error> {
    if station !in cfg.stations then Some(NoSuchStation)
    else if u !in db.users then Some(NoSuchUser)
    else if prediction.Some? && prediction.value !in db.predictions then Some(NoSuchPrediction)
    else if prediction.Some? && db.predictions[prediction.value].user != u then Some(NotYourPrediction)
    else if prediction.Some? && db.predictions[prediction.value].expiresAt < now then Some(PredictionExpired)
    else if prediction.Some? && db.predictions[prediction.value].level.Low? then Some(ConfidenceTooLow)
    else if prediction.Some? && db.predictions[prediction.value].cls !in cfg.policies then Some(NoPolicy)
    else if Minted(db, day) in db.sessions then Some(Aborted)
    else None
  }

  function OpenedSession(cfg: Config, db: Db, u: UserId, station: StationId, prediction: Option<PredictionId>,
                         now: Instant): Session
    requires prediction.Some? ==> prediction.value in db.predictions && db.predictions[prediction.value].cls in cfg.policies
  {
    if prediction.None? then
      Session(u, station, Unclassified, 0, Capture, NotMeasured, NoReason, now + cfg.ttl)
    else
      var p := db.predictions[prediction.value];
      var policy := cfg.policies[p.cls];
      Session(u, station, Classified(prediction.value, p.cls, policy.position, p.level), policy.points,
              SessionStatus.Pending, NotMeasured, NoReason, now + cfg.ttl)
  }

  function CreateSession(cfg: Config, db: Db, u: UserId, station: StationId, prediction: Option<PredictionId>,
                         day: nat, now: Instant): (after: Db)
    ensures SameAccounts(db, after)
  {
    if CreateRefusal(cfg, db, u, station, prediction, day, now).Some? then db
    else
      var op := Minted(db, day);
      db.(counters := db.counters[day := op.number],
          sessions := db.sessions[op := OpenedSession(cfg, db, u, station, prediction, now)])
  }

  // ---- station camera ------------------------------------------------------

  function CaptureRefusal(cfg: Config, db: Db, op: OperationId, station: StationRef): Option<Error> {
    if op !in db.sessions then Some(NoSuchDeposit)
    else if station !in cfg.stationRefs || cfg.stationRefs[station] != db.sessions[op].station then Some(WrongStation)
    else if Terminal(db.sessions[op].status) then Some(AlreadyTerminal)
    else None
  }

  /** A frame that is classified and stored. */
  predicate Usable(cfg: Config, db: Db, u: UserId, frame: Frame) {
    u in db.users && frame.Seen? && frame.cls in cfg.policies && frame.id !in db.predictions
  }

  /** The session after one upload, classification included. A frame the gate or
      the wire turned down may be retaken; any other failure leaves the session
      analyzing; a low confidence closes it. */
  function UploadedSession(cfg: Config, db: Db, s: Session, frame: Frame): Session {
    if Usable(cfg, db, s.user, frame) then
      var policy := cfg.policies[frame.cls];
      s.(cls := Classified(frame.id, frame.cls, policy.position, frame.level),
         potentialPoints := policy.points,
         status := if frame.level.Low? then SessionStatus.Rejected else SessionStatus.Pending,
         reason := if frame.level.Low? then LowConfidence else s.reason)
    else if s.user in db.users && (frame.GateRejected? || frame.WireError?) then s.(status := Capture)
    else s.(status := Analyzing)
  }

  /** What the caller is told: nothing went wrong exactly for a usable frame of a
      session that takes one. */
  function CaptureError(cfg: Config, db: Db, op: OperationId, station: StationRef, frame: Frame): (failure: Option<Error>)
    ensures failure.None? <==>
            CaptureRefusal(cfg, db, op, station).None? && Usable(cfg, db, db.sessions[op].user, frame)
  {
    var refusal := CaptureRefusal(cfg, db, op, station);
    if refusal.Some? then refusal
    else if db.sessions[op].user !in db.users then Some(NoSuchUser)
    else match frame
      case GateRejected => Some(FrameRejected)
      case WireError => Some(ServiceUnavailable)
      case Broken => Some(PredictorFailed)
      case Seen(id, cls, _) =>
        if cls !in cfg.policies then Some(NoPolicy)
        else if id in db.predictions then Some(Aborted)
        else None
  }

  function HandleCapture(cfg: Config, db: Db, op: OperationId, station: StationRef, frame: Frame,
                         now: Instant): (after: Db)
    ensures SameAccounts(db, after)
  {
    if CaptureRefusal(cfg, db, op, station).Some? then db
    else
      var s := db.sessions[op];
      db.(sessions := db.sessions[op := UploadedSession(cfg, db, s, frame)],
          predictions := if Usable(cfg, db, s.user, frame)
                         then db.predictions[frame.id := Prediction(s.user, frame.cls, frame.level, now + cfg.ttl)]
                         else db.predictions)
  }

  // ---- cancellation and live phase -----------------------------------------

  function CancelRefusal(db: Db, u: UserId, op: OperationId): Option<Error> {
    if op !in db.sessions || db.sessions[op].user != u then Some(NoSuchDeposit)
    else if Terminal(db.sessions[op].status) then Some(AlreadyTerminal)
    else None
  }

  function CancelDeposit(db: Db, u: UserId, op: OperationId): (after: Db)
    ensures SameAccounts(db, after)
  {
    if CancelRefusal(db, u, op).Some? then db
    else db.(sessions := db.sessions[op := db.sessions[op].(status := SessionStatus.Cancelled)])
  }

  function PhaseOf(m: MachineState): Option<SessionStatus> {
    match m
    case ROUTING => Some(Routing)
    case MOVING => Some(Moving)
    case POSITIONED => Some(Ready)
    case READY_FOR_DEPOSIT => Some(Ready)
    case DETECTING => Some(Detecting)
    case MEASURING => Some(Measuring)
    case _ => None
  }

  function Rank(s: SessionStatus): int {
    match s
    case Capture => -2
    case Analyzing => -1
    case Pending => 0
    case Routing => 1
    case Moving => 2
    case Ready => 3
    case Detecting => 4
    case Measuring => 5
    case _ => 0
  }

  /** A state frame moves a live session forward only. */
  predicate Advances(db: Db, op: OperationId, m: MachineState) {
    && PhaseOf(m).Some? && op in db.sessions && !Terminal(db.sessions[op].status)
    && Rank(PhaseOf(m).value) > Rank(db.sessions[op].status)
  }

  function ApplyMachineState(db: Db, op: OperationId, m: MachineState): (after: Db)
    ensures SameAccounts(db, after)
  {
    if Advances(db, op, m) then
      db.(sessions := db.sessions[op := db.sessions[op].(status := PhaseOf(m).value)])
    else db
  }

  // ---- completion ----------------------------------------------------------

  /** Why the physical reading does not pass, first failing gate first; NoReason
      when it passes. An unclassified session expects no position at all. */
  function PhysicalFailure(cfg: Config, s: Session, e: ResultEvent): Reason {
    var claim := e.status.GetOr(ClaimConfirmed);
    var actual := e.actualPosition.GetOr(0);
    var weight := e.weight.GetOr(0);
    var at := e.mechanismPosition.GetOr(0);
    if claim != ClaimConfirmed then MachineReported(claim)
    else if s.cls.Unclassified? || s.cls.position != actual then WrongPosition(actual)
    else if weight < cfg.minWeight then Underweight(weight)
    else if !e.weightStable.GetOr(false) then WeightNotStable
    else if !e.beamSeen.GetOr(false) then NoBeamBreak
    else if !e.mechanical.GetOr(false) then NoMechanicalConfirmation
    else if at != actual then MechanismElsewhere(at)
    else NoReason
  }

  /** What a terminal message leads to. */
  datatype Verdict =
    | Refuse(error: Error)
    | Ignore
    | Close(reason: Reason, status: SessionStatus)
    | Award

  predicate StationDiffers(cfg: Config, s: Session, e: ResultEvent) {
    e.station.Some? && (e.station.value !in cfg.stationRefs || cfg.stationRefs[e.station.value] != s.station)
  }

  /** Closing a session writes an auditable event worth nothing. The event's
      prediction and class columns are NOT NULL and its operation is UNIQUE, so
      the transaction aborts when the session is unclassified or already has one. */
  function Closing(db: Db, op: OperationId, reason: Reason, status: SessionStatus): Verdict
    requires op in db.sessions
  {
    if Terminal(db.sessions[op].status) then Ignore
    else if db.sessions[op].cls.Unclassified? || op in db.events then Refuse(Aborted)
    else Close(reason, status)
  }

  /** Every gate of a deposit_result, in order. */
  function Judge(cfg: Config, db: Db, e: ResultEvent, now: Instant): (v: Verdict)
    ensures v.Close? || v.Award? ==>
              && e.operation.Some? && e.operation.value in db.sessions && e.operation.value !in db.events
              && !Terminal(db.sessions[e.operation.value].status)
    ensures v.Close? ==> db.sessions[e.operation.value].cls.Classified? && v.status in {SessionStatus.Rejected, Expired}
    ensures v.Award? ==>
              && PhysicalFailure(cfg, db.sessions[e.operation.value], e) == NoReason
              && db.sessions[e.operation.value].user in db.users
  {
    if e.operation.None? then Refuse(MissingOperation)
    else if e.operation.value !in db.sessions then Refuse(UnknownOperation)
    else
      var op := e.operation.value;
      var s := db.sessions[op];
      if StationDiffers(cfg, s, e) then Closing(db, op, StationMismatch, SessionStatus.Rejected)
      else if Terminal(s.status) then Refuse(AlreadyTerminal)
      else if s.expiresAt < now then Closing(db, op, SessionExpired, Expired)
      else if PhysicalFailure(cfg, s, e) != NoReason then
        Closing(db, op, PhysicalFailure(cfg, s, e), SessionStatus.Rejected)
      else if s.user !in db.users || op in db.events then Refuse(Aborted)
      else Award
  }

  function ClosedSession(s: Session, reason: Reason, status: SessionStatus): Session {
    s.(status := status, reason := reason)
  }

  function RefusedEvent(s: Session): WasteEvent
    requires s.cls.Classified?
  {
    WasteEvent(s.user, s.station, s.cls.prediction, s.cls.cls,
               if s.reading.Measured? then s.reading.actualPosition else 0,
               if s.reading.Measured? then s.reading.weight else 0, false, 0, Refused)
  }

  function Closed(db: Db, op: OperationId, reason: Reason, status: SessionStatus): Db
    requires op in db.sessions && db.sessions[op].cls.Classified?
  {
    db.(events := db.events[op := RefusedEvent(db.sessions[op])],
        sessions := db.sessions[op := ClosedSession(db.sessions[op], reason, status)])
  }

  function ConfirmedSession(s: Session, e: ResultEvent): Session {
    s.(status := Confirmed,
       reading := Measured(e.actualPosition.GetOr(0), e.weight.GetOr(0),
                           e.weightStable.GetOr(false), e.mechanical.GetOr(false)))
  }

  function ConfirmedEvent(s: Session, e: ResultEvent): WasteEvent
    requires s.cls.Classified?
  {
    WasteEvent(s.user, s.station, s.cls.prediction, s.cls.cls,
               e.actualPosition.GetOr(0), e.weight.GetOr(0), e.mechanical.GetOr(false), s.potentialPoints, Accepted)
  }

  /** The confirmed weight of u in a class. */
  ghost function Progress(events: map<OperationId, WasteEvent>, u: UserId, cls: WasteClass): int {
    Sum(events, WeightOf(u, cls))
  }

  /** A challenge this deposit completes. */
  predicate Due(c: Challenge, u: UserId, cls: WasteClass, progress: int, done: map<(UserId, ChallengeId), int>) {
    c.cls == cls && c.active && (u, c.id) !in done && progress >= c.target
  }

  function RewardFor(c: Challenge): int {
    if c.reward <= 0 then 0 else c.reward
  }

  /** The completion rows after a deposit of u in cls, paying in catalog order. */
  function Completed(catalog: seq<Challenge>, u: UserId, cls: WasteClass, progress: int,
                     done: map<(UserId, ChallengeId), int>): map<(UserId, ChallengeId), int>
  {
    if catalog == [] then done
    else
      var rows := Completed(catalog[..|catalog| - 1], u, cls, progress, done);
      var c := catalog[|catalog| - 1];
      if Due(c, u, cls, progress, rows) then rows[(u, c.id) := RewardFor(c)] else rows
  }

  /** The bonus that goes with those rows. */
  function Bonus(catalog: seq<Challenge>, u: UserId, cls: WasteClass, progress: int,
                 done: map<(UserId, ChallengeId), int>): (bonus: int)
    ensures bonus >= 0
  {
    if catalog == [] then 0
    else
      var rest := catalog[..|catalog| - 1];
      var c := catalog[|catalog| - 1];
      Bonus(rest, u, cls, progress, done)
        + if Due(c, u, cls, progress, Completed(rest, u, cls, progress, done)) then RewardFor(c) else 0
  }

  /** The balances with points credited to u. */
  function Credited(users: map<UserId, User>, u: UserId, points: int): map<UserId, User>
    requires u in users
  {
    users[u := users[u].(points := users[u].points + points)]
  }

  function FacultyRanking(cfg: Config, rows: map<FacultyId, int>, f: FacultyId, total: int): map<FacultyId, int> {
    if f in cfg.faculties then rows[f := total] else rows
  }

  /** The class progress a confirmation is measured against: its event included. */
  ghost function ProgressAfter(db: Db, op: OperationId, e: ResultEvent): int
    requires op in db.sessions && db.sessions[op].cls.Classified?
  {
    var s := db.sessions[op];
    Progress(db.events[op := ConfirmedEvent(s, e)], s.user, s.cls.cls)
  }

  ghost function BonusOf(cfg: Config, db: Db, op: OperationId, e: ResultEvent): (bonus: int)
    requires op in db.sessions && db.sessions[op].cls.Classified?
    ensures bonus >= 0
  {
    var s := db.sessions[op];
    Bonus(cfg.challenges, s.user, s.cls.cls, ProgressAfter(db, op, e), db.completions)
  }

  /** The points transaction with the challenge bonus that rides it: the event, the
      session, the ranking rows as they stand before the bonus, the completions and
      the balance. */
  ghost function Confirm(cfg: Config, db: Db, op: OperationId, e: ResultEvent): Db
    requires op in db.sessions && db.sessions[op].cls.Classified? && db.sessions[op].user in db.users
  {
    var s := db.sessions[op];
    var f := db.users[s.user].faculty;
    var based := Credited(db.users, s.user, s.potentialPoints);
    db.(events := db.events[op := ConfirmedEvent(s, e)],
        sessions := db.sessions[op := ConfirmedSession(s, e)],
        studentRows := db.studentRows[s.user := based[s.user].points],
        facultyRows := FacultyRanking(cfg, db.facultyRows, f, Sum(based, MembersOf(f))),
        completions := Completed(cfg.challenges, s.user, s.cls.cls, ProgressAfter(db, op, e), db.completions),
        users := Credited(db.users, s.user, s.potentialPoints + BonusOf(cfg, db, op, e)))
  }

  ghost function CompleteFromEvent(cfg: Config, db: Db, e: ResultEvent, now: Instant): (after: Db)
    ensures SameMarket(db, after) && after.predictions == db.predictions && after.counters == db.counters
    ensures !Judge(cfg, db, e, now).Close? && !Judge(cfg, db, e, now).Award? ==> after == db
  {
    match Judge(cfg, db, e, now)
    case Refuse(_) => db
    case Ignore => db
    case Close(reason, status) => Closed(db, e.operation.value, reason, status)
    case Award => Confirm(cfg, db, e.operation.value, e)
  }
}
