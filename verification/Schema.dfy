/** The rows of the backend's tables and the catalog a deployment runs with.

    Keys are opaque strings in the tables and only their equality matters, so
    they are naturals here. A weight counts hundredths of a gram, the unit the
    station rounds its readings to; a challenge target is given in that unit too. */
module Schema {
  import opened Sums

  type UserId = int
  type FacultyId = int
  type StationId = int
  type StationRef = int
  type PredictionId = int
  type ChallengeId = int
  type RewardId = int
  type RedemptionId = int
  type Key = int
  type Code = int
  type Instant = int
  type Weight = int

  /** OP-YYYYMMDD-NNNNNN: the day and the counter value minted on that day. */
  datatype OperationId = OperationId(day: nat, number: nat)

  datatype WasteClass = Plastic | Metal | Paper | Other

  datatype Confidence = High | Medium | Low

  datatype Policy = Policy(position: int, points: nat)

  datatype Challenge = Challenge(id: ChallengeId, cls: WasteClass, target: Weight, reward: int, active: bool)

  /** What administrators configure; runs leave it alone. stationRefs resolves a
      station code or a station key to the station's key. */
  datatype Config = Config(
    policies: map<WasteClass, Policy>,
    challenges: seq<Challenge>,
    stations: set<StationId>,
    stationRefs: map<StationRef, StationId>,
    faculties: set<FacultyId>,
    minWeight: Weight,
    ttl: nat)

  /** Challenge ids are a primary key; the shipped minimum weight is one gram. */
  ghost predicate ValidConfig(cfg: Config) {
    && cfg.minWeight >= 0
    && forall i, j :: 0 <= i < j < |cfg.challenges| ==> cfg.challenges[i].id != cfg.challenges[j].id
  }

  datatype User = User(points: int, faculty: FacultyId)

  datatype Prediction = Prediction(user: UserId, cls: WasteClass, level: Confidence, expiresAt: Instant)

  datatype SessionStatus =
    | Capture | Analyzing | Pending | Routing | Moving | Ready | Detecting | Measuring
    | Confirmed | Rejected | Cancelled | Expired

  predicate Terminal(s: SessionStatus) {
    s.Confirmed? || s.Rejected? || s.Cancelled? || s.Expired?
  }

  /** The columns a classification fills in together. */
  datatype Classification =
    | Unclassified
    | Classified(prediction: PredictionId, cls: WasteClass, position: int, level: Confidence)

  /** What a machine claims in a terminal message. */
  datatype Claim =
    | ClaimConfirmed | ClaimWrongPosition | ClaimUnderweight | ClaimJam | ClaimTimeout
    | ClaimSensorError | ClaimOther(text: string)

  datatype Reason =
    | NoReason | StationMismatch | SessionExpired | LowConfidence | MachineReported(claim: Claim)
    | WrongPosition(got: int) | Underweight(weight: Weight) | WeightNotStable
    | NoBeamBreak | NoMechanicalConfirmation | MechanismElsewhere(position: int)

  /** The columns only a confirmation fills in. A rejection writes back the values
      it finds, which before a confirmation are all empty. */
  datatype Reading =
    | NotMeasured
    | Measured(actualPosition: int, weight: Weight, stable: bool, mechanical: bool)

  datatype Session = Session(
    user: UserId,
    station: StationId,
    cls: Classification,
    potentialPoints: int,
    status: SessionStatus,
    reading: Reading,
    reason: Reason,
    expiresAt: Instant)

  datatype EventStatus = Accepted | Refused

  /** A waste event; the table is keyed by its UNIQUE operation id. */
  datatype WasteEvent = WasteEvent(
    user: UserId,
    station: StationId,
    prediction: PredictionId,
    cls: WasteClass,
    actualPosition: int,
    weight: Weight,
    mechanical: bool,
    points: int,
    status: EventStatus)

  datatype Stock = Unlimited | Limited(units: int)

  datatype Reward = Reward(cash: bool, active: bool, cost: int, stock: Stock, needsDestination: bool)

  datatype RedemptionStatus =
    | Pending | Approved | Fulfilled | Rejected | Cancelled
    | Available | Used

  datatype MerchantCode = NoCode | MerchantCode(code: Code)

  /** The payout destination, stripped; a missing or empty text is NoDestination. */
  datatype Destination = NoDestination | Destination(text: string)

  datatype Redemption = Redemption(
    user: UserId,
    reward: RewardId,
    spent: int,
    status: RedemptionStatus,
    code: MerchantCode,
    destination: Destination,
    key: Key)

  /** A redemption whose points were given back. */
  predicate Refunded(s: RedemptionStatus) {
    s == RedemptionStatus.Rejected || s == RedemptionStatus.Cancelled
  }

  /** The database. Its tables are parameters of the record, so that comparing two
      databases does not make the prover compare the sizes of all their rows. */
  datatype Tables<Users, Predictions, Counters, Sessions, Events, Completions, StudentRows, FacultyRows, Rewards, Redemptions> =
    Tables(users: Users, predictions: Predictions, counters: Counters, sessions: Sessions, events: Events,
           completions: Completions, studentRows: StudentRows, facultyRows: FacultyRows,
           rewards: Rewards, redemptions: Redemptions)

  type Db = Tables<
    map<UserId, User>,
    map<PredictionId, Prediction>,
    map<nat, nat>,
    map<OperationId, Session>,
    map<OperationId, WasteEvent>,
    map<(UserId, ChallengeId), int>,
    map<UserId, int>,
    map<FacultyId, int>,
    map<RewardId, Reward>,
    map<RedemptionId, Redemption>>

  /** Two states of the database with the same rewards and redemptions. */
  ghost predicate SameMarket(db: Db, after: Db) {
    after.rewards == db.rewards && after.redemptions == db.redemptions
  }

  /** Two states of the database that differ in sessions and predictions at most. */
  ghost predicate SameAccounts(db: Db, after: Db) {
    && after.users == db.users && after.events == db.events && after.completions == db.completions
    && after.studentRows == db.studentRows && after.facultyRows == db.facultyRows && SameMarket(db, after)
  }

  /** Two states of the database with the same deposits. */
  ghost predicate SameDeposits(db: Db, after: Db) {
    && after.predictions == db.predictions && after.counters == db.counters && after.sessions == db.sessions
    && after.events == db.events && after.completions == db.completions
    && after.studentRows == db.studentRows && after.facultyRows == db.facultyRows
  }

  /** Points the confirmed events of u awarded. */
  ghost function AwardsOf(u: UserId): (OperationId, WasteEvent) -> int {
    (op: OperationId, e: WasteEvent) => if e.user == u && e.status == Accepted then e.points else 0
  }

  /** Points the completed challenges of u paid. */
  ghost function BonusesOf(u: UserId): ((UserId, ChallengeId), int) -> int {
    (k: (UserId, ChallengeId), paid: int) => if k.0 == u then paid else 0
  }

  /** Points u spent on redemptions that still stand. */
  ghost function SpentBy(u: UserId): (RedemptionId, Redemption) -> int {
    (id: RedemptionId, rd: Redemption) => if rd.user == u && !Refunded(rd.status) then rd.spent else 0
  }

  /** One for each standing redemption of reward r. */
  ghost function UnitsOf(r: RewardId): (RedemptionId, Redemption) -> int {
    (id: RedemptionId, rd: Redemption) => if rd.reward == r && !Refunded(rd.status) then 1 else 0
  }

  /** The confirmed weight of u in class cls. */
  function WeightOf(u: UserId, cls: WasteClass): (OperationId, WasteEvent) -> int {
    (op: OperationId, e: WasteEvent) => if e.user == u && e.cls == cls && e.status == Accepted then e.weight else 0
  }

  /** The points of the members of faculty f. */
  function MembersOf(f: FacultyId): (UserId, User) -> int {
    (u: UserId, row: User) => if row.faculty == f then row.points else 0
  }
}
