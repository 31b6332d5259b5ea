/** Whole runs of service calls, and the accounts every run keeps. */
module Ledger {
  import opened Sums
  import opened Schema
  import D = DepositService
  import R = RewardService

  datatype Call =
    | Create(user: UserId, station: StationId, prediction: Option<PredictionId>, day: nat, now: Instant)
    | Upload(op: OperationId, ref: StationRef, frame: D.Frame, now: Instant)
    | CancelDeposit(user: UserId, op: OperationId)
    | Machine(op: OperationId, state: D.MachineState)
    | Complete(event: D.ResultEvent, now: Instant)
    | Market(call: MarketCall)

  datatype MarketCall =
    | Redeem(request: R.Request)
    | Reject(id: RedemptionId)
    | Cancel(user: UserId, id: RedemptionId)
    | MarkUsed(id: RedemptionId)
    | Approve(id: RedemptionId)
    | Fulfill(id: RedemptionId)

  ghost function ApplyMarket(db: Db, call: MarketCall): (after: Db)
    ensures SameDeposits(db, after)
  {
    match call
    case Redeem(request) => R.Redeem(db, request)
    case Reject(id) => R.Reject(db, id)
    case Cancel(user, id) => R.Cancel(db, user, id)
    case MarkUsed(id) => R.MarkUsed(db, id)
    case Approve(id) => R.Approve(db, id)
    case Fulfill(id) => R.Fulfill(db, id)
  }

  ghost function Apply(cfg: Config, db: Db, call: Call): Db {
    match call
    case Create(user, station, prediction, day, now) => D.CreateSession(cfg, db, user, station, prediction, day, now)
    case Upload(op, ref, frame, now) => D.HandleCapture(cfg, db, op, ref, frame, now)
    case CancelDeposit(user, op) => D.CancelDeposit(db, user, op)
    case Machine(op, state) => D.ApplyMachineState(db, op, state)
    case Complete(event, now) => D.CompleteFromEvent(cfg, db, event, now)
    case Market(m) => ApplyMarket(db, m)
  }

  /** The tables after a run of calls, each one atomic. */
  ghost function Run(cfg: Config, db: Db, calls: seq<Call>): Db {
    if calls == [] then db
    else Apply(cfg, Run(cfg, db, calls[..|calls| - 1]), calls[|calls| - 1])
  }

  // ---- conservation of points ----------------------------------------------

  /** The balance u has once every recorded movement is taken back. */
  ghost function Opening(db: Db, u: UserId): int
    requires u in db.users
  {
    db.users[u].points - Sum(db.events, AwardsOf(u)) - Sum(db.completions, BonusesOf(u)) + Sum(db.redemptions, SpentBy(u))
  }

  /** The completion rows a deposit adds are worth exactly its bonus. */
  lemma {:induction false} BonusBalances(catalog: seq<Challenge>, u: UserId, cls: WasteClass, progress: int,
                                         done: map<(UserId, ChallengeId), int>, v: UserId)
    ensures Sum(D.Completed(catalog, u, cls, progress, done), BonusesOf(v))
         == Sum(done, BonusesOf(v)) + (if u == v then D.Bonus(catalog, u, cls, progress, done) else 0)
  {
    if catalog != [] {
      var rest := catalog[..|catalog| - 1];
      BonusBalances(rest, u, cls, progress, done, v);
      var c := catalog[|catalog| - 1];
      SumUpdate(D.Completed(rest, u, cls, progress, done), BonusesOf(v), (u, c.id), D.RewardFor(c));
    }
  }

  lemma ConfirmConserves(cfg: Config, db: Db, op: OperationId, e: D.ResultEvent, v: UserId)
    requires op in db.sessions && db.sessions[op].cls.Classified? && db.sessions[op].user in db.users
    requires op !in db.events && v in db.users
    ensures var after := D.Confirm(cfg, db, op, e);
            v in after.users && Opening(after, v) == Opening(db, v)
  {
    var s := db.sessions[op];
    SumUpdate(db.events, AwardsOf(v), op, D.ConfirmedEvent(s, e));
    BonusBalances(cfg.challenges, s.user, s.cls.cls, D.ProgressAfter(db, op, e), db.completions, v);
  }

  lemma CompleteConserves(cfg: Config, db: Db, e: D.ResultEvent, now: Instant, v: UserId)
    requires v in db.users
    ensures var after := D.CompleteFromEvent(cfg, db, e, now);
            v in after.users && Opening(after, v) == Opening(db, v)
  {
    var verdict := D.Judge(cfg, db, e, now);
    if verdict.Close? {
      SumUpdate(db.events, AwardsOf(v), e.operation.value, D.RefusedEvent(db.sessions[e.operation.value]));
    } else if verdict.Award? {
      ConfirmConserves(cfg, db, e.operation.value, e, v);
    }
  }

  lemma GrantConserves(db: Db, q: R.Request, v: UserId)
    requires q.reward in db.rewards && q.user in db.users && q.id !in db.redemptions && v in db.users
    ensures v in R.Grant(db, q).users && Opening(R.Grant(db, q), v) == Opening(db, v)
  {
    SumUpdate(db.redemptions, SpentBy(v), q.id, R.NewRow(db, q));
  }

  /** A refund moves the points of a standing redemption back to its user. */
  lemma RefundConserves(db: Db, id: RedemptionId, s: RedemptionStatus, v: UserId)
    requires id in db.redemptions && !Refunded(db.redemptions[id].status) && Refunded(s) && v in db.users
    ensures v in R.Refund(db, id, s).users && Opening(R.Refund(db, id, s), v) == Opening(db, v)
  {
    SumUpdate(db.redemptions, SpentBy(v), id, db.redemptions[id].(status := s));
  }

  /** Any other move of a standing redemption keeps its points spent. */
  lemma SettleConserves(reds: map<RedemptionId, Redemption>, id: RedemptionId, s: RedemptionStatus, v: UserId)
    requires id in reds && !Refunded(reds[id].status) && !Refunded(s)
    ensures Sum(R.SetStatus(reds, id, s), SpentBy(v)) == Sum(reds, SpentBy(v))
  {
    SumUpdate(reds, SpentBy(v), id, reds[id].(status := s));
  }

  lemma SettlementConserves(db: Db, call: MarketCall, v: UserId)
    requires call.MarkUsed? || call.Approve? || call.Fulfill?
    requires v in db.users
    ensures v in ApplyMarket(db, call).users && Opening(ApplyMarket(db, call), v) == Opening(db, v)
  {
    var s := if call.MarkUsed? then Used else if call.Approve? then Approved else Fulfilled;
    if call.id in db.redemptions && !Refunded(db.redemptions[call.id].status) {
      SettleConserves(db.redemptions, call.id, s, v);
    }
  }

  lemma MarketConserves(db: Db, call: MarketCall, v: UserId)
    requires v in db.users
    ensures v in ApplyMarket(db, call).users && Opening(ApplyMarket(db, call), v) == Opening(db, v)
  {
    if call.Redeem? {
      if R.Refusal(db, call.request).None? { GrantConserves(db, call.request, v); }
    } else if call.Reject? {
      if R.RejectReply(db, call.id).Done? { RefundConserves(db, call.id, RedemptionStatus.Rejected, v); }
    } else if call.Cancel? {
      if R.CancelReply(db, call.user, call.id).Done? { RefundConserves(db, call.id, RedemptionStatus.Cancelled, v); }
    } else {
      SettlementConserves(db, call, v);
    }
  }

  lemma StepConserves(cfg: Config, db: Db, call: Call, v: UserId)
    requires v in db.users
    ensures v in Apply(cfg, db, call).users && Opening(Apply(cfg, db, call), v) == Opening(db, v)
  {
    match call
    case Complete(e, now) => CompleteConserves(cfg, db, e, now, v);
    case Market(m) => MarketConserves(db, m, v);
    case _ => assert SameAccounts(db, Apply(cfg, db, call));
  }

  /** Over every run, a balance is its opening value plus confirmed awards plus
      challenge rewards minus the points of the redemptions that still stand. */
  lemma {:induction false} PointsConserved(cfg: Config, db: Db, calls: seq<Call>, v: UserId)
    requires v in db.users
    ensures var after := Run(cfg, db, calls);
            && v in after.users
            && after.users[v].points == Opening(db, v) + Sum(after.events, AwardsOf(v))
                 + Sum(after.completions, BonusesOf(v)) - Sum(after.redemptions, SpentBy(v))
  {
    if calls != [] {
      var before := calls[..|calls| - 1];
      PointsConserved(cfg, db, before, v);
      StepConserves(cfg, Run(cfg, db, before), calls[|calls| - 1], v);
    }
  }

  // ---- conservation of stock -----------------------------------------------

  /** The shelf of a limited reward before any unit was reserved. */
  ghost function Shelf(db: Db, r: RewardId): Stock
    requires r in db.rewards
  {
    if db.rewards[r].stock.Unlimited? then Unlimited
    else Limited(db.rewards[r].stock.units + Sum(db.redemptions, UnitsOf(r)))
  }

  ghost predicate ShelfKept(db: Db, after: Db, r: RewardId) {
    r in db.rewards ==>
      && r in after.rewards
      && after.rewards[r] == db.rewards[r].(stock := after.rewards[r].stock)
      && Shelf(after, r) == Shelf(db, r)
      && (db.rewards[r].stock.Limited? && db.rewards[r].stock.units >= 0 ==> after.rewards[r].stock.units >= 0)
  }

  lemma RefundKeepsShelf(db: Db, id: RedemptionId, s: RedemptionStatus, r: RewardId)
    requires id in db.redemptions && !Refunded(db.redemptions[id].status) && Refunded(s)
    ensures ShelfKept(db, R.Refund(db, id, s), r)
  {
    SumUpdate(db.redemptions, UnitsOf(r), id, db.redemptions[id].(status := s));
  }

  lemma GrantKeepsShelf(db: Db, q: R.Request, r: RewardId)
    requires q.reward in db.rewards && q.id !in db.redemptions
    requires db.rewards[q.reward].stock.Limited? ==> db.rewards[q.reward].stock.units > 0
    ensures ShelfKept(db, R.Grant(db, q), r)
  {
    SumUpdate(db.redemptions, UnitsOf(r), q.id, R.NewRow(db, q));
  }

  lemma SettleKeepsUnits(reds: map<RedemptionId, Redemption>, id: RedemptionId, s: RedemptionStatus, r: RewardId)
    requires id in reds && !Refunded(reds[id].status) && !Refunded(s)
    ensures Sum(R.SetStatus(reds, id, s), UnitsOf(r)) == Sum(reds, UnitsOf(r))
  {
    SumUpdate(reds, UnitsOf(r), id, reds[id].(status := s));
  }

  lemma SettlementKeepsShelf(db: Db, call: MarketCall, r: RewardId)
    requires call.MarkUsed? || call.Approve? || call.Fulfill?
    ensures ShelfKept(db, ApplyMarket(db, call), r)
  {
    match call
    case MarkUsed(id) => if R.MarkUsedReply(db, id).Done? { SettleKeepsUnits(db.redemptions, id, Used, r); }
    case Approve(id) => if R.ApproveReply(db, id).Done? { SettleKeepsUnits(db.redemptions, id, Approved, r); }
    case Fulfill(id) => if R.FulfillReply(db, id).Done? { SettleKeepsUnits(db.redemptions, id, Fulfilled, r); }
  }

  lemma MarketKeepsShelf(db: Db, call: MarketCall, r: RewardId)
    ensures ShelfKept(db, ApplyMarket(db, call), r)
  {
    if call.Redeem? {
      if R.Refusal(db, call.request).None? { GrantKeepsShelf(db, call.request, r); }
    } else if call.Reject? {
      if R.RejectReply(db, call.id).Done? { RefundKeepsShelf(db, call.id, RedemptionStatus.Rejected, r); }
    } else if call.Cancel? {
      if R.CancelReply(db, call.user, call.id).Done? { RefundKeepsShelf(db, call.id, RedemptionStatus.Cancelled, r); }
    } else {
      SettlementKeepsShelf(db, call, r);
    }
  }

  lemma StepKeepsShelf(cfg: Config, db: Db, call: Call, r: RewardId)
    ensures ShelfKept(db, Apply(cfg, db, call), r)
  {
    if call.Market? {
      MarketKeepsShelf(db, call.call, r);
    } else {
      assert SameMarket(db, Apply(cfg, db, call));
    }
  }

  /** Over every run, remaining stock plus standing redemptions of a limited reward
      is constant, stock never falls below zero, and an unlimited reward stays one. */
  lemma {:induction false} StockConserved(cfg: Config, db: Db, calls: seq<Call>, r: RewardId)
    requires r in db.rewards
    ensures var after := Run(cfg, db, calls);
            && r in after.rewards
            && (db.rewards[r].stock.Unlimited? <==> after.rewards[r].stock.Unlimited?)
            && (db.rewards[r].stock.Limited? ==>
                  after.rewards[r].stock.units + Sum(after.redemptions, UnitsOf(r))
                    == db.rewards[r].stock.units + Sum(db.redemptions, UnitsOf(r)))
            && (db.rewards[r].stock.Limited? && db.rewards[r].stock.units >= 0 ==> after.rewards[r].stock.units >= 0)
  {
    if calls != [] {
      var before := calls[..|calls| - 1];
      StockConserved(cfg, db, before, r);
      StepKeepsShelf(cfg, Run(cfg, db, before), calls[|calls| - 1], r);
    }
  }
}
