/** Balances, stock and the market's UNIQUE columns over every run of calls. */
module Solvency {
  import opened Sums
  import opened Schema
  import D = DepositService
  import R = RewardService
  import opened Ledger

  /** No balance and no price is negative, every redemption names an existing user
      and reward, and the UNIQUE columns of the redemptions hold. */
  ghost predicate Sound(db: Db) {
    && (forall u :: u in db.users ==> db.users[u].points >= 0)
    && (forall op :: op in db.sessions ==> db.sessions[op].potentialPoints >= 0)
    && (forall r :: r in db.rewards && db.rewards[r].stock.Limited? ==> db.rewards[r].stock.units >= 0)
    && SoundRows(db)
  }

  ghost predicate SoundRows(db: Db) {
    && (forall id :: id in db.redemptions ==>
          && db.redemptions[id].spent >= 0
          && db.redemptions[id].user in db.users
          && db.redemptions[id].reward in db.rewards)
    && R.UniqueRows(db)
  }

  lemma GrantSound(db: Db, q: R.Request)
    requires Sound(db) && R.FindByKey(db, q.user, q.key).None? && R.Refusal(db, q).None?
    ensures Sound(R.Grant(db, q))
  {
    var after := R.Grant(db, q);
    var row := R.NewRow(db, q);
    forall i, j | i in after.redemptions && j in after.redemptions && i != j
      ensures !R.HasKey(after.redemptions[i], after.redemptions[j].user, after.redemptions[j].key)
      ensures after.redemptions[i].code.MerchantCode? ==> after.redemptions[i].code != after.redemptions[j].code
    {
      if i == q.id {
        assert j in db.redemptions && !R.HasKey(db.redemptions[j], q.user, q.key);
      } else if j == q.id {
        assert i in db.redemptions && !R.HasKey(db.redemptions[i], q.user, q.key);
      }
    }
  }

  /** Rewriting the status of a row keeps the rows sound. */
  lemma StatusSound(db: Db, id: RedemptionId, s: RedemptionStatus)
    requires SoundRows(db) && id in db.redemptions
    ensures SoundRows(db.(redemptions := R.SetStatus(db.redemptions, id, s)))
  {
  }

  lemma RefundSound(db: Db, id: RedemptionId, s: RedemptionStatus)
    requires Sound(db) && id in db.redemptions
    ensures Sound(R.Refund(db, id, s))
  {
    StatusSound(db, id, s);
    var after := R.Refund(db, id, s);
    assert after.users.Keys == db.users.Keys && after.rewards.Keys == db.rewards.Keys;
  }

  lemma MarketSound(db: Db, call: MarketCall)
    requires Sound(db)
    ensures Sound(ApplyMarket(db, call))
  {
    match call
    case Redeem(q) =>
      if R.FindByKey(db, q.user, q.key).None? && R.Refusal(db, q).None? { GrantSound(db, q); }
    case Reject(id) =>
      if R.RejectReply(db, id).Done? { RefundSound(db, id, RedemptionStatus.Rejected); }
    case Cancel(u, id) =>
      if R.CancelReply(db, u, id).Done? { RefundSound(db, id, RedemptionStatus.Cancelled); }
    case MarkUsed(id) =>
      if R.MarkUsedReply(db, id).Done? { StatusSound(db, id, Used); }
    case Approve(id) =>
      if R.ApproveReply(db, id).Done? { StatusSound(db, id, Approved); }
    case Fulfill(id) =>
      if R.FulfillReply(db, id).Done? { StatusSound(db, id, Fulfilled); }
  }

  lemma CompleteSound(cfg: Config, db: Db, e: D.ResultEvent, now: Instant)
    requires Sound(db)
    ensures Sound(D.CompleteFromEvent(cfg, db, e, now))
  {
    var after := D.CompleteFromEvent(cfg, db, e, now);
    assert after.users.Keys == db.users.Keys;
  }

  lemma StepSound(cfg: Config, db: Db, call: Call)
    requires Sound(db)
    ensures Sound(Apply(cfg, db, call))
  {
    match call
    case Complete(e, now) => CompleteSound(cfg, db, e, now);
    case Market(m) => MarketSound(db, m);
    case Create(u, station, prediction, day, now) => CreateSound(cfg, db, u, station, prediction, day, now);
    case Upload(op, ref, frame, now) => UploadSound(cfg, db, op, ref, frame, now);
    case CancelDeposit(_, _) =>
    case Machine(_, _) =>
  }

  lemma CreateSound(cfg: Config, db: Db, u: UserId, station: StationId, prediction: Option<PredictionId>, day: nat,
                    now: Instant)
    requires Sound(db)
    ensures Sound(D.CreateSession(cfg, db, u, station, prediction, day, now))
  {
  }

  lemma UploadSound(cfg: Config, db: Db, op: OperationId, ref: StationRef, frame: D.Frame, now: Instant)
    requires Sound(db)
    ensures Sound(D.HandleCapture(cfg, db, op, ref, frame, now))
  {
  }

  /** No run of calls overdraws a balance, oversells a reward, makes two redemptions
      with one idempotency key or hands out a code twice. */
  lemma {:induction false} RunSound(cfg: Config, db: Db, calls: seq<Call>)
    requires Sound(db)
    ensures Sound(Run(cfg, db, calls))
  {
    if calls != [] {
      RunSound(cfg, db, calls[..|calls| - 1]);
      StepSound(cfg, Run(cfg, db, calls[..|calls| - 1]), calls[|calls| - 1]);
    }
  }

  // ---- refunds -------------------------------------------------------------

  ghost predicate IsRefunded(db: Db, id: RedemptionId) {
    id in db.redemptions && Refunded(db.redemptions[id].status)
  }

  ghost predicate Refunds(cfg: Config, db: Db, call: Call, id: RedemptionId) {
    !IsRefunded(db, id) && IsRefunded(Apply(cfg, db, call), id)
  }

  /** A refunded, used or fulfilled redemption never changes again. */
  ghost predicate Settled(s: RedemptionStatus) {
    Refunded(s) || s == Used || s == Fulfilled
  }

  ghost predicate MovesForward(db: Db, after: Db, id: RedemptionId)
    requires id in db.redemptions
  {
    && id in after.redemptions
    && after.redemptions[id] == db.redemptions[id].(status := after.redemptions[id].status)
    && (Settled(db.redemptions[id].status) ==> after.redemptions[id] == db.redemptions[id])
  }

  lemma SetMovesForward(db: Db, after: Db, i: RedemptionId, s: RedemptionStatus, id: RedemptionId)
    requires id in db.redemptions && i in db.redemptions && !Settled(db.redemptions[i].status)
    requires after.redemptions == R.SetStatus(db.redemptions, i, s)
    ensures MovesForward(db, after, id)
  {
  }

  lemma MarketMovesForward(db: Db, call: MarketCall, id: RedemptionId)
    requires id in db.redemptions
    ensures MovesForward(db, ApplyMarket(db, call), id)
  {
    if call.Redeem? {
      if R.Refusal(db, call.request).None? { assert call.request.id != id; }
    } else if call.Reject? {
      if R.RejectReply(db, call.id).Done? { SetMovesForward(db, R.Reject(db, call.id), call.id, RedemptionStatus.Rejected, id); }
    } else if call.Cancel? {
      if R.CancelReply(db, call.user, call.id).Done? {
        SetMovesForward(db, R.Cancel(db, call.user, call.id), call.id, RedemptionStatus.Cancelled, id);
      }
    } else {
      SettlementMovesForward(db, call, id);
    }
  }

  lemma SettlementMovesForward(db: Db, call: MarketCall, id: RedemptionId)
    requires id in db.redemptions && (call.MarkUsed? || call.Approve? || call.Fulfill?)
    ensures MovesForward(db, ApplyMarket(db, call), id)
  {
    match call
    case MarkUsed(i) => if R.MarkUsedReply(db, i).Done? { SetMovesForward(db, R.MarkUsed(db, i), i, Used, id); }
    case Approve(i) => if R.ApproveReply(db, i).Done? { SetMovesForward(db, R.Approve(db, i), i, Approved, id); }
    case Fulfill(i) => if R.FulfillReply(db, i).Done? { SetMovesForward(db, R.Fulfill(db, i), i, Fulfilled, id); }
  }

  lemma StepKeepsSettled(cfg: Config, db: Db, call: Call, id: RedemptionId)
    requires id in db.redemptions
    ensures MovesForward(db, Apply(cfg, db, call), id)
  {
    if call.Market? {
      MarketMovesForward(db, call.call, id);
    } else {
      assert SameMarket(db, Apply(cfg, db, call));
    }
  }

  lemma {:induction false} SettledIsAbsorbing(cfg: Config, db: Db, calls: seq<Call>, id: RedemptionId)
    requires id in db.redemptions
    ensures MovesForward(db, Run(cfg, db, calls), id)
  {
    if calls != [] {
      SettledIsAbsorbing(cfg, db, calls[..|calls| - 1], id);
      StepKeepsSettled(cfg, Run(cfg, db, calls[..|calls| - 1]), calls[|calls| - 1], id);
    }
  }

  ghost function RefundCount(cfg: Config, db: Db, calls: seq<Call>, id: RedemptionId): nat {
    if calls == [] then 0
    else
      var before := calls[..|calls| - 1];
      RefundCount(cfg, db, before, id)
        + if Refunds(cfg, Run(cfg, db, before), calls[|calls| - 1], id) then 1 else 0
  }

  /** One refund per redemption: over a run it happens at most once, and once exactly
      when the redemption ends the run rejected or cancelled. */
  lemma {:induction false} RefundedAtMostOnce(cfg: Config, db: Db, calls: seq<Call>, id: RedemptionId)
    ensures RefundCount(cfg, db, calls, id)
         == if !IsRefunded(db, id) && IsRefunded(Run(cfg, db, calls), id) then 1 else 0
  {
    if calls != [] {
      var before := calls[..|calls| - 1];
      RefundedAtMostOnce(cfg, db, before, id);
      if IsRefunded(db, id) { SettledIsAbsorbing(cfg, db, before, id); }
      if IsRefunded(Run(cfg, db, before), id) {
        StepKeepsSettled(cfg, Run(cfg, db, before), calls[|calls| - 1], id);
      }
    }
  }
}
