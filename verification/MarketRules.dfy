/** What each call on the reward market answers and leaves, read off the fields of the
    rows and the request alone. */
module MarketRules {
  import opened Sums
  import opened Schema
  import R = RewardService

  // ---- redeem: the checks, in order ----------------------------------------

  ghost predicate KeyIsNew(db: Db, q: R.Request) {
    forall id :: id in db.redemptions ==> !(db.redemptions[id].user == q.user && db.redemptions[id].key == q.key)
  }

  predicate DestinationGiven(rw: Reward, q: R.Request) {
    rw.needsDestination ==> q.destination.Destination? && q.destination.text != ""
  }

  predicate DestinationFits(q: R.Request) {
    q.destination.Destination? ==> |q.destination.text| <= 128
  }

  predicate InStock(rw: Reward) {
    rw.stock.Limited? ==> rw.stock.units > 0
  }

  predicate Affords(db: Db, u: UserId, cost: int) {
    u in db.users && db.users[u].points >= cost
  }

  /** No redemption carries the code. */
  ghost predicate Unused(db: Db, code: Code) {
    forall id :: id in db.redemptions ==> db.redemptions[id].code != MerchantCode(code)
  }

  ghost predicate CodeLeft(db: Db, q: R.Request) {
    exists d :: d in q.draws && Unused(db, d)
  }

  lemma {:induction false} FreeDraw(db: Db, draws: seq<Code>)
    ensures R.FirstFree(db.redemptions, draws).MerchantCode? <==> exists d :: d in draws && Unused(db, d)
    ensures R.FirstFree(db.redemptions, draws).MerchantCode? ==>
              exists i :: 0 <= i < |draws| && R.FirstFree(db.redemptions, draws) == MerchantCode(draws[i])
                && Unused(db, draws[i]) && forall j :: 0 <= j < i ==> !Unused(db, draws[j])
  {
    if draws != [] && R.CodeTaken(db.redemptions, draws[0]) {
      var rest := draws[1..];
      FreeDraw(db, rest);
      assert !Unused(db, draws[0]);
      assert forall d :: d in draws <==> d == draws[0] || d in rest;
      if R.FirstFree(db.redemptions, rest).MerchantCode? {
        var i :| 0 <= i < |rest| && R.FirstFree(db.redemptions, rest) == MerchantCode(rest[i])
          && Unused(db, rest[i]) && forall j :: 0 <= j < i ==> !Unused(db, rest[j]);
        assert draws[i + 1] == rest[i];
        assert forall j :: 0 < j < i + 1 ==> draws[j] == rest[j - 1];
      }
    } else if draws != [] {
      assert Unused(db, draws[0]);
    }
  }

  lemma KeyIsNewWhen(db: Db, q: R.Request)
    ensures KeyIsNew(db, q) <==> R.FindByKey(db, q.user, q.key).None?
  {
  }

  /** A request is granted if and only if no row has its user and key; the reward
      exists, is active and has a positive price; a needed destination is given and a
      given one is at most 128 characters long; a limited stock has a unit; the user
      exists and can pay; the reward is cash or one of the draws is unused; and the id
      of the new row is free. */
  lemma GrantedExactlyWhen(db: Db, q: R.Request)
    ensures R.RedeemReply(db, q) == R.Granted(q.id) <==>
              && KeyIsNew(db, q)
              && q.reward in db.rewards
              && var rw := db.rewards[q.reward];
                 && rw.active && rw.cost > 0
                 && DestinationGiven(rw, q) && DestinationFits(q)
                 && InStock(rw) && Affords(db, q.user, rw.cost)
                 && (rw.cash || CodeLeft(db, q))
                 && q.id !in db.redemptions
  {
    KeyIsNewWhen(db, q);
    FreeDraw(db, q.draws);
  }

  /** Which refusal each first failing check gives. */
  lemma RefusedWith(db: Db, q: R.Request)
    ensures var reply := R.RedeemReply(db, q);
            if !KeyIsNew(db, q) then
              && reply.Existing? && reply.id in db.redemptions
              && db.redemptions[reply.id].user == q.user && db.redemptions[reply.id].key == q.key
            else if q.reward !in db.rewards then reply == R.Denied(R.NoSuchReward)
            else
              var rw := db.rewards[q.reward];
              && (!rw.active ==> reply == R.Denied(R.NotActive))
              && (rw.active && rw.cost <= 0 ==> reply == R.Denied(R.Misconfigured))
              && (rw.active && rw.cost > 0 && !DestinationGiven(rw, q) ==> reply == R.Denied(R.DestinationMissing))
              && (rw.active && rw.cost > 0 && DestinationGiven(rw, q) ==>
                    && (!DestinationFits(q) ==> reply == R.Denied(R.DestinationTooLong))
                    && (DestinationFits(q) && !InStock(rw) ==> reply == R.Denied(R.SoldOut))
                    && (DestinationFits(q) && InStock(rw) && !Affords(db, q.user, rw.cost) ==>
                          reply == R.Denied(R.NotEnoughPoints))
                    && (DestinationFits(q) && InStock(rw) && Affords(db, q.user, rw.cost) ==>
                          && (!rw.cash && !CodeLeft(db, q) ==> reply == R.Denied(R.NoCodeFree))
                          && ((rw.cash || CodeLeft(db, q)) && q.id in db.redemptions ==>
                                reply == R.Denied(R.RowConflict))))
  {
    KeyIsNewWhen(db, q);
    FreeDraw(db, q.draws);
  }

  /** The balance of u moves by amount and nothing else about the users does. */
  ghost predicate Paid(was: map<UserId, User>, now: map<UserId, User>, u: UserId, amount: int) {
    && now.Keys == was.Keys
    && forall v :: v in was ==>
         now[v].faculty == was[v].faculty && now[v].points == was[v].points + if v == u then amount else 0
  }

  /** A limited reward r gains units and nothing else about the rewards changes. */
  ghost predicate Stocked(was: map<RewardId, Reward>, now: map<RewardId, Reward>, r: RewardId, units: int) {
    && now.Keys == was.Keys
    && forall s :: s in was ==>
         if s == r && was[s].stock.Limited? then
           now[s] == Reward(was[s].cash, was[s].active, was[s].cost, Limited(was[s].stock.units + units),
                            was[s].needsDestination)
         else now[s] == was[s]
  }

  /** What a grant leaves: the price off the balance, a unit off a limited stock, and a
      row with the user, the price, the destination and the key of the request. Cash is
      pending without a code; anything else is available under the first unused draw.
      A request that is not granted leaves every table as it was. */
  lemma GrantLeaves(db: Db, q: R.Request)
    ensures var after := R.Redeem(db, q);
            if R.RedeemReply(db, q) != R.Granted(q.id) then after == db
            else
              && q.reward in db.rewards
              && var rw := db.rewards[q.reward];
                 && Paid(db.users, after.users, q.user, -rw.cost) && Stocked(db.rewards, after.rewards, q.reward, -1)
                 && q.id in after.redemptions && after.redemptions == db.redemptions[q.id := after.redemptions[q.id]]
                 && var row := after.redemptions[q.id];
                    && row.user == q.user && row.reward == q.reward && row.spent == rw.cost
                    && row.destination == q.destination && row.key == q.key
                    && (rw.cash ==> row.status == RedemptionStatus.Pending && row.code == NoCode)
                    && (!rw.cash ==>
                          && row.status == Available
                          && exists i :: 0 <= i < |q.draws| && row.code == MerchantCode(q.draws[i])
                               && Unused(db, q.draws[i]) && forall j :: 0 <= j < i ==> !Unused(db, q.draws[j]))
  {
    FreeDraw(db, q.draws);
  }

  // ---- the other calls -----------------------------------------------------

  /** A redemption takes a new status and its user and reward get back what it took. */
  ghost predicate GivenBack(db: Db, after: Db, id: RedemptionId, s: RedemptionStatus)
    requires id in db.redemptions
  {
    var rd := db.redemptions[id];
    && Restated(db.redemptions, after.redemptions, id, s)
    && Paid(db.users, after.users, rd.user, rd.spent) && Stocked(db.rewards, after.rewards, rd.reward, 1)
  }

  /** A redemption takes a new status and no other row changes. */
  ghost predicate Restated(was: map<RedemptionId, Redemption>, now: map<RedemptionId, Redemption>, id: RedemptionId,
                           s: RedemptionStatus)
    requires id in was
  {
    now == was[id := Redemption(was[id].user, was[id].reward, was[id].spent, s, was[id].code, was[id].destination,
                                was[id].key)]
  }

  /** A rejection goes through exactly for a pending or approved redemption whose user
      exists. */
  lemma RejectRule(db: Db, id: RedemptionId)
    ensures var reply, after := R.RejectReply(db, id), R.Reject(db, id);
            if id !in db.redemptions then reply == R.Denied(R.NoSuchRedemption) && after == db
            else if db.redemptions[id].status != RedemptionStatus.Pending && db.redemptions[id].status != Approved then
              reply == R.Denied(R.WrongState) && after == db
            else if db.redemptions[id].user !in db.users then reply == R.Denied(R.NoSuchUser) && after == db
            else reply == R.Done && GivenBack(db, after, id, RedemptionStatus.Rejected)
  {
  }

  /** A cancellation goes through exactly for an available redemption of the caller. */
  lemma CancelRule(db: Db, u: UserId, id: RedemptionId)
    ensures var reply, after := R.CancelReply(db, u, id), R.Cancel(db, u, id);
            if id !in db.redemptions || db.redemptions[id].user != u then
              reply == R.Denied(R.NoSuchRedemption) && after == db
            else if db.redemptions[id].status != Available then reply == R.Denied(R.WrongState) && after == db
            else reply == R.Done && GivenBack(db, after, id, RedemptionStatus.Cancelled)
  {
  }

  /** One status moved and nothing else. */
  ghost predicate OnlyRestates(db: Db, after: Db, id: RedemptionId, s: RedemptionStatus)
    requires id in db.redemptions
  {
    after.users == db.users && after.rewards == db.rewards && Restated(db.redemptions, after.redemptions, id, s)
  }

  /** A code can be used exactly while it is available. */
  lemma MarkUsedRule(db: Db, id: RedemptionId)
    ensures var reply, after := R.MarkUsedReply(db, id), R.MarkUsed(db, id);
            if id !in db.redemptions then reply == R.Denied(R.NoSuchRedemption) && after == db
            else if db.redemptions[id].status != Available then reply == R.Denied(R.WrongState) && after == db
            else reply == R.Done && OnlyRestates(db, after, id, Used)
  {
  }

  /** A redemption can be approved exactly while it is pending. */
  lemma ApproveRule(db: Db, id: RedemptionId)
    ensures var reply, after := R.ApproveReply(db, id), R.Approve(db, id);
            if id !in db.redemptions then reply == R.Denied(R.NoSuchRedemption) && after == db
            else if db.redemptions[id].status != RedemptionStatus.Pending then
              reply == R.Denied(R.WrongState) && after == db
            else reply == R.Done && OnlyRestates(db, after, id, Approved)
  {
  }

  /** A redemption can be fulfilled exactly when its reward is cash and it is pending or
      approved. */
  lemma FulfillRule(db: Db, id: RedemptionId)
    ensures var reply, after := R.FulfillReply(db, id), R.Fulfill(db, id);
            if id !in db.redemptions then reply == R.Denied(R.NoSuchRedemption) && after == db
            else
              var rd := db.redemptions[id];
              if rd.reward !in db.rewards || !db.rewards[rd.reward].cash then
                reply == R.Denied(R.NotCash) && after == db
              else if rd.status != RedemptionStatus.Pending && rd.status != Approved then
                reply == R.Denied(R.WrongState) && after == db
              else reply == R.Done && OnlyRestates(db, after, id, Fulfilled)
  {
  }
}
