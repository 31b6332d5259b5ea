/** The reward marketplace, one service call at a time: what each call does to the
    committed tables and what it answers. */
module RewardService {
  import opened Sums
  import opened Schema

  datatype Request = Request(
    user: UserId, reward: RewardId, key: Key, destination: Destination,
    id: RedemptionId, draws: seq<Code>)

  datatype Error =
    | NoSuchReward | NotActive | Misconfigured | DestinationMissing | DestinationTooLong
    | SoldOut | NotEnoughPoints | NoCodeFree | RowConflict
    | NoSuchRedemption | WrongState | NoSuchUser | NotCash

  datatype Reply = Granted(id: RedemptionId) | Existing(id: RedemptionId) | Done | Denied(error: Error)

  predicate HasKey(rd: Redemption, u: UserId, key: Key) {
    rd.user == u && rd.key == key
  }

  /** The row a request with this key already made, if any. */
  ghost function FindByKey(db: Db, u: UserId, key: Key): (r: Option<RedemptionId>)
    ensures r.Some? ==> r.value in db.redemptions && HasKey(db.redemptions[r.value], u, key)
    ensures r.None? ==> forall id :: id in db.redemptions ==> !HasKey(db.redemptions[id], u, key)
  {
    if exists id :: id in db.redemptions && HasKey(db.redemptions[id], u, key) then
      var id :| id in db.redemptions && HasKey(db.redemptions[id], u, key);
      Some(id)
    else None
  }

  /** UNIQUE (user, idempotency key) and UNIQUE code. */
  ghost predicate UniqueRows(db: Db) {
    && (forall i, j :: i in db.redemptions && j in db.redemptions && i != j ==>
          !HasKey(db.redemptions[i], db.redemptions[j].user, db.redemptions[j].key))
    && (forall i, j :: i in db.redemptions && j in db.redemptions && i != j && db.redemptions[i].code.MerchantCode? ==>
          db.redemptions[i].code != db.redemptions[j].code)
  }

  predicate CodeTaken(reds: map<RedemptionId, Redemption>, code: Code) {
    exists id :: id in reds && reds[id].code == MerchantCode(code)
  }

  /** The first draw no redemption carries. */
  function FirstFree(reds: map<RedemptionId, Redemption>, draws: seq<Code>): (r: MerchantCode)
    ensures r.MerchantCode? ==> r.code in draws && !CodeTaken(reds, r.code)
    ensures r.NoCode? ==> forall c :: c in draws ==> CodeTaken(reds, c)
  {
    if draws == [] then NoCode
    else if !CodeTaken(reds, draws[0]) then MerchantCode(draws[0])
    else FirstFree(reds, draws[1..])
  }

  /** Why the catalog row does not allow the request, first failing check first. */
  function CatalogError(rw: Reward, q: Request): Option<Error> {
    if !rw.active then Some(NotActive)
    else if rw.cost <= 0 then Some(Misconfigured)
    else if rw.needsDestination && (q.destination.NoDestination? || q.destination.text == "") then Some(DestinationMissing)
    else if q.destination.Destination? && |q.destination.text| > 128 then Some(DestinationTooLong)
    else None
  }

  /** Why the writes of an allowed request fail: stock, balance, code, row. */
  function WriteError(db: Db, q: Request): Option<Error>
    requires q.reward in db.rewards
  {
    var rw := db.rewards[q.reward];
    if rw.stock.Limited? && rw.stock.units <= 0 then Some(SoldOut)
    else if q.user !in db.users || db.users[q.user].points < rw.cost then Some(NotEnoughPoints)
    else if !rw.cash && FirstFree(db.redemptions, q.draws).NoCode? then Some(NoCodeFree)
    else if q.id in db.redemptions then Some(RowConflict)
    else None
  }

  /** Why a request with a new key is turned down. */
  function Refusal(db: Db, q: Request): Option<Error> {
    if q.reward !in db.rewards then Some(NoSuchReward)
    else if CatalogError(db.rewards[q.reward], q).Some? then CatalogError(db.rewards[q.reward], q)
    else WriteError(db, q)
  }

  /** The row a granted request inserts. */
  function NewRow(db: Db, q: Request): Redemption
    requires q.reward in db.rewards
  {
    var rw := db.rewards[q.reward];
    Redemption(
      q.user, q.reward, rw.cost,
      if rw.cash then RedemptionStatus.Pending else Available,
      if rw.cash then NoCode else FirstFree(db.redemptions, q.draws),
      q.destination, q.key)
  }

  function AddPoints(users: map<UserId, User>, u: UserId, amount: int): map<UserId, User> {
    if u in users then users[u := users[u].(points := users[u].points + amount)] else users
  }

  /** Only limited rewards count their stock. */
  function AddStock(rewards: map<RewardId, Reward>, r: RewardId, units: int): map<RewardId, Reward> {
    if r in rewards && rewards[r].stock.Limited? then
      rewards[r := rewards[r].(stock := Limited(rewards[r].stock.units + units))]
    else rewards
  }

  function SetStatus(reds: map<RedemptionId, Redemption>, id: RedemptionId, s: RedemptionStatus): map<RedemptionId,
                     Redemption>
    requires id in reds
  {
    reds[id := reds[id].(status := s)]
  }

  function Grant(db: Db, q: Request): Db
    requires q.reward in db.rewards
  {
    db.(rewards := AddStock(db.rewards, q.reward, -1),
        users := AddPoints(db.users, q.user, -db.rewards[q.reward].cost),
        redemptions := db.redemptions[q.id := NewRow(db, q)])
  }

  ghost function Redeem(db: Db, q: Request): (after: Db)
    ensures SameDeposits(db, after)
  {
    if FindByKey(db, q.user, q.key).Some? || Refusal(db, q).Some? then db else Grant(db, q)
  }

  ghost function RedeemReply(db: Db, q: Request): Reply {
    var existing := FindByKey(db, q.user, q.key);
    if existing.Some? then Existing(existing.value)
    else if Refusal(db, q).Some? then Denied(Refusal(db, q).value)
    else Granted(q.id)
  }

  /** Gives the points and the reserved unit of a redemption back. */
  function Refund(db: Db, id: RedemptionId, s: RedemptionStatus): Db
    requires id in db.redemptions
  {
    var rd := db.redemptions[id];
    db.(redemptions := SetStatus(db.redemptions, id, s),
        users := AddPoints(db.users, rd.user, rd.spent),
        rewards := AddStock(db.rewards, rd.reward, 1))
  }

  predicate Unsettled(s: RedemptionStatus) {
    s == RedemptionStatus.Pending || s == Approved
  }

  function RejectReply(db: Db, id: RedemptionId): Reply {
    if id !in db.redemptions then Denied(NoSuchRedemption)
    else if !Unsettled(db.redemptions[id].status) then Denied(WrongState)
    else if db.redemptions[id].user !in db.users then Denied(NoSuchUser)
    else Done
  }

  function Reject(db: Db, id: RedemptionId): (after: Db)
    ensures SameDeposits(db, after)
  {
    if RejectReply(db, id).Done? then Refund(db, id, RedemptionStatus.Rejected) else db
  }

  /** A student cancels one of the student's own available codes. */
  function CancelReply(db: Db, u: UserId, id: RedemptionId): Reply {
    if id !in db.redemptions || db.redemptions[id].user != u then Denied(NoSuchRedemption)
    else if db.redemptions[id].status != Available then Denied(WrongState)
    else Done
  }

  function Cancel(db: Db, u: UserId, id: RedemptionId): (after: Db)
    ensures SameDeposits(db, after)
  {
    if CancelReply(db, u, id).Done? then Refund(db, id, RedemptionStatus.Cancelled) else db
  }

  function MarkUsedReply(db: Db, id: RedemptionId): Reply {
    if id !in db.redemptions then Denied(NoSuchRedemption)
    else if db.redemptions[id].status != Available then Denied(WrongState)
    else Done
  }

  function MarkUsed(db: Db, id: RedemptionId): (after: Db)
    ensures SameDeposits(db, after) && after.users == db.users && after.rewards == db.rewards
  {
    if MarkUsedReply(db, id).Done? then db.(redemptions := SetStatus(db.redemptions, id, Used)) else db
  }

  function ApproveReply(db: Db, id: RedemptionId): Reply {
    if id !in db.redemptions then Denied(NoSuchRedemption)
    else if db.redemptions[id].status != RedemptionStatus.Pending then Denied(WrongState)
    else Done
  }

  function Approve(db: Db, id: RedemptionId): (after: Db)
    ensures SameDeposits(db, after) && after.users == db.users && after.rewards == db.rewards
  {
    if ApproveReply(db, id).Done? then db.(redemptions := SetStatus(db.redemptions, id, Approved)) else db
  }

  /** Only cash payouts are fulfilled by administrators. */
  function FulfillReply(db: Db, id: RedemptionId): Reply {
    if id !in db.redemptions then Denied(NoSuchRedemption)
    else if db.redemptions[id].reward !in db.rewards || !db.rewards[db.redemptions[id].reward].cash then Denied(NotCash)
    else if !Unsettled(db.redemptions[id].status) then Denied(WrongState)
    else Done
  }

  function Fulfill(db: Db, id: RedemptionId): (after: Db)
    ensures SameDeposits(db, after) && after.users == db.users && after.rewards == db.rewards
  {
    if FulfillReply(db, id).Done? then db.(redemptions := SetStatus(db.redemptions, id, Fulfilled)) else db
  }
}
