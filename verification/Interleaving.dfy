/** The reward market one SQL statement at a time.

    Any number of redeem, reject, cancel and mark-used transactions run at once
    under READ COMMITTED. A statement reads the committed tables; an UPDATE waits
    while another transaction holds the row, evaluates its WHERE on the committed
    row once it has the lock, and remembers the row it will write; an INSERT waits
    while an uncommitted row has one of its UNIQUE values. Locks last until COMMIT,
    and a transaction may abort between any two statements. The remaining service
    calls take place in one step, when no row they write is locked. */
module Interleaving {
  import opened Sums
  import opened Schema
  import R = RewardService
  import opened Ledger
  import opened Solvency

  type TxId = int

  datatype Job =
    | DoRedeem(q: R.Request)
    | DoReject(id: RedemptionId)
    | DoCancel(user: UserId, id: RedemptionId)
    | DoMarkUsed(id: RedemptionId)

  datatype Result = Committed | Replied(existing: RedemptionId) | Failed

  /** Where a transaction stands, with the row copies it has read. */
  datatype Stage =
    | Start
    | Fresh
    | Checked(rw: Reward)
    | Reserved(rw: Reward)
    | Paid(rw: Reward)
    | Coded(rw: Reward, code: MerchantCode)
    | Inserted(rw: Reward)
    | Conflicted
    | Loaded(seen: Redemption)
    | Moved(seen: Redemption)
    | Refunding(seen: Redemption)
    | Restored(seen: Redemption)
    | Ended(result: Result)

  /** The rows a transaction has written and not committed; it holds their locks. */
  datatype Writes = Writes(
    user: UserId, points: Option<int>,
    reward: RewardId, units: Option<int>,
    id: RedemptionId, row: Option<Redemption>)

  datatype Txn = Txn(job: Job, stage: Stage, w: Writes)

  /** log lists the calls whose effects are committed, in commit order. */
  datatype World = World(db: Db, txns: map<TxId, Txn>, log: seq<Call>)

  datatype Action =
    | Begin(t: TxId, job: Job)
    | Lookup(t: TxId)
    | ReadReward(t: TxId)
    | Reserve(t: TxId)
    | Pay(t: TxId)
    | DrawCode(t: TxId, draws: seq<Code>)
    | Insert(t: TxId)
    | Refetch(t: TxId)
    | Load(t: TxId)
    | Move(t: TxId)
    | GiveBack(t: TxId)
    | Restore(t: TxId)
    | Commit(t: TxId)
    | Abort(t: TxId)
    | Atomic(call: Call)

  const NoWrites := Writes(0, None, 0, None, 0, None)

  // ---- locks ---------------------------------------------------------------

  ghost predicate UserLocked(w: World, t: TxId, u: UserId) {
    exists o :: o in w.txns && o != t && w.txns[o].w.points.Some? && w.txns[o].w.user == u
  }

  ghost predicate RewardLocked(w: World, t: TxId, r: RewardId) {
    exists o :: o in w.txns && o != t && w.txns[o].w.units.Some? && w.txns[o].w.reward == r
  }

  ghost predicate RowLocked(w: World, t: TxId, id: RedemptionId) {
    exists o :: o in w.txns && o != t && w.txns[o].w.row.Some? && w.txns[o].w.id == id
  }

  /** Two redemption rows that a UNIQUE column cannot hold together. */
  predicate Clash(a: Redemption, b: Redemption) {
    R.HasKey(a, b.user, b.key) || (a.code.MerchantCode? && a.code == b.code)
  }

  /** An uncommitted row clashes with the row t would insert. */
  ghost predicate InsertWaits(w: World, t: TxId, id: RedemptionId, row: Redemption) {
    exists o :: o in w.txns && o != t && w.txns[o].w.row.Some?
      && (w.txns[o].w.id == id || (w.txns[o].job.DoRedeem? && Clash(w.txns[o].w.row.value, row)))
  }

  ghost predicate InsertFails(db: Db, id: RedemptionId, row: Redemption) {
    id in db.redemptions || exists i :: i in db.redemptions && Clash(db.redemptions[i], row)
  }

  // ---- statements ----------------------------------------------------------

  function Put(w: World, t: TxId, tx: Txn): World {
    w.(txns := w.txns[t := tx])
  }

  function End(w: World, t: TxId, result: Result): World
    requires t in w.txns
  {
    Put(w, t, w.txns[t].(stage := Ended(result), w := NoWrites))
  }

  ghost function Replying(w: World, t: TxId, q: R.Request, otherwise: World): World
    requires t in w.txns
  {
    var existing := R.FindByKey(w.db, q.user, q.key);
    if existing.Some? then End(w, t, Replied(existing.value)) else otherwise
  }

  /** The checks on the catalog row, made on the copy the transaction read. */
  predicate Offered(rw: Reward, q: R.Request) {
    R.CatalogError(rw, q).None?
  }

  function RowFor(q: R.Request, rw: Reward, code: MerchantCode): Redemption {
    Redemption(q.user, q.reward, rw.cost, if rw.cash then RedemptionStatus.Pending else Available,
               code, q.destination, q.key)
  }

  ghost function RedeemStatement(w: World, t: TxId, a: Action): World
    requires t in w.txns && w.txns[t].job.DoRedeem?
  {
    var tx := w.txns[t];
    var q := tx.job.q;
    var db := w.db;
    match a
    case Lookup(_) =>
      if tx.stage != Start then w
      else Replying(w, t, q, Put(w, t, tx.(stage := Fresh)))
    case ReadReward(_) =>
      if tx.stage != Fresh then w
      else if q.reward !in db.rewards || !Offered(db.rewards[q.reward], q) then End(w, t, Failed)
      else Put(w, t, tx.(stage := Checked(db.rewards[q.reward])))
    case Reserve(_) =>
      if !tx.stage.Checked? then w
      else if tx.stage.rw.stock.Unlimited? then Put(w, t, tx.(stage := Reserved(tx.stage.rw)))
      else if RewardLocked(w, t, q.reward) then w
      else if q.reward !in db.rewards || db.rewards[q.reward].stock.Unlimited? || db.rewards[q.reward].stock.units <= 0 then
        End(w, t, Failed)
      else
        Put(w, t, tx.(stage := Reserved(tx.stage.rw),
                      w := tx.w.(reward := q.reward, units := Some(db.rewards[q.reward].stock.units - 1))))
    case Pay(_) =>
      if !tx.stage.Reserved? then w
      else if UserLocked(w, t, q.user) then w
      else if q.user !in db.users || db.users[q.user].points < tx.stage.rw.cost then End(w, t, Failed)
      else
        Put(w, t, tx.(stage := Paid(tx.stage.rw),
                      w := tx.w.(user := q.user, points := Some(db.users[q.user].points - tx.stage.rw.cost))))
    case DrawCode(_, draws) =>
      if !tx.stage.Paid? then w
      else if tx.stage.rw.cash then Put(w, t, tx.(stage := Coded(tx.stage.rw, NoCode)))
      else if R.FirstFree(db.redemptions, draws).NoCode? then End(w, t, Failed)
      else Put(w, t, tx.(stage := Coded(tx.stage.rw, R.FirstFree(db.redemptions, draws))))
    case Insert(_) =>
      if !tx.stage.Coded? then w
      else
        var row := RowFor(q, tx.stage.rw, tx.stage.code);
        if InsertWaits(w, t, q.id, row) then w
        else if InsertFails(db, q.id, row) then Put(w, t, tx.(stage := Conflicted, w := NoWrites))
        else Put(w, t, tx.(stage := Inserted(tx.stage.rw), w := tx.w.(id := q.id, row := Some(row))))
    case Refetch(_) =>
      if tx.stage != Conflicted then w else Replying(w, t, q, End(w, t, Failed))
    case _ => w
  }

  function JobRow(job: Job): RedemptionId
    requires !job.DoRedeem?
  {
    job.id
  }

  /** The WHERE of the status transition. */
  predicate MayMove(job: Job, s: RedemptionStatus)
    requires !job.DoRedeem?
  {
    if job.DoReject? then R.Unsettled(s) else s == Available
  }

  function Target(job: Job): RedemptionStatus
    requires !job.DoRedeem?
  {
    if job.DoReject? then RedemptionStatus.Rejected
    else if job.DoCancel? then RedemptionStatus.Cancelled
    else Used
  }

  ghost function CloseStatement(w: World, t: TxId, a: Action): World
    requires t in w.txns && !w.txns[t].job.DoRedeem?
  {
    var tx := w.txns[t];
    var id := JobRow(tx.job);
    var db := w.db;
    match a
    case Load(_) =>
      if tx.stage != Start then w
      else if id !in db.redemptions || (tx.job.DoCancel? && db.redemptions[id].user != tx.job.user) then End(w, t, Failed)
      else Put(w, t, tx.(stage := Loaded(db.redemptions[id])))
    case Move(_) =>
      if !tx.stage.Loaded? || RowLocked(w, t, id) then w
      else if id !in db.redemptions || !MayMove(tx.job, db.redemptions[id].status) then End(w, t, Failed)
      else
        Put(w, t, tx.(stage := Moved(tx.stage.seen),
                      w := tx.w.(id := id, row := Some(db.redemptions[id].(status := Target(tx.job))))))
    case GiveBack(_) =>
      if !tx.stage.Moved? || tx.job.DoMarkUsed? || UserLocked(w, t, tx.stage.seen.user) then w
      else if tx.stage.seen.user !in db.users then
        if tx.job.DoReject? then End(w, t, Failed) else Put(w, t, tx.(stage := Refunding(tx.stage.seen)))
      else
        Put(w, t, tx.(stage := Refunding(tx.stage.seen),
                      w := tx.w.(user := tx.stage.seen.user,
                                 points := Some(db.users[tx.stage.seen.user].points + tx.stage.seen.spent))))
    case Restore(_) =>
      if !tx.stage.Refunding? || RewardLocked(w, t, tx.stage.seen.reward) then w
      else if tx.stage.seen.reward !in db.rewards || db.rewards[tx.stage.seen.reward].stock.Unlimited? then
        Put(w, t, tx.(stage := Restored(tx.stage.seen)))
      else
        Put(w, t, tx.(stage := Restored(tx.stage.seen),
                      w := tx.w.(reward := tx.stage.seen.reward,
                                 units := Some(db.rewards[tx.stage.seen.reward].stock.units + 1))))
    case _ => w
  }

  predicate ReadyToCommit(tx: Txn) {
    tx.stage.Inserted? || tx.stage.Restored? || (tx.stage.Moved? && tx.job.DoMarkUsed?)
  }

  /** The service call a committing transaction stands for. */
  function CallOf(tx: Txn): Call {
    match tx.job
    case DoRedeem(q) =>
      Market(Redeem(if tx.w.row.Some? && tx.w.row.value.code.MerchantCode?
                    then q.(draws := [tx.w.row.value.code.code]) else q))
    case DoReject(id) => Market(Reject(id))
    case DoCancel(u, id) => Market(Cancel(u, id))
    case DoMarkUsed(id) => Market(MarkUsed(id))
  }

  /** Installs the remembered rows. */
  function Install(db: Db, w: Writes): Db {
    db.(users := if w.points.Some? && w.user in db.users
                 then db.users[w.user := db.users[w.user].(points := w.points.value)] else db.users,
        rewards := if w.units.Some? && w.reward in db.rewards
                   then db.rewards[w.reward := db.rewards[w.reward].(stock := Limited(w.units.value))] else db.rewards,
        redemptions := if w.row.Some? then db.redemptions[w.id := w.row.value] else db.redemptions)
  }

  /** The committed rows a transaction has locked are the same in both databases. */
  predicate Undisturbed(db: Db, after: Db, w: Writes) {
    && (w.points.Some? && w.user in db.users ==> w.user in after.users && after.users[w.user].points == db.users[w.user].points)
    && (w.row.Some? && w.id in db.redemptions ==> w.id in after.redemptions && after.redemptions[w.id] == db.redemptions[w.id])
  }

  predicate TakesOneStep(call: Call) {
    call.Market? ==> call.call.Approve? || call.call.Fulfill?
  }

  ghost function Do(cfg: Config, w: World, a: Action): World {
    match a
    case Begin(t, job) =>
      if t in w.txns then w else Put(w, t, Txn(job, Start, NoWrites))
    case Commit(t) =>
      if t in w.txns && ReadyToCommit(w.txns[t]) then
        End(w, t, Committed).(db := Install(w.db, w.txns[t].w), log := w.log + [CallOf(w.txns[t])])
      else w
    case Abort(t) =>
      if t in w.txns && !w.txns[t].stage.Ended? then End(w, t, Failed) else w
    case Atomic(call) =>
      if TakesOneStep(call)
         && (forall o :: o in w.txns ==> Undisturbed(w.db, Apply(cfg, w.db, call), w.txns[o].w)) then
        w.(db := Apply(cfg, w.db, call), log := w.log + [call])
      else w
    case _ =>
      if a.t !in w.txns then w
      else if w.txns[a.t].job.DoRedeem? then RedeemStatement(w, a.t, a)
      else CloseStatement(w, a.t, a)
  }

  ghost function Play(cfg: Config, w: World, actions: seq<Action>): World {
    if actions == [] then w
    else Do(cfg, Play(cfg, w, actions[..|actions| - 1]), actions[|actions| - 1])
  }

  // ---- the invariant -------------------------------------------------------

  /** The copy agrees with the committed row on everything but the remaining units. */
  ghost predicate Agrees(db: Db, r: RewardId, rw: Reward) {
    && r in db.rewards
    && rw == db.rewards[r].(stock := rw.stock)
    && (rw.stock.Limited? <==> db.rewards[r].stock.Limited?)
  }

  /** Lock discipline of the stock row: the remembered value is one step from the
      committed one, and present exactly when it has to be. */
  ghost predicate UnitsOk(db: Db, w: Writes, r: RewardId, step: int) {
    r in db.rewards &&
    if db.rewards[r].stock.Limited? then
      w.reward == r && w.units == Some(db.rewards[r].stock.units + step)
    else w.units == None
  }

  ghost predicate PointsOk(db: Db, w: Writes, u: UserId, amount: int) {
    u in db.users && w.user == u && w.points == Some(db.users[u].points + amount)
  }

  ghost predicate RedeemOk(db: Db, tx: Txn)
    requires tx.job.DoRedeem?
  {
    var q := tx.job.q;
    match tx.stage
    case Checked(rw) => Agrees(db, q.reward, rw) && Offered(rw, q) && tx.w == NoWrites
    case Reserved(rw) =>
      && Agrees(db, q.reward, rw) && Offered(rw, q) && UnitsOk(db, tx.w, q.reward, -1)
      && (tx.w.units.Some? ==> tx.w.units.value >= 0) && tx.w.points.None? && tx.w.row.None?
    case Paid(rw) => PaidOk(db, tx, rw) && tx.w.row.None?
    case Coded(rw, code) => PaidOk(db, tx, rw) && tx.w.row.None? && (rw.cash <==> code.NoCode?)
    case Inserted(rw) =>
      && PaidOk(db, tx, rw) && tx.w.id == q.id && tx.w.row.Some?
      && (rw.cash <==> tx.w.row.value.code.NoCode?)
      && tx.w.row.value == RowFor(q, rw, tx.w.row.value.code)
      && !InsertFails(db, q.id, tx.w.row.value)
    case Ended(result) =>
      && tx.w == NoWrites
      && (result.Replied? ==>
            result.existing in db.redemptions && R.HasKey(db.redemptions[result.existing], q.user, q.key))
    case Start => tx.w == NoWrites
    case Fresh => tx.w == NoWrites
    case Conflicted => tx.w == NoWrites
    case _ => false
  }

  ghost predicate PaidOk(db: Db, tx: Txn, rw: Reward)
    requires tx.job.DoRedeem?
  {
    var q := tx.job.q;
    && Agrees(db, q.reward, rw) && Offered(rw, q) && UnitsOk(db, tx.w, q.reward, -1)
    && (tx.w.units.Some? ==> tx.w.units.value >= 0)
    && PointsOk(db, tx.w, q.user, -rw.cost) && tx.w.points.value >= 0
  }

  /** The row copy names the committed row's user, reward and price. */
  ghost predicate SeenOk(db: Db, job: Job, seen: Redemption)
    requires !job.DoRedeem?
  {
    && JobRow(job) in db.redemptions
    && db.redemptions[JobRow(job)] == seen.(status := db.redemptions[JobRow(job)].status)
    && (job.DoCancel? ==> seen.user == job.user)
  }

  ghost predicate MovedOk(db: Db, tx: Txn, seen: Redemption)
    requires !tx.job.DoRedeem?
  {
    var id := JobRow(tx.job);
    && SeenOk(db, tx.job, seen)
    && tx.w.id == id && MayMove(tx.job, db.redemptions[id].status)
    && tx.w.row == Some(db.redemptions[id].(status := Target(tx.job)))
  }

  ghost predicate CloseOk(db: Db, tx: Txn)
    requires !tx.job.DoRedeem?
  {
    match tx.stage
    case Loaded(seen) => SeenOk(db, tx.job, seen) && tx.w == NoWrites
    case Moved(seen) => MovedOk(db, tx, seen) && tx.w.points.None? && tx.w.units.None?
    case Refunding(seen) =>
      MovedOk(db, tx, seen) && PointsOk(db, tx.w, seen.user, seen.spent) && tx.w.units.None? && !tx.job.DoMarkUsed?
    case Restored(seen) =>
      && MovedOk(db, tx, seen) && PointsOk(db, tx.w, seen.user, seen.spent)
      && UnitsOk(db, tx.w, seen.reward, 1) && !tx.job.DoMarkUsed?
    case Ended(result) => tx.w == NoWrites && !result.Replied?
    case Start => tx.w == NoWrites
    case _ => false
  }

  ghost predicate TxnOk(db: Db, tx: Txn) {
    if tx.job.DoRedeem? then RedeemOk(db, tx) else CloseOk(db, tx)
  }

  /** No two transactions hold one row, or insert two rows that clash. */
  predicate Apart(a: Txn, b: Txn) {
    && !(a.w.points.Some? && b.w.points.Some? && a.w.user == b.w.user)
    && !(a.w.units.Some? && b.w.units.Some? && a.w.reward == b.w.reward)
    && !(a.w.row.Some? && b.w.row.Some?
         && (a.w.id == b.w.id || (a.job.DoRedeem? && b.job.DoRedeem? && Clash(a.w.row.value, b.w.row.value))))
  }

  ghost predicate WorldOk(w: World) {
    && Sound(w.db)
    && (forall t :: t in w.txns ==> TxnOk(w.db, w.txns[t]))
    && (forall a, b :: a in w.txns && b in w.txns && a != b ==> Apart(w.txns[a], w.txns[b]))
  }
}
