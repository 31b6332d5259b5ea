/** Every interleaving of the statements is a serial run of the service calls. */
module Serializability {
  import opened Sums
  import opened Schema
  import D = DepositService
  import R = RewardService
  import opened Ledger
  import opened Solvency
  import opened Interleaving

  // ---- one transaction moves -----------------------------------------------

  lemma PutKeeps(w: World, t: TxId, tx: Txn)
    requires WorldOk(w) && TxnOk(w.db, tx)
    requires forall o :: o in w.txns && o != t ==> Apart(tx, w.txns[o])
    ensures WorldOk(Put(w, t, tx))
  {
  }

  lemma EndKeeps(w: World, t: TxId, result: Result)
    requires WorldOk(w) && t in w.txns
    requires result.Replied? ==>
               && w.txns[t].job.DoRedeem? && result.existing in w.db.redemptions
               && R.HasKey(w.db.redemptions[result.existing], w.txns[t].job.q.user, w.txns[t].job.q.key)
    ensures WorldOk(End(w, t, result))
  {
    PutKeeps(w, t, w.txns[t].(stage := Ended(result), w := NoWrites));
  }

  lemma RedeemReadsKeep(w: World, t: TxId, a: Action)
    requires WorldOk(w) && t in w.txns && w.txns[t].job.DoRedeem?
    requires a.Lookup? || a.ReadReward? || a.Refetch?
    ensures WorldOk(RedeemStatement(w, t, a))
  {
    var tx := w.txns[t];
    var q := tx.job.q;
    var existing := R.FindByKey(w.db, q.user, q.key);
    EndKeeps(w, t, Failed);
    if existing.Some? { EndKeeps(w, t, Replied(existing.value)); }
    if a.Lookup? && tx.stage == Start { PutKeeps(w, t, tx.(stage := Fresh)); }
    if a.ReadReward? && tx.stage == Fresh && q.reward in w.db.rewards && Offered(w.db.rewards[q.reward], q) {
      PutKeeps(w, t, tx.(stage := Checked(w.db.rewards[q.reward])));
    }
  }

  lemma ReserveKeeps(w: World, t: TxId)
    requires WorldOk(w) && t in w.txns && w.txns[t].job.DoRedeem?
    ensures WorldOk(RedeemStatement(w, t, Reserve(t)))
  {
    var tx := w.txns[t];
    var after := RedeemStatement(w, t, Reserve(t));
    EndKeeps(w, t, Failed);
    if after != w && after.txns[t].stage.Reserved? {
      PutKeeps(w, t, after.txns[t]);
    }
  }

  lemma PayKeeps(w: World, t: TxId)
    requires WorldOk(w) && t in w.txns && w.txns[t].job.DoRedeem?
    ensures WorldOk(RedeemStatement(w, t, Pay(t)))
  {
    var after := RedeemStatement(w, t, Pay(t));
    EndKeeps(w, t, Failed);
    if after != w && after.txns[t].stage.Paid? {
      PutKeeps(w, t, after.txns[t]);
    }
  }

  lemma DrawKeeps(w: World, t: TxId, draws: seq<Code>)
    requires WorldOk(w) && t in w.txns && w.txns[t].job.DoRedeem?
    ensures WorldOk(RedeemStatement(w, t, DrawCode(t, draws)))
  {
    var after := RedeemStatement(w, t, DrawCode(t, draws));
    EndKeeps(w, t, Failed);
    if after != w && after.txns[t].stage.Coded? {
      PutKeeps(w, t, after.txns[t]);
    }
  }

  lemma InsertKeeps(w: World, t: TxId)
    requires WorldOk(w) && t in w.txns && w.txns[t].job.DoRedeem?
    ensures WorldOk(RedeemStatement(w, t, Insert(t)))
  {
    var after := RedeemStatement(w, t, Insert(t));
    if after != w {
      PutKeeps(w, t, after.txns[t]);
    }
  }

  lemma LoadKeeps(w: World, t: TxId)
    requires WorldOk(w) && t in w.txns && !w.txns[t].job.DoRedeem?
    ensures WorldOk(CloseStatement(w, t, Load(t)))
  {
    var after := CloseStatement(w, t, Load(t));
    EndKeeps(w, t, Failed);
    if after != w && after.txns[t].stage.Loaded? {
      PutKeeps(w, t, after.txns[t]);
    }
  }

  lemma MoveKeeps(w: World, t: TxId)
    requires WorldOk(w) && t in w.txns && !w.txns[t].job.DoRedeem?
    ensures WorldOk(CloseStatement(w, t, Move(t)))
  {
    var after := CloseStatement(w, t, Move(t));
    EndKeeps(w, t, Failed);
    if after != w && after.txns[t].stage.Moved? {
      PutKeeps(w, t, after.txns[t]);
    }
  }

  lemma GiveBackKeeps(w: World, t: TxId)
    requires WorldOk(w) && t in w.txns && !w.txns[t].job.DoRedeem?
    ensures WorldOk(CloseStatement(w, t, GiveBack(t)))
  {
    var after := CloseStatement(w, t, GiveBack(t));
    if after != w {
      assert SeenOk(w.db, w.txns[t].job, w.txns[t].stage.seen);
      PutKeeps(w, t, after.txns[t]);
    }
  }

  lemma RestoreKeeps(w: World, t: TxId)
    requires WorldOk(w) && t in w.txns && !w.txns[t].job.DoRedeem?
    ensures WorldOk(CloseStatement(w, t, Restore(t)))
  {
    var after := CloseStatement(w, t, Restore(t));
    if after != w {
      assert SeenOk(w.db, w.txns[t].job, w.txns[t].stage.seen);
      PutKeeps(w, t, after.txns[t]);
    }
  }

  // ---- a commit is a service call ------------------------------------------

  /** At its COMMIT a redemption does to the committed tables exactly what the
      service call would do to them at that moment. */
  lemma RedeemCommitIsCall(w: World, t: TxId)
    requires WorldOk(w) && t in w.txns && w.txns[t].job.DoRedeem? && w.txns[t].stage.Inserted?
    ensures Install(w.db, w.txns[t].w) == ApplyMarket(w.db, CallOf(w.txns[t]).call)
  {
    var tx := w.txns[t];
    var db := w.db;
    var row := tx.w.row.value;
    var q := CallOf(tx).call.request;
    assert forall i :: i in db.redemptions ==> !Clash(db.redemptions[i], row);
    assert R.FindByKey(db, q.user, q.key).None?;
    assert R.Refusal(db, q).None?;
    assert R.NewRow(db, q) == row;
    assert Install(db, tx.w).users == R.Grant(db, q).users;
    assert Install(db, tx.w).rewards == R.Grant(db, q).rewards;
  }

  lemma CloseCommitIsCall(w: World, t: TxId)
    requires WorldOk(w) && t in w.txns && !w.txns[t].job.DoRedeem? && ReadyToCommit(w.txns[t])
    ensures Install(w.db, w.txns[t].w) == ApplyMarket(w.db, CallOf(w.txns[t]).call)
  {
    var tx := w.txns[t];
    var db := w.db;
    var id := JobRow(tx.job);
    if tx.job.DoMarkUsed? {
      assert R.MarkUsedReply(db, id).Done?;
    } else {
      assert Install(db, tx.w).users == R.Refund(db, id, Target(tx.job)).users;
      assert Install(db, tx.w).rewards == R.Refund(db, id, Target(tx.job)).rewards;
    }
  }

  /** A committed redemption leaves every other transaction's locks and reads valid. */
  lemma RedeemCommitSparesOther(db: Db, tx: Txn, o: Txn)
    requires Sound(db) && TxnOk(db, tx) && TxnOk(db, o) && Apart(tx, o)
    requires tx.job.DoRedeem? && tx.stage.Inserted? && o.job.DoRedeem?
    ensures TxnOk(Install(db, tx.w), o)
  {
    var after := Install(db, tx.w);
    assert forall u :: u in db.users ==> u in after.users;
    if o.stage.Inserted? {
      forall i | i in after.redemptions ensures !Clash(after.redemptions[i], o.w.row.value) {
        if i != tx.w.id { assert i in db.redemptions; }
      }
    }
  }

  lemma RedeemCommitSparesClose(db: Db, tx: Txn, o: Txn)
    requires Sound(db) && TxnOk(db, tx) && TxnOk(db, o) && Apart(tx, o)
    requires tx.job.DoRedeem? && tx.stage.Inserted? && !o.job.DoRedeem?
    ensures TxnOk(Install(db, tx.w), o)
  {
  }

  lemma CloseCommitSparesRedeem(db: Db, tx: Txn, o: Txn)
    requires Sound(db) && TxnOk(db, tx) && TxnOk(db, o) && Apart(tx, o)
    requires !tx.job.DoRedeem? && ReadyToCommit(tx) && o.job.DoRedeem?
    ensures TxnOk(Install(db, tx.w), o)
  {
    if o.stage.Inserted? {
      StillFits(db, tx, o.w.id, o.w.row.value);
    }
  }

  /** Closing a redemption keeps its UNIQUE columns, so what fitted in still does. */
  lemma StillFits(db: Db, tx: Txn, id: RedemptionId, row: Redemption)
    requires TxnOk(db, tx) && !tx.job.DoRedeem? && ReadyToCommit(tx) && !InsertFails(db, id, row)
    ensures !InsertFails(Install(db, tx.w), id, row)
  {
    var after := Install(db, tx.w);
    assert after.redemptions.Keys == db.redemptions.Keys;
    forall i | i in after.redemptions ensures !Clash(after.redemptions[i], row) {
      assert i in db.redemptions && !Clash(db.redemptions[i], row);
    }
  }

  lemma CloseCommitSparesClose(db: Db, tx: Txn, o: Txn)
    requires Sound(db) && TxnOk(db, tx) && TxnOk(db, o) && Apart(tx, o)
    requires !tx.job.DoRedeem? && ReadyToCommit(tx) && !o.job.DoRedeem?
    ensures TxnOk(Install(db, tx.w), o)
  {
  }

  lemma CommitSpares(db: Db, tx: Txn, o: Txn)
    requires Sound(db) && TxnOk(db, tx) && TxnOk(db, o) && Apart(tx, o) && ReadyToCommit(tx)
    ensures TxnOk(Install(db, tx.w), o)
  {
    if tx.job.DoRedeem? {
      if o.job.DoRedeem? { RedeemCommitSparesOther(db, tx, o); } else { RedeemCommitSparesClose(db, tx, o); }
    } else {
      if o.job.DoRedeem? { CloseCommitSparesRedeem(db, tx, o); } else { CloseCommitSparesClose(db, tx, o); }
    }
  }

  /** What a COMMIT installs is what the service call does. */
  lemma CommitIsCall(w: World, t: TxId)
    requires WorldOk(w) && t in w.txns && ReadyToCommit(w.txns[t])
    ensures CallOf(w.txns[t]).Market?
    ensures Install(w.db, w.txns[t].w) == ApplyMarket(w.db, CallOf(w.txns[t]).call)
    ensures Sound(Install(w.db, w.txns[t].w))
  {
    if w.txns[t].job.DoRedeem? { RedeemCommitIsCall(w, t); } else { CloseCommitIsCall(w, t); }
    MarketSound(w.db, CallOf(w.txns[t]).call);
  }

  lemma CommitKeeps(cfg: Config, w: World, t: TxId)
    requires WorldOk(w) && t in w.txns && ReadyToCommit(w.txns[t])
    ensures WorldOk(Do(cfg, w, Commit(t)))
  {
    CommitIsCall(w, t);
    InstallKeeps(w, t);
  }

  lemma CommitApplies(cfg: Config, w: World, t: TxId)
    requires WorldOk(w) && t in w.txns && ReadyToCommit(w.txns[t])
    ensures Do(cfg, w, Commit(t)).db == Apply(cfg, w.db, CallOf(w.txns[t]))
  {
    CommitIsCall(w, t);
  }

  lemma InstallKeeps(w: World, t: TxId)
    requires WorldOk(w) && t in w.txns && ReadyToCommit(w.txns[t]) && Sound(Install(w.db, w.txns[t].w))
    ensures WorldOk(End(w, t, Committed).(db := Install(w.db, w.txns[t].w)))
  {
    CommitSparesAll(w, t);
    EndKeeps(w, t, Committed);
    var after := End(w, t, Committed);
    forall o | o in after.txns ensures TxnOk(Install(w.db, w.txns[t].w), after.txns[o]) {
      if o == t { assert after.txns[t].w == NoWrites; }
    }
  }

  lemma CommitSparesAll(w: World, t: TxId)
    requires WorldOk(w) && t in w.txns && ReadyToCommit(w.txns[t])
    ensures forall o :: o in w.txns && o != t ==> TxnOk(Install(w.db, w.txns[t].w), w.txns[o])
  {
    forall o | o in w.txns && o != t ensures TxnOk(Install(w.db, w.txns[t].w), w.txns[o]) {
      CommitSpares(w.db, w.txns[t], w.txns[o]);
    }
  }

  // ---- calls that take one step --------------------------------------------

  lemma AtomicSparesRedeem(cfg: Config, db: Db, call: Call, o: Txn)
    requires Sound(db) && TxnOk(db, o) && o.job.DoRedeem? && TakesOneStep(call)
    requires Undisturbed(db, Apply(cfg, db, call), o.w)
    requires forall u :: u in db.users ==> u in Apply(cfg, db, call).users
    ensures TxnOk(Apply(cfg, db, call), o)
  {
    var after := Apply(cfg, db, call);
    StepKeepsCatalog(cfg, db, call);
    if o.stage.Inserted? {
      forall i | i in after.redemptions ensures !Clash(after.redemptions[i], o.w.row.value) {
        assert !Clash(db.redemptions[i], o.w.row.value);
      }
    }
  }

  lemma AtomicSparesClose(cfg: Config, db: Db, call: Call, o: Txn)
    requires Sound(db) && TxnOk(db, o) && !o.job.DoRedeem? && TakesOneStep(call)
    requires Undisturbed(db, Apply(cfg, db, call), o.w)
    requires forall u :: u in db.users ==> u in Apply(cfg, db, call).users
    ensures TxnOk(Apply(cfg, db, call), o)
  {
    StepKeepsCatalog(cfg, db, call);
  }

  ghost predicate SameCatalog(db: Db, after: Db) {
    && after.rewards == db.rewards
    && after.redemptions.Keys == db.redemptions.Keys
    && forall i :: i in db.redemptions ==>
         after.redemptions[i] == db.redemptions[i].(status := after.redemptions[i].status)
  }

  lemma StatusKeepsCatalog(db: Db, id: RedemptionId, s: RedemptionStatus)
    requires id in db.redemptions
    ensures SameCatalog(db, db.(redemptions := R.SetStatus(db.redemptions, id, s)))
  {
  }

  /** A call that takes one step leaves the rewards alone and adds no redemption;
      it rewrites the status of a redemption at most. */
  lemma StepKeepsCatalog(cfg: Config, db: Db, call: Call)
    requires TakesOneStep(call)
    ensures SameCatalog(db, Apply(cfg, db, call))
  {
    if !call.Market? {
      assert SameMarket(db, Apply(cfg, db, call));
    } else if call.call.Approve? {
      if R.ApproveReply(db, call.call.id).Done? { StatusKeepsCatalog(db, call.call.id, Approved); }
    } else {
      if R.FulfillReply(db, call.call.id).Done? { StatusKeepsCatalog(db, call.call.id, Fulfilled); }
    }
  }

  lemma AtomicKeeps(cfg: Config, w: World, call: Call)
    requires WorldOk(w)
    ensures WorldOk(Do(cfg, w, Atomic(call)))
  {
    var after := Do(cfg, w, Atomic(call));
    if after != w {
      StepSound(cfg, w.db, call);
      forall u | u in w.db.users ensures u in after.db.users { StepConserves(cfg, w.db, call, u); }
      forall o | o in after.txns ensures TxnOk(after.db, after.txns[o]) {
        if w.txns[o].job.DoRedeem? { AtomicSparesRedeem(cfg, w.db, call, w.txns[o]); }
        else { AtomicSparesClose(cfg, w.db, call, w.txns[o]); }
      }
    }
  }

  // ---- whole runs ----------------------------------------------------------

  lemma RedeemStatementKeeps(w: World, t: TxId, a: Action)
    requires WorldOk(w) && t in w.txns && w.txns[t].job.DoRedeem? && !a.Atomic? && a.t == t
    ensures WorldOk(RedeemStatement(w, t, a))
  {
    match a
    case Lookup(_) => RedeemReadsKeep(w, t, a);
    case ReadReward(_) => RedeemReadsKeep(w, t, a);
    case Refetch(_) => RedeemReadsKeep(w, t, a);
    case Reserve(_) => ReserveKeeps(w, t);
    case Pay(_) => PayKeeps(w, t);
    case DrawCode(_, draws) => DrawKeeps(w, t, draws);
    case Insert(_) => InsertKeeps(w, t);
    case _ =>
  }

  lemma CloseStatementKeeps(w: World, t: TxId, a: Action)
    requires WorldOk(w) && t in w.txns && !w.txns[t].job.DoRedeem? && !a.Atomic? && a.t == t
    ensures WorldOk(CloseStatement(w, t, a))
  {
    match a
    case Load(_) => LoadKeeps(w, t);
    case Move(_) => MoveKeeps(w, t);
    case GiveBack(_) => GiveBackKeeps(w, t);
    case Restore(_) => RestoreKeeps(w, t);
    case _ =>
  }

  /** A statement that is not a COMMIT leaves the committed tables and the log alone. */
  lemma StatementsAreInvisible(cfg: Config, w: World, a: Action)
    requires !a.Commit? && !a.Atomic?
    ensures Do(cfg, w, a).db == w.db && Do(cfg, w, a).log == w.log
  {
  }

  lemma ActionKeepsInvariant(cfg: Config, w: World, a: Action)
    requires WorldOk(w)
    ensures WorldOk(Do(cfg, w, a))
  {
    match a
    case Begin(t, job) => if t !in w.txns { PutKeeps(w, t, Txn(job, Start, NoWrites)); }
    case Commit(t) => if t in w.txns && ReadyToCommit(w.txns[t]) { CommitKeeps(cfg, w, t); }
    case Abort(t) => if t in w.txns { EndKeeps(w, t, Failed); }
    case Atomic(call) => AtomicKeeps(cfg, w, call);
    case _ =>
      if a.t in w.txns {
        if w.txns[a.t].job.DoRedeem? { RedeemStatementKeeps(w, a.t, a); } else { CloseStatementKeeps(w, a.t, a); }
      }
  }

  /** One action keeps the invariant, and changes the committed tables only by the
      call it appends to the log. */
  lemma ActionKeeps(cfg: Config, w: World, a: Action)
    requires WorldOk(w)
    ensures WorldOk(Do(cfg, w, a))
    ensures var after := Do(cfg, w, a);
            || (after.db == w.db && after.log == w.log)
            || exists call :: after.log == w.log + [call] && after.db == Apply(cfg, w.db, call)
  {
    ActionKeepsInvariant(cfg, w, a);
    if a.Commit? {
      if a.t in w.txns && ReadyToCommit(w.txns[a.t]) { CommitApplies(cfg, w, a.t); }
    } else if !a.Atomic? {
      StatementsAreInvisible(cfg, w, a);
    }
  }

  /** Serializability: whatever the interleaving, the committed tables are those of
      the serial run of the committed calls, in commit order. */
  lemma {:induction false} Serializable(cfg: Config, db: Db, actions: seq<Action>)
    requires Sound(db)
    ensures var w := Play(cfg, World(db, map[], []), actions);
            WorldOk(w) && w.db == Run(cfg, db, w.log)
  {
    if actions != [] {
      var before := Play(cfg, World(db, map[], []), actions[..|actions| - 1]);
      Serializable(cfg, db, actions[..|actions| - 1]);
      ActionKeeps(cfg, before, actions[|actions| - 1]);
      var w := Play(cfg, World(db, map[], []), actions);
      if w.log != before.log {
        assert w.log[..|w.log| - 1] == before.log;
      }
    }
  }

  /** The reward market under any interleaving: nothing is overdrawn or oversold, the
      UNIQUE columns hold, each balance and each shelf matches the redemptions that
      stand, and each redemption is refunded at most once. */
  lemma MarketSafe(cfg: Config, db: Db, actions: seq<Action>, u: UserId, r: RewardId, id: RedemptionId)
    requires Sound(db) && u in db.users && r in db.rewards
    ensures var w := Play(cfg, World(db, map[], []), actions);
            && Sound(w.db)
            && u in w.db.users && r in w.db.rewards
            && w.db.users[u].points == Opening(db, u) + Sum(w.db.events, AwardsOf(u))
                 + Sum(w.db.completions, BonusesOf(u)) - Sum(w.db.redemptions, SpentBy(u))
            && Shelf(w.db, r) == Shelf(db, r)
            && RefundCount(cfg, db, w.log, id) == (if !IsRefunded(db, id) && IsRefunded(w.db, id) then 1 else 0)
  {
    Serializable(cfg, db, actions);
    var w := Play(cfg, World(db, map[], []), actions);
    PointsConserved(cfg, db, w.log, u);
    StockConserved(cfg, db, w.log, r);
    RefundedAtMostOnce(cfg, db, w.log, id);
  }

  // ---- failed transactions -------------------------------------------------

  ghost predicate IsOver(w: World, t: TxId, result: Result) {
    t in w.txns && w.txns[t].stage == Ended(result)
  }

  /** A transaction that is over takes no further step. */
  lemma OverIsAbsorbing(cfg: Config, w: World, a: Action, t: TxId, result: Result)
    requires WorldOk(w) && IsOver(w, t, result)
    ensures IsOver(Do(cfg, w, a), t, result)
    ensures !a.Atomic? && a.t == t ==> Do(cfg, w, a) == w
  {
    if !a.Atomic? && a.t in w.txns {
      if a.t == t { OverTakesNoStatement(w, t, a, result); } else { StatementSparesOthers(w, a.t, a, t); }
    }
  }

  lemma OverTakesNoStatement(w: World, t: TxId, a: Action, result: Result)
    requires IsOver(w, t, result)
    ensures w.txns[t].job.DoRedeem? ==> RedeemStatement(w, t, a) == w
    ensures !w.txns[t].job.DoRedeem? ==> CloseStatement(w, t, a) == w
  {
  }

  lemma StatementSparesOthers(w: World, t: TxId, a: Action, o: TxId)
    requires t in w.txns && o in w.txns && o != t
    ensures w.txns[t].job.DoRedeem? ==>
              o in RedeemStatement(w, t, a).txns && RedeemStatement(w, t, a).txns[o] == w.txns[o]
    ensures !w.txns[t].job.DoRedeem? ==>
              o in CloseStatement(w, t, a).txns && CloseStatement(w, t, a).txns[o] == w.txns[o]
  {
  }

  predicate TakenBy(a: Action, t: TxId) {
    !a.Atomic? && a.t == t
  }

  /** A transaction changes the committed tables only by committing. */
  lemma OnlyCommitWrites(cfg: Config, w: World, a: Action, t: TxId)
    requires WorldOk(w) && TakenBy(a, t)
    ensures Do(cfg, w, a).db == w.db || IsOver(Do(cfg, w, a), t, Committed)
  {
    if !a.Commit? {
      StatementsAreInvisible(cfg, w, a);
    }
  }

  lemma {:induction false} OverStays(cfg: Config, db: Db, actions: seq<Action>, k: nat, t: TxId, result: Result)
    requires Sound(db) && k <= |actions|
    requires IsOver(Play(cfg, World(db, map[], []), actions[..k]), t, result)
    ensures IsOver(Play(cfg, World(db, map[], []), actions), t, result)
  {
    if k == |actions| {
      assert actions[..k] == actions;
    } else {
      var rest := actions[..|actions| - 1];
      assert rest[..k] == actions[..k];
      OverStays(cfg, db, rest, k, t, result);
      Serializable(cfg, db, rest);
      OverIsAbsorbing(cfg, Play(cfg, World(db, map[], []), rest), actions[|actions| - 1], t, result);
    }
  }

  /** No trace: a transaction that ends a run without having committed, whether it
      failed, was aborted or answered with an earlier redemption, never changed the
      committed tables at any of its statements. */
  lemma FailedLeavesNoTrace(cfg: Config, db: Db, actions: seq<Action>, t: TxId, k: nat)
    requires Sound(db) && k < |actions| && TakenBy(actions[k], t)
    requires !IsOver(Play(cfg, World(db, map[], []), actions), t, Committed)
    ensures Play(cfg, World(db, map[], []), actions[..k + 1]).db == Play(cfg, World(db, map[], []), actions[..k]).db
  {
    Serializable(cfg, db, actions[..k]);
    PlayNext(cfg, World(db, map[], []), actions, k);
    OnlyCommitWrites(cfg, Play(cfg, World(db, map[], []), actions[..k]), actions[k], t);
    if IsOver(Play(cfg, World(db, map[], []), actions[..k + 1]), t, Committed) {
      OverStays(cfg, db, actions, k + 1, t, Committed);
    }
  }

  lemma PlayNext(cfg: Config, w: World, actions: seq<Action>, k: nat)
    requires k < |actions|
    ensures Play(cfg, w, actions[..k + 1]) == Do(cfg, Play(cfg, w, actions[..k]), actions[k])
  {
    assert actions[..k + 1][..k] == actions[..k];
  }

  /** Retries: a request answered without committing names a committed redemption of
      the same user with the same key, and there is no other one. */
  lemma RetryFindsOriginal(cfg: Config, db: Db, actions: seq<Action>, t: TxId, id: RedemptionId, other: RedemptionId)
    requires Sound(db)
    requires IsOver(Play(cfg, World(db, map[], []), actions), t, Replied(id))
    ensures var w := Play(cfg, World(db, map[], []), actions);
            && w.txns[t].job.DoRedeem?
            && id in w.db.redemptions
            && R.HasKey(w.db.redemptions[id], w.txns[t].job.q.user, w.txns[t].job.q.key)
            && (R.FindByKey(w.db, w.txns[t].job.q.user, w.txns[t].job.q.key) == Some(id))
            && (other in w.db.redemptions && R.HasKey(w.db.redemptions[other], w.txns[t].job.q.user, w.txns[t].job.q.key) ==>
                  other == id)
  {
    Serializable(cfg, db, actions);
    ReplyNamesOriginal(Play(cfg, World(db, map[], []), actions), t, id, other);
  }

  lemma ReplyNamesOriginal(w: World, t: TxId, id: RedemptionId, other: RedemptionId)
    requires WorldOk(w) && IsOver(w, t, Replied(id))
    ensures w.txns[t].job.DoRedeem? && id in w.db.redemptions
    ensures var q := w.txns[t].job.q;
            && R.HasKey(w.db.redemptions[id], q.user, q.key) && R.FindByKey(w.db, q.user, q.key) == Some(id)
            && (other in w.db.redemptions && R.HasKey(w.db.redemptions[other], q.user, q.key) ==> other == id)
  {
    assert TxnOk(w.db, w.txns[t]);
  }
}
