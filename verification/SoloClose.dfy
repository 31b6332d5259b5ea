/** A reject, cancel or mark-used transaction that meets no other: statement by
    statement it comes to exactly what the service call does. */
module SoloClose {
  import opened Sums
  import opened Schema
  import R = RewardService
  import opened Ledger
  import opened Interleaving
  import SoloRedeem

  /** The only transaction, at some stage. */
  function At(db: Db, log: seq<Call>, t: TxId, job: Job, stage: Stage, w: Writes): World {
    World(db, map[t := Txn(job, stage, w)], log)
  }

  function Statements(t: TxId): seq<Action> {
    [Load(t), Move(t), GiveBack(t), Restore(t), Commit(t)]
  }

  lemma {:induction false} OverPlays(cfg: Config, db: Db, log: seq<Call>, t: TxId, job: Job, result: Result,
                                     actions: seq<Action>)
    requires SoloRedeem.TakenByOne(actions, t)
    ensures Play(cfg, At(db, log, t, job, Ended(result), NoWrites), actions)
         == At(db, log, t, job, Ended(result), NoWrites)
  {
    if actions != [] {
      OverPlays(cfg, db, log, t, job, result, actions[..|actions| - 1]);
    }
  }

  /** The service call of a job, and its answer. */
  function CallFor(job: Job): MarketCall
    requires !job.DoRedeem?
  {
    match job
    case DoReject(id) => Reject(id)
    case DoCancel(u, id) => Cancel(u, id)
    case DoMarkUsed(id) => MarkUsed(id)
  }

  function ReplyFor(db: Db, job: Job): R.Reply
    requires !job.DoRedeem?
  {
    match job
    case DoReject(id) => R.RejectReply(db, id)
    case DoCancel(u, id) => R.CancelReply(db, u, id)
    case DoMarkUsed(id) => R.MarkUsedReply(db, id)
  }

  ghost predicate EndsAsCall(db: Db, t: TxId, job: Job, w: World)
    requires !job.DoRedeem?
  {
    && w.db == ApplyMarket(db, CallFor(job))
    && w.txns == map[t := Txn(job, Ended(if ReplyFor(db, job).Done? then Committed else Failed), NoWrites)]
  }

  /** Alone, the statements of a rejection, a cancellation or a use leave the tables as
      the call does, done or refused, and end accordingly. */
  lemma CloseAlone(cfg: Config, db: Db, log: seq<Call>, t: TxId, job: Job)
    requires !job.DoRedeem?
    ensures EndsAsCall(db, t, job, Play(cfg, World(db, map[], log), [Begin(t, job)] + Statements(t)))
  {
    SoloRedeem.PlayFirst(cfg, World(db, map[], log), Begin(t, job), Statements(t));
    FromLoad(cfg, db, log, t, job);
  }

  /** A transaction that stops leaves nothing, as a call that is refused. */
  lemma Stops(cfg: Config, db: Db, log: seq<Call>, t: TxId, job: Job, rest: seq<Action>)
    requires !job.DoRedeem? && !ReplyFor(db, job).Done? && SoloRedeem.TakenByOne(rest, t)
    ensures EndsAsCall(db, t, job, Play(cfg, At(db, log, t, job, Ended(Failed), NoWrites), rest))
  {
    OverPlays(cfg, db, log, t, job, Failed, rest);
  }

  predicate Found(db: Db, job: Job)
    requires !job.DoRedeem?
  {
    JobRow(job) in db.redemptions && (job.DoCancel? ==> db.redemptions[JobRow(job)].user == job.user)
  }

  lemma LoadStep(cfg: Config, db: Db, log: seq<Call>, t: TxId, job: Job)
    requires !job.DoRedeem?
    ensures Do(cfg, At(db, log, t, job, Start, NoWrites), Load(t)) ==
            if Found(db, job) then At(db, log, t, job, Loaded(db.redemptions[JobRow(job)]), NoWrites)
            else At(db, log, t, job, Ended(Failed), NoWrites)
  {
  }

  lemma FromLoad(cfg: Config, db: Db, log: seq<Call>, t: TxId, job: Job)
    requires !job.DoRedeem?
    ensures EndsAsCall(db, t, job, Play(cfg, At(db, log, t, job, Start, NoWrites), Statements(t)))
  {
    var w, rest := At(db, log, t, job, Start, NoWrites), Statements(t)[1..];
    assert Statements(t) == [Load(t)] + rest;
    SoloRedeem.PlayFirst(cfg, w, Load(t), rest);
    LoadStep(cfg, db, log, t, job);
    if Found(db, job) {
      FromMove(cfg, db, log, t, job);
    } else {
      Stops(cfg, db, log, t, job, rest);
    }
  }

  predicate Movable(db: Db, job: Job)
    requires !job.DoRedeem?
  {
    Found(db, job) && MayMove(job, db.redemptions[JobRow(job)].status)
  }

  /** The rows held after the status transition, the refund and the returned unit. */
  function RowHeld(db: Db, job: Job): Writes
    requires !job.DoRedeem? && Found(db, job)
  {
    NoWrites.(id := JobRow(job), row := Some(db.redemptions[JobRow(job)].(status := Target(job))))
  }

  function PointsHeld(db: Db, job: Job): Writes
    requires !job.DoRedeem? && Found(db, job)
  {
    var rd := db.redemptions[JobRow(job)];
    if rd.user in db.users then
      RowHeld(db, job).(user := rd.user, points := Some(db.users[rd.user].points + rd.spent))
    else RowHeld(db, job)
  }

  function AllHeld(db: Db, job: Job): Writes
    requires !job.DoRedeem? && Found(db, job)
  {
    var r := db.redemptions[JobRow(job)].reward;
    if r in db.rewards && db.rewards[r].stock.Limited? then
      PointsHeld(db, job).(reward := r, units := Some(db.rewards[r].stock.units + 1))
    else PointsHeld(db, job)
  }

  lemma FromMove(cfg: Config, db: Db, log: seq<Call>, t: TxId, job: Job)
    requires !job.DoRedeem? && Found(db, job)
    ensures var seen := db.redemptions[JobRow(job)];
            EndsAsCall(db, t, job, Play(cfg, At(db, log, t, job, Loaded(seen), NoWrites), Statements(t)[1..]))
  {
    var seen := db.redemptions[JobRow(job)];
    var w, rest := At(db, log, t, job, Loaded(seen), NoWrites), Statements(t)[2..];
    assert Statements(t)[1..] == [Move(t)] + rest;
    SoloRedeem.PlayFirst(cfg, w, Move(t), rest);
    assert !RowLocked(w, t, JobRow(job));
    if Movable(db, job) {
      assert Do(cfg, w, Move(t)) == At(db, log, t, job, Moved(seen), RowHeld(db, job));
      FromGiveBack(cfg, db, log, t, job);
    } else {
      assert Do(cfg, w, Move(t)) == At(db, log, t, job, Ended(Failed), NoWrites);
      Stops(cfg, db, log, t, job, rest);
    }
  }

  lemma GiveBackStep(cfg: Config, db: Db, log: seq<Call>, t: TxId, job: Job)
    requires !job.DoRedeem? && Movable(db, job)
    ensures var seen := db.redemptions[JobRow(job)];
            Do(cfg, At(db, log, t, job, Moved(seen), RowHeld(db, job)), GiveBack(t)) ==
            if job.DoMarkUsed? then At(db, log, t, job, Moved(seen), RowHeld(db, job))
            else if job.DoReject? && seen.user !in db.users then At(db, log, t, job, Ended(Failed), NoWrites)
            else At(db, log, t, job, Refunding(seen), PointsHeld(db, job))
  {
    var seen := db.redemptions[JobRow(job)];
    assert !UserLocked(At(db, log, t, job, Moved(seen), RowHeld(db, job)), t, seen.user);
  }

  lemma FromGiveBack(cfg: Config, db: Db, log: seq<Call>, t: TxId, job: Job)
    requires !job.DoRedeem? && Movable(db, job)
    ensures var seen := db.redemptions[JobRow(job)];
            EndsAsCall(db, t, job, Play(cfg, At(db, log, t, job, Moved(seen), RowHeld(db, job)), Statements(t)[2..]))
  {
    var seen := db.redemptions[JobRow(job)];
    var w, rest := At(db, log, t, job, Moved(seen), RowHeld(db, job)), Statements(t)[3..];
    assert Statements(t)[2..] == [GiveBack(t)] + rest;
    SoloRedeem.PlayFirst(cfg, w, GiveBack(t), rest);
    GiveBackStep(cfg, db, log, t, job);
    if job.DoMarkUsed? {
      MarksUsed(cfg, db, log, t, job);
    } else if job.DoReject? && seen.user !in db.users {
      Stops(cfg, db, log, t, job, rest);
    } else {
      FromRestore(cfg, db, log, t, job);
    }
  }

  /** What is ready to commit installs its rows. */
  lemma Commits(cfg: Config, db: Db, log: seq<Call>, t: TxId, job: Job, stage: Stage, held: Writes)
    requires !job.DoRedeem? && ReadyToCommit(Txn(job, stage, held)) && ReplyFor(db, job).Done?
    requires Install(db, held) == ApplyMarket(db, CallFor(job))
    ensures EndsAsCall(db, t, job, Play(cfg, At(db, log, t, job, stage, held), [Commit(t)]))
  {
    var w := At(db, log, t, job, stage, held);
    assert [Commit(t)][..0] == [];
    assert Play(cfg, w, [Commit(t)]) == Do(cfg, w, Commit(t));
  }

  lemma MarksUsed(cfg: Config, db: Db, log: seq<Call>, t: TxId, job: Job)
    requires job.DoMarkUsed? && Movable(db, job)
    ensures var seen := db.redemptions[JobRow(job)];
            EndsAsCall(db, t, job, Play(cfg, At(db, log, t, job, Moved(seen), RowHeld(db, job)), Statements(t)[3..]))
  {
    var seen := db.redemptions[JobRow(job)];
    var w := At(db, log, t, job, Moved(seen), RowHeld(db, job));
    assert Statements(t)[3..] == [Restore(t)] + [Commit(t)];
    SoloRedeem.PlayFirst(cfg, w, Restore(t), [Commit(t)]);
    NothingToRestore(cfg, db, log, t, job);
    Uses(db, job);
    Commits(cfg, db, log, t, job, Moved(seen), RowHeld(db, job));
  }

  lemma NothingToRestore(cfg: Config, db: Db, log: seq<Call>, t: TxId, job: Job)
    requires job.DoMarkUsed? && Movable(db, job)
    ensures var w := At(db, log, t, job, Moved(db.redemptions[JobRow(job)]), RowHeld(db, job));
            Do(cfg, w, Restore(t)) == w
  {
  }

  lemma Uses(db: Db, job: Job)
    requires job.DoMarkUsed? && Movable(db, job)
    ensures Install(db, RowHeld(db, job)) == ApplyMarket(db, CallFor(job))
  {
  }

  lemma RestoreStep(cfg: Config, db: Db, log: seq<Call>, t: TxId, job: Job)
    requires !job.DoRedeem? && !job.DoMarkUsed? && Movable(db, job)
    ensures var seen := db.redemptions[JobRow(job)];
            Do(cfg, At(db, log, t, job, Refunding(seen), PointsHeld(db, job)), Restore(t)) ==
            At(db, log, t, job, Restored(seen), AllHeld(db, job))
  {
    var seen := db.redemptions[JobRow(job)];
    assert !RewardLocked(At(db, log, t, job, Refunding(seen), PointsHeld(db, job)), t, seen.reward);
  }

  lemma FromRestore(cfg: Config, db: Db, log: seq<Call>, t: TxId, job: Job)
    requires !job.DoRedeem? && !job.DoMarkUsed? && Movable(db, job) && ReplyFor(db, job).Done?
    ensures var w := At(db, log, t, job, Refunding(db.redemptions[JobRow(job)]), PointsHeld(db, job));
            EndsAsCall(db, t, job, Play(cfg, w, Statements(t)[3..]))
  {
    var seen := db.redemptions[JobRow(job)];
    assert Statements(t)[3..] == [Restore(t)] + [Commit(t)];
    SoloRedeem.PlayFirst(cfg, At(db, log, t, job, Refunding(seen), PointsHeld(db, job)), Restore(t), [Commit(t)]);
    RestoreStep(cfg, db, log, t, job);
    Refunds(db, job);
    Commits(cfg, db, log, t, job, Restored(seen), AllHeld(db, job));
  }

  /** What the remembered rows install is what the call refunds. */
  lemma Refunds(db: Db, job: Job)
    requires !job.DoRedeem? && !job.DoMarkUsed? && Movable(db, job) && ReplyFor(db, job).Done?
    ensures Install(db, AllHeld(db, job)) == ApplyMarket(db, CallFor(job))
  {
    var after, call := Install(db, AllHeld(db, job)), ApplyMarket(db, CallFor(job));
    assert after.users == call.users && after.rewards == call.rewards && after.redemptions == call.redemptions;
  }
}
