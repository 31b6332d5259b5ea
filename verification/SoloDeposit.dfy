/** deposit_result transactions run to their end while no other one has rows pending:
    alone, the statements come to what the service call does; two that had read
    before either wrote keep one award, and a payment made after the read is undone. */
module SoloDeposit {
  import opened Sums
  import opened Schema
  import D = DepositService
  import R = RewardService
  import opened Ledger
  import opened DepositRace

  // ---- the challenge loop --------------------------------------------------

  ghost function ClaimUpTo(cfg: Config, w: World, t: TxId, n: nat): World {
    if n == 0 then w else Do(cfg, ClaimUpTo(cfg, w, t, n - 1), Claim(t))
  }

  /** The statements of a transaction that has read. */
  ghost function Finish(cfg: Config, w: World, t: TxId): World {
    Do(cfg, ClaimUpTo(cfg, Do(cfg, Do(cfg, w, Flush(t)), Tally(t)), t, |cfg.challenges|), Commit(t))
  }

  /** The completion rows the first n challenges of the catalog add. */
  function NewRows(cfg: Config, n: nat, u: UserId, cls: WasteClass, progress: int, done: Completions): Completions
    requires n <= |cfg.challenges|
  {
    D.Completed(cfg.challenges[..n], u, cls, progress, done) - done.Keys
  }

  lemma {:induction false} CompletedKeepsRows(catalog: seq<Challenge>, u: UserId, cls: WasteClass, progress: int,
                                              done: Completions)
    ensures var rows := D.Completed(catalog, u, cls, progress, done);
            && done.Keys <= rows.Keys && (forall k :: k in done ==> rows[k] == done[k])
            && rows == done + (rows - done.Keys)
  {
    if catalog != [] {
      CompletedKeepsRows(catalog[..|catalog| - 1], u, cls, progress, done);
    }
  }

  /** One challenge more. */
  lemma NextNewRow(cfg: Config, n: nat, u: UserId, cls: WasteClass, progress: int, done: Completions)
    requires n < |cfg.challenges|
    ensures var rows, c := NewRows(cfg, n, u, cls, progress, done), cfg.challenges[n];
            NewRows(cfg, n + 1, u, cls, progress, done) ==
            if D.Due(c, u, cls, progress, done + rows) then rows[(u, c.id) := D.RewardFor(c)] else rows
  {
    assert cfg.challenges[..n + 1][..n] == cfg.challenges[..n];
    CompletedKeepsRows(cfg.challenges[..n], u, cls, progress, done);
  }

  /** The rows are worth the bonus. */
  lemma NewRowsPayTheBonus(cfg: Config, u: UserId, cls: WasteClass, progress: int, done: Completions)
    ensures Sum(NewRows(cfg, |cfg.challenges|, u, cls, progress, done), BonusesOf(u))
         == D.Bonus(cfg.challenges, u, cls, progress, done)
  {
    assert cfg.challenges[..|cfg.challenges|] == cfg.challenges;
    CompletedKeepsRows(cfg.challenges, u, cls, progress, done);
    SumDisjoint(done, NewRows(cfg, |cfg.challenges|, u, cls, progress, done), BonusesOf(u));
    BonusBalances(cfg.challenges, u, cls, progress, done, u);
  }

  ghost predicate NoneFlushed(w: World) {
    forall o :: o in w.txns ==> !w.txns[o].stage.Flushed?
  }

  /** An award that has inserted its event, among transactions with nothing pending. */
  ghost predicate OnlyAward(w: World, t: TxId, v: View) {
    && t in w.txns && v.verdict.Award? && Writes(v)
    && (forall o :: o in w.txns && o != t ==> !w.txns[o].stage.Flushed?)
  }

  /** The transaction after n passes of the loop. */
  ghost function InLoop(cfg: Config, w: World, t: TxId, v: View, progress: int, n: nat): World
    requires t in w.txns && v.verdict.Award? && Writes(v) && n <= |cfg.challenges|
  {
    var rows := NewRows(cfg, n, v.seen.user, v.seen.cls.cls, progress, w.db.completions);
    Put(w, t, w.txns[t].(stage := Flushed(v, Tallied(progress, w.db.completions.Keys, n, rows))))
  }

  ghost predicate Reaches(cfg: Config, start: World, t: TxId, n: nat, end: World) {
    ClaimUpTo(cfg, start, t, n) == end
  }

  lemma {:induction false} LoopAlone(cfg: Config, w: World, t: TxId, v: View, progress: int, n: nat)
    requires OnlyAward(w, t, v) && n <= |cfg.challenges|
    ensures Reaches(cfg, InLoop(cfg, w, t, v, progress, 0), t, n, InLoop(cfg, w, t, v, progress, n))
  {
    if n > 0 {
      LoopAlone(cfg, w, t, v, progress, n - 1);
      PassAlone(cfg, w, t, v, progress, n - 1);
    }
  }

  lemma PassAlone(cfg: Config, w: World, t: TxId, v: View, progress: int, n: nat)
    requires OnlyAward(w, t, v) && n < |cfg.challenges|
    ensures forall start :: Reaches(cfg, start, t, n, InLoop(cfg, w, t, v, progress, n)) ==>
              Reaches(cfg, start, t, n + 1, InLoop(cfg, w, t, v, progress, n + 1))
  {
    var at := InLoop(cfg, w, t, v, progress, n);
    NextNewRow(cfg, n, v.seen.user, v.seen.cls.cls, progress, w.db.completions);
    assert !ClaimWaits(at, t, NextRow(cfg, at.txns[t].stage));
  }

  // ---- to the end ----------------------------------------------------------

  /** The rows an award inserts when nothing is pending. */
  ghost function RowsOf(cfg: Config, db: Db, op: OperationId, e: D.ResultEvent, v: View): Completions
    requires v.verdict.Award? && Writes(v)
  {
    var progress := D.Progress(db.events[op := EventRow(e, v)], v.seen.user, v.seen.cls.cls);
    NewRows(cfg, |cfg.challenges|, v.seen.user, v.seen.cls.cls, progress, db.completions)
  }

  lemma AwardFinishes(cfg: Config, w: World, t: TxId, v: View)
    requires NoneFlushed(w) && t in w.txns && w.txns[t].stage == Judged(v) && v.verdict.Award? && Writes(v)
    requires w.txns[t].op !in w.db.events
    ensures var tx := w.txns[t];
            var rows := RowsOf(cfg, w.db, tx.op, tx.e, v);
            Finish(cfg, w, t) ==
            World(Install(w.db, tx.op, tx.e, v, rows), w.txns[t := tx.(stage := Committed(v, rows))], w.commits + [Settled(t)])
  {
    var tx := w.txns[t];
    assert !Waits(w, t);
    var flushed := Put(w, t, tx.(stage := Flushed(v, Untallied)));
    assert Do(cfg, w, Flush(t)) == flushed;
    var progress := D.Progress(w.db.events[tx.op := EventRow(tx.e, v)], v.seen.user, v.seen.cls.cls);
    assert NewRows(cfg, 0, v.seen.user, v.seen.cls.cls, progress, w.db.completions) == map[];
    assert Do(cfg, flushed, Tally(t)) == InLoop(cfg, w, t, v, progress, 0);
    LoopAlone(cfg, w, t, v, progress, |cfg.challenges|);
    CommitsAlone(cfg, w, t, v, progress);
  }

  lemma CommitsAlone(cfg: Config, w: World, t: TxId, v: View, progress: int)
    requires NoneFlushed(w) && t in w.txns && v.verdict.Award? && Writes(v)
    ensures var tx := w.txns[t];
            var rows := NewRows(cfg, |cfg.challenges|, v.seen.user, v.seen.cls.cls, progress, w.db.completions);
            Do(cfg, InLoop(cfg, w, t, v, progress, |cfg.challenges|), Commit(t)) ==
            World(Install(w.db, tx.op, tx.e, v, rows), w.txns[t := tx.(stage := Committed(v, rows))], w.commits + [Settled(t)])
  {
    assert !BonusWaits(InLoop(cfg, w, t, v, progress, |cfg.challenges|), t);
  }

  /** A transaction without an award, or with nothing left to do, claims nothing. */
  lemma {:induction false} LoopIdles(cfg: Config, w: World, t: TxId, n: nat)
    requires t in w.txns && !Claiming(cfg, w.txns[t].stage)
    ensures ClaimUpTo(cfg, w, t, n) == w
  {
    if n > 0 {
      LoopIdles(cfg, w, t, n - 1);
    }
  }

  lemma ClosureFinishes(cfg: Config, w: World, t: TxId, v: View)
    requires NoneFlushed(w) && t in w.txns && w.txns[t].stage == Judged(v) && v.verdict.Close? && Writes(v)
    requires w.txns[t].op !in w.db.events
    ensures var tx := w.txns[t];
            Finish(cfg, w, t) ==
            World(Install(w.db, tx.op, tx.e, v, map[]), w.txns[t := tx.(stage := Committed(v, map[]))], w.commits + [Settled(t)])
  {
    assert !Waits(w, t);
    var flushed := Put(w, t, w.txns[t].(stage := Flushed(v, Untallied)));
    assert Do(cfg, w, Flush(t)) == flushed;
    LoopIdles(cfg, flushed, t, |cfg.challenges|);
  }

  // ---- a transaction that meets no other -----------------------------------

  ghost function RunAlone(cfg: Config, db: Db, op: OperationId, e: D.ResultEvent, now: Instant): World {
    Finish(cfg, Do(cfg, Do(cfg, World(db, map[], []), Arrive(0, op, e, now)), Select(0)), 0)
  }

  /** The tables a call leaves, but for the ranking rows. */
  ghost function Unranked(db: Db, after: Db): Db {
    after.(studentRows := db.studentRows, facultyRows := db.facultyRows)
  }

  lemma ReadsAlone(cfg: Config, db: Db, op: OperationId, e: D.ResultEvent, now: Instant) returns (w: World)
    ensures w == Do(cfg, Do(cfg, World(db, map[], []), Arrive(0, op, e, now)), Select(0))
    ensures w == World(db, map[0 := w.txns[0]], []) && w.txns[0].op == op && w.txns[0].e == e.(operation := Some(op))
    ensures w.txns[0].stage == Read(cfg, db, Txn(op, e.(operation := Some(op)), now, Arrived), 0)
  {
    w := Do(cfg, Do(cfg, World(db, map[], []), Arrive(0, op, e, now)), Select(0));
  }

  /** Alone, the statements of a deposit_result leave the tables as the call does,
      awarded, closed or refused, bonus included. */
  lemma DepositAlone(cfg: Config, db: Db, op: OperationId, e: D.ResultEvent, now: Instant)
    ensures var call := D.CompleteFromEvent(cfg, db, e.(operation := Some(op)), now);
            RunAlone(cfg, db, op, e, now).db == Unranked(db, call)
  {
    var sent := e.(operation := Some(op));
    var w := ReadsAlone(cfg, db, op, e, now);
    var verdict := D.Judge(cfg, db, sent, now);
    if verdict.Award? {
      AwardFinishes(cfg, w, 0, w.txns[0].stage.v);
      InstallsCall(cfg, db, op, sent, w.txns[0].stage.v);
    } else if verdict.Close? {
      ClosureFinishes(cfg, w, 0, w.txns[0].stage.v);
      InstallsClosure(db, op, sent, w.txns[0].stage.v);
    } else {
      LoopIdles(cfg, w, 0, |cfg.challenges|);
    }
  }

  lemma InstallsClosure(db: Db, op: OperationId, e: D.ResultEvent, v: View)
    requires v.verdict.Close? && Writes(v) && op in db.sessions && v.seen == db.sessions[op]
    ensures Install(db, op, e, v, map[]) == Unranked(db, D.Closed(db, op, v.verdict.reason, v.verdict.status))
  {
    assert db.completions + map[] == db.completions;
  }

  /** An award of a current balance installs what the call confirms. */
  lemma InstallsCall(cfg: Config, db: Db, op: OperationId, e: D.ResultEvent, v: View)
    requires v.verdict.Award? && Writes(v) && op in db.sessions && v.seen == db.sessions[op]
    requires v.seen.user in db.users && v.balance == db.users[v.seen.user].points
    ensures Install(db, op, e, v, RowsOf(cfg, db, op, e, v)) == Unranked(db, D.Confirm(cfg, db, op, e))
  {
    var u, cls, rows := v.seen.user, v.seen.cls.cls, RowsOf(cfg, db, op, e, v);
    var progress := D.ProgressAfter(db, op, e);
    NewRowsPayTheBonus(cfg, u, cls, progress, db.completions);
    assert cfg.challenges[..|cfg.challenges|] == cfg.challenges;
    CompletedKeepsRows(cfg.challenges, u, cls, progress, db.completions);
    BalanceInstalls(db.users, v, v.seen.potentialPoints + D.BonusOf(cfg, db, op, e));
    var after, call := Install(db, op, e, v, rows), D.Confirm(cfg, db, op, e);
    assert after.completions == call.completions && after.users == call.users;
  }

  lemma BalanceInstalls(users: map<UserId, User>, v: View, amount: int)
    requires v.seen.user in users && v.balance == users[v.seen.user].points
    ensures D.Credited(users, v.seen.user, amount) ==
            if amount != 0 then users[v.seen.user := users[v.seen.user].(points := v.balance + amount)] else users
  {
  }

  // ---- an award that overlaps a redemption ---------------------------------

  /** A redemption granted between the SELECT and the flush of an award worth anything
      is paid for by nobody: it stands, and the balance is the one read plus the award.
      An award worth nothing leaves the payment alone. */
  lemma AwardUndoesPayment(cfg: Config, db: Db, op: OperationId, e: D.ResultEvent, q: R.Request, now: Instant)
    requires D.Judge(cfg, db, e.(operation := Some(op)), now).Award?
    requires q.user == db.sessions[op].user
    requires R.RedeemReply(db, q).Granted?
    ensures var read := Do(cfg, Do(cfg, World(db, map[], []), Arrive(0, op, e, now)), Select(0));
            var end := Finish(cfg, Do(cfg, read, Trade(Redeem(q))), 0);
            && end.txns.Keys == {0} && end.txns[0].stage.Committed? && q.user in end.db.users
            && q.id in end.db.redemptions && !Refunded(end.db.redemptions[q.id].status)
            && var amount := Amount(end.txns[0].stage.v, end.txns[0].stage.rows);
               end.db.users[q.user].points
               == db.users[q.user].points + if amount != 0 then amount else -db.rewards[q.reward].cost
  {
    var w := ReadsAlone(cfg, db, op, e, now);
    Buys(cfg, w, q);
    AwardAfterPurchase(cfg, db, Do(cfg, w, Trade(Redeem(q))), q, w.txns[0].stage.v);
  }

  lemma AwardAfterPurchase(cfg: Config, db: Db, w: World, q: R.Request, v: View)
    requires q.reward in db.rewards && q.user in db.users && w.db == R.Grant(db, q)
    requires w.txns.Keys == {0} && w.txns[0].stage == Judged(v) && w.txns[0].op !in w.db.events
    requires v.verdict.Award? && Writes(v) && v.seen.user == q.user && v.balance == db.users[q.user].points
    ensures var end := Finish(cfg, w, 0);
            && end.txns.Keys == {0} && end.txns[0].stage.Committed? && q.user in end.db.users
            && q.id in end.db.redemptions && !Refunded(end.db.redemptions[q.id].status)
            && var amount := Amount(end.txns[0].stage.v, end.txns[0].stage.rows);
               end.db.users[q.user].points
               == db.users[q.user].points + if amount != 0 then amount else -db.rewards[q.reward].cost
  {
    AwardFinishes(cfg, w, 0, v);
    assert Finish(cfg, w, 0).txns.Keys == {0};
  }

  lemma Buys(cfg: Config, w: World, q: R.Request)
    requires NoneFlushed(w) && R.RedeemReply(w.db, q).Granted?
    ensures var after := R.Grant(w.db, q);
            Do(cfg, w, Trade(Redeem(q))) == World(after, w.txns, w.commits + [Traded(w.db.users, after.users)])
  {
    assert !TradeWaits(w, Redeem(q));
  }

  // ---- two awards that overlap ---------------------------------------------

  /** Both messages have arrived and been read, neither has been written. */
  ghost function Overlap(cfg: Config, db: Db, a: OperationId, b: OperationId, e: D.ResultEvent, f: D.ResultEvent,
                         now: Instant): (w: World)
    requires a != b
    requires D.Judge(cfg, db, e.(operation := Some(a)), now).Award?
    requires D.Judge(cfg, db, f.(operation := Some(b)), now).Award?
    ensures w.db == db && w.txns.Keys == {0, 1} && w.commits == []
    ensures w.txns[0].stage == Judged(View(D.Award, db.sessions[a], db.users[db.sessions[a].user].points, 0))
    ensures w.txns[1].stage == Judged(View(D.Award, db.sessions[b], db.users[db.sessions[b].user].points, 0))
    ensures w.txns[0].op == a && w.txns[1].op == b
  {
    Do(cfg, Do(cfg, Do(cfg, Do(cfg, World(db, map[], []), Arrive(0, a, e, now)), Arrive(1, b, f, now)), Select(0)),
       Select(1))
  }

  /** Two awards of one user that both read before either writes: the second
      overwrites the first when it is worth anything, bonus included, so that of two
      awards worth something the balance keeps one. */
  lemma OverlappingReadsLoseAnAward(cfg: Config, db: Db, a: OperationId, b: OperationId, e: D.ResultEvent,
                                    f: D.ResultEvent, now: Instant)
    requires a != b
    requires D.Judge(cfg, db, e.(operation := Some(a)), now).Award?
    requires D.Judge(cfg, db, f.(operation := Some(b)), now).Award?
    requires db.sessions[a].user == db.sessions[b].user
    ensures var w := Finish(cfg, Finish(cfg, Overlap(cfg, db, a, b, e, f, now), 0), 1);
            var u := db.sessions[a].user;
            && w.txns.Keys == {0, 1} && w.txns[0].stage.Committed? && w.txns[1].stage.Committed?
            && u in w.db.users
            && var first, second := Amount(w.txns[0].stage.v, w.txns[0].stage.rows),
                                    Amount(w.txns[1].stage.v, w.txns[1].stage.rows);
               w.db.users[u].points == db.users[u].points + if second != 0 then second else first
  {
    SecondDecides(cfg, Overlap(cfg, db, a, b, e, f, now), a, b, db.sessions[a], db.sessions[b]);
  }

  lemma SecondDecides(cfg: Config, w: World, a: OperationId, b: OperationId, s: Session, r: Session)
    requires w.txns.Keys == {0, 1} && a != b && s.user == r.user && s.user in w.db.users
    requires a !in w.db.events && b !in w.db.events && s.cls.Classified? && r.cls.Classified?
    requires var points := w.db.users[s.user].points;
             && w.txns[0].op == a && w.txns[0].stage == Judged(View(D.Award, s, points, 0))
             && w.txns[1].op == b && w.txns[1].stage == Judged(View(D.Award, r, points, 0))
    ensures var end := Finish(cfg, Finish(cfg, w, 0), 1);
            && end.txns.Keys == {0, 1} && end.txns[0].stage.Committed? && end.txns[1].stage.Committed?
            && s.user in end.db.users
            && var first, second := Amount(end.txns[0].stage.v, end.txns[0].stage.rows),
                                    Amount(end.txns[1].stage.v, end.txns[1].stage.rows);
               end.db.users[s.user].points == w.db.users[s.user].points + if second != 0 then second else first
  {
    AwardFinishes(cfg, w, 0, w.txns[0].stage.v);
    var mid := Finish(cfg, w, 0);
    assert mid.txns.Keys == {0, 1} && mid.txns[1] == w.txns[1];
    AwardFinishes(cfg, mid, 1, w.txns[1].stage.v);
  }
}
