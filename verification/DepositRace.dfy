/** Overlapping deposit_result transactions, one statement at a time.

    Each transaction reads the session and the balance and judges the message on what
    it read. One flush writes its event, its session and, when the award is worth
    points, the balance: the ORM leaves out a column it sets to the value it loaded,
    so an award of zero points neither writes nor locks the user row. An award then
    reads its progress and the completed challenges and claims the challenges it has
    reached, one INSERT each; the bonus is added to the balance in memory and written
    at the latest on COMMIT. A statement waits while another transaction holds the
    row, and the UNIQUE operation id and the UNIQUE (user, challenge) pair turn second
    rows away. Calls on the reward market take one step each, and their changes of a
    balance are relative. Ranking rows are not tracked here. */
module DepositRace {
  import opened Sums
  import opened Schema
  import D = DepositService
  import opened Ledger
  import opened Lifecycle

  type TxId = int

  type Completions = map<(UserId, ChallengeId), int>

  /** What a transaction read and concluded; read counts the commits before its SELECT. */
  datatype View = View(verdict: D.Verdict, seen: Session, balance: int, read: nat)

  /** The challenge loop: what it read, how far it is, and the rows it has inserted. */
  datatype Claims =
    | Untallied
    | Tallied(progress: int, already: set<(UserId, ChallengeId)>, next: nat, inserted: Completions)

  datatype Stage =
    | Arrived
    | Judged(v: View)
    | Flushed(v: View, claims: Claims)
    | Committed(v: View, rows: Completions)
    | RolledBack

  datatype Txn = Txn(op: OperationId, e: D.ResultEvent, now: Instant, stage: Stage)

  /** A committed deposit_result, or a market call with the balances around it. */
  datatype Mark = Settled(t: TxId) | Traded(was: map<UserId, User>, now: map<UserId, User>)

  /** commits lists what was committed, in commit order. */
  datatype World = World(db: Db, txns: map<TxId, Txn>, commits: seq<Mark>)

  datatype Action =
    | Arrive(t: TxId, op: OperationId, e: D.ResultEvent, now: Instant)
    | Select(t: TxId)
    | Flush(t: TxId)
    | Tally(t: TxId)
    | Claim(t: TxId)
    | Commit(t: TxId)
    | Abort(t: TxId)
    | Trade(call: MarketCall)

  predicate Writes(v: View) {
    v.seen.cls.Classified? && (v.verdict.Award? || v.verdict.Close?)
  }

  function EventRow(e: D.ResultEvent, v: View): WasteEvent
    requires Writes(v)
  {
    if v.verdict.Award? then D.ConfirmedEvent(v.seen, e) else D.RefusedEvent(v.seen)
  }

  function SessionRow(e: D.ResultEvent, v: View): Session
    requires Writes(v)
  {
    if v.verdict.Award? then D.ConfirmedSession(v.seen, e)
    else D.ClosedSession(v.seen, v.verdict.reason, v.verdict.status)
  }

  function Rows(claims: Claims): Completions {
    if claims.Untallied? then map[] else claims.inserted
  }

  /** What an award is worth with the completion rows it inserts. */
  ghost function Amount(v: View, rows: Completions): int {
    v.seen.potentialPoints + Sum(rows, BonusesOf(v.seen.user))
  }

  /** The balance is an absolute value, and only a changed one is written. */
  ghost predicate WritesBalance(v: View, rows: Completions) {
    v.verdict.Award? && Amount(v, rows) != 0
  }

  ghost function Install(db: Db, op: OperationId, e: D.ResultEvent, v: View, rows: Completions): Db
    requires Writes(v)
  {
    db.(events := db.events[op := EventRow(e, v)],
        sessions := db.sessions[op := SessionRow(e, v)],
        completions := db.completions + rows,
        users := if WritesBalance(v, rows) && v.seen.user in db.users
                 then db.users[v.seen.user := db.users[v.seen.user].(points := v.balance + Amount(v, rows))]
                 else db.users)
  }

  function Put(w: World, t: TxId, tx: Txn): World {
    w.(txns := w.txns[t := tx])
  }

  /** The flush of this view locks the row of its user. */
  predicate LocksUser(v: View) {
    v.verdict.Award? && v.seen.potentialPoints != 0
  }

  predicate Contend(a: OperationId, v: View, b: OperationId, u: View) {
    a == b || (LocksUser(v) && LocksUser(u) && v.seen.user == u.seen.user)
  }

  /** Another transaction holds a row this flush would write. */
  ghost predicate Waits(w: World, t: TxId)
    requires t in w.txns && w.txns[t].stage.Judged?
  {
    exists o :: o in w.txns && o != t && w.txns[o].stage.Flushed?
      && Contend(w.txns[o].op, w.txns[o].stage.v, w.txns[t].op, w.txns[t].stage.v)
  }

  /** Another transaction has inserted this completion row and not ended yet. */
  ghost predicate ClaimWaits(w: World, t: TxId, k: (UserId, ChallengeId)) {
    exists o :: o in w.txns && o != t && w.txns[o].stage.Flushed? && k in Rows(w.txns[o].stage.claims)
  }

  /** A bonus on an award of zero points reaches the user row only now, and another
      transaction holds it. */
  ghost predicate BonusWaits(w: World, t: TxId)
    requires t in w.txns && w.txns[t].stage.Flushed?
  {
    var v := w.txns[t].stage.v;
    WritesBalance(v, Rows(w.txns[t].stage.claims)) &&
    exists o :: o in w.txns && o != t && w.txns[o].stage.Flushed?
      && LocksUser(w.txns[o].stage.v) && w.txns[o].stage.v.seen.user == v.seen.user
  }

  /** A transaction holds the row of a user whose balance the call changes. */
  ghost predicate TradeWaits(w: World, call: MarketCall) {
    exists o :: o in w.txns && w.txns[o].stage.Flushed? && LocksUser(w.txns[o].stage.v)
      && Changes(w.db.users, ApplyMarket(w.db, call).users, w.txns[o].stage.v.seen.user)
  }

  predicate Changes(was: map<UserId, User>, now: map<UserId, User>, u: UserId) {
    u in was && u in now && was[u] != now[u]
  }

  function Read(cfg: Config, db: Db, tx: Txn, read: nat): Stage
  {
    var verdict := D.Judge(cfg, db, tx.e, tx.now);
    if tx.e.operation == Some(tx.op) && (verdict.Award? || verdict.Close?) then
      var s := db.sessions[tx.op];
      Judged(View(verdict, s, if s.user in db.users then db.users[s.user].points else 0, read))
    else RolledBack
  }

  /** The challenge loop of an award has yet to begin. */
  predicate Tallies(stage: Stage) {
    stage.Flushed? && stage.claims.Untallied? && stage.v.verdict.Award? && Writes(stage.v)
  }

  /** It reads the committed tables, which do not hold its own event yet. */
  ghost function Tallying(db: Db, tx: Txn): Claims
    requires Tallies(tx.stage)
  {
    var s := tx.stage.v.seen;
    Tallied(D.Progress(db.events[tx.op := EventRow(tx.e, tx.stage.v)], s.user, s.cls.cls), db.completions.Keys, 0, map[])
  }

  predicate Claiming(cfg: Config, stage: Stage) {
    && stage.Flushed? && stage.v.verdict.Award? && Writes(stage.v)
    && stage.claims.Tallied? && stage.claims.next < |cfg.challenges|
  }

  function NextRow(cfg: Config, stage: Stage): (UserId, ChallengeId)
    requires Claiming(cfg, stage)
  {
    (stage.v.seen.user, cfg.challenges[stage.claims.next].id)
  }

  /** One pass of the loop: skipped, turned away by the UNIQUE pair, or inserted. */
  function Claimed(cfg: Config, db: Db, stage: Stage): Claims
    requires Claiming(cfg, stage)
  {
    var c, k, claims := cfg.challenges[stage.claims.next], NextRow(cfg, stage), stage.claims;
    var reached := c.cls == stage.v.seen.cls.cls && c.active && k !in claims.already && claims.progress >= c.target;
    claims.(next := claims.next + 1,
            inserted := if reached && k !in db.completions && k !in claims.inserted
                        then claims.inserted[k := D.RewardFor(c)] else claims.inserted)
  }

  /** Everything is written but for the COMMIT. */
  predicate Done(cfg: Config, stage: Stage) {
    && stage.Flushed? && Writes(stage.v)
    && (stage.v.verdict.Award? ==> stage.claims.Tallied? && stage.claims.next == |cfg.challenges|)
  }

  ghost function Installed(w: World, t: TxId): World
    requires t in w.txns && w.txns[t].stage.Flushed? && Writes(w.txns[t].stage.v)
  {
    var tx, v, rows := w.txns[t], w.txns[t].stage.v, Rows(w.txns[t].stage.claims);
    World(Install(w.db, tx.op, tx.e, v, rows), w.txns[t := tx.(stage := Committed(v, rows))], w.commits + [Settled(t)])
  }

  ghost function Do(cfg: Config, w: World, a: Action): World {
    match a
    case Arrive(t, op, e, now) =>
      if t in w.txns then w else Put(w, t, Txn(op, e.(operation := Some(op)), now, Arrived))
    case Select(t) =>
      if t !in w.txns || w.txns[t].stage != Arrived then w
      else Put(w, t, w.txns[t].(stage := Read(cfg, w.db, w.txns[t], |w.commits|)))
    case Flush(t) =>
      if t !in w.txns || !w.txns[t].stage.Judged? || Waits(w, t) then w
      else if w.txns[t].op in w.db.events then Put(w, t, w.txns[t].(stage := RolledBack))
      else Put(w, t, w.txns[t].(stage := Flushed(w.txns[t].stage.v, Untallied)))
    case Tally(t) =>
      if t !in w.txns || !Tallies(w.txns[t].stage) then w
      else Put(w, t, w.txns[t].(stage := w.txns[t].stage.(claims := Tallying(w.db, w.txns[t]))))
    case Claim(t) =>
      if t !in w.txns || !Claiming(cfg, w.txns[t].stage) then w
      else if ClaimWaits(w, t, NextRow(cfg, w.txns[t].stage)) then w
      else
        var stage := w.txns[t].stage;
        Put(w, t, w.txns[t].(stage := stage.(claims := Claimed(cfg, w.db, stage))))
    case Commit(t) =>
      if t !in w.txns || !Done(cfg, w.txns[t].stage) || BonusWaits(w, t) then w
      else Installed(w, t)
    case Abort(t) =>
      if t in w.txns && !w.txns[t].stage.Committed? then Put(w, t, w.txns[t].(stage := RolledBack)) else w
    case Trade(call) =>
      if TradeWaits(w, call) then w
      else
        var after := ApplyMarket(w.db, call);
        World(after, w.txns, w.commits + [Traded(w.db.users, after.users)])
  }

  ghost function Play(cfg: Config, w: World, actions: seq<Action>): World {
    if actions == [] then w
    else Do(cfg, Play(cfg, w, actions[..|actions| - 1]), actions[|actions| - 1])
  }

  // ---- the invariant -------------------------------------------------------

  /** A verdict that is right for the session as it was read. */
  ghost predicate ViewOk(cfg: Config, e: D.ResultEvent, v: View) {
    && Writes(v) && !Terminal(v.seen.status)
    && (v.verdict.Award? ==> D.PhysicalFailure(cfg, v.seen, e) == NoReason)
    && (v.verdict.Close? ==> v.verdict.status in {SessionStatus.Rejected, Expired})
  }

  /** Completion rows of the transaction's own user, none worth less than nothing. */
  predicate RowsOk(v: View, rows: Completions) {
    (v.verdict.Award? || rows == map[]) && forall k :: k in rows ==> k.0 == v.seen.user && rows[k] >= 0
  }

  predicate Holds(db: Db, rows: Completions) {
    forall k :: k in rows ==> k in db.completions && db.completions[k] == rows[k]
  }

  ghost predicate TxnOk(cfg: Config, db: Db, tx: Txn) {
    && tx.e.operation == Some(tx.op)
    && match tx.stage
       case Judged(v) =>
         && ViewOk(cfg, tx.e, v) && tx.op in db.sessions
         && (v.verdict.Award? ==> v.seen.user in db.users)
         && (tx.op !in db.events ==> db.sessions[tx.op] == v.seen)
       case Flushed(v, claims) =>
         && ViewOk(cfg, tx.e, v) && tx.op in db.sessions
         && (v.verdict.Award? ==> v.seen.user in db.users)
         && tx.op !in db.events && db.sessions[tx.op] == v.seen
         && RowsOk(v, Rows(claims)) && Rows(claims).Keys !! db.completions.Keys
       case Committed(v, rows) =>
         && ViewOk(cfg, tx.e, v) && tx.op in db.sessions && tx.op in db.events
         && db.events[tx.op] == EventRow(tx.e, v) && db.sessions[tx.op] == SessionRow(tx.e, v)
         && RowsOk(v, rows) && Holds(db, rows)
       case _ => true
  }

  predicate Apart(a: Txn, b: Txn) {
    && (a.stage.Flushed? && b.stage.Flushed? ==>
          !Contend(a.op, a.stage.v, b.op, b.stage.v) && Rows(a.stage.claims).Keys !! Rows(b.stage.claims).Keys)
    && (a.stage.Committed? && b.stage.Committed? ==> a.op != b.op)
    && (a.stage.Committed? && b.stage.Flushed? ==> a.op != b.op)
    && (a.stage.Flushed? && b.stage.Committed? ==> a.op != b.op)
  }

  ghost predicate WorldOk(cfg: Config, w: World) {
    && Inv(cfg, w.db)
    && (forall t :: t in w.txns ==> TxnOk(cfg, w.db, w.txns[t]))
    && (forall a, b :: a in w.txns && b in w.txns && a != b ==> Apart(w.txns[a], w.txns[b]))
  }

  lemma PutKeeps(cfg: Config, w: World, t: TxId, tx: Txn)
    requires WorldOk(cfg, w) && TxnOk(cfg, w.db, tx)
    requires forall o :: o in w.txns && o != t ==> Apart(tx, w.txns[o])
    ensures WorldOk(cfg, Put(w, t, tx))
  {
  }

  lemma ReadOk(cfg: Config, db: Db, tx: Txn, read: nat)
    requires Inv(cfg, db) && tx.e.operation == Some(tx.op)
    ensures TxnOk(cfg, db, tx.(stage := Read(cfg, db, tx, read)))
  {
  }

  /** The rows a transaction installs keep every deposit invariant. */
  lemma InstallKeepsInv(cfg: Config, db: Db, op: OperationId, e: D.ResultEvent, v: View, rows: Completions)
    requires Inv(cfg, db) && ViewOk(cfg, e, v) && op in db.sessions && op !in db.events && db.sessions[op] == v.seen
    ensures Inv(cfg, Install(db, op, e, v, rows))
  {
    var after := Install(db, op, e, v, rows);
    assert SessionOk(cfg, v.seen, EventOf(db, op));
    if v.verdict.Award? {
      assert ProvesDeposit(cfg, after.sessions[op], D.ConfirmedEvent(v.seen, e));
    }
    assert SessionOk(cfg, after.sessions[op], EventOf(after, op));
    TouchKeepsInv(cfg, db, after, op);
  }

  lemma InstallSparesOther(cfg: Config, db: Db, tx: Txn, o: Txn)
    requires TxnOk(cfg, db, tx) && TxnOk(cfg, db, o) && Apart(tx, o) && tx.stage.Flushed?
    ensures TxnOk(cfg, Install(db, tx.op, tx.e, tx.stage.v, Rows(tx.stage.claims)), o)
  {
  }

  lemma CommitKeeps(cfg: Config, w: World, t: TxId)
    requires WorldOk(cfg, w) && t in w.txns && w.txns[t].stage.Flushed?
    ensures WorldOk(cfg, Installed(w, t))
  {
    var tx := w.txns[t];
    InstallKeepsInv(cfg, w.db, tx.op, tx.e, tx.stage.v, Rows(tx.stage.claims));
    var after := Installed(w, t);
    forall o | o in after.txns ensures TxnOk(cfg, after.db, after.txns[o]) {
      if o != t { InstallSparesOther(cfg, w.db, tx, w.txns[o]); }
    }
  }

  /** A row inserted by one pass clashes with no committed and no pending one. */
  lemma ClaimedRows(cfg: Config, db: Db, tx: Txn)
    requires TxnOk(cfg, db, tx) && Claiming(cfg, tx.stage)
    ensures var after := tx.(stage := tx.stage.(claims := Claimed(cfg, db, tx.stage)));
            && TxnOk(cfg, db, after)
            && Rows(after.stage.claims).Keys <= Rows(tx.stage.claims).Keys + {NextRow(cfg, tx.stage)}
  {
  }

  lemma ClaimKeeps(cfg: Config, w: World, t: TxId)
    requires WorldOk(cfg, w) && t in w.txns && Claiming(cfg, w.txns[t].stage)
    requires !ClaimWaits(w, t, NextRow(cfg, w.txns[t].stage))
    ensures WorldOk(cfg, Do(cfg, w, Claim(t)))
  {
    var tx := w.txns[t];
    ClaimedRows(cfg, w.db, tx);
    var after := tx.(stage := tx.stage.(claims := Claimed(cfg, w.db, tx.stage)));
    forall o | o in w.txns && o != t ensures Apart(after, w.txns[o]) {
      assert Apart(tx, w.txns[o]);
    }
    PutKeeps(cfg, w, t, after);
  }

  lemma SelectKeeps(cfg: Config, w: World, t: TxId)
    requires WorldOk(cfg, w) && t in w.txns && w.txns[t].stage == Arrived
    ensures WorldOk(cfg, Do(cfg, w, Select(t)))
  {
    ReadOk(cfg, w.db, w.txns[t], |w.commits|);
    PutKeeps(cfg, w, t, w.txns[t].(stage := Read(cfg, w.db, w.txns[t], |w.commits|)));
  }

  lemma FlushKeeps(cfg: Config, w: World, t: TxId)
    requires WorldOk(cfg, w) && t in w.txns && w.txns[t].stage.Judged? && !Waits(w, t)
    ensures WorldOk(cfg, Do(cfg, w, Flush(t)))
  {
    PutKeeps(cfg, w, t, Do(cfg, w, Flush(t)).txns[t]);
  }

  lemma TallyKeeps(cfg: Config, w: World, t: TxId)
    requires WorldOk(cfg, w) && t in w.txns && Tallies(w.txns[t].stage)
    ensures WorldOk(cfg, Do(cfg, w, Tally(t)))
  {
    PutKeeps(cfg, w, t, Do(cfg, w, Tally(t)).txns[t]);
  }

  /** The reward market touches no deposit row and removes no user. */
  lemma TradeKeeps(cfg: Config, w: World, call: MarketCall)
    requires WorldOk(cfg, w)
    ensures WorldOk(cfg, World(ApplyMarket(w.db, call), w.txns, w.commits + [Traded(w.db.users, ApplyMarket(w.db, call).users)]))
  {
    var after := ApplyMarket(w.db, call);
    assert SameDeposits(w.db, after);
    forall u | u in w.db.users ensures u in after.users {
      MarketConserves(w.db, call, u);
    }
    DepositsDecideInv(cfg, w.db, after);
    forall t | t in w.txns ensures TxnOk(cfg, after, w.txns[t]) {
      assert TxnOk(cfg, w.db, w.txns[t]);
    }
  }

  lemma DepositsDecideInv(cfg: Config, db: Db, after: Db)
    requires Inv(cfg, db) && SameDeposits(db, after)
    ensures Inv(cfg, after)
  {
    forall op | op in after.sessions ensures SessionOk(cfg, after.sessions[op], EventOf(after, op)) {
      assert EventOf(after, op) == EventOf(db, op);
    }
  }

  lemma ActionKeeps(cfg: Config, w: World, a: Action)
    requires WorldOk(cfg, w)
    ensures WorldOk(cfg, Do(cfg, w, a))
  {
    if Do(cfg, w, a) != w {
      match a
      case Arrive(t, op, e, now) => PutKeeps(cfg, w, t, Txn(op, e.(operation := Some(op)), now, Arrived));
      case Select(t) => SelectKeeps(cfg, w, t);
      case Flush(t) => FlushKeeps(cfg, w, t);
      case Tally(t) => TallyKeeps(cfg, w, t);
      case Claim(t) => ClaimKeeps(cfg, w, t);
      case Commit(t) => CommitKeeps(cfg, w, t);
      case Abort(t) => PutKeeps(cfg, w, t, w.txns[t].(stage := RolledBack));
      case Trade(call) => TradeKeeps(cfg, w, call);
    }
  }

  lemma {:induction false} PlayKeeps(cfg: Config, db: Db, actions: seq<Action>)
    requires Inv(cfg, db)
    ensures WorldOk(cfg, Play(cfg, World(db, map[], []), actions))
  {
    if actions != [] {
      PlayKeeps(cfg, db, actions[..|actions| - 1]);
      ActionKeeps(cfg, Play(cfg, World(db, map[], []), actions[..|actions| - 1]), actions[|actions| - 1]);
    }
  }

  /** However deposit_result transactions overlap, at most one of an operation
      commits, its session, event and completion rows stay as it wrote them, and every
      session stays consistent with its event. */
  lemma OneCommitPerOperation(cfg: Config, db: Db, actions: seq<Action>, t: TxId, o: TxId)
    requires Inv(cfg, db)
    ensures var w := Play(cfg, World(db, map[], []), actions);
            && Inv(cfg, w.db)
            && (t in w.txns && w.txns[t].stage.Committed? ==>
                  && Writes(w.txns[t].stage.v)
                  && EventOf(w.db, w.txns[t].op) == Some(EventRow(w.txns[t].e, w.txns[t].stage.v))
                  && w.txns[t].op in w.db.sessions
                  && w.db.sessions[w.txns[t].op] == SessionRow(w.txns[t].e, w.txns[t].stage.v)
                  && Holds(w.db, w.txns[t].stage.rows)
                  && (o in w.txns && w.txns[o].stage.Committed? && w.txns[o].op == w.txns[t].op ==> o == t))
  {
    PlayKeeps(cfg, db, actions);
  }
}
