/** A redeem transaction that meets no other: statement by statement it comes to
    exactly what the service call does, and answers the same. */
module SoloRedeem {
  import opened Sums
  import opened Schema
  import R = RewardService
  import opened Ledger
  import opened Interleaving

  /** The only transaction, at some stage. */
  function At(db: Db, log: seq<Call>, t: TxId, q: R.Request, stage: Stage, w: Writes): World {
    World(db, map[t := Txn(DoRedeem(q), stage, w)], log)
  }

  function Statements(t: TxId, q: R.Request): seq<Action> {
    [Lookup(t), ReadReward(t), Reserve(t), Pay(t), DrawCode(t, q.draws), Insert(t), Refetch(t), Commit(t)]
  }

  lemma {:induction false} PlayFirst(cfg: Config, w: World, a: Action, rest: seq<Action>)
    ensures Play(cfg, w, [a] + rest) == Play(cfg, Do(cfg, w, a), rest)
  {
    if rest == [] {
      assert [a] + rest == [a];
      assert [a][..0] == [];
    } else {
      assert ([a] + rest)[..|rest|] == [a] + rest[..|rest| - 1];
      PlayFirst(cfg, w, a, rest[..|rest| - 1]);
    }
  }

  predicate TakenByOne(actions: seq<Action>, t: TxId) {
    forall i :: 0 <= i < |actions| ==> !actions[i].Atomic? && actions[i].t == t
  }

  /** What is over stays over. */
  lemma {:induction false} OverPlays(cfg: Config, db: Db, log: seq<Call>, t: TxId, q: R.Request, result: Result,
                                     actions: seq<Action>)
    requires TakenByOne(actions, t)
    ensures Play(cfg, At(db, log, t, q, Ended(result), NoWrites), actions) == At(db, log, t, q, Ended(result), NoWrites)
  {
    if actions != [] {
      OverPlays(cfg, db, log, t, q, result, actions[..|actions| - 1]);
    }
  }

  /** How a transaction ends when the call answers so. */
  function EndOf(reply: R.Reply): Result {
    match reply
    case Granted(_) => Committed
    case Existing(id) => Replied(id)
    case _ => Failed
  }

  ghost predicate EndsAsCall(cfg: Config, db: Db, log: seq<Call>, t: TxId, q: R.Request, w: World) {
    && w.db == R.Redeem(db, q)
    && w.txns == map[t := Txn(DoRedeem(q), Ended(EndOf(R.RedeemReply(db, q))), NoWrites)]
  }

  /** Alone, the statements of a redemption leave the tables as the call does, granted,
      answered with an earlier redemption or refused, and end accordingly. */
  lemma RedeemAlone(cfg: Config, db: Db, log: seq<Call>, t: TxId, q: R.Request)
    ensures EndsAsCall(cfg, db, log, t, q, Play(cfg, World(db, map[], log), [Begin(t, DoRedeem(q))] + Statements(t, q)))
  {
    PlayFirst(cfg, World(db, map[], log), Begin(t, DoRedeem(q)), Statements(t, q));
    FromLookup(cfg, db, log, t, q);
  }

  /** A transaction that stops leaves nothing, as a call that is not granted. */
  lemma Stops(cfg: Config, db: Db, log: seq<Call>, t: TxId, q: R.Request, result: Result, rest: seq<Action>)
    requires !R.RedeemReply(db, q).Granted? && EndOf(R.RedeemReply(db, q)) == result && TakenByOne(rest, t)
    ensures EndsAsCall(cfg, db, log, t, q, Play(cfg, At(db, log, t, q, Ended(result), NoWrites), rest))
  {
    OverPlays(cfg, db, log, t, q, result, rest);
  }

  lemma LookupStep(cfg: Config, db: Db, log: seq<Call>, t: TxId, q: R.Request)
    ensures var existing := R.FindByKey(db, q.user, q.key);
            Do(cfg, At(db, log, t, q, Start, NoWrites), Lookup(t)) ==
            At(db, log, t, q, if existing.Some? then Ended(Replied(existing.value)) else Fresh, NoWrites)
  {
  }

  lemma FromLookup(cfg: Config, db: Db, log: seq<Call>, t: TxId, q: R.Request)
    ensures EndsAsCall(cfg, db, log, t, q, Play(cfg, At(db, log, t, q, Start, NoWrites), Statements(t, q)))
  {
    var rest := Statements(t, q)[1..];
    var existing := R.FindByKey(db, q.user, q.key);
    PlayFirst(cfg, At(db, log, t, q, Start, NoWrites), Lookup(t), rest);
    assert Statements(t, q) == [Lookup(t)] + rest;
    LookupStep(cfg, db, log, t, q);
    if existing.Some? {
      Stops(cfg, db, log, t, q, Replied(existing.value), rest);
    } else {
      FromFresh(cfg, db, log, t, q);
    }
  }

  lemma ReadStep(cfg: Config, db: Db, log: seq<Call>, t: TxId, q: R.Request)
    ensures var stage := if q.reward !in db.rewards || !Offered(db.rewards[q.reward], q) then Ended(Failed)
                         else Checked(db.rewards[q.reward]);
            Do(cfg, At(db, log, t, q, Fresh, NoWrites), ReadReward(t)) == At(db, log, t, q, stage, NoWrites)
  {
  }

  lemma FromFresh(cfg: Config, db: Db, log: seq<Call>, t: TxId, q: R.Request)
    requires R.FindByKey(db, q.user, q.key).None?
    ensures EndsAsCall(cfg, db, log, t, q, Play(cfg, At(db, log, t, q, Fresh, NoWrites), Statements(t, q)[1..]))
  {
    var rest := Statements(t, q)[2..];
    PlayFirst(cfg, At(db, log, t, q, Fresh, NoWrites), ReadReward(t), rest);
    assert Statements(t, q)[1..] == [ReadReward(t)] + rest;
    ReadStep(cfg, db, log, t, q);
    if q.reward !in db.rewards || !Offered(db.rewards[q.reward], q) {
      Stops(cfg, db, log, t, q, Failed, rest);
    } else {
      FromChecked(cfg, db, log, t, q);
    }
  }

  /** A request the catalog allows, with a new key. */
  ghost predicate Allowed(db: Db, q: R.Request) {
    R.FindByKey(db, q.user, q.key).None? && q.reward in db.rewards && Offered(db.rewards[q.reward], q)
  }

  ghost predicate InStock(db: Db, q: R.Request) {
    Allowed(db, q) && (db.rewards[q.reward].stock.Limited? ==> db.rewards[q.reward].stock.units > 0)
  }

  ghost predicate Affordable(db: Db, q: R.Request) {
    InStock(db, q) && q.user in db.users && db.users[q.user].points >= db.rewards[q.reward].cost
  }

  function CodeFor(db: Db, q: R.Request): MerchantCode
    requires q.reward in db.rewards
  {
    if db.rewards[q.reward].cash then NoCode else R.FirstFree(db.redemptions, q.draws)
  }

  ghost predicate Codable(db: Db, q: R.Request) {
    Affordable(db, q) && (db.rewards[q.reward].cash || CodeFor(db, q).MerchantCode?)
  }

  /** The stock row a reservation remembers, and the balance a payment adds to it. */
  function UnitHeld(db: Db, q: R.Request): Writes
    requires q.reward in db.rewards
  {
    var stock := db.rewards[q.reward].stock;
    if stock.Limited? then NoWrites.(reward := q.reward, units := Some(stock.units - 1)) else NoWrites
  }

  function PointsHeld(db: Db, q: R.Request): Writes
    requires q.reward in db.rewards && q.user in db.users
  {
    UnitHeld(db, q).(user := q.user, points := Some(db.users[q.user].points - db.rewards[q.reward].cost))
  }

  lemma ReserveStep(cfg: Config, db: Db, log: seq<Call>, t: TxId, q: R.Request)
    requires Allowed(db, q)
    ensures Do(cfg, At(db, log, t, q, Checked(db.rewards[q.reward]), NoWrites), Reserve(t)) ==
            if InStock(db, q) then At(db, log, t, q, Reserved(db.rewards[q.reward]), UnitHeld(db, q))
            else At(db, log, t, q, Ended(Failed), NoWrites)
  {
    assert !RewardLocked(At(db, log, t, q, Checked(db.rewards[q.reward]), NoWrites), t, q.reward);
  }

  lemma FromChecked(cfg: Config, db: Db, log: seq<Call>, t: TxId, q: R.Request)
    requires Allowed(db, q)
    ensures EndsAsCall(cfg, db, log, t, q,
                       Play(cfg, At(db, log, t, q, Checked(db.rewards[q.reward]), NoWrites), Statements(t, q)[2..]))
  {
    var rest := Statements(t, q)[3..];
    PlayFirst(cfg, At(db, log, t, q, Checked(db.rewards[q.reward]), NoWrites), Reserve(t), rest);
    assert Statements(t, q)[2..] == [Reserve(t)] + rest;
    ReserveStep(cfg, db, log, t, q);
    if InStock(db, q) {
      FromReserved(cfg, db, log, t, q);
    } else {
      Stops(cfg, db, log, t, q, Failed, rest);
    }
  }

  lemma PayStep(cfg: Config, db: Db, log: seq<Call>, t: TxId, q: R.Request)
    requires InStock(db, q)
    ensures Do(cfg, At(db, log, t, q, Reserved(db.rewards[q.reward]), UnitHeld(db, q)), Pay(t)) ==
            if Affordable(db, q) then At(db, log, t, q, Paid(db.rewards[q.reward]), PointsHeld(db, q))
            else At(db, log, t, q, Ended(Failed), NoWrites)
  {
    assert !UserLocked(At(db, log, t, q, Reserved(db.rewards[q.reward]), UnitHeld(db, q)), t, q.user);
  }

  lemma FromReserved(cfg: Config, db: Db, log: seq<Call>, t: TxId, q: R.Request)
    requires InStock(db, q)
    ensures EndsAsCall(cfg, db, log, t, q,
                       Play(cfg, At(db, log, t, q, Reserved(db.rewards[q.reward]), UnitHeld(db, q)), Statements(t, q)[3..]))
  {
    var rest := Statements(t, q)[4..];
    PlayFirst(cfg, At(db, log, t, q, Reserved(db.rewards[q.reward]), UnitHeld(db, q)), Pay(t), rest);
    assert Statements(t, q)[3..] == [Pay(t)] + rest;
    PayStep(cfg, db, log, t, q);
    if Affordable(db, q) {
      FromPaid(cfg, db, log, t, q);
    } else {
      Stops(cfg, db, log, t, q, Failed, rest);
    }
  }

  lemma DrawStep(cfg: Config, db: Db, log: seq<Call>, t: TxId, q: R.Request)
    requires Affordable(db, q)
    ensures Do(cfg, At(db, log, t, q, Paid(db.rewards[q.reward]), PointsHeld(db, q)), DrawCode(t, q.draws)) ==
            if Codable(db, q) then At(db, log, t, q, Coded(db.rewards[q.reward], CodeFor(db, q)), PointsHeld(db, q))
            else At(db, log, t, q, Ended(Failed), NoWrites)
  {
  }

  lemma FromPaid(cfg: Config, db: Db, log: seq<Call>, t: TxId, q: R.Request)
    requires Affordable(db, q)
    ensures EndsAsCall(cfg, db, log, t, q,
                       Play(cfg, At(db, log, t, q, Paid(db.rewards[q.reward]), PointsHeld(db, q)), Statements(t, q)[4..]))
  {
    var rest := Statements(t, q)[5..];
    PlayFirst(cfg, At(db, log, t, q, Paid(db.rewards[q.reward]), PointsHeld(db, q)), DrawCode(t, q.draws), rest);
    assert Statements(t, q)[4..] == [DrawCode(t, q.draws)] + rest;
    DrawStep(cfg, db, log, t, q);
    if Codable(db, q) {
      FromCoded(cfg, db, log, t, q);
    } else {
      Stops(cfg, db, log, t, q, Failed, rest);
    }
  }

  /** The transaction with everything written. */
  function AllHeld(db: Db, log: seq<Call>, t: TxId, q: R.Request): World
    requires q.reward in db.rewards && q.user in db.users
  {
    At(db, log, t, q, Inserted(db.rewards[q.reward]), PointsHeld(db, q).(id := q.id, row := Some(R.NewRow(db, q))))
  }

  lemma InsertStep(cfg: Config, db: Db, log: seq<Call>, t: TxId, q: R.Request)
    requires Codable(db, q)
    ensures Do(cfg, At(db, log, t, q, Coded(db.rewards[q.reward], CodeFor(db, q)), PointsHeld(db, q)), Insert(t)) ==
            if q.id in db.redemptions then At(db, log, t, q, Conflicted, NoWrites) else AllHeld(db, log, t, q)
  {
    var rw, row := db.rewards[q.reward], R.NewRow(db, q);
    assert row == RowFor(q, rw, CodeFor(db, q));
    assert !InsertWaits(At(db, log, t, q, Coded(rw, CodeFor(db, q)), PointsHeld(db, q)), t, q.id, row);
    forall i | i in db.redemptions
      ensures !Clash(db.redemptions[i], row)
    {
      assert !R.HasKey(db.redemptions[i], q.user, q.key);
    }
  }

  lemma RefetchStep(cfg: Config, db: Db, log: seq<Call>, t: TxId, q: R.Request)
    requires Codable(db, q)
    ensures Do(cfg, At(db, log, t, q, Conflicted, NoWrites), Refetch(t)) == At(db, log, t, q, Ended(Failed), NoWrites)
    ensures Do(cfg, AllHeld(db, log, t, q), Refetch(t)) == AllHeld(db, log, t, q)
  {
  }

  lemma FromCoded(cfg: Config, db: Db, log: seq<Call>, t: TxId, q: R.Request)
    requires Codable(db, q)
    ensures EndsAsCall(cfg, db, log, t, q,
                       Play(cfg, At(db, log, t, q, Coded(db.rewards[q.reward], CodeFor(db, q)), PointsHeld(db, q)), Statements(t, q)[5..]))
  {
    var w, rest := At(db, log, t, q, Coded(db.rewards[q.reward], CodeFor(db, q)), PointsHeld(db, q)), Statements(t, q)[6..];
    PlayFirst(cfg, w, Insert(t), rest);
    assert Statements(t, q)[5..] == [Insert(t)] + rest;
    InsertStep(cfg, db, log, t, q);
    PlayFirst(cfg, Do(cfg, w, Insert(t)), Refetch(t), [Commit(t)]);
    assert rest == [Refetch(t)] + [Commit(t)];
    RefetchStep(cfg, db, log, t, q);
    if q.id in db.redemptions {
      Stops(cfg, db, log, t, q, Failed, [Commit(t)]);
    } else {
      Commits(cfg, db, log, t, q);
    }
  }

  lemma Commits(cfg: Config, db: Db, log: seq<Call>, t: TxId, q: R.Request)
    requires Codable(db, q) && q.id !in db.redemptions
    ensures EndsAsCall(cfg, db, log, t, q, Play(cfg, AllHeld(db, log, t, q), [Commit(t)]))
  {
    var w := AllHeld(db, log, t, q);
    assert [Commit(t)][..0] == [];
    assert Play(cfg, w, [Commit(t)]) == Do(cfg, w, Commit(t));
    Grants(db, log, t, q);
  }

  /** What the remembered rows install is what the call grants. */
  lemma Grants(db: Db, log: seq<Call>, t: TxId, q: R.Request)
    requires Codable(db, q) && q.id !in db.redemptions
    ensures R.RedeemReply(db, q) == R.Granted(q.id)
    ensures Install(db, AllHeld(db, log, t, q).txns[t].w) == R.Redeem(db, q)
  {
    var writes := AllHeld(db, log, t, q).txns[t].w;
    assert R.Refusal(db, q).None?;
    assert Install(db, writes).users == R.Grant(db, q).users;
    assert Install(db, writes).rewards == R.Grant(db, q).rewards;
  }
}
