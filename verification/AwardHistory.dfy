/** What overlapping awards do to one account over a whole run. An award worth
    anything writes the balance it read plus its points and bonus, so what was
    committed between its SELECT and its COMMIT is overwritten: awards of the same
    user, and what the user has spent or been refunded meanwhile. */
module AwardHistory {
  import opened Sums
  import opened Schema
  import D = DepositService
  import opened Ledger
  import opened Lifecycle
  import opened DepositRace

  // ---- schedules -----------------------------------------------------------

  /** One commit, as one user's account sees it: an award that wrote the balance, with
      how many commits it had seen when it read and what it is worth, or a relative
      change, of zero points when the commit does not concern the user. */
  datatype Entry = Award(read: nat, points: int) | Shift(points: int)

  function Moved(h: seq<Entry>): int {
    if h == [] then 0 else Moved(h[..|h| - 1]) + h[|h| - 1].points
  }

  /** The points a schedule loses: the last award keeps what its read had kept and
      overwrites every movement since; a relative change overwrites nothing. */
  function Lost(h: seq<Entry>): int
    decreases |h|
  {
    if h == [] then 0
    else
      var rest, last := h[..|h| - 1], h[|h| - 1];
      if last.Shift? || last.read > |rest| then Lost(rest)
      else Lost(rest[..last.read]) + Moved(rest[last.read..])
  }

  /** Reads precede commits, and a balance is written to be raised. */
  ghost predicate Timed(h: seq<Entry>) {
    forall k :: 0 <= k < |h| && h[k].Award? ==> h[k].read <= k && h[k].points > 0
  }

  /** The balance moves between the SELECT and the COMMIT of award j. */
  ghost predicate StaleAt(h: seq<Entry>, j: nat)
    requires j < |h|
  {
    h[j].Award? && exists i :: h[j].read <= i < j && h[i].points != 0
  }

  /** The user neither spends nor is refunded between the SELECT and the COMMIT of an
      award. */
  ghost predicate Calm(h: seq<Entry>) {
    forall i, j :: 0 <= i < j < |h| && h[j].Award? && h[j].read <= i && h[i].Shift? ==> h[i].points == 0
  }

  lemma {:induction false} MovedConcat(a: seq<Entry>, b: seq<Entry>)
    ensures Moved(a + b) == Moved(a) + Moved(b)
  {
    if b == [] {
      assert a + b == a;
    } else {
      assert (a + b)[..|a + b| - 1] == a + b[..|b| - 1];
      MovedConcat(a, b[..|b| - 1]);
    }
  }

  lemma {:induction false} MovedZero(h: seq<Entry>)
    requires forall k :: 0 <= k < |h| ==> h[k].points >= 0
    ensures Moved(h) >= 0
    ensures Moved(h) == 0 <==> forall k :: 0 <= k < |h| ==> h[k].points == 0
  {
    if h != [] {
      MovedZero(h[..|h| - 1]);
    }
  }

  /** A schedule without a stale award loses nothing. A calm one never gains, and loses
      nothing only then. */
  lemma {:induction false} LosesNothingWhen(h: seq<Entry>)
    requires Timed(h)
    ensures (forall j :: 0 <= j < |h| ==> !StaleAt(h, j)) ==> Lost(h) == 0
    ensures Calm(h) ==> Lost(h) >= 0
    ensures Calm(h) && Lost(h) == 0 ==> forall j :: 0 <= j < |h| ==> !StaleAt(h, j)
    decreases |h|
  {
    if h != [] {
      var rest, last := h[..|h| - 1], h[|h| - 1];
      var seen := if last.Award? then rest[..last.read] else rest;
      assert seen == h[..|seen|];
      LosesNothingWhen(seen);
      forall j | 0 <= j < |seen|
        ensures StaleAt(seen, j) == StaleAt(h, j)
      {
        StaleInPrefix(h, |seen|, j);
      }
      if last.Award? { LastOverwrites(h); }
    }
  }

  /** The last award overwrites nothing exactly when it is not stale, and unless it is,
      only awards its read had seen can be. */
  lemma LastOverwrites(h: seq<Entry>)
    requires Timed(h) && h != [] && h[|h| - 1].Award?
    ensures var since := h[..|h| - 1][h[|h| - 1].read..];
            && (!StaleAt(h, |h| - 1) ==> Moved(since) == 0)
            && (Calm(h) ==> Moved(since) >= 0)
            && (Calm(h) && Moved(since) == 0 ==> !StaleAt(h, |h| - 1))
    ensures !StaleAt(h, |h| - 1) ==> forall j :: h[|h| - 1].read <= j < |h| ==> !StaleAt(h, j)
  {
    var read := h[|h| - 1].read;
    var since := h[..|h| - 1][read..];
    assert forall k :: 0 <= k < |since| ==> since[k] == h[read + k];
    assert forall i :: read <= i < |h| - 1 ==> h[i] == since[i - read];
    if !StaleAt(h, |h| - 1) || Calm(h) {
      MovedZero(since);
    }
  }

  lemma StaleInPrefix(h: seq<Entry>, n: nat, j: nat)
    requires j < n <= |h|
    ensures StaleAt(h[..n], j) == StaleAt(h, j)
  {
    assert h[..n][j] == h[j];
    if StaleAt(h, j) {
      var i :| h[j].read <= i < j && h[i].points != 0;
      assert h[..n][i] == h[i];
    }
    if StaleAt(h[..n], j) {
      var i :| h[j].read <= i < j && h[..n][i].points != 0;
      assert h[..n][i] == h[i];
    }
  }

  /** Spending can hide a loss: an award and a purchase of the same worth, both
      overwritten by an award that had read before them, cancel. */
  lemma LossesCancel(p: int, q: int)
    requires p > 0 && q > 0
    ensures var h := [Award(0, p), Shift(-p), Award(0, q)];
            Timed(h) && StaleAt(h, 2) && !Calm(h) && Lost(h) == 0
  {
    var h := [Award(0, p), Shift(-p), Award(0, q)];
    var rest, first := [Award(0, p), Shift(-p)], [Award(0, p)];
    assert h[..2] == rest && rest[..0] == [] && rest[0..] == rest && rest[..1] == first && first[..0] == [];
    assert Moved(first) == p && Moved(rest) == 0;
    assert h[0].points != 0 && h[1].Shift? && h[1].points != 0;
  }

  // ---- runs ----------------------------------------------------------------

  ghost function EntryOf(w: World, m: Mark, u: UserId): Entry {
    match m
    case Settled(t) =>
      if t in w.txns && w.txns[t].stage.Committed? && WritesBalance(w.txns[t].stage.v, w.txns[t].stage.rows)
         && w.txns[t].stage.v.seen.user == u
      then Award(w.txns[t].stage.v.read, Amount(w.txns[t].stage.v, w.txns[t].stage.rows))
      else Shift(0)
    case Traded(was, now) => Shift(if u in was && u in now then now[u].points - was[u].points else 0)
  }

  /** The commits of a run as u's account sees them. */
  ghost function History(w: World, u: UserId): (h: seq<Entry>)
    ensures |h| == |w.commits|
    ensures forall k :: 0 <= k < |h| ==> h[k] == EntryOf(w, w.commits[k], u)
  {
    seq(|w.commits|, k requires 0 <= k < |w.commits| => EntryOf(w, w.commits[k], u))
  }

  /** The balance a schedule leaves. */
  function Balance(start: int, h: seq<Entry>): int {
    start + Moved(h) - Lost(h)
  }

  /** A balance an award has read is the committed one of its SELECT. */
  ghost predicate ReadOf(start: int, h: seq<Entry>, v: View, u: UserId) {
    v.verdict.Award? && v.seen.user == u ==> v.read <= |h| && v.balance == Balance(start, h[..v.read])
  }

  /** What the confirmed events, the completed challenges and the standing redemptions
      of u come to. */
  ghost function Recorded(db: Db, u: UserId): int {
    Sum(db.events, AwardsOf(u)) + Sum(db.completions, BonusesOf(u)) - Sum(db.redemptions, SpentBy(u))
  }

  ghost predicate Accounted(start: int, recorded: int, w: World, u: UserId) {
    var h := History(w, u);
    && u in w.db.users && w.db.users[u].points == Balance(start, h)
    && Recorded(w.db, u) == recorded + Moved(h)
    && Timed(h)
    && Listed(w) && ReadsOf(start, h, w, u)
  }

  ghost predicate Listed(w: World) {
    forall k :: 0 <= k < |w.commits| && w.commits[k].Settled? ==>
      w.commits[k].t in w.txns && w.txns[w.commits[k].t].stage.Committed?
  }

  ghost predicate ReadsOf(start: int, h: seq<Entry>, w: World, u: UserId) {
    && (forall t :: t in w.txns && w.txns[t].stage.Judged? ==> ReadOf(start, h, w.txns[t].stage.v, u))
    && (forall t :: t in w.txns && w.txns[t].stage.Flushed? ==> ReadOf(start, h, w.txns[t].stage.v, u))
  }

  /** Any step but a commit. */
  lemma PutKeepsAccount(start: int, recorded: int, w: World, t: TxId, tx: Txn, u: UserId)
    requires Accounted(start, recorded, w, u) && !tx.stage.Committed?
    requires t in w.txns ==> !w.txns[t].stage.Committed?
    requires tx.stage.Judged? ==> ReadOf(start, History(w, u), tx.stage.v, u)
    requires tx.stage.Flushed? ==> ReadOf(start, History(w, u), tx.stage.v, u)
    ensures Accounted(start, recorded, Put(w, t, tx), u)
  {
    assert History(Put(w, t, tx), u) == History(w, u);
  }

  lemma ReadIsCurrent(start: int, recorded: int, cfg: Config, w: World, tx: Txn, u: UserId)
    requires Accounted(start, recorded, w, u)
    ensures var stage := Read(cfg, w.db, tx, |w.commits|);
            stage.Judged? ==> ReadOf(start, History(w, u), stage.v, u)
  {
    assert History(w, u)[..|w.commits|] == History(w, u);
  }

  /** One commit appended to a schedule. */
  lemma AppendEntry(start: int, h: seq<Entry>, g: Entry)
    requires g.Award? ==> g.read <= |h|
    ensures Moved(h + [g]) == Moved(h) + g.points
    ensures Balance(start, h + [g]) == g.points + Balance(start, if g.Award? then h[..g.read] else h)
  {
    assert (h + [g])[..|h|] == h;
    if g.Award? {
      assert h == h[..g.read] + h[g.read..];
      MovedConcat(h[..g.read], h[g.read..]);
    }
  }

  lemma CommitKeepsAccount(start: int, recorded: int, cfg: Config, w: World, t: TxId, u: UserId)
    requires WorldOk(cfg, w) && Accounted(start, recorded, w, u)
    requires t in w.txns && w.txns[t].stage.Flushed?
    ensures Accounted(start, recorded, Installed(w, t), u)
  {
    var after := Installed(w, t);
    var h, g := History(w, u), EntryOf(after, Settled(t), u);
    NextHistory(w, t, u);
    AmountRaises(cfg, w, t);
    CommitMovesBalance(start, recorded, cfg, w, t, u);
    CommitRecords(start, recorded, cfg, w, t, u);
    Appended(h, g);
    CommitKeepsReads(start, h, w, t, u, g);
  }

  lemma CommitKeepsReads(start: int, h: seq<Entry>, w: World, t: TxId, u: UserId, g: Entry)
    requires ReadsOf(start, h, w, u) && Listed(w)
    requires t in w.txns && w.txns[t].stage.Flushed? && Writes(w.txns[t].stage.v)
    ensures ReadsOf(start, h + [g], Installed(w, t), u) && Listed(Installed(w, t))
  {
    var after := Installed(w, t);
    forall o | o in after.txns && o != t && (after.txns[o].stage.Judged? || after.txns[o].stage.Flushed?)
      ensures ReadOf(start, h + [g], after.txns[o].stage.v, u)
    {
      StillRead(start, h, g, w.txns[o].stage.v, u);
    }
  }

  lemma CommitMovesBalance(start: int, recorded: int, cfg: Config, w: World, t: TxId, u: UserId)
    requires WorldOk(cfg, w) && Accounted(start, recorded, w, u)
    requires t in w.txns && w.txns[t].stage.Flushed?
    ensures var after := Installed(w, t);
            u in after.db.users && after.db.users[u].points == Balance(start, History(w, u) + [EntryOf(after, Settled(t), u)])
  {
    AppendEntry(start, History(w, u), EntryOf(Installed(w, t), Settled(t), u));
  }

  /** The event and the completion rows of a commit are worth its amount. */
  lemma CommitRecords(start: int, recorded: int, cfg: Config, w: World, t: TxId, u: UserId)
    requires WorldOk(cfg, w) && Accounted(start, recorded, w, u)
    requires t in w.txns && w.txns[t].stage.Flushed?
    ensures var after := Installed(w, t);
            Recorded(after.db, u) == recorded + Moved(History(w, u) + [EntryOf(after, Settled(t), u)])
  {
    var tx := w.txns[t];
    var v, rows := tx.stage.v, Rows(tx.stage.claims);
    AppendEntry(start, History(w, u), EntryOf(Installed(w, t), Settled(t), u));
    SumUpdate(w.db.events, AwardsOf(u), tx.op, EventRow(tx.e, v));
    SumDisjoint(w.db.completions, rows, BonusesOf(u));
    if v.seen.user != u { OthersRows(v, rows, u); }
    if rows == map[] { assert Sum(rows, BonusesOf(u)) == 0; }
  }

  lemma {:induction false} OthersRows(v: View, rows: Completions, u: UserId)
    requires RowsOk(v, rows) && v.seen.user != u
    ensures Sum(rows, BonusesOf(u)) == 0
    decreases rows.Keys
  {
    if rows.Keys != {} {
      var k :| k in rows.Keys;
      SumRemove(rows, BonusesOf(u), k);
      OthersRows(v, rows - {k}, u);
    }
  }

  /** An award is never worth less than nothing. */
  lemma AmountRaises(cfg: Config, w: World, t: TxId)
    requires WorldOk(cfg, w) && t in w.txns && w.txns[t].stage.Flushed?
    ensures Amount(w.txns[t].stage.v, Rows(w.txns[t].stage.claims)) >= 0
  {
    var v := w.txns[t].stage.v;
    assert SessionOk(cfg, w.db.sessions[w.txns[t].op], EventOf(w.db, w.txns[t].op));
    SumNonNegative(Rows(w.txns[t].stage.claims), BonusesOf(v.seen.user));
  }

  lemma StillRead(start: int, h: seq<Entry>, g: Entry, v: View, u: UserId)
    requires ReadOf(start, h, v, u)
    ensures ReadOf(start, h + [g], v, u)
  {
    if v.verdict.Award? && v.seen.user == u {
      assert (h + [g])[..v.read] == h[..v.read];
    }
  }

  lemma Appended(h: seq<Entry>, g: Entry)
    requires Timed(h) && (g.Award? ==> g.read <= |h| && g.points > 0)
    ensures Timed(h + [g])
  {
  }

  lemma NextHistory(w: World, t: TxId, u: UserId)
    requires t in w.txns && w.txns[t].stage.Flushed? && Writes(w.txns[t].stage.v)
    requires Listed(w)
    ensures History(Installed(w, t), u) == History(w, u) + [EntryOf(Installed(w, t), Settled(t), u)]
  {
  }

  /** A market call moves the balance by what its redemption comes to. */
  lemma TradeKeepsAccount(start: int, recorded: int, w: World, call: MarketCall, u: UserId)
    requires Accounted(start, recorded, w, u)
    ensures var after := ApplyMarket(w.db, call);
            Accounted(start, recorded, World(after, w.txns, w.commits + [Traded(w.db.users, after.users)]), u)
  {
    var after := ApplyMarket(w.db, call);
    var mark := Traded(w.db.users, after.users);
    var next := World(after, w.txns, w.commits + [mark]);
    var h, g := History(w, u), EntryOf(w, mark, u);
    MarketConserves(w.db, call, u);
    assert SameDeposits(w.db, after);
    assert History(next, u) == h + [g];
    AppendEntry(start, h, g);
    Appended(h, g);
    TradeKeepsReads(start, h, w, next, u, g);
  }

  lemma TradeKeepsReads(start: int, h: seq<Entry>, w: World, next: World, u: UserId, g: Entry)
    requires ReadsOf(start, h, w, u) && Listed(w) && next.txns == w.txns
    requires |next.commits| == |w.commits| + 1 && next.commits[..|w.commits|] == w.commits
    requires next.commits[|w.commits|].Traded?
    ensures ReadsOf(start, h + [g], next, u) && Listed(next)
  {
    forall o | o in w.txns && (w.txns[o].stage.Judged? || w.txns[o].stage.Flushed?)
      ensures ReadOf(start, h + [g], w.txns[o].stage.v, u)
    {
      StillRead(start, h, g, w.txns[o].stage.v, u);
    }
    forall k | 0 <= k < |next.commits| && next.commits[k].Settled?
      ensures next.commits[k].t in w.txns && w.txns[next.commits[k].t].stage.Committed?
    {
      assert next.commits[k] == w.commits[k];
    }
  }

  lemma ActionKeepsAccount(start: int, recorded: int, cfg: Config, w: World, a: Action, u: UserId)
    requires WorldOk(cfg, w) && Accounted(start, recorded, w, u)
    ensures Accounted(start, recorded, Do(cfg, w, a), u)
  {
    var after := Do(cfg, w, a);
    if after != w {
      match a
      case Select(t) =>
        ReadIsCurrent(start, recorded, cfg, w, w.txns[t], u);
        PutKeepsAccount(start, recorded, w, t, after.txns[t], u);
      case Commit(t) => CommitKeepsAccount(start, recorded, cfg, w, t, u);
      case Trade(call) => TradeKeepsAccount(start, recorded, w, call, u);
      case _ => PutKeepsAccount(start, recorded, w, a.t, after.txns[a.t], u);
    }
  }

  lemma {:induction false} PlayAccounts(cfg: Config, db: Db, actions: seq<Action>, u: UserId)
    requires Inv(cfg, db) && u in db.users
    ensures Accounted(db.users[u].points, Recorded(db, u), Play(cfg, World(db, map[], []), actions), u)
  {
    if actions == [] {
      assert History(World(db, map[], []), u) == [];
    } else {
      var rest := actions[..|actions| - 1];
      PlayAccounts(cfg, db, rest, u);
      PlayKeeps(cfg, db, rest);
      ActionKeepsAccount(db.users[u].points, Recorded(db, u), cfg, Play(cfg, World(db, map[], []), rest),
                         actions[|actions| - 1], u);
    }
  }

  /** Over every run of overlapping deposit_result transactions and market calls the
      account of u loses exactly the points its schedule of reads and commits
      overwrites; spending that is overwritten counts against that. */
  lemma AccountLoses(cfg: Config, db: Db, actions: seq<Action>, u: UserId)
    requires Inv(cfg, db) && u in db.users
    ensures var w := Play(cfg, World(db, map[], []), actions);
            && u in w.db.users
            && Opening(w.db, u) == Opening(db, u) - Lost(History(w, u))
  {
    PlayAccounts(cfg, db, actions, u);
  }

  /** The account of u is conserved when no award of u is stale. When the user has not
      spent or been refunded inside an award, as in any run of deposit_result
      transactions alone, the account never gains, and is conserved if and only if no
      award of u worth anything commits between the SELECT and the COMMIT of another
      such award of u. */
  lemma ConservedExactlyWhen(cfg: Config, db: Db, actions: seq<Action>, u: UserId)
    requires Inv(cfg, db) && u in db.users
    ensures var w := Play(cfg, World(db, map[], []), actions);
            var h := History(w, u);
            var stale := exists j :: 0 <= j < |h| && StaleAt(h, j);
            && u in w.db.users
            && (!stale ==> Opening(w.db, u) == Opening(db, u))
            && (Calm(h) ==> Opening(w.db, u) <= Opening(db, u))
            && (Calm(h) ==> (Opening(w.db, u) == Opening(db, u) <==> !stale))
  {
    PlayAccounts(cfg, db, actions, u);
    AccountLoses(cfg, db, actions, u);
    LosesNothingWhen(History(Play(cfg, World(db, map[], []), actions), u));
  }

  ghost predicate AllSettled(w: World) {
    forall k :: 0 <= k < |w.commits| ==> w.commits[k].Settled?
  }

  lemma Settles(cfg: Config, w: World, a: Action)
    requires AllSettled(w) && !a.Trade?
    ensures AllSettled(Do(cfg, w, a))
  {
  }

  lemma {:induction false} NothingTraded(cfg: Config, w: World, actions: seq<Action>)
    requires AllSettled(w) && forall k :: 0 <= k < |actions| ==> !actions[k].Trade?
    ensures AllSettled(Play(cfg, w, actions))
  {
    if actions != [] {
      NothingTraded(cfg, w, actions[..|actions| - 1]);
      Settles(cfg, Play(cfg, w, actions[..|actions| - 1]), actions[|actions| - 1]);
    }
  }

  /** A run without market calls is calm. */
  lemma DepositsAreCalm(cfg: Config, db: Db, actions: seq<Action>, u: UserId)
    requires forall k :: 0 <= k < |actions| ==> !actions[k].Trade?
    ensures Calm(History(Play(cfg, World(db, map[], []), actions), u))
  {
    NothingTraded(cfg, World(db, map[], []), actions);
  }
}
