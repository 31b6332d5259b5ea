/** Approvals and fulfilments that overlap other calls. An administrator's call reads
    the row, checks its status and later writes the new one without checking again;
    every other call takes one step. A write that lands on a row refunded since it was
    read brings the redemption back to life, and it can be refunded once more. */
module ApprovalRace {
  import opened Sums
  import opened Schema
  import D = DepositService
  import R = RewardService
  import opened Ledger
  import opened Solvency

  type TxId = int

  /** pending lists the administrator's calls that have read and not written. */
  datatype World = World(db: Db, pending: map<TxId, MarketCall>)

  datatype Action =
    | Step(call: Call)
    | Load(t: TxId, read: MarketCall)
    | Store(t: TxId)

  predicate Unguarded(call: MarketCall) {
    call.Approve? || call.Fulfill?
  }

  /** The check on the row as it was read. */
  predicate Passes(db: Db, call: MarketCall) {
    match call
    case Approve(id) => R.ApproveReply(db, id).Done?
    case Fulfill(id) => R.FulfillReply(db, id).Done?
    case _ => false
  }

  function NewStatus(call: MarketCall): RedemptionStatus {
    if call.Approve? then Approved else Fulfilled
  }

  ghost function Do(cfg: Config, w: World, a: Action): World {
    match a
    case Step(call) =>
      if call.Market? && Unguarded(call.call) then w else w.(db := Apply(cfg, w.db, call))
    case Load(t, call) =>
      if t !in w.pending && Passes(w.db, call) then w.(pending := w.pending[t := call]) else w
    case Store(t) =>
      if t !in w.pending || !Unguarded(w.pending[t]) || w.pending[t].id !in w.db.redemptions then w
      else Stored(w, t)
  }

  function Stored(w: World, t: TxId): World
    requires t in w.pending && Unguarded(w.pending[t]) && w.pending[t].id in w.db.redemptions
  {
    var call := w.pending[t];
    World(w.db.(redemptions := R.SetStatus(w.db.redemptions, call.id, NewStatus(call))), w.pending - {t})
  }

  ghost function Play(cfg: Config, w: World, actions: seq<Action>): World {
    if actions == [] then w
    else Do(cfg, Play(cfg, w, actions[..|actions| - 1]), actions[|actions| - 1])
  }

  /** The redemption whose refund this action undoes: a write on a row refunded since
      the check. */
  ghost function Revived(w: World, a: Action): (r: Option<RedemptionId>)
    ensures r.Some? ==> r.value in w.db.redemptions && IsRefunded(w.db, r.value)
  {
    if a.Store? && a.t in w.pending && Unguarded(w.pending[a.t]) && IsRefunded(w.db, w.pending[a.t].id)
    then Some(w.pending[a.t].id) else None
  }

  /** An approval or fulfilment that nothing overlaps does what the service call does. */
  lemma Alone(cfg: Config, w: World, t: TxId, call: MarketCall)
    requires Unguarded(call) && t !in w.pending
    ensures Do(cfg, Do(cfg, w, Load(t, call)), Store(t)) == World(ApplyMarket(w.db, call), w.pending)
  {
    var loaded := Do(cfg, w, Load(t, call));
    if Passes(w.db, call) {
      assert loaded.pending - {t} == w.pending;
    }
  }

  // ---- refunds -------------------------------------------------------------

  function Bit(b: bool): nat {
    if b then 1 else 0
  }

  /** How often a run refunds a redemption, and how often it brings it back. */
  ghost function RefundCount(cfg: Config, w: World, actions: seq<Action>, id: RedemptionId): nat {
    if actions == [] then 0
    else
      var before := Play(cfg, w, actions[..|actions| - 1]);
      RefundCount(cfg, w, actions[..|actions| - 1], id)
        + Bit(!IsRefunded(before.db, id) && IsRefunded(Play(cfg, w, actions).db, id))
  }

  ghost function RevivalCount(cfg: Config, w: World, actions: seq<Action>, id: RedemptionId): nat {
    if actions == [] then 0
    else
      var before := Play(cfg, w, actions[..|actions| - 1]);
      RevivalCount(cfg, w, actions[..|actions| - 1], id) + Bit(Revived(before, actions[|actions| - 1]) == Some(id))
  }

  /** Only a revival takes a refund back. */
  lemma ActionRefunds(cfg: Config, w: World, a: Action, id: RedemptionId)
    ensures IsRefunded(w.db, id) ==> (IsRefunded(Do(cfg, w, a).db, id) <==> Revived(w, a) != Some(id))
  {
    if IsRefunded(w.db, id) && a.Step? {
      StepKeepsSettled(cfg, w.db, a.call, id);
    }
  }

  /** Over every run: refunds outnumber revivals by one exactly when a standing
      redemption ends refunded. */
  lemma {:induction false} RefundsAndRevivals(cfg: Config, w: World, actions: seq<Action>, id: RedemptionId)
    ensures RefundCount(cfg, w, actions, id) + Bit(IsRefunded(w.db, id))
         == RevivalCount(cfg, w, actions, id) + Bit(IsRefunded(Play(cfg, w, actions).db, id))
  {
    if actions != [] {
      var rest := actions[..|actions| - 1];
      RefundsAndRevivals(cfg, w, rest, id);
      ActionRefunds(cfg, Play(cfg, w, rest), actions[|actions| - 1], id);
    }
  }

  /** A standing redemption is refunded more than once if and only if it is revived
      twice, or once and then refunded again. */
  lemma RefundedAgainExactlyWhen(cfg: Config, w: World, actions: seq<Action>, id: RedemptionId)
    requires !IsRefunded(w.db, id)
    ensures var revivals := RevivalCount(cfg, w, actions, id);
            RefundCount(cfg, w, actions, id) > 1 <==>
            revivals > 1 || (revivals == 1 && IsRefunded(Play(cfg, w, actions).db, id))
  {
    RefundsAndRevivals(cfg, w, actions, id);
  }

  // ---- the account ---------------------------------------------------------

  ghost predicate Priced(db: Db) {
    forall id :: id in db.redemptions ==> db.redemptions[id].spent > 0
  }

  /** Points of u an action gives away by reviving a redemption. */
  ghost function Given(w: World, a: Action, u: UserId): int {
    var r := Revived(w, a);
    if r.Some? && w.db.redemptions[r.value].user == u then w.db.redemptions[r.value].spent else 0
  }

  ghost function GivenAway(cfg: Config, w: World, actions: seq<Action>, u: UserId): int {
    if actions == [] then 0
    else
      var rest := actions[..|actions| - 1];
      GivenAway(cfg, w, rest, u) + Given(Play(cfg, w, rest), actions[|actions| - 1], u)
  }

  lemma StoreGives(cfg: Config, w: World, t: TxId, u: UserId)
    requires u in w.db.users
    ensures var after := Do(cfg, w, Store(t)).db;
            u in after.users && Opening(after, u) == Opening(w.db, u) + Given(w, Store(t), u)
  {
    if Do(cfg, w, Store(t)) != w {
      var call := w.pending[t];
      SumUpdate(w.db.redemptions, SpentBy(u), call.id, w.db.redemptions[call.id].(status := NewStatus(call)));
    }
  }

  /** Over every run an account gains exactly the price of each redemption revived. */
  lemma {:induction false} AccountGains(cfg: Config, w: World, actions: seq<Action>, u: UserId)
    requires u in w.db.users
    ensures var after := Play(cfg, w, actions).db;
            u in after.users && Opening(after, u) == Opening(w.db, u) + GivenAway(cfg, w, actions, u)
  {
    if actions != [] {
      var before, a := Play(cfg, w, actions[..|actions| - 1]), actions[|actions| - 1];
      AccountGains(cfg, w, actions[..|actions| - 1], u);
      if a.Store? {
        StoreGives(cfg, before, a.t, u);
      } else if a.Step? {
        StepConserves(cfg, before.db, a.call, u);
      }
    }
  }

  /** Prices stay positive: a redemption is granted at a positive cost only. */
  lemma ActionKeepsPrices(cfg: Config, w: World, a: Action)
    requires Priced(w.db)
    ensures Priced(Do(cfg, w, a).db)
  {
    if a.Step? {
      if a.call.Market? {
        MarketKeepsPrices(w.db, a.call.call);
      } else {
        assert SameMarket(w.db, Apply(cfg, w.db, a.call)) by {
          if !a.call.Complete? { assert SameAccounts(w.db, Apply(cfg, w.db, a.call)); }
        }
      }
    }
  }

  lemma MarketKeepsPrices(db: Db, call: MarketCall)
    requires Priced(db)
    ensures Priced(ApplyMarket(db, call))
  {
    forall id | id in ApplyMarket(db, call).redemptions
      ensures ApplyMarket(db, call).redemptions[id].spent > 0
    {
      if id in db.redemptions { MarketMovesForward(db, call, id); }
    }
  }

  lemma {:induction false} PlayKeepsPrices(cfg: Config, w: World, actions: seq<Action>)
    requires Priced(w.db)
    ensures Priced(Play(cfg, w, actions).db)
  {
    if actions != [] {
      PlayKeepsPrices(cfg, w, actions[..|actions| - 1]);
      ActionKeepsPrices(cfg, Play(cfg, w, actions[..|actions| - 1]), actions[|actions| - 1]);
    }
  }

  /** Action k of a run revives a redemption of u. */
  ghost predicate RevivesAt(cfg: Config, w: World, actions: seq<Action>, k: nat, u: UserId)
    requires k < |actions|
  {
    Revives(Play(cfg, w, actions[..k]), actions[k], u)
  }

  ghost predicate Revives(w: World, a: Action, u: UserId) {
    Revived(w, a).Some? && w.db.redemptions[Revived(w, a).value].user == u
  }

  lemma {:induction false} GivesNothingExactlyWhen(cfg: Config, w: World, actions: seq<Action>, u: UserId)
    requires Priced(w.db)
    ensures GivenAway(cfg, w, actions, u) >= 0
    ensures GivenAway(cfg, w, actions, u) == 0 <==>
              forall k :: 0 <= k < |actions| ==> !RevivesAt(cfg, w, actions, k, u)
  {
    if actions != [] {
      var n := |actions| - 1;
      var rest := actions[..n];
      GivesNothingExactlyWhen(cfg, w, rest, u);
      PlayKeepsPrices(cfg, w, rest);
      LastGives(Play(cfg, w, rest), actions[n], u);
      assert RevivesAt(cfg, w, actions, n, u) == Revives(Play(cfg, w, rest), actions[n], u);
      forall k | 0 <= k < n ensures RevivesAt(cfg, w, actions, k, u) == RevivesAt(cfg, w, rest, k, u) {
        assert rest[..k] == actions[..k];
      }
    }
  }

  lemma LastGives(w: World, a: Action, u: UserId)
    requires Priced(w.db)
    ensures Given(w, a, u) >= 0 && (Given(w, a, u) == 0 <==> !Revives(w, a, u))
  {
  }

  /** An account is conserved if and only if no approval or fulfilment of a redemption
      of the user is written after a refund it had not seen. */
  lemma ConservedExactlyWhen(cfg: Config, w: World, actions: seq<Action>, u: UserId)
    requires Priced(w.db) && u in w.db.users
    ensures var after := Play(cfg, w, actions).db;
            && u in after.users
            && (Opening(after, u) == Opening(w.db, u) <==>
                forall k :: 0 <= k < |actions| ==> !RevivesAt(cfg, w, actions, k, u))
  {
    AccountGains(cfg, w, actions, u);
    GivesNothingExactlyWhen(cfg, w, actions, u);
  }

  // ---- such a run ----------------------------------------------------------

  /** An approval reads a pending redemption, a rejection refunds it, the approval is
      written, and a second rejection refunds it again. */
  lemma RejectedTwice(cfg: Config, db: Db, id: RedemptionId)
    requires id in db.redemptions && db.redemptions[id].status == RedemptionStatus.Pending
    requires db.redemptions[id].user in db.users
    ensures var reject := Step(Market(Reject(id)));
            var actions := [Load(0, Approve(id)), reject, Store(0), reject];
            var rd, after := db.redemptions[id], Play(cfg, World(db, map[]), actions).db;
            && RefundCount(cfg, World(db, map[]), actions, id) == 2
            && rd.user in after.users && after.users[rd.user].points == db.users[rd.user].points + 2 * rd.spent
  {
    var w, reject := World(db, map[]), Step(Market(Reject(id)));
    var a, b, c, d := [Load(0, Approve(id))], [Load(0, Approve(id)), reject],
                      [Load(0, Approve(id)), reject, Store(0)], [Load(0, Approve(id)), reject, Store(0), reject];
    assert a[..0] == [] && b[..1] == a && c[..2] == b && d[..3] == c;
    var loaded := World(db, map[0 := Approve(id)]);
    assert Play(cfg, w, a) == loaded;
    var rejected := loaded.(db := R.Refund(db, id, RedemptionStatus.Rejected));
    assert Play(cfg, w, b) == rejected;
    assert Play(cfg, w, c) == Stored(rejected, 0);
    SecondRejection(cfg, db, id);
    assert RefundCount(cfg, w, a, id) == 0;
    assert RefundCount(cfg, w, b, id) == 1;
    assert RefundCount(cfg, w, c, id) == 1;
  }

  lemma SecondRejection(cfg: Config, db: Db, id: RedemptionId)
    requires id in db.redemptions && db.redemptions[id].status == RedemptionStatus.Pending
    requires db.redemptions[id].user in db.users
    ensures var rejected := World(R.Refund(db, id, RedemptionStatus.Rejected), map[0 := Approve(id)]);
            var back := Stored(rejected, 0).db;
            var end := R.Reject(back, id);
            && IsRefunded(rejected.db, id) && !IsRefunded(back, id) && IsRefunded(end, id)
            && db.redemptions[id].user in end.users
            && end.users[db.redemptions[id].user].points
               == db.users[db.redemptions[id].user].points + 2 * db.redemptions[id].spent
  {
  }
}
