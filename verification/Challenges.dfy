/** When a user holds a completion row: a fixed catalog over every run of calls. */
module Challenges {
  import opened Sums
  import opened Schema
  import D = DepositService
  import R = RewardService
  import opened Ledger
  import opened Lifecycle

  ghost predicate HasDeposit(db: Db, u: UserId, cls: WasteClass) {
    exists op :: op in db.events && db.events[op].user == u && db.events[op].cls == cls && db.events[op].status == Accepted
  }

  /** The user has recycled in the class and reached the target. */
  ghost predicate Reached(db: Db, u: UserId, c: Challenge) {
    HasDeposit(db, u, c.cls) && D.Progress(db.events, u, c.cls) >= c.target
  }

  /** Users hold the row of an active challenge exactly when they have reached it. */
  ghost predicate RowsMatch(cfg: Config, db: Db) {
    forall u, i :: 0 <= i < |cfg.challenges| && cfg.challenges[i].active ==>
      ((u, cfg.challenges[i].id) in db.completions <==> Reached(db, u, cfg.challenges[i]))
  }

  /** Which rows a deposit leaves, whatever the catalog order. */
  lemma {:induction false} CompletedRows(catalog: seq<Challenge>, u: UserId, cls: WasteClass, progress: int,
                                         done: map<(UserId, ChallengeId), int>, k: (UserId, ChallengeId))
    ensures k in D.Completed(catalog, u, cls, progress, done) <==>
              || k in done
              || exists i :: 0 <= i < |catalog| && k == (u, catalog[i].id) && catalog[i].cls == cls
                             && catalog[i].active && progress >= catalog[i].target
    ensures k in done ==> D.Completed(catalog, u, cls, progress, done)[k] == done[k]
  {
    if catalog != [] {
      var rest := catalog[..|catalog| - 1];
      CompletedRows(rest, u, cls, progress, done, k);
      var c := catalog[|catalog| - 1];
      assert forall i :: 0 <= i < |rest| ==> rest[i] == catalog[i];
      if k in D.Completed(catalog, u, cls, progress, done) && k !in D.Completed(rest, u, cls, progress, done) {
        assert k == (u, catalog[|catalog| - 1].id);
      }
    }
  }

  /** A new row records the positive part of its challenge's reward. */
  lemma {:induction false} NewRowsPayTheirReward(catalog: seq<Challenge>, u: UserId, cls: WasteClass, progress: int,
                                                 done: map<(UserId, ChallengeId), int>, i: nat)
    requires forall a, b :: 0 <= a < b < |catalog| ==> catalog[a].id != catalog[b].id
    requires i < |catalog| && (u, catalog[i].id) !in done
    requires (u, catalog[i].id) in D.Completed(catalog, u, cls, progress, done)
    ensures D.Completed(catalog, u, cls, progress, done)[(u, catalog[i].id)]
         == if catalog[i].reward > 0 then catalog[i].reward else 0
  {
    var rest := catalog[..|catalog| - 1];
    var last := |catalog| - 1;
    if i < last {
      assert rest[i] == catalog[i];
      NewRowsPayTheirReward(rest, u, cls, progress, done, i);
    } else {
      CompletedRows(rest, u, cls, progress, done, (u, catalog[last].id));
    }
  }

  /** A challenge that would pay u for a deposit in cls: active, of the class, with a
      positive reward, not completed, and reached. */
  predicate Pays(c: Challenge, u: UserId, cls: WasteClass, progress: int, done: map<(UserId, ChallengeId), int>) {
    c.cls == cls && c.active && c.reward > 0 && (u, c.id) !in done && progress >= c.target
  }

  /** The rewards of the challenges that would pay. */
  function RewardsOf(catalog: seq<Challenge>, u: UserId, cls: WasteClass, progress: int,
                     done: map<(UserId, ChallengeId), int>): int
  {
    if catalog == [] then 0
    else
      var c := catalog[|catalog| - 1];
      RewardsOf(catalog[..|catalog| - 1], u, cls, progress, done) + if Pays(c, u, cls, progress, done) then c.reward else 0
  }

  /** The bonus of a deposit is the sum of the positive rewards of exactly the active
      challenges of the class that were not completed and are reached. */
  lemma {:induction false} BonusIsTheRewards(catalog: seq<Challenge>, u: UserId, cls: WasteClass, progress: int,
                                             done: map<(UserId, ChallengeId), int>)
    requires forall a, b :: 0 <= a < b < |catalog| ==> catalog[a].id != catalog[b].id
    ensures D.Bonus(catalog, u, cls, progress, done) == RewardsOf(catalog, u, cls, progress, done)
  {
    if catalog != [] {
      var rest, c := catalog[..|catalog| - 1], catalog[|catalog| - 1];
      BonusIsTheRewards(rest, u, cls, progress, done);
      CompletedRows(rest, u, cls, progress, done, (u, c.id));
      assert forall i :: 0 <= i < |rest| ==> rest[i] == catalog[i] && catalog[i].id != c.id;
      assert (u, c.id) in D.Completed(rest, u, cls, progress, done) <==> (u, c.id) in done;
    }
  }

  /** What a confirmation credits: the points of the session and the rewards of the
      challenges it completes, measured on the confirmed weight before the call and the
      weight of this deposit. Nobody else is credited. */
  lemma ConfirmPays(cfg: Config, db: Db, op: OperationId, e: D.ResultEvent)
    requires ValidConfig(cfg) && op !in db.events
    requires op in db.sessions && db.sessions[op].cls.Classified? && db.sessions[op].user in db.users
    ensures var s, after := db.sessions[op], D.Confirm(cfg, db, op, e);
            var progress := D.Progress(db.events, s.user, s.cls.cls) + e.weight.GetOr(0);
            var paid := s.potentialPoints + RewardsOf(cfg.challenges, s.user, s.cls.cls, progress, db.completions);
            && after.users.Keys == db.users.Keys
            && forall u :: u in db.users ==>
                 after.users[u] == User(db.users[u].points + (if u == s.user then paid else 0), db.users[u].faculty)
  {
    var s := db.sessions[op];
    ProgressAfterEvent(db.events, op, D.ConfirmedEvent(s, e), s.user, s.cls.cls);
    BonusIsTheRewards(cfg.challenges, s.user, s.cls.cls, D.ProgressAfter(db, op, e), db.completions);
  }

  /** The completion rows a confirmation leaves: those before it, as they were, and one
      for each active challenge of the class that is reached, worth its reward. */
  lemma ConfirmCompletes(cfg: Config, db: Db, op: OperationId, e: D.ResultEvent, i: nat)
    requires ValidConfig(cfg) && op !in db.events && i < |cfg.challenges|
    requires op in db.sessions && db.sessions[op].cls.Classified? && db.sessions[op].user in db.users
    ensures var s, after, c := db.sessions[op], D.Confirm(cfg, db, op, e), cfg.challenges[i];
            var k, progress := (s.user, c.id), D.Progress(db.events, s.user, s.cls.cls) + e.weight.GetOr(0);
            && (k in after.completions <==>
                k in db.completions || (c.cls == s.cls.cls && c.active && progress >= c.target))
            && (k in db.completions ==> after.completions[k] == db.completions[k])
            && (k in after.completions && k !in db.completions ==>
                  after.completions[k] == if c.reward > 0 then c.reward else 0)
  {
    var s, c := db.sessions[op], cfg.challenges[i];
    var progress := D.ProgressAfter(db, op, e);
    ProgressAfterEvent(db.events, op, D.ConfirmedEvent(s, e), s.user, s.cls.cls);
    CompletedRows(cfg.challenges, s.user, s.cls.cls, progress, db.completions, (s.user, c.id));
    if (s.user, c.id) in D.Confirm(cfg, db, op, e).completions && (s.user, c.id) !in db.completions {
      NewRowsPayTheirReward(cfg.challenges, s.user, s.cls.cls, progress, db.completions, i);
    }
  }

  /** A deposit pays no bonus exactly when no challenge of the catalog would pay. */
  lemma {:induction false} ZeroBonusExactlyWhen(catalog: seq<Challenge>, u: UserId, cls: WasteClass, progress: int,
                                                done: map<(UserId, ChallengeId), int>)
    requires forall a, b :: 0 <= a < b < |catalog| ==> catalog[a].id != catalog[b].id
    ensures D.Bonus(catalog, u, cls, progress, done) == 0 <==>
              forall i :: 0 <= i < |catalog| ==> !Pays(catalog[i], u, cls, progress, done)
  {
    if catalog != [] {
      var rest, c := catalog[..|catalog| - 1], catalog[|catalog| - 1];
      ZeroBonusExactlyWhen(rest, u, cls, progress, done);
      CompletedRows(rest, u, cls, progress, done, (u, c.id));
      assert forall i :: 0 <= i < |rest| ==> rest[i] == catalog[i] && catalog[i].id != c.id;
      assert (u, c.id) in D.Completed(rest, u, cls, progress, done) <==> (u, c.id) in done;
    }
  }

  /** The same for a confirmation, in terms of the tables before the call: the user's
      confirmed weight of the class and the weight of this deposit. */
  lemma BonusIsZeroExactlyWhen(cfg: Config, db: Db, op: OperationId, e: D.ResultEvent)
    requires ValidConfig(cfg) && op in db.sessions && db.sessions[op].cls.Classified? && op !in db.events
    ensures var u, cls := db.sessions[op].user, db.sessions[op].cls.cls;
            var progress := D.Progress(db.events, u, cls) + e.weight.GetOr(0);
            D.BonusOf(cfg, db, op, e) == 0 <==>
              forall i :: 0 <= i < |cfg.challenges| ==> !Pays(cfg.challenges[i], u, cls, progress, db.completions)
  {
    var s := db.sessions[op];
    ProgressAfterEvent(db.events, op, D.ConfirmedEvent(s, e), s.user, s.cls.cls);
    ZeroBonusExactlyWhen(cfg.challenges, s.user, s.cls.cls, D.ProgressAfter(db, op, e), db.completions);
  }

  lemma ProgressAfterEvent(events: map<OperationId, WasteEvent>, op: OperationId, e: WasteEvent, u: UserId,
                           cls: WasteClass)
    requires op !in events
    ensures D.Progress(events[op := e], u, cls) == D.Progress(events, u, cls) + WeightOf(u, cls)(op, e)
  {
    SumUpdate(events, WeightOf(u, cls), op, e);
  }

  lemma HasDepositAfterEvent(db: Db, after: Db, op: OperationId, e: WasteEvent, u: UserId, cls: WasteClass)
    requires op !in db.events && after.events == db.events[op := e]
    ensures HasDeposit(after, u, cls) <==> HasDeposit(db, u, cls) || (e.user == u && e.cls == cls && e.status == Accepted)
  {
    if HasDeposit(db, u, cls) {
      var o :| o in db.events && db.events[o].user == u && db.events[o].cls == cls && db.events[o].status == Accepted;
      assert o in after.events && after.events[o] == db.events[o];
    }
    if e.user == u && e.cls == cls && e.status == Accepted {
      assert op in after.events && after.events[op] == e;
    }
  }

  lemma ConfirmMatches(cfg: Config, db: Db, op: OperationId, e: D.ResultEvent, u: UserId, i: nat)
    requires ValidConfig(cfg) && RowsMatch(cfg, db) && op !in db.events
    requires op in db.sessions && db.sessions[op].cls.Classified? && db.sessions[op].user in db.users
    requires e.weight.GetOr(0) >= 0
    requires i < |cfg.challenges| && cfg.challenges[i].active
    ensures var after := D.Confirm(cfg, db, op, e);
            (u, cfg.challenges[i].id) in after.completions <==> Reached(after, u, cfg.challenges[i])
  {
    var s := db.sessions[op];
    var c := cfg.challenges[i];
    var event := D.ConfirmedEvent(s, e);
    var after := D.Confirm(cfg, db, op, e);
    ProgressAfterEvent(db.events, op, event, u, c.cls);
    HasDepositAfterEvent(db, after, op, event, u, c.cls);
    CompletedRows(cfg.challenges, s.user, s.cls.cls, D.ProgressAfter(db, op, e), db.completions, (u, c.id));
  }

  lemma CompleteMatches(cfg: Config, db: Db, e: D.ResultEvent, now: Instant)
    requires ValidConfig(cfg) && RowsMatch(cfg, db)
    ensures RowsMatch(cfg, D.CompleteFromEvent(cfg, db, e, now))
  {
    var verdict := D.Judge(cfg, db, e, now);
    var after := D.CompleteFromEvent(cfg, db, e, now);
    forall u, i | 0 <= i < |cfg.challenges| && cfg.challenges[i].active
      ensures (u, cfg.challenges[i].id) in after.completions <==> Reached(after, u, cfg.challenges[i])
    {
      if verdict.Award? {
        ConfirmMatches(cfg, db, e.operation.value, e, u, i);
      } else if verdict.Close? {
        var op := e.operation.value;
        ProgressAfterEvent(db.events, op, D.RefusedEvent(db.sessions[op]), u, cfg.challenges[i].cls);
        HasDepositAfterEvent(db, after, op, D.RefusedEvent(db.sessions[op]), u, cfg.challenges[i].cls);
      }
    }
  }

  lemma StepMatches(cfg: Config, db: Db, call: Call)
    requires ValidConfig(cfg) && RowsMatch(cfg, db)
    ensures RowsMatch(cfg, Apply(cfg, db, call))
  {
    if call.Complete? {
      CompleteMatches(cfg, db, call.event, call.now);
    } else {
      var after := Apply(cfg, db, call);
      assert SameAccounts(db, after) || SameDeposits(db, after);
      assert after.events == db.events && after.completions == db.completions;
      assert forall u, cls :: HasDeposit(after, u, cls) == HasDeposit(db, u, cls);
    }
  }

  /** Over every run with a fixed catalog, a user holds the row of an active challenge
      exactly when the user has a confirmed deposit in its class and the confirmed
      weight of the class has reached the target. */
  lemma {:induction false} RunMatches(cfg: Config, db: Db, calls: seq<Call>)
    requires ValidConfig(cfg) && RowsMatch(cfg, db)
    ensures RowsMatch(cfg, Run(cfg, db, calls))
  {
    if calls != [] {
      RunMatches(cfg, db, calls[..|calls| - 1]);
      StepMatches(cfg, Run(cfg, db, calls[..|calls| - 1]), calls[|calls| - 1]);
    }
  }

  /** Some confirmed event contributes to a positive total. */
  lemma {:induction false} PositiveProgressHasDeposit(db: Db, u: UserId, cls: WasteClass)
    requires D.Progress(db.events, u, cls) > 0
    ensures HasDeposit(db, u, cls)
  {
    if !HasDeposit(db, u, cls) {
      var zero := (op: OperationId, e: WasteEvent) => 0;
      SumCongruent(db.events, WeightOf(u, cls), zero);
      SumOfZeros(db.events, zero);
    }
  }

  lemma {:induction false} SumOfZeros(m: map<OperationId, WasteEvent>, f: (OperationId, WasteEvent) -> int)
    requires forall k :: k in m ==> f(k, m[k]) == 0
    ensures Sum(m, f) == 0
    decreases m.Keys
  {
    if m.Keys != {} {
      var j :| j in m.Keys && Sum(m, f) == f(j, m[j]) + Sum(m - {j}, f);
      SumOfZeros(m - {j}, f);
    }
  }

  /** For a positive target the weight alone decides. */
  lemma PositiveTargetRow(cfg: Config, db: Db, calls: seq<Call>, u: UserId, i: nat)
    requires ValidConfig(cfg) && RowsMatch(cfg, db)
    requires i < |cfg.challenges| && cfg.challenges[i].active && cfg.challenges[i].target > 0
    ensures var after := Run(cfg, db, calls);
            (u, cfg.challenges[i].id) in after.completions <==>
              D.Progress(after.events, u, cfg.challenges[i].cls) >= cfg.challenges[i].target
  {
    RunMatches(cfg, db, calls);
    var after := Run(cfg, db, calls);
    if D.Progress(after.events, u, cfg.challenges[i].cls) >= cfg.challenges[i].target {
      PositiveProgressHasDeposit(after, u, cfg.challenges[i].cls);
    }
  }

  /** Paid once: over every run a completion row stays and keeps what it paid. */
  lemma {:induction false} RowsStay(cfg: Config, db: Db, calls: seq<Call>, k: (UserId, ChallengeId))
    requires k in db.completions
    ensures var after := Run(cfg, db, calls);
            k in after.completions && after.completions[k] == db.completions[k]
  {
    if calls != [] {
      var before := calls[..|calls| - 1];
      RowsStay(cfg, db, before, k);
      var at := Run(cfg, db, before);
      var call := calls[|calls| - 1];
      if call.Complete? && D.Judge(cfg, at, call.event, call.now).Award? {
        var op := call.event.operation.value;
        var s := at.sessions[op];
        CompletedRows(cfg.challenges, s.user, s.cls.cls, D.ProgressAfter(at, op, call.event), at.completions, k);
      } else {
        StepKeepsRows(cfg, at, call);
      }
    }
  }

  lemma StepKeepsRows(cfg: Config, db: Db, call: Call)
    requires !(call.Complete? && D.Judge(cfg, db, call.event, call.now).Award?)
    ensures Apply(cfg, db, call).completions == db.completions
  {
    if !call.Complete? {
      var after := Apply(cfg, db, call);
      assert SameAccounts(db, after) || SameDeposits(db, after);
    }
  }
}
