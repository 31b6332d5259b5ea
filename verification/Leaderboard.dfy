/** The ranking rows the points transaction keeps up to date, against a rebuild from
    the balances. Challenge bonuses are paid after the rows are written and redemptions
    do not write them, so a row is off by the bonus of the last award that wrote it
    less what has been spent since. */
module Leaderboard {
  import opened Sums
  import opened Schema
  import D = DepositService
  import opened Ledger
  import opened Lifecycle
  import R = RewardService
  import C = Challenges

  ghost function StudentTruth(db: Db): map<UserId, int> {
    map u | u in db.users :: db.users[u].points
  }

  ghost function FacultyTotals(users: map<UserId, User>, fs: set<FacultyId>): map<FacultyId, int> {
    map f | f in fs :: Sum(users, MembersOf(f))
  }

  ghost function FacultyTruth(cfg: Config, db: Db): map<FacultyId, int> {
    FacultyTotals(db.users, cfg.faculties)
  }

  /** What repair leaves behind: every student row is made anew, every faculty row is
      overwritten or added. */
  ghost function Repaired(cfg: Config, db: Db): Db {
    db.(studentRows := StudentTruth(db), facultyRows := db.facultyRows + FacultyTruth(cfg, db))
  }

  ghost function StudentLag(db: Db, u: UserId): int
    requires u in db.users && u in db.studentRows
  {
    db.users[u].points - db.studentRows[u]
  }

  ghost function FacultyLag(db: Db, f: FacultyId): int
    requires f in db.facultyRows
  {
    Sum(db.users, MembersOf(f)) - db.facultyRows[f]
  }

  /** Right after a confirmed deposit both rows are short of the balances by exactly
      the challenge bonus of that deposit; the rows of others are as they were. */
  lemma RowsAfterConfirm(cfg: Config, db: Db, op: OperationId, e: D.ResultEvent)
    requires op in db.sessions && db.sessions[op].cls.Classified? && db.sessions[op].user in db.users
    ensures var after := D.Confirm(cfg, db, op, e);
            var u := db.sessions[op].user;
            var f := db.users[u].faculty;
            && u in after.users && u in after.studentRows
            && StudentLag(after, u) == D.BonusOf(cfg, db, op, e)
            && (forall v :: v in db.users && v != u ==> after.users[v] == db.users[v])
            && (forall v :: v in db.studentRows && v != u ==>
                  v in after.studentRows && after.studentRows[v] == db.studentRows[v])
            && (f in cfg.faculties ==> f in after.facultyRows && FacultyLag(after, f) == D.BonusOf(cfg, db, op, e))
            && (f !in cfg.faculties ==> after.facultyRows == db.facultyRows)
            && (forall g :: g in db.facultyRows && g != f ==>
                  g in after.facultyRows && after.facultyRows[g] == db.facultyRows[g])
  {
    var s := db.sessions[op];
    var f := db.users[s.user].faculty;
    var row := db.users[s.user];
    SumUpdate(db.users, MembersOf(f), s.user, row.(points := row.points + s.potentialPoints));
    SumUpdate(db.users, MembersOf(f), s.user, row.(points := row.points + (s.potentialPoints + D.BonusOf(cfg, db, op, e))));
  }

  /** A confirmed deposit does not touch the row or the total of another faculty. */
  lemma OtherFacultyAfterConfirm(cfg: Config, db: Db, op: OperationId, e: D.ResultEvent, g: FacultyId)
    requires op in db.sessions && db.sessions[op].cls.Classified? && db.sessions[op].user in db.users
    requires g in db.facultyRows && db.users[db.sessions[op].user].faculty != g
    ensures var after := D.Confirm(cfg, db, op, e);
            g in after.facultyRows && FacultyLag(after, g) == FacultyLag(db, g)
  {
    var s := db.sessions[op];
    var row := db.users[s.user];
    SumUpdate(db.users, MembersOf(g), s.user, row.(points := row.points + (s.potentialPoints + D.BonusOf(cfg, db, op, e))));
  }

  /** Which deposits leave exact rows, decided before the call: those for which no
      active, uncompleted challenge of the class with a positive reward is reached. */
  lemma RowsExactAfterConfirmWhen(cfg: Config, db: Db, op: OperationId, e: D.ResultEvent)
    requires ValidConfig(cfg) && op !in db.events
    requires op in db.sessions && db.sessions[op].cls.Classified? && db.sessions[op].user in db.users
    ensures var after := D.Confirm(cfg, db, op, e);
            var u, cls := db.sessions[op].user, db.sessions[op].cls.cls;
            var f := db.users[u].faculty;
            var progress := D.Progress(db.events, u, cls) + e.weight.GetOr(0);
            var exact := forall i :: 0 <= i < |cfg.challenges| ==>
                           !C.Pays(cfg.challenges[i], u, cls, progress, db.completions);
            && (after.studentRows[u] == after.users[u].points <==> exact)
            && (f in cfg.faculties ==> (after.facultyRows[f] == Sum(after.users, MembersOf(f)) <==> exact))
  {
    RowsAfterConfirm(cfg, db, op, e);
    C.BonusIsZeroExactlyWhen(cfg, db, op, e);
  }

  /** The deposit a call confirms, if it confirms one. */
  ghost predicate Awards(cfg: Config, db: Db, call: Call) {
    call.Complete? && D.Judge(cfg, db, call.event, call.now).Award?
  }

  ghost function AwardedUser(cfg: Config, db: Db, call: Call): (u: UserId)
    requires Awards(cfg, db, call)
    ensures u in db.users
  {
    db.sessions[call.event.operation.value].user
  }

  ghost function AwardedBonus(cfg: Config, db: Db, call: Call): int
    requires Awards(cfg, db, call)
  {
    D.BonusOf(cfg, db, call.event.operation.value, call.event)
  }

  /** The bonus of the last award of a run that went to u. */
  ghost function LastBonusOf(cfg: Config, db: Db, calls: seq<Call>, u: UserId): int {
    if calls == [] then 0
    else
      var before := calls[..|calls| - 1];
      var at := Run(cfg, db, before);
      var call := calls[|calls| - 1];
      if Awards(cfg, at, call) && AwardedUser(cfg, at, call) == u then AwardedBonus(cfg, at, call)
      else LastBonusOf(cfg, db, before, u)
  }

  /** The bonus of the last award of a run that went to a member of f. */
  ghost function LastBonusIn(cfg: Config, db: Db, calls: seq<Call>, f: FacultyId): int {
    if calls == [] then 0
    else
      var before := calls[..|calls| - 1];
      var at := Run(cfg, db, before);
      var call := calls[|calls| - 1];
      if Awards(cfg, at, call) && at.users[AwardedUser(cfg, at, call)].faculty == f then AwardedBonus(cfg, at, call)
      else LastBonusIn(cfg, db, before, f)
  }

  ghost predicate NoMarketCalls(calls: seq<Call>) {
    forall i :: 0 <= i < |calls| ==> !calls[i].Market?
  }

  /** A deposit call that awards nothing leaves accounts and rankings alone. */
  lemma QuietStep(cfg: Config, db: Db, call: Call)
    requires !call.Market? && !Awards(cfg, db, call)
    ensures var after := Apply(cfg, db, call);
            after.users == db.users && after.studentRows == db.studentRows && after.facultyRows == db.facultyRows
  {
    if call.Complete? {
      QuietResult(cfg, db, call.event, call.now);
    } else {
      assert SameAccounts(db, Apply(cfg, db, call));
    }
  }

  lemma QuietResult(cfg: Config, db: Db, e: D.ResultEvent, now: Instant)
    requires !D.Judge(cfg, db, e, now).Award?
    ensures var after := D.CompleteFromEvent(cfg, db, e, now);
            after.users == db.users && after.studentRows == db.studentRows && after.facultyRows == db.facultyRows
  {
  }

  lemma StepStudentLag(cfg: Config, db: Db, call: Call, u: UserId)
    requires !call.Market? && u in db.users && u in db.studentRows
    ensures var after := Apply(cfg, db, call);
            && u in after.users && u in after.studentRows
            && StudentLag(after, u) == if Awards(cfg, db, call) && AwardedUser(cfg, db, call) == u
                                       then AwardedBonus(cfg, db, call) else StudentLag(db, u)
  {
    if Awards(cfg, db, call) {
      RowsAfterConfirm(cfg, db, call.event.operation.value, call.event);
    } else {
      QuietStep(cfg, db, call);
    }
  }

  lemma StepFacultyLag(cfg: Config, db: Db, call: Call, f: FacultyId)
    requires !call.Market? && f in cfg.faculties && f in db.facultyRows
    ensures var after := Apply(cfg, db, call);
            && f in after.facultyRows
            && FacultyLag(after, f) == if Awards(cfg, db, call) && db.users[AwardedUser(cfg, db, call)].faculty == f
                                       then AwardedBonus(cfg, db, call) else FacultyLag(db, f)
  {
    if Awards(cfg, db, call) {
      if db.users[AwardedUser(cfg, db, call)].faculty == f {
        RowsAfterConfirm(cfg, db, call.event.operation.value, call.event);
      } else {
        OtherFacultyAfterConfirm(cfg, db, call.event.operation.value, call.event, f);
      }
    } else {
      QuietStep(cfg, db, call);
    }
  }

  // ---- redemptions ---------------------------------------------------------

  /** Points members of f spent on redemptions that still stand. */
  ghost function SpentIn(users: map<UserId, User>, f: FacultyId): (RedemptionId, Redemption) -> int {
    (id: RedemptionId, rd: Redemption) =>
      if rd.user in users && users[rd.user].faculty == f && !Refunded(rd.status) then rd.spent else 0
  }

  ghost function FacultySpending(db: Db, f: FacultyId): int {
    Sum(db.redemptions, SpentIn(db.users, f))
  }

  ghost predicate SameFaculties(users: map<UserId, User>, after: map<UserId, User>) {
    after.Keys == users.Keys && forall u :: u in users ==> after[u].faculty == users[u].faculty
  }

  lemma SpendingFollowsFaculties(users: map<UserId, User>, after: map<UserId, User>, reds: map<RedemptionId, Redemption>,
                                 f: FacultyId)
    requires SameFaculties(users, after)
    ensures Sum(reds, SpentIn(users, f)) == Sum(reds, SpentIn(after, f))
  {
    SumCongruent(reds, SpentIn(users, f), SpentIn(after, f));
  }

  lemma PointsMoveFaculty(users: map<UserId, User>, u: UserId, amount: int, f: FacultyId)
    ensures var after := R.AddPoints(users, u, amount);
            && SameFaculties(users, after)
            && Sum(after, MembersOf(f)) == Sum(users, MembersOf(f))
                 + (if u in users && users[u].faculty == f then amount else 0)
  {
    if u in users {
      SumUpdate(users, MembersOf(f), u, users[u].(points := users[u].points + amount));
    }
  }

  /** What a faculty's members own and have spent. */
  ghost function FacultyWorth(db: Db, f: FacultyId): int {
    Sum(db.users, MembersOf(f)) + FacultySpending(db, f)
  }

  lemma GrantKeepsWorth(db: Db, q: R.Request, f: FacultyId)
    requires q.reward in db.rewards && q.user in db.users && q.id !in db.redemptions
    ensures FacultyWorth(R.Grant(db, q), f) == FacultyWorth(db, f) && SameFaculties(db.users, R.Grant(db, q).users)
  {
    PointsMoveFaculty(db.users, q.user, -db.rewards[q.reward].cost, f);
    SumUpdate(db.redemptions, SpentIn(db.users, f), q.id, R.NewRow(db, q));
    SpendingFollowsFaculties(db.users, R.Grant(db, q).users, R.Grant(db, q).redemptions, f);
  }

  lemma RefundKeepsWorth(db: Db, id: RedemptionId, s: RedemptionStatus, f: FacultyId)
    requires id in db.redemptions && !Refunded(db.redemptions[id].status) && Refunded(s)
    ensures FacultyWorth(R.Refund(db, id, s), f) == FacultyWorth(db, f) && SameFaculties(db.users, R.Refund(db, id, s).users)
  {
    PointsMoveFaculty(db.users, db.redemptions[id].user, db.redemptions[id].spent, f);
    SumUpdate(db.redemptions, SpentIn(db.users, f), id, db.redemptions[id].(status := s));
    SpendingFollowsFaculties(db.users, R.Refund(db, id, s).users, R.Refund(db, id, s).redemptions, f);
  }

  lemma SettlementKeepsWorth(db: Db, call: MarketCall, f: FacultyId)
    requires call.MarkUsed? || call.Approve? || call.Fulfill?
    ensures FacultyWorth(ApplyMarket(db, call), f) == FacultyWorth(db, f)
    ensures ApplyMarket(db, call).users == db.users
  {
    var s := if call.MarkUsed? then Used else if call.Approve? then Approved else Fulfilled;
    if call.id in db.redemptions && !Refunded(db.redemptions[call.id].status) {
      SumUpdate(db.redemptions, SpentIn(db.users, f), call.id, db.redemptions[call.id].(status := s));
    }
  }

  lemma MarketKeepsWorth(db: Db, call: MarketCall, f: FacultyId)
    ensures FacultyWorth(ApplyMarket(db, call), f) == FacultyWorth(db, f)
    ensures SameFaculties(db.users, ApplyMarket(db, call).users)
  {
    if call.Redeem? {
      if R.Refusal(db, call.request).None? { GrantKeepsWorth(db, call.request, f); }
    } else if call.Reject? {
      if R.RejectReply(db, call.id).Done? { RefundKeepsWorth(db, call.id, RedemptionStatus.Rejected, f); }
    } else if call.Cancel? {
      if R.CancelReply(db, call.user, call.id).Done? { RefundKeepsWorth(db, call.id, RedemptionStatus.Cancelled, f); }
    } else {
      SettlementKeepsWorth(db, call, f);
    }
  }

  /** Deposit calls spend nothing and move nobody to another faculty. */
  lemma DepositSpendsNothing(cfg: Config, db: Db, call: Call, f: FacultyId)
    requires !call.Market?
    ensures Apply(cfg, db, call).redemptions == db.redemptions
    ensures FacultySpending(Apply(cfg, db, call), f) == FacultySpending(db, f)
  {
    var after := Apply(cfg, db, call);
    if Awards(cfg, db, call) {
      AwardKeepsFaculties(cfg, db, call.event.operation.value, call.event);
    } else {
      QuietStep(cfg, db, call);
    }
    assert SameMarket(db, after) by { if !call.Complete? { assert SameAccounts(db, after); } }
    SpendingFollowsFaculties(db.users, after.users, db.redemptions, f);
  }

  lemma AwardKeepsFaculties(cfg: Config, db: Db, op: OperationId, e: D.ResultEvent)
    requires op in db.sessions && db.sessions[op].cls.Classified? && db.sessions[op].user in db.users
    ensures SameFaculties(db.users, D.Confirm(cfg, db, op, e).users)
  {
  }

  // ---- whole runs ----------------------------------------------------------

  /** What u's standing redemptions had cost when u was last awarded, or at the start. */
  ghost function SpentAtLastAwardOf(cfg: Config, db: Db, calls: seq<Call>, u: UserId): int {
    if calls == [] then Sum(db.redemptions, SpentBy(u))
    else
      var before := calls[..|calls| - 1];
      var at := Run(cfg, db, before);
      var call := calls[|calls| - 1];
      if Awards(cfg, at, call) && AwardedUser(cfg, at, call) == u then Sum(at.redemptions, SpentBy(u))
      else SpentAtLastAwardOf(cfg, db, before, u)
  }

  /** The same for the last award in a faculty. */
  ghost function SpentAtLastAwardIn(cfg: Config, db: Db, calls: seq<Call>, f: FacultyId): int {
    if calls == [] then FacultySpending(db, f)
    else
      var before := calls[..|calls| - 1];
      var at := Run(cfg, db, before);
      var call := calls[|calls| - 1];
      if Awards(cfg, at, call) && at.users[AwardedUser(cfg, at, call)].faculty == f then FacultySpending(at, f)
      else SpentAtLastAwardIn(cfg, db, before, f)
  }

  lemma StudentLagAfterCall(cfg: Config, db: Db, call: Call, u: UserId)
    requires u in db.users && u in db.studentRows
    ensures var after := Apply(cfg, db, call);
            && u in after.users && u in after.studentRows
            && StudentLag(after, u) + Sum(after.redemptions, SpentBy(u))
            == (if Awards(cfg, db, call) && AwardedUser(cfg, db, call) == u then AwardedBonus(cfg, db, call)
                else StudentLag(db, u)) + Sum(db.redemptions, SpentBy(u))
  {
    if call.Market? {
      MarketConserves(db, call.call, u);
      assert SameDeposits(db, Apply(cfg, db, call));
    } else {
      StepStudentLag(cfg, db, call, u);
      DepositSpendsNothing(cfg, db, call, 0);
    }
  }

  lemma FacultyLagAfterCall(cfg: Config, db: Db, call: Call, f: FacultyId)
    requires f in cfg.faculties && f in db.facultyRows
    ensures var after := Apply(cfg, db, call);
            && f in after.facultyRows
            && FacultyLag(after, f) + FacultySpending(after, f)
            == (if Awards(cfg, db, call) && db.users[AwardedUser(cfg, db, call)].faculty == f
                then AwardedBonus(cfg, db, call) else FacultyLag(db, f)) + FacultySpending(db, f)
  {
    if call.Market? {
      MarketKeepsWorth(db, call.call, f);
      assert SameDeposits(db, Apply(cfg, db, call));
    } else {
      StepFacultyLag(cfg, db, call, f);
      DepositSpendsNothing(cfg, db, call, f);
    }
  }

  /** Over every run from a repaired database, redemptions and refunds included, a
      student row lags by the bonus of the student's last award less what the student
      has spent since that award, net of refunds. */
  lemma {:induction false} StudentLagOverRun(cfg: Config, db: Db, calls: seq<Call>, u: UserId)
    requires Repaired(cfg, db) == db && u in db.users
    ensures var after := Run(cfg, db, calls);
            && u in after.users && u in after.studentRows
            && StudentLag(after, u) == LastBonusOf(cfg, db, calls, u)
                 - (Sum(after.redemptions, SpentBy(u)) - SpentAtLastAwardOf(cfg, db, calls, u))
  {
    if calls == [] {
      assert u in StudentTruth(db);
    } else {
      var before := calls[..|calls| - 1];
      StudentLagOverRun(cfg, db, before, u);
      StudentLagAfterCall(cfg, Run(cfg, db, before), calls[|calls| - 1], u);
    }
  }

  /** The same for a faculty row, the last award in the faculty and its members' spending. */
  lemma {:induction false} FacultyLagOverRun(cfg: Config, db: Db, calls: seq<Call>, f: FacultyId)
    requires Repaired(cfg, db) == db && f in cfg.faculties
    ensures var after := Run(cfg, db, calls);
            && f in after.facultyRows
            && FacultyLag(after, f) == LastBonusIn(cfg, db, calls, f)
                 - (FacultySpending(after, f) - SpentAtLastAwardIn(cfg, db, calls, f))
  {
    if calls == [] {
      assert f in FacultyTruth(cfg, db) && f in Repaired(cfg, db).facultyRows;
    } else {
      var before := calls[..|calls| - 1];
      FacultyLagOverRun(cfg, db, before, f);
      FacultyLagAfterCall(cfg, Run(cfg, db, before), calls[|calls| - 1], f);
    }
  }

  /** Whether the rows of a run are what a repair would rebuild: exactly when every
      student's last bonus equals what the student has spent since, net of refunds,
      and likewise for every faculty. */
  lemma NeedsNoRepairExactlyWhen(cfg: Config, db: Db, calls: seq<Call>)
    requires Repaired(cfg, db) == db
    ensures var after := Run(cfg, db, calls);
            Repaired(cfg, after) == after <==>
              && (forall u :: u in after.users ==>
                    LastBonusOf(cfg, db, calls, u)
                    == Sum(after.redemptions, SpentBy(u)) - SpentAtLastAwardOf(cfg, db, calls, u))
              && (forall f :: f in cfg.faculties ==>
                    LastBonusIn(cfg, db, calls, f)
                    == FacultySpending(after, f) - SpentAtLastAwardIn(cfg, db, calls, f))
  {
    var after := Run(cfg, db, calls);
    assert StudentTruth(db).Keys == db.users.Keys;
    RunKeepsUsers(cfg, db, calls);
    forall u | u in after.users
      ensures u in after.studentRows && StudentLag(after, u) == LastBonusOf(cfg, db, calls, u)
                - (Sum(after.redemptions, SpentBy(u)) - SpentAtLastAwardOf(cfg, db, calls, u))
    {
      StudentLagOverRun(cfg, db, calls, u);
    }
    forall f | f in cfg.faculties
      ensures f in after.facultyRows && FacultyLag(after, f) == LastBonusIn(cfg, db, calls, f)
                - (FacultySpending(after, f) - SpentAtLastAwardIn(cfg, db, calls, f))
    {
      FacultyLagOverRun(cfg, db, calls, f);
    }
    RepairedExactlyWhen(cfg, after);
  }

  /** Rows that agree with the truth are what a repair rebuilds, and no others are. */
  lemma RepairedExactlyWhen(cfg: Config, db: Db)
    requires db.studentRows.Keys == db.users.Keys
    requires forall f :: f in cfg.faculties ==> f in db.facultyRows
    ensures Repaired(cfg, db) == db <==>
              && (forall u :: u in db.users ==> StudentLag(db, u) == 0)
              && (forall f :: f in cfg.faculties ==> FacultyLag(db, f) == 0)
  {
    if Repaired(cfg, db) == db {
      assert forall u :: u in db.users ==> StudentTruth(db)[u] == db.users[u].points;
      assert forall f :: f in cfg.faculties ==> Repaired(cfg, db).facultyRows[f] == FacultyTruth(cfg, db)[f];
    }
    if (forall u :: u in db.users ==> StudentLag(db, u) == 0) && forall f :: f in cfg.faculties ==> FacultyLag(db, f) == 0 {
      AgreeingRowsAreRepaired(cfg, db);
    }
  }

  lemma AgreeingRowsAreRepaired(cfg: Config, db: Db)
    requires db.studentRows.Keys == db.users.Keys
    requires forall u :: u in db.users ==> StudentLag(db, u) == 0
    requires forall f :: f in cfg.faculties ==> f in db.facultyRows && FacultyLag(db, f) == 0
    ensures Repaired(cfg, db) == db
  {
    forall u | u in db.users ensures db.studentRows[u] == db.users[u].points { assert StudentLag(db, u) == 0; }
    forall f | f in cfg.faculties ensures db.facultyRows[f] == Sum(db.users, MembersOf(f)) {
      assert FacultyLag(db, f) == 0;
    }
    assert db.studentRows == StudentTruth(db);
    assert db.facultyRows == db.facultyRows + FacultyTruth(cfg, db);
  }

  lemma {:induction false} RunKeepsUsers(cfg: Config, db: Db, calls: seq<Call>)
    requires db.studentRows.Keys == db.users.Keys
    ensures Run(cfg, db, calls).users.Keys == db.users.Keys && Run(cfg, db, calls).studentRows.Keys == db.users.Keys
  {
    if calls != [] {
      var before := calls[..|calls| - 1];
      RunKeepsUsers(cfg, db, before);
      StepKeepsUsers(cfg, Run(cfg, db, before), calls[|calls| - 1]);
    }
  }

  lemma StepKeepsUsers(cfg: Config, db: Db, call: Call)
    requires db.studentRows.Keys == db.users.Keys
    ensures Apply(cfg, db, call).users.Keys == db.users.Keys && Apply(cfg, db, call).studentRows.Keys == db.users.Keys
  {
    if call.Market? {
      MarketKeepsWorth(db, call.call, 0);
      assert SameDeposits(db, Apply(cfg, db, call));
    } else if Awards(cfg, db, call) {
      ConfirmKeepsUsers(cfg, db, call.event.operation.value, call.event);
    } else {
      QuietStep(cfg, db, call);
    }
  }

  lemma ConfirmKeepsUsers(cfg: Config, db: Db, op: OperationId, e: D.ResultEvent)
    requires op in db.sessions && db.sessions[op].cls.Classified? && db.sessions[op].user in db.users
    requires db.studentRows.Keys == db.users.Keys
    ensures var after := D.Confirm(cfg, db, op, e);
            after.users.Keys == db.users.Keys && after.studentRows.Keys == db.users.Keys
  {
  }

  // ---- runs without redemptions --------------------------------------------

  lemma {:induction false} DepositsSpendNothing(cfg: Config, db: Db, calls: seq<Call>, u: UserId, f: FacultyId)
    requires NoMarketCalls(calls)
    ensures var after := Run(cfg, db, calls);
            && Sum(after.redemptions, SpentBy(u)) == Sum(db.redemptions, SpentBy(u)) == SpentAtLastAwardOf(cfg, db, calls, u)
            && FacultySpending(after, f) == FacultySpending(db, f) == SpentAtLastAwardIn(cfg, db, calls, f)
  {
    if calls != [] {
      var before := calls[..|calls| - 1];
      DepositsSpendNothing(cfg, db, before, u, f);
      DepositSpendsNothing(cfg, Run(cfg, db, before), calls[|calls| - 1], f);
    }
  }

  /** Over every run of deposit calls from a repaired database, a student row lags
      by the bonus of the student's last award. */
  lemma StudentLagIsLastBonus(cfg: Config, db: Db, calls: seq<Call>, u: UserId)
    requires Repaired(cfg, db) == db && NoMarketCalls(calls) && u in db.users
    ensures var after := Run(cfg, db, calls);
            && u in after.users && u in after.studentRows
            && StudentLag(after, u) == LastBonusOf(cfg, db, calls, u)
  {
    StudentLagOverRun(cfg, db, calls, u);
    DepositsSpendNothing(cfg, db, calls, u, 0);
  }

  /** Over every such run a faculty row lags by the bonus of the last award in the
      faculty. */
  lemma FacultyLagIsLastBonus(cfg: Config, db: Db, calls: seq<Call>, f: FacultyId)
    requires Repaired(cfg, db) == db && NoMarketCalls(calls) && f in cfg.faculties
    ensures var after := Run(cfg, db, calls);
            f in after.facultyRows && FacultyLag(after, f) == LastBonusIn(cfg, db, calls, f)
  {
    FacultyLagOverRun(cfg, db, calls, f);
    DepositsSpendNothing(cfg, db, calls, 0, f);
  }

  ghost predicate BonusFree(cfg: Config, db: Db, calls: seq<Call>) {
    forall k :: 0 <= k < |calls| && Awards(cfg, Run(cfg, db, calls[..k]), calls[k]) ==>
      AwardedBonus(cfg, Run(cfg, db, calls[..k]), calls[k]) == 0
  }

  lemma {:induction false} BonusFreeLeavesNoBonus(cfg: Config, db: Db, calls: seq<Call>, u: UserId, f: FacultyId)
    requires BonusFree(cfg, db, calls)
    ensures LastBonusOf(cfg, db, calls, u) == 0 && LastBonusIn(cfg, db, calls, f) == 0
  {
    if calls != [] {
      var before := calls[..|calls| - 1];
      assert forall k :: 0 <= k < |before| ==> before[..k] == calls[..k];
      BonusFreeLeavesNoBonus(cfg, db, before, u, f);
    }
  }

  /** Over every bonus-free run of deposit calls the incremental rows are exactly
      what a repair would rebuild. */
  lemma BonusFreeRunNeedsNoRepair(cfg: Config, db: Db, calls: seq<Call>)
    requires Repaired(cfg, db) == db && NoMarketCalls(calls) && BonusFree(cfg, db, calls)
    ensures Repaired(cfg, Run(cfg, db, calls)) == Run(cfg, db, calls)
  {
    var after := Run(cfg, db, calls);
    forall u | u in after.users
      ensures LastBonusOf(cfg, db, calls, u)
           == Sum(after.redemptions, SpentBy(u)) - SpentAtLastAwardOf(cfg, db, calls, u)
    {
      BonusFreeLeavesNoBonus(cfg, db, calls, u, 0);
      DepositsSpendNothing(cfg, db, calls, u, 0);
    }
    forall f | f in cfg.faculties
      ensures LastBonusIn(cfg, db, calls, f) == FacultySpending(after, f) - SpentAtLastAwardIn(cfg, db, calls, f)
    {
      BonusFreeLeavesNoBonus(cfg, db, calls, 0, f);
      DepositsSpendNothing(cfg, db, calls, 0, f);
    }
    NeedsNoRepairExactlyWhen(cfg, db, calls);
  }
}
