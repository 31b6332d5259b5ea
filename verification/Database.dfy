/** The points authority as the backend runs it: tables updated in place, one
    transaction per service call, and a rollback wherever the code raises. */
module Database {
  import opened Sums
  import opened Schema
  import D = DepositService
  import R = RewardService
  import opened Ledger
  import opened Solvency
  import opened Lifecycle
  import opened Leaderboard

  /** The completion rows and the bonus with one challenge more. */
  lemma NextChallenge(catalog: seq<Challenge>, i: nat, u: UserId, cls: WasteClass, progress: int,
                      done: map<(UserId, ChallengeId), int>)
    requires i < |catalog|
    ensures var rows, c := D.Completed(catalog[..i], u, cls, progress, done), catalog[i];
            var due := D.Due(c, u, cls, progress, rows);
            && D.Completed(catalog[..i + 1], u, cls, progress, done) ==
               (if due then rows[(u, c.id) := D.RewardFor(c)] else rows)
            && D.Bonus(catalog[..i + 1], u, cls, progress, done)
            == D.Bonus(catalog[..i], u, cls, progress, done) + (if due then D.RewardFor(c) else 0)
  {
    assert catalog[..i + 1][..i] == catalog[..i];
  }

  lemma CreditedTwice(users: map<UserId, User>, u: UserId, a: int, b: int)
    requires u in users
    ensures D.Credited(D.Credited(users, u, a), u, b) == D.Credited(users, u, a + b)
  {
  }

  class PointsAuthority {
    const cfg: Config
    var users: map<UserId, User>
    var predictions: map<PredictionId, Prediction>
    var counters: map<nat, nat>
    var sessions: map<OperationId, Session>
    var events: map<OperationId, WasteEvent>
    var completions: map<(UserId, ChallengeId), int>
    var studentRows: map<UserId, int>
    var facultyRows: map<FacultyId, int>
    var rewards: map<RewardId, Reward>
    var redemptions: map<RedemptionId, Redemption>

    /** Opens the authority on the tables of a database. */
    constructor (cfg: Config, db: Db)
      ensures this.cfg == cfg && Rows() == db
    {
      this.cfg := cfg;
      users, predictions, counters, sessions := db.users, db.predictions, db.counters, db.sessions;
      events, completions, studentRows, facultyRows := db.events, db.completions, db.studentRows, db.facultyRows;
      rewards, redemptions := db.rewards, db.redemptions;
    }

    /** The tables meet every invariant of the runs. */
    ghost predicate Valid()
      reads this
    {
      Sound(Rows()) && Inv(cfg, Rows())
    }

    ghost function Rows(): Db
      reads this
    {
      Tables(users, predictions, counters, sessions, events, completions, studentRows, facultyRows, rewards, redemptions)
    }

    // ---- reward service ----------------------------------------------------

    /** UPDATE rewards SET stock = stock - 1 WHERE id AND stock > 0; won tells
        whether a row matched. */
    method ReserveUnit(r: RewardId) returns (won: bool)
      modifies this`rewards
      ensures won <==> r in old(rewards) && old(rewards)[r].stock.Limited? && old(rewards)[r].stock.units > 0
      ensures rewards == if won then R.AddStock(old(rewards), r, -1) else old(rewards)
    {
      won := r in rewards && rewards[r].stock.Limited? && rewards[r].stock.units > 0;
      if won {
        rewards := rewards[r := rewards[r].(stock := Limited(rewards[r].stock.units - 1))];
      }
    }

    /** UPDATE users SET points = points - cost WHERE id AND points >= cost. */
    method SpendPoints(u: UserId, cost: int) returns (won: bool)
      modifies this`users
      ensures won <==> u in old(users) && old(users)[u].points >= cost
      ensures users == if won then R.AddPoints(old(users), u, -cost) else old(users)
    {
      won := u in users && users[u].points >= cost;
      if won {
        users := users[u := users[u].(points := users[u].points - cost)];
      }
    }

    /** Tries the draws in turn and keeps the first one no redemption carries. */
    method GenerateCode(draws: seq<Code>) returns (code: MerchantCode)
      ensures code == R.FirstFree(redemptions, draws)
    {
      var i := 0;
      while i < |draws|
        invariant 0 <= i <= |draws|
        invariant R.FirstFree(redemptions, draws) == R.FirstFree(redemptions, draws[i..])
      {
        var row := FindRow(redemptions, (id: RedemptionId, rd: Redemption) => rd.code == MerchantCode(draws[i]));
        if row.None? {
          return MerchantCode(draws[i]);
        }
        var taken := row.value;
        assert taken in redemptions && redemptions[taken].code == MerchantCode(draws[i]);
        assert R.CodeTaken(redemptions, draws[i]);
        assert draws[i..][0] == draws[i] && draws[i..][1..] == draws[i + 1..];
        i := i + 1;
      }
      code := NoCode;
    }

    /** The writes of a redemption whose catalog checks have passed; on failure the
        tables are rolled back. */
    method ReserveAndSpend(q: R.Request, rw: Reward) returns (failure: Option<R.Error>)
      requires q.reward in rewards && rw == rewards[q.reward]
      modifies this`users, this`rewards, this`redemptions
      ensures failure == R.WriteError(old(Rows()), q)
      ensures failure.Some? ==> unchanged(this)
      ensures failure.None? ==>
                && rewards == R.AddStock(old(rewards), q.reward, -1)
                && users == R.AddPoints(old(users), q.user, -rw.cost)
                && redemptions == old(redemptions)[q.id := R.NewRow(old(Rows()), q)]
    {
      var savedRewards, savedUsers := rewards, users;
      if rw.stock.Limited? {
        var won := ReserveUnit(q.reward);
        if !won { return Some(R.SoldOut); }
      }
      var paid := SpendPoints(q.user, rw.cost);
      if !paid {
        rewards := savedRewards;
        return Some(R.NotEnoughPoints);
      }
      var code := NoCode;
      if !rw.cash {
        code := GenerateCode(q.draws);
        if code.NoCode? {
          rewards, users := savedRewards, savedUsers;
          return Some(R.NoCodeFree);
        }
      }
      if q.id in redemptions {
        rewards, users := savedRewards, savedUsers;
        return Some(R.RowConflict);
      }
      var status := if rw.cash then RedemptionStatus.Pending else Available;
      redemptions := redemptions[q.id := Redemption(q.user, q.reward, rw.cost, status, code, q.destination, q.key)];
      failure := None;
    }

    /** SELECT the redemption of a user with a key; the UNIQUE pair makes it one row. */
    method SelectByKey(u: UserId, key: Key) returns (r: Option<RedemptionId>)
      requires R.UniqueRows(Rows())
      ensures r == R.FindByKey(Rows(), u, key)
    {
      r := FindRow(redemptions, (id: RedemptionId, rd: Redemption) => R.HasKey(rd, u, key));
      if r.Some? {
        KeyIsUnique(Rows(), u, key, r.value);
      }
    }

    method Redeem(q: R.Request) returns (reply: R.Reply)
      requires R.UniqueRows(Rows())
      modifies this`users, this`rewards, this`redemptions
      ensures Rows() == R.Redeem(old(Rows()), q)
      ensures reply == R.RedeemReply(old(Rows()), q)
    {
      var existing := SelectByKey(q.user, q.key);
      if existing.Some? {
        return R.Existing(existing.value);
      }
      if q.reward !in rewards { return R.Denied(R.NoSuchReward); }
      var rw := rewards[q.reward];
      var refused := R.CatalogError(rw, q);
      if refused.Some? { return R.Denied(refused.value); }
      var failure := ReserveAndSpend(q, rw);
      reply := if failure.Some? then R.Denied(failure.value) else R.Granted(q.id);
    }

    /** UPDATE reward_redemptions SET status = to WHERE id AND status IN from. */
    method MoveStatus(id: RedemptionId, from: set<RedemptionStatus>, to: RedemptionStatus) returns (won: bool)
      modifies this`redemptions
      ensures won <==> id in old(redemptions) && old(redemptions)[id].status in from
      ensures redemptions == if won then R.SetStatus(old(redemptions), id, to) else old(redemptions)
    {
      won := id in redemptions && redemptions[id].status in from;
      if won {
        redemptions := redemptions[id := redemptions[id].(status := to)];
      }
    }

    /** UPDATE users SET points = points + amount WHERE id. */
    method GivePoints(u: UserId, amount: int) returns (won: bool)
      modifies this`users
      ensures won <==> u in old(users)
      ensures users == R.AddPoints(old(users), u, amount)
    {
      won := u in users;
      if won {
        users := users[u := users[u].(points := users[u].points + amount)];
      }
    }

    /** UPDATE rewards SET stock = stock + 1 WHERE id AND stock IS NOT NULL. */
    method RestoreReservedStock(r: RewardId)
      modifies this`rewards
      ensures rewards == R.AddStock(old(rewards), r, 1)
    {
      if r in rewards && rewards[r].stock.Limited? {
        rewards := rewards[r := rewards[r].(stock := Limited(rewards[r].stock.units + 1))];
      }
    }

    method Reject(id: RedemptionId) returns (reply: R.Reply)
      modifies this`users, this`rewards, this`redemptions
      ensures Rows() == R.Reject(old(Rows()), id) && reply == R.RejectReply(old(Rows()), id)
    {
      if id !in redemptions { return R.Denied(R.NoSuchRedemption); }
      var rd, saved := redemptions[id], redemptions;
      var won := MoveStatus(id, {RedemptionStatus.Pending, Approved}, RedemptionStatus.Rejected);
      if !won { return R.Denied(R.WrongState); }
      var refunded := GivePoints(rd.user, rd.spent);
      if !refunded {
        redemptions := saved;
        return R.Denied(R.NoSuchUser);
      }
      RestoreReservedStock(rd.reward);
      reply := R.Done;
    }

    method Cancel(u: UserId, id: RedemptionId) returns (reply: R.Reply)
      modifies this`users, this`rewards, this`redemptions
      ensures Rows() == R.Cancel(old(Rows()), u, id) && reply == R.CancelReply(old(Rows()), u, id)
    {
      if id !in redemptions || redemptions[id].user != u { return R.Denied(R.NoSuchRedemption); }
      var rd := redemptions[id];
      var won := MoveStatus(id, {Available}, RedemptionStatus.Cancelled);
      if !won { return R.Denied(R.WrongState); }
      var _ := GivePoints(rd.user, rd.spent);
      RestoreReservedStock(rd.reward);
      reply := R.Done;
    }

    method MarkUsed(id: RedemptionId) returns (reply: R.Reply)
      modifies this`redemptions
      ensures Rows() == R.MarkUsed(old(Rows()), id) && reply == R.MarkUsedReply(old(Rows()), id)
    {
      if id !in redemptions { return R.Denied(R.NoSuchRedemption); }
      var won := MoveStatus(id, {Available}, Used);
      reply := if won then R.Done else R.Denied(R.WrongState);
    }

    method Approve(id: RedemptionId) returns (reply: R.Reply)
      modifies this`redemptions
      ensures Rows() == R.Approve(old(Rows()), id) && reply == R.ApproveReply(old(Rows()), id)
    {
      if id !in redemptions { return R.Denied(R.NoSuchRedemption); }
      if redemptions[id].status != RedemptionStatus.Pending { return R.Denied(R.WrongState); }
      redemptions := redemptions[id := redemptions[id].(status := Approved)];
      reply := R.Done;
    }

    method Fulfill(id: RedemptionId) returns (reply: R.Reply)
      modifies this`redemptions
      ensures Rows() == R.Fulfill(old(Rows()), id) && reply == R.FulfillReply(old(Rows()), id)
    {
      if id !in redemptions { return R.Denied(R.NoSuchRedemption); }
      var rd := redemptions[id];
      if rd.reward !in rewards || !rewards[rd.reward].cash { return R.Denied(R.NotCash); }
      if rd.status !in {RedemptionStatus.Pending, Approved} { return R.Denied(R.WrongState); }
      redemptions := redemptions[id := rd.(status := Fulfilled)];
      reply := R.Done;
    }

    // ---- deposit service ---------------------------------------------------

    method CreateSession(u: UserId, station: StationId, prediction: Option<PredictionId>, day: nat, now: Instant)
      returns (failure: Option<D.Error>, op: OperationId)
      modifies this`counters, this`sessions
      ensures Rows() == D.CreateSession(cfg, old(Rows()), u, station, prediction, day, now)
      ensures failure == D.CreateRefusal(cfg, old(Rows()), u, station, prediction, day, now)
      ensures failure.None? ==> op !in old(sessions) && op in sessions && op == D.Minted(old(Rows()), day)
    {
      op := OperationId(day, 0);
      var session := Session(u, station, Unclassified, 0, Capture, NotMeasured, NoReason, now + cfg.ttl);
      if station !in cfg.stations { return Some(D.NoSuchStation), op; }
      if u !in users { return Some(D.NoSuchUser), op; }
      if prediction.Some? {
        if prediction.value !in predictions { return Some(D.NoSuchPrediction), op; }
        var p := predictions[prediction.value];
        if p.user != u { return Some(D.NotYourPrediction), op; }
        if p.expiresAt < now { return Some(D.PredictionExpired), op; }
        if p.level.Low? { return Some(D.ConfidenceTooLow), op; }
        if p.cls !in cfg.policies { return Some(D.NoPolicy), op; }
        var policy := cfg.policies[p.cls];
        session := session.(cls := Classified(prediction.value, p.cls, policy.position, p.level),
                            potentialPoints := policy.points, status := SessionStatus.Pending);
      }
      var saved := counters;
      counters := counters[day := (if day in counters then counters[day] else 0) + 1];
      op := OperationId(day, counters[day]);
      if op in sessions {
        counters := saved;
        return Some(D.Aborted), op;
      }
      sessions := sessions[op := session];
      failure := None;
    }

    method HandleCapture(op: OperationId, station: StationRef, frame: D.Frame, now: Instant)
      returns (failure: Option<D.Error>)
      modifies this`sessions, this`predictions
      ensures Rows() == D.HandleCapture(cfg, old(Rows()), op, station, frame, now)
      ensures failure == D.CaptureError(cfg, old(Rows()), op, station, frame)
    {
      if op !in sessions { return Some(D.NoSuchDeposit); }
      var s := sessions[op];
      if station !in cfg.stationRefs || cfg.stationRefs[station] != s.station { return Some(D.WrongStation); }
      if Terminal(s.status) { return Some(D.AlreadyTerminal); }
      failure := None;
      sessions := sessions[op := s.(status := Analyzing)];
      if s.user !in users { return Some(D.NoSuchUser); }
      match frame {
      case GateRejected =>
        sessions := sessions[op := s.(status := Capture)];
        failure := Some(D.FrameRejected);
      case WireError =>
        sessions := sessions[op := s.(status := Capture)];
        failure := Some(D.ServiceUnavailable);
      case Broken => failure := Some(D.PredictorFailed);
      case Seen(id, cls, level) =>
        if cls !in cfg.policies { return Some(D.NoPolicy); }
        if id in predictions { return Some(D.Aborted); }
        var policy := cfg.policies[cls];
        predictions := predictions[id := Prediction(s.user, cls, level, now + cfg.ttl)];
        s := s.(cls := Classified(id, cls, policy.position, level), potentialPoints := policy.points);
        if level.Low? {
          sessions := sessions[op := s.(status := SessionStatus.Rejected, reason := LowConfidence)];
        } else {
          sessions := sessions[op := s.(status := SessionStatus.Pending)];
        }
      }
      assert sessions == old(sessions)[op := D.UploadedSession(cfg, old(Rows()), old(sessions)[op], frame)];
    }

    method CancelDeposit(u: UserId, op: OperationId) returns (failure: Option<D.Error>)
      modifies this`sessions
      ensures Rows() == D.CancelDeposit(old(Rows()), u, op) && failure == D.CancelRefusal(old(Rows()), u, op)
    {
      if op !in sessions || sessions[op].user != u { return Some(D.NoSuchDeposit); }
      if Terminal(sessions[op].status) { return Some(D.AlreadyTerminal); }
      sessions := sessions[op := sessions[op].(status := SessionStatus.Cancelled)];
      failure := None;
    }

    method ApplyMachineState(op: OperationId, m: D.MachineState) returns (moved: bool)
      modifies this`sessions
      ensures Rows() == D.ApplyMachineState(old(Rows()), op, m) && moved == D.Advances(old(Rows()), op, m)
    {
      var target := D.PhaseOf(m);
      if target.None? { return false; }
      if op !in sessions || Terminal(sessions[op].status) { return false; }
      if D.Rank(target.value) <= D.Rank(sessions[op].status) { return false; }
      sessions := sessions[op := sessions[op].(status := target.value)];
      moved := true;
    }

    /** Writes the refused event and closes the session. */
    method RecordRejection(op: OperationId, reason: Reason, status: SessionStatus)
      requires op in sessions && sessions[op].cls.Classified?
      modifies this`events, this`sessions
      ensures Rows() == D.Closed(old(Rows()), op, reason, status)
    {
      var s := sessions[op];
      var position, weight := 0, 0;
      if s.reading.Measured? {
        position, weight := s.reading.actualPosition, s.reading.weight;
      }
      events := events[op := WasteEvent(s.user, s.station, s.cls.prediction, s.cls.cls, position, weight,
                                        false, 0, Refused)];
      sessions := sessions[op := s.(status := status, reason := reason)];
    }

    /** The points transaction up to its flush: event, balance, session, rankings. */
    method AwardPoints(op: OperationId, e: D.ResultEvent)
      requires op in sessions && sessions[op].cls.Classified? && sessions[op].user in users
      modifies this`events, this`users, this`sessions, this`studentRows, this`facultyRows
      ensures var s := old(sessions)[op];
              var f := old(users)[s.user].faculty;
              && events == old(events)[op := D.ConfirmedEvent(s, e)]
              && users == D.Credited(old(users), s.user, s.potentialPoints)
              && sessions == old(sessions)[op := D.ConfirmedSession(s, e)]
              && studentRows == old(studentRows)[s.user := users[s.user].points]
              && facultyRows == D.FacultyRanking(cfg, old(facultyRows), f, Sum(users, MembersOf(f)))
    {
      var s := sessions[op];
      var user := users[s.user];
      var position, weight := e.actualPosition.GetOr(0), e.weight.GetOr(0);
      var stable, mechanical := e.weightStable.GetOr(false), e.mechanical.GetOr(false);
      events := events[op := WasteEvent(s.user, s.station, s.cls.prediction, s.cls.cls, position, weight,
                                        mechanical, s.potentialPoints, Accepted)];
      users := users[s.user := user.(points := user.points + s.potentialPoints)];
      sessions := sessions[op := s.(status := Confirmed, reading := Measured(position, weight, stable, mechanical))];
      studentRows := studentRows[s.user := users[s.user].points];
      if user.faculty in cfg.faculties {
        var total := SumRows(users, MembersOf(user.faculty));
        facultyRows := facultyRows[user.faculty := total];
      }
    }

    /** Completes and pays every active challenge of the class the user has reached. */
    method OnDepositConfirmed(u: UserId, cls: WasteClass) returns (bonus: int)
      requires u in users
      modifies this`completions, this`users
      ensures var progress := D.Progress(events, u, cls);
              && bonus == D.Bonus(cfg.challenges, u, cls, progress, old(completions))
              && completions == D.Completed(cfg.challenges, u, cls, progress, old(completions))
              && users == D.Credited(old(users), u, bonus)
    {
      var progress := SumRows(events, WeightOf(u, cls));
      var already := completions.Keys;
      bonus := 0;
      assert D.Credited(users, u, 0) == users;
      for i := 0 to |cfg.challenges|
        invariant bonus == D.Bonus(cfg.challenges[..i], u, cls, progress, old(completions))
        invariant completions == D.Completed(cfg.challenges[..i], u, cls, progress, old(completions))
        invariant users == D.Credited(old(users), u, bonus)
        invariant already <= completions.Keys
      {
        NextChallenge(cfg.challenges, i, u, cls, progress, old(completions));
        var paid := Pay(cfg.challenges[i], u, cls, progress, already);
        CreditedTwice(old(users), u, bonus, paid);
        bonus := bonus + paid;
      }
      assert cfg.challenges[..|cfg.challenges|] == cfg.challenges;
    }

    /** Completes one challenge when it is due; the UNIQUE (user, challenge) pair turns a
        second row away. */
    method Pay(c: Challenge, u: UserId, cls: WasteClass, progress: int, already: set<(UserId, ChallengeId)>)
      returns (paid: int)
      requires u in users && already <= completions.Keys
      modifies this`completions, this`users
      ensures var due := D.Due(c, u, cls, progress, old(completions));
              && paid == (if due then D.RewardFor(c) else 0)
              && completions == (if due then old(completions)[(u, c.id) := D.RewardFor(c)] else old(completions))
              && users == D.Credited(old(users), u, paid)
      ensures already <= completions.Keys
    {
      paid := 0;
      assert D.Credited(users, u, 0) == users;
      if c.cls == cls && c.active && (u, c.id) !in already && progress >= c.target {
        if (u, c.id) !in completions {
          completions := completions[(u, c.id) := if c.reward <= 0 then 0 else c.reward];
          if c.reward > 0 {
            users := users[u := users[u].(points := users[u].points + c.reward)];
            paid := c.reward;
          }
        }
      }
    }

    /** Closes a live session; without a classification the event's NOT NULL columns
        abort the transaction, and an earlier event of the operation is UNIQUE. */
    method RejectSession(op: OperationId, reason: Reason, status: SessionStatus) returns (verdict: D.Verdict)
      requires op in sessions
      modifies this`events, this`sessions
      ensures verdict == D.Closing(old(Rows()), op, reason, status)
      ensures Rows() == if verdict.Close? then D.Closed(old(Rows()), op, reason, status) else old(Rows())
    {
      if Terminal(sessions[op].status) { return D.Ignore; }
      if sessions[op].cls.Unclassified? || op in events { return D.Refuse(D.Aborted); }
      RecordRejection(op, reason, status);
      verdict := D.Close(reason, status);
    }

    /** The award and its bonus, in one transaction. */
    method Confirm(op: OperationId, e: D.ResultEvent) returns (bonus: int)
      requires op in sessions && sessions[op].cls.Classified? && sessions[op].user in users
      modifies this`events, this`sessions, this`users, this`studentRows, this`facultyRows, this`completions
      ensures Rows() == D.Confirm(cfg, old(Rows()), op, e) && bonus == D.BonusOf(cfg, old(Rows()), op, e)
    {
      var s := sessions[op];
      AwardPoints(op, e);
      bonus := OnDepositConfirmed(s.user, s.cls.cls);
      assert users == D.Credited(old(users), s.user, s.potentialPoints + bonus);
    }

    /** Validates one deposit_result and, when every gate passes, pays it. A call
        that aborts leaves every table as it was. */
    method CompleteFromEvent(e: D.ResultEvent, now: Instant) returns (verdict: D.Verdict, bonus: int)
      modifies this`events, this`sessions, this`users, this`studentRows, this`facultyRows, this`completions
      ensures verdict == D.Judge(cfg, old(Rows()), e, now)
      ensures Rows() == D.CompleteFromEvent(cfg, old(Rows()), e, now)
      ensures bonus == if verdict.Award? then D.BonusOf(cfg, old(Rows()), e.operation.value, e) else 0
    {
      bonus := 0;
      if e.operation.None? { return D.Refuse(D.MissingOperation), 0; }
      var op := e.operation.value;
      if op !in sessions { return D.Refuse(D.UnknownOperation), 0; }
      var s := sessions[op];
      if e.station.Some? && (e.station.value !in cfg.stationRefs || cfg.stationRefs[e.station.value] != s.station) {
        verdict := RejectSession(op, StationMismatch, SessionStatus.Rejected);
      } else if Terminal(s.status) {
        verdict := D.Refuse(D.AlreadyTerminal);
      } else if s.expiresAt < now {
        verdict := RejectSession(op, SessionExpired, Expired);
      } else {
        var failure := D.PhysicalFailure(cfg, s, e);
        if failure != NoReason {
          verdict := RejectSession(op, failure, SessionStatus.Rejected);
        } else if s.user !in users || op in events {
          verdict := D.Refuse(D.Aborted);
        } else {
          verdict := D.Award;
          bonus := Confirm(op, e);
        }
      }
    }

    // ---- leaderboard -------------------------------------------------------

    /** Deletes the student rows and adds one for every user. */
    method RebuildStudents()
      modifies this`studentRows
      ensures studentRows == StudentTruth(Rows())
    {
      studentRows := map[];
      var students := users.Keys;
      while students != {}
        invariant students <= users.Keys
        invariant studentRows == map u | u in users.Keys - students :: users[u].points
        decreases students
      {
        var u := TakeOne(students);
        studentRows := studentRows[u := users[u].points];
        students := students - {u};
      }
    }

    /** Overwrites or adds the row of every faculty. */
    method RebuildFaculties()
      modifies this`facultyRows
      ensures facultyRows == old(facultyRows) + FacultyTotals(users, cfg.faculties)
    {
      var faculties := cfg.faculties;
      while faculties != {}
        invariant faculties <= cfg.faculties
        invariant facultyRows == old(facultyRows) + FacultyTotals(users, cfg.faculties - faculties)
        decreases faculties
      {
        var f := TakeOne(faculties);
        var total := SumRows(users, MembersOf(f));
        facultyRows := facultyRows[f := total];
        faculties := faculties - {f};
      }
      assert cfg.faculties - faculties == cfg.faculties;
    }

    /** Rebuilds the ranking rows from the balances. */
    method Repair()
      modifies this`studentRows, this`facultyRows
      ensures Rows() == Repaired(cfg, old(Rows()))
    {
      RebuildStudents();
      RebuildFaculties();
    }

    // ---- every call --------------------------------------------------------

    /** Issues one call on the reward market. */
    method ServeMarket(call: MarketCall)
      requires R.UniqueRows(Rows())
      modifies this`users, this`rewards, this`redemptions
      ensures Rows() == ApplyMarket(old(Rows()), call)
    {
      match call
      case Redeem(request) => var _ := Redeem(request);
      case Reject(id) => var _ := Reject(id);
      case Cancel(user, id) => var _ := Cancel(user, id);
      case MarkUsed(id) => var _ := MarkUsed(id);
      case Approve(id) => var _ := Approve(id);
      case Fulfill(id) => var _ := Fulfill(id);
    }

    /** Issues one call of any service. */
    method Issue(call: Call)
      requires R.UniqueRows(Rows())
      modifies this
      ensures Rows() == Apply(cfg, old(Rows()), call)
    {
      match call
      case Create(user, station, prediction, day, now) =>
        var _, _ := CreateSession(user, station, prediction, day, now);
      case Upload(op, ref, frame, now) => var _ := HandleCapture(op, ref, frame, now);
      case CancelDeposit(user, op) => var _ := CancelDeposit(user, op);
      case Machine(op, state) => var _ := ApplyMachineState(op, state);
      case Complete(event, now) => var _, _ := CompleteFromEvent(event, now);
      case Market(m) => ServeMarket(m);
    }

    /** Serves one call; the tables stay valid. */
    method Serve(call: Call)
      requires Valid()
      modifies this
      ensures Valid() && Rows() == Apply(cfg, old(Rows()), call)
    {
      StepKeepsValid(cfg, Rows(), call);
      Issue(call);
    }

    /** Serves the calls in turn; what is proved of runs holds of these tables. */
    method ServeAll(calls: seq<Call>)
      requires Valid()
      modifies this
      ensures Valid() && Rows() == Run(cfg, old(Rows()), calls)
    {
      for i := 0 to |calls|
        invariant Valid() && Rows() == Run(cfg, old(Rows()), calls[..i])
      {
        assert calls[..i + 1][..i] == calls[..i];
        Serve(calls[i]);
      }
      assert calls[..|calls|] == calls;
    }
  }

  /** With the UNIQUE pair in force, any row with the key is the one a query finds. */
  lemma KeyIsUnique(db: Db, u: UserId, key: Key, id: RedemptionId)
    requires R.UniqueRows(db) && id in db.redemptions && R.HasKey(db.redemptions[id], u, key)
    ensures R.FindByKey(db, u, key) == Some(id)
  {
    var found := R.FindByKey(db, u, key).value;
  }

  /** Every call keeps the tables valid. */
  lemma StepKeepsValid(cfg: Config, db: Db, call: Call)
    requires Sound(db) && Inv(cfg, db)
    ensures Sound(Apply(cfg, db, call)) && Inv(cfg, Apply(cfg, db, call))
  {
    StepSound(cfg, db, call);
    StepKeepsInv(cfg, db, call);
  }
}
