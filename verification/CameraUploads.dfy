/** The station camera: what a series of uploads does to a session. */
module CameraUploads {
  import opened Schema
  import D = DepositService

  datatype Shot = Shot(station: StationRef, frame: D.Frame, now: Instant)

  function Uploaded(cfg: Config, db: Db, op: OperationId, shots: seq<Shot>): Db {
    if shots == [] then db
    else
      var last := shots[|shots| - 1];
      D.HandleCapture(cfg, Uploaded(cfg, db, op, shots[..|shots| - 1]), op, last.station, last.frame, last.now)
  }

  /** Uploads of the session's own station that bring no classification. */
  ghost predicate Unusable(cfg: Config, db: Db, op: OperationId, shots: seq<Shot>)
    requires op in db.sessions
  {
    forall i :: 0 <= i < |shots| ==>
      && shots[i].station in cfg.stationRefs && cfg.stationRefs[shots[i].station] == db.sessions[op].station
      && !D.Usable(cfg, db, db.sessions[op].user, shots[i].frame)
  }

  function WithStatus(db: Db, op: OperationId, s: SessionStatus): Db
    requires op in db.sessions
  {
    db.(sessions := db.sessions[op := db.sessions[op].(status := s)])
  }

  /** Where an unusable frame leaves a session: a frame the gate or the wire turned
      down may be retaken, any other failure leaves the session analyzing. */
  function StatusAfter(frame: D.Frame): SessionStatus {
    if frame.GateRejected? || frame.WireError? then Capture else Analyzing
  }

  /** Only the last of some unusable uploads shows, and only in the status. */
  lemma {:induction false} UnusableUploads(cfg: Config, db: Db, op: OperationId, shots: seq<Shot>)
    requires op in db.sessions && !Terminal(db.sessions[op].status) && db.sessions[op].user in db.users
    requires Unusable(cfg, db, op, shots)
    ensures var s := if shots == [] then db.sessions[op].status else StatusAfter(shots[|shots| - 1].frame);
            Uploaded(cfg, db, op, shots) == WithStatus(db, op, s)
  {
    if shots == [] {
      assert WithStatus(db, op, db.sessions[op].status).sessions == db.sessions;
    } else {
      var rest, last := shots[..|shots| - 1], shots[|shots| - 1];
      var s := if rest == [] then db.sessions[op].status else StatusAfter(rest[|rest| - 1].frame);
      UnusableUploads(cfg, db, op, rest);
      OneUnusable(cfg, db, op, s, last);
    }
  }

  lemma OneUnusable(cfg: Config, db: Db, op: OperationId, s: SessionStatus, shot: Shot)
    requires op in db.sessions && !Terminal(s) && db.sessions[op].user in db.users && Unusable(cfg, db, op, [shot])
    ensures D.HandleCapture(cfg, WithStatus(db, op, s), op, shot.station, shot.frame, shot.now)
         == WithStatus(db, op, StatusAfter(shot.frame))
  {
    assert [shot][0] == shot;
    assert D.HandleCapture(cfg, WithStatus(db, op, s), op, shot.station, shot.frame, shot.now).sessions
        == WithStatus(db, op, StatusAfter(shot.frame)).sessions;
  }

  /** However many unusable frames came before, a usable one classifies the session as
      if it had been the first: with the policy's position and points, pending, or
      rejected for low confidence. */
  lemma RetakesLeaveNoTrace(cfg: Config, db: Db, op: OperationId, shots: seq<Shot>, good: Shot)
    requires op in db.sessions && !Terminal(db.sessions[op].status) && db.sessions[op].user in db.users
    requires Unusable(cfg, db, op, shots)
    requires good.station in cfg.stationRefs && cfg.stationRefs[good.station] == db.sessions[op].station
    requires D.Usable(cfg, db, db.sessions[op].user, good.frame)
    ensures Uploaded(cfg, db, op, shots + [good]) == Uploaded(cfg, db, op, [good])
    ensures op in Uploaded(cfg, db, op, [good]).sessions
    ensures var s := Uploaded(cfg, db, op, [good]).sessions[op];
            && s.cls == Classified(good.frame.id, good.frame.cls, cfg.policies[good.frame.cls].position, good.frame.level)
            && s.potentialPoints == cfg.policies[good.frame.cls].points
            && s.status == (if good.frame.level.Low? then SessionStatus.Rejected else SessionStatus.Pending)
            && s.user == db.sessions[op].user && s.station == db.sessions[op].station
            && s.expiresAt == db.sessions[op].expiresAt
  {
    var s := if shots == [] then db.sessions[op].status else StatusAfter(shots[|shots| - 1].frame);
    UnusableUploads(cfg, db, op, shots);
    UsableOverwrites(cfg, db, op, s, good);
    OneMore(cfg, db, op, shots, good);
    OneMore(cfg, db, op, [], good);
    assert [] + [good] == [good];
    UsableClassifies(cfg, db, op, good);
  }

  lemma OneMore(cfg: Config, db: Db, op: OperationId, shots: seq<Shot>, good: Shot)
    ensures Uploaded(cfg, db, op, shots + [good])
         == D.HandleCapture(cfg, Uploaded(cfg, db, op, shots), op, good.station, good.frame, good.now)
  {
    assert (shots + [good])[..|shots|] == shots;
  }

  lemma UsableClassifies(cfg: Config, db: Db, op: OperationId, good: Shot)
    requires op in db.sessions && !Terminal(db.sessions[op].status)
    requires good.station in cfg.stationRefs && cfg.stationRefs[good.station] == db.sessions[op].station
    requires D.Usable(cfg, db, db.sessions[op].user, good.frame)
    ensures var after := D.HandleCapture(cfg, db, op, good.station, good.frame, good.now);
            && op in after.sessions && after.sessions[op] == D.UploadedSession(cfg, db, db.sessions[op], good.frame)
  {
  }

  /** What a usable frame leaves does not depend on where the session stood. */
  lemma UsableOverwrites(cfg: Config, db: Db, op: OperationId, s: SessionStatus, good: Shot)
    requires op in db.sessions && !Terminal(s) && !Terminal(db.sessions[op].status)
    requires good.station in cfg.stationRefs && cfg.stationRefs[good.station] == db.sessions[op].station
    requires D.Usable(cfg, db, db.sessions[op].user, good.frame)
    ensures D.HandleCapture(cfg, WithStatus(db, op, s), op, good.station, good.frame, good.now)
         == D.HandleCapture(cfg, db, op, good.station, good.frame, good.now)
  {
    assert D.HandleCapture(cfg, WithStatus(db, op, s), op, good.station, good.frame, good.now).sessions
        == D.HandleCapture(cfg, db, op, good.station, good.frame, good.now).sessions;
  }
}
