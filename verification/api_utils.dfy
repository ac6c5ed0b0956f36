/** The session helpers of the first backend (App/server/api/utils.py).

    Every helper is a transition on the tables. `get_locked_session` runs inside
    its own `transaction.atomic()`, so when it raises, whatever it wrote is
    rolled back. `Build` selects that behaviour (`AsWritten`) or the evidently
    intended one (`Corrected`), in which a timed-out session's expiry is kept. */
module ApiUtils {
  import opened Wrappers
  import opened CartLines
  import opened ApiModels

  /** Which reading of the views to run; see the module comment. */
  datatype Build = AsWritten | Corrected

  /** `SESSION_TIMEOUT_SECONDS`, in milliseconds (the settings module is not part of
      this model, so the value is a parameter), and the build. */
  datatype Config = Config(timeoutMs: nat, build: Build)

  /** An exception a helper raises, as the REST framework renders it. */
  datatype Error = Error(status: int, message: string)

  const InactiveMessage: string := "Session is inactive"
  const ExpiredMessage: string := "Session expired"
  const NotFoundMessage: string := "Session not found"
  const NoTrolleySessionMessage: string := "No active session for this trolley"

  /** Idle for longer than the timeout; exactly the timeout is still fresh. */
  predicate TimedOut(s: Session, now: int, timeoutMs: nat) {
    now - s.lastActivity > timeoutMs
  }

  /** `expire_session(session)`: on an active session, deactivate it, delete its
      cart lines and free its trolley; on anything else, do nothing. */
  function ExpireSession(db: Db, sid: nat, now: int): (r: Db)
    ensures sid !in db.sessions || !db.sessions[sid].isActive ==> r == db
    ensures sid in db.sessions && db.sessions[sid].isActive ==>
      var s := db.sessions[sid];
      && r.sessions == db.sessions[sid := s.(isActive := false, lastActivity := now)]
      && r.items == DropSession(db.items, sid)
      && (s.trolley in db.trolleys ==>
            r.trolleys == db.trolleys[s.trolley := db.trolleys[s.trolley].(isAssigned := false, lastSeen := Some(now))])
      && (s.trolley !in db.trolleys ==> r.trolleys == db.trolleys)
      && r.products == db.products && r.users == db.users && r.payments == db.payments
      && r.nextSession == db.nextSession
  {
    if sid !in db.sessions || !db.sessions[sid].isActive then db
    else
      var s := db.sessions[sid];
      var trolleys := if s.trolley in db.trolleys
        then db.trolleys[s.trolley := db.trolleys[s.trolley].(isAssigned := false, lastSeen := Some(now))]
        else db.trolleys;
      db.(sessions := db.sessions[sid := s.(isActive := false, lastActivity := now)],
          items := DropSession(db.items, sid),
          trolleys := trolleys)
  }

  /** Expiring twice is expiring once. */
  lemma ExpireIdempotent(db: Db, sid: nat, now: int, later: int)
    ensures ExpireSession(ExpireSession(db, sid, now), sid, later) == ExpireSession(db, sid, now)
  {
  }

  /** `enforce_session_timeout(session, timeout)` on an existing session: an
      inactive one raises 'Session is inactive'; a timed-out one is expired and
      raises 'Session expired'; otherwise nothing happens. */
  function EnforceSessionTimeout(db: Db, sid: nat, now: int, timeoutMs: nat): (r: (Db, Option<Error>))
    requires sid in db.sessions
    ensures !db.sessions[sid].isActive ==> r == (db, Some(Error(400, InactiveMessage)))
    ensures db.sessions[sid].isActive && TimedOut(db.sessions[sid], now, timeoutMs) ==>
      r == (ExpireSession(db, sid, now), Some(Error(400, ExpiredMessage)))
    ensures db.sessions[sid].isActive && !TimedOut(db.sessions[sid], now, timeoutMs) ==> r == (db, None)
  {
    var s := db.sessions[sid];
    if !s.isActive then (db, Some(Error(400, InactiveMessage)))
    else if TimedOut(s, now, timeoutMs) then (ExpireSession(db, sid, now), Some(Error(400, ExpiredMessage)))
    else (db, None)
  }

  /** The tables after a helper's atomic block raised: rolled back as written,
      kept when corrected. */
  function AfterRaise(cfg: Config, before: Db, written: Db): (r: Db)
    ensures cfg.build == AsWritten ==> r == before
    ensures cfg.build == Corrected ==> r == written
  {
    if cfg.build == AsWritten then before else written
  }

  /** `get_locked_session(session_id, timeout)`: 404 for an unknown id, then the
      timeout check; on success the tables are unchanged. */
  function GetLockedSession(cfg: Config, db: Db, sid: nat, now: int): (r: (Db, Option<Error>))
    ensures sid !in db.sessions ==> r == (db, Some(Error(404, NotFoundMessage)))
    ensures sid in db.sessions ==>
      var (db1, e) := EnforceSessionTimeout(db, sid, now, cfg.timeoutMs);
      r == (if e.Some? then AfterRaise(cfg, db, db1) else db, e)
    ensures r.1.None? <==> sid in db.sessions && db.sessions[sid].isActive && !TimedOut(db.sessions[sid], now, cfg.timeoutMs)
    ensures r.1.None? ==> r.0 == db
    ensures r.1.Some? ==> r.1.value.status == 400 || r.1.value.status == 404
  {
    if sid !in db.sessions then (db, Some(Error(404, NotFoundMessage)))
    else
      var (db1, e) := EnforceSessionTimeout(db, sid, now, cfg.timeoutMs);
      if e.Some? then (AfterRaise(cfg, db, db1), e) else (db, None)
  }

  /** The newest active session of trolley `t` among the ids below `n`
      (`order_by('-created_at').first()`). */
  function NewestActive(db: Db, t: string, n: nat): (r: Option<nat>)
    ensures r.Some? ==> r.value < n && r.value in db.sessions && db.sessions[r.value].isActive && db.sessions[r.value].trolley == t
    ensures r.Some? ==> forall j :: r.value < j < n && j in db.sessions ==> !db.sessions[j].isActive || db.sessions[j].trolley != t
    ensures r.None? ==> forall j :: j < n && j in db.sessions ==> !db.sessions[j].isActive || db.sessions[j].trolley != t
    decreases n
  {
    if n == 0 then None
    else if n - 1 in db.sessions && db.sessions[n - 1].isActive && db.sessions[n - 1].trolley == t then Some(n - 1)
    else NewestActive(db, t, n - 1)
  }

  /** The newest active session of trolley `t`, if any. */
  function ActiveSessionOf(db: Db, t: string): (r: Option<nat>)
    ensures r.Some? ==> r.value in db.sessions && db.sessions[r.value].isActive && db.sessions[r.value].trolley == t
    ensures r.Some? ==> forall j :: r.value < j && j in db.sessions && db.sessions[j].isActive && j < db.nextSession ==>
      db.sessions[j].trolley != t
    ensures References(db) && r.None? ==> forall j :: j in db.sessions ==> !db.sessions[j].isActive || db.sessions[j].trolley != t
  {
    NewestActive(db, t, db.nextSession)
  }

  /** `get_locked_session_by_trolley(trolley_id, timeout)`: the trolley's newest
      active session after the timeout check, or 404. */
  function GetLockedSessionByTrolley(cfg: Config, db: Db, t: string, now: int): (r: (Db, Result))
    ensures ActiveSessionOf(db, t).None? ==> r == (db, Raised(Error(404, NoTrolleySessionMessage)))
    ensures ActiveSessionOf(db, t).Some? ==>
      var sid := ActiveSessionOf(db, t).value;
      var (db1, e) := GetLockedSession(cfg, db, sid, now);
      r == (db1, if e.Some? then Raised(e.value) else Found(sid))
  {
    match ActiveSessionOf(db, t)
    case None => (db, Raised(Error(404, NoTrolleySessionMessage)))
    case Some(sid) =>
      var (db1, e) := GetLockedSession(cfg, db, sid, now);
      (db1, if e.Some? then Raised(e.value) else Found(sid))
  }

  /** A located session, or the exception raised instead. */
  datatype Result = Found(sid: nat) | Raised(error: Error)

  /** `calculate_cart_total(session)`: the sum of the session's subtotals
      (quantizing to cents changes nothing, every subtotal already has two places). */
  function CalculateCartTotal(db: Db, sid: nat): (total: nat)
    ensures (forall i :: 0 <= i < |db.items| ==> db.items[i].session != sid) ==> total == 0
  {
    ZeroSumWithoutLines(db.items, sid);
    SumSubtotals(db.items, sid)
  }

  /** `refresh_activity(session)`: the session's `last_activity` and its
      trolley's `last_seen` become the same instant. */
  function RefreshActivity(db: Db, sid: nat, now: int): (r: Db)
    requires sid in db.sessions
    ensures r.sessions == db.sessions[sid := db.sessions[sid].(lastActivity := now)]
    ensures var t := db.sessions[sid].trolley;
      t in db.trolleys ==> r.trolleys == db.trolleys[t := db.trolleys[t].(lastSeen := Some(now))]
    ensures db.sessions[sid].trolley !in db.trolleys ==> r.trolleys == db.trolleys
    ensures r.items == db.items && r.products == db.products && r.users == db.users
    ensures r.payments == db.payments && r.nextSession == db.nextSession
  {
    var s := db.sessions[sid];
    var trolleys := if s.trolley in db.trolleys
      then db.trolleys[s.trolley := db.trolleys[s.trolley].(lastSeen := Some(now))]
      else db.trolleys;
    db.(sessions := db.sessions[sid := s.(lastActivity := now)], trolleys := trolleys)
  }

  /** The timeout boundary: idle exactly `timeoutMs` passes, one millisecond more expires. */
  lemma TimeoutBoundary(cfg: Config, db: Db, sid: nat)
    requires sid in db.sessions && db.sessions[sid].isActive
    ensures GetLockedSession(cfg, db, sid, db.sessions[sid].lastActivity + cfg.timeoutMs) == (db, None)
    ensures GetLockedSession(cfg, db, sid, db.sessions[sid].lastActivity + cfg.timeoutMs + 1).1
         == Some(Error(400, ExpiredMessage))
  {
  }

  // ---------------------------------------------------------------------------
  // Invariants the helpers keep

  /** Expiring keeps the schema's constraints and the views' invariants. */
  lemma ExpireKeepsConsistent(db: Db, sid: nat, now: int)
    requires Consistent(db)
    ensures Consistent(ExpireSession(db, sid, now))
  {
    var r := ExpireSession(db, sid, now);
    if sid in db.sessions && db.sessions[sid].isActive {
      var t := db.sessions[sid].trolley;
      forall s | s in r.sessions && r.sessions[s].isActive
        ensures r.sessions[s].trolley in r.trolleys && r.trolleys[r.sessions[s].trolley].isAssigned
      {
        assert s != sid;
        assert db.sessions[s].isActive;
        assert db.sessions[s].trolley != t;
      }
      DropKeepsItemFacts(db, sid);
    }
  }

  /** Dropping a session's lines keeps the line-table facts. */
  lemma DropKeepsItemFacts(db: Db, sid: nat)
    requires Consistent(db)
    ensures OneItemPerProduct(DropSession(db.items, sid))
    ensures forall i :: 0 <= i < |DropSession(db.items, sid)| ==>
      var x := DropSession(db.items, sid)[i];
      x.session in db.sessions && x.barcode in db.products && x.quantity >= 1 &&
      x.subtotal == db.products[x.barcode].price * x.quantity
  {
    DropIsSubsequence(db.items, sid);
  }
}
