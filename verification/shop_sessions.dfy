/** The session endpoints of the second backend (App/server/sessions/views.py)
    and the responses all its endpoints share. Each endpoint takes the tables,
    the request's fields and the time, and returns the tables after the request
    and the response; every write is immediate (no transaction). Serializer
    rejections of malformed fields are not modelled. */
module ShopSessions {
  import opened Wrappers
  import opened Money
  import opened CartLines
  import opened ShopModels

  /** A response body: an `{'error': …}` (with the session id when the view adds
      it), the 409 conflict, or an endpoint's success body. */
  datatype Body =
    | Failure(error: string, session: Option<nat>)
    | Conflict(error: string, existing: nat)
    | Started(sessionId: nat, trolley: string)
    | Beat(sessionId: nat, lastHeartbeat: int)
    | Ended(sessionId: nat, trolley: string, itemsCleared: nat)
    | LineUpdated(sessionId: nat, barcode: string, quantity: nat, subtotal: string, action: string)
    | LineRemoved(sessionId: nat, barcode: string)
    | CartSummary(sessionId: nat, trolley: string, items: seq<CartItem>, totalItems: nat, totalAmount: string)
    | PaymentIssued(sessionId: nat, totalAmount: string, upi: string, status: PaymentStatus)
    | PaymentDone(sessionId: nat, totalPaid: string)
    | PaymentState(sessionId: nat, state: Option<PaymentStatus>, amount: Option<string>, sessionActive: bool)
    | ServerError

  datatype Response = Response(status: int, body: Body)

  /** A `session_id` query parameter: absent or empty, not a UUID, or an id. */
  datatype QueryId = Missing | Malformed | Given(sid: nat)

  const NotFoundError: string := "Session not found"
  const InactiveError: string := "Session is no longer active"
  const ExpiredError: string := "Session has expired due to inactivity"
  const AlreadyEndedError: string := "Session is already ended"
  const MissingIdError: string := "session_id is required"

  /** What `validate_session` hands back: the usable session, or the error response. */
  datatype Checked = Usable(sid: nat) | Refused(response: Response)

  /** `validate_session(session_id)`: 404 for an unknown id, 400 for an inactive
      session, and for an expired one 400 after ending it and deleting its lines. */
  function ValidateSession(db: Db, sid: nat, now: int): (r: (Db, Checked))
    ensures sid !in db.sessions ==> r == (db, Refused(Response(404, Failure(NotFoundError, Some(sid)))))
    ensures sid in db.sessions && !db.sessions[sid].isActive ==>
      r == (db, Refused(Response(400, Failure(InactiveError, Some(sid)))))
    ensures sid in db.sessions && db.sessions[sid].isActive && IsExpired(db.sessions[sid], now) ==>
      r == (Retire(db, sid, now), Refused(Response(400, Failure(ExpiredError, Some(sid)))))
    ensures r.1.Usable? <==> sid in db.sessions && db.sessions[sid].isActive && !IsExpired(db.sessions[sid], now)
    ensures r.1.Usable? ==> r.0 == db && r.1.sid == sid
    ensures r.1.Refused? ==> r.1.response.status == 400 || r.1.response.status == 404
  {
    if sid !in db.sessions then (db, Refused(Response(404, Failure(NotFoundError, Some(sid)))))
    else if !db.sessions[sid].isActive then (db, Refused(Response(400, Failure(InactiveError, Some(sid)))))
    else if IsExpired(db.sessions[sid], now) then
      (Retire(db, sid, now), Refused(Response(400, Failure(ExpiredError, Some(sid)))))
    else (db, Usable(sid))
  }

  /** The loop over the trolley's active sessions, newest first (ids `n - 1` down
      to 0): an expired one is ended and its lines deleted; the first live one
      stops the loop and is returned. `SweepOutcome` states what it finds. */
  function Sweep(db: Db, t: string, n: nat, now: int): (r: (Db, Option<nat>))
    requires References(db)
    ensures References(r.0)
    ensures r.0.sessions.Keys == db.sessions.Keys
    ensures r.0.trolleys == db.trolleys && r.0.products == db.products && r.0.payments == db.payments
    ensures r.0.nextSession == db.nextSession
    ensures forall x :: x in r.0.items ==> x in db.items
    decreases n
  {
    if n == 0 then (db, None)
    else
      var id := n - 1;
      if id in db.sessions && db.sessions[id].isActive && db.sessions[id].trolley == t then
        if IsExpired(db.sessions[id], now) then
          RetireKeepsReferences(db, id, now);
          Sweep(Retire(db, id, now), t, id, now)
        else (db, Some(id))
      else Sweep(db, t, id, now)
  }

  /** Between two versions of the session table, the only sessions that differ
      are expired active sessions of `t` below `n`, each of them ended. */
  predicate EndedOnlyExpired(before: map<nat, Session>, after: map<nat, Session>, t: string, n: nat, now: int) {
    forall j :: j in before && j in after && after[j] != before[j] ==>
      && j < n && before[j].isActive && before[j].trolley == t && IsExpired(before[j], now)
      && after[j] == EndSession(before[j], now)
  }

  /** Ending the expired session `id` first and then only expired sessions below
      it ends only expired sessions below `id + 1`. */
  lemma EndedOnlyExpiredStep(before: map<nat, Session>, after: map<nat, Session>, t: string, id: nat, now: int)
    requires id in before && before[id].isActive && before[id].trolley == t && IsExpired(before[id], now)
    requires EndedOnlyExpired(before[id := EndSession(before[id], now)], after, t, id, now)
    ensures EndedOnlyExpired(before, after, t, id + 1, now)
  {
    var mid := before[id := EndSession(before[id], now)];
    forall j | j in before && j in after && after[j] != before[j]
      ensures j < id + 1 && before[j].isActive && before[j].trolley == t && IsExpired(before[j], now)
      ensures after[j] == EndSession(before[j], now)
    {
      if j != id {
        assert mid[j] == before[j];
      } else {
        assert after[j] == mid[j];
      }
    }
  }

  /** What the sweep changes: only expired active sessions of `t` below `n`,
      each of them ended. */
  lemma {:induction false} SweepChanges(db: Db, t: string, n: nat, now: int)
    requires References(db)
    ensures EndedOnlyExpired(db.sessions, Sweep(db, t, n, now).0.sessions, t, n, now)
    decreases n
  {
    if n > 0 {
      var id := n - 1;
      if id in db.sessions && db.sessions[id].isActive && db.sessions[id].trolley == t {
        if IsExpired(db.sessions[id], now) {
          var next := Retire(db, id, now);
          RetireKeepsReferences(db, id, now);
          SweepChanges(next, t, id, now);
          assert Sweep(db, t, n, now) == Sweep(next, t, id, now);
          EndedOnlyExpiredStep(db.sessions, Sweep(next, t, id, now).0.sessions, t, id, now);
        }
      } else {
        SweepChanges(db, t, id, now);
      }
    }
  }

  /** What the sweep finds: a live active session of `t` below `n`, left as it
      was; or none, and then no active session of `t` below `n` is left. */
  lemma SweepOutcome(db: Db, t: string, n: nat, now: int)
    requires References(db)
    ensures var r := Sweep(db, t, n, now);
      && (r.1.Some? ==>
            && r.1.value < n && r.1.value in db.sessions
            && r.0.sessions[r.1.value] == db.sessions[r.1.value]
            && db.sessions[r.1.value].isActive && db.sessions[r.1.value].trolley == t
            && !IsExpired(db.sessions[r.1.value], now))
      && (r.1.None? ==> NoActiveBelow(r.0.sessions, t, n))
  {
    SweepFound(db, t, n, now);
    SweepClears(db, t, n, now);
  }

  /** A session the sweep returns is a live active session of `t` below `n`,
      left as it was. */
  lemma {:induction false} SweepFound(db: Db, t: string, n: nat, now: int)
    requires References(db)
    ensures var r := Sweep(db, t, n, now);
      r.1.Some? ==>
        && r.1.value < n && r.1.value in db.sessions
        && r.0.sessions[r.1.value] == db.sessions[r.1.value]
        && db.sessions[r.1.value].isActive && db.sessions[r.1.value].trolley == t
        && !IsExpired(db.sessions[r.1.value], now)
    decreases n
  {
    if n > 0 {
      var id := n - 1;
      if id in db.sessions && db.sessions[id].isActive && db.sessions[id].trolley == t {
        if IsExpired(db.sessions[id], now) {
          var next := Retire(db, id, now);
          RetireKeepsReferences(db, id, now);
          SweepFound(next, t, id, now);
          var r := Sweep(next, t, id, now);
          assert Sweep(db, t, n, now) == r;
          if r.1.Some? {
            assert next.sessions[r.1.value] == db.sessions[r.1.value];
          }
        }
      } else {
        SweepFound(db, t, id, now);
      }
    }
  }

  /** When the sweep returns nothing, no active session of `t` below `n` is left. */
  lemma {:induction false} SweepClears(db: Db, t: string, n: nat, now: int)
    requires References(db)
    ensures var r := Sweep(db, t, n, now);
      r.1.None? ==> NoActiveBelow(r.0.sessions, t, n)
    decreases n
  {
    if n > 0 {
      var id := n - 1;
      if id in db.sessions && db.sessions[id].isActive && db.sessions[id].trolley == t {
        if IsExpired(db.sessions[id], now) {
          var next := Retire(db, id, now);
          RetireKeepsReferences(db, id, now);
          SweepClears(next, t, id, now);
          SweepChanges(next, t, id, now);
          var r := Sweep(next, t, id, now);
          assert Sweep(db, t, n, now) == r;
          if r.1.None? {
            ClearsStep(next.sessions, r.0.sessions, t, id, now);
          }
        }
      } else {
        SweepClears(db, t, id, now);
        SweepChanges(db, t, id, now);
        var r := Sweep(db, t, id, now);
        if r.1.None? {
          ClearsStep(db.sessions, r.0.sessions, t, id, now);
        }
      }
    }
  }

  /** No active session of `t` below `n` in `sessions`. */
  predicate NoActiveBelow(sessions: map<nat, Session>, t: string, n: nat) {
    forall j :: j < n && j in sessions ==> !sessions[j].isActive || sessions[j].trolley != t
  }

  /** If `id` is not an active session of `t` and the rest of the sweep left
      none below `id`, none is left below `id + 1`. */
  lemma ClearsStep(before: map<nat, Session>, after: map<nat, Session>, t: string, id: nat, now: int)
    requires after.Keys == before.Keys
    requires EndedOnlyExpired(before, after, t, id, now)
    requires id in before ==> !before[id].isActive || before[id].trolley != t
    requires NoActiveBelow(after, t, id)
    ensures NoActiveBelow(after, t, id + 1)
  {
    if id in after {
      assert after[id] == before[id];
    }
  }

  /** Ending a session and deleting its lines keeps every reference resolving. */
  lemma RetireKeepsReferences(db: Db, sid: nat, now: int)
    requires References(db) && sid in db.sessions
    ensures References(Retire(db, sid, now))
  {
    var r := Retire(db, sid, now);
    forall i | 0 <= i < |r.items|
      ensures r.items[i].session in r.sessions && r.items[i].barcode in r.products
    {
      assert r.items[i] in db.items;
      var j :| 0 <= j < |db.items| && db.items[j] == r.items[i];
    }
  }

  /** A sweep over every session that finds no live one means every active
      session of `t` was expired. */
  lemma EmptySweepMeansNoLive(db: Db, t: string, now: int)
    requires References(db)
    ensures Sweep(db, t, db.nextSession, now).1.None? ==> forall j :: j in db.sessions && db.sessions[j].isActive && db.sessions[j].trolley == t ==> IsExpired(db.sessions[j], now)
  {
    SweepOutcome(db, t, db.nextSession, now);
    SweepChanges(db, t, db.nextSession, now);
    var (after, live) := Sweep(db, t, db.nextSession, now);
    if live.None? {
      forall j | j in db.sessions && db.sessions[j].isActive && db.sessions[j].trolley == t
        ensures IsExpired(db.sessions[j], now)
      {
        assert j in after.sessions && j < db.nextSession;
        assert after.sessions[j] != db.sessions[j];
      }
    }
  }

  /** `SessionStartView.post`: an unknown trolley is 404 and an inactive one 400;
      otherwise the sweep ends the trolley's expired sessions, a live one is
      reported as a 409, and without one a new session is created. */
  function SessionStart(db: Db, t: string, now: int): (r: (Db, Response))
    requires References(db)
    ensures t !in db.trolleys ==> r == (db, Response(404, Failure("Trolley " + t + " not found", None)))
    ensures t in db.trolleys && !db.trolleys[t].isActive ==>
      r == (db, Response(400, Failure("Trolley " + t + " is not active", None)))
    ensures r.1.status == 409 ==>
      && r.1.body.Conflict? && r.1.body.existing in r.0.sessions
      && r.0.sessions[r.1.body.existing].isActive && r.0.sessions[r.1.body.existing].trolley == t
      && !IsExpired(r.0.sessions[r.1.body.existing], now)
    ensures r.1.status == 201 ==>
      && r.1.body == Started(db.nextSession, t)
      && db.nextSession in r.0.sessions && r.0.sessions[db.nextSession] == NewSession(t, now)
      && t in r.0.trolleys && !r.0.trolleys[t].isLocked && r.0.trolleys[t].lastSeen == now
      && r.0.nextSession == db.nextSession + 1
      && forall j :: j in r.0.sessions && j != db.nextSession ==> !r.0.sessions[j].isActive || r.0.sessions[j].trolley != t
    ensures t in db.trolleys && db.trolleys[t].isActive &&
      (exists j :: j in db.sessions && db.sessions[j].isActive && db.sessions[j].trolley == t && !IsExpired(db.sessions[j], now))
      ==> r.1.status == 409
    ensures t in db.trolleys && db.trolleys[t].isActive &&
      (forall j :: j in db.sessions && db.sessions[j].isActive && db.sessions[j].trolley == t ==> IsExpired(db.sessions[j], now))
      ==> r.1.status == 201
    ensures EndedOnlyExpired(db.sessions, r.0.sessions, t, db.nextSession, now)
    ensures r.1.status == 201 || r.1.status == 400 || r.1.status == 404 || r.1.status == 409
    ensures References(r.0)
  {
    if t !in db.trolleys then (db, Response(404, Failure("Trolley " + t + " not found", None)))
    else if !db.trolleys[t].isActive then (db, Response(400, Failure("Trolley " + t + " is not active", None)))
    else
      SweepOutcome(db, t, db.nextSession, now);
      SweepChanges(db, t, db.nextSession, now);
      EmptySweepMeansNoLive(db, t, now);
      var (db1, live) := Sweep(db, t, db.nextSession, now);
      if live.Some? then
        (db1, Response(409, Conflict("Trolley " + t + " already has an active session", live.value)))
      else
        var sid := db1.nextSession;
        var db2 := db1.(sessions := db1.sessions[sid := NewSession(t, now)],
                        trolleys := db1.trolleys[t := db1.trolleys[t].(isLocked := false, lastSeen := now)],
                        nextSession := sid + 1);
        (db2, Response(201, Started(sid, t)))
  }

  /** `SessionHeartbeatView.post`: a usable session's heartbeat and its trolley's
      `last_seen` become now. */
  function SessionHeartbeat(db: Db, sid: nat, now: int): (r: (Db, Response))
    ensures ValidateSession(db, sid, now).1.Refused? ==> r == (ValidateSession(db, sid, now).0, ValidateSession(db, sid, now).1.response)
    ensures r.1.status == 200 <==> ValidateSession(db, sid, now).1.Usable?
    ensures r.1.status == 200 ==>
      && r.1.body == Beat(sid, now)
      && r.0.sessions == db.sessions[sid := UpdateHeartbeat(db.sessions[sid], now)]
      && r.0.items == db.items && r.0.payments == db.payments
      && (db.sessions[sid].trolley in db.trolleys ==>
            r.0.trolleys == db.trolleys[db.sessions[sid].trolley := db.trolleys[db.sessions[sid].trolley].(lastSeen := now)])
  {
    var (db1, c) := ValidateSession(db, sid, now);
    match c
    case Refused(resp) => (db1, resp)
    case Usable(_) =>
      var s := db.sessions[sid];
      var trolleys := if s.trolley in db.trolleys then db.trolleys[s.trolley := db.trolleys[s.trolley].(lastSeen := now)] else db.trolleys;
      (db.(sessions := db.sessions[sid := UpdateHeartbeat(s, now)], trolleys := trolleys), Response(200, Beat(sid, now)))
  }

  /** `SessionEndView.post`: an active session (expired or not) is ended, its
      lines deleted and counted, and its trolley locked. */
  function SessionEnd(db: Db, sid: nat, now: int): (r: (Db, Response))
    ensures sid !in db.sessions ==> r == (db, Response(404, Failure(NotFoundError, Some(sid))))
    ensures sid in db.sessions && !db.sessions[sid].isActive ==> r == (db, Response(400, Failure(AlreadyEndedError, Some(sid))))
    ensures sid in db.sessions && db.sessions[sid].isActive ==>
      var t := db.sessions[sid].trolley;
      && r.1 == Response(200, Ended(sid, t, CountLines(db.items, sid)))
      && r.0.sessions == db.sessions[sid := EndSession(db.sessions[sid], now)]
      && r.0.items == DropSession(db.items, sid)
      && (t in db.trolleys ==> r.0.trolleys == db.trolleys[t := db.trolleys[t].(isLocked := true, lastSeen := now)])
  {
    if sid !in db.sessions then (db, Response(404, Failure(NotFoundError, Some(sid))))
    else if !db.sessions[sid].isActive then (db, Response(400, Failure(AlreadyEndedError, Some(sid))))
    else
      var t := db.sessions[sid].trolley;
      var count := CountLines(db.items, sid);
      var db1 := Retire(db, sid, now);
      var trolleys := if t in db1.trolleys then db1.trolleys[t := db1.trolleys[t].(isLocked := true, lastSeen := now)] else db1.trolleys;
      (db1.(trolleys := trolleys), Response(200, Ended(sid, t, count)))
  }
}
