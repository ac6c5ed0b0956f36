/** What the first backend's endpoints keep true and how they fit together:
    every endpoint keeps the tables consistent (session end only once corrected),
    a scan and a remove of the same product cancel out, and the totals are the
    sums of price times quantity. The last section exhibits the three defects of
    the code as written next to the corrected behaviour. */
module ApiProperties {
  import opened Wrappers
  import opened Money
  import opened CartLines
  import opened ApiModels
  import opened ApiUtils
  import opened ApiViews

  // ---------------------------------------------------------------------------
  // Building blocks

  /** Refreshing activity touches only timestamps. */
  lemma RefreshKeepsConsistent(db: Db, sid: nat, now: int)
    requires Consistent(db) && sid in db.sessions
    ensures Consistent(RefreshActivity(db, sid, now))
  {
    var r := RefreshActivity(db, sid, now);
    assert forall s :: s in r.sessions ==>
      s in db.sessions && r.sessions[s].isActive == db.sessions[s].isActive &&
      r.sessions[s].trolley == db.sessions[s].trolley && r.sessions[s].user == db.sessions[s].user;
    assert forall t :: t in db.trolleys ==> t in r.trolleys && r.trolleys[t].isAssigned == db.trolleys[t].isAssigned;
  }

  /** The helper's exception path keeps the tables consistent in both builds. */
  lemma LockedKeepsConsistent(cfg: Config, db: Db, sid: nat, now: int)
    requires Consistent(db)
    ensures Consistent(GetLockedSession(cfg, db, sid, now).0)
  {
    ExpireKeepsConsistent(db, sid, now);
  }

  lemma LocateKeepsConsistent(cfg: Config, db: Db, target: Target, now: int)
    requires Consistent(db) && !target.Neither?
    ensures Consistent(Locate(cfg, db, target, now).0)
  {
    match target
    case BySession(sid) => LockedKeepsConsistent(cfg, db, sid, now);
    case ByTrolley(t) =>
      var a := ActiveSessionOf(db, t);
      if a.Some? {
        LockedKeepsConsistent(cfg, db, a.value, now);
      }
  }

  /** No active session of `t` below `n`: the lookup finds none. */
  lemma NoActiveMeansNone(db: Db, t: string, n: nat)
    requires forall j :: j < n && j in db.sessions ==> !db.sessions[j].isActive || db.sessions[j].trolley != t
    ensures NewestActive(db, t, n).None?
  {
  }

  // ---------------------------------------------------------------------------
  // Sessions

  /** A session start keeps the tables consistent: the new session is the only
      active one on its trolley, and the trolley is assigned. */
  lemma StartKeepsConsistent(cfg: Config, db: Db, t: string, user: Option<nat>, now: int)
    requires Consistent(db)
    ensures Consistent(SessionStart(cfg, db, t, user, now).0)
  {
    if SessionStart(cfg, db, t, user, now).1.status == 201 {
      StartedKeepsConsistent(cfg, db, t, user, now);
    } else {
      RefusedStartKeepsConsistent(cfg, db, t, user, now);
    }
  }

  /** A successful start keeps the tables consistent. */
  lemma StartedKeepsConsistent(cfg: Config, db: Db, t: string, user: Option<nat>, now: int)
    requires Consistent(db) && SessionStart(cfg, db, t, user, now).1.status == 201
    ensures Consistent(SessionStart(cfg, db, t, user, now).0)
  {
    var r := SessionStart(cfg, db, t, user, now);
    var db1 := if t in db.trolleys then db else db.(trolleys := db.trolleys[t := NewTrolley(now)]);
    UnassignedTrolleyIsFree(db, db1, t, now);
    NoActiveMeansNone(db1, t, db1.nextSession);
    var sid := db1.nextSession;
    assert r.0 == db1.(sessions := db1.sessions[sid := Session(t, user, true, now)],
                       trolleys := db1.trolleys[t := db1.trolleys[t].(isAssigned := true, lastSeen := Some(now))],
                       nextSession := sid + 1);
    StartStep(db1, t, user, now);
  }

  /** A refused start changes nothing but, perhaps, registers the trolley. */
  lemma RefusedStartKeepsConsistent(cfg: Config, db: Db, t: string, user: Option<nat>, now: int)
    requires Consistent(db) && SessionStart(cfg, db, t, user, now).1.status != 201
    ensures Consistent(SessionStart(cfg, db, t, user, now).0)
  {
    var r := SessionStart(cfg, db, t, user, now);
    if t in db.trolleys {
      assert r.0 == db;
    } else {
      var db1 := db.(trolleys := db.trolleys[t := NewTrolley(now)]);
      UnassignedTrolleyIsFree(db, db1, t, now);
      assert r.0 == db || r.0 == db1;
    }
  }

  /** An unassigned or unknown trolley (registered on first use) is held by no
      active session, and registering it keeps the tables consistent. */
  lemma UnassignedTrolleyIsFree(db: Db, db1: Db, t: string, now: int)
    requires Consistent(db)
    requires t in db.trolleys ==> !db.trolleys[t].isAssigned
    requires db1 == if t in db.trolleys then db else db.(trolleys := db.trolleys[t := NewTrolley(now)])
    ensures Consistent(db1) && t in db1.trolleys && db1.sessions == db.sessions
    ensures forall j :: j in db1.sessions && db1.sessions[j].isActive ==> db1.sessions[j].trolley != t
  {
    assert forall s :: s in db.sessions ==> db.sessions[s].trolley in db.trolleys;
  }

  /** The last step of a start: a fresh active session on a trolley no active
      session holds, and the trolley assigned. */
  lemma StartStep(db: Db, t: string, user: Option<nat>, now: int)
    requires Consistent(db) && t in db.trolleys
    requires user.Some? ==> user.value < |db.users|
    requires forall j :: j in db.sessions && db.sessions[j].isActive ==> db.sessions[j].trolley != t
    ensures Consistent(db.(sessions := db.sessions[db.nextSession := Session(t, user, true, now)],
                           trolleys := db.trolleys[t := db.trolleys[t].(isAssigned := true, lastSeen := Some(now))],
                           nextSession := db.nextSession + 1))
  {
    var sid := db.nextSession;
    var r := db.(sessions := db.sessions[sid := Session(t, user, true, now)],
                 trolleys := db.trolleys[t := db.trolleys[t].(isAssigned := true, lastSeen := Some(now))],
                 nextSession := sid + 1);
    assert sid !in db.sessions;
    forall a, b | a in r.sessions && b in r.sessions && r.sessions[a].isActive && r.sessions[b].isActive &&
                  r.sessions[a].trolley == r.sessions[b].trolley
      ensures a == b
    {
      if a != sid && b != sid {
        assert db.sessions[a].isActive && db.sessions[b].isActive;
      }
    }
  }

  /** A heartbeat keeps the tables consistent. */
  lemma HeartbeatKeepsConsistent(cfg: Config, db: Db, sid: nat, now: int)
    requires Consistent(db)
    ensures Consistent(SessionHeartbeat(cfg, db, sid, now).0)
  {
    LockedKeepsConsistent(cfg, db, sid, now);
    if sid in db.sessions {
      RefreshKeepsConsistent(db, sid, now);
    }
  }

  /** Corrected, a session end keeps the tables consistent: an ended session's
      trolley is freed only when no active session holds it. */
  lemma EndKeepsConsistent(cfg: Config, db: Db, sid: nat, now: int)
    requires Consistent(db) && cfg.build == Corrected
    ensures Consistent(SessionEnd(cfg, db, sid, now).0)
  {
    var r := SessionEnd(cfg, db, sid, now);
    if r.1.status != 200 {
      LockedKeepsConsistent(cfg, db, sid, now);
    } else if db.sessions[sid].isActive {
      ExpireKeepsConsistent(db, sid, now);
    } else {
      var t := db.sessions[sid].trolley;
      if t in db.trolleys && db.trolleys[t].isAssigned && !HeldByActive(db, t) {
        FreeTrolleyKeepsConsistent(db, t, now);
        assert r.0 == db.(trolleys := db.trolleys[t := db.trolleys[t].(isAssigned := false, lastSeen := Some(now))]);
      } else {
        assert r.0 == db;
      }
    }
  }

  /** Freeing a trolley no active session holds keeps the tables consistent. */
  lemma FreeTrolleyKeepsConsistent(db: Db, t: string, now: int)
    requires Consistent(db) && t in db.trolleys && !HeldByActive(db, t)
    ensures Consistent(db.(trolleys := db.trolleys[t := db.trolleys[t].(isAssigned := false, lastSeen := Some(now))]))
  {
    var r := db.(trolleys := db.trolleys[t := db.trolleys[t].(isAssigned := false, lastSeen := Some(now))]);
    forall s | s in r.sessions && r.sessions[s].isActive
      ensures r.sessions[s].trolley in r.trolleys && r.trolleys[r.sessions[s].trolley].isAssigned
    {
      assert db.sessions[s].trolley != t;
    }
  }

  /** A started session ended at once leaves its trolley free. */
  lemma StartThenEndFreesTrolley(cfg: Config, db: Db, t: string, user: Option<nat>, now: int)
    requires SessionStart(cfg, db, t, user, now).1.status == 201
    ensures var r := SessionStart(cfg, db, t, user, now).0;
      var e := SessionEnd(cfg, r, db.nextSession, now);
      && e.1 == Response(200, Status("ended"))
      && !e.0.sessions[db.nextSession].isActive
      && t in e.0.trolleys && !e.0.trolleys[t].isAssigned
  {
  }

  // ---------------------------------------------------------------------------
  // Cart

  /** One more unit keeps the line table consistent. */
  lemma AddUnitKeepsConsistent(db: Db, sid: nat, barcode: string)
    requires Consistent(db) && sid in db.sessions && barcode in db.products
    ensures Consistent(db.(items := AddUnit(db.items, sid, barcode, db.products[barcode].price)))
  {
    AddUnitKeepsLines(db.items, sid, barcode, Prices(db));
  }

  /** One unit fewer keeps the line table consistent. */
  lemma RemoveUnitKeepsConsistent(db: Db, i: nat)
    requires Consistent(db) && i < |db.items|
    ensures Consistent(db.(items := RemoveUnit(db.items, i, db.products[db.items[i].barcode].price)))
  {
    RemoveUnitKeepsLines(db.items, i, Prices(db));
  }

  /** A scan keeps the tables consistent. */
  lemma ScanKeepsConsistent(cfg: Config, db: Db, target: Target, barcode: string, now: int)
    requires Consistent(db)
    ensures Consistent(CartScan(cfg, db, target, barcode, now).0)
  {
    if !target.Neither? {
      LocateKeepsConsistent(cfg, db, target, now);
      var found := Locate(cfg, db, target, now).1;
      if found.Found? && barcode in db.products && db.products[barcode].isActive {
        AddUnitKeepsConsistent(db, found.sid, barcode);
        RefreshKeepsConsistent(db.(items := AddUnit(db.items, found.sid, barcode, db.products[barcode].price)), found.sid, now);
      }
    }
  }

  /** A remove keeps the tables consistent. */
  lemma RemoveKeepsConsistent(cfg: Config, db: Db, sid: nat, barcode: string, now: int)
    requires Consistent(db)
    ensures Consistent(CartRemove(cfg, db, sid, barcode, now).0)
  {
    LockedKeepsConsistent(cfg, db, sid, now);
    if GetLockedSession(cfg, db, sid, now).1.None? && barcode in db.products && FindItem(db.items, sid, barcode).Some? {
      var i := FindItem(db.items, sid, barcode).value;
      RemoveUnitKeepsConsistent(db, i);
      RefreshKeepsConsistent(db.(items := RemoveUnit(db.items, i, db.products[barcode].price)), sid, now);
    }
  }

  /** Reading a cart keeps the tables consistent. */
  lemma ViewKeepsConsistent(cfg: Config, db: Db, sid: nat, now: int)
    requires Consistent(db)
    ensures Consistent(CartView(cfg, db, sid, now).0)
  {
    LockedKeepsConsistent(cfg, db, sid, now);
  }

  /** A scan adds the product's price to the session's total. */
  lemma ScanAddsPrice(cfg: Config, db: Db, sid: nat, barcode: string, now: int)
    requires Consistent(db)
    requires CartScan(cfg, db, BySession(sid), barcode, now).1.status == 200
    ensures barcode in db.products
    ensures SumSubtotals(CartScan(cfg, db, BySession(sid), barcode, now).0.items, sid)
         == SumSubtotals(db.items, sid) + db.products[barcode].price
  {
    var g := GetLockedSession(cfg, db, sid, now);
    assert g.1.None?;
    assert barcode in db.products && db.products[barcode].isActive;
    AddUnitSum(db.items, sid, barcode, db.products[barcode].price);
  }

  /** A remove takes the product's price off the session's total. */
  lemma RemoveTakesPrice(cfg: Config, db: Db, sid: nat, barcode: string, now: int)
    requires Consistent(db)
    requires CartRemove(cfg, db, sid, barcode, now).1.status == 200
    ensures barcode in db.products
    ensures SumSubtotals(CartRemove(cfg, db, sid, barcode, now).0.items, sid) + db.products[barcode].price
         == SumSubtotals(db.items, sid)
  {
    var g := GetLockedSession(cfg, db, sid, now);
    assert g.1.None?;
    assert barcode in db.products && FindItem(db.items, sid, barcode).Some?;
    var i := FindItem(db.items, sid, barcode).value;
    RemoveUnitSum(db.items, i, db.products[barcode].price);
  }

  /** Scanning a product and then removing it restores the line table exactly. */
  lemma ScanThenRemoveRestoresCart(cfg: Config, db: Db, sid: nat, barcode: string, now: int, later: int)
    requires Consistent(db)
    requires CartScan(cfg, db, BySession(sid), barcode, now).1.status == 200
    requires now <= later <= now + cfg.timeoutMs
    ensures var s := CartScan(cfg, db, BySession(sid), barcode, now).0;
      CartRemove(cfg, s, sid, barcode, later).1.status == 200 &&
      CartRemove(cfg, s, sid, barcode, later).0.items == db.items
  {
    var g := GetLockedSession(cfg, db, sid, now);
    assert g.1.None?;
    assert barcode in db.products && db.products[barcode].isActive;
    var price := db.products[barcode].price;
    var added := AddUnit(db.items, sid, barcode, price);
    var s := CartScan(cfg, db, BySession(sid), barcode, now).0;
    assert s == RefreshActivity(db.(items := added), sid, now);
    assert s.items == added && s.products == db.products;
    assert s.sessions[sid].isActive && s.sessions[sid].lastActivity == now;
    assert GetLockedSession(cfg, s, sid, later).1.None?;
    AddThenRemoveUnit(db.items, sid, barcode, price);
  }

  /** The endpoints' reported total is the sum of price times quantity. */
  lemma ReportedTotalIsPriceTimesQuantity(db: Db, sid: nat)
    requires Consistent(db)
    ensures ParseCents(CartResponse(db, sid).body.total) == Some(PriceTotal(db.items, Prices(db), sid))
  {
    TotalIsPriceTimesQuantity(db.items, Prices(db), sid);
  }

  // ---------------------------------------------------------------------------
  // Payments

  /** Recording a payment by user `u`, with the user table possibly extended. */
  lemma PayStep(db: Db, sid: nat, users: seq<User>, u: nat, total: nat)
    requires Consistent(db) && sid in db.sessions
    requires |db.users| <= |users| && users[..|db.users|] == db.users && UniquePhones(users) && u < |users|
    ensures Consistent(db.(users := users, sessions := db.sessions[sid := db.sessions[sid].(user := Some(u))],
                           payments := db.payments + [Payment(sid, u, total, Pending)]))
  {
    var r := db.(users := users, sessions := db.sessions[sid := db.sessions[sid].(user := Some(u))],
                 payments := db.payments + [Payment(sid, u, total, Pending)]);
    assert forall k :: k in r.sessions ==>
      (r.sessions[k].isActive == db.sessions[k].isActive && r.sessions[k].trolley == db.sessions[k].trolley);
    assert forall i :: 0 <= i < |db.payments| ==> r.payments[i] == db.payments[i];
  }

  /** Appending a guest whose phone is not taken keeps phones unique. */
  lemma AddGuestKeepsPhonesUnique(users: seq<User>)
    requires UniquePhones(users) && PhoneIndex(users, GuestPhone).None?
    ensures UniquePhones(users + [User(GuestName, GuestPhone)])
  {
    var us := users + [User(GuestName, GuestPhone)];
    forall i, j | 0 <= i < j < |us| ensures us[i].phone != us[j].phone {
      assert us[i] == users[i];
      if j < |users| {
        assert us[j] == users[j];
      }
    }
  }

  /** Creating a payment keeps the tables consistent, in both builds. */
  lemma PaymentCreateKeepsConsistent(cfg: Config, db: Db, sid: nat, now: int)
    requires Consistent(db)
    ensures Consistent(PaymentCreate(cfg, db, sid, now).0)
  {
    LockedKeepsConsistent(cfg, db, sid, now);
    var g := GetLockedSession(cfg, db, sid, now);
    if g.1.None? && Payer(cfg, db.users, db.sessions[sid]).Some? {
      var s := db.sessions[sid];
      var (users, u) := Payer(cfg, db.users, s).value;
      if s.user.None? && PhoneIndex(db.users, GuestPhone).None? {
        AddGuestKeepsPhonesUnique(db.users);
        assert users[..|db.users|] == db.users;
      }
      PayStep(db, sid, users, u, SumSubtotals(db.items, sid));
    }
  }

  /** Confirming a payment keeps the tables consistent. */
  lemma PaymentConfirmKeepsConsistent(cfg: Config, db: Db, sid: nat, now: int)
    requires Consistent(db)
    ensures Consistent(PaymentConfirm(cfg, db, sid, now).0)
  {
    var r := PaymentConfirm(cfg, db, sid, now);
    if r.1.status == 200 {
      var p := LatestPayment(db.payments, sid).value;
      var db2 := db.(payments := db.payments[p := db.payments[p].(status := Success)]);
      PaymentStatusKeepsConsistent(db, p, Success);
      ExpireKeepsConsistent(db2, sid, now);
    } else if GetLockedSession(cfg, db, sid, now).1.Some? {
      LockedKeepsConsistent(cfg, db, sid, now);
    }
  }

  /** Changing one payment's status keeps the tables consistent. */
  lemma PaymentStatusKeepsConsistent(db: Db, p: nat, status: PaymentStatus)
    requires Consistent(db) && p < |db.payments|
    ensures Consistent(db.(payments := db.payments[p := db.payments[p].(status := status)]))
  {
  }

  /** A confirmed payment is the session's newest, now SUCCESS, and the cart is gone. */
  lemma ConfirmSettlesNewestPayment(cfg: Config, db: Db, sid: nat, now: int)
    requires PaymentConfirm(cfg, db, sid, now).1.status == 200
    ensures var r := PaymentConfirm(cfg, db, sid, now).0;
      var p := LatestPayment(db.payments, sid).value;
      && |r.payments| == |db.payments| && r.payments[p].status == Success
      && (forall j :: 0 <= j < |db.payments| && j != p ==> r.payments[j] == db.payments[j])
      && (forall i :: 0 <= i < |r.items| ==> r.items[i].session != sid)
  {
    var r := PaymentConfirm(cfg, db, sid, now).0;
    forall i | 0 <= i < |r.items| ensures r.items[i].session != sid {
      assert r.items[i] in DropSession(db.items, sid);
    }
  }

  // ---------------------------------------------------------------------------
  // Defects of the code as written, and the corrected behaviour

  /** As written, a timed-out session can never be released: the expiry done
      inside the helper's atomic block is rolled back with the exception, so
      every later heartbeat and end is refused with the tables unchanged. */
  lemma ExpiredSessionIsStuck(db: Db, timeoutMs: nat, sid: nat, now: int)
    requires sid in db.sessions && db.sessions[sid].isActive && TimedOut(db.sessions[sid], now, timeoutMs)
    ensures var cfg := Config(timeoutMs, AsWritten);
      && SessionEnd(cfg, db, sid, now) == (db, Response(400, ErrorList([ExpiredMessage])))
      && SessionHeartbeat(cfg, db, sid, now) == (db, Response(400, ErrorList([ExpiredMessage])))
  {
  }

  /** A concrete instance: trolley "T1" with a session idle since time 0 and a
      timeout of 1000. At any time after 1000 ending it fails and leaves it
      active, and a new start on the trolley is refused. */
  const StuckDb: Db := Db(map["T1" := Trolley(true, true, Some(0))],
                          map[0 := Session("T1", None, true, 0)], [], map[], [], [], 1)

  lemma StuckTrolleyExample(now: int)
    requires now > 1000
    ensures var cfg := Config(1000, AsWritten);
      && SessionEnd(cfg, StuckDb, 0, now).0 == StuckDb
      && StuckDb.sessions[0].isActive
      && SessionStart(cfg, StuckDb, "T1", None, now) == (StuckDb, Response(400, Detail(InUseMessage)))
  {
  }

  /** Corrected, the failed call keeps the expiry, and the trolley can be started again. */
  lemma ExpiredSessionReleased(db: Db, timeoutMs: nat, sid: nat, now: int)
    requires Consistent(db)
    requires sid in db.sessions && db.sessions[sid].isActive && TimedOut(db.sessions[sid], now, timeoutMs)
    requires db.trolleys[db.sessions[sid].trolley].isActive
    ensures var cfg := Config(timeoutMs, Corrected);
      var t := db.sessions[sid].trolley;
      var e := SessionEnd(cfg, db, sid, now);
      && e.1 == Response(400, ErrorList([ExpiredMessage]))
      && !e.0.sessions[sid].isActive && !e.0.trolleys[t].isAssigned
      && SessionStart(cfg, e.0, t, None, now).1 == Response(201, Started(db.nextSession))
  {
    var cfg := Config(timeoutMs, Corrected);
    var t := db.sessions[sid].trolley;
    var e := SessionEnd(cfg, db, sid, now).0;
    assert e == ExpireSession(db, sid, now);
    forall j | j < e.nextSession && j in e.sessions
      ensures !e.sessions[j].isActive || e.sessions[j].trolley != t
    {
      if j != sid && e.sessions[j].isActive {
        assert db.sessions[j].isActive;
      }
    }
    NoActiveMeansNone(e, t, e.nextSession);
  }

  /** As written, a second session without a user cannot pay: the guest row it
      inserts repeats the unique phone number of the first guest. */
  lemma SecondGuestPaymentFails(db: Db, timeoutMs: nat, sid: nat, now: int)
    requires GetLockedSession(Config(timeoutMs, AsWritten), db, sid, now).1.None?
    requires db.sessions[sid].user.None? && PhoneIndex(db.users, GuestPhone).Some?
    ensures PaymentCreate(Config(timeoutMs, AsWritten), db, sid, now) == (db, Response(500, ServerError))
  {
  }

  /** Corrected, any usable session can pay, and the phone numbers stay unique. */
  lemma GuestPaymentSucceeds(db: Db, timeoutMs: nat, sid: nat, now: int)
    requires Consistent(db)
    requires GetLockedSession(Config(timeoutMs, Corrected), db, sid, now).1.None?
    ensures PaymentCreate(Config(timeoutMs, Corrected), db, sid, now).1.status == 201
    ensures UniquePhones(PaymentCreate(Config(timeoutMs, Corrected), db, sid, now).0.users)
  {
    PaymentCreateKeepsConsistent(Config(timeoutMs, Corrected), db, sid, now);
  }

  /** As written, ending an old session again frees its trolley even while a
      newer session holds it: here session 0 ended earlier and session 1 is
      live on the same trolley. */
  const ReusedDb: Db := Db(map["T1" := Trolley(true, true, Some(0))],
                           map[0 := Session("T1", None, false, 0), 1 := Session("T1", None, true, 0)],
                           [], map[], [], [], 2)

  lemma EndingOldSessionFreesBusyTrolley()
    ensures Consistent(ReusedDb)
    ensures var r := SessionEnd(Config(1000, AsWritten), ReusedDb, 0, 10);
      r.1 == Response(200, Status("ended")) && !AssignedWhileActive(r.0)
  {
    ReusedDbConsistent();
    var r := SessionEnd(Config(1000, AsWritten), ReusedDb, 0, 10);
    var freed := ReusedDb.(trolleys := map["T1" := Trolley(false, true, Some(10))]);
    assert r.0 == freed;
    assert freed.sessions[1].isActive && !freed.trolleys["T1"].isAssigned;
  }

  /** The two-session table above satisfies every table invariant. */
  lemma ReusedDbConsistent()
    ensures Consistent(ReusedDb)
  {
    var db := ReusedDb;
    assert forall s :: s in db.sessions <==> s == 0 || s == 1;
    assert db.sessions[0].trolley == "T1" && db.sessions[1].trolley == "T1" && "T1" in db.trolleys;
  }

  /** Corrected, the same request answers "ended" and leaves the trolley assigned. */
  lemma EndingOldSessionKeepsBusyTrolley()
    ensures var r := SessionEnd(Config(1000, Corrected), ReusedDb, 0, 10);
      r.1 == Response(200, Status("ended")) && r.0 == ReusedDb
  {
    assert HeldByActive(ReusedDb, "T1") by {
      assert ReusedDb.sessions[1].isActive && ReusedDb.sessions[1].trolley == "T1";
    }
  }
}
