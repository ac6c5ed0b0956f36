/** What the second backend's endpoints keep true and how they fit together:
    every endpoint keeps the tables consistent, a heartbeat keeps a session
    usable for the timeout, a scan and a remove of the same product cancel out,
    a confirmation charges the total recorded when the payment was created and
    leaves the trolley ready for the next customer, and the "already paid"
    refusals can never be reached. */
module ShopProperties {
  import opened Wrappers
  import opened Money
  import opened CartLines
  import opened ShopModels
  import opened ShopSessions
  import opened ShopCart
  import opened ShopPayments

  // ---------------------------------------------------------------------------
  // Sessions

  /** The session check keeps the tables consistent, expiring or not. */
  lemma ValidateKeepsConsistent(db: Db, sid: nat, now: int)
    requires Consistent(db)
    ensures Consistent(ValidateSession(db, sid, now).0)
  {
    if sid in db.sessions && db.sessions[sid].isActive && IsExpired(db.sessions[sid], now) {
      RetireKeepsConsistent(db, sid, now);
    }
  }

  /** The start view's sweep of stale sessions keeps the tables consistent. */
  lemma {:induction false} SweepKeepsConsistent(db: Db, t: string, n: nat, now: int)
    requires Consistent(db)
    ensures Consistent(Sweep(db, t, n, now).0)
    decreases n, 1
  {
    if n > 0 {
      var id := n - 1;
      if id in db.sessions && db.sessions[id].isActive && db.sessions[id].trolley == t {
        if IsExpired(db.sessions[id], now) {
          SweepRetiredKeepsConsistent(db, t, id, now);
        } else {
          assert Sweep(db, t, n, now).0 == db;
        }
      } else {
        SweepKeepsConsistent(db, t, id, now);
        assert Sweep(db, t, n, now).0 == Sweep(db, t, id, now).0;
      }
    }
  }

  /** The sweep's step that ends the expired session `id` and sweeps on below it. */
  lemma {:induction false} SweepRetiredKeepsConsistent(db: Db, t: string, id: nat, now: int)
    requires Consistent(db)
    requires id in db.sessions && db.sessions[id].isActive && db.sessions[id].trolley == t
    requires IsExpired(db.sessions[id], now)
    ensures Consistent(Sweep(db, t, id + 1, now).0)
    decreases id + 1, 0
  {
    var next := Retire(db, id, now);
    RetireKeepsConsistent(db, id, now);
    SweepKeepsConsistent(next, t, id, now);
    assert Sweep(db, t, id + 1, now).0 == Sweep(next, t, id, now).0;
  }

  /** With no active session of `t` below `n`, the sweep changes nothing and finds nothing. */
  lemma {:induction false} SweepFindsNothing(db: Db, t: string, n: nat, now: int)
    requires References(db)
    requires forall j :: j < n && j in db.sessions ==> !db.sessions[j].isActive || db.sessions[j].trolley != t
    ensures Sweep(db, t, n, now) == (db, None)
    decreases n
  {
    if n > 0 {
      SweepFindsNothing(db, t, n - 1, now);
    }
  }

  /** The last step of a start: a fresh session on a trolley no active session
      holds keeps the tables consistent. */
  lemma StartStep(db: Db, t: string, now: int)
    requires Consistent(db) && t in db.trolleys
    requires forall j :: j in db.sessions ==> !db.sessions[j].isActive || db.sessions[j].trolley != t
    ensures Consistent(db.(sessions := db.sessions[db.nextSession := NewSession(t, now)],
                           trolleys := db.trolleys[t := db.trolleys[t].(isLocked := false, lastSeen := now)],
                           nextSession := db.nextSession + 1))
  {
    var sid := db.nextSession;
    var r := db.(sessions := db.sessions[sid := NewSession(t, now)],
                 trolleys := db.trolleys[t := db.trolleys[t].(isLocked := false, lastSeen := now)],
                 nextSession := sid + 1);
    assert sid !in db.sessions;
    forall a, b | a in r.sessions && b in r.sessions && r.sessions[a].isActive && r.sessions[b].isActive &&
                  r.sessions[a].trolley == r.sessions[b].trolley
      ensures a == b
    {
      if a != sid && b != sid {
        assert db.sessions[a].isActive && db.sessions[b].isActive;
      }
    }
    forall i | 0 <= i < |r.items|
      ensures r.items[i].session in r.sessions && r.sessions[r.items[i].session].isActive
    {
      assert r.items[i].session in db.sessions;
    }
  }

  /** A session start keeps the tables consistent: the new session is the only
      active one on its trolley. */
  lemma StartKeepsConsistent(db: Db, t: string, now: int)
    requires Consistent(db)
    ensures Consistent(SessionStart(db, t, now).0)
  {
    if t in db.trolleys && db.trolleys[t].isActive {
      SweepKeepsConsistent(db, t, db.nextSession, now);
      SweepOutcome(db, t, db.nextSession, now);
      var (db1, live) := Sweep(db, t, db.nextSession, now);
      if live.None? {
        assert forall j :: j in db1.sessions ==> j < db1.nextSession;
        StartStep(db1, t, now);
      }
    }
  }

  /** A heartbeat keeps the tables consistent. */
  lemma HeartbeatKeepsConsistent(db: Db, sid: nat, now: int)
    requires Consistent(db)
    ensures Consistent(SessionHeartbeat(db, sid, now).0)
  {
    var r := SessionHeartbeat(db, sid, now);
    if r.1.status == 200 {
      var s := db.sessions[sid];
      var beat := UpdateHeartbeat(s, now);
      var mid := db.(sessions := db.sessions[sid := beat]);
      SessionRowKeepsConsistent(db, sid, beat);
      TrolleyRowKeepsConsistent(mid, s.trolley, mid.trolleys[s.trolley].(lastSeen := now));
      assert r.0 == mid.(trolleys := mid.trolleys[s.trolley := mid.trolleys[s.trolley].(lastSeen := now)]);
    } else {
      ValidateKeepsConsistent(db, sid, now);
    }
  }

  /** A session end keeps the tables consistent. */
  lemma EndKeepsConsistent(db: Db, sid: nat, now: int)
    requires Consistent(db)
    ensures Consistent(SessionEnd(db, sid, now).0)
  {
    if sid in db.sessions && db.sessions[sid].isActive {
      RetireKeepsConsistent(db, sid, now);
    }
  }

  /** A heartbeat keeps its session usable for the whole timeout, and not a
      millisecond longer. */
  lemma HeartbeatKeepsAlive(db: Db, sid: nat, now: int, later: int)
    requires SessionHeartbeat(db, sid, now).1.status == 200
    ensures var b := SessionHeartbeat(db, sid, now).0;
      && (now <= later <= now + HeartbeatTimeout ==> ValidateSession(b, sid, later).1 == Usable(sid))
      && (later > now + HeartbeatTimeout ==>
            ValidateSession(b, sid, later).1 == Refused(Response(400, Failure(ExpiredError, Some(sid)))))
  {
  }

  /** A second start on a trolley whose session is still live is refused with
      that session's id. */
  lemma StartTwiceConflicts(db: Db, t: string, now: int, later: int)
    requires References(db)
    requires SessionStart(db, t, now).1.status == 201
    requires now <= later <= now + HeartbeatTimeout
    ensures SessionStart(SessionStart(db, t, now).0, t, later).1.status == 409
    ensures SessionStart(SessionStart(db, t, now).0, t, later).1.body.existing == db.nextSession
  {
    var s := SessionStart(db, t, now).0;
    var n := db.nextSession;
    SweepOutcome(s, t, s.nextSession, later);
    SweepChanges(s, t, s.nextSession, later);
    var r := Sweep(s, t, s.nextSession, later);
    assert !IsExpired(s.sessions[n], later);
    assert n in r.0.sessions && r.0.sessions[n] == s.sessions[n];
    assert r.1.Some?;
    assert r.1.value == n;
  }

  /** A session ended right after it started has an empty cart and a locked trolley. */
  lemma StartThenEndClearsNothing(db: Db, t: string, now: int)
    requires Consistent(db)
    requires SessionStart(db, t, now).1.status == 201
    ensures var s := SessionStart(db, t, now).0;
      var e := SessionEnd(s, db.nextSession, now);
      && e.1 == Response(200, Ended(db.nextSession, t, 0))
      && !e.0.sessions[db.nextSession].isActive
      && t in e.0.trolleys && e.0.trolleys[t].isLocked
  {
    var s := SessionStart(db, t, now).0;
    var sid := db.nextSession;
    var (db1, live) := Sweep(db, t, sid, now);
    assert s.items == db1.items;
    forall x | x in s.items ensures x.session != sid {
      assert x in db.items;
      var j :| 0 <= j < |db.items| && db.items[j] == x;
    }
    CountWithoutLines(s.items, sid);
  }

  /** The count an end reports is the number of lines it deletes, and none of
      the session's lines is left. */
  lemma EndReportsClearedLines(db: Db, sid: nat, now: int)
    requires SessionEnd(db, sid, now).1.status == 200
    ensures var r := SessionEnd(db, sid, now);
      && r.1.body.itemsCleared + |r.0.items| == |db.items|
      && (forall x :: x in r.0.items ==> x.session != sid)
      && SumSubtotals(r.0.items, sid) == 0
  {
    DropRemovesCount(db.items, sid);
    SumAfterDrop(db.items, sid, sid);
  }

  // ---------------------------------------------------------------------------
  // Cart

  /** A scan keeps the tables consistent. */
  lemma ScanKeepsConsistent(db: Db, sid: nat, barcode: string, now: int)
    requires Consistent(db)
    ensures Consistent(CartScan(db, sid, barcode, now).0)
  {
    ValidateKeepsConsistent(db, sid, now);
    var r := CartScan(db, sid, barcode, now);
    if r.1.status == 200 || r.1.status == 201 {
      AddUnitKeepsLines(db.items, sid, barcode, Prices(db));
      LinesOfLiveSession(db, r.0.items, sid, barcode);
    }
  }

  /** A remove keeps the tables consistent. */
  lemma RemoveKeepsConsistent(db: Db, sid: nat, barcode: string, now: int)
    requires Consistent(db)
    ensures Consistent(CartRemove(db, sid, barcode, now).0)
  {
    ValidateKeepsConsistent(db, sid, now);
    var r := CartRemove(db, sid, barcode, now);
    if ValidateSession(db, sid, now).1.Usable? && r.1.status == 200 {
      var i := FindItem(db.items, sid, barcode).value;
      RemoveUnitKeepsLines(db.items, i, Prices(db));
      LinesOfLiveSession(db, r.0.items, sid, barcode);
    }
  }

  /** A new line table whose lines are old lines or lines of one active session
      keeps the tables consistent. */
  lemma LinesOfLiveSession(db: Db, items: seq<CartItem>, sid: nat, barcode: string)
    requires Consistent(db) && sid in db.sessions && db.sessions[sid].isActive && barcode in db.products
    requires OneItemPerProduct(items) && Priced(items, Prices(db))
    requires forall j :: 0 <= j < |items| ==> items[j] in db.items || (items[j].session == sid && items[j].barcode == barcode)
    ensures Consistent(db.(items := items))
  {
    forall j | 0 <= j < |items|
      ensures items[j].session in db.sessions && db.sessions[items[j].session].isActive && items[j].barcode in db.products
    {
      if items[j] in db.items {
        var k :| 0 <= k < |db.items| && db.items[k] == items[j];
      }
    }
  }

  /** Reading a cart keeps the tables consistent. */
  lemma ViewKeepsConsistent(db: Db, q: QueryId, now: int)
    requires Consistent(db)
    ensures Consistent(CartView(db, q, now).0)
  {
    if q.Given? {
      ValidateKeepsConsistent(db, q.sid, now);
    }
  }

  /** A scan adds the product's price to the session's total. */
  lemma ScanAddsPrice(db: Db, sid: nat, barcode: string, now: int)
    requires Consistent(db)
    requires CartScan(db, sid, barcode, now).1.status in {200, 201}
    ensures barcode in db.products
    ensures SumSubtotals(CartScan(db, sid, barcode, now).0.items, sid) == SumSubtotals(db.items, sid) + db.products[barcode].price
  {
    AddUnitSum(db.items, sid, barcode, db.products[barcode].price);
  }

  /** A remove takes the product's price off the session's total. */
  lemma RemoveTakesPrice(db: Db, sid: nat, barcode: string, now: int)
    requires Consistent(db)
    requires CartRemove(db, sid, barcode, now).1.status == 200
    ensures barcode in db.products
    ensures SumSubtotals(CartRemove(db, sid, barcode, now).0.items, sid) + db.products[barcode].price == SumSubtotals(db.items, sid)
  {
    assert ValidateSession(db, sid, now).1.Usable?;
    var i := FindItem(db.items, sid, barcode).value;
    RemoveUnitSum(db.items, i, db.products[barcode].price);
  }

  /** Scanning a product and then removing it, while the session is still
      fresh, restores the tables exactly (a scan does not renew the session). */
  lemma ScanThenRemoveRestores(db: Db, sid: nat, barcode: string, now: int, later: int)
    requires Consistent(db)
    requires CartScan(db, sid, barcode, now).1.status in {200, 201}
    requires sid in db.sessions && !IsExpired(db.sessions[sid], later)
    ensures CartRemove(CartScan(db, sid, barcode, now).0, sid, barcode, later).1.status == 200
    ensures CartRemove(CartScan(db, sid, barcode, now).0, sid, barcode, later).0 == db
  {
    var price := db.products[barcode].price;
    AddThenRemoveUnit(db.items, sid, barcode, price);
  }

  /** A product scanned into the cart for the first time heads the next cart
      view, which lists lines newest first. */
  lemma NewScanListedFirst(db: Db, sid: nat, barcode: string, now: int, later: int)
    requires CartScan(db, sid, barcode, now).1.status == 201
    requires ValidateSession(CartScan(db, sid, barcode, now).0, sid, later).1.Usable?
    ensures var v := CartView(CartScan(db, sid, barcode, now).0, Given(sid), later).1;
      |v.body.items| > 0 && v.body.items[0] == CartItem(sid, barcode, 1, db.products[barcode].price)
  {
    var x := CartItem(sid, barcode, 1, db.products[barcode].price);
    ItemsOfAppend(db.items, x, sid);
  }

  /** The cart's reported total is the sum of catalogue price times quantity. */
  lemma ReportedTotalIsPriceTimesQuantity(db: Db, q: QueryId, now: int)
    requires Consistent(db)
    requires CartView(db, q, now).1.status == 200
    ensures ParseCents(CartView(db, q, now).1.body.totalAmount) == Some(PriceTotal(db.items, Prices(db), q.sid))
  {
    TotalIsPriceTimesQuantity(db.items, Prices(db), q.sid);
  }

  // ---------------------------------------------------------------------------
  // Payments

  /** Writing a session's payment row keeps the tables consistent, provided a
      paid row belongs to an ended session. */
  lemma PaymentRowKeepsConsistent(db: Db, sid: nat, p: Payment)
    requires Consistent(db) && sid in db.sessions
    requires p.status == Success ==> !db.sessions[sid].isActive
    ensures Consistent(db.(payments := db.payments[sid := p]))
  {
  }

  /** Rewriting a session's row without touching whether it is active, its
      trolley or its end time keeps the tables consistent. */
  lemma SessionRowKeepsConsistent(db: Db, sid: nat, row: Session)
    requires Consistent(db) && sid in db.sessions
    requires row.isActive == db.sessions[sid].isActive && row.trolley == db.sessions[sid].trolley
    requires row.endedAt == db.sessions[sid].endedAt
    ensures Consistent(db.(sessions := db.sessions[sid := row]))
  {
  }

  /** Rewriting one trolley's row keeps the tables consistent. */
  lemma TrolleyRowKeepsConsistent(db: Db, t: string, row: Trolley)
    requires Consistent(db) && t in db.trolleys
    ensures Consistent(db.(trolleys := db.trolleys[t := row]))
  {
  }

  /** Creating a payment keeps the tables consistent. */
  lemma PaymentCreateKeepsConsistent(db: Db, sid: nat, now: int)
    requires Consistent(db)
    ensures Consistent(PaymentCreate(db, sid, now).0)
  {
    var r := PaymentCreate(db, sid, now);
    if r.1.status == 200 || r.1.status == 201 {
      PaymentRowKeepsConsistent(db, sid, Issued(SumSubtotals(db.items, sid), sid));
    } else {
      ValidateKeepsConsistent(db, sid, now);
    }
  }

  /** Confirming a payment keeps the tables consistent. */
  lemma PaymentConfirmKeepsConsistent(db: Db, sid: nat, now: int)
    requires Consistent(db)
    ensures Consistent(PaymentConfirm(db, sid, now).0)
  {
    var r := PaymentConfirm(db, sid, now);
    if r.1.status == 200 {
      var p := db.payments[sid];
      var t := db.sessions[sid].trolley;
      var ended := Retire(db, sid, now);
      RetireKeepsConsistent(db, sid, now);
      var paid := ended.(payments := ended.payments[sid := MarkSuccess(p)]);
      PaymentRowKeepsConsistent(ended, sid, MarkSuccess(p));
      assert paid == Retire(db.(payments := db.payments[sid := MarkSuccess(p)]), sid, now);
      TrolleyRowKeepsConsistent(paid, t, paid.trolleys[t].(isLocked := true, lastSeen := now));
    } else {
      ValidateKeepsConsistent(db, sid, now);
    }
  }

  /** Checking the status writes nothing; it has no tables to return. The
      refusal of a paid session's confirmation cannot be reached: a paid session
      is over, so the session check refuses first. */
  lemma AlreadyConfirmedUnreachable(db: Db, sid: nat, now: int)
    requires Consistent(db)
    ensures PaymentConfirm(db, sid, now).1.body != Failure(AlreadyConfirmedError, None)
    ensures PaymentConfirm(db, sid, now).1.status == 200 <==> ValidateSession(db, sid, now).1.Usable? && sid in db.payments
  {
  }

  /** Likewise, creating a payment for a paid session is refused by the session
      check before the "already completed" refusal. */
  lemma AlreadyCompletedUnreachable(db: Db, sid: nat, now: int)
    requires Consistent(db)
    ensures PaymentCreate(db, sid, now).1.body != Failure(AlreadyCompletedError, None)
  {
  }

  /** After a payment is marked failed, creating it again issues a fresh pending
      payment for the current cart total. */
  lemma FailedPaymentIsReissued(db: Db, sid: nat, now: int)
    requires ValidateSession(db, sid, now).1.Usable? && CountLines(db.items, sid) > 0
    requires sid in db.payments
    ensures var f := db.(payments := db.payments[sid := MarkFailed(db.payments[sid])]);
      var r := PaymentCreate(f, sid, now);
      && r.1.status == 200 && r.1.body.status == Pending
      && r.0.payments[sid].total == SumSubtotals(db.items, sid)
      && UpiAmount(r.1.body.upi) == Some(SumSubtotals(db.items, sid))
  {
    UpiAmountRoundTrip(SumSubtotals(db.items, sid), sid);
  }

  /** A confirmation charges the total recorded when the payment was created:
      a product scanned in between lengthens the cart but not the bill, and its
      line is deleted with the rest. */
  lemma ConfirmChargesCreatedTotal(db: Db, sid: nat, barcode: string, now: int)
    requires Consistent(db)
    requires PaymentCreate(db, sid, now).1.status in {200, 201}
    requires CartScan(PaymentCreate(db, sid, now).0, sid, barcode, now).1.status in {200, 201}
    ensures var s := CartScan(PaymentCreate(db, sid, now).0, sid, barcode, now).0;
      && barcode in db.products
      && SumSubtotals(s.items, sid) == SumSubtotals(db.items, sid) + db.products[barcode].price
      && PaymentConfirm(s, sid, now).1 == Response(200, PaymentDone(sid, FormatCents(SumSubtotals(db.items, sid))))
  {
    var c := PaymentCreate(db, sid, now).0;
    PaymentCreateKeepsConsistent(db, sid, now);
    assert c.items == db.items && c.products == db.products;
    ScanAddsPrice(c, sid, barcode, now);
  }

  /** After a confirmation the session answers as paid and over, it refuses
      further use, and its trolley can start the next customer's session. */
  lemma ConfirmReadiesTrolley(db: Db, sid: nat, now: int, later: int)
    requires Consistent(db)
    requires PaymentConfirm(db, sid, now).1.status == 200
    ensures var r := PaymentConfirm(db, sid, now).0;
      var t := db.sessions[sid].trolley;
      && PaymentStatusOf(r, Given(sid)).status == 200
      && PaymentStatusOf(r, Given(sid)).body.state == Some(Success)
      && !PaymentStatusOf(r, Given(sid)).body.sessionActive
      && ValidateSession(r, sid, later).1 == Refused(Response(400, Failure(InactiveError, Some(sid))))
      && t in r.trolleys && r.trolleys[t].isLocked
      && (r.trolleys[t].isActive ==> SessionStart(r, t, later).1.status == 201)
  {
    var r := PaymentConfirm(db, sid, now).0;
    var t := db.sessions[sid].trolley;
    PaymentConfirmKeepsConsistent(db, sid, now);
    forall j | j < r.nextSession && j in r.sessions
      ensures !r.sessions[j].isActive || r.sessions[j].trolley != t
    {
      if j != sid && r.sessions[j].isActive {
        assert db.sessions[j].isActive;
      }
    }
    SweepFindsNothing(r, t, r.nextSession, later);
  }
}
