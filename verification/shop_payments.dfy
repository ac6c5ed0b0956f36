/** The payment endpoints of the second backend (App/server/payments/views.py).
    A session has at most one payment row; creating it again refreshes its total
    until it has succeeded, and confirming it closes the session. */
module ShopPayments {
  import opened Wrappers
  import opened Money
  import opened CartLines
  import opened ShopModels
  import opened ShopSessions

  const EmptyCartError: string := "Cart is empty. Add items before creating payment."
  const AlreadyCompletedError: string := "Payment already completed for this session"
  const NoPaymentError: string := "No payment found for this session. Create payment first."
  const AlreadyConfirmedError: string := "Payment already confirmed"

  /** The payment row `PaymentCreateView.post` leaves for a cart total: pending,
      with the UPI link for that total. */
  function Issued(total: nat, sid: nat): (p: Payment)
    ensures p.status == Pending && p.total == total && p.upi == Some(UpiString(total, sid))
  {
    Payment(total, Pending, Some(UpiString(total, sid)))
  }

  /** `PaymentCreateView.post`: a usable session with a non-empty cart gets a
      pending payment for its current cart total, 201 when the row is new and
      200 when an unpaid row is refreshed; a paid row is left alone. */
  function PaymentCreate(db: Db, sid: nat, now: int): (r: (Db, Response))
    ensures ValidateSession(db, sid, now).1.Refused? ==>
      r == (ValidateSession(db, sid, now).0, ValidateSession(db, sid, now).1.response)
    ensures ValidateSession(db, sid, now).1.Usable? && CountLines(db.items, sid) == 0 ==>
      r == (db, Response(400, Failure(EmptyCartError, None)))
    ensures ValidateSession(db, sid, now).1.Usable? && CountLines(db.items, sid) > 0 &&
            sid in db.payments && db.payments[sid].status == Success ==>
      r == (db, Response(400, Failure(AlreadyCompletedError, None)))
    ensures r.1.status == 201 <==>
      ValidateSession(db, sid, now).1.Usable? && CountLines(db.items, sid) > 0 && sid !in db.payments
    ensures r.1.status == 200 <==>
      ValidateSession(db, sid, now).1.Usable? && CountLines(db.items, sid) > 0 &&
      sid in db.payments && db.payments[sid].status != Success
    ensures r.1.status == 200 || r.1.status == 201 ==>
      var total := SumSubtotals(db.items, sid);
      && r.0 == db.(payments := db.payments[sid := Issued(total, sid)])
      && r.1.body == PaymentIssued(sid, FormatCents(total), UpiString(total, sid), Pending)
  {
    var (db1, c) := ValidateSession(db, sid, now);
    match c
    case Refused(resp) => (db1, resp)
    case Usable(_) =>
      if CountLines(db.items, sid) == 0 then (db, Response(400, Failure(EmptyCartError, None)))
      else
        var total := SumSubtotals(db.items, sid);
        var issued := (db.(payments := db.payments[sid := Issued(total, sid)]),
                       PaymentIssued(sid, FormatCents(total), UpiString(total, sid), Pending));
        if sid !in db.payments then (issued.0, Response(201, issued.1))
        else if db.payments[sid].status == Success then (db, Response(400, Failure(AlreadyCompletedError, None)))
        else (issued.0, Response(200, issued.1))
  }

  /** `PaymentConfirmView.post`: an unpaid payment of a usable session is marked
      paid for the total it was created with; the session ends, its lines are
      deleted and its trolley is locked for the next customer. */
  function PaymentConfirm(db: Db, sid: nat, now: int): (r: (Db, Response))
    ensures ValidateSession(db, sid, now).1.Refused? ==>
      r == (ValidateSession(db, sid, now).0, ValidateSession(db, sid, now).1.response)
    ensures ValidateSession(db, sid, now).1.Usable? && sid !in db.payments ==>
      r == (db, Response(404, Failure(NoPaymentError, None)))
    ensures ValidateSession(db, sid, now).1.Usable? && sid in db.payments && db.payments[sid].status == Success ==>
      r == (db, Response(400, Failure(AlreadyConfirmedError, None)))
    ensures r.1.status == 200 <==>
      ValidateSession(db, sid, now).1.Usable? && sid in db.payments && db.payments[sid].status != Success
    ensures r.1.status == 200 ==>
      var t := db.sessions[sid].trolley;
      && r.1.body == PaymentDone(sid, FormatCents(db.payments[sid].total))
      && r.0.payments == db.payments[sid := MarkSuccess(db.payments[sid])]
      && r.0.sessions == db.sessions[sid := EndSession(db.sessions[sid], now)]
      && (forall x :: x in r.0.items <==> x in db.items && x.session != sid)
      && (t in db.trolleys ==> r.0.trolleys == db.trolleys[t := db.trolleys[t].(isLocked := true, lastSeen := now)])
      && r.0.products == db.products && r.0.nextSession == db.nextSession
  {
    var (db1, c) := ValidateSession(db, sid, now);
    match c
    case Refused(resp) => (db1, resp)
    case Usable(_) =>
      if sid !in db.payments then (db, Response(404, Failure(NoPaymentError, None)))
      else if db.payments[sid].status == Success then (db, Response(400, Failure(AlreadyConfirmedError, None)))
      else
        var p := db.payments[sid];
        var t := db.sessions[sid].trolley;
        var db2 := Retire(db.(payments := db.payments[sid := MarkSuccess(p)]), sid, now);
        var trolleys := if t in db2.trolleys then db2.trolleys[t := db2.trolleys[t].(isLocked := true, lastSeen := now)] else db2.trolleys;
        (db2.(trolleys := trolleys), Response(200, PaymentDone(sid, FormatCents(p.total))))
  }

  /** `PaymentStatusView.get`: reads without validating, so ended sessions
      answer too; a session without a payment reports no status and no amount. */
  function PaymentStatusOf(db: Db, q: QueryId): (r: Response)
    ensures q.Missing? ==> r == Response(400, Failure(MissingIdError, None))
    ensures q.Malformed? ==> r == Response(500, ServerError)
    ensures q.Given? && q.sid !in db.sessions ==> r == Response(404, Failure(NotFoundError, None))
    ensures r.status == 200 <==> q.Given? && q.sid in db.sessions
    ensures r.status == 200 ==>
      && r.body.PaymentState? && r.body.sessionId == q.sid
      && r.body.sessionActive == db.sessions[q.sid].isActive
      && (r.body.state.Some? <==> q.sid in db.payments)
      && (q.sid in db.payments ==>
            r.body.state == Some(db.payments[q.sid].status) &&
            r.body.amount.Some? && ParseCents(r.body.amount.value) == Some(db.payments[q.sid].total))
      && (q.sid !in db.payments ==> r.body.amount.None?)
  {
    match q
    case Missing => Response(400, Failure(MissingIdError, None))
    case Malformed => Response(500, ServerError)
    case Given(sid) =>
      if sid !in db.sessions then Response(404, Failure(NotFoundError, None))
      else if sid in db.payments then
        var p := db.payments[sid];
        FormatCentsRoundTrip(p.total);
        Response(200, PaymentState(sid, Some(p.status), Some(FormatCents(p.total)), db.sessions[sid].isActive))
      else Response(200, PaymentState(sid, None, None, db.sessions[sid].isActive))
  }
}
