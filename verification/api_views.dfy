/** The endpoints of the first backend (App/server/api/views.py) as transitions
    on the tables: each takes the tables and the request's fields and returns the
    tables after the request and the response.

    Serializer checks that only reject malformed fields (UUID syntax, lengths)
    are not modelled; the ones that look at the tables are. A helper's exception
    is rendered by `Raise`. */
module ApiViews {
  import opened Wrappers
  import opened Money
  import opened CartLines
  import opened ApiModels
  import opened ApiUtils

  /** A response body: `{'detail': …}`, a raised `ValidationError` (a list of
      messages), a serializer's field error, or an endpoint's success body. */
  datatype Body =
    | Detail(message: string)
    | ErrorList(messages: seq<string>)
    | FieldError(field: string, message: string)
    | Started(sessionId: nat)
    | Status(state: string)
    | CartBody(items: seq<CartItem>, total: string)
    | PaymentBody(sessionId: nat, paymentId: nat, total: string, upi: string, status: PaymentStatus)
    | ServerError

  datatype Response = Response(status: int, body: Body)

  const InUseMessage: string := "Trolley already in use"
  const TrolleyInactiveMessage: string := "Trolley inactive"
  const UserNotFoundMessage: string := "User not found"
  const NoTargetMessage: string := "Either session_id or trolley_id is required"
  const ScanProductMessage: string := "Product not found or inactive"
  const RemoveProductMessage: string := "Product not found"
  const NotInCartMessage: string := "Item not in cart"
  const NoPaymentMessage: string := "No payment found for session"
  const GuestName: string := "Guest User"
  const GuestPhone: string := "0000000000"

  /** How the REST framework renders a helper's exception: `NotFound` as a detail
      with 404, `ValidationError` as a list of messages with 400. */
  function Raise(e: Error): (r: Response)
    ensures r.status == e.status
    ensures e.status == 404 ==> r.body == Detail(e.message)
    ensures e.status != 404 ==> r.body == ErrorList([e.message])
  {
    if e.status == 404 then Response(404, Detail(e.message)) else Response(e.status, ErrorList([e.message]))
  }

  // ---------------------------------------------------------------------------
  // Sessions

  /** `SessionStartView.post`: `user` is the optional `user_id`, a position in the
      user table. An unknown trolley is created; an inactive or assigned one is
      refused; a stale active session on it is expired; then a new active session
      is created and the trolley assigned. */
  function SessionStart(cfg: Config, db: Db, t: string, user: Option<nat>, now: int): (r: (Db, Response))
    ensures r.1.status == 201 <==>
      && (user.Some? ==> user.value < |db.users|)
      && (t in db.trolleys ==> db.trolleys[t].isActive && !db.trolleys[t].isAssigned)
      && (var e := NewestActive(db, t, db.nextSession);
          e.Some? ==> TimedOut(db.sessions[e.value], now, cfg.timeoutMs))
    ensures r.1.status == 201 ==>
      && r.1.body == Started(db.nextSession)
      && db.nextSession in r.0.sessions
      && r.0.sessions[db.nextSession] == Session(t, user, true, now)
      && t in r.0.trolleys && r.0.trolleys[t].isAssigned && r.0.trolleys[t].isActive
      && r.0.nextSession == db.nextSession + 1
    ensures r.1.status != 201 ==> r.1.status == 400 && r.0.sessions == db.sessions && r.0.items == db.items
  {
    if user.Some? && user.value >= |db.users| then (db, Response(400, FieldError("user_id", UserNotFoundMessage)))
    else if t in db.trolleys && !db.trolleys[t].isActive then (db, Response(400, Detail(TrolleyInactiveMessage)))
    else if t in db.trolleys && db.trolleys[t].isAssigned then (db, Response(400, Detail(InUseMessage)))
    else
      var db1 := if t in db.trolleys then db else db.(trolleys := db.trolleys[t := NewTrolley(now)]);
      assert NewestActive(db1, t, db1.nextSession) == NewestActive(db, t, db.nextSession);
      var existing := NewestActive(db1, t, db1.nextSession);
      if existing.Some? && !TimedOut(db1.sessions[existing.value], now, cfg.timeoutMs) then
        (db1, Response(400, Detail(InUseMessage)))
      else
        var db2 := if existing.Some? then ExpireSession(db1, existing.value, now) else db1;
        assert t in db2.trolleys && db2.trolleys[t].isActive;
        var sid := db2.nextSession;
        var db3 := db2.(sessions := db2.sessions[sid := Session(t, user, true, now)],
                        trolleys := db2.trolleys[t := db2.trolleys[t].(isAssigned := true, lastSeen := Some(now))],
                        nextSession := sid + 1);
        (db3, Response(201, Started(sid)))
  }

  /** `SessionHeartbeatView.post`: a usable session gets its activity refreshed. */
  function SessionHeartbeat(cfg: Config, db: Db, sid: nat, now: int): (r: (Db, Response))
    ensures r.1.status == 200 <==> sid in db.sessions && db.sessions[sid].isActive && !TimedOut(db.sessions[sid], now, cfg.timeoutMs)
    ensures r.1.status == 200 ==> r.0 == RefreshActivity(db, sid, now) && r.1.body == Status("ok")
    ensures r.1.status != 200 ==> r == (GetLockedSession(cfg, db, sid, now).0, Raise(GetLockedSession(cfg, db, sid, now).1.value))
  {
    var (db1, e) := GetLockedSession(cfg, db, sid, now);
    if e.Some? then (db1, Raise(e.value)) else (RefreshActivity(db, sid, now), Response(200, Status("ok")))
  }

  /** True when some active session holds trolley `t`. */
  predicate HeldByActive(db: Db, t: string) {
    exists s :: s in db.sessions && db.sessions[s].isActive && db.sessions[s].trolley == t
  }

  /** `SessionEndView.post`: a usable session is expired. An inactive one still
      frees its trolley if that is marked assigned — as written even when a later
      session holds it, corrected only when no active session does. Any other
      error is passed on. */
  function SessionEnd(cfg: Config, db: Db, sid: nat, now: int): (r: (Db, Response))
    ensures r.1.status == 200 <==> sid in db.sessions && (!db.sessions[sid].isActive || !TimedOut(db.sessions[sid], now, cfg.timeoutMs))
    ensures r.1.status == 200 ==> r.1.body == Status("ended")
    ensures r.1.status == 200 && db.sessions[sid].isActive ==> r.0 == ExpireSession(db, sid, now)
    ensures r.1.status == 200 && !db.sessions[sid].isActive ==>
      && r.0.sessions == db.sessions && r.0.items == db.items
      && var t := db.sessions[sid].trolley;
         t in db.trolleys ==>
           && r.0.trolleys.Keys == db.trolleys.Keys
           && (forall u :: u in db.trolleys && u != t ==> r.0.trolleys[u] == db.trolleys[u])
           && (cfg.build == AsWritten ==> !r.0.trolleys[t].isAssigned)
           && (cfg.build == Corrected ==> (r.0.trolleys[t].isAssigned <==> db.trolleys[t].isAssigned && HeldByActive(db, t)))
  {
    var (db1, e) := GetLockedSession(cfg, db, sid, now);
    if e.None? then (ExpireSession(db, sid, now), Response(200, Status("ended")))
    else if e.value == Error(400, InactiveMessage) then
      var t := db.sessions[sid].trolley;
      if t in db.trolleys && db.trolleys[t].isAssigned && (cfg.build == AsWritten || !HeldByActive(db, t)) then
        (db.(trolleys := db.trolleys[t := db.trolleys[t].(isAssigned := false, lastSeen := Some(now))]),
         Response(200, Status("ended")))
      else (db, Response(200, Status("ended")))
    else (db1, Raise(e.value))
  }

  // ---------------------------------------------------------------------------
  // Cart

  /** Which session a scan names: `session_id` (it wins when both are sent),
      `trolley_id`, or neither. */
  datatype Target = BySession(sid: nat) | ByTrolley(trolley: string) | Neither

  /** The session a scan targets, after the timeout check. */
  function Locate(cfg: Config, db: Db, target: Target, now: int): (r: (Db, Result))
    requires !target.Neither?
    ensures r.1.Found? ==>
      && r.0 == db && r.1.sid in db.sessions && db.sessions[r.1.sid].isActive
      && !TimedOut(db.sessions[r.1.sid], now, cfg.timeoutMs)
    ensures target.BySession? ==> (r.1.Found? <==> GetLockedSession(cfg, db, target.sid, now).1.None?)
    ensures target.BySession? && r.1.Found? ==> r.1.sid == target.sid
    ensures target.ByTrolley? ==> r == GetLockedSessionByTrolley(cfg, db, target.trolley, now)
  {
    match target
    case BySession(sid) =>
      var (db1, e) := GetLockedSession(cfg, db, sid, now);
      (db1, if e.Some? then Raised(e.value) else Found(sid))
    case ByTrolley(t) => GetLockedSessionByTrolley(cfg, db, t, now)
  }

  /** The success body of the cart endpoints: the session's lines and its total. */
  function CartResponse(db: Db, sid: nat): (r: Response)
    ensures r.status == 200 && r.body.CartBody?
    ensures ParseCents(r.body.total) == Some(SumSubtotals(db.items, sid))
    ensures forall x :: x in r.body.items <==> x in db.items && x.session == sid
  {
    FormatCentsRoundTrip(CalculateCartTotal(db, sid));
    Response(200, CartBody(ItemsOf(db.items, sid), FormatCents(CalculateCartTotal(db, sid))))
  }

  /** `CartScanView.post`. */
  function CartScan(cfg: Config, db: Db, target: Target, barcode: string, now: int): (r: (Db, Response))
    ensures target.Neither? ==> r == (db, Response(400, Detail(NoTargetMessage)))
    ensures !target.Neither? && Locate(cfg, db, target, now).1.Raised? ==>
      r == (Locate(cfg, db, target, now).0, Raise(Locate(cfg, db, target, now).1.error))
    ensures !target.Neither? && Locate(cfg, db, target, now).1.Found? ==>
      var sid := Locate(cfg, db, target, now).1.sid;
      && (barcode !in db.products || !db.products[barcode].isActive ==> r == (db, Response(404, Detail(ScanProductMessage))))
      && (barcode in db.products && db.products[barcode].isActive ==>
            && r.0 == RefreshActivity(db.(items := AddUnit(db.items, sid, barcode, db.products[barcode].price)), sid, now)
            && r.1 == CartResponse(r.0, sid))
  {
    if target.Neither? then (db, Response(400, Detail(NoTargetMessage)))
    else
      var (db1, found) := Locate(cfg, db, target, now);
      match found
      case Raised(e) => (db1, Raise(e))
      case Found(sid) =>
        if barcode !in db.products || !db.products[barcode].isActive then (db, Response(404, Detail(ScanProductMessage)))
        else
          var db2 := RefreshActivity(db.(items := AddUnit(db.items, sid, barcode, db.products[barcode].price)), sid, now);
          (db2, CartResponse(db2, sid))
  }

  /** `CartRemoveView.post`. */
  function CartRemove(cfg: Config, db: Db, sid: nat, barcode: string, now: int): (r: (Db, Response))
    ensures GetLockedSession(cfg, db, sid, now).1.Some? ==>
      r == (GetLockedSession(cfg, db, sid, now).0, Raise(GetLockedSession(cfg, db, sid, now).1.value))
    ensures GetLockedSession(cfg, db, sid, now).1.None? ==>
      && (barcode !in db.products ==> r == (db, Response(404, Detail(RemoveProductMessage))))
      && (barcode in db.products && FindItem(db.items, sid, barcode).None? ==> r == (db, Response(404, Detail(NotInCartMessage))))
      && (barcode in db.products && FindItem(db.items, sid, barcode).Some? ==>
            && r.0 == RefreshActivity(db.(items := RemoveUnit(db.items, FindItem(db.items, sid, barcode).value, db.products[barcode].price)), sid, now)
            && r.1 == CartResponse(r.0, sid))
  {
    var (db1, e) := GetLockedSession(cfg, db, sid, now);
    if e.Some? then (db1, Raise(e.value))
    else if barcode !in db.products then (db, Response(404, Detail(RemoveProductMessage)))
    else match FindItem(db.items, sid, barcode)
      case None => (db, Response(404, Detail(NotInCartMessage)))
      case Some(i) =>
        var db2 := RefreshActivity(db.(items := RemoveUnit(db.items, i, db.products[barcode].price)), sid, now);
        (db2, CartResponse(db2, sid))
  }

  /** `CartView.get`: the serializer refuses an unknown id with 400 before the
      helper's checks; a usable session's cart is returned without any write. */
  function CartView(cfg: Config, db: Db, sid: nat, now: int): (r: (Db, Response))
    ensures sid !in db.sessions ==> r == (db, Response(400, FieldError("session_id", NotFoundMessage)))
    ensures r.1.status == 200 <==> sid in db.sessions && db.sessions[sid].isActive && !TimedOut(db.sessions[sid], now, cfg.timeoutMs)
    ensures r.1.status == 200 ==> r == (db, CartResponse(db, sid))
  {
    if sid !in db.sessions then (db, Response(400, FieldError("session_id", NotFoundMessage)))
    else
      var (db1, e) := GetLockedSession(cfg, db, sid, now);
      if e.Some? then (db1, Raise(e.value)) else (db, CartResponse(db, sid))
  }

  // ---------------------------------------------------------------------------
  // Payments

  /** The position of the first user with `phone`, if any. */
  function PhoneIndex(users: seq<User>, phone: string): (r: Option<nat>)
    ensures r.Some? ==> r.value < |users| && users[r.value].phone == phone
    ensures r.None? ==> forall i :: 0 <= i < |users| ==> users[i].phone != phone
    decreases |users|
  {
    if |users| == 0 then None
    else if users[0].phone == phone then Some(0)
    else match PhoneIndex(users[1..], phone)
      case Some(i) => Some(i + 1)
      case None => None
  }

  /** The payment link the first backend hands out. */
  function UpiLink(total: nat): (s: string)
    ensures |s| > 0
  {
    "upi://pay?pa=smarttrolley@upi&pn=SmartTrolley&am=" + FormatCents(total) + "&cu=INR&tn=Smart%20Trolley"
  }

  /** The payer of a session's payment: its user, or the guest. As written a new
      guest row is always inserted, which breaks the unique phone number once a
      guest exists (`None`: the insert fails). Corrected, an existing guest is reused. */
  function Payer(cfg: Config, users: seq<User>, s: Session): (r: Option<(seq<User>, nat)>)
    ensures s.user.Some? ==> r == Some((users, s.user.value))
    ensures s.user.None? && PhoneIndex(users, GuestPhone).None? ==> r == Some((users + [User(GuestName, GuestPhone)], |users|))
    ensures s.user.None? && PhoneIndex(users, GuestPhone).Some? ==>
      (cfg.build == AsWritten ==> r.None?) && (cfg.build == Corrected ==> r == Some((users, PhoneIndex(users, GuestPhone).value)))
  {
    if s.user.Some? then Some((users, s.user.value))
    else match PhoneIndex(users, GuestPhone)
      case None => Some((users + [User(GuestName, GuestPhone)], |users|))
      case Some(g) => if cfg.build == AsWritten then None else Some((users, g))
  }

  /** `PaymentCreateView.post`: a pending payment for the cart total, paid by the
      session's user or a guest. Payment ids count from one in creation order. */
  function PaymentCreate(cfg: Config, db: Db, sid: nat, now: int): (r: (Db, Response))
    ensures GetLockedSession(cfg, db, sid, now).1.Some? ==>
      r == (GetLockedSession(cfg, db, sid, now).0, Raise(GetLockedSession(cfg, db, sid, now).1.value))
    ensures GetLockedSession(cfg, db, sid, now).1.None? && Payer(cfg, db.users, db.sessions[sid]).None? ==>
      r == (db, Response(500, ServerError))
    ensures GetLockedSession(cfg, db, sid, now).1.None? && Payer(cfg, db.users, db.sessions[sid]).Some? ==>
      r.1.status == 201
    ensures r.1.status == 201 ==>
      && sid in db.sessions && sid in r.0.sessions && r.0.sessions[sid].user.Some?
      && var total := SumSubtotals(db.items, sid);
      && r.0.payments == db.payments + [Payment(sid, r.0.sessions[sid].user.value, total, Pending)]
      && r.1.body == PaymentBody(sid, |db.payments| + 1, FormatCents(total), UpiLink(total), Pending)
      && r.0.items == db.items && r.0.trolleys == db.trolleys && r.0.nextSession == db.nextSession
      && r.0.sessions == db.sessions[sid := db.sessions[sid].(user := r.0.sessions[sid].user)]
      && (db.sessions[sid].user.Some? ==> r.0.sessions[sid].user == db.sessions[sid].user && r.0.users == db.users)
      && (db.sessions[sid].user.None? ==>
            && r.0.sessions[sid].user.value < |r.0.users|
            && r.0.users[r.0.sessions[sid].user.value].phone == GuestPhone
            && |db.users| <= |r.0.users| && r.0.users[..|db.users|] == db.users)
  {
    var (db1, e) := GetLockedSession(cfg, db, sid, now);
    if e.Some? then (db1, Raise(e.value))
    else
      var s := db.sessions[sid];
      match Payer(cfg, db.users, s)
      case None => (db, Response(500, ServerError))
      case Some((users, u)) =>
        var total := CalculateCartTotal(db, sid);
        var db2 := db.(users := users,
                       sessions := db.sessions[sid := s.(user := Some(u))],
                       payments := db.payments + [Payment(sid, u, total, Pending)]);
        (db2, Response(201, PaymentBody(sid, |db.payments| + 1, FormatCents(total), UpiLink(total), Pending)))
  }

  /** The position of the newest payment of `sid`. */
  function LatestPayment(payments: seq<Payment>, sid: nat): (r: Option<nat>)
    ensures r.Some? ==> r.value < |payments| && payments[r.value].session == sid
    ensures r.Some? ==> forall j :: r.value < j < |payments| ==> payments[j].session != sid
    ensures r.None? ==> forall j :: 0 <= j < |payments| ==> payments[j].session != sid
    decreases |payments|
  {
    if |payments| == 0 then None
    else if payments[|payments| - 1].session == sid then Some(|payments| - 1)
    else LatestPayment(payments[..|payments| - 1], sid)
  }

  /** `PaymentConfirmView.post`: the newest payment becomes SUCCESS and the
      session is expired. */
  function PaymentConfirm(cfg: Config, db: Db, sid: nat, now: int): (r: (Db, Response))
    ensures GetLockedSession(cfg, db, sid, now).1.Some? ==>
      r == (GetLockedSession(cfg, db, sid, now).0, Raise(GetLockedSession(cfg, db, sid, now).1.value))
    ensures GetLockedSession(cfg, db, sid, now).1.None? && LatestPayment(db.payments, sid).None? ==>
      r == (db, Response(404, Detail(NoPaymentMessage)))
    ensures GetLockedSession(cfg, db, sid, now).1.None? && LatestPayment(db.payments, sid).Some? ==>
      r.1.status == 200
    ensures r.1.status == 200 ==>
      && r.1.body == Status("payment_success")
      && LatestPayment(db.payments, sid).Some?
      && var p := LatestPayment(db.payments, sid).value;
      && r.0 == ExpireSession(db.(payments := db.payments[p := db.payments[p].(status := Success)]), sid, now)
      && !r.0.sessions[sid].isActive
  {
    var (db1, e) := GetLockedSession(cfg, db, sid, now);
    if e.Some? then (db1, Raise(e.value))
    else match LatestPayment(db.payments, sid)
      case None => (db, Response(404, Detail(NoPaymentMessage)))
      case Some(p) =>
        var db2 := db.(payments := db.payments[p := db.payments[p].(status := Success)]);
        (ExpireSession(db2, sid, now), Response(200, Status("payment_success")))
  }
}
