/** The tables of the second backend, the one the server routes
    (App/server/sessions/models.py, App/server/cart/models.py,
    App/server/payments/models.py), with the model methods as functions.

    Unlike the first backend there is no user table, no transaction and no
    database constraint on active sessions: a trolley has a lock flag, a session
    lives as long as heartbeats arrive, and a session has at most one payment
    (the payment table is keyed by session). Money is integer cents, times are
    integer milliseconds, and session ids come from a counter, so a larger id is
    a later `created_at`. */
module ShopModels {
  import opened Wrappers
  import opened Money
  import opened CartLines

  /** `SESSION_HEARTBEAT_TIMEOUT`'s default of 30 seconds, in milliseconds. */
  const HeartbeatTimeout: int := 30000

  /** A trolley row, keyed by `trolley_id`; `last_seen` is rewritten on every save. */
  datatype Trolley = Trolley(isActive: bool, isLocked: bool, lastSeen: int)

  /** A product row, keyed by its unique barcode. */
  datatype Product = Product(name: string, price: nat, isActive: bool)

  datatype Session = Session(trolley: string, isActive: bool, lastHeartbeat: int, createdAt: int, endedAt: Option<int>)

  datatype PaymentStatus = Pending | Success | Failed

  datatype Payment = Payment(total: nat, status: PaymentStatus, upi: Option<string>)

  datatype Db = Db(
    trolleys: map<string, Trolley>,
    products: map<string, Product>,
    sessions: map<nat, Session>,
    items: seq<CartItem>,
    payments: map<nat, Payment>,
    nextSession: nat)

  // ---------------------------------------------------------------------------
  // Session methods

  /** A session as `Session.objects.create(trolley=…)` makes it. */
  function NewSession(t: string, now: int): (s: Session)
    ensures s.trolley == t && s.isActive && s.endedAt.None? && s.createdAt == now
    ensures !IsExpired(s, now) && !IsExpired(s, now + HeartbeatTimeout) && IsExpired(s, now + HeartbeatTimeout + 1)
  {
    Session(t, true, now, now, None)
  }

  /** `is_expired()`: strictly later than the last heartbeat plus the timeout. */
  predicate IsExpired(s: Session, now: int) {
    now > s.lastHeartbeat + HeartbeatTimeout
  }

  /** `update_heartbeat()`: only `last_heartbeat` changes, and the session is not
      expired at that instant. */
  function UpdateHeartbeat(s: Session, now: int): (r: Session)
    ensures !IsExpired(r, now) && r.lastHeartbeat == now
    ensures r.trolley == s.trolley && r.isActive == s.isActive && r.createdAt == s.createdAt && r.endedAt == s.endedAt
  {
    s.(lastHeartbeat := now)
  }

  /** `end_session()`: inactive, with the end time recorded. */
  function EndSession(s: Session, now: int): (r: Session)
    ensures !r.isActive && r.endedAt == Some(now)
    ensures r.trolley == s.trolley && r.lastHeartbeat == s.lastHeartbeat && r.createdAt == s.createdAt
  {
    s.(isActive := false, endedAt := Some(now))
  }

  /** `end_session()` followed by deleting the session's cart lines, as the
      views always pair them. */
  function Retire(db: Db, sid: nat, now: int): (r: Db)
    requires sid in db.sessions
    ensures r.sessions == db.sessions[sid := EndSession(db.sessions[sid], now)]
    ensures forall x :: x in r.items <==> x in db.items && x.session != sid
    ensures r.trolleys == db.trolleys && r.products == db.products && r.payments == db.payments
    ensures r.nextSession == db.nextSession
  {
    db.(sessions := db.sessions[sid := EndSession(db.sessions[sid], now)], items := DropSession(db.items, sid))
  }

  // ---------------------------------------------------------------------------
  // Cart item methods

  /** `CartItem.save()`: the subtotal is recomputed from the price. */
  function SaveLine(x: CartItem, price: nat): (r: CartItem)
    ensures r.subtotal == price * r.quantity
    ensures r.session == x.session && r.barcode == x.barcode && r.quantity == x.quantity
  {
    x.(subtotal := price * x.quantity)
  }

  /** `update_quantity(change)`: `None` when the new quantity is not positive and
      the line is deleted, otherwise the saved line. */
  function UpdateQuantity(x: CartItem, change: int, price: nat): (r: Option<CartItem>)
    ensures r.None? <==> x.quantity + change <= 0
    ensures r.Some? ==> r.value.quantity == x.quantity + change && r.value.subtotal == price * r.value.quantity
    ensures r.Some? ==> r.value.session == x.session && r.value.barcode == x.barcode
  {
    if x.quantity + change <= 0 then None
    else Some(SaveLine(x.(quantity := x.quantity + change), price))
  }

  /** The views' one-unit steps on a line are `update_quantity(+1)` and
      `update_quantity(-1)`: the same quantity and subtotal, and a deletion
      exactly when the last unit goes. */
  lemma UnitStepsAreQuantityUpdates(items: seq<CartItem>, i: nat, price: nat)
    requires i < |items| && FindItem(items, items[i].session, items[i].barcode) == Some(i)
    ensures AddUnit(items, items[i].session, items[i].barcode, price)[i] == UpdateQuantity(items[i], 1, price).value
    ensures items[i].quantity > 1 ==> RemoveUnit(items, i, price)[i] == UpdateQuantity(items[i], -1, price).value
    ensures UpdateQuantity(items[i], -1, price).None? <==> |RemoveUnit(items, i, price)| == |items| - 1
  {
  }

  // ---------------------------------------------------------------------------
  // Payment methods

  /** A session id as text. Session ids are modelled as numbers; their text is
      their decimal digits. */
  function IdText(sid: nat): (s: string)
    ensures |s| > 0
  {
    NatToString(sid)
  }

  const UpiPrefix: string := "upi://pay?pa=smarttrolley@upi&pn=SmartTrolley&am="
  const UpiMiddle: string := "&cu=INR&tn=Payment_for_session_"

  /** `generate_upi_string()`'s text. */
  function UpiString(total: nat, sid: nat): (s: string)
    ensures |s| > |UpiPrefix| + |UpiMiddle|
  {
    UpiPrefix + FormatCents(total) + UpiMiddle + IdText(sid)
  }

  /** The text of `s` before the first `c` (all of it when there is none). */
  function Before(s: string, c: char): (r: string)
    ensures r <= s && c !in r
    ensures |r| < |s| ==> s[|r|] == c
    decreases |s|
  {
    if |s| == 0 || s[0] == c then [] else [s[0]] + Before(s[1..], c)
  }

  /** The amount a payment app reads from a UPI link of this shop: the `am=`
      field, up to the next `&`, as a decimal amount. */
  function UpiAmount(link: string): Option<nat> {
    if |link| >= |UpiPrefix| && link[..|UpiPrefix|] == UpiPrefix
    then ParseCents(Before(link[|UpiPrefix|..], '&'))
    else None
  }

  /** The link's amount field reads back as the payment total. */
  lemma UpiAmountRoundTrip(total: nat, sid: nat)
    ensures UpiAmount(UpiString(total, sid)) == Some(total)
  {
    var f := FormatCents(total);
    var rest := UpiMiddle + IdText(sid);
    var link := UpiString(total, sid);
    assert link == UpiPrefix + (f + rest);
    assert link[..|UpiPrefix|] == UpiPrefix;
    assert link[|UpiPrefix|..] == f + rest;
    assert '&' !in f by {
      forall i | 0 <= i < |f| ensures f[i] != '&' {
        if i != |f| - 3 {
          assert IsDigit(f[i]);
        }
      }
    }
    BeforeSeparator(f, rest, '&');
    FormatCentsRoundTrip(total);
  }

  /** A text free of `c` followed by `c` is exactly what comes before `c`. */
  lemma {:induction false} BeforeSeparator(a: string, b: string, c: char)
    requires c !in a && |b| > 0 && b[0] == c
    ensures Before(a + b, c) == a
    decreases |a|
  {
    if |a| > 0 {
      assert (a + b)[1..] == a[1..] + b;
      BeforeSeparator(a[1..], b, c);
    } else {
      assert a + b == b;
    }
  }

  /** `mark_success()`: only the status changes. */
  function MarkSuccess(p: Payment): (r: Payment)
    ensures r.status == Success && r.total == p.total && r.upi == p.upi
  {
    p.(status := Success)
  }

  /** `mark_failed()`: only the status changes. */
  function MarkFailed(p: Payment): (r: Payment)
    ensures r.status == Failed && r.total == p.total && r.upi == p.upi
  {
    p.(status := Failed)
  }

  // ---------------------------------------------------------------------------
  // What the views keep true

  /** At most one active session per trolley (kept by the start view alone; the
      database does not enforce it). */
  predicate OneActivePerTrolley(db: Db) {
    forall a, b ::
      (a in db.sessions && b in db.sessions && db.sessions[a].isActive && db.sessions[b].isActive &&
       db.sessions[a].trolley == db.sessions[b].trolley) ==> a == b
  }

  /** Foreign keys resolve and issued ids lie below the counter. */
  predicate References(db: Db) {
    && (forall s :: s in db.sessions ==> s < db.nextSession && db.sessions[s].trolley in db.trolleys)
    && (forall i :: 0 <= i < |db.items| ==> db.items[i].session in db.sessions && db.items[i].barcode in db.products)
    && (forall s :: s in db.payments ==> s in db.sessions)
  }

  /** The catalogue's prices by barcode. */
  function Prices(db: Db): map<string, nat> {
    PriceColumn(db.products, (p: Product) => p.price)
  }

  /** Every line's quantity is positive and its subtotal is price times quantity. */
  predicate SubtotalsExact(db: Db) {
    Priced(db.items, Prices(db))
  }

  /** A session has an end time exactly when it is inactive. */
  predicate EndedMarked(db: Db) {
    forall s :: s in db.sessions ==> (db.sessions[s].isActive <==> db.sessions[s].endedAt.None?)
  }

  /** Only active sessions have cart lines: every way of ending a session deletes them. */
  predicate CartsOfLiveSessions(db: Db) {
    forall i :: 0 <= i < |db.items| ==> db.items[i].session in db.sessions && db.sessions[db.items[i].session].isActive
  }

  /** A paid session is over. */
  predicate SettledEnded(db: Db) {
    forall s :: s in db.payments && db.payments[s].status == Success ==> s in db.sessions && !db.sessions[s].isActive
  }

  predicate Consistent(db: Db) {
    && OneActivePerTrolley(db) && OneItemPerProduct(db.items) && References(db) && SubtotalsExact(db)
    && EndedMarked(db) && CartsOfLiveSessions(db) && SettledEnded(db)
  }

  /** Ending an active session and deleting its lines keeps the tables consistent. */
  lemma RetireKeepsConsistent(db: Db, sid: nat, now: int)
    requires Consistent(db) && sid in db.sessions && db.sessions[sid].isActive
    ensures Consistent(Retire(db, sid, now))
  {
    var r := Retire(db, sid, now);
    DropIsSubsequence(db.items, sid);
    forall i | 0 <= i < |r.items|
      ensures r.items[i].session in r.sessions && r.sessions[r.items[i].session].isActive
      ensures r.items[i].barcode in r.products && r.items[i].quantity >= 1
      ensures r.items[i].subtotal == r.products[r.items[i].barcode].price * r.items[i].quantity
    {
      assert r.items[i] in db.items;
      var j :| 0 <= j < |db.items| && db.items[j] == r.items[i];
    }
  }
}
