/** The cart endpoints of the second backend (App/server/cart/views.py). A scan
    or a removal moves one unit of one product; the cart view reports the
    session's lines and their totals. */
module ShopCart {
  import opened Wrappers
  import opened Money
  import opened CartLines
  import opened ShopModels
  import opened ShopSessions

  const Added: string := "added"
  const QuantityUpdated: string := "quantity_updated"
  const QuantityDecremented: string := "quantity_decremented"

  /** `CartScanView.post`: a known active product gains one unit in the session's
      cart, 201 with a new line of one unit, 200 with a line one unit longer. */
  function CartScan(db: Db, sid: nat, barcode: string, now: int): (r: (Db, Response))
    ensures ValidateSession(db, sid, now).1.Refused? ==>
      r == (ValidateSession(db, sid, now).0, ValidateSession(db, sid, now).1.response)
    ensures ValidateSession(db, sid, now).1.Usable? && (barcode !in db.products || !db.products[barcode].isActive) ==>
      r == (db, Response(404, Failure("Product with barcode " + barcode + " not found or inactive", None)))
    ensures r.1.status == 200 || r.1.status == 201 <==>
      ValidateSession(db, sid, now).1.Usable? && barcode in db.products && db.products[barcode].isActive
    ensures r.1.status == 201 <==> r.1.status in {200, 201} && FindItem(db.items, sid, barcode).None?
    ensures r.1.status in {200, 201} ==>
      var price := db.products[barcode].price;
      && r.0 == db.(items := AddUnit(db.items, sid, barcode, price))
      && r.1.body.LineUpdated? && r.1.body.sessionId == sid && r.1.body.barcode == barcode
      && r.1.body.action == (if r.1.status == 201 then Added else QuantityUpdated)
      && r.1.body.quantity == (if r.1.status == 201 then 1 else db.items[FindItem(db.items, sid, barcode).value].quantity + 1)
      && ParseCents(r.1.body.subtotal) == Some(price * r.1.body.quantity)
  {
    var (db1, c) := ValidateSession(db, sid, now);
    match c
    case Refused(resp) => (db1, resp)
    case Usable(_) =>
      if barcode !in db.products || !db.products[barcode].isActive then
        (db, Response(404, Failure("Product with barcode " + barcode + " not found or inactive", None)))
      else
        var price := db.products[barcode].price;
        var db2 := db.(items := AddUnit(db.items, sid, barcode, price));
        match FindItem(db.items, sid, barcode)
        case None =>
          FormatCentsRoundTrip(price * 1);
          (db2, Response(201, LineUpdated(sid, barcode, 1, FormatCents(price * 1), Added)))
        case Some(i) =>
          var q := db.items[i].quantity + 1;
          FormatCentsRoundTrip(price * q);
          (db2, Response(200, LineUpdated(sid, barcode, q, FormatCents(price * q), QuantityUpdated)))
  }

  /** `CartRemoveView.post`: one unit of a product in the cart is taken back; the
      line shrinks while it has more than one unit and is deleted with its last. */
  function CartRemove(db: Db, sid: nat, barcode: string, now: int): (r: (Db, Response))
    ensures ValidateSession(db, sid, now).1.Refused? ==>
      r == (ValidateSession(db, sid, now).0, ValidateSession(db, sid, now).1.response)
    ensures ValidateSession(db, sid, now).1.Usable? ==> r == TakeUnit(db, sid, barcode)
  {
    var (db1, c) := ValidateSession(db, sid, now);
    match c
    case Refused(resp) => (db1, resp)
    case Usable(_) => TakeUnit(db, sid, barcode)
  }

  /** The part of `CartRemoveView.post` after the session check. */
  function TakeUnit(db: Db, sid: nat, barcode: string): (r: (Db, Response))
    ensures barcode !in db.products ==>
      r == (db, Response(404, Failure("Product with barcode " + barcode + " not found", None)))
    ensures barcode in db.products && FindItem(db.items, sid, barcode).None? ==>
      r == (db, Response(404, Failure("Product " + db.products[barcode].name + " not in cart", None)))
    ensures r.1.status == 200 <==> barcode in db.products && FindItem(db.items, sid, barcode).Some?
    ensures r.1.status == 200 ==>
      var i := FindItem(db.items, sid, barcode).value;
      var price := db.products[barcode].price;
      && r.0 == db.(items := RemoveUnit(db.items, i, price))
      && (db.items[i].quantity > 1 ==>
            && r.1.body.LineUpdated? && r.1.body.sessionId == sid && r.1.body.barcode == barcode
            && r.1.body.quantity == db.items[i].quantity - 1 && r.1.body.action == QuantityDecremented
            && ParseCents(r.1.body.subtotal) == Some(price * r.1.body.quantity))
      && (db.items[i].quantity <= 1 ==> r.1.body == LineRemoved(sid, barcode))
  {
    if barcode !in db.products then
      (db, Response(404, Failure("Product with barcode " + barcode + " not found", None)))
    else match FindItem(db.items, sid, barcode)
      case None => (db, Response(404, Failure("Product " + db.products[barcode].name + " not in cart", None)))
      case Some(i) =>
        var price := db.products[barcode].price;
        var db2 := db.(items := RemoveUnit(db.items, i, price));
        if db.items[i].quantity > 1 then
          var q := db.items[i].quantity - 1;
          FormatCentsRoundTrip(price * q);
          (db2, Response(200, LineUpdated(sid, barcode, q, FormatCents(price * q), QuantityDecremented)))
        else (db2, Response(200, LineRemoved(sid, barcode)))
  }

  /** Lines in `ordering = ['-added_at']`: every line is appended to the table
      when it is created and keeps its place, so newest first is the reverse
      of table order. */
  function NewestFirst(s: seq<CartItem>): (r: seq<CartItem>)
    ensures |r| == |s|
    ensures forall i :: 0 <= i < |s| ==> r[i] == s[|s| - 1 - i]
    ensures forall x :: x in r <==> x in s
    decreases |s|
  {
    if |s| == 0 then [] else NewestFirst(s[1..]) + [s[0]]
  }

  /** `CartViewView.get`: the session's lines, newest first, with the sum of their quantities and
      of their subtotals; no write. An id that is not a UUID fails the lookup
      with an unhandled validation error. */
  function CartView(db: Db, q: QueryId, now: int): (r: (Db, Response))
    ensures q.Missing? ==> r == (db, Response(400, Failure(MissingIdError, None)))
    ensures q.Malformed? ==> r == (db, Response(500, ServerError))
    ensures q.Given? && ValidateSession(db, q.sid, now).1.Refused? ==>
      r == (ValidateSession(db, q.sid, now).0, ValidateSession(db, q.sid, now).1.response)
    ensures r.1.status == 200 <==> q.Given? && ValidateSession(db, q.sid, now).1.Usable?
    ensures r.1.status == 200 ==>
      && r.0 == db && r.1.body.CartSummary? && r.1.body.sessionId == q.sid
      && r.1.body.trolley == db.sessions[q.sid].trolley
      && (forall x :: x in r.1.body.items <==> x in db.items && x.session == q.sid)
      && r.1.body.items == NewestFirst(ItemsOf(db.items, q.sid))
      && r.1.body.totalItems == SumQuantities(db.items, q.sid)
      && ParseCents(r.1.body.totalAmount) == Some(SumSubtotals(db.items, q.sid))
  {
    match q
    case Missing => (db, Response(400, Failure(MissingIdError, None)))
    case Malformed => (db, Response(500, ServerError))
    case Given(sid) =>
      var (db1, c) := ValidateSession(db, sid, now);
      match c
      case Refused(resp) => (db1, resp)
      case Usable(_) =>
        var total := SumSubtotals(db.items, sid);
        FormatCentsRoundTrip(total);
        (db, Response(200, CartSummary(sid, db.sessions[sid].trolley, NewestFirst(ItemsOf(db.items, sid)),
                                       SumQuantities(db.items, sid), FormatCents(total))))
  }
}
