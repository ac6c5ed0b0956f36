/** The browser-side session and cart store (App/frontend/src/utils/sessionManager.js).

    `localStorage` is modelled as a value with two slots, one per storage key:
    'smart_trolley_session' and 'smart_trolley_cart'. Every operation takes the
    store and returns the store it leaves behind together with its result.
    Prices are integer cents and times are integer milliseconds. */
module SessionStore {
  import opened Wrappers

  /** Age after which a stored session is discarded on read: 24 hours in milliseconds. */
  const SessionTimeout: int := 24 * 60 * 60 * 1000

  /** The JSON record stored under the session key. A field that is missing, or
      holds a value that is not a string, is `None`; `createdAt` is `None` when
      `new Date(createdAt).getTime()` is not a finite number. */
  datatype SessionRecord = SessionRecord(
    id: Option<string>,
    trolleyId: Option<string>,
    createdAt: Option<int>,
    lastActivity: Option<int>)

  /** A stored line's `quantity` as it reads back from JSON: the key is absent,
      it holds `null` (what `JSON.stringify` writes for NaN), or a number. */
  datatype Qty = Missing | Null | Num(n: int)

  /** One cart line. `price` is `None` when `parseFloat(price)` is NaN. */
  datatype LineItem = LineItem(
    id: string,
    name: string,
    price: Option<int>,
    quantity: Qty,
    scannedAt: Option<int>)

  /** A product handed to `addScannedProduct` (its `quantity` may be absent). */
  datatype Product = Product(id: string, name: string, price: Option<int>, quantity: Option<int>)

  datatype Cart = Cart(items: seq<LineItem>, total: int)

  /** The two storage keys; `None` is a key that `getItem` finds empty. */
  datatype Storage = Storage(session: Option<SessionRecord>, cart: Option<Cart>)

  /** JavaScript truthiness of an optional string: present and not ''. */
  predicate Truthy(s: Option<string>) {
    s.Some? && s.value != ""
  }

  // ---------------------------------------------------------------------------
  // Totals

  /** `parseFloat(item.price) || 0`. */
  function PriceOf(item: LineItem): int {
    match item.price
    case Some(p) => p
    case None => 0
  }

  /** `parseInt(item.quantity) || 1`: a missing, non-numeric or zero quantity counts as 1. */
  function QtyOf(item: LineItem): int {
    match item.quantity
    case Num(q) => if q == 0 then 1 else q
    case _ => 1
  }

  /** The amount one line contributes to the total. */
  function LineAmount(item: LineItem): int {
    PriceOf(item) * QtyOf(item)
  }

  /** Sum of `LineAmount` over `items`, first line first. */
  function Total(items: seq<LineItem>): int {
    if |items| == 0 then 0 else LineAmount(items[0]) + Total(items[1..])
  }

  /** The source's `items.reduce((sum, item) => sum + ..., 0)`: a left fold from `acc`. */
  function TotalFold(items: seq<LineItem>, acc: int): int
    decreases |items|
  {
    if |items| == 0 then acc else TotalFold(items[1..], acc + LineAmount(items[0]))
  }

  /** The left fold of `recalculateTotal` computes the same sum as `Total`. */
  lemma {:induction false} TotalFoldIsTotal(items: seq<LineItem>, acc: int)
    ensures TotalFold(items, acc) == acc + Total(items)
    decreases |items|
  {
    if |items| > 0 {
      TotalFoldIsTotal(items[1..], acc + LineAmount(items[0]));
    }
  }

  /** The total of a concatenation is the sum of the totals. */
  lemma {:induction false} TotalAppend(a: seq<LineItem>, b: seq<LineItem>)
    ensures Total(a + b) == Total(a) + Total(b)
    decreases |a|
  {
    if |a| > 0 {
      assert (a + b)[1..] == a[1..] + b;
      TotalAppend(a[1..], b);
    } else {
      assert a + b == b;
    }
  }

  /** `recalculateTotal(cart)`: the items are kept and `total` becomes the
      reduce of the source, so it equals the sum of the line amounts. */
  function RecalculateTotal(c: Cart): (r: Cart)
    ensures r.items == c.items
    ensures r.total == TotalFold(c.items, 0)
  {
    TotalFoldIsTotal(c.items, 0);
    Cart(c.items, Total(c.items))
  }

  /** Recomputing twice changes nothing more than recomputing once. */
  lemma RecalculateTotalIdempotent(c: Cart)
    ensures RecalculateTotal(RecalculateTotal(c)) == RecalculateTotal(c)
  {
  }

  /** A cart whose `total` is the sum of its lines, as every mutator leaves it. */
  predicate Consistent(c: Cart) {
    c.total == Total(c.items)
  }

  // ---------------------------------------------------------------------------
  // Lookup helpers

  /** Index of the first line with `id`, as `items.find(item => item.id === id)` picks it. */
  function FindIndex(items: seq<LineItem>, id: string): (r: Option<nat>)
    ensures r.Some? ==> r.value < |items| && items[r.value].id == id
    ensures r.Some? ==> forall j :: 0 <= j < r.value ==> items[j].id != id
    ensures r.None? ==> forall j :: 0 <= j < |items| ==> items[j].id != id
  {
    if |items| == 0 then None
    else if items[0].id == id then Some(0)
    else match FindIndex(items[1..], id)
      case Some(i) => Some(i + 1)
      case None => None
  }

  /** Some line carries `id`. */
  predicate HasId(items: seq<LineItem>, id: string) {
    exists j :: 0 <= j < |items| && items[j].id == id
  }

  /** No two lines share an id. */
  predicate UniqueIds(items: seq<LineItem>) {
    forall i, j :: 0 <= i < j < |items| ==> items[i].id != items[j].id
  }

  /** `items.filter(item => item.id !== id)`. */
  function Without(items: seq<LineItem>, id: string): (r: seq<LineItem>)
    ensures |r| <= |items|
  {
    if |items| == 0 then []
    else if items[0].id == id then Without(items[1..], id)
    else [items[0]] + Without(items[1..], id)
  }

  /** The filter keeps exactly the lines without `id`, and an absent id keeps
      them all. */
  lemma WithoutKeeps(items: seq<LineItem>, id: string)
    ensures forall j :: 0 <= j < |Without(items, id)| ==> Without(items, id)[j].id != id && Without(items, id)[j] in items
    ensures forall x :: x in items && x.id != id ==> x in Without(items, id)
    ensures !HasId(items, id) ==> Without(items, id) == items
  {
    WithoutSound(items, id);
    WithoutComplete(items, id);
    if !HasId(items, id) {
      WithoutAbsent(items, id);
    }
  }

  /** Every kept line is a line of the input without `id`. */
  lemma {:induction false} WithoutSound(items: seq<LineItem>, id: string)
    ensures forall j :: 0 <= j < |Without(items, id)| ==> Without(items, id)[j].id != id && Without(items, id)[j] in items
    decreases |items|
  {
    if |items| > 0 {
      var rest := Without(items[1..], id);
      WithoutSound(items[1..], id);
      forall j | 0 <= j < |rest| ensures rest[j] in items {
        assert rest[j] in items[1..];
      }
    }
  }

  /** Every line without `id` is kept. */
  lemma {:induction false} WithoutComplete(items: seq<LineItem>, id: string)
    ensures forall x :: x in items && x.id != id ==> x in Without(items, id)
    decreases |items|
  {
    if |items| > 0 {
      var rest := Without(items[1..], id);
      WithoutComplete(items[1..], id);
      forall x | x in items && x.id != id ensures x in Without(items, id) {
        if x != items[0] {
          assert x in items[1..];
          assert x in rest;
        }
      }
    }
  }

  /** Filtering out an absent id keeps every line. */
  lemma {:induction false} WithoutAbsent(items: seq<LineItem>, id: string)
    requires !HasId(items, id)
    ensures Without(items, id) == items
    decreases |items|
  {
    if |items| > 0 {
      assert items[0].id != id;
      assert !HasId(items[1..], id) by {
        forall j | 0 <= j < |items[1..]| ensures items[1..][j].id != id {
          assert items[1..][j] == items[j + 1];
        }
      }
      WithoutAbsent(items[1..], id);
      assert items == [items[0]] + items[1..];
    }
  }

  /** Filtering distributes over concatenation, so the kept lines stay in order. */
  lemma {:induction false} WithoutAppend(a: seq<LineItem>, b: seq<LineItem>, id: string)
    ensures Without(a + b, id) == Without(a, id) + Without(b, id)
    decreases |a|
  {
    if |a| == 0 {
      assert a + b == b;
    } else {
      assert (a + b)[1..] == a[1..] + b;
      WithoutAppend(a[1..], b, id);
    }
  }

  /** Sum of the amounts of the lines carrying `id`. */
  function AmountOf(items: seq<LineItem>, id: string): int {
    if |items| == 0 then 0
    else (if items[0].id == id then LineAmount(items[0]) else 0) + AmountOf(items[1..], id)
  }

  /** Dropping the lines with `id` lowers the total by exactly their amount. */
  lemma {:induction false} TotalWithout(items: seq<LineItem>, id: string)
    ensures Total(Without(items, id)) == Total(items) - AmountOf(items, id)
    decreases |items|
  {
    if |items| > 0 {
      TotalWithout(items[1..], id);
      if items[0].id != id {
        assert Without(items, id) == [items[0]] + Without(items[1..], id);
        TotalAppend([items[0]], Without(items[1..], id));
      }
    }
  }

  // ---------------------------------------------------------------------------
  // Session operations

  /** `getSession()`: the stored record, if any. */
  function GetSession(st: Storage): Option<SessionRecord> {
    st.session
  }

  /** The stored session is older than the timeout; exactly 24 hours is not. */
  predicate TooOld(rec: SessionRecord, now: int) {
    rec.createdAt.Some? && now - rec.createdAt.value > SessionTimeout
  }

  /** `clearSession()`: removes both keys. */
  function ClearSession(st: Storage): (r: Storage)
    ensures r.session.None? && r.cart.None?
  {
    Storage(None, None)
  }

  /** `getSessionId()` at time `now`: the stored id when there is one and the
      record is not older than 24 hours; an over-age record is cleared
      together with the cart. */
  function GetSessionId(st: Storage, now: int): (r: (Storage, Option<string>))
    ensures r.1.Some? <==> st.session.Some? && Truthy(st.session.value.id) && !TooOld(st.session.value, now)
    ensures r.1.Some? ==> r.1 == st.session.value.id && r.0 == st
    ensures st.session.Some? && Truthy(st.session.value.id) && TooOld(st.session.value, now) ==>
      r.0.session.None? && r.0.cart.None?
    ensures !(st.session.Some? && Truthy(st.session.value.id)) ==> r.0 == st
  {
    match st.session
    case None => (st, None)
    case Some(rec) =>
      if !Truthy(rec.id) then (st, None)
      else if TooOld(rec, now) then (ClearSession(st), None)
      else (st, rec.id)
  }

  /** A record created exactly 24 hours ago still yields its id; one millisecond later it does not. */
  lemma SessionTimeoutBoundary(st: Storage, created: int)
    requires st.session.Some? && Truthy(st.session.value.id) && st.session.value.createdAt == Some(created)
    ensures GetSessionId(st, created + SessionTimeout).1 == st.session.value.id
    ensures GetSessionId(st, created + SessionTimeout + 1).1.None?
  {
  }

  /** `getTrolleyId()`: the stored trolley id, with no age check. */
  function GetTrolleyId(st: Storage): (r: Option<string>)
    ensures st.session.None? ==> r.None?
    ensures st.session.Some? ==> r == st.session.value.trolleyId
  {
    match st.session
    case None => None
    case Some(rec) => rec.trolleyId
  }

  /** Unlike `getSessionId`, `getTrolleyId` still answers for an over-age record. */
  lemma TrolleyIdIgnoresAge(st: Storage, now: int)
    requires st.session.Some? && Truthy(st.session.value.id) && TooOld(st.session.value, now)
    ensures GetSessionId(st, now).1.None?
    ensures GetTrolleyId(st) == st.session.value.trolleyId
  {
  }

  /** `isValidSession()`: a record with a truthy id and a truthy trolley id. */
  function IsValidSession(st: Storage): (r: bool)
    ensures r <==> st.session.Some? && Truthy(st.session.value.id) && Truthy(st.session.value.trolleyId)
  {
    match st.session
    case None => false
    case Some(rec) => Truthy(rec.trolleyId) && Truthy(rec.id)
  }

  /** `updateLastActivity()`: only the session's `lastActivity` changes; no session, no change. */
  function UpdateLastActivity(st: Storage, now: int): (r: Storage)
    ensures r.cart == st.cart
    ensures st.session.None? ==> r == st
    ensures st.session.Some? ==> r.session == Some(st.session.value.(lastActivity := Some(now)))
  {
    match st.session
    case None => st
    case Some(rec) => st.(session := Some(rec.(lastActivity := Some(now))))
  }

  /** For a record that is not over-age, the session is valid exactly when
      `getSessionId()` answers and `getTrolleyId()` gives a truthy id. */
  lemma ValidSessionReads(st: Storage, now: int)
    requires st.session.Some? ==> !TooOld(st.session.value, now)
    ensures IsValidSession(st) <==> GetSessionId(st, now).1.Some? && Truthy(GetTrolleyId(st))
  {
  }

  /** Touching `lastActivity` changes no answer of the other readers. */
  lemma UpdateLastActivityKeepsReads(st: Storage, t: int, now: int)
    ensures GetSessionId(UpdateLastActivity(st, t), now).1 == GetSessionId(st, now).1
    ensures GetTrolleyId(UpdateLastActivity(st, t)) == GetTrolleyId(st)
    ensures IsValidSession(UpdateLastActivity(st, t)) == IsValidSession(st)
    ensures GetCart(UpdateLastActivity(st, t)) == GetCart(st)
  {
  }

  // ---------------------------------------------------------------------------
  // Cart operations

  /** The cart `getCart()` hands out when nothing is stored. */
  const EmptyCart: Cart := Cart([], 0)

  /** `getCart()`: the stored cart, or an empty one with total 0. */
  function GetCart(st: Storage): (r: Cart)
    ensures st.cart.None? ==> r == EmptyCart
    ensures st.cart.Some? ==> r == st.cart.value
  {
    st.cart.GetOr(EmptyCart)
  }

  /** `product.quantity || 1`. */
  function DefaultQty(q: Option<int>): (n: int)
    ensures n != 0
  {
    match q
    case Some(v) => if v == 0 then 1 else v
    case None => 1
  }

  /** `existing.quantity += n`, as the stored value reads back: `undefined + n` is
      NaN, which is stored as `null`; `null + n` is `n`; a number has `n` added. */
  function AddQty(q: Qty, n: int): (r: Qty)
    ensures q.Missing? <==> r.Null?
    ensures q.Null? ==> r == Num(n)
    ensures q.Num? ==> r == Num(q.n + n)
  {
    match q
    case Missing => Null
    case Null => Num(n)
    case Num(v) => Num(v + n)
  }

  /** Scanning a product into a line without a quantity: the first addition
      stores `null` (the line still counts once), the second starts counting
      from the amount added, and from then on the additions accumulate. */
  lemma MissingQuantityRecovers(a: int, b: int, c: int)
    ensures AddQty(Missing, a) == Null
    ensures AddQty(AddQty(Missing, a), b) == Num(b)
    ensures AddQty(AddQty(AddQty(Missing, a), b), c) == Num(b + c)
  {
  }

  /** The line `addScannedProduct` appends for a new product id. */
  function NewLine(p: Product, now: int): LineItem {
    LineItem(p.id, p.name, p.price, Num(DefaultQty(p.quantity)), Some(now))
  }

  /** Store `items` with a recomputed total; the result is the stored cart. */
  function Persist(st: Storage, items: seq<LineItem>): (r: (Storage, Cart))
    ensures r.0 == st.(cart := Some(r.1))
    ensures r.1.items == items && Consistent(r.1)
  {
    var c := RecalculateTotal(Cart(items, 0));
    (st.(cart := Some(c)), c)
  }

  /** `addScannedProduct(product)`: a known id has `product.quantity || 1`
      added to its first line; an unknown id is appended last. */
  function AddScannedProduct(st: Storage, p: Product, now: int): (r: (Storage, Cart))
    ensures r.0 == st.(cart := Some(r.1)) && Consistent(r.1)
    ensures var old_ := GetCart(st).items;
      match FindIndex(old_, p.id)
      case Some(i) =>
        && |r.1.items| == |old_|
        && r.1.items[i] == old_[i].(quantity := AddQty(old_[i].quantity, DefaultQty(p.quantity)))
        && forall j :: 0 <= j < |old_| && j != i ==> r.1.items[j] == old_[j]
      case None =>
        r.1.items == old_ + [NewLine(p, now)]
  {
    var items := GetCart(st).items;
    match FindIndex(items, p.id)
    case Some(i) =>
      Persist(st, items[i := items[i].(quantity := AddQty(items[i].quantity, DefaultQty(p.quantity)))])
    case None =>
      Persist(st, items + [NewLine(p, now)])
  }

  /** Adding never creates a second line for an id: unique ids stay unique,
      and afterwards the product's id is present. */
  lemma AddKeepsIdsUnique(st: Storage, p: Product, now: int)
    requires UniqueIds(GetCart(st).items)
    ensures UniqueIds(AddScannedProduct(st, p, now).1.items)
    ensures HasId(AddScannedProduct(st, p, now).1.items, p.id)
  {
    var items := GetCart(st).items;
    var r := AddScannedProduct(st, p, now).1.items;
    match FindIndex(items, p.id)
    case Some(i) =>
      assert r[i].id == p.id;
    case None =>
      assert r[|items|].id == p.id;
  }

  /** The line a scan updated is the line the next scan of the same product finds. */
  lemma ScanAgainFindsSameLine(st: Storage, p: Product, now: int, i: nat)
    requires FindIndex(GetCart(st).items, p.id) == Some(i)
    ensures FindIndex(GetCart(AddScannedProduct(st, p, now).0).items, p.id) == Some(i)
  {
    var items := AddScannedProduct(st, p, now).1.items;
    assert items[i].id == p.id;
  }

  /** Three scans of a product whose stored line has no quantity leave that line
      at twice the scanned amount, not three times: the first scan only turns
      the missing value into `null`. */
  lemma RepeatedScanOfMissingQuantity(st: Storage, p: Product, t1: int, t2: int, t3: int, i: nat)
    requires FindIndex(GetCart(st).items, p.id) == Some(i)
    requires GetCart(st).items[i].quantity == Missing
    ensures var s1 := AddScannedProduct(st, p, t1).0;
      var s2 := AddScannedProduct(s1, p, t2).0;
      var r := AddScannedProduct(s2, p, t3).1;
      i < |r.items| && r.items[i].quantity == Num(2 * DefaultQty(p.quantity))
  {
    var d := DefaultQty(p.quantity);
    var s1 := AddScannedProduct(st, p, t1).0;
    assert GetCart(s1).items[i].quantity == Null;
    ScanAgainFindsSameLine(st, p, t1, i);
    var s2 := AddScannedProduct(s1, p, t2).0;
    assert GetCart(s2).items[i].quantity == Num(d);
    ScanAgainFindsSameLine(s1, p, t2, i);
  }

  /** `getCart()` returns what the last cart write stored, and no cart write
      changes what the session readers answer. */
  lemma CartWritesReadBack(st: Storage, p: Product, id: string, q: int, now: int)
    ensures GetCart(AddScannedProduct(st, p, now).0) == AddScannedProduct(st, p, now).1
    ensures GetCart(RemoveFromCart(st, id).0) == RemoveFromCart(st, id).1
    ensures GetCart(UpdateCartItem(st, id, q).0) == UpdateCartItem(st, id, q).1
    ensures GetSessionId(AddScannedProduct(st, p, now).0, now).1 == GetSessionId(st, now).1
    ensures GetTrolleyId(RemoveFromCart(st, id).0) == GetTrolleyId(st)
    ensures IsValidSession(UpdateCartItem(st, id, q).0) == IsValidSession(st)
  {
  }

  /** `removeFromCart(id)`: every line with `id` goes, the rest keep their order. */
  function RemoveFromCart(st: Storage, id: string): (r: (Storage, Cart))
    ensures r.0 == st.(cart := Some(r.1)) && Consistent(r.1)
    ensures r.1.items == Without(GetCart(st).items, id)
    ensures !HasId(r.1.items, id)
    ensures forall x :: x in GetCart(st).items && x.id != id ==> x in r.1.items
    ensures !HasId(GetCart(st).items, id) ==> r.1.items == GetCart(st).items
    ensures r.1.total == Total(GetCart(st).items) - AmountOf(GetCart(st).items, id)
  {
    var items := GetCart(st).items;
    TotalWithout(items, id);
    WithoutKeeps(items, id);
    Persist(st, Without(items, id))
  }

  /** `updateCartItem(id, q)`: on a present id, `q <= 0` removes it and `q > 0`
      sets the quantity of its first line; an absent id leaves the lines alone
      (the cart is still stored with a fresh total). */
  function UpdateCartItem(st: Storage, id: string, q: int): (r: (Storage, Cart))
    ensures r.0 == st.(cart := Some(r.1)) && Consistent(r.1)
    ensures HasId(GetCart(st).items, id) && q <= 0 ==> r == RemoveFromCart(st, id)
    ensures var old_ := GetCart(st).items;
      FindIndex(old_, id).Some? && q > 0 ==>
        var i := FindIndex(old_, id).value;
        && |r.1.items| == |old_|
        && r.1.items[i] == old_[i].(quantity := Num(q))
        && forall j :: 0 <= j < |old_| && j != i ==> r.1.items[j] == old_[j]
    ensures !HasId(GetCart(st).items, id) ==> r.1.items == GetCart(st).items
  {
    var items := GetCart(st).items;
    match FindIndex(items, id)
    case Some(i) =>
      if q <= 0 then RemoveFromCart(st, id)
      else Persist(st, items[i := items[i].(quantity := Num(q))])
    case None =>
      Persist(st, items)
  }

  /** `clearCart()`: removes only the cart key. */
  function ClearCart(st: Storage): (r: Storage)
    ensures r.session == st.session
    ensures GetCart(r) == EmptyCart
  {
    st.(cart := None)
  }

  /** After `clearSession()` every reader reports that nothing is stored. */
  lemma ClearSessionReadBack(st: Storage, now: int)
    ensures GetSessionId(ClearSession(st), now) == (ClearSession(st), None)
    ensures GetTrolleyId(ClearSession(st)).None? && !IsValidSession(ClearSession(st))
    ensures GetCart(ClearSession(st)) == EmptyCart && GetCartItemCount(ClearSession(st)) == 0
  {
  }

  /** `getCartItemCount()`: the sum of `parseInt(quantity) || 1` over the stored lines. */
  function ItemCount(items: seq<LineItem>): int {
    if |items| == 0 then 0 else QtyOf(items[0]) + ItemCount(items[1..])
  }

  function GetCartItemCount(st: Storage): int {
    ItemCount(GetCart(st).items)
  }

  /** With every quantity a positive number, the count is at least the number of lines. */
  lemma {:induction false} ItemCountAtLeastLines(items: seq<LineItem>)
    requires forall j :: 0 <= j < |items| ==> items[j].quantity.Num? && items[j].quantity.n > 0
    ensures ItemCount(items) >= |items|
    decreases |items|
  {
    if |items| > 0 {
      ItemCountAtLeastLines(items[1..]);
    }
  }
}
