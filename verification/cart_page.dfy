/** The cart page's logic (App/frontend/src/pages/Cart.jsx): which cart it shows
    and which store operation each button routes to.

    The page's state is the cart it displays. Backend calls are inputs: what
    they resolve to, or that they rejected. */
module CartPage {
  import opened Wrappers
  import SessionStore

  /** How an awaited backend call settles. */
  datatype Reply<T> = Resolved(body: T) | Rejected

  /** The page's initial display, before the first fetch settles. */
  const InitialDisplay: SessionStore.Cart := SessionStore.EmptyCart

  /** `fetchCart()`: reads the session id (which may discard a stale session) and
      asks the backend for the cart. A truthy reply is displayed as it is and is
      NOT written to the store (the two assignments after `setCart` change fresh
      parsed copies); a falsy reply leaves the display alone; a rejection displays
      the stored cart. The remote cart's shape is taken to be the local one. */
  function FetchCart(st: SessionStore.Storage, now: int, shown: SessionStore.Cart,
                     reply: Reply<Option<SessionStore.Cart>>): (r: (SessionStore.Storage, SessionStore.Cart))
    ensures r.0 == SessionStore.GetSessionId(st, now).0
    ensures r.0.cart == st.cart || r.0.cart.None?
    ensures reply.Resolved? && reply.body.Some? ==> r.1 == reply.body.value
    ensures reply.Resolved? && reply.body.None? ==> r.1 == shown
    ensures reply.Rejected? ==> r.1 == SessionStore.GetCart(r.0)
  {
    var (st1, _) := SessionStore.GetSessionId(st, now);
    match reply
    case Resolved(Some(c)) => (st1, c)
    case Resolved(None) => (st1, shown)
    case Rejected => (st1, SessionStore.GetCart(st1))
  }

  /** Fold `addScannedProduct` over `products` in order; the result's cart is the
      last one returned (or the stored cart when there is nothing to add). */
  function AddAll(st: SessionStore.Storage, products: seq<SessionStore.Product>, now: int)
    : (r: (SessionStore.Storage, SessionStore.Cart))
    ensures |products| == 0 ==> r == (st, SessionStore.GetCart(st))
    ensures r.0.session == st.session
    ensures |products| > 0 ==> r.0.cart == Some(r.1) && SessionStore.Consistent(r.1)
    decreases |products|
  {
    if |products| == 0 then (st, SessionStore.GetCart(st))
    else
      var (st1, _) := SessionStore.AddScannedProduct(st, products[0], now);
      AddAll(st1, products[1..], now)
  }

  /** Adding a list in two parts is adding it in one. */
  lemma {:induction false} AddAllAppend(st: SessionStore.Storage, a: seq<SessionStore.Product>,
                                        b: seq<SessionStore.Product>, now: int)
    requires |b| > 0
    ensures AddAll(st, a + b, now) == AddAll(AddAll(st, a, now).0, b, now)
    decreases |a|
  {
    if |a| > 0 {
      var (st1, _) := SessionStore.AddScannedProduct(st, a[0], now);
      assert (a + b)[0] == a[0] && (a + b)[1..] == a[1..] + b;
      AddAllAppend(st1, a[1..], b, now);
    } else {
      assert a + b == b;
    }
  }

  /** Folding any list of products keeps one line per product id, and every
      folded product's id is present afterwards. */
  lemma {:induction false} AddAllKeepsIdsUnique(st: SessionStore.Storage, products: seq<SessionStore.Product>, now: int)
    requires SessionStore.UniqueIds(SessionStore.GetCart(st).items)
    ensures SessionStore.UniqueIds(SessionStore.GetCart(AddAll(st, products, now).0).items)
    ensures forall p :: p in products ==> SessionStore.HasId(SessionStore.GetCart(AddAll(st, products, now).0).items, p.id)
    decreases |products|
  {
    if |products| > 0 {
      var (st1, _) := SessionStore.AddScannedProduct(st, products[0], now);
      SessionStore.AddKeepsIdsUnique(st, products[0], now);
      AddAllKeepsIdsUnique(st1, products[1..], now);
      var fin := SessionStore.GetCart(AddAll(st1, products[1..], now).0).items;
      forall p | p in products
        ensures SessionStore.HasId(fin, p.id)
      {
        if p != products[0] {
          assert p in products[1..];
        } else {
          AddAllKeepsId(st1, products[1..], now, p.id);
        }
      }
    }
  }

  /** Once present, an id stays present through further additions. */
  lemma {:induction false} AddAllKeepsId(st: SessionStore.Storage, products: seq<SessionStore.Product>, now: int, id: string)
    requires SessionStore.HasId(SessionStore.GetCart(st).items, id)
    ensures SessionStore.HasId(SessionStore.GetCart(AddAll(st, products, now).0).items, id)
    decreases |products|
  {
    if |products| > 0 {
      var (st1, c1) := SessionStore.AddScannedProduct(st, products[0], now);
      var old_ := SessionStore.GetCart(st).items;
      var j :| 0 <= j < |old_| && old_[j].id == id;
      assert c1.items[j].id == id;
      AddAllKeepsId(st1, products[1..], now, id);
    }
  }

  /** `checkForNewProducts()`: reads the session id, asks for pending products
      and, when the reply is a non-empty list, folds them into the store and
      displays the result. An empty or falsy reply, or a rejection, changes
      nothing but what reading the session id did. */
  function CheckForNewProducts(st: SessionStore.Storage, now: int, shown: SessionStore.Cart,
                               reply: Reply<Option<seq<SessionStore.Product>>>): (r: (SessionStore.Storage, SessionStore.Cart))
    ensures var st1 := SessionStore.GetSessionId(st, now).0;
      if reply.Resolved? && reply.body.Some? && |reply.body.value| > 0
      then r == AddAll(st1, reply.body.value, now)
      else r == (st1, shown)
  {
    var (st1, _) := SessionStore.GetSessionId(st, now);
    match reply
    case Resolved(Some(ps)) => if |ps| > 0 then AddAll(st1, ps, now) else (st1, shown)
    case Resolved(None) => (st1, shown)
    case Rejected => (st1, shown)
  }

  /** `handleRemoveFromCart(id)`: removes from the store and displays what it
      returns, so the display is the stored cart, without the id. */
  function HandleRemoveFromCart(st: SessionStore.Storage, id: string): (r: (SessionStore.Storage, SessionStore.Cart))
    ensures r.0.cart == Some(r.1) && r.0.session == st.session
    ensures r.1.items == SessionStore.Without(SessionStore.GetCart(st).items, id)
    ensures !SessionStore.HasId(r.1.items, id)
    ensures forall x :: x in SessionStore.GetCart(st).items && x.id != id ==> x in r.1.items
  {
    SessionStore.RemoveFromCart(st, id)
  }

  /** `handleUpdateQuantity(id, q)`: `q <= 0` goes to removal, anything else to `updateCartItem`. */
  function HandleUpdateQuantity(st: SessionStore.Storage, id: string, q: int): (r: (SessionStore.Storage, SessionStore.Cart))
    ensures q <= 0 ==> r == SessionStore.RemoveFromCart(st, id)
    ensures q > 0 ==> r == SessionStore.UpdateCartItem(st, id, q)
  {
    if q <= 0 then HandleRemoveFromCart(st, id)
    else SessionStore.UpdateCartItem(st, id, q)
  }

  /** The page's routing is observably the store's own rule: even for an id that is
      not in the cart, removal and `updateCartItem` leave the same store and cart. */
  lemma RoutingAgreesWithStore(st: SessionStore.Storage, id: string, q: int)
    ensures HandleUpdateQuantity(st, id, q) == SessionStore.UpdateCartItem(st, id, q)
  {
    if q <= 0 && !SessionStore.HasId(SessionStore.GetCart(st).items, id) {
      SessionStore.WithoutAbsent(SessionStore.GetCart(st).items, id);
    }
  }

  /** `handleClearCart()` after the confirm dialog: confirmed empties the stored
      cart and the display; declined changes nothing. */
  function HandleClearCart(st: SessionStore.Storage, shown: SessionStore.Cart, confirmed: bool)
    : (r: (SessionStore.Storage, SessionStore.Cart))
    ensures confirmed ==> r.0 == SessionStore.ClearCart(st) && r.1 == SessionStore.EmptyCart
    ensures confirmed ==> SessionStore.GetCart(r.0) == r.1
    ensures !confirmed ==> r == (st, shown)
  {
    if confirmed then (SessionStore.ClearCart(st), SessionStore.EmptyCart) else (st, shown)
  }

  /** The count in the header: `quantity || 1` summed over the displayed lines. */
  function ShownItemCount(shown: SessionStore.Cart): int {
    SessionStore.ItemCount(shown.items)
  }

  /** After a fetch that fell back to the cache, the header shows the same count
      as the store's own `getCartItemCount()`. */
  lemma FallbackCountMatchesStore(st: SessionStore.Storage, now: int, shown: SessionStore.Cart)
    ensures var r := FetchCart(st, now, shown, Rejected);
      ShownItemCount(r.1) == SessionStore.GetCartItemCount(r.0)
  {
  }
}
