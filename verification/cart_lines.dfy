/** The cart-line table both backends keep: one row per (session, product),
    with a quantity and a subtotal in cents. Both compute a subtotal as price
    times quantity, add one unit per scan and take one back per remove, deleting
    the row when its last unit goes (App/server/api/views.py and
    App/server/cart/models.py). */
module CartLines {
  import opened Wrappers

  /** A cart row; `barcode` identifies the product. */
  datatype CartItem = CartItem(session: nat, barcode: string, quantity: nat, subtotal: nat)

  /** `unique_product_per_session`. */
  predicate OneItemPerProduct(items: seq<CartItem>) {
    forall i, j :: 0 <= i < j < |items| ==>
      items[i].session != items[j].session || items[i].barcode != items[j].barcode
  }

  /** The first line of `sid` for `barcode`, as `.filter(...).first()` finds it. */
  function FindItem(items: seq<CartItem>, sid: nat, barcode: string): (r: Option<nat>)
    ensures r.Some? ==> r.value < |items| && items[r.value].session == sid && items[r.value].barcode == barcode
    ensures r.None? ==> forall i :: 0 <= i < |items| ==> items[i].session != sid || items[i].barcode != barcode
    decreases |items|
  {
    if |items| == 0 then None
    else if items[0].session == sid && items[0].barcode == barcode then Some(0)
    else match FindItem(items[1..], sid, barcode)
      case Some(i) => Some(i + 1)
      case None => None
  }

  /** The lines of `sid`, in table order. */
  function ItemsOf(items: seq<CartItem>, sid: nat): (r: seq<CartItem>)
    ensures forall x :: x in r <==> x in items && x.session == sid
    decreases |items|
  {
    if |items| == 0 then []
    else (if items[0].session == sid then [items[0]] else []) + ItemsOf(items[1..], sid)
  }

  /** A line appended for `sid` comes last among `sid`'s lines. */
  lemma {:induction false} ItemsOfAppend(items: seq<CartItem>, x: CartItem, sid: nat)
    requires x.session == sid
    ensures ItemsOf(items + [x], sid) == ItemsOf(items, sid) + [x]
    decreases |items|
  {
    if |items| == 0 {
      assert ItemsOf([x], sid) == [x] + ItemsOf([], sid);
    } else {
      assert (items + [x])[1..] == items[1..] + [x];
      ItemsOfAppend(items[1..], x, sid);
    }
  }

  /** The table without the lines of `sid` (`CartItem.objects.filter(session=…).delete()`). */
  function DropSession(items: seq<CartItem>, sid: nat): (r: seq<CartItem>)
    ensures forall x :: x in r <==> x in items && x.session != sid
    ensures |r| <= |items|
    decreases |items|
  {
    if |items| == 0 then []
    else (if items[0].session == sid then [] else [items[0]]) + DropSession(items[1..], sid)
  }

  /** Sum of the subtotals of the lines of `sid`. */
  function SumSubtotals(items: seq<CartItem>, sid: nat): nat
    decreases |items|
  {
    if |items| == 0 then 0
    else (if items[0].session == sid then items[0].subtotal else 0) + SumSubtotals(items[1..], sid)
  }

  /** Sum of the quantities of the lines of `sid`. */
  function SumQuantities(items: seq<CartItem>, sid: nat): nat
    decreases |items|
  {
    if |items| == 0 then 0
    else (if items[0].session == sid then items[0].quantity else 0) + SumQuantities(items[1..], sid)
  }

  /** Number of lines of `sid`. */
  function CountLines(items: seq<CartItem>, sid: nat): nat
    decreases |items|
  {
    if |items| == 0 then 0
    else (if items[0].session == sid then 1 else 0) + CountLines(items[1..], sid)
  }

  /** With every quantity positive, the units in a cart are at least its lines,
      and a cart has no units exactly when it has no lines. */
  lemma {:induction false} QuantitiesCoverLines(items: seq<CartItem>, sid: nat)
    requires forall i :: 0 <= i < |items| ==> items[i].quantity >= 1
    ensures SumQuantities(items, sid) >= CountLines(items, sid)
    ensures SumQuantities(items, sid) == 0 <==> forall i :: 0 <= i < |items| ==> items[i].session != sid
    decreases |items|
  {
    if |items| > 0 {
      assert forall i :: 0 <= i < |items[1..]| ==> items[1..][i] == items[i + 1];
      QuantitiesCoverLines(items[1..], sid);
    }
  }

  /** A session without lines counts none. */
  lemma {:induction false} CountWithoutLines(items: seq<CartItem>, sid: nat)
    requires forall x :: x in items ==> x.session != sid
    ensures CountLines(items, sid) == 0
    decreases |items|
  {
    if |items| > 0 {
      assert items[0] in items;
      assert forall x :: x in items[1..] ==> x in items;
      CountWithoutLines(items[1..], sid);
    }
  }

  /** Dropping a session's lines removes exactly its count of rows. */
  lemma {:induction false} DropRemovesCount(items: seq<CartItem>, sid: nat)
    ensures |DropSession(items, sid)| + CountLines(items, sid) == |items|
    decreases |items|
  {
    if |items| > 0 {
      DropRemovesCount(items[1..], sid);
    }
  }

  /** Dropping one session's lines zeroes its sum and leaves every other session's. */
  lemma {:induction false} SumAfterDrop(items: seq<CartItem>, sid: nat, other: nat)
    ensures SumSubtotals(DropSession(items, sid), other) == if other == sid then 0 else SumSubtotals(items, other)
    decreases |items|
  {
    if |items| > 0 {
      SumAfterDrop(items[1..], sid, other);
      var head := if items[0].session == sid then [] else [items[0]];
      SumAppend(head, DropSession(items[1..], sid), other);
    }
  }

  lemma {:induction false} SumAppend(a: seq<CartItem>, b: seq<CartItem>, sid: nat)
    ensures SumSubtotals(a + b, sid) == SumSubtotals(a, sid) + SumSubtotals(b, sid)
    decreases |a|
  {
    if |a| == 0 {
      assert a + b == b;
    } else {
      assert (a + b)[1..] == a[1..] + b;
      SumAppend(a[1..], b, sid);
    }
  }

  /** Replacing line `i` changes its session's sum by the change in its subtotal. */
  lemma {:induction false} SumUpdate(items: seq<CartItem>, i: nat, x: CartItem, sid: nat)
    requires i < |items| && x.session == items[i].session
    ensures SumSubtotals(items[i := x], sid) + (if x.session == sid then items[i].subtotal else 0)
         == SumSubtotals(items, sid) + (if x.session == sid then x.subtotal else 0)
    decreases |items|
  {
    if i > 0 {
      assert items[i := x][1..] == items[1..][i - 1 := x];
      SumUpdate(items[1..], i - 1, x, sid);
    } else {
      assert items[i := x][1..] == items[1..];
    }
  }

  /** Removing line `i` takes its subtotal off its session's sum. */
  lemma {:induction false} SumRemove(items: seq<CartItem>, i: nat, sid: nat)
    requires i < |items|
    ensures SumSubtotals(items[..i] + items[i + 1..], sid) + (if items[i].session == sid then items[i].subtotal else 0)
         == SumSubtotals(items, sid)
  {
    SumAppend(items[..i], items[i + 1..], sid);
    SumAppend(items[..i], items[i..], sid);
    assert items[..i] + items[i..] == items;
    assert items[i..] == [items[i]] + items[i + 1..];
    SumAppend([items[i]], items[i + 1..], sid);
  }

  lemma {:induction false} ZeroSumWithoutLines(items: seq<CartItem>, sid: nat)
    ensures (forall i :: 0 <= i < |items| ==> items[i].session != sid) ==> SumSubtotals(items, sid) == 0
    decreases |items|
  {
    if |items| > 0 {
      ZeroSumWithoutLines(items[1..], sid);
      assert forall i :: 0 <= i < |items[1..]| ==> items[1..][i] == items[i + 1];
    }
  }

  /** Dropping keeps the relative order of what remains, so pairwise facts survive. */
  lemma {:induction false} DropIsSubsequence(items: seq<CartItem>, sid: nat)
    requires OneItemPerProduct(items)
    ensures OneItemPerProduct(DropSession(items, sid))
    decreases |items|
  {
    if |items| > 0 {
      OneItemPerProductTail(items);
      DropIsSubsequence(items[1..], sid);
      var rest := DropSession(items[1..], sid);
      if items[0].session != sid {
        var r := [items[0]] + rest;
        forall i, j | 0 <= i < j < |r|
          ensures r[i].session != r[j].session || r[i].barcode != r[j].barcode
        {
          if i == 0 {
            assert r[j] in items[1..];
            var k :| 0 <= k < |items[1..]| && items[1..][k] == r[j];
            assert items[k + 1] == r[j];
          } else {
            assert r[i] == rest[i - 1] && r[j] == rest[j - 1];
          }
        }
      } else {
        assert DropSession(items, sid) == rest;
      }
    }
  }

  lemma OneItemPerProductTail(items: seq<CartItem>)
    requires |items| > 0 && OneItemPerProduct(items)
    ensures OneItemPerProduct(items[1..])
  {
    forall i, j | 0 <= i < j < |items[1..]|
      ensures items[1..][i].session != items[1..][j].session || items[1..][i].barcode != items[1..][j].barcode
    {
      assert items[1..][i] == items[i + 1] && items[1..][j] == items[j + 1];
    }
  }

  /** The line table after one more unit of `barcode` in session `sid`: the
      existing line's quantity goes up by one, or a line of one is appended. */
  function AddUnit(items: seq<CartItem>, sid: nat, barcode: string, price: nat): (r: seq<CartItem>)
    ensures FindItem(items, sid, barcode).Some? ==>
      var i := FindItem(items, sid, barcode).value;
      r == items[i := CartItem(sid, barcode, items[i].quantity + 1, price * (items[i].quantity + 1))]
    ensures FindItem(items, sid, barcode).None? ==> r == items + [CartItem(sid, barcode, 1, price)]
  {
    match FindItem(items, sid, barcode)
    case Some(i) => items[i := items[i].(quantity := items[i].quantity + 1, subtotal := price * (items[i].quantity + 1))]
    case None => items + [CartItem(sid, barcode, 1, price)]
  }

  /** The line table after one unit of the line at `i` is taken back: a quantity
      above one goes down, otherwise the line is deleted. */
  function RemoveUnit(items: seq<CartItem>, i: nat, price: nat): (r: seq<CartItem>)
    requires i < |items|
    ensures items[i].quantity > 1 ==>
      |r| == |items| && r[i].quantity == items[i].quantity - 1 && r[i].subtotal == price * (items[i].quantity - 1)
      && r[i].session == items[i].session && r[i].barcode == items[i].barcode
      && forall j :: 0 <= j < |items| && j != i ==> r[j] == items[j]
    ensures items[i].quantity <= 1 ==> |r| == |items| - 1 && r == items[..i] + items[i + 1..]
  {
    if items[i].quantity > 1 then
      items[i := items[i].(quantity := items[i].quantity - 1, subtotal := price * (items[i].quantity - 1))]
    else items[..i] + items[i + 1..]
  }

  /** One unit more adds the price to the session's sum. */
  lemma AddUnitSum(items: seq<CartItem>, sid: nat, barcode: string, price: nat)
    requires FindItem(items, sid, barcode).Some? ==>
      items[FindItem(items, sid, barcode).value].subtotal == price * items[FindItem(items, sid, barcode).value].quantity
    ensures SumSubtotals(AddUnit(items, sid, barcode, price), sid) == SumSubtotals(items, sid) + price
  {
    match FindItem(items, sid, barcode)
    case Some(i) =>
      var q := items[i].quantity;
      var x := CartItem(sid, barcode, q + 1, price * (q + 1));
      assert AddUnit(items, sid, barcode, price) == items[i := x];
      SumUpdate(items, i, x, sid);
      MulPred(price, q + 1);
    case None =>
      var x := CartItem(sid, barcode, 1, price);
      assert AddUnit(items, sid, barcode, price) == items + [x];
      SumAppend(items, [x], sid);
      assert SumSubtotals([x], sid) == price + SumSubtotals([x][1..], sid);
  }

  /** One unit fewer takes the price off the session's sum. */
  lemma RemoveUnitSum(items: seq<CartItem>, i: nat, price: nat)
    requires i < |items| && items[i].quantity >= 1 && items[i].subtotal == price * items[i].quantity
    ensures SumSubtotals(RemoveUnit(items, i, price), items[i].session) + price == SumSubtotals(items, items[i].session)
  {
    var q := items[i].quantity;
    if q > 1 {
      var x := items[i].(quantity := q - 1, subtotal := price * (q - 1));
      DecrementSum(items, i, x, price);
      assert RemoveUnit(items, i, price) == items[i := x];
    } else {
      assert RemoveUnit(items, i, price) == items[..i] + items[i + 1..];
      SumRemove(items, i, items[i].session);
    }
  }

  /** Lowering a line's quantity by one, at the same price, takes the price off the sum. */
  lemma DecrementSum(items: seq<CartItem>, i: nat, x: CartItem, price: nat)
    requires i < |items| && items[i].quantity > 1 && items[i].subtotal == price * items[i].quantity
    requires x == items[i].(quantity := items[i].quantity - 1, subtotal := price * (items[i].quantity - 1))
    ensures SumSubtotals(items[i := x], items[i].session) + price == SumSubtotals(items, items[i].session)
  {
    var sid := items[i].session;
    SumUpdate(items, i, x, sid);
    MulPred(price, items[i].quantity);
  }

  lemma MulPred(price: nat, q: nat)
    requires q >= 1
    ensures price * q == price * (q - 1) + price
  {
  }

  /** Taking back the unit just added restores the line table. */
  lemma AddThenRemoveUnit(items: seq<CartItem>, sid: nat, barcode: string, price: nat)
    requires FindItem(items, sid, barcode).Some? ==>
      && items[FindItem(items, sid, barcode).value].quantity >= 1
      && items[FindItem(items, sid, barcode).value].subtotal == price * items[FindItem(items, sid, barcode).value].quantity
    ensures FindItem(AddUnit(items, sid, barcode, price), sid, barcode).Some?
    ensures RemoveUnit(AddUnit(items, sid, barcode, price), FindItem(AddUnit(items, sid, barcode, price), sid, barcode).value, price)
         == items
  {
    var added := AddUnit(items, sid, barcode, price);
    match FindItem(items, sid, barcode)
    case Some(i) =>
      FindItemUnique(items, added, sid, barcode, i);
      var q := items[i].quantity;
      assert added[i].quantity == q + 1 && added[i].session == sid && added[i].barcode == barcode;
      var back := RemoveUnit(added, i, price);
      assert back[i] == items[i];
      assert forall j :: 0 <= j < |items| ==> back[j] == items[j];
    case None =>
      FindItemLast(items, sid, barcode, price);
      assert added[..|items|] + added[|items| + 1..] == items;
  }

  /** After a quantity bump the same line is found again. */
  lemma FindItemUnique(items: seq<CartItem>, bumped: seq<CartItem>, sid: nat, barcode: string, i: nat)
    requires FindItem(items, sid, barcode) == Some(i)
    requires |bumped| == |items| && bumped[i].session == sid && bumped[i].barcode == barcode
    requires forall j :: 0 <= j < |items| && j != i ==> bumped[j] == items[j]
    ensures FindItem(bumped, sid, barcode) == Some(i)
  {
    FindItemFirst(items, sid, barcode);
    FindItemIsFirst(bumped, sid, barcode, i);
  }

  /** `FindItem` returns the first matching position. */
  lemma {:induction false} FindItemFirst(items: seq<CartItem>, sid: nat, barcode: string)
    requires FindItem(items, sid, barcode).Some?
    ensures forall j :: 0 <= j < FindItem(items, sid, barcode).value ==> items[j].session != sid || items[j].barcode != barcode
    decreases |items|
  {
    if !(items[0].session == sid && items[0].barcode == barcode) {
      FindItemFirst(items[1..], sid, barcode);
      forall j | 0 < j < FindItem(items, sid, barcode).value
        ensures items[j].session != sid || items[j].barcode != barcode
      {
        assert items[j] == items[1..][j - 1];
      }
    }
  }

  /** A matching position with no match before it is what `FindItem` returns. */
  lemma {:induction false} FindItemIsFirst(items: seq<CartItem>, sid: nat, barcode: string, i: nat)
    requires i < |items| && items[i].session == sid && items[i].barcode == barcode
    requires forall j :: 0 <= j < i ==> items[j].session != sid || items[j].barcode != barcode
    ensures FindItem(items, sid, barcode) == Some(i)
    decreases i
  {
    if i > 0 {
      assert items[0].session != sid || items[0].barcode != barcode;
      FindItemIsFirst(items[1..], sid, barcode, i - 1);
    }
  }

  /** A line appended where none matched is found at the end. */
  lemma FindItemLast(items: seq<CartItem>, sid: nat, barcode: string, price: nat)
    requires FindItem(items, sid, barcode).None?
    ensures FindItem(items + [CartItem(sid, barcode, 1, price)], sid, barcode) == Some(|items|)
  {
    var added := items + [CartItem(sid, barcode, 1, price)];
    FindItemIsFirst(added, sid, barcode, |items|);
  }

  // ---------------------------------------------------------------------------
  // Lines priced by a catalogue

  /** The catalogue's prices by barcode, read from a product table through its
      `price` field; both backends' product models go through this one view. */
  function PriceColumn<P>(products: map<string, P>, price: P -> nat): (prices: map<string, nat>)
    ensures prices.Keys == products.Keys
    ensures forall b :: b in products ==> prices[b] == price(products[b])
  {
    map b | b in products :: price(products[b])
  }

  /** Every line names a product of the catalogue `prices`, holds at least one
      unit, and its subtotal is price times quantity. */
  predicate Priced(items: seq<CartItem>, prices: map<string, nat>) {
    forall i :: 0 <= i < |items| ==>
      items[i].barcode in prices && items[i].quantity >= 1 && items[i].subtotal == prices[items[i].barcode] * items[i].quantity
  }

  /** One more unit at the catalogue price keeps the table priced and one line
      per product; every line is an old one or the scanned product's. */
  lemma AddUnitKeepsLines(items: seq<CartItem>, sid: nat, barcode: string, prices: map<string, nat>)
    requires OneItemPerProduct(items) && Priced(items, prices) && barcode in prices
    ensures var r := AddUnit(items, sid, barcode, prices[barcode]);
      && OneItemPerProduct(r) && Priced(r, prices)
      && forall j :: 0 <= j < |r| ==> r[j] in items || (r[j].session == sid && r[j].barcode == barcode)
  {
    var r := AddUnit(items, sid, barcode, prices[barcode]);
    match FindItem(items, sid, barcode)
    case Some(i) =>
      forall j, k | 0 <= j < k < |r|
        ensures r[j].session != r[k].session || r[j].barcode != r[k].barcode
      {
        assert r[j].session == items[j].session && r[j].barcode == items[j].barcode;
        assert r[k].session == items[k].session && r[k].barcode == items[k].barcode;
      }
      assert forall j :: 0 <= j < |r| && j != i ==> r[j] == items[j];
    case None =>
      forall j, k | 0 <= j < k < |r|
        ensures r[j].session != r[k].session || r[j].barcode != r[k].barcode
      {
        if k == |items| {
          assert r[j] == items[j];
        } else {
          assert r[j] == items[j] && r[k] == items[k];
        }
      }
      assert forall j :: 0 <= j < |items| ==> r[j] == items[j];
  }

  /** One unit fewer at the catalogue price keeps the table priced and one line
      per product; every line is an old one or the shortened one. */
  lemma RemoveUnitKeepsLines(items: seq<CartItem>, i: nat, prices: map<string, nat>)
    requires OneItemPerProduct(items) && Priced(items, prices) && i < |items|
    ensures var r := RemoveUnit(items, i, prices[items[i].barcode]);
      && OneItemPerProduct(r) && Priced(r, prices)
      && forall j :: 0 <= j < |r| ==> r[j] in items || (r[j].session == items[i].session && r[j].barcode == items[i].barcode)
  {
    var r := RemoveUnit(items, i, prices[items[i].barcode]);
    if items[i].quantity > 1 {
      forall j, k | 0 <= j < k < |r|
        ensures r[j].session != r[k].session || r[j].barcode != r[k].barcode
      {
        assert r[j].session == items[j].session && r[j].barcode == items[j].barcode;
        assert r[k].session == items[k].session && r[k].barcode == items[k].barcode;
      }
      forall j | 0 <= j < |r|
        ensures r[j].barcode in prices && r[j].quantity >= 1 && r[j].subtotal == prices[r[j].barcode] * r[j].quantity
        ensures r[j] in items || (r[j].session == items[i].session && r[j].barcode == items[i].barcode)
      {
        if j != i {
          assert r[j] == items[j];
        }
      }
    } else {
      forall j, k | 0 <= j < k < |r|
        ensures r[j].session != r[k].session || r[j].barcode != r[k].barcode
      {
        var j' := if j < i then j else j + 1;
        var k' := if k < i then k else k + 1;
        assert r[j] == items[j'] && r[k] == items[k'];
      }
      forall j | 0 <= j < |r|
        ensures r[j].barcode in prices && r[j].quantity >= 1 && r[j].subtotal == prices[r[j].barcode] * r[j].quantity
        ensures r[j] in items
      {
        assert r[j] == items[if j < i then j else j + 1];
      }
    }
  }

  /** The sum of catalogue price times quantity over the lines of `sid`: the
      total a shopper expects, computed without the stored subtotals. */
  function PriceTotal(items: seq<CartItem>, prices: map<string, nat>, sid: nat): nat
    decreases |items|
  {
    if |items| == 0 then 0
    else
      var x := items[0];
      (if x.session == sid && x.barcode in prices then prices[x.barcode] * x.quantity else 0)
      + PriceTotal(items[1..], prices, sid)
  }

  /** With priced lines, the sum of the stored subtotals is the price total. */
  lemma {:induction false} TotalIsPriceTimesQuantity(items: seq<CartItem>, prices: map<string, nat>, sid: nat)
    requires Priced(items, prices)
    ensures SumSubtotals(items, sid) == PriceTotal(items, prices, sid)
    decreases |items|
  {
    if |items| > 0 {
      assert forall i :: 0 <= i < |items[1..]| ==> items[1..][i] == items[i + 1];
      TotalIsPriceTimesQuantity(items[1..], prices, sid);
    }
  }
}
