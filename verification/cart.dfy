/** The cart store (`useCartStore`): line items keyed by product id, the
    cached item count, the two sheet flags (cart and checkout), and the
    checkout step with its empty-cart guard. */
module Cart {
  import opened Outcomes
  import opened Seqs

  datatype CartItem = CartItem(id: int, title: string, price: real, image: string, quantity: int)

  /** What `addItem` receives: the product fields a line item copies. */
  datatype ProductRef = ProductRef(id: int, title: string, price: real, image: string)

  datatype State = State(items: seq<CartItem>, isOpen: bool, isCheckoutOpen: bool, itemCount: int)

  const Initial: State := State([], false, false, 0)

  // ---------------------------------------------------------------------
  // Quantities
  // ---------------------------------------------------------------------

  /** `items.reduce((total, item) => total + item.quantity, 0)`. */
  function TotalQuantity(items: seq<CartItem>): int
    decreases |items|
  {
    if |items| == 0 then 0 else items[0].quantity + TotalQuantity(items[1..])
  }

  /** How many units of product `id` the cart holds, over all its lines. */
  function QuantityOf(items: seq<CartItem>, id: int): int
    decreases |items|
  {
    if |items| == 0 then 0
    else (if items[0].id == id then items[0].quantity else 0) + QuantityOf(items[1..], id)
  }

  /** The cart has a line for `id` (`items.find(item => item.id === id)`
      finds one). */
  predicate HasItem(items: seq<CartItem>, id: int)
  {
    exists i :: 0 <= i < |items| && items[i].id == id
  }

  /** At most one line per product id. */
  predicate UniqueIds(items: seq<CartItem>)
  {
    forall i, j :: 0 <= i < j < |items| ==> items[i].id != items[j].id
  }

  /** The store's invariant: `itemCount` is the sum of the quantities, each
      product has one line, and every line holds at least one unit. */
  predicate Valid(s: State)
  {
    && s.itemCount == TotalQuantity(s.items)
    && UniqueIds(s.items)
    && forall i :: 0 <= i < |s.items| ==> s.items[i].quantity >= 1
  }

  lemma InitialValid()
    ensures Valid(Initial) && Initial.itemCount == 0
  {
  }

  lemma {:induction false} TotalAppend(a: seq<CartItem>, b: seq<CartItem>)
    ensures TotalQuantity(a + b) == TotalQuantity(a) + TotalQuantity(b)
    decreases |a|
  {
    if |a| == 0 {
      assert a + b == b;
    } else {
      assert (a + b)[1..] == a[1..] + b;
      TotalAppend(a[1..], b);
    }
  }

  lemma {:induction false} QuantityOfAppend(a: seq<CartItem>, b: seq<CartItem>, id: int)
    ensures QuantityOf(a + b, id) == QuantityOf(a, id) + QuantityOf(b, id)
    decreases |a|
  {
    if |a| == 0 {
      assert a + b == b;
    } else {
      assert (a + b)[1..] == a[1..] + b;
      QuantityOfAppend(a[1..], b, id);
    }
  }

  /** A product without a line has quantity 0. */
  lemma {:induction false} QuantityOfAbsent(items: seq<CartItem>, id: int)
    requires !HasItem(items, id)
    ensures QuantityOf(items, id) == 0
    decreases |items|
  {
    if |items| > 0 {
      assert items[0].id != id;
      assert !HasItem(items[1..], id) by {
        forall i | 0 <= i < |items[1..]|
          ensures items[1..][i].id != id
        {
          assert items[1..][i] == items[i + 1];
        }
      }
      QuantityOfAbsent(items[1..], id);
    }
  }

  /** With unique ids, a product's quantity is the quantity on its one line. */
  lemma {:induction false} QuantityOfUnique(items: seq<CartItem>, id: int, k: int)
    requires UniqueIds(items) && 0 <= k < |items| && items[k].id == id
    ensures QuantityOf(items, id) == items[k].quantity
    decreases |items|
  {
    if k == 0 {
      assert !HasItem(items[1..], id) by {
        forall i | 0 <= i < |items[1..]|
          ensures items[1..][i].id != id
        {
          assert items[1..][i] == items[i + 1];
        }
      }
      QuantityOfAbsent(items[1..], id);
    } else {
      assert items[0].id != id;
      assert items[1..][k - 1] == items[k];
      QuantityOfUnique(items[1..], id, k - 1);
    }
  }

  /** `item => item.id !== id`, the `removeItem` filter. */
  function Others(id: int): CartItem -> bool
  {
    (it: CartItem) => it.id != id
  }

  /** The total splits into the product's own units and everyone else's. */
  lemma {:induction false} TotalSplit(items: seq<CartItem>, id: int)
    ensures TotalQuantity(items) == QuantityOf(items, id) + TotalQuantity(Filter(items, Others(id)))
    decreases |items|
  {
    if |items| > 0 {
      TotalSplit(items[1..], id);
    }
  }

  /** Removing a product's lines does not change any other product's
      quantity. */
  lemma {:induction false} OthersKeepQuantities(items: seq<CartItem>, id: int, other: int)
    requires other != id
    ensures QuantityOf(Filter(items, Others(id)), other) == QuantityOf(items, other)
    decreases |items|
  {
    if |items| > 0 {
      OthersKeepQuantities(items[1..], id, other);
    }
  }

  /** The `map` of `addItem` and `updateQuantity`: every line of product `id`
      gets quantity `f(quantity)`, and every other line stays as it is, in
      its place. */
  function Retally(items: seq<CartItem>, id: int, f: int -> int): (r: seq<CartItem>)
    ensures |r| == |items|
    ensures forall i :: 0 <= i < |items| ==> r[i].id == items[i].id
    ensures forall i :: 0 <= i < |items| && items[i].id == id ==> r[i] == items[i].(quantity := f(items[i].quantity))
    ensures forall i :: 0 <= i < |items| && items[i].id != id ==> r[i] == items[i]
    decreases |items|
  {
    if |items| == 0 then []
    else
      var head := if items[0].id == id then items[0].(quantity := f(items[0].quantity)) else items[0];
      [head] + Retally(items[1..], id, f)
  }

  /** Retallying one product leaves everyone else's lines, hence their
      quantities, as they were. */
  lemma {:induction false} RetallyKeepsOthers(items: seq<CartItem>, id: int, f: int -> int)
    ensures Filter(Retally(items, id, f), Others(id)) == Filter(items, Others(id))
    ensures forall other :: other != id ==> QuantityOf(Retally(items, id, f), other) == QuantityOf(items, other)
    decreases |items|
  {
    if |items| > 0 {
      var r := Retally(items, id, f);
      assert r[1..] == Retally(items[1..], id, f);
      RetallyKeepsOthers(items[1..], id, f);
    }
  }

  /** With unique ids and a line for `id` at `k`, retallying moves the total
      by exactly the change on that line. */
  lemma RetallyTotal(items: seq<CartItem>, id: int, f: int -> int, k: int)
    requires UniqueIds(items) && 0 <= k < |items| && items[k].id == id
    ensures UniqueIds(Retally(items, id, f))
    ensures QuantityOf(Retally(items, id, f), id) == f(items[k].quantity)
    ensures TotalQuantity(Retally(items, id, f)) == TotalQuantity(items) - items[k].quantity + f(items[k].quantity)
  {
    var r := Retally(items, id, f);
    QuantityOfUnique(items, id, k);
    QuantityOfUnique(r, id, k);
    TotalSplit(items, id);
    TotalSplit(r, id);
    RetallyKeepsOthers(items, id, f);
  }

  // ---------------------------------------------------------------------
  // Actions
  // ---------------------------------------------------------------------

  function PlusOne(): int -> int
  {
    (q: int) => q + 1
  }

  function SetTo(quantity: int): int -> int
  {
    (q: int) => quantity
  }

  /** `addItem`: one more unit of a product already in the cart, or a new
      line with quantity 1 at the end; then the item count is recomputed. */
  function AddItem(s: State, p: ProductRef): (r: State)
    ensures r.isOpen == s.isOpen && r.isCheckoutOpen == s.isCheckoutOpen
    ensures r.itemCount == TotalQuantity(r.items)
    ensures HasItem(s.items, p.id) ==> r.items == Retally(s.items, p.id, PlusOne())
    ensures !HasItem(s.items, p.id) ==>
      && |r.items| == |s.items| + 1 && r.items[..|s.items|] == s.items
      && r.items[|s.items|] == CartItem(p.id, p.title, p.price, p.image, 1)
  {
    var items :=
      if HasItem(s.items, p.id) then Retally(s.items, p.id, PlusOne())
      else s.items + [CartItem(p.id, p.title, p.price, p.image, 1)];
    s.(items := items, itemCount := TotalQuantity(items))
  }

  /** `addItem` keeps the invariant, adds exactly one unit of that product
      and no unit of any other, and so raises the item count by one. */
  lemma AddItemCounts(s: State, p: ProductRef)
    requires Valid(s)
    ensures Valid(AddItem(s, p))
    ensures AddItem(s, p).itemCount == s.itemCount + 1
    ensures QuantityOf(AddItem(s, p).items, p.id) == QuantityOf(s.items, p.id) + 1
    ensures forall other :: other != p.id ==> QuantityOf(AddItem(s, p).items, other) == QuantityOf(s.items, other)
  {
    if HasItem(s.items, p.id) {
      var k :| 0 <= k < |s.items| && s.items[k].id == p.id;
      AddToLine(s.items, p.id, k);
    } else {
      AppendLine(s.items, CartItem(p.id, p.title, p.price, p.image, 1));
    }
  }

  lemma AddToLine(items: seq<CartItem>, id: int, k: int)
    requires UniqueIds(items) && 0 <= k < |items| && items[k].id == id
    requires forall i :: 0 <= i < |items| ==> items[i].quantity >= 1
    ensures UniqueIds(Retally(items, id, PlusOne()))
    ensures forall i :: 0 <= i < |items| ==> Retally(items, id, PlusOne())[i].quantity >= 1
    ensures TotalQuantity(Retally(items, id, PlusOne())) == TotalQuantity(items) + 1
    ensures QuantityOf(Retally(items, id, PlusOne()), id) == QuantityOf(items, id) + 1
    ensures forall other :: other != id ==> QuantityOf(Retally(items, id, PlusOne()), other) == QuantityOf(items, other)
  {
    var r := Retally(items, id, PlusOne());
    RetallyTotal(items, id, PlusOne(), k);
    QuantityOfUnique(items, id, k);
    RetallyKeepsOthers(items, id, PlusOne());
    forall i | 0 <= i < |items|
      ensures r[i].quantity >= 1
    {
      if items[i].id == id {
        assert r[i].quantity == PlusOne()(items[i].quantity);
      }
    }
  }

  lemma AppendLine(items: seq<CartItem>, line: CartItem)
    requires UniqueIds(items) && !HasItem(items, line.id) && line.quantity == 1
    ensures UniqueIds(items + [line])
    ensures TotalQuantity(items + [line]) == TotalQuantity(items) + 1
    ensures QuantityOf(items + [line], line.id) == QuantityOf(items, line.id) + 1
    ensures forall other :: other != line.id ==> QuantityOf(items + [line], other) == QuantityOf(items, other)
  {
    TotalAppend(items, [line]);
    QuantityOfAbsent(items, line.id);
    forall other
      ensures QuantityOf(items + [line], other) == QuantityOf(items, other) + (if other == line.id then 1 else 0)
    {
      QuantityOfAppend(items, [line], other);
    }
  }

  /** `removeItem`: drops every line of the product, keeping the rest in
      order, and recomputes the item count. */
  function RemoveItem(s: State, id: int): (r: State)
    ensures r.isOpen == s.isOpen && r.isCheckoutOpen == s.isCheckoutOpen
    ensures r.itemCount == TotalQuantity(r.items)
    ensures IsSubseq(r.items, s.items)
    ensures forall it :: multiset(r.items)[it] == if it.id != id then multiset(s.items)[it] else 0
    ensures !HasItem(r.items, id)
  {
    var items := Filter(s.items, Others(id));
    assert forall i :: 0 <= i < |items| ==> items[i].id != id by {
      forall i | 0 <= i < |items|
        ensures items[i].id != id
      {
        assert items[i] in multiset(items);
      }
    }
    s.(items := items, itemCount := TotalQuantity(items))
  }

  lemma {:induction false} SubseqKeepsUnique(a: seq<CartItem>, b: seq<CartItem>)
    requires IsSubseq(a, b) && UniqueIds(b)
    ensures UniqueIds(a)
    ensures forall i :: 0 <= i < |a| ==> a[i] in b
    decreases |b|
  {
    if |a| > 0 {
      assert UniqueIds(b[1..]) by {
        forall i, j | 0 <= i < j < |b[1..]|
          ensures b[1..][i].id != b[1..][j].id
        {
          assert b[1..][i] == b[i + 1] && b[1..][j] == b[j + 1];
        }
      }
      if a[0] == b[0] && IsSubseq(a[1..], b[1..]) {
        SubseqKeepsUnique(a[1..], b[1..]);
        forall j | 1 <= j < |a|
          ensures a[0].id != a[j].id
        {
          assert a[j] == a[1..][j - 1];
          var m :| 0 <= m < |b[1..]| && b[1..][m] == a[j];
          assert b[m + 1] == a[j];
        }
        forall i | 0 <= i < |a|
          ensures a[i] in b
        {
          if i > 0 {
            assert a[i] == a[1..][i - 1];
          }
        }
      } else {
        SubseqKeepsUnique(a, b[1..]);
      }
    }
  }

  /** `removeItem` keeps the invariant, takes away all units of the product
      and no unit of any other, lowering the count by the product's
      quantity. */
  lemma RemoveItemCounts(s: State, id: int)
    requires Valid(s)
    ensures Valid(RemoveItem(s, id))
    ensures RemoveItem(s, id).itemCount == s.itemCount - QuantityOf(s.items, id)
    ensures QuantityOf(RemoveItem(s, id).items, id) == 0
    ensures forall other :: other != id ==> QuantityOf(RemoveItem(s, id).items, other) == QuantityOf(s.items, other)
  {
    var r := RemoveItem(s, id);
    TotalSplit(s.items, id);
    QuantityOfAbsent(r.items, id);
    SubseqKeepsUnique(r.items, s.items);
    forall other | other != id
      ensures QuantityOf(r.items, other) == QuantityOf(s.items, other)
    {
      OthersKeepQuantities(s.items, id, other);
    }
  }

  /** `updateQuantity`: a quantity of 0 or less removes the product;
      otherwise every line of the product takes that quantity. */
  function UpdateQuantity(s: State, id: int, quantity: int): (r: State)
    ensures quantity <= 0 ==> r == RemoveItem(s, id)
    ensures quantity > 0 ==> r.items == Retally(s.items, id, SetTo(quantity)) && r.itemCount == TotalQuantity(r.items)
    ensures quantity > 0 && !HasItem(s.items, id) ==> r.items == s.items
    ensures r.isOpen == s.isOpen && r.isCheckoutOpen == s.isCheckoutOpen
  {
    if quantity <= 0 then RemoveItem(s, id)
    else
      var items := Retally(s.items, id, SetTo(quantity));
      assert !HasItem(s.items, id) ==> items == s.items;
      s.(items := items, itemCount := TotalQuantity(items))
  }

  /** `updateQuantity` keeps the invariant; a positive quantity becomes the
      product's quantity when it has a line, and no other product changes. */
  lemma UpdateQuantityCounts(s: State, id: int, quantity: int)
    requires Valid(s)
    ensures Valid(UpdateQuantity(s, id, quantity))
    ensures quantity > 0 && HasItem(s.items, id) ==> QuantityOf(UpdateQuantity(s, id, quantity).items, id) == quantity
    ensures quantity > 0 && HasItem(s.items, id) ==>
      UpdateQuantity(s, id, quantity).itemCount == s.itemCount - QuantityOf(s.items, id) + quantity
    ensures forall other :: other != id ==> QuantityOf(UpdateQuantity(s, id, quantity).items, other) == QuantityOf(s.items, other)
  {
    if quantity <= 0 {
      RemoveItemCounts(s, id);
    } else {
      SetQuantityCounts(s.items, id, quantity);
    }
  }

  /** Setting a product's quantity on a valid list of lines: the lines stay
      valid, the product's quantity becomes the new one when it has a line
      (the list is unchanged when it has none), and no other product
      changes. */
  lemma SetQuantityCounts(items: seq<CartItem>, id: int, quantity: int)
    requires UniqueIds(items) && forall i :: 0 <= i < |items| ==> items[i].quantity >= 1
    requires quantity > 0
    ensures UniqueIds(Retally(items, id, SetTo(quantity)))
    ensures forall i :: 0 <= i < |items| ==> Retally(items, id, SetTo(quantity))[i].quantity >= 1
    ensures HasItem(items, id) ==> QuantityOf(Retally(items, id, SetTo(quantity)), id) == quantity
    ensures HasItem(items, id) ==>
      TotalQuantity(Retally(items, id, SetTo(quantity))) == TotalQuantity(items) - QuantityOf(items, id) + quantity
    ensures !HasItem(items, id) ==> Retally(items, id, SetTo(quantity)) == items
    ensures forall other :: other != id ==> QuantityOf(Retally(items, id, SetTo(quantity)), other) == QuantityOf(items, other)
  {
    RetallyKeepsOthers(items, id, SetTo(quantity));
    SetToKeepsPositive(items, id, quantity);
    if HasItem(items, id) {
      var k :| 0 <= k < |items| && items[k].id == id;
      SetQuantityOnLine(items, id, quantity, k);
    } else {
      RetallyAbsent(items, id, SetTo(quantity));
    }
  }

  lemma SetQuantityOnLine(items: seq<CartItem>, id: int, quantity: int, k: int)
    requires UniqueIds(items) && 0 <= k < |items| && items[k].id == id
    ensures UniqueIds(Retally(items, id, SetTo(quantity)))
    ensures QuantityOf(Retally(items, id, SetTo(quantity)), id) == quantity
    ensures TotalQuantity(Retally(items, id, SetTo(quantity))) == TotalQuantity(items) - QuantityOf(items, id) + quantity
  {
    RetallyTotal(items, id, SetTo(quantity), k);
    QuantityOfUnique(items, id, k);
    assert SetTo(quantity)(items[k].quantity) == quantity;
  }

  /** Retallying a product with no line changes nothing. */
  lemma RetallyAbsent(items: seq<CartItem>, id: int, f: int -> int)
    requires !HasItem(items, id)
    ensures Retally(items, id, f) == items
  {
    var r := Retally(items, id, f);
    assert forall i :: 0 <= i < |items| ==> r[i] == items[i];
  }

  lemma SetToKeepsPositive(items: seq<CartItem>, id: int, quantity: int)
    requires quantity > 0 && forall i :: 0 <= i < |items| ==> items[i].quantity >= 1
    ensures forall i :: 0 <= i < |items| ==> Retally(items, id, SetTo(quantity))[i].quantity >= 1
  {
    var r := Retally(items, id, SetTo(quantity));
    forall i | 0 <= i < |items|
      ensures r[i].quantity >= 1
    {
      if items[i].id == id {
        assert r[i].quantity == SetTo(quantity)(items[i].quantity);
      }
    }
  }

  /** `clearCart`: no lines, count 0, sheets untouched. */
  function ClearCart(s: State): (r: State)
    ensures Valid(r) && r.itemCount == 0
    ensures forall id :: QuantityOf(r.items, id) == 0
    ensures r.isOpen == s.isOpen && r.isCheckoutOpen == s.isCheckoutOpen
  {
    s.(items := [], itemCount := 0)
  }

  function OpenCart(s: State): (r: State)
    ensures r.isOpen && r.items == s.items && r.itemCount == s.itemCount && r.isCheckoutOpen == s.isCheckoutOpen
  {
    s.(isOpen := true)
  }

  function CloseCart(s: State): (r: State)
    ensures !r.isOpen && r.items == s.items && r.itemCount == s.itemCount && r.isCheckoutOpen == s.isCheckoutOpen
  {
    s.(isOpen := false)
  }

  /** `openCheckout`: the checkout sheet replaces the cart sheet. */
  function OpenCheckout(s: State): (r: State)
    ensures r.isCheckoutOpen && !r.isOpen && r.items == s.items && r.itemCount == s.itemCount
  {
    s.(isCheckoutOpen := true, isOpen := false)
  }

  function CloseCheckout(s: State): (r: State)
    ensures !r.isCheckoutOpen && r.isOpen == s.isOpen && r.items == s.items && r.itemCount == s.itemCount
  {
    s.(isCheckoutOpen := false)
  }

  /** How `checkout` ends: refused on an empty cart, an order placed, or the
      payment error rethrown to the caller. */
  datatype CheckoutOutcome = CartEmpty | OrderPlaced | PaymentFailed(message: string)

  /** `checkout` once the simulated payment has settled (`payment` stands
      for its random outcome). An empty cart is refused before any payment;
      a successful payment empties the cart and closes both sheets; a failed
      one leaves the store as it was. */
  function Checkout(s: State, payment: ApiResult<()>): (r: (State, CheckoutOutcome))
    ensures |s.items| == 0 ==> r == (s, CartEmpty)
    ensures |s.items| > 0 && payment.Ok? ==>
      && r.1 == OrderPlaced && r.0.items == [] && r.0.itemCount == 0
      && !r.0.isOpen && !r.0.isCheckoutOpen && Valid(r.0)
    ensures |s.items| > 0 && payment.Failed? ==> r == (s, PaymentFailed(payment.message))
  {
    if |s.items| == 0 then (s, CartEmpty)
    else match payment
      case Ok(_) => (State([], false, false, 0), OrderPlaced)
      case Failed(message) => (s, PaymentFailed(message))
  }

}
