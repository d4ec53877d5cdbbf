/**
  The client's cart: the running total, adding a menu item, removing an entry,
  changing a quantity, and the guard and payload of placing the order. Every
  operation is a functional update that returns the new cart, as the React
  state setters do. Prices are integers in minor currency units.
*/
module Cart {
  import opened Outcomes
  import OrderRules

  /** The part of a menu item the cart copies. */
  datatype MenuItem = MenuItem(menuId: string, name: string, price: int)

  datatype CartItem = CartItem(id: string, name: string, price: int, quantity: int)

  function LineTotal(it: CartItem): int {
    it.price * it.quantity
  }

  /** Setting an entry's quantity changes its line total by its price times the change. */
  lemma LineTotalChange(it: CartItem, quantity: int)
    ensures LineTotal(it.(quantity := quantity)) == LineTotal(it) + it.price * (quantity - it.quantity)
  {
    assert it.price * quantity == it.price * it.quantity + it.price * (quantity - it.quantity);
  }

  /** One more of an entry adds its price to its line total. */
  lemma OneMore(it: CartItem)
    ensures LineTotal(it.(quantity := it.quantity + 1)) == LineTotal(it) + it.price
  {
  }

  /** `totalCartPrice`: the reduce that adds price × quantity entry by entry, from 0. */
  function TotalPrice(cart: seq<CartItem>): (total: int)
    ensures cart == [] ==> total == 0
    ensures (forall i :: 0 <= i < |cart| ==> cart[i].price >= 0 && cart[i].quantity >= 0) ==> total >= 0
  {
    if cart == [] then 0
    else TotalPrice(cart[..|cart| - 1]) + LineTotal(cart[|cart| - 1])
  }

  /** A cart of one entry totals that entry's line total. */
  lemma TotalPriceSingle(it: CartItem)
    ensures TotalPrice([it]) == LineTotal(it)
  {
    assert [it][..0] == [];
  }

  /** The total of two carts laid end to end is the sum of their totals. */
  lemma {:induction false} TotalPriceAppend(a: seq<CartItem>, b: seq<CartItem>)
    ensures TotalPrice(a + b) == TotalPrice(a) + TotalPrice(b)
    decreases |b|
  {
    if b == [] {
      assert a + b == a;
    } else {
      var b' := b[..|b| - 1];
      assert (a + b)[..|a + b| - 1] == a + b';
      assert (a + b)[|a + b| - 1] == b[|b| - 1];
      TotalPriceAppend(a, b');
    }
  }

  /** A cart is the entries before `k`, entry `k`, and the entries after it. */
  lemma SplitAt(cart: seq<CartItem>, k: nat)
    requires k < |cart|
    ensures cart == cart[..k] + [cart[k]] + cart[k + 1..]
  {
  }

  /** Replacing entry `k` changes the total by as much as that entry's line total changes. */
  lemma TotalPriceReplace(cart: seq<CartItem>, k: nat, it: CartItem)
    requires k < |cart|
    ensures TotalPrice(cart[k := it]) == TotalPrice(cart) - LineTotal(cart[k]) + LineTotal(it)
  {
    var before, after := cart[..k], cart[k + 1..];
    SplitAt(cart, k);
    SplitAt(cart[k := it], k);
    assert cart[k := it][..k] == before && cart[k := it][k + 1..] == after;
    TotalPriceAppend(before + [cart[k]], after);
    TotalPriceAppend(before, [cart[k]]);
    TotalPriceAppend(before + [it], after);
    TotalPriceAppend(before, [it]);
    TotalPriceSingle(cart[k]);
    TotalPriceSingle(it);
  }

  /** Setting the quantity of entry `k` changes the total by its price times the change in quantity. */
  lemma TotalPriceSetQuantity(cart: seq<CartItem>, k: nat, quantity: int)
    requires k < |cart|
    ensures TotalPrice(cart[k := cart[k].(quantity := quantity)]) ==
      TotalPrice(cart) + cart[k].price * (quantity - cart[k].quantity)
  {
    TotalPriceReplace(cart, k, cart[k].(quantity := quantity));
    LineTotalChange(cart[k], quantity);
  }

  /** One more of entry `k` raises the total by its price. */
  lemma TotalPriceIncrement(cart: seq<CartItem>, k: nat)
    requires k < |cart|
    ensures TotalPrice(cart[k := cart[k].(quantity := cart[k].quantity + 1)]) ==
      TotalPrice(cart) + cart[k].price
  {
    TotalPriceReplace(cart, k, cart[k].(quantity := cart[k].quantity + 1));
    OneMore(cart[k]);
  }

  /** Removing entry `k` lowers the total by its line total. */
  lemma TotalPriceRemoveAt(cart: seq<CartItem>, k: nat)
    requires k < |cart|
    ensures TotalPrice(cart[..k] + cart[k + 1..]) == TotalPrice(cart) - LineTotal(cart[k])
  {
    var before, after := cart[..k], cart[k + 1..];
    SplitAt(cart, k);
    TotalPriceAppend(before + [cart[k]], after);
    TotalPriceAppend(before, [cart[k]]);
    TotalPriceAppend(before, after);
    TotalPriceSingle(cart[k]);
  }

  predicate HasId(cart: seq<CartItem>, id: string) {
    exists i :: 0 <= i < |cart| && cart[i].id == id
  }

  predicate UniqueIds(cart: seq<CartItem>) {
    forall i, j :: 0 <= i < j < |cart| ==> cart[i].id != cart[j].id
  }

  predicate QuantitiesPositive(cart: seq<CartItem>) {
    forall i :: 0 <= i < |cart| ==> cart[i].quantity >= 1
  }

  /** What every cart built by the operations below satisfies. */
  predicate CartValid(cart: seq<CartItem>) {
    UniqueIds(cart) && QuantitiesPositive(cart)
  }

  function IncrementWhere(cart: seq<CartItem>, id: string): seq<CartItem> {
    seq(|cart|, i requires 0 <= i < |cart| =>
      if cart[i].id == id then cart[i].(quantity := cart[i].quantity + 1) else cart[i])
  }

  function SetQuantityWhere(cart: seq<CartItem>, id: string, quantity: int): seq<CartItem> {
    seq(|cart|, i requires 0 <= i < |cart| =>
      if cart[i].id == id then cart[i].(quantity := quantity) else cart[i])
  }

  /**
    `addToCart`: an item already in the cart gets one more of it in place; a new
    item is appended with quantity 1. Either way the item is then in the cart and
    the cart stays valid.
  */
  function AddToCart(cart: seq<CartItem>, item: MenuItem): (r: seq<CartItem>)
    ensures HasId(r, item.menuId)
    ensures HasId(cart, item.menuId) ==>
      && |r| == |cart|
      && (forall i :: 0 <= i < |cart| && cart[i].id != item.menuId ==> r[i] == cart[i])
      && (forall i :: 0 <= i < |cart| && cart[i].id == item.menuId ==>
            r[i] == cart[i].(quantity := cart[i].quantity + 1))
    ensures !HasId(cart, item.menuId) ==> r == cart + [CartItem(item.menuId, item.name, item.price, 1)]
    ensures CartValid(cart) ==> CartValid(r)
  {
    if HasId(cart, item.menuId) then
      var r := IncrementWhere(cart, item.menuId);
      assert forall i :: 0 <= i < |cart| ==> r[i].id == cart[i].id;
      r
    else
      var r := cart + [CartItem(item.menuId, item.name, item.price, 1)];
      assert r[|cart|].id == item.menuId;
      r
  }

  /** `removeFromCart`: the filter that drops every entry with the id. */
  function RemoveFromCart(cart: seq<CartItem>, id: string): (r: seq<CartItem>)
    ensures !HasId(r, id)
    ensures forall x :: x in r <==> x in cart && x.id != id
    ensures |r| <= |cart|
    ensures CartValid(cart) ==> CartValid(r)
  {
    if cart == [] then []
    else if cart[0].id == id then RemoveFromCart(cart[1..], id)
    else [cart[0]] + RemoveFromCart(cart[1..], id)
  }

  /** Removing keeps the order of what remains: it distributes over concatenation. */
  lemma {:induction false} RemoveFromCartAppend(a: seq<CartItem>, b: seq<CartItem>, id: string)
    ensures RemoveFromCart(a + b, id) == RemoveFromCart(a, id) + RemoveFromCart(b, id)
  {
    if a == [] {
      assert a + b == b;
    } else {
      assert (a + b)[0] == a[0] && (a + b)[1..] == a[1..] + b;
      RemoveFromCartAppend(a[1..], b, id);
    }
  }

  /** Removing an id that is not in the cart changes nothing. */
  lemma {:induction false} RemoveAbsent(cart: seq<CartItem>, id: string)
    requires !HasId(cart, id)
    ensures RemoveFromCart(cart, id) == cart
  {
    if cart != [] {
      assert !HasId(cart[1..], id) by {
        forall i | 0 <= i < |cart[1..]| ensures cart[1..][i].id != id {
          assert cart[1..][i] == cart[i + 1];
        }
      }
      RemoveAbsent(cart[1..], id);
    }
  }

  /**
    In a cart with unique ids, removing entry `k` by its id leaves the entries
    before and after it, in order.
  */
  lemma RemoveEntry(cart: seq<CartItem>, k: nat)
    requires UniqueIds(cart) && k < |cart|
    ensures RemoveFromCart(cart, cart[k].id) == cart[..k] + cart[k + 1..]
  {
    var id := cart[k].id;
    var before, after := cart[..k], cart[k + 1..];
    assert cart == before + [cart[k]] + after;
    assert !HasId(before, id) by {
      forall i | 0 <= i < |before| ensures before[i].id != id {
        assert before[i] == cart[i];
      }
    }
    assert !HasId(after, id) by {
      forall i | 0 <= i < |after| ensures after[i].id != id {
        assert after[i] == cart[k + 1 + i];
      }
    }
    RemoveFromCartAppend(before + [cart[k]], after, id);
    RemoveFromCartAppend(before, [cart[k]], id);
    RemoveAbsent(before, id);
    RemoveAbsent(after, id);
    assert RemoveFromCart([cart[k]], id) == [];
    assert before + [] == before;
  }

  /** Removing an entry of a cart with unique ids lowers the total by exactly its line total. */
  lemma RemoveEntryTotal(cart: seq<CartItem>, k: nat)
    requires UniqueIds(cart) && k < |cart|
    ensures TotalPrice(RemoveFromCart(cart, cart[k].id)) == TotalPrice(cart) - LineTotal(cart[k])
  {
    RemoveEntry(cart, k);
    TotalPriceRemoveAt(cart, k);
  }

  /**
    `updateQuantity`: a quantity of 0 or less removes the entry; any other
    quantity replaces the entry's quantity in place.
  */
  function UpdateQuantity(cart: seq<CartItem>, id: string, quantity: int): (r: seq<CartItem>)
    ensures quantity <= 0 ==> r == RemoveFromCart(cart, id)
    ensures quantity > 0 ==>
      && |r| == |cart|
      && (forall i :: 0 <= i < |cart| && cart[i].id != id ==> r[i] == cart[i])
      && (forall i :: 0 <= i < |cart| && cart[i].id == id ==> r[i] == cart[i].(quantity := quantity))
    ensures CartValid(cart) ==> CartValid(r)
  {
    if quantity <= 0 then RemoveFromCart(cart, id)
    else SetQuantityWhere(cart, id, quantity)
  }

  /** In a cart with unique ids, adding an item already present increments its one entry. */
  lemma AddExistingEntry(cart: seq<CartItem>, item: MenuItem, k: nat)
    requires UniqueIds(cart) && k < |cart| && cart[k].id == item.menuId
    ensures AddToCart(cart, item) == cart[k := cart[k].(quantity := cart[k].quantity + 1)]
  {
    var r := AddToCart(cart, item);
    assert HasId(cart, item.menuId);
    forall i | 0 <= i < |cart| && i != k ensures r[i] == cart[i] {
      assert cart[i].id != cart[k].id;
    }
  }

  /** Adding an item already in the cart raises the total by the price recorded in its entry. */
  lemma AddExistingTotal(cart: seq<CartItem>, item: MenuItem, k: nat)
    requires UniqueIds(cart) && k < |cart| && cart[k].id == item.menuId
    ensures TotalPrice(AddToCart(cart, item)) == TotalPrice(cart) + cart[k].price
  {
    AddExistingEntry(cart, item, k);
    TotalPriceIncrement(cart, k);
  }

  /** Adding a new item raises the total by its price. */
  lemma AddNewTotal(cart: seq<CartItem>, item: MenuItem)
    requires !HasId(cart, item.menuId)
    ensures TotalPrice(AddToCart(cart, item)) == TotalPrice(cart) + item.price
  {
    var added := CartItem(item.menuId, item.name, item.price, 1);
    TotalPriceAppend(cart, [added]);
    TotalPriceSingle(added);
  }

  /** In a cart with unique ids, a positive quantity replaces the quantity of the one matching entry. */
  lemma UpdateQuantityEntry(cart: seq<CartItem>, k: nat, quantity: int)
    requires UniqueIds(cart) && k < |cart| && quantity > 0
    ensures UpdateQuantity(cart, cart[k].id, quantity) == cart[k := cart[k].(quantity := quantity)]
  {
    var r := UpdateQuantity(cart, cart[k].id, quantity);
    forall i | 0 <= i < |cart| && i != k ensures r[i] == cart[i] {
      assert cart[i].id != cart[k].id;
    }
  }

  /** A positive new quantity changes the total by the entry's price times the change in quantity. */
  lemma UpdateQuantityTotal(cart: seq<CartItem>, k: nat, quantity: int)
    requires UniqueIds(cart) && k < |cart| && quantity > 0
    ensures TotalPrice(UpdateQuantity(cart, cart[k].id, quantity)) ==
      TotalPrice(cart) + cart[k].price * (quantity - cart[k].quantity)
  {
    UpdateQuantityEntry(cart, k, quantity);
    TotalPriceSetQuantity(cart, k, quantity);
  }

  // ---------------------------------------------------------------------------
  // Placing the order from the cart

  /** The body of POST /api/orders the client sends. */
  datatype OrderRequest = OrderRequest(items: seq<OrderRules.LineItem>, total: int, tableNumber: string)

  /** What placing the order does: the request sent, if any, and the cart afterwards. */
  datatype Submission = Submission(request: Option<OrderRequest>, cartAfter: seq<CartItem>)

  /** Each cart entry as the line item {id, name, price, quantity} the server stores. */
  function OrderItems(cart: seq<CartItem>): (items: seq<OrderRules.LineItem>)
    ensures |items| == |cart|
    ensures forall i :: 0 <= i < |cart| ==>
      items[i] == OrderRules.LineItem(cart[i].id, cart[i].name, cart[i].price, cart[i].quantity)
  {
    seq(|cart|, i requires 0 <= i < |cart| =>
      OrderRules.LineItem(cart[i].id, cart[i].name, cart[i].price, cart[i].quantity))
  }

  /**
    `placeOrder`: nothing is sent, and the cart kept, when the cart is empty, the
    user is not signed in or the table number is empty; otherwise the request
    carries the cart's entries and its total, and the cart is emptied only when the
    server accepts (`serverAccepts` stands for the response status).
  */
  function SubmitOrder(cart: seq<CartItem>, authenticated: bool, tableNumber: string,
                       serverAccepts: bool): (s: Submission)
    ensures s.request.None? <==> |cart| == 0 || !authenticated || tableNumber == ""
    ensures s.request.None? ==> s.cartAfter == cart
    ensures s.request.Some? ==>
      && s.request.value.total == TotalPrice(cart)
      && s.request.value.tableNumber == tableNumber
      && |s.request.value.items| == |cart|
      && (forall i :: 0 <= i < |cart| ==>
            var it := s.request.value.items[i];
            it.itemId == cart[i].id && it.name == cart[i].name
            && it.price == cart[i].price && it.quantity == cart[i].quantity)
      && s.cartAfter == (if serverAccepts then [] else cart)
  {
    if |cart| == 0 || !authenticated || tableNumber == "" then Submission(None, cart)
    else
      var request := OrderRequest(OrderItems(cart), TotalPrice(cart), tableNumber);
      Submission(Some(request), if serverAccepts then [] else cart)
  }

  /** Entries with an id, a name and a positive quantity become line items the item schema accepts. */
  lemma OrderItemsAccepted(cart: seq<CartItem>)
    requires QuantitiesPositive(cart)
    requires forall i :: 0 <= i < |cart| ==> cart[i].id != "" && cart[i].name != ""
    ensures forall i :: 0 <= i < |cart| ==> OrderRules.ItemAccepted(OrderItems(cart)[i])
  {
  }

  /**
    The entries and total of a cart whose entries have an id, a name and a
    positive quantity are placed by the server: the stored order is exactly the
    Pending order holding the cart's entries, the cart's total and the table,
    open for cancellation for the window from the moment it is placed.
  */
  lemma ServerPlacesCartOrder(cart: seq<CartItem>, tableNumber: string,
                              id: OrderRules.OrderId, owner: OrderRules.UserId, now: int)
    requires |cart| > 0 && QuantitiesPositive(cart)
    requires forall i :: 0 <= i < |cart| ==> cart[i].id != "" && cart[i].name != ""
    ensures OrderRules.NewOrder(id, owner, Some(OrderItems(cart)), Some(TotalPrice(cart)), Some(tableNumber), now)
      == Ok(OrderRules.Order(id, owner, Some(tableNumber), OrderItems(cart), TotalPrice(cart), now,
                             now + OrderRules.CancellationWindowMs, true, OrderRules.Pending, 0))
  {
    OrderItemsAccepted(cart);
  }

  /**
    End to end: the request that placing the order sends for such a cart, with a
    signed-in user and a table, is one the server places as a Pending order
    holding the cart's entries, the cart's total and the table.
  */
  lemma SubmittedCartIsPlaced(cart: seq<CartItem>, tableNumber: string, serverAccepts: bool,
                              id: OrderRules.OrderId, owner: OrderRules.UserId, now: int)
    requires |cart| > 0 && QuantitiesPositive(cart) && tableNumber != ""
    requires forall i :: 0 <= i < |cart| ==> cart[i].id != "" && cart[i].name != ""
    ensures var s := SubmitOrder(cart, true, tableNumber, serverAccepts);
      && s.request.Some?
      && var placed := OrderRules.NewOrder(id, owner, Some(s.request.value.items), Some(s.request.value.total),
                                           Some(s.request.value.tableNumber), now);
      && placed.Ok?
      && placed.value.status == OrderRules.Pending
      && placed.value.total == TotalPrice(cart)
      && placed.value.items == OrderItems(cart)
      && placed.value.tableNumber == Some(tableNumber)
  {
    ServerPlacesCartOrder(cart, tableNumber, id, owner, now);
  }
}
