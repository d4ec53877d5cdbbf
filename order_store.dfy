/**
  The order routes of the server over an in-memory order store. Each handler
  loads one order record, checks it, assigns its fields and stores it back, as
  the route handlers do on the document store; every handler runs as one atomic
  step. Ids are handed out in sequence, so the stored ids are exactly 0 .. nextId - 1.
*/
module OrderServer {
  import opened Outcomes
  import opened OrderRules
  import opened OrderListing

  class OrderStore {
    var orders: map<OrderId, Order>
    var nextId: OrderId

    /** Every stored order is kept under its own id and satisfies the order invariant. */
    ghost predicate Valid()
      reads this
    {
      && (forall id :: id in orders ==> id < nextId)
      && (forall id :: 0 <= id < nextId ==> id in orders)
      && (forall id :: id in orders ==> orders[id].id == id && WellFormed(orders[id]))
    }

    constructor ()
      ensures Valid() && orders == map[] && nextId == 0
    {
      orders := map[];
      nextId := 0;
    }

    /**
      POST /api/orders. A refused request stores nothing; an accepted one stores the
      new Pending order, cancellable for one minute, under a fresh id.
    */
    method PlaceOrder(owner: UserId, items: Option<seq<LineItem>>, total: Option<int>,
                      tableNumber: Option<string>, now: int) returns (r: Result<OrderId, OrderError>)
      requires Valid()
      modifies this
      ensures Valid()
      ensures var placed := NewOrder(old(nextId), owner, items, total, tableNumber, now);
        && (placed.Ok? ==> r == Ok(old(nextId)) && orders == old(orders)[old(nextId) := placed.value]
                           && nextId == old(nextId) + 1)
        && (placed.Err? ==> r == Err(placed.error) && orders == old(orders) && nextId == old(nextId))
    {
      var placed := NewOrder(nextId, owner, items, total, tableNumber, now);
      if placed.Err? {
        return Err(placed.error);
      }
      orders := orders[nextId := placed.value];
      r := Ok(nextId);
      nextId := nextId + 1;
    }

    /**
      POST /api/orders/:id/cancel. NotFound, then NotOwner, then WindowClosed; a
      refused cancel leaves the store as it was, an accepted one replaces the order
      by its cancelled version.
    */
    method CancelOrder(id: OrderId, requester: UserId, now: int) returns (r: Outcome<OrderError>)
      requires Valid()
      modifies this
      ensures Valid() && nextId == old(nextId)
      ensures id !in old(orders) ==> r == Fail(NotFound) && orders == old(orders)
      ensures id in old(orders) ==>
        var c := Cancel(old(orders)[id], requester, now);
        && (c.Ok? ==> r == Pass && orders == old(orders)[id := c.value])
        && (c.Err? ==> r == Fail(c.error) && orders == old(orders))
    {
      if id !in orders {
        return Fail(NotFound);
      }
      var order := orders[id];
      if order.owner != requester {
        return Fail(NotOwner);
      }
      if !order.cancellable || now > order.cancellationWindowEnd {
        return Fail(WindowClosed);
      }
      order := order.(status := Cancelled);
      order := order.(cancellable := false);
      orders := orders[id := order];
      r := Pass;
    }

    /**
      PUT /api/orders/:id/status behind the administrator gate. AdminOnly, then
      NotFound, then InvalidStatus; a refused update leaves the store as it was.
    */
    method UpdateOrderStatus(role: string, id: OrderId, statusText: string, prepTime: Option<int>)
      returns (r: Result<Order, OrderError>)
      requires Valid()
      modifies this
      ensures Valid() && nextId == old(nextId)
      ensures role != AdminRole ==> r == Err(AdminOnly) && orders == old(orders)
      ensures role == AdminRole && id !in old(orders) ==> r == Err(NotFound) && orders == old(orders)
      ensures role == AdminRole && id in old(orders) ==>
        var u := UpdateStatus(old(orders)[id], statusText, prepTime);
        && r == u
        && (u.Ok? ==> orders == old(orders)[id := u.value])
        && (u.Err? ==> orders == old(orders))
    {
      var gate := AuthorizeAdmin(role);
      if gate.Fail? {
        return Err(gate.error);
      }
      if id !in orders {
        return Err(NotFound);
      }
      var order := orders[id];
      var parsed := ParseStatus(statusText);
      if parsed.None? {
        return Err(InvalidStatus);
      }
      order := order.(status := parsed.value);
      if parsed.value != Pending {
        order := order.(cancellable := false);
      }
      if prepTime.Some? {
        order := order.(estimatedPrepTime := prepTime.value);
      }
      UpdateStatusKeepsWellFormed(orders[id], statusText, prepTime);
      orders := orders[id := order];
      r := Ok(order);
    }

    /** A valid store keeps every id below nextId, each order under its own id. */
    lemma ValidIsKeyed()
      requires Valid()
      ensures Keyed(orders, nextId)
    {
    }

    /** The stored orders in id order. */
    function Stored(): (s: seq<Order>)
      reads this
      requires Valid()
      ensures |s| == nextId
      ensures forall o :: o in s <==> o in orders.Values
      ensures forall o :: multiset(s)[o] <= 1
    {
      var s := InIdOrder(orders, nextId);
      InIdOrderOnce(orders, nextId);
      assert forall o :: o in orders.Values ==> o in s by {
        forall o | o in orders.Values ensures o in s {
          var id :| id in orders && orders[id] == o;
          assert s[id] == o;
        }
      }
      s
    }

    /**
      GET /api/orders/user: the requester's orders, newest first, each projected at
      `now`; every order of the requester appears, and no order appears twice.
    */
    function UserOrders(user: UserId, now: int): (r: seq<ClientOrder>)
      reads this
      requires Valid()
      ensures IsUserListing(orders, user, now, r)
    {
      ValidIsKeyed();
      UserListing(orders, nextId, user, now);
      ProjectAll(SortNewestFirst(OwnedBy(InIdOrder(orders, nextId), user)), now)
    }

    /**
      GET /api/orders behind the administrator gate: every stored order exactly
      once, newest first.
    */
    function AllOrders(role: string): (r: Result<seq<Order>, OrderError>)
      reads this
      requires Valid()
      ensures r.Err? <==> role != AdminRole
      ensures r.Err? ==> r.error == AdminOnly
      ensures r.Ok? ==> |r.value| == nextId
      ensures r.Ok? ==> forall i, j :: 0 <= i < j < |r.value| ==> r.value[i].placedAt >= r.value[j].placedAt
      ensures r.Ok? ==> forall o :: o in r.value <==> o in orders.Values
      ensures r.Ok? ==> forall i, j :: 0 <= i < j < |r.value| ==> r.value[i] != r.value[j]
    {
      match AuthorizeAdmin(role)
      case Fail(e) => Err(e)
      case Pass =>
        var stored := Stored();
        var sorted := SortNewestFirst(stored);
        assert |sorted| == |multiset(sorted)| == |multiset(stored)| == |stored|;
        SameMembers(sorted, stored);
        OnceMeansDistinct(sorted);
        NewestFirstOrdered(sorted);
        Ok(sorted)
    }
  }

  /** The stored-order map of a valid store: every id below `n`, each order under its own id. */
  ghost predicate Keyed(m: map<OrderId, Order>, n: nat) {
    && (forall id :: id in m ==> id < n && m[id].id == id)
    && (forall id :: 0 <= id < n ==> id in m)
  }

  /**
    What the user listing promises about the stored orders `m`: newest first;
    each entry is an order of `user`, projected at `now`; every order of `user`
    appears; no order appears twice.
  */
  predicate IsUserListing(m: map<OrderId, Order>, user: UserId, now: int, r: seq<ClientOrder>) {
    && (forall i, j :: 0 <= i < j < |r| ==> r[i].order.placedAt >= r[j].order.placedAt)
    && (forall i :: 0 <= i < |r| ==>
          r[i].order.owner == user && r[i].order.id in m && r[i] == ToClientView(m[r[i].order.id], now))
    && (forall id :: id in m && m[id].owner == user ==>
          exists i :: 0 <= i < |r| && r[i] == ToClientView(m[id], now))
    && (forall i, j :: 0 <= i < j < |r| ==> r[i].order.id != r[j].order.id)
  }

  /**
    A newest-first selection of the user's stored orders with no order twice,
    projected at `now`: what the user listing promises, in terms of the map.
  */
  lemma ProjectedSelection(m: map<OrderId, Order>, n: nat, user: UserId, now: int,
                           stored: seq<Order>, sorted: seq<Order>, r: seq<ClientOrder>)
    requires Keyed(m, n)
    requires |stored| == n && forall id :: 0 <= id < n ==> stored[id] == m[id]
    requires NewestFirst(sorted)
    requires forall o :: o in sorted <==> o in stored && o.owner == user
    requires forall i, j :: 0 <= i < j < |sorted| ==> sorted[i] != sorted[j]
    requires |r| == |sorted| && forall i :: 0 <= i < |sorted| ==> r[i] == ToClientView(sorted[i], now)
    ensures IsUserListing(m, user, now, r)
  {
    NewestFirstOrdered(sorted);
    forall i | 0 <= i < |sorted|
      ensures sorted[i].owner == user && sorted[i].id in m && m[sorted[i].id] == sorted[i]
    {
      assert sorted[i] in sorted;
      var k :| 0 <= k < n && stored[k] == sorted[i];
    }
    forall id | id in m && m[id].owner == user
      ensures exists i :: 0 <= i < |r| && r[i] == ToClientView(m[id], now)
    {
      assert stored[id] == m[id];
      assert m[id] in sorted;
      var i :| 0 <= i < |sorted| && sorted[i] == m[id];
      assert r[i] == ToClientView(m[id], now);
    }
  }

  /** The facts the user listing promises, about the store's map. */
  lemma UserListing(m: map<OrderId, Order>, n: nat, user: UserId, now: int)
    requires Keyed(m, n)
    ensures IsUserListing(m, user, now, ProjectAll(SortNewestFirst(OwnedBy(InIdOrder(m, n), user)), now))
  {
    var stored := InIdOrder(m, n);
    InIdOrderOnce(m, n);
    var sorted := SortNewestFirst(OwnedBy(stored, user));
    UserListingFacts(stored, user);
    ProjectedSelection(m, n, user, now, stored, sorted, ProjectAll(sorted, now));
  }

  /** Two line items that pass the item schema, for the scenarios below. */
  function SampleItems(): (items: seq<LineItem>)
    ensures |items| == 2 && forall i :: 0 <= i < |items| ==> ItemAccepted(items[i])
  {
    [LineItem("a", "Soup", 100, 2), LineItem("b", "Tea", 50, 1)]
  }

  /** Placing an order and cancelling it at once succeeds; a second cancel is refused. */
  method ScenarioPlaceAndCancel() {
    var store := new OrderStore();
    var placed := store.PlaceOrder("alice", Some(SampleItems()), Some(250), Some("7"), 1000);
    assert placed == Ok(0);
    assert store.orders[0].total == 250;
    var first := store.CancelOrder(0, "alice", 1000);
    assert first == Pass;
    var second := store.CancelOrder(0, "alice", 1000);
    assert second == Fail(WindowClosed);
    var missing := store.CancelOrder(9, "alice", 1000);
    assert missing == Fail(NotFound);
  }

  /** A stranger's cancel, an unknown status and a non-administrator's update change nothing. */
  method ScenarioRefusals() {
    var store := new OrderStore();
    var placed := store.PlaceOrder("alice", Some(SampleItems()), Some(250), None, 2000);
    assert placed == Ok(0);
    var before := store.orders;
    var stranger := store.CancelOrder(0, "mallory", 2000);
    assert stranger == Fail(NotOwner) && store.orders == before;
    var delivered := store.UpdateOrderStatus(AdminRole, 0, "Delivered", None);
    assert delivered == Err(InvalidStatus) && store.orders == before;
    var notAdmin := store.UpdateOrderStatus("user", 0, "Completed", None);
    assert notAdmin == Err(AdminOnly) && store.orders == before;
  }

  /** Preparing with a 15-minute estimate closes the window before the deadline. */
  method ScenarioPreparing() {
    var store := new OrderStore();
    var placed := store.PlaceOrder("alice", Some(SampleItems()), Some(250), None, 2000);
    assert placed == Ok(0);
    var preparing := store.UpdateOrderStatus(AdminRole, 0, "Preparing", Some(15));
    assert preparing.Ok? && !preparing.value.cancellable && preparing.value.estimatedPrepTime == 15;
    var late := store.CancelOrder(0, "alice", 2001);
    assert late == Fail(WindowClosed);
  }
}
