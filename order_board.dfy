/**
  The client's order lists: the one-second countdown applied to the user's
  orders, the local patch of the administrator's list after a status update,
  and how an order card is shown in the user's order history.
*/
module OrderBoard {
  import opened Outcomes
  import opened OrderRules
  import OrderListing

  /**
    One countdown tick on one listed order at time `now`: an order the list shows
    as not cancellable is left alone; otherwise its seconds are recomputed from the
    deadline and, at zero, it is shown as not cancellable.
  */
  function TickOrder(v: ClientOrder, now: int): (w: ClientOrder)
    ensures !v.order.cancellable ==> w == v
    ensures v.order.cancellable ==>
      && w.timeRemaining == SecondsLeft(v.order.cancellationWindowEnd, now)
      && (w.order.cancellable <==> w.timeRemaining > 0)
      && w.order == v.order.(cancellable := w.order.cancellable)
  {
    if v.order.cancellable then
      var left := SecondsLeft(v.order.cancellationWindowEnd, now);
      if left == 0 then ClientOrder(v.order.(cancellable := false), left)
      else ClientOrder(v.order, left)
    else v
  }

  /** The tick applied to the whole list, which keeps its length and order. */
  function Tick(vs: seq<ClientOrder>, now: int): (ws: seq<ClientOrder>)
    ensures |ws| == |vs|
    ensures forall i :: 0 <= i < |vs| ==> ws[i] == TickOrder(vs[i], now)
  {
    seq(|vs|, i requires 0 <= i < |vs| => TickOrder(vs[i], now))
  }

  /**
    The client's countdown agrees with the server: ticking the projection taken
    at `fetched` gives the projection the server would compute at any later `now`.
  */
  lemma TickMatchesProjection(o: Order, fetched: int, now: int)
    requires fetched <= now
    ensures TickOrder(ToClientView(o, fetched), now) == ToClientView(o, now)
  {
    if o.cancellable {
      SecondsLeftMonotone(o.cancellationWindowEnd, fetched, now);
    }
  }

  /** The same for a whole listing, fetched at `fetched` and ticked at `now`. */
  lemma TickListMatchesProjection(orders: seq<Order>, fetched: int, now: int)
    requires fetched <= now
    ensures Tick(OrderListing.ProjectAll(orders, fetched), now) == OrderListing.ProjectAll(orders, now)
  {
    var ticked := Tick(OrderListing.ProjectAll(orders, fetched), now);
    forall i | 0 <= i < |orders| ensures ticked[i] == OrderListing.ProjectAll(orders, now)[i] {
      TickMatchesProjection(orders[i], fetched, now);
    }
  }

  /** Two ticks in time order come to the same as the later tick alone. */
  lemma TickTwice(vs: seq<ClientOrder>, earlier: int, later: int)
    requires earlier <= later
    ensures Tick(Tick(vs, earlier), later) == Tick(vs, later)
  {
    forall i | 0 <= i < |vs| ensures Tick(Tick(vs, earlier), later)[i] == Tick(vs, later)[i] {
      if vs[i].order.cancellable {
        SecondsLeftMonotone(vs[i].order.cancellationWindowEnd, earlier, later);
      }
    }
  }

  /**
    The administrator list's local patch after a successful update: the order
    with the matching id gets the new status and preparation time; every other
    order, and every other field, is left as it was.
  */
  function PatchStatus(orders: seq<Order>, id: OrderId, status: Status, prepTime: int): (r: seq<Order>)
    ensures |r| == |orders|
    ensures forall i :: 0 <= i < |orders| && orders[i].id != id ==> r[i] == orders[i]
    ensures forall i :: 0 <= i < |orders| && orders[i].id == id ==>
      r[i] == orders[i].(status := status, estimatedPrepTime := prepTime)
  {
    seq(|orders|, i requires 0 <= i < |orders| =>
      if orders[i].id == id then orders[i].(status := status, estimatedPrepTime := prepTime)
      else orders[i])
  }

  /**
    The patched entry is the server's updated order except for the cancellable
    flag, which the patch leaves as it was while the server clears it for every
    status but Pending.
  */
  lemma PatchMatchesServer(orders: seq<Order>, i: nat, status: Status, prepTime: int)
    requires i < |orders|
    ensures var server := UpdateStatus(orders[i], StatusName(status), Some(prepTime));
      && server.Ok?
      && PatchStatus(orders, orders[i].id, status, prepTime)[i]
           == server.value.(cancellable := orders[i].cancellable)
      && (server.value.cancellable == (orders[i].cancellable && status == Pending))
  {
    var text := StatusName(status);
    assert ParseStatus(text) == Some(status) by {
      match status
      case Pending =>
      case Preparing =>
      case Completed =>
      case Cancelled =>
    }
  }

  /** What an order card in the user's order history shows. */
  datatype Card =
    | CancelledNotice                        // "Order Cancelled"
    | CancelButton(enabled: bool, seconds: nat)
    | CompletedNotice                        // "Status: Completed"
    | WindowClosedNotice                     // "Status: Cancellation window closed."

  function CardFor(v: ClientOrder): (c: Card)
  {
    if v.order.status == Cancelled then CancelledNotice
    else if v.order.cancellable && v.order.status != Completed then
      CancelButton(v.timeRemaining > 0, v.timeRemaining)
    else if v.order.status == Completed then CompletedNotice
    else WindowClosedNotice
  }

  /** The card's preparation-time line: a positive time on an order still in progress. */
  predicate ShowsPrepTime(v: ClientOrder) {
    v.order.estimatedPrepTime > 0 && v.order.status != Completed && v.order.status != Cancelled
  }

  /** Which card a listed order gets, by its status and reported flag. */
  lemma CardCases(v: ClientOrder)
    ensures CardFor(v) == CancelledNotice <==> v.order.status == Cancelled
    ensures CardFor(v).CancelButton? <==>
      v.order.status != Cancelled && v.order.status != Completed && v.order.cancellable
    ensures CardFor(v).CancelButton? ==>
      CardFor(v).enabled == (v.timeRemaining > 0) && CardFor(v).seconds == v.timeRemaining
    ensures CardFor(v) == CompletedNotice <==> v.order.status == Completed
    ensures CardFor(v) == WindowClosedNotice <==>
      v.order.status != Cancelled && v.order.status != Completed && !v.order.cancellable
  {
  }

  /**
    On a stored order's projection, or on any later tick of it, the card offers a
    cancel button only for a Pending order, the button is always enabled, and the
    server accepts the owner's cancel at that instant, provided the stored order
    `o` is unchanged since the fetch. An administrator's update after the fetch is
    not seen by the tick: the button can stay while the server answers WindowClosed.
  */
  lemma CancelButtonIsHonest(o: Order, fetched: int, now: int)
    requires WellFormed(o) && fetched <= now
    ensures var c := CardFor(TickOrder(ToClientView(o, fetched), now));
      c.CancelButton? ==> o.status == Pending && c.enabled && Cancel(o, o.owner, now).Ok?
  {
    TickMatchesProjection(o, fetched, now);
    var v := ToClientView(o, now);
    if CardFor(v).CancelButton? {
      ViewCancellableMeansCancelAccepted(o, now);
    }
  }

  /** A cancelled or completed order's card never shows the preparation time, whatever time is stored. */
  lemma NoPrepTimeOnClosedOrders(v: ClientOrder)
    requires v.order.status == Cancelled || v.order.status == Completed
    ensures !ShowsPrepTime(v)
  {
  }
}
