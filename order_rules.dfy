/**
  The order rules of the restaurant server: the order record, the four status
  names, placing an order, the owner's cancellation inside a one-minute window,
  the administrator's status update and the read-time projection that adds the
  seconds left to cancel.

  Each rule is a function on one order record; the OrderServer module applies
  them to the stored records. Time is an integer number of milliseconds and
  money an integer number of minor currency units.
*/
module OrderRules {
  import opened Outcomes

  type UserId = string
  type OrderId = nat

  /** The cancellation window set at placement: one minute. */
  const CancellationWindowMs: int := 1 * 60 * 1000
  const MsPerSecond: int := 1000
  /** The only role the administrator gate admits. */
  const AdminRole: string := "admin"

  datatype Status = Pending | Preparing | Completed | Cancelled

  function StatusName(s: Status): string {
    match s
    case Pending => "Pending"
    case Preparing => "Preparing"
    case Completed => "Completed"
    case Cancelled => "Cancelled"
  }

  /** The membership test on the four status names; ParseStatus is the inverse of StatusName. */
  function ParseStatus(text: string): (r: Option<Status>)
    ensures r.Some? ==> StatusName(r.value) == text
    ensures r.None? ==> forall s: Status :: StatusName(s) != text
  {
    if text == "Pending" then Some(Pending)
    else if text == "Preparing" then Some(Preparing)
    else if text == "Completed" then Some(Completed)
    else if text == "Cancelled" then Some(Cancelled)
    else None
  }

  /** One entry of an order, with the price quoted by the client. */
  datatype LineItem = LineItem(itemId: string, name: string, price: int, quantity: int)

  /** The item sub-document schema: id and name are required strings, quantity has minimum 1. */
  predicate ItemAccepted(it: LineItem) {
    it.itemId != "" && it.name != "" && it.quantity >= 1
  }

  datatype Order = Order(
    id: OrderId,
    owner: UserId,
    tableNumber: Option<string>,
    items: seq<LineItem>,
    total: int,
    placedAt: int,
    cancellationWindowEnd: int,
    cancellable: bool,
    status: Status,
    estimatedPrepTime: int)

  /**
    What holds of every stored order: the items passed the schema, the deadline is
    one window after placement, and an order that has left Pending is not cancellable.
  */
  predicate WellFormed(o: Order) {
    && |o.items| > 0
    && (forall i :: 0 <= i < |o.items| ==> ItemAccepted(o.items[i]))
    && o.cancellationWindowEnd == o.placedAt + CancellationWindowMs
    && (o.status != Pending ==> !o.cancellable)
  }

  /** The error results of the order handlers. */
  datatype OrderError =
    | MissingDetails  // items missing or empty, or total undefined
    | InvalidItem     // the item schema refuses the document when it is saved
    | NotFound
    | NotOwner        // a user cancelling someone else's order
    | AdminOnly       // the administrator gate refused the caller
    | WindowClosed
    | InvalidStatus

  function HttpStatus(e: OrderError): (code: int)
    ensures code == 403 <==> e == NotOwner || e == AdminOnly
    ensures code == 404 <==> e == NotFound
    ensures code == 500 <==> e == InvalidItem
    ensures code == 400 <==> e in {MissingDetails, WindowClosed, InvalidStatus}
  {
    match e
    case MissingDetails => 400
    case InvalidItem => 500
    case NotFound => 404
    case NotOwner => 403
    case AdminOnly => 403
    case WindowClosed => 400
    case InvalidStatus => 400
  }

  /** The administrator gate: only the exact role string "admin" passes. */
  function AuthorizeAdmin(role: string): (r: Outcome<OrderError>)
    ensures r.Pass? <==> role == AdminRole
    ensures r.Fail? ==> r.error == AdminOnly
  {
    if role == AdminRole then Pass else Fail(AdminOnly)
  }

  // ---------------------------------------------------------------------------
  // Placing an order

  /**
    The order record a placement request creates at time `now`, or why it is
    refused. The total is the one the client submitted; it is not recomputed
    from the items.
  */
  function NewOrder(id: OrderId, owner: UserId, items: Option<seq<LineItem>>, total: Option<int>,
                    tableNumber: Option<string>, now: int): (r: Result<Order, OrderError>)
    ensures r == Err(MissingDetails) <==> items.None? || |items.value| == 0 || total.None?
    ensures r == Err(InvalidItem) <==>
      && items.Some? && |items.value| > 0 && total.Some?
      && exists i :: 0 <= i < |items.value| && !ItemAccepted(items.value[i])
    ensures r.Err? ==> r.error == MissingDetails || r.error == InvalidItem
    ensures r.Ok? ==>
      && WellFormed(r.value)
      && r.value.id == id && r.value.owner == owner && r.value.tableNumber == tableNumber
      && r.value.items == items.value && r.value.total == total.value
      && r.value.placedAt == now && r.value.cancellationWindowEnd == now + CancellationWindowMs
      && r.value.status == Pending && r.value.cancellable && r.value.estimatedPrepTime == 0
  {
    if items.None? || |items.value| == 0 || total.None? then Err(MissingDetails)
    else if exists i :: 0 <= i < |items.value| && !ItemAccepted(items.value[i]) then Err(InvalidItem)
    else
      Ok(Order(id, owner, tableNumber, items.value, total.value, now, now + CancellationWindowMs,
               true, Pending, 0))
  }

  // ---------------------------------------------------------------------------
  // Cancelling an order

  /** The window test of the cancel handler: the stored flag is set and the deadline has not passed. */
  predicate WindowOpen(o: Order, now: int) {
    o.cancellable && now <= o.cancellationWindowEnd
  }

  /** The cancel handler on a loaded order: ownership first, then the window. */
  function Cancel(o: Order, requester: UserId, now: int): (r: Result<Order, OrderError>)
  {
    if o.owner != requester then Err(NotOwner)
    else if !o.cancellable || now > o.cancellationWindowEnd then Err(WindowClosed)
    else Ok(o.(status := Cancelled, cancellable := false))
  }

  /** Which answer a cancel gets, and that a successful one touches only status and flag. */
  lemma CancelDecision(o: Order, requester: UserId, now: int)
    ensures Cancel(o, requester, now).Ok? <==> requester == o.owner && WindowOpen(o, now)
    ensures requester != o.owner ==> Cancel(o, requester, now) == Err(NotOwner)
    ensures requester == o.owner && !WindowOpen(o, now) ==> Cancel(o, requester, now) == Err(WindowClosed)
    ensures Cancel(o, requester, now).Ok? ==>
      Cancel(o, requester, now).value == o.(status := Cancelled, cancellable := false)
  {
  }

  /** A cancelled order can never be cancelled again, by anyone, at any time. */
  lemma CancelIsFinal(o: Order, requester: UserId, now: int, requester': UserId, later: int)
    requires Cancel(o, requester, now).Ok?
    ensures Cancel(Cancel(o, requester, now).value, requester', later).Err?
    ensures requester' == requester ==>
      Cancel(Cancel(o, requester, now).value, requester', later) == Err(WindowClosed)
  {
  }

  /** Cancelling keeps the stored-order invariant. */
  lemma CancelKeepsWellFormed(o: Order, requester: UserId, now: int)
    requires WellFormed(o) && Cancel(o, requester, now).Ok?
    ensures WellFormed(Cancel(o, requester, now).value)
  {
  }

  /** On a stored order a successful cancel starts from Pending and inside the deadline. */
  lemma CancelOnlyPendingInTime(o: Order, requester: UserId, now: int)
    requires WellFormed(o) && Cancel(o, requester, now).Ok?
    ensures o.status == Pending && now <= o.placedAt + CancellationWindowMs
  {
  }

  // ---------------------------------------------------------------------------
  // The administrator's status update

  /**
    The status handler on a loaded order: the status text must be one of the four
    names; a status other than Pending clears the cancellable flag; the preparation
    time is overwritten only when one is supplied.
  */
  function UpdateStatus(o: Order, statusText: string, prepTime: Option<int>): (r: Result<Order, OrderError>)
  {
    match ParseStatus(statusText)
    case None => Err(InvalidStatus)
    case Some(s) =>
      var o1 := o.(status := s);
      var o2 := if s != Pending then o1.(cancellable := false) else o1;
      Ok(if prepTime.Some? then o2.(estimatedPrepTime := prepTime.value) else o2)
  }

  /** An unknown status text is refused; any of the four names is applied. */
  lemma UpdateStatusValidates(o: Order, statusText: string, prepTime: Option<int>)
    ensures UpdateStatus(o, statusText, prepTime) == Err(InvalidStatus) <==>
      forall s: Status :: StatusName(s) != statusText
    ensures UpdateStatus(o, statusText, prepTime).Ok? ==>
      StatusName(UpdateStatus(o, statusText, prepTime).value.status) == statusText
  {
  }

  /**
    A successful update sets the status, never turns the cancellable flag on,
    turns it off for every status but Pending, replaces the preparation time only
    when one is given, and changes nothing else.
  */
  lemma UpdateStatusEffect(o: Order, statusText: string, prepTime: Option<int>)
    requires UpdateStatus(o, statusText, prepTime).Ok?
    ensures var u := UpdateStatus(o, statusText, prepTime).value;
      && StatusName(u.status) == statusText
      && (u.cancellable ==> o.cancellable)
      && (u.status != Pending ==> !u.cancellable)
      && (u.status == Pending ==> u.cancellable == o.cancellable)
      && u.estimatedPrepTime == (if prepTime.Some? then prepTime.value else o.estimatedPrepTime)
      && u == o.(status := u.status, cancellable := u.cancellable, estimatedPrepTime := u.estimatedPrepTime)
  {
  }

  /** The status update keeps the stored-order invariant. */
  lemma UpdateStatusKeepsWellFormed(o: Order, statusText: string, prepTime: Option<int>)
    requires WellFormed(o) && UpdateStatus(o, statusText, prepTime).Ok?
    ensures WellFormed(UpdateStatus(o, statusText, prepTime).value)
  {
  }

  /**
    Once an order is not cancellable (in particular once it has left Pending), no
    sequence of status updates makes it cancellable again: setting it back to
    Pending leaves the flag off, and the owner's cancel is refused with
    WindowClosed even before the deadline.
  */
  lemma {:induction false} NoResurrection(o: Order, updates: seq<StatusRequest>, requester: UserId, now: int)
    requires !o.cancellable
    requires requester == o.owner
    ensures !ApplyUpdates(o, updates).cancellable
    ensures Cancel(ApplyUpdates(o, updates), requester, now) == Err(WindowClosed)
    decreases |updates|
  {
    if updates != [] {
      var next := UpdateStatus(o, updates[0].statusText, updates[0].prepTime);
      if next.Ok? {
        UpdateStatusEffect(o, updates[0].statusText, updates[0].prepTime);
        NoResurrection(next.value, updates[1..], requester, now);
      } else {
        NoResurrection(o, updates[1..], requester, now);
      }
    }
  }

  /** The body of one administrator status request. */
  datatype StatusRequest = StatusRequest(statusText: string, prepTime: Option<int>)

  /** A run of status requests; refused requests leave the order as it was. */
  function ApplyUpdates(o: Order, updates: seq<StatusRequest>): (r: Order)
    ensures r.owner == o.owner && r.id == o.id
    decreases |updates|
  {
    if updates == [] then o
    else
      match UpdateStatus(o, updates[0].statusText, updates[0].prepTime)
      case Ok(next) => ApplyUpdates(next, updates[1..])
      case Err(_) => ApplyUpdates(o, updates[1..])
  }

  // ---------------------------------------------------------------------------
  // The read-time projection

  /** max(0, floor((end - now) / 1000)): the whole seconds left before `end`, never negative. */
  function SecondsLeft(end: int, now: int): (s: nat)
    ensures end - now < MsPerSecond ==> s == 0
    ensures end - now >= 0 ==> s * MsPerSecond <= end - now < (s + 1) * MsPerSecond
  {
    if end - now < 0 then 0 else (end - now) / MsPerSecond
  }

  /** Fewer seconds are left at a later time. */
  lemma SecondsLeftMonotone(end: int, earlier: int, later: int)
    requires earlier <= later
    ensures SecondsLeft(end, later) <= SecondsLeft(end, earlier)
  {
  }

  /** An order as the user's listing returns it: the stored record plus the seconds left. */
  datatype ClientOrder = ClientOrder(order: Order, timeRemaining: nat)

  /**
    The projection of a stored order at time `now`. Only the cancellable flag may
    differ from the stored record, and it is reported only while a whole second is left.
  */
  function ToClientView(o: Order, now: int): (v: ClientOrder)
    ensures v.order == o.(cancellable := v.order.cancellable)
    ensures v.order.id == o.id && v.order.owner == o.owner && v.order.placedAt == o.placedAt
    ensures v.timeRemaining == (if o.cancellable then SecondsLeft(o.cancellationWindowEnd, now) else 0)
    ensures v.order.cancellable <==> o.cancellable && v.timeRemaining > 0
  {
    if o.cancellable then
      var left := SecondsLeft(o.cancellationWindowEnd, now);
      ClientOrder(o.(cancellable := left != 0), left)
    else
      ClientOrder(o, 0)
  }

  /** The seconds left in the projection never grow as time passes. */
  lemma ViewCountsDown(o: Order, earlier: int, later: int)
    requires earlier <= later
    ensures ToClientView(o, later).timeRemaining <= ToClientView(o, earlier).timeRemaining
    ensures ToClientView(o, later).order.cancellable ==> ToClientView(o, earlier).order.cancellable
  {
    SecondsLeftMonotone(o.cancellationWindowEnd, earlier, later);
  }

  /**
    A projection that reports the order cancellable promises that the owner's
    cancel is accepted at that instant, with at least a second to spare.
  */
  lemma ViewCancellableMeansCancelAccepted(o: Order, now: int)
    requires ToClientView(o, now).order.cancellable
    ensures Cancel(o, o.owner, now).Ok?
    ensures now + MsPerSecond <= o.cancellationWindowEnd
  {
  }

  /**
    The two rules disagree during the last second of the window: the server
    still accepts the owner's cancel (up to and including the deadline) while the
    projection already reports zero seconds and not cancellable.
  */
  lemma LastSecondBoundary(o: Order, now: int)
    requires o.cancellable
    requires o.cancellationWindowEnd - MsPerSecond < now <= o.cancellationWindowEnd
    ensures Cancel(o, o.owner, now).Ok?
    ensures ToClientView(o, now).timeRemaining == 0 && !ToClientView(o, now).order.cancellable
  {
  }

  /** Right after placement the projection reports the full sixty seconds. */
  lemma FreshOrderView(o: Order)
    requires WellFormed(o) && o.cancellable
    ensures ToClientView(o, o.placedAt) == ClientOrder(o, 60)
  {
  }
}
