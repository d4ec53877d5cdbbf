# Restaurant ordering: the order lifecycle and the cart

This project models the core of a restaurant ordering application in Dafny. A signed-in
customer fills a cart from the menu and places an order for a table. For one minute after
placement the order may be cancelled by its owner. An administrator moves orders through
Pending, Preparing, Completed and Cancelled, and may record an estimated preparation time in
minutes. The customer's order history shows a per-second countdown of the cancellation
window.

The model has two halves.

- The server side (`server/server.js`), in four modules:
  - `OrderRules`: the order record and the rules of each route on one record.
    These are placement, the owner's cancellation, the administrator's status update and the
    read-time projection that adds the seconds left to cancel.
  - `OrderListing`: the two listings, newest first.
  - `OrderServer`: a class `OrderStore` that holds the stored orders in a map and updates
    them in place, one method per route.
  - `Outcomes`: the `Option`, `Result` and `Outcome` wrappers.
- The client side (`client/src/App.js`), in two modules:
  - `Cart`: the running total, adding, removing and re-quantifying entries, and the guard
    and payload of placing the order. Every one is a functional update of the cart, as the
    React state setters are.
  - `OrderBoard`: the one-second countdown tick, the administrator list's local patch after a
    status update, and which card an order gets in the order history.

Time is an integer number of milliseconds. Money is an integer number of minor currency
units. The current time, the signed-in user and the role are parameters.

Four rules of the code shape the model:

- The stored total is the total the client submits; the server does not recompute it from the
  items (`server/server.js:221-235`). `Cart.SubmittedCartIsPlaced` shows that the client
  sends, and the server stores, the cart's own total.
- A cancel is accepted when the stored `cancellable` flag is set and the deadline has not
  passed, not "when the status is Pending". Once the flag is cleared, an administrator setting
  the status back to Pending does not set it again (`server/server.js:300`, `341-343`), so such
  an order can no longer be cancelled (`OrderRules.NoResurrection`).
- The status route checks that the order exists before it checks the status text
  (`server/server.js:330-338`).
- The preparation time is stored as given; no check that it is non-negative exists.

## Model

| member | source | states |
|---|---|---|
| OrderRules.ParseStatus | server/server.js:335-338 | The status check accepts exactly the four names: a parsed status prints back as the text, and a refused text is none of the four names. |
| OrderRules.HttpStatus | server/server.js:219-354 | The response codes of the order routes: 403 exactly for the owner and administrator refusals, 404 for a missing order, 500 for a refused item, 400 for missing details, a closed window and an unknown status. |
| OrderRules.AuthorizeAdmin | server/server.js:100-106 | The administrator gate passes exactly the role "admin" and otherwise answers AdminOnly (403). |
| OrderRules.NewOrder | server/server.js:219-248 | Placement is refused with MissingDetails exactly when items are missing or empty or the total is undefined, and with InvalidItem exactly when some item lacks an id or name or has quantity below 1, and with no other error. Otherwise the new order is well formed, keeps the submitted items, total and table, and is Pending and cancellable until one minute after `now`, with preparation time 0. |
| OrderRules.CancelDecision | server/server.js:289-306 | A cancel succeeds exactly when the requester owns the order, the flag is set and `now` is not past the deadline. A stranger gets NotOwner before anything else; the owner outside the window gets WindowClosed. Success sets the status to Cancelled and clears the flag, and changes nothing else. |
| OrderRules.CancelIsFinal | server/server.js:300-305 | A cancelled order is refused by every later cancel, and with WindowClosed when its owner asks. |
| OrderRules.CancelKeepsWellFormed | server/server.js:304-306 | A successful cancel keeps the stored-order invariant. |
| OrderRules.CancelOnlyPendingInTime | server/server.js:300-302 | On a well-formed order a successful cancel starts from Pending and no later than one minute after placement. |
| OrderRules.UpdateStatusValidates | server/server.js:335-340 | The status update is refused with InvalidStatus exactly when the text is none of the four names; otherwise the new status is the one named. |
| OrderRules.UpdateStatusEffect | server/server.js:340-347 | A successful update sets the status, clears the flag for every status but Pending, never sets the flag, replaces the preparation time only when one is given, and changes no other field. |
| OrderRules.UpdateStatusKeepsWellFormed | server/server.js:340-347 | The status update keeps the stored-order invariant. |
| OrderRules.NoResurrection | server/server.js:341-343 | After the flag is cleared, no run of status updates, including one back to Pending, sets it again, and the owner's cancel is refused with WindowClosed. |
| OrderRules.SecondsLeft | server/server.js:261-262 | The seconds left are the whole seconds before the deadline, 0 once less than a second remains. |
| OrderRules.SecondsLeftMonotone | server/server.js:261-262 | The seconds left never grow as time passes. |
| OrderRules.ToClientView | server/server.js:256-275 | The projection changes only the cancellable flag. The seconds left are computed only for a cancellable order, and the projection reports the order cancellable exactly when it was stored cancellable and at least one whole second is left. |
| OrderRules.ViewCountsDown | server/server.js:256-275 | Over time the reported seconds never grow and a flag reported off stays off. |
| OrderRules.ViewCancellableMeansCancelAccepted | server/server.js:260-302 | When the projection reports an order cancellable, the owner's cancel at that instant is accepted with at least a second to spare. |
| OrderRules.LastSecondBoundary | server/server.js:260-302 | In the last second before the deadline the server still accepts the owner's cancel, while the projection already reports 0 seconds and not cancellable. |
| OrderRules.FreshOrderView | server/server.js:229-275 | At the placement instant the projection of a new order reports 60 seconds and leaves the record unchanged. |
| OrderListing.OwnedBy | server/server.js:254 | The query on the owner keeps exactly the orders of the user, each as often as it was stored. |
| OrderListing.NewestFirstOrdered | server/server.js:318 | In a listing sorted newest first, every order is at least as recent as every order after it. |
| OrderListing.SortNewestFirst | server/server.js:318 | The sort by placement time returns a newest-first permutation of its input. |
| OrderListing.ProjectAll | server/server.js:256 | The projection of a listing keeps its length and order and projects each order. |
| OrderListing.UserListingFacts | server/server.js:254 | Sorting the user's selection gives a newest-first list of exactly the user's stored orders, none twice. |
| OrderServer.OrderStore.constructor | server/server.js:60-71 | An empty store that satisfies the store invariant. |
| OrderServer.OrderStore.PlaceOrder | server/server.js:219-248 | A refused placement stores nothing. An accepted one stores the new order under the next id and returns that id. The store invariant is kept. |
| OrderServer.OrderStore.CancelOrder | server/server.js:284-313 | A missing id answers NotFound. Otherwise the answer is the cancel rule's on the stored order, and only an accepted cancel replaces it by its cancelled version. The store invariant is kept. |
| OrderServer.OrderStore.UpdateOrderStatus | server/server.js:327-354 | A non-administrator gets AdminOnly, then a missing id gets NotFound, then the update rule decides. Only a successful update replaces the stored order, and the updated order is returned. The store invariant is kept. |
| OrderServer.OrderStore.Stored | server/server.js:318 | The stored orders, each exactly once. |
| OrderServer.OrderStore.UserOrders | server/server.js:251-281 | The user listing is newest first and contains each order of the user exactly once, projected at `now`, and nothing else. |
| OrderServer.OrderStore.AllOrders | server/server.js:316-324 | A non-administrator gets AdminOnly. The administrator gets every stored order exactly once, newest first. |
| OrderServer.UserListing | server/server.js:251-275 | The user listing's facts, stated over the store's map of orders. |
| Cart.TotalPrice | client/src/App.js:743 | The cart total is 0 for an empty cart and never negative when prices and quantities are not. |
| Cart.TotalPriceAppend | client/src/App.js:743 | The total of two carts joined is the sum of their totals. |
| Cart.TotalPriceReplace | client/src/App.js:743 | Replacing one entry changes the total by as much as that entry's line total changes. |
| Cart.AddToCart | client/src/App.js:745-758 | A menu item already in the cart gets one more in place and every other entry is unchanged. A new one is appended with quantity 1. Either way the item is then in the cart, and ids stay unique with positive quantities. |
| Cart.AddExistingEntry | client/src/App.js:747-752 | In a cart with unique ids, adding an item already present increments its one entry and changes nothing else. |
| Cart.AddExistingTotal | client/src/App.js:743-752 | Adding an item already in the cart raises the total by the price in its entry. |
| Cart.AddNewTotal | client/src/App.js:743-755 | Adding a new item raises the total by its price. |
| Cart.RemoveFromCart | client/src/App.js:760-762 | Removing keeps exactly the entries with another id, so the id is gone, and the cart stays valid. |
| Cart.RemoveFromCartAppend | client/src/App.js:760-762 | Removing keeps the order of what remains: it distributes over concatenation. |
| Cart.RemoveAbsent | client/src/App.js:760-762 | Removing an id that is not in the cart changes nothing. |
| Cart.RemoveEntry | client/src/App.js:760-762 | In a cart with unique ids, removing entry k by its id leaves the entries before and after it, in order. |
| Cart.RemoveEntryTotal | client/src/App.js:743-762 | Removing an entry of a cart with unique ids lowers the total by exactly its line total. |
| Cart.UpdateQuantity | client/src/App.js:764-773 | A quantity of 0 or less removes the entry. A positive one replaces only that entry's quantity. The cart stays valid. |
| Cart.UpdateQuantityEntry | client/src/App.js:769-771 | In a cart with unique ids, a positive quantity replaces the quantity of the one matching entry and changes nothing else. |
| Cart.UpdateQuantityTotal | client/src/App.js:764-773 | A positive new quantity changes the total by the entry's price times the change in quantity. |
| Cart.OrderItems | client/src/App.js:786 | The payload has one line item per cart entry, in cart order: line item i carries entry i's id, name, price and quantity. |
| Cart.SubmitOrder | client/src/App.js:775-804 | Nothing is sent, and the cart is kept, exactly when the cart is empty, the user is signed out or the table is empty. Otherwise the request carries each entry's id, name, price and quantity, the table and the cart's total, and the cart is emptied only when the server accepts. |
| Cart.OrderItemsAccepted | client/src/App.js:786 | Entries with an id, a name and a positive quantity become line items the server's item schema accepts. |
| Cart.ServerPlacesCartOrder | client/src/App.js:786-788 | The server places the entries and total of a non-empty cart whose entries have ids, names and positive quantities: the stored order is exactly the Pending, cancellable order with those entries, that total and the table, placed at `now`, with its deadline one minute later and preparation time 0. |
| Cart.SubmittedCartIsPlaced | client/src/App.js:775-789 | End to end: for a non-empty cart whose entries have ids, names and positive quantities, a signed-in user with a table sends a request, and the server places the order it carries as a Pending order with the cart's entries, the cart's total and the table. |
| OrderBoard.TickOrder | client/src/App.js:612-624 | A tick leaves an order not shown cancellable alone. Otherwise it recomputes the seconds left from the deadline and shows the order cancellable exactly while seconds remain. |
| OrderBoard.Tick | client/src/App.js:612-624 | The tick applies to every listed order and keeps the list's length and order. |
| OrderBoard.TickMatchesProjection | client/src/App.js:612-624 | Ticking the server's projection taken earlier gives exactly the projection the server would compute now. |
| OrderBoard.TickListMatchesProjection | client/src/App.js:612-624 | The same for a whole listing. |
| OrderBoard.TickTwice | client/src/App.js:612-624 | Two ticks in time order come to the same as the later tick alone. |
| OrderBoard.PatchStatus | client/src/App.js:877-879 | The local patch gives the order with the id the new status and preparation time, and leaves every other order and field as it was. |
| OrderBoard.PatchMatchesServer | client/src/App.js:877-879 | The patched order is the server's updated order except for the cancellable flag. The patch keeps the flag, while the server clears it for every status but Pending. |
| OrderBoard.CardCases | client/src/App.js:275-289 | The card shows "Order Cancelled" exactly for Cancelled orders and "Status: Completed" exactly for Completed orders. It shows a cancel button exactly for shown-cancellable orders that are neither Cancelled nor Completed, enabled exactly while seconds remain, and "Cancellation window closed." exactly for the other orders that are neither Cancelled nor Completed. |
| OrderBoard.CancelButtonIsHonest | client/src/App.js:275-284 | On a stored order's projection, or any later tick of it, a cancel button appears only for a Pending order. That button is enabled, and the server accepts the owner's cancel at that instant, provided the stored order is unchanged since the fetch. An administrator's update after the fetch is not seen by the tick. |
| OrderBoard.NoPrepTimeOnClosedOrders | client/src/App.js:290-294 | Cancelled and Completed orders never show the preparation time. |

## Left out

- Persistence in the document database: the store is an in-memory map with ids handed out in sequence. Malformed object ids, database failures and the 500 answers they cause are not modelled. Of the 500 paths, only the item schema's refusal is (`InvalidItem`).
- Registration, login, password hashing and token checks, with their 401 and 400 answers: the signed-in user's id and role are parameters.
- The menu routes, menu seeding and the profile route, which are outside the order lifecycle.
- The network calls, notifications, loading flags, view switching and rendering of the client: the model keeps the state updates and what a card shows.
- Timers: the countdown interval is one call of `Tick` at the time `now`.
- The separate clock reads of the placement handler (deadline and placement time): one `now` is used for both. The user listing likewise reads the clock once per order inside its map (`server/server.js:261`); the model projects the whole listing at one `now`.
- Floating point: prices, totals and quantities are integers, and money is in minor units. Currency formatting is left out.
- Concurrent requests: every handler runs as one atomic step on the store.
- Request bodies that are not of the expected types: a `null` total, a non-string status, non-array items and a `null` preparation time. The model's inputs are typed, with `Option` for an absent field.
- Order of orders with the same placement time: the database's sort leaves it open, and the model fixes one order (an insertion sort) whose contract states only newest-first and permutation.
- The extra fields the cart copies from the menu item (image, type, the database id): a cart entry keeps id, name, price and quantity.
- The client's cancel call and list refresh: they send the request modelled by `OrderServer.OrderStore.CancelOrder` and re-fetch the listing modelled by `OrderServer.OrderStore.UserOrders`.
- The JSON shape of the listing (`id` beside `_id`, placement time as text): the projection keeps the record and the seconds left.
