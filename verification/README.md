# Holbierest restaurant app — a verified Dafny model

Holbierest is a restaurant web application. It has two parts:

- A Django REST backend holds the menu, the per-user carts, orders with their order
  items, reservations, and per-user bonus and tip balances.
- A React client lets customers browse the paginated menu, fill a cart, order, review
  dishes and book tables.

This project models the logic at the core of both sides and proves what it promises.

**Backend** (`rest_api/views.py`, `rest_api/models.py`):

- The tables are records (module `Models`). Money is held in integer cents, since every
  decimal column has two decimal places.
- What each view does to the tables is given by pure functions (module `ViewsSpec`):
  - adding to the cart merges with an existing line;
  - setting a quantity below 1 deletes the line;
  - clearing a cart;
  - placing an order: it checks the cart and the bonus, clamps the bonus to the total,
    copies cart rows into order items, empties the cart and updates the bonus and tip
    balances;
  - updating an order, which can move the customer's tip to the delivery crew member;
  - the role-based order and reservation querysets;
  - group membership.
- Each view is also a method of the class `Views.Store`. It changes the store's tables
  in place and is proved to do exactly what those functions say. The store's invariants
  (`unique_together` on cart rows and order items, row prices, unique order ids) are
  preserved.
- The bonus balance and the bonus percentage are exact reals, in cents and percent.
  They model Python `Decimal` arithmetic, which is exact.

**Client** (`Cart.jsx`, `Menu.jsx`, `Menuitem.jsx`, `Reservation.jsx`):

- The `authToken` cookie parser, in its trimming and non-trimming variants (module
  `Cookies`, built on the string operations of module `Text`).
- The cart page's list operations (module `CartScreen`): the optimistic quantity update
  with its in-flight guard, the fix-up after a refused request, removal, ordering, and
  the subtotal.
- The menu page's page arithmetic and the page-button row with ellipses (module
  `MenuScreen`).
- The dish page's quantity stepper, star rendering and picker, review list and
  add-to-cart body (module `MenuItemScreen`).
- The reservation form and its request body (module `ReservationScreen`).

Each handler is a method of a class holding that page's state. Network requests are not
made: a handler takes the cookie string and the outcome of its request as parameters.

Module `CartSync` connects the two sides. The cart page's +/- controls post a delta of
±1 to `CartView.post`, which never deletes a row on that path. So the client's guard is
what keeps a stored quantity at 1 or more.

The `__str__` methods of the models are modelled by `Models.CategoryText`,
`MenuItemText`, `ReviewText`, `CartRowText`, `OrderText`, `OrderItemText` and
`ReservationText`. The column constraints are modelled as predicates:
`IsPrice`, `IsSmallInt`, `IsPositiveInteger`, `ReviewFits`, `CartRowFits`, `OrderFits`,
`OrderItemFits` and `ReservationFits`.

## Model

| member | source | states |
|---|---|---|
| Models.Range | backend/holbierest/rest_api/models.py:30 | `range(lo, hi)` has hi−lo elements, the k-th being lo+k |
| Models.RatingChoicesAreOneToFive | backend/holbierest/rest_api/models.py:30 | a rating is one of the declared choices iff it lies in 1..5 |
| Models.DefaultOrder | backend/holbierest/rest_api/models.py:53-63 | a new order has no delivery crew, status PENDING (one of the four choices) and total 0 |
| Models.ReservationText | backend/holbierest/rest_api/models.py:93-94 | the text starts "Reservation on {date} at {time} for " |
| Models.ReservationTextKeepsGuests | backend/holbierest/rest_api/models.py:89-94 | two valid reservations at the same date and time with the same text seat the same number of guests |
| Models.OrderTextKeepsId | backend/holbierest/rest_api/models.py:66-67 | two orders of one customer with the same text are the same order |
| Common.Filter | backend/holbierest/rest_api/views.py:96 | a queryset filter keeps only elements of the input that satisfy the condition, keeps every element that does, and is never longer |
| Common.FilterFilter | backend/holbierest/rest_api/views.py:96 | filtering by p and then by q is filtering by p-and-q |
| ViewsSpec.RowIndex | backend/holbierest/rest_api/views.py:82-83 | finds the first cart row with the (user, menu item) key, and is absent iff there is none |
| ViewsSpec.CartAdd | backend/holbierest/rest_api/views.py:78-92 | a new key appends one row with quantity q and unit price = menu price; an existing key gets quantity += q at its unit price; other rows are unchanged; uniqueness of (user, item) and price = quantity × unit price are preserved |
| ViewsSpec.CartClearSpec | backend/holbierest/rest_api/views.py:95-97 | clearing leaves the user no rows, leaves every other user's rows exactly as they were, and keeps the table's invariants |
| ViewsSpec.FilterKeepsUnique | backend/holbierest/rest_api/models.py:45-46 | deleting rows cannot break `unique_together` |
| ViewsSpec.RemoveAt | backend/holbierest/rest_api/views.py:116 | deleting a row keeps the other rows in order |
| ViewsSpec.RemoveAtSpec | backend/holbierest/rest_api/views.py:116 | after deleting a key's row there is no row for that key; the table's invariants hold |
| ViewsSpec.CartSetQuantitySpec | backend/holbierest/rest_api/views.py:111-123 | missing line: 404, no change; quantity < 1: 204 and the line is deleted; otherwise 200 with quantity n and price = unit price × n; an absent quantity keeps a line holding ≥ 1 as it is; other rows survive |
| ViewsSpec.CartRemoveLine | backend/holbierest/rest_api/views.py:126-131 | missing line: 404, no change; otherwise 204, and the table is the old one with exactly the key's row deleted (`RemoveAt` at its position), every other row kept in order; no row for the key is left |
| ViewsSpec.ApplyBonus | backend/holbierest/rest_api/views.py:177-183 | bonus used = min(requested, total); amount charged ≥ 0; charged + used = total |
| ViewsSpec.BalanceStaysNonNegative | backend/holbierest/rest_api/views.py:170-209 | a non-negative request within a non-negative balance leaves the balance ≥ 0 and ≥ old balance − bonus used |
| ViewsSpec.NegativeBonusCredits | backend/holbierest/rest_api/views.py:170-209 | a negative bonus request passes the balance check and raises the balance by at least its magnitude |
| ViewsSpec.CopyToOrder | backend/holbierest/rest_api/views.py:191-198 | one order item per cart row, in cart order, each made from its row |
| ViewsSpec.UserRowsDistinct | backend/holbierest/rest_api/models.py:45-46 | a cart unique per (user, item) holds each item at most once per user |
| ViewsSpec.CopyKeepsOrderItemsUnique | backend/holbierest/rest_api/models.py:77-78 | copying one user's cart into a new order keeps (order, menu item) unique |
| ViewsSpec.OrderIndex | backend/holbierest/rest_api/views.py:250 | finds an order by id, and is absent iff no order has that id |
| ViewsSpec.TransferTipAsWritten | backend/holbierest/rest_api/views.py:270-276 | the transfer as written (crew tip += customer tip, then customer tip := 0, each on its own copy of the user) keeps the set of users |
| ViewsSpec.SelfTransferDoublesTip | backend/holbierest/rest_api/views.py:270-276 | as written, a crew member who is also the customer ends with twice the tip |
| ViewsSpec.SelfTransferExample | backend/holbierest/rest_api/views.py:257-276 | concrete case: user 7, in Delivery Crew, tip 500, assigned to their own order, ends with 1000 |
| ViewsSpec.TransferTip | backend/holbierest/rest_api/views.py:270-276 | the crew member gains the customer's tip and the customer's becomes 0; the sum of the two tips is preserved; no other user and no other column changes |
| ViewsSpec.UpdateOrderStatus | backend/holbierest/rest_api/views.py:244-260 | 403 exactly when the requester has no group and is not a superuser; otherwise 404 for an unknown order id, 400 for a crew id that names no Delivery Crew member, and 200 exactly when all three checks pass |
| ViewsSpec.UpdateOrderMovesTip | backend/holbierest/rest_api/views.py:268-276 | on 200, when READY or DELIVERED is requested, the order has a crew member other than the customer and the customer has a tip: the crew member's tip grows by the customer's whole tip and the customer's becomes 0; otherwise no account changes |
| ViewsSpec.UpdateOrderSpec | backend/holbierest/rest_api/views.py:244-289 | no group and not superuser: 403, nothing changes; any non-200 outcome changes nothing; on 200 only the target order changes, with crew and status as requested; only the customer's and crew member's tips change, and their sum is preserved |
| ViewsSpec.TipMovesWhateverThePreviousStatus | backend/holbierest/rest_api/views.py:268-276 | the effect on users does not depend on the order's previous status |
| ViewsSpec.VisibleOrders | backend/holbierest/rest_api/views.py:139-147 | every listed order is in the table |
| ViewsSpec.VisibleOrdersSpec | backend/holbierest/rest_api/views.py:139-147 | first match wins: a superuser sees all; no group sees exactly their own; Delivery Crew sees exactly those assigned to them; any other group sees all |
| ViewsSpec.ListedReservations | backend/holbierest/rest_api/views.py:351-358 | staff or Manager list all; anyone else lists exactly their own |
| ViewsSpec.UpdatableAreListed | backend/holbierest/rest_api/views.py:370-377 | every updatable reservation is also listed; staff and managers may update exactly what they list; anyone else may update nothing, not even the reservations of their own that they list |
| ViewsSpec.AddToGroup | backend/holbierest/rest_api/views.py:299-303 | the user joins the group; no other user changes |
| ViewsSpec.RemoveFromGroup | backend/holbierest/rest_api/views.py:305-309 | the user leaves the group; no other user changes |
| ViewsSpec.GroupRoundTrip | backend/holbierest/rest_api/views.py:299-309 | add then remove restores the table for a non-member; adding twice is adding once |
| ViewsSpec.CrewMembership | backend/holbierest/rest_api/views.py:318-337 | joining Delivery Crew makes a user assignable to orders; leaving makes them unassignable |
| Views.Store.constructor | backend/holbierest/rest_api/models.py:38-78 | a store with the given menu and accounts and no cart rows, orders, order items or bonus setting satisfies the store invariants |
| Views.Store.AddToCart | backend/holbierest/rest_api/views.py:78-92 | 404 for an unknown item; otherwise the cart becomes `CartAdd` with the quantity defaulting to 1; 201 "Item added to Cart!" for a new line, 200 "Item already exists, quantity updated" otherwise |
| Views.Store.ClearCart | backend/holbierest/rest_api/views.py:95-97 | the cart becomes `CartClear`; the user has no rows and other users' rows are unchanged; response "ok" |
| Views.Store.SetCartQuantity | backend/holbierest/rest_api/views.py:111-123 | response and cart are those of `CartSetQuantity`; invariants kept |
| Views.Store.RemoveCartLine | backend/holbierest/rest_api/views.py:126-131 | response and cart are those of `CartRemoveLine`: on 204 only the key's row is deleted; invariants kept |
| Views.Store.TotalPrice | backend/holbierest/rest_api/views.py:230-236 | the loop's total is the sum of the user's row prices |
| Views.Store.BonusFraction | backend/holbierest/rest_api/views.py:149-152 | the setting is created with 2 when absent; the result is percentage / 100 |
| Views.Store.CopyCartToOrder | backend/holbierest/rest_api/views.py:191-198 | the loop appends one order item per cart row of the user, in cart order (`CopyToOrder` of the user's rows), and nothing else |
| Views.Store.OpenOrder | backend/holbierest/rest_api/views.py:186-201 | a PENDING order with the pre-bonus total and a fresh id is appended; the items are copied; the user's rows are deleted |
| Views.Store.CreditCustomer | backend/holbierest/rest_api/views.py:203-216 | balance := old + charged × pct/100 − used; the tip grows only by a positive tip |
| Views.Store.RecordOrder | backend/holbierest/rest_api/views.py:186-213 | once the checks pass: the order is opened, the items copied, the user's rows deleted, the bonus balance and tip credited; the invariants are kept |
| Views.Store.CreateOrder | backend/holbierest/rest_api/views.py:154-228 | empty cart: 400 "No items in cart"; request above balance: 400 "Insufficient bonus balance."; serializer rejects: 400; in all three nothing changes. Otherwise one order, items copied, cart emptied, balance and tip updated, 201 with the receipt |
| Views.Store.SaveUpdate | backend/holbierest/rest_api/views.py:268-285 | the updated order replaces the old one at its position; on READY or DELIVERED with a crew member and a positive customer tip, the tip moves to the crew member, otherwise no account changes; the invariants are kept |
| Views.Store.UpdateOrder | backend/holbierest/rest_api/views.py:244-289 | response and tables are those of `ViewsSpec.UpdateOrder` (with the corrected tip transfer); invariants kept |
| Views.Store.FindUser | backend/holbierest/rest_api/views.py:300 | finds the user with that username, and is absent iff none has it |
| Views.Store.SetManager | backend/holbierest/rest_api/views.py:292-309 | non-staff: 403 and no change; unknown username: 404 and no change; otherwise 200 with the add/remove message and the Manager group updated |
| Views.Store.SetDeliveryCrew | backend/holbierest/rest_api/views.py:311-337 | neither superuser nor Manager: 403 "forbidden" and no change; unknown username: 404; otherwise 200 with the add/remove message and the Delivery Crew group updated |
| Text.Split | frontend/my-react-app/src/components/Cart.jsx:8-9 | `split` yields at least one piece; joining the pieces with the separator gives the string back; no piece contains the separator |
| Text.Trim | frontend/my-react-app/src/components/Cart.jsx:9 | the result has no outer white space and is the string minus its leading and trailing white space |
| Text.TrimIdempotent | frontend/my-react-app/src/components/Cart.jsx:9 | trimming twice is trimming once |
| Cookies.TokenField | frontend/my-react-app/src/components/Cart.jsx:9 | `row.split('=')[1]` on an `authToken=` row is the text after the prefix up to the next `=` |
| Cookies.TokenRowSplit | frontend/my-react-app/src/components/Cart.jsx:9 | splitting `authToken=` + t on `=` gives "authToken" followed by the pieces of t, the first of them t up to its first `=` |
| Cookies.GetTokenFromCookies | frontend/my-react-app/src/components/Cart.jsx:7-10 | null iff no `; `-segment starts with `authToken=`; otherwise trimmed and free of `=` |
| Cookies.ReservationToken | frontend/my-react-app/src/components/Reservation.jsx:25-28 | undefined iff no segment starts with `authToken=`; otherwise free of `=` |
| Cookies.TokenIsFirstMatch | frontend/my-react-app/src/components/Menuitem.jsx:9-12 | the token comes from the first `authToken=` segment: the text up to the next `=`, trimmed (untrimmed in the reservation variant) |
| Cookies.ExtractionsAgree | frontend/my-react-app/src/components/Reservation.jsx:25-28 | both extractions find a token together; the trimming one is the other trimmed |
| Cookies.BlankTokenDiffers | frontend/my-react-app/src/components/Reservation.jsx:25-33 | a white-space token passes the reservation check but not the cart's |
| CartScreen.SetQuantitySpec | frontend/my-react-app/src/components/Cart.jsx:68-72 | only the matching lines' quantity changes; length, order, ids and prices are kept |
| CartScreen.FixUpAfterSetQuantity | frontend/my-react-app/src/components/Cart.jsx:95-102 | after the optimistic update a refusal sets the line to 1, not back to its prior quantity |
| CartScreen.RemoveLinesSpec | frontend/my-react-app/src/components/Cart.jsx:58 | removal keeps exactly the lines of other items, in order |
| CartScreen.SubtotalAppend | frontend/my-react-app/src/components/Cart.jsx:139 | the subtotal of two lists is the sum of their subtotals |
| CartScreen.SubtotalUpdate | frontend/my-react-app/src/components/Cart.jsx:139 | changing one line moves the subtotal by the change in that line's unit price × quantity |
| CartScreen.SubtotalSetQuantity | frontend/my-react-app/src/components/Cart.jsx:65-72 | the optimistic update moves the subtotal by unit price × change in quantity |
| CartScreen.SubtotalSplit | frontend/my-react-app/src/components/Cart.jsx:58 | the subtotal splits into the removed lines' totals and the remaining subtotal |
| CartScreen.HttpErrorMessageInjective | frontend/my-react-app/src/components/Cart.jsx:127-130 | different statuses or bodies give different error messages |
| CartScreen.Delta | frontend/my-react-app/src/components/Cart.jsx:82 | the delta is +1 for "increase" and −1 for anything else |
| CartScreen.CartPage.constructor | frontend/my-react-app/src/components/Cart.jsx:13-16 | empty list, no flags, no error |
| CartScreen.CartPage.RemoveItem | frontend/my-react-app/src/components/Cart.jsx:46-63 | with a token and success, the list loses exactly that item's lines; otherwise it is unchanged |
| CartScreen.CartPage.UpdateQuantity | frontend/my-react-app/src/components/Cart.jsx:65-109 | in flight or below 1: nothing happens. No token: the optimistic update and a mark that stays set. Otherwise it posts ±1; a refused request sets the line to 1, any other outcome keeps newQuantity; the mark is cleared |
| CartScreen.CartPage.UpdateQuantityWith | frontend/my-react-app/src/components/Cart.jsx:66-108 | the same, once the token has been read |
| CartScreen.CartPage.ShowOptimistic | frontend/my-react-app/src/components/Cart.jsx:68-74 | the list shows newQuantity and the line is marked in flight |
| CartScreen.CartPage.Settle | frontend/my-react-app/src/components/Cart.jsx:95-108 | fix-up on refusal; the mark is cleared |
| CartScreen.CartPage.PlaceOrder | frontend/my-react-app/src/components/Cart.jsx:111-137 | the error is cleared first. Success empties the list. An HTTP error shows "HTTP error! status: …, message: …" and a network failure its message; the list is kept in both |
| CartSync.GuardedControlMatchesServer | frontend/my-react-app/src/components/Cart.jsx:65-93 | a click past the guard leaves the server line at exactly the client's newQuantity with the same unit price, deleting nothing |
| CartSync.ServerStoresZero | backend/holbierest/rest_api/views.py:86-89 | the server alone stores quantity 0 for −1 on a line of 1 |
| CartSync.CartAddKeepsPositive | backend/holbierest/rest_api/views.py:78-92 | an add that leaves its line ≥ 1 keeps every row ≥ 1 |
| CartSync.GuardedControlKeepsPositive | frontend/my-react-app/src/components/Cart.jsx:66 | with the guard, every server row stays ≥ 1 |
| MenuScreen.TotalPages | frontend/my-react-app/src/components/Menu.jsx:39 | the fewest pages of 8 holding count items; 0 iff count is 0 |
| MenuScreen.ListingUrlInjective | frontend/my-react-app/src/components/Menu.jsx:49 | the URL determines the category (one without `&`) and the page |
| MenuScreen.PageEntries | frontend/my-react-app/src/components/Menu.jsx:69-102 | no pages, no entries |
| MenuScreen.EntriesUpToOrdered | frontend/my-react-app/src/components/Menu.jsx:73 | entries' pages lie in range and strictly increase |
| MenuScreen.ButtonIff | frontend/my-react-app/src/components/Menu.jsx:74-93 | page i has a button iff it is in 1..total and is first, last or within 2 of the current page; highlighted iff current |
| MenuScreen.EllipsisIff | frontend/my-react-app/src/components/Menu.jsx:94-97 | page i has an ellipsis iff it is in range, has no button and is current ± 3 |
| MenuScreen.EndsPresent | frontend/my-react-app/src/components/Menu.jsx:74-83 | with at least one page, the first and last pages have buttons |
| MenuScreen.WindowCount | frontend/my-react-app/src/components/Menu.jsx:84 | at most 5 pages lie in the window |
| MenuScreen.RowIsShort | frontend/my-react-app/src/components/Menu.jsx:69-102 | at most 7 buttons and 2 ellipses |
| MenuScreen.MenuPage.constructor | frontend/my-react-app/src/components/Menu.jsx:12-16 | "Main Meals", page 1 of 1, no links |
| MenuScreen.MenuPage.CategoryClick | frontend/my-react-app/src/components/Menu.jsx:52-55 | sets the category and resets to page 1 |
| MenuScreen.MenuPage.NextPage | frontend/my-react-app/src/components/Menu.jsx:57-59 | one page on only when a next link exists |
| MenuScreen.MenuPage.PreviousPage | frontend/my-react-app/src/components/Menu.jsx:61-63 | one page back only when a previous link exists |
| MenuScreen.MenuPage.PageClick | frontend/my-react-app/src/components/Menu.jsx:65-67 | jumps to the page clicked |
| MenuScreen.MenuPage.ReceiveMenu | frontend/my-react-app/src/components/Menu.jsx:31-45 | a listing replaces items (missing results: empty), links and page count; a failure records its message only; loading ends |
| MenuScreen.MenuPage.RenderPageNumbers | frontend/my-react-app/src/components/Menu.jsx:69-102 | the loop builds exactly `PageEntries` |
| MenuItemScreen.Stepped | frontend/my-react-app/src/components/Menuitem.jsx:47-49 | increase adds 1; any other action gives the larger of 1 and the quantity minus 1 |
| MenuItemScreen.SteppedStaysPositive | frontend/my-react-app/src/components/Menuitem.jsx:47-49 | the quantity stays ≥ 1 |
| MenuItemScreen.IncreaseThenDecrease | frontend/my-react-app/src/components/Menuitem.jsx:47-49 | increase then decrease returns the quantity |
| MenuItemScreen.RenderStars | frontend/my-react-app/src/components/Menuitem.jsx:77-81 | always 5 stars; the star at index k is lit exactly when k < rating |
| MenuItemScreen.PickerMatchesDisplay | frontend/my-react-app/src/components/Menuitem.jsx:178-185 | the picker highlights star s iff s ≤ rating, the same stars as the display |
| MenuItemScreen.LitStars | frontend/my-react-app/src/components/Menuitem.jsx:77-81 | a rating r lights r stars, clipped to 0..5 |
| MenuItemScreen.MenuItemPage.constructor | frontend/my-react-app/src/components/Menuitem.jsx:17-22 | quantity 1, rating 0, empty message and reviews |
| MenuItemScreen.MenuItemPage.UpdateQuantity | frontend/my-react-app/src/components/Menuitem.jsx:47-49 | applies the stepper; quantity stays ≥ 1 |
| MenuItemScreen.MenuItemPage.PickStar | frontend/my-react-app/src/components/Menuitem.jsx:181 | the rating becomes the star clicked, in 1..5 |
| MenuItemScreen.MenuItemPage.SetMessage | frontend/my-react-app/src/components/Menuitem.jsx:194 | the message becomes the text typed |
| MenuItemScreen.MenuItemPage.AddToCart | frontend/my-react-app/src/components/Menuitem.jsx:51-75 | sends {menuitem_id, quantity ≥ 1} iff there is a token |
| MenuItemScreen.MenuItemPage.SubmitReview | frontend/my-react-app/src/components/Menuitem.jsx:83-116 | no token: nothing. Otherwise it sends the rating, message and item; success appends the review and resets message and rating, failure changes nothing |
| ReservationScreen.Set | frontend/my-react-app/src/components/Reservation.jsx:18-21 | the named field takes the value and every other field is kept |
| ReservationScreen.SetLaws | frontend/my-react-app/src/components/Reservation.jsx:18-21 | a second change overrides the first; writing back a field's own value changes nothing |
| ReservationScreen.BodyRoundTrip | frontend/my-react-app/src/components/Reservation.jsx:42-48 | date, time, phone → phone_number, people → number_of_guests, comments → message: the form can be read back from the body and vice versa |
| ReservationScreen.ReservationPage.constructor | frontend/my-react-app/src/components/Reservation.jsx:8-16 | five empty fields, no reservations, loading |
| ReservationScreen.ReservationPage.HandleChange | frontend/my-react-app/src/components/Reservation.jsx:18-21 | the form becomes `Set` of the old form |
| ReservationScreen.ReservationPage.HandleSubmit | frontend/my-react-app/src/components/Reservation.jsx:23-49 | a body is sent iff the token is truthy, and the form can be read back from it |
| ReservationScreen.ReservationPage.FetchReservations | frontend/my-react-app/src/components/Reservation.jsx:64-94 | no token: nothing changes and loading stays on. Otherwise results (missing: empty) replace the list, a failure keeps it, and loading ends |

## Left out

- Network and I/O:
  - HTTP, fetch and JSON decoding are not modelled; each handler takes its request's
    outcome as a parameter.
  - `window.location` redirects, `alert`, and console and `print` logging are left out.
- Rendering and JSX markup are left out, as are the components outside the core
  (routing, login, navbar, home, register, orders list).
- Concurrency: interleaved async requests and last-response-wins races are not
  modelled. Each handler is one atomic step.
- The Django ORM and permission plumbing:
  - the requester is assumed authenticated, so a 401 from `IsAuthenticated` is not
    modelled;
  - `IsManagerMemberOrAdmin` is not part of this model;
  - the Manager and Delivery Crew groups are assumed to exist;
  - a request without `username` or `menuitem_id`, and a non-numeric `quantity` or
    `delivery_crew`, raise server errors that are not modelled.
- `OrderSerializer`: its validation is a boolean parameter of `Views.Store.CreateOrder`.
  A new order always opens as PENDING with no crew member (`Models.DefaultOrder`), so any
  `status` or `delivery_crew` in the request body is ignored. The serializer is not part
  of this model, so whether it would accept those fields is not modelled.
  Its rendering of rows is the opaque body `Serialized`, and it is otherwise left out.
- The column constraints (price ranges, 16-bit quantities, status choices) are stated
  as predicates but are not enforced by the views. The model does not prove them
  preserved, since the views can write out-of-range values (any status string, any
  integer quantity).
- The cart page's Order Total cell shows the same `subtotal` value as its Cart Subtotal
  cell (`Cart.jsx` lines 198-203), so it is `CartScreen.Subtotal` and has no member of
  its own.
- `timezone.now()` for the order date, and the date and time columns, are left out.
  Reservation dates and times are kept as text.
- Money is in integer cents. Requests carrying fractions of a cent, and JavaScript
  floating point and `toFixed(2)` display formatting, are not modelled.
- The category fetch and the initial cart and review fetches only store server
  results, and are left out.
- Review and reservation creation on the server only attach the requesting user via
  the serializer, and are left out.
- `Views.Store.UpdateOrder` applies the corrected tip transfer (see Findings), not
  the one in the code.

## Findings

| source | as written | input that shows it | evidently intended | confidence | as-written member | corrected member |
|---|---|---|---|---|---|---|
| backend/holbierest/rest_api/views.py:270-276 | `order.user` and `order.delivery_crew` are loaded as two separate objects. The crew copy gains the customer's tip; the customer copy is set to 0 and saved; then the crew copy is saved. | A customer who is also in Delivery Crew, tip 5.00, is assigned to their own order, which is then set to READY. The tip becomes 10.00. | The tip moves to the crew member and the sum of tips is preserved; when both are one person, the tip stays where it is. | not executed | ViewsSpec.SelfTransferExample | ViewsSpec.TransferTip |
