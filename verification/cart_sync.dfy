/** How the cart page's quantity controls meet `CartView.post` on the server. The
    controls post a delta of +1 or -1; the server adds it to the stored quantity and
    never deletes a row on that path, so the client's guard `newQuantity < 1` is the only
    thing that keeps a quantity at 1 or more. */
module CartSync {
  import opened Common
  import opened Models
  import opened ViewsSpec
  import opened CartScreen

  /** Every cart row holds at least one of its item. */
  predicate PositiveQuantities(rows: seq<CartRow>) {
    forall k :: 0 <= k < |rows| ==> rows[k].quantity >= 1
  }

  /** When the page shows the quantity the server stores and the guard lets a click
      through, the post leaves the server row with exactly the quantity the page now
      shows, at the same unit price, and deletes nothing. */
  lemma GuardedControlMatchesServer(rows: seq<CartRow>, user: UserId, item: MenuItem, action: string, newQuantity: int)
    requires Line(rows, user, item.id).Some?
    requires newQuantity == Line(rows, user, item.id).value.quantity + Delta(action)
    requires newQuantity >= 1
    ensures |CartAdd(rows, user, item, Delta(action))| == |rows|
    ensures Line(CartAdd(rows, user, item, Delta(action)), user, item.id).Some?
    ensures Line(CartAdd(rows, user, item, Delta(action)), user, item.id).value.quantity == newQuantity
    ensures Line(CartAdd(rows, user, item, Delta(action)), user, item.id).value.unitPrice ==
      Line(rows, user, item.id).value.unitPrice
  {
  }

  /** The server itself has no such guard: posting -1 against a row holding 1 stores a
      row holding 0 rather than deleting it. */
  lemma ServerStoresZero(rows: seq<CartRow>, user: UserId, item: MenuItem)
    requires Line(rows, user, item.id).Some? && Line(rows, user, item.id).value.quantity == 1
    ensures |CartAdd(rows, user, item, -1)| == |rows|
    ensures Line(CartAdd(rows, user, item, -1), user, item.id).value.quantity == 0
  {
  }

  /** Adding to a line so that it stays at 1 or more keeps every row of the cart at 1 or
      more: rows other than the line are untouched, a new line starts at the amount added. */
  lemma CartAddKeepsPositive(rows: seq<CartRow>, user: UserId, item: MenuItem, q: int)
    requires PositiveQuantities(rows)
    requires (if Line(rows, user, item.id).Some? then Line(rows, user, item.id).value.quantity else 0) + q >= 1
    ensures PositiveQuantities(CartAdd(rows, user, item, q))
  {
    var r := CartAdd(rows, user, item, q);
    match RowIndex(rows, user, item.id)
    case None =>
      assert r == rows + [CartRow(user, item.id, q, item.price, item.price * q)];
    case Some(k) =>
      assert r == rows[k := rows[k].(quantity := rows[k].quantity + q, price := (rows[k].quantity + q) * rows[k].unitPrice)];
  }

  /** So a click the client guard lets through keeps every row of the server cart at 1 or
      more. */
  lemma GuardedControlKeepsPositive(rows: seq<CartRow>, user: UserId, item: MenuItem, action: string, newQuantity: int)
    requires PositiveQuantities(rows)
    requires Line(rows, user, item.id).Some?
    requires newQuantity == Line(rows, user, item.id).value.quantity + Delta(action)
    requires newQuantity >= 1
    ensures PositiveQuantities(CartAdd(rows, user, item, Delta(action)))
  {
    CartAddKeepsPositive(rows, user, item, Delta(action));
  }
}
