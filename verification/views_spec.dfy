/** The rules of the REST views (views.py) as functions on table contents: what each
    request does to the cart, order and user tables, and which rows each queryset
    selects. The `Store` class of module Views performs these steps in place and is
    proved against these functions. */
module ViewsSpec {
  import opened Common
  import opened Models

  const HttpOk := 200
  const HttpCreated := 201
  const HttpNoContent := 204
  const HttpBadRequest := 400
  const HttpForbidden := 403
  const HttpNotFound := 404

  /** What a view puts in its response body. */
  datatype Body =
    | Message(text: string)           // {"message": ...}
    | Error(text: string)             // {"error": ...}
    | Detail(text: string)            // {"detail": ...} from a refused permission class
    | PlainOk                         // Response("ok")
    | NotFound                        // the detail that get_object_or_404 raises
    | Serialized                      // a serializer's rendering of the saved row
    | Invalid                         // a serializer's validation errors
    | Receipt(total: int, bonusUsed: int, bonusEarned: real, totalAfterBonus: int, tip: int)

  datatype Response = Response(status: int, body: Body)

  /** The custom user model: the columns the views read and write. */
  datatype User = User(
    username: string, isSuperuser: bool, isStaff: bool, groups: set<string>,
    bonusEarned: real, tip: int)

  /** No two accounts share a username (the user model's `username` is unique). */
  predicate UniqueNames(users: map<UserId, User>) {
    forall a, b :: a in users && b in users && a != b ==> users[a].username != users[b].username
  }

  /** `after` holds the same accounts as `before`, under the same usernames. */
  predicate SameNames(before: map<UserId, User>, after: map<UserId, User>) {
    after.Keys == before.Keys && forall v :: v in before ==> after[v].username == before[v].username
  }

  lemma SameNamesKeepUnique(before: map<UserId, User>, after: map<UserId, User>)
    requires UniqueNames(before) && SameNames(before, after)
    ensures UniqueNames(after)
  {
  }

  const ManagerGroup := "Manager"
  const DeliveryCrewGroup := "Delivery Crew"

  /** The bonus percentage a new SiteSettings row is created with. */
  const DefaultBonusPercentage: real := 2.0

  // ---------------------------------------------------------------- cart rows

  predicate IsKey(r: CartRow, user: UserId, item: ItemId) {
    r.user == user && r.menuitem == item
  }

  /** Each row's price is its quantity times its unit price. */
  predicate PricedRows(rows: seq<CartRow>) {
    forall k :: 0 <= k < |rows| ==> rows[k].price == rows[k].quantity * rows[k].unitPrice
  }

  /** The position of the cart row of `user` for menu item `item`, if there is one. */
  function RowIndex(rows: seq<CartRow>, user: UserId, item: ItemId): (r: Option<nat>)
    ensures r.Some? ==> r.value < |rows| && IsKey(rows[r.value], user, item)
    ensures r.Some? ==> forall k :: 0 <= k < r.value ==> !IsKey(rows[k], user, item)
    ensures r.None? <==> forall k :: 0 <= k < |rows| ==> !IsKey(rows[k], user, item)
  {
    if rows == [] then None
    else if IsKey(rows[0], user, item) then Some(0)
    else match RowIndex(rows[1..], user, item)
      case None => None
      case Some(k) => Some(k + 1)
  }

  /** The first row of a key is found where it stands. */
  lemma {:induction false} RowIndexAt(rows: seq<CartRow>, user: UserId, item: ItemId, k: nat)
    requires k < |rows| && IsKey(rows[k], user, item)
    requires forall j :: 0 <= j < k ==> !IsKey(rows[j], user, item)
    ensures RowIndex(rows, user, item) == Some(k)
  {
    if k > 0 {
      RowIndexAt(rows[1..], user, item, k - 1);
    }
  }

  /** The cart row of `user` for `item`, if there is one. */
  function Line(rows: seq<CartRow>, user: UserId, item: ItemId): Option<CartRow> {
    match RowIndex(rows, user, item)
    case None => None
    case Some(k) => Some(rows[k])
  }

  /** `CartView.post`: add `q` of menu item `item` to the cart of `user`. The row is
      created with quantity `q` at the menu price, or, when the user already has a row
      for the item, its quantity grows by `q` and its price is recomputed. */
  function CartAdd(rows: seq<CartRow>, user: UserId, item: MenuItem, q: int): (r: seq<CartRow>)
    ensures |r| == |rows| + (if Line(rows, user, item.id).None? then 1 else 0)
    ensures forall k :: 0 <= k < |rows| && !IsKey(rows[k], user, item.id) ==> r[k] == rows[k]
    ensures Line(r, user, item.id).Some?
    ensures Line(r, user, item.id).value.quantity ==
      (if Line(rows, user, item.id).Some? then Line(rows, user, item.id).value.quantity else 0) + q
    ensures Line(r, user, item.id).value.unitPrice ==
      (if Line(rows, user, item.id).Some? then Line(rows, user, item.id).value.unitPrice else item.price)
    ensures UniqueCart(rows) ==> UniqueCart(r)
    ensures PricedRows(rows) ==> PricedRows(r)
  {
    match RowIndex(rows, user, item.id)
    case None =>
      var r := rows + [CartRow(user, item.id, q, item.price, item.price * q)];
      RowIndexAt(r, user, item.id, |rows|);
      r
    case Some(k) =>
      var n := rows[k].quantity + q;
      var r := rows[k := rows[k].(quantity := n, price := n * rows[k].unitPrice)];
      RowIndexAt(r, user, item.id, k);
      r
  }

  function OwnedBy(user: UserId): CartRow -> bool {
    (r: CartRow) => r.user == user
  }

  function NotOwnedBy(user: UserId): CartRow -> bool {
    (r: CartRow) => r.user != user
  }

  /** The rows of one user, in table order: `Cart.objects.filter(user=user)`. */
  function UserRows(rows: seq<CartRow>, user: UserId): seq<CartRow> {
    Filter(rows, OwnedBy(user))
  }

  /** `CartView.delete`: delete every row of `user`. */
  function CartClear(rows: seq<CartRow>, user: UserId): seq<CartRow> {
    Filter(rows, NotOwnedBy(user))
  }

  /** Clearing a cart removes every row of the requesting user and leaves every other
      user's rows exactly as they were, in the same order. */
  lemma CartClearSpec(rows: seq<CartRow>, user: UserId)
    ensures UserRows(CartClear(rows, user), user) == []
    ensures forall v :: v != user ==> UserRows(CartClear(rows, user), v) == UserRows(rows, v)
    ensures UniqueCart(rows) ==> UniqueCart(CartClear(rows, user))
    ensures PricedRows(rows) ==> PricedRows(CartClear(rows, user))
  {
    var notMine := NotOwnedBy(user);
    FilterDropsAll(CartClear(rows, user), OwnedBy(user));
    forall v | v != user
      ensures UserRows(CartClear(rows, user), v) == UserRows(rows, v)
    {
      FilterFilter(rows, notMine, OwnedBy(v), OwnedBy(v));
    }
    if UniqueCart(rows) {
      FilterKeepsUnique(rows, notMine);
    }
  }

  /** Deleting rows cannot break the uniqueness of (user, menu item). */
  lemma {:induction false} FilterKeepsUnique(rows: seq<CartRow>, p: CartRow -> bool)
    requires UniqueCart(rows)
    ensures UniqueCart(Filter(rows, p))
  {
    if rows != [] {
      FilterKeepsUnique(rows[1..], p);
      var tail := Filter(rows[1..], p);
      forall j | 0 <= j < |tail| ensures !IsKey(tail[j], rows[0].user, rows[0].menuitem) {
        var m :| 0 <= m < |rows[1..]| && rows[1..][m] == tail[j];
        assert rows[m + 1] == tail[j];
      }
    }
  }

  /** The table without the row at position `k`. */
  function RemoveAt(rows: seq<CartRow>, k: nat): (r: seq<CartRow>)
    requires k < |rows|
    ensures |r| == |rows| - 1
    ensures forall j :: 0 <= j < k ==> r[j] == rows[j]
    ensures forall j :: k <= j < |r| ==> r[j] == rows[j + 1]
  {
    rows[..k] + rows[k + 1..]
  }

  /** Removing the row of a key leaves no row for it and keeps the table's invariants. */
  lemma RemoveAtSpec(rows: seq<CartRow>, k: nat)
    requires k < |rows| && UniqueCart(rows)
    ensures UniqueCart(RemoveAt(rows, k))
    ensures PricedRows(rows) ==> PricedRows(RemoveAt(rows, k))
    ensures Line(RemoveAt(rows, k), rows[k].user, rows[k].menuitem).None?
  {
    var r := RemoveAt(rows, k);
    forall i, j | 0 <= i < j < |r|
      ensures r[i].user != r[j].user || r[i].menuitem != r[j].menuitem
    {
      var i' := if i < k then i else i + 1;
      var j' := if j < k then j else j + 1;
      assert r[i] == rows[i'] && r[j] == rows[j'];
    }
    forall j | 0 <= j < |r| ensures !IsKey(r[j], rows[k].user, rows[k].menuitem) {
      var j' := if j < k then j else j + 1;
      assert r[j] == rows[j'];
    }
  }

  /** The outcome of a cart request: the response and the new cart table. */
  datatype CartResult = CartResult(response: Response, rows: seq<CartRow>)

  /** `SingleCartItemView.put`: set the quantity of one line (keeping it when the request
      has none); a quantity below 1 deletes the line. */
  function CartSetQuantity(rows: seq<CartRow>, user: UserId, item: ItemId, quantity: Option<int>): CartResult {
    match RowIndex(rows, user, item)
    case None => CartResult(Response(HttpNotFound, NotFound), rows)
    case Some(k) =>
      var n := quantity.GetOr(rows[k].quantity);
      if n < 1 then
        CartResult(Response(HttpNoContent, Message("Item removed from cart")), RemoveAt(rows, k))
      else
        CartResult(Response(HttpOk, Serialized), rows[k := rows[k].(quantity := n, price := rows[k].unitPrice * n)])
  }

  /** What setting a quantity does, case by case: a missing line is 404 and nothing
      changes; a new quantity below 1 deletes the line with 204; otherwise the line gets
      the new quantity and price, and every other row stays put. An absent quantity on a
      line that holds at least 1 changes nothing. */
  lemma CartSetQuantitySpec(rows: seq<CartRow>, user: UserId, item: ItemId, quantity: Option<int>)
    requires UniqueCart(rows) && PricedRows(rows)
    ensures var r := CartSetQuantity(rows, user, item, quantity);
      && UniqueCart(r.rows) && PricedRows(r.rows)
      && (Line(rows, user, item).None? ==> r.response.status == HttpNotFound && r.rows == rows)
      && (Line(rows, user, item).Some? && quantity.GetOr(Line(rows, user, item).value.quantity) < 1 ==>
            r.response.status == HttpNoContent && Line(r.rows, user, item).None? && |r.rows| == |rows| - 1)
      && (Line(rows, user, item).Some? && quantity.GetOr(Line(rows, user, item).value.quantity) >= 1 ==>
            var n := quantity.GetOr(Line(rows, user, item).value.quantity);
            r.response.status == HttpOk && |r.rows| == |rows|
            && Line(r.rows, user, item) == Some(Line(rows, user, item).value.(quantity := n, price := Line(rows, user, item).value.unitPrice * n)))
      && (quantity.None? && Line(rows, user, item).Some? && Line(rows, user, item).value.quantity >= 1 ==> r.rows == rows)
      && (forall k :: 0 <= k < |rows| && !IsKey(rows[k], user, item) ==> rows[k] in r.rows)
  {
    match RowIndex(rows, user, item)
    case None =>
    case Some(k) =>
      var n := quantity.GetOr(rows[k].quantity);
      if n >= 1 {
        ReplaceLineSpec(rows, user, item, k, n);
        if quantity.None? {
          assert rows[k].unitPrice * n == n * rows[k].unitPrice;
          assert rows[k := rows[k].(quantity := n, price := rows[k].unitPrice * n)] == rows;
        }
      } else {
        RemoveAtSpec(rows, k);
        RemoveAtKeepsOthers(rows, user, item, k);
      }
  }

  /** Rewriting the quantity of the first row of a key keeps the table's invariants and
      every row of another key. */
  lemma ReplaceLineSpec(rows: seq<CartRow>, user: UserId, item: ItemId, k: nat, n: int)
    requires UniqueCart(rows) && PricedRows(rows)
    requires RowIndex(rows, user, item) == Some(k)
    ensures var r := rows[k := rows[k].(quantity := n, price := rows[k].unitPrice * n)];
      && UniqueCart(r) && PricedRows(r)
      && Line(r, user, item) == Some(rows[k].(quantity := n, price := rows[k].unitPrice * n))
      && (forall j :: 0 <= j < |rows| && !IsKey(rows[j], user, item) ==> rows[j] in r)
  {
    var row := rows[k].(quantity := n, price := rows[k].unitPrice * n);
    var r := rows[k := row];
    assert row.price == row.quantity * row.unitPrice;
    forall j | 0 <= j < |r| ensures r[j].price == r[j].quantity * r[j].unitPrice {
      if j != k { assert r[j] == rows[j]; }
    }
    forall i, j | 0 <= i < j < |r| ensures r[i].user != r[j].user || r[i].menuitem != r[j].menuitem {
      assert rows[i].user != rows[j].user || rows[i].menuitem != rows[j].menuitem;
    }
    RowIndexAt(r, user, item, k);
    forall j | 0 <= j < |rows| && !IsKey(rows[j], user, item) ensures rows[j] in r {
      assert r[j] == rows[j];
    }
  }

  /** Deleting the row of one key keeps every row of another key. */
  lemma RemoveAtKeepsOthers(rows: seq<CartRow>, user: UserId, item: ItemId, k: nat)
    requires k < |rows| && IsKey(rows[k], user, item)
    ensures forall j :: 0 <= j < |rows| && !IsKey(rows[j], user, item) ==> rows[j] in RemoveAt(rows, k)
  {
    forall j | 0 <= j < |rows| && !IsKey(rows[j], user, item) ensures rows[j] in RemoveAt(rows, k) {
      if j < k { assert RemoveAt(rows, k)[j] == rows[j]; }
      else { assert RemoveAt(rows, k)[j - 1] == rows[j]; }
    }
  }

  /** `SingleCartItemView.delete`: delete one line. */
  function CartRemoveLine(rows: seq<CartRow>, user: UserId, item: ItemId): (r: CartResult)
    ensures Line(rows, user, item).None? ==> r.response.status == HttpNotFound && r.rows == rows
    ensures Line(rows, user, item).Some? ==> r.response.status == HttpNoContent && |r.rows| == |rows| - 1
    ensures RowIndex(rows, user, item).Some? ==> r.rows == RemoveAt(rows, RowIndex(rows, user, item).value)
    ensures UniqueCart(rows) ==> UniqueCart(r.rows) && Line(r.rows, user, item).None?
    ensures UniqueCart(rows) && PricedRows(rows) ==> PricedRows(r.rows)
  {
    match RowIndex(rows, user, item)
    case None => CartResult(Response(HttpNotFound, NotFound), rows)
    case Some(k) =>
      var r := RemoveAt(rows, k);
      assert UniqueCart(rows) ==>
        UniqueCart(r) && Line(r, user, item).None? && (PricedRows(rows) ==> PricedRows(r)) by {
        if UniqueCart(rows) { RemoveAtSpec(rows, k); }
      }
      CartResult(Response(HttpNoContent, Message("Cart item deleted successfully")), RemoveAt(rows, k))
  }

  // ---------------------------------------------------------------- order creation

  /** `OrderView.get_total_price` over the rows it reads: the sum of their prices. */
  function SumPrices(rows: seq<CartRow>): int {
    if rows == [] then 0 else SumPrices(rows[..|rows| - 1]) + rows[|rows| - 1].price
  }

  /** Taking the rows of one user prefix by prefix: the next row joins them exactly when
      it belongs to that user. */
  lemma UserRowsStep(rows: seq<CartRow>, user: UserId, i: nat)
    requires i < |rows|
    ensures UserRows(rows[..i + 1], user) ==
      UserRows(rows[..i], user) + (if rows[i].user == user then [rows[i]] else [])
  {
    assert rows[..i + 1] == rows[..i] + [rows[i]];
    FilterAppend(rows[..i], [rows[i]], OwnedBy(user));
  }

  /** Summing prices row by row: one more row adds its price. */
  lemma SumPricesSnoc(rows: seq<CartRow>, row: CartRow)
    ensures SumPrices(rows + [row]) == SumPrices(rows) + row.price
  {
    assert (rows + [row])[..|rows|] == rows;
  }

  /** How a requested bonus is applied to an order total. */
  datatype BonusSplit = BonusSplit(totalAfterBonus: int, bonusUsed: int)

  /** Lines 178-181 of views.py: subtract the requested bonus, and when that would go
      below zero charge nothing and use only as much bonus as the total. The bonus used
      is the smaller of the request and the total; nothing below 0 is charged; what is
      charged and what is used add up to the total. A negative request is not refused. */
  function ApplyBonus(total: int, requested: int): (b: BonusSplit)
    ensures b.bonusUsed == if requested <= total then requested else total
    ensures b.totalAfterBonus >= 0
    ensures b.totalAfterBonus + b.bonusUsed == total
  {
    var after := total - requested;
    if after < 0 then BonusSplit(0, total) else BonusSplit(after, requested)
  }

  /** The bonus percentage in force: the stored setting, or 2 when the settings row does
      not exist yet (it is then created with 2). */
  function EffectivePercentage(setting: Option<real>): real {
    setting.GetOr(DefaultBonusPercentage)
  }

  /** Lines 204-209: accrue `pct` percent of the amount charged, then deduct the bonus used. */
  function NewBalance(balance: real, split: BonusSplit, pct: real): real {
    balance + split.totalAfterBonus as real * (pct / 100.0) - split.bonusUsed as real
  }

  /** A customer who asks for no more bonus than they hold, at a non-negative percentage,
      keeps a non-negative balance, and is credited the accrual on what they paid. */
  lemma BalanceStaysNonNegative(balance: real, total: int, requested: int, pct: real)
    requires 0.0 <= balance && 0 <= requested && requested as real <= balance && pct >= 0.0
    ensures NewBalance(balance, ApplyBonus(total, requested), pct) >= 0.0
    ensures NewBalance(balance, ApplyBonus(total, requested), pct) >=
      balance - ApplyBonus(total, requested).bonusUsed as real
  {
    var b := ApplyBonus(total, requested);
    var accrual := b.totalAfterBonus as real * (pct / 100.0);
    assert accrual >= 0.0 by {
      assert b.totalAfterBonus as real >= 0.0 && pct / 100.0 >= 0.0;
    }
    assert b.bonusUsed <= requested;
  }

  /** A negative bonus request passes the balance check and INCREASES the balance by at
      least its magnitude (views.py never rejects `bonus_used < 0`). */
  lemma NegativeBonusCredits(balance: real, total: int, requested: int, pct: real)
    requires requested < 0 && 0 <= total && pct >= 0.0 && balance >= 0.0
    ensures !(requested as real > balance)
    ensures NewBalance(balance, ApplyBonus(total, requested), pct) >= balance - requested as real
  {
    var b := ApplyBonus(total, requested);
    assert b.bonusUsed == requested;
    assert b.totalAfterBonus as real * (pct / 100.0) >= 0.0 by {
      assert b.totalAfterBonus as real >= 0.0 && pct / 100.0 >= 0.0;
    }
  }

  /** The order item made from one cart row. */
  function ItemFromRow(order: OrderId, r: CartRow): (i: OrderItem)
    ensures i.order == order && i.menuitem == r.menuitem && i.quantity == r.quantity && i.price == r.price
  {
    OrderItem(order, r.menuitem, r.quantity, r.price)
  }

  /** Lines 191-198: one order item per cart row, in cart order. */
  function CopyToOrder(rows: seq<CartRow>, order: OrderId): (r: seq<OrderItem>)
    ensures |r| == |rows|
    ensures forall k :: 0 <= k < |rows| ==> r[k] == ItemFromRow(order, rows[k])
  {
    if rows == [] then [] else CopyToOrder(rows[..|rows| - 1], order) + [ItemFromRow(order, rows[|rows| - 1])]
  }

  /** Copying row by row: one more row adds its order item at the end. */
  lemma CopyToOrderSnoc(rows: seq<CartRow>, row: CartRow, order: OrderId)
    ensures CopyToOrder(rows + [row], order) == CopyToOrder(rows, order) + [ItemFromRow(order, row)]
  {
    assert (rows + [row])[..|rows|] == rows;
  }

  /** No two rows share a menu item. */
  predicate DistinctItems(rows: seq<CartRow>) {
    forall i, j :: 0 <= i < j < |rows| ==> rows[i].menuitem != rows[j].menuitem
  }

  /** A cart that is unique per (user, menu item) holds each item at most once per user. */
  lemma {:induction false} UserRowsDistinct(rows: seq<CartRow>, user: UserId)
    requires UniqueCart(rows)
    ensures DistinctItems(UserRows(rows, user))
  {
    if rows != [] {
      UserRowsDistinct(rows[1..], user);
      var tail := UserRows(rows[1..], user);
      forall j | 0 <= j < |tail| && rows[0].user == user ensures tail[j].menuitem != rows[0].menuitem {
        var m :| 0 <= m < |rows[1..]| && rows[1..][m] == tail[j];
        assert rows[m + 1] == tail[j];
      }
    }
  }

  /** Copying one user's cart into a new order keeps `unique_together = ('order',
      'menuitem')`: the new order's id is unused and the user's rows name each menu item
      once. */
  lemma CopyKeepsOrderItemsUnique(items: seq<OrderItem>, rows: seq<CartRow>, user: UserId, order: OrderId)
    requires UniqueOrderItems(items) && UniqueCart(rows)
    requires forall k :: 0 <= k < |items| ==> items[k].order != order
    ensures UniqueOrderItems(items + CopyToOrder(UserRows(rows, user), order))
  {
    UserRowsDistinct(rows, user);
    var mine := UserRows(rows, user);
    var all := items + CopyToOrder(mine, order);
    forall i, j | 0 <= i < j < |all| ensures all[i].order != all[j].order || all[i].menuitem != all[j].menuitem {
      if i >= |items| {
        assert all[i] == ItemFromRow(order, mine[i - |items|]);
        assert all[j] == ItemFromRow(order, mine[j - |items|]);
      } else if j >= |items| {
        assert all[j].order == order;
      }
    }
  }

  // ---------------------------------------------------------------- order update

  function OrderIndex(orders: seq<Order>, id: OrderId): (r: Option<nat>)
    ensures r.Some? ==> r.value < |orders| && orders[r.value].id == id
    ensures r.None? <==> forall k :: 0 <= k < |orders| ==> orders[k].id != id
  {
    if orders == [] then None
    else if orders[0].id == id then Some(0)
    else match OrderIndex(orders[1..], id)
      case None => None
      case Some(k) => Some(k + 1)
  }

  /** `User.objects.get(id=..., groups__name='Delivery Crew')` finds a user. */
  predicate IsCrewMember(users: map<UserId, User>, id: UserId) {
    id in users && DeliveryCrewGroup in users[id].groups
  }

  /** Lines 270-276 AS WRITTEN: `order.user` and `order.delivery_crew` are two separate
      in-memory users; the crew copy gains the customer's tip, the customer copy is
      zeroed, the customer is saved and then the crew member. */
  function TransferTipAsWritten(users: map<UserId, User>, customer: UserId, crew: UserId): (r: map<UserId, User>)
    requires customer in users && crew in users
    ensures r.Keys == users.Keys
  {
    var crewCopy := users[crew].(tip := users[crew].tip + users[customer].tip);
    var customerCopy := users[customer].(tip := 0);
    users[customer := customerCopy][crew := crewCopy]
  }

  /** When the delivery crew member is the customer, the as-written transfer doubles the
      tip instead of leaving it where it is. */
  lemma SelfTransferDoublesTip(users: map<UserId, User>, u: UserId)
    requires u in users && users[u].tip > 0
    ensures TransferTipAsWritten(users, u, u)[u].tip == 2 * users[u].tip
    ensures TransferTipAsWritten(users, u, u)[u].tip != users[u].tip
  {
  }

  /** A concrete case: a customer who is also in the Delivery Crew group, with a tip of
      5.00, is assigned to their own order; marking it READY leaves them 10.00. */
  lemma SelfTransferExample()
    ensures var users := map[7 := User("sam", false, false, {DeliveryCrewGroup}, 0.0, 500)];
      IsCrewMember(users, 7) && TransferTipAsWritten(users, 7, 7)[7].tip == 1000
  {
  }

  /** The evidently intended transfer: the crew member gains the customer's tip and the
      customer's tip becomes 0; a customer who is their own crew keeps the tip. */
  function TransferTip(users: map<UserId, User>, customer: UserId, crew: UserId): (r: map<UserId, User>)
    requires customer in users && crew in users
    ensures r.Keys == users.Keys
    ensures r[customer].tip + (if crew == customer then 0 else r[crew].tip) ==
      users[customer].tip + (if crew == customer then 0 else users[crew].tip)
    ensures crew != customer ==> r[customer].tip == 0 && r[crew].tip == users[crew].tip + users[customer].tip
    ensures forall v :: v in users && v != customer && v != crew ==> r[v] == users[v]
    ensures forall v :: v in users ==> r[v] == users[v].(tip := r[v].tip)
  {
    if customer == crew then users
    else TransferTipAsWritten(users, customer, crew)
  }

  /** What an update request does to the user and order tables. */
  datatype UpdateResult = UpdateResult(response: Response, users: map<UserId, User>, orders: seq<Order>)

  /** No two orders share an id. */
  predicate UniqueOrderIds(orders: seq<Order>) {
    forall i, j :: 0 <= i < j < |orders| ==> orders[i].id != orders[j].id
  }

  /** Every order id is below `next`, the id the next order will get. */
  predicate OrderIdsBelow(orders: seq<Order>, next: OrderId) {
    forall k :: 0 <= k < |orders| ==> orders[k].id < next
  }

  /** Every order item belongs to an order id below `next`. */
  predicate OrderItemsBelow(items: seq<OrderItem>, next: OrderId) {
    forall k :: 0 <= k < |items| ==> items[k].order < next
  }

  /** Rewriting orders without touching their ids keeps the ids unique and below `next`. */
  lemma SameIdsKeepInvariants(before: seq<Order>, after: seq<Order>, next: OrderId)
    requires |after| == |before| && forall j :: 0 <= j < |before| ==> after[j].id == before[j].id
    requires UniqueOrderIds(before) && OrderIdsBelow(before, next)
    ensures UniqueOrderIds(after) && OrderIdsBelow(after, next)
  {
  }

  /** An order appended with the next id keeps the ids unique. */
  lemma AppendFreshOrder(orders: seq<Order>, o: Order, next: OrderId)
    requires UniqueOrderIds(orders) && OrderIdsBelow(orders, next) && o.id == next
    ensures UniqueOrderIds(orders + [o]) && OrderIdsBelow(orders + [o], next + 1)
  {
  }

  /** Every order names users that exist. */
  predicate OrdersReferToUsers(users: map<UserId, User>, orders: seq<Order>) {
    forall k :: 0 <= k < |orders| ==>
      orders[k].user in users && (orders[k].deliveryCrew.Some? ==> orders[k].deliveryCrew.value in users)
  }

  /** Appending an order naming existing users keeps every order's users in the table. */
  lemma AppendKeepsReferences(users: map<UserId, User>, orders: seq<Order>, o: Order)
    requires OrdersReferToUsers(users, orders)
    requires o.user in users && (o.deliveryCrew.Some? ==> o.deliveryCrew.value in users)
    ensures OrdersReferToUsers(users, orders + [o])
  {
  }

  /** The items copied into the order with the next id stay below the id after it. */
  lemma CopiedItemsBelow(items: seq<OrderItem>, rows: seq<CartRow>, order: OrderId)
    requires OrderItemsBelow(items, order)
    ensures OrderItemsBelow(items + CopyToOrder(rows, order), order + 1)
  {
  }

  /** Replacing one order by another naming existing users, in a table with the same
      accounts, keeps every order's users in the table. */
  lemma ReplaceKeepsReferences(
    before: map<UserId, User>, after: map<UserId, User>, orders: seq<Order>, k: nat, o: Order)
    requires OrdersReferToUsers(before, orders) && after.Keys == before.Keys && k < |orders|
    requires o.user in before && (o.deliveryCrew.Some? ==> o.deliveryCrew.value in before)
    ensures OrdersReferToUsers(after, orders[k := o])
  {
  }

  /** Whether the tip moves once the order has been updated to `o` by a request with
      status `newStatus`: the status named in the request is READY or DELIVERED, whatever
      the order's previous status, a crew member is assigned and the customer has a tip. */
  predicate TipMoves(users: map<UserId, User>, o: Order, newStatus: Option<string>)
    requires o.user in users
  {
    newStatus.Some? && (newStatus.value == Ready || newStatus.value == Delivered)
    && o.deliveryCrew.Some? && users[o.user].tip > 0
  }

  /** `SingleOrderView.update`. */
  function UpdateOrder(
    users: map<UserId, User>, orders: seq<Order>, requester: UserId,
    orderId: OrderId, crewId: Option<UserId>, newStatus: Option<string>): UpdateResult
    requires requester in users && OrdersReferToUsers(users, orders)
  {
    var me := users[requester];
    if me.groups == {} && !me.isSuperuser then
      UpdateResult(Response(HttpForbidden, Error("Not authorized to update order.")), users, orders)
    else match OrderIndex(orders, orderId)
      case None => UpdateResult(Response(HttpNotFound, NotFound), users, orders)
      case Some(k) =>
        if crewId.Some? && !IsCrewMember(users, crewId.value) then
          UpdateResult(Response(HttpBadRequest, Error("Invalid delivery crew ID.")), users, orders)
        else
          var updated := UpdatedOrder(orders[k], crewId, newStatus);
          UpdateResult(Response(HttpOk, Serialized), UsersAfterUpdate(users, updated, newStatus), orders[k := updated])
  }

  /** Lines 253-266: the order with the requested crew member and status, where given. */
  function UpdatedOrder(o: Order, crewId: Option<UserId>, newStatus: Option<string>): Order {
    var withCrew := if crewId.Some? then o.(deliveryCrew := crewId) else o;
    if newStatus.Some? then withCrew.(status := newStatus.value) else withCrew
  }

  /** Lines 269-276: the user table once the updated order `o` is saved. */
  function UsersAfterUpdate(users: map<UserId, User>, o: Order, newStatus: Option<string>): map<UserId, User>
    requires o.user in users && (o.deliveryCrew.Some? ==> o.deliveryCrew.value in users)
  {
    if TipMoves(users, o, newStatus) then TransferTip(users, o.user, o.deliveryCrew.value) else users
  }

  /** The outcomes of an update: no outcome but 200 changes anything; a successful update rewrites only the target order (crew and status as requested),
      changes no user but the customer and the crew member, and only their tips, whose
      sum it preserves. */
  lemma UpdateOrderSpec(
    users: map<UserId, User>, orders: seq<Order>, requester: UserId,
    orderId: OrderId, crewId: Option<UserId>, newStatus: Option<string>)
    requires requester in users && OrdersReferToUsers(users, orders)
    ensures var r := UpdateOrder(users, orders, requester, orderId, crewId, newStatus);
      && (users[requester].groups == {} && !users[requester].isSuperuser ==>
            r.response.status == HttpForbidden && r.users == users && r.orders == orders)
      && (r.response.status != HttpOk ==> r.users == users && r.orders == orders)
      && (r.response.status == HttpOk ==>
            OrderIndex(orders, orderId).Some? && (crewId.Some? ==> IsCrewMember(users, crewId.value))
            && var k := OrderIndex(orders, orderId).value;
            && |r.orders| == |orders|
            && (forall j :: 0 <= j < |orders| && j != k ==> r.orders[j] == orders[j])
            && r.orders[k].id == orders[k].id && r.orders[k].user == orders[k].user
            && r.orders[k].deliveryCrew == (if crewId.Some? then crewId else orders[k].deliveryCrew)
            && r.orders[k].status == newStatus.GetOr(orders[k].status)
            && OrdersReferToUsers(r.users, r.orders)
            && r.users.Keys == users.Keys
            && (forall v :: v in users ==> r.users[v] == users[v].(tip := r.users[v].tip))
            && (forall v ::
                  (v in users && v != orders[k].user
                   && (r.orders[k].deliveryCrew.None? || v != r.orders[k].deliveryCrew.value))
                  ==> r.users[v] == users[v])
            && (r.orders[k].deliveryCrew.Some? ==>
                  var c := r.orders[k].deliveryCrew.value;
                  var u := orders[k].user;
                  r.users[u].tip + (if c == u then 0 else r.users[c].tip)
                    == users[u].tip + (if c == u then 0 else users[c].tip)))
  {
  }

  /** Which answer an update gets, in the order the view checks: 403 exactly when the
      requester has no group and is not a superuser; otherwise 404 when no order has the
      id, 400 when a crew id is given that names no Delivery Crew member, and 200 in every
      remaining case. */
  lemma UpdateOrderStatus(
    users: map<UserId, User>, orders: seq<Order>, requester: UserId,
    orderId: OrderId, crewId: Option<UserId>, newStatus: Option<string>)
    requires requester in users && OrdersReferToUsers(users, orders)
    ensures var r := UpdateOrder(users, orders, requester, orderId, crewId, newStatus);
      var permitted := users[requester].groups != {} || users[requester].isSuperuser;
      var found := OrderIndex(orders, orderId).Some?;
      var crewOk := crewId.Some? ==> IsCrewMember(users, crewId.value);
      && (r.response.status == HttpForbidden <==> !permitted)
      && (permitted && !found ==> r.response.status == HttpNotFound)
      && (permitted && found && !crewOk ==> r.response.status == HttpBadRequest)
      && (r.response.status == HttpOk <==> permitted && found && crewOk)
  {
  }

  /** What a successful update does to the tips. When the request names READY or
      DELIVERED, the updated order has a crew member other than the customer, and the
      customer has a tip, the whole tip moves to the crew member and the customer is left
      with none; in every other case no account changes. */
  lemma UpdateOrderMovesTip(
    users: map<UserId, User>, orders: seq<Order>, requester: UserId,
    orderId: OrderId, crewId: Option<UserId>, newStatus: Option<string>)
    requires requester in users && OrdersReferToUsers(users, orders)
    ensures var r := UpdateOrder(users, orders, requester, orderId, crewId, newStatus);
      r.response.status == HttpOk ==>
        && OrderIndex(orders, orderId).Some?
        && var k := OrderIndex(orders, orderId).value;
        && k < |r.orders|
        && var o := r.orders[k];
        && o.user == orders[k].user && o.user in users
        && (TipMoves(users, o, newStatus) && o.deliveryCrew.value != o.user ==>
              && o.deliveryCrew.value in users
              && r.users[o.deliveryCrew.value].tip == users[o.deliveryCrew.value].tip + users[o.user].tip
              && r.users[o.user].tip == 0)
        && (!TipMoves(users, o, newStatus) || o.deliveryCrew.value == o.user ==> r.users == users)
  {
    var r := UpdateOrder(users, orders, requester, orderId, crewId, newStatus);
    if r.response.status == HttpOk {
      var k := OrderIndex(orders, orderId).value;
      var o := UpdatedOrder(orders[k], crewId, newStatus);
      assert r.orders == orders[k := o] && r.users == UsersAfterUpdate(users, o, newStatus);
    }
  }

  /** The transfer fires on every request naming READY or DELIVERED, so a second such
      request moves whatever tip the customer has gathered since, and the previous status
      of the order plays no part. */
  lemma TipMovesWhateverThePreviousStatus(
    users: map<UserId, User>, orders: seq<Order>, requester: UserId,
    orderId: OrderId, crewId: Option<UserId>, newStatus: Option<string>, k: nat, previous: string)
    requires requester in users && OrdersReferToUsers(users, orders)
    requires k < |orders| && OrderIndex(orders, orderId) == Some(k)
    ensures OrdersReferToUsers(users, orders[k := orders[k].(status := previous)])
    ensures UpdateOrder(users, orders[k := orders[k].(status := previous)], requester, orderId, crewId, newStatus).users
         == UpdateOrder(users, orders, requester, orderId, crewId, newStatus).users
  {
    var orders' := orders[k := orders[k].(status := previous)];
    assert OrdersReferToUsers(users, orders') by {
      assert forall j :: 0 <= j < |orders| && j != k ==> orders'[j] == orders[j];
    }
    OrderIndexOfSameIds(orders, orders', orderId);
    var me := users[requester];
    if !(me.groups == {} && !me.isSuperuser) && !(crewId.Some? && !IsCrewMember(users, crewId.value)) {
      UsersAfterUpdateIgnoresStatus(users, UpdatedOrder(orders[k], crewId, newStatus),
        UpdatedOrder(orders'[k], crewId, newStatus), newStatus);
    }
  }

  /** The user table after an update depends on the order's customer and crew member
      only, not on its status. */
  lemma UsersAfterUpdateIgnoresStatus(users: map<UserId, User>, o: Order, o': Order, newStatus: Option<string>)
    requires o.user in users && (o.deliveryCrew.Some? ==> o.deliveryCrew.value in users)
    requires o'.user == o.user && o'.deliveryCrew == o.deliveryCrew
    ensures UsersAfterUpdate(users, o', newStatus) == UsersAfterUpdate(users, o, newStatus)
  {
  }

  lemma {:induction false} OrderIndexOfSameIds(a: seq<Order>, b: seq<Order>, id: OrderId)
    requires |a| == |b| && forall j :: 0 <= j < |a| ==> a[j].id == b[j].id
    ensures OrderIndex(a, id) == OrderIndex(b, id)
  {
    if a != [] {
      OrderIndexOfSameIds(a[1..], b[1..], id);
    }
  }

  // ---------------------------------------------------------------- querysets

  /** `OrderView.get_queryset`: the first rule that applies wins — a superuser sees every
      order, a user with no group their own, a Delivery Crew member those assigned to them,
      any other group member (a manager) every order. */
  function VisibleOrders(u: User, uid: UserId, orders: seq<Order>): (r: seq<Order>)
    ensures forall k :: 0 <= k < |r| ==> r[k] in orders
  {
    if u.isSuperuser then orders
    else if u.groups == {} then Filter(orders, (o: Order) => o.user == uid)
    else if DeliveryCrewGroup in u.groups then Filter(orders, (o: Order) => o.deliveryCrew == Some(uid))
    else orders
  }

  /** The visibility rules, one per role, each an if-and-only-if on the orders in the table. */
  lemma VisibleOrdersSpec(u: User, uid: UserId, orders: seq<Order>)
    ensures u.isSuperuser ==> VisibleOrders(u, uid, orders) == orders
    ensures !u.isSuperuser && u.groups == {} ==>
      forall k :: 0 <= k < |orders| ==> (orders[k] in VisibleOrders(u, uid, orders) <==> orders[k].user == uid)
    ensures !u.isSuperuser && DeliveryCrewGroup in u.groups ==>
      forall k :: 0 <= k < |orders| ==>
        (orders[k] in VisibleOrders(u, uid, orders) <==> orders[k].deliveryCrew == Some(uid))
    ensures !u.isSuperuser && u.groups != {} && DeliveryCrewGroup !in u.groups ==> VisibleOrders(u, uid, orders) == orders
  {
  }

  /** `ReservationListCreateView.get_queryset`: staff and managers list every reservation,
      anyone else only their own. */
  function ListedReservations(u: User, uid: UserId, all: seq<Reservation>): (r: seq<Reservation>)
    ensures u.isStaff || ManagerGroup in u.groups ==> r == all
    ensures !(u.isStaff || ManagerGroup in u.groups) ==>
      forall k :: 0 <= k < |all| ==> (all[k] in r <==> all[k].user == Some(uid))
  {
    if u.isStaff || ManagerGroup in u.groups then all
    else Filter(all, (r: Reservation) => r.user == Some(uid))
  }

  /** `ReservationRetrieveUpdateView.get_queryset`: staff and managers reach every
      reservation, anyone else none. */
  function UpdatableReservations(u: User, all: seq<Reservation>): (r: seq<Reservation>)
    ensures u.isStaff || ManagerGroup in u.groups ==> r == all
    ensures !(u.isStaff || ManagerGroup in u.groups) ==> r == []
  {
    if u.isStaff || ManagerGroup in u.groups then all else []
  }

  /** Whatever a user may update, they may also list; staff and managers may update
      exactly what they list, anyone else nothing, not even their own reservations. */
  lemma UpdatableAreListed(u: User, uid: UserId, all: seq<Reservation>)
    ensures forall k :: 0 <= k < |UpdatableReservations(u, all)| ==>
      UpdatableReservations(u, all)[k] in ListedReservations(u, uid, all)
    ensures u.isStaff || ManagerGroup in u.groups ==>
      UpdatableReservations(u, all) == ListedReservations(u, uid, all)
    ensures !(u.isStaff || ManagerGroup in u.groups) ==>
      forall k :: 0 <= k < |all| && all[k].user == Some(uid) ==>
        all[k] in ListedReservations(u, uid, all) && all[k] !in UpdatableReservations(u, all)
  {
  }

  // ---------------------------------------------------------------- groups

  function AddToGroup(users: map<UserId, User>, id: UserId, group: string): (r: map<UserId, User>)
    requires id in users
    ensures r.Keys == users.Keys && group in r[id].groups
    ensures r[id] == users[id].(groups := users[id].groups + {group})
    ensures forall v :: v in users && v != id ==> r[v] == users[v]
  {
    users[id := users[id].(groups := users[id].groups + {group})]
  }

  function RemoveFromGroup(users: map<UserId, User>, id: UserId, group: string): (r: map<UserId, User>)
    requires id in users
    ensures r.Keys == users.Keys && group !in r[id].groups
    ensures r[id] == users[id].(groups := users[id].groups - {group})
    ensures forall v :: v in users && v != id ==> r[v] == users[v]
  {
    users[id := users[id].(groups := users[id].groups - {group})]
  }

  /** Adding a user to a group they were not in and removing them again restores the
      table; adding twice is adding once. */
  lemma GroupRoundTrip(users: map<UserId, User>, id: UserId, group: string)
    requires id in users
    ensures group !in users[id].groups ==> RemoveFromGroup(AddToGroup(users, id, group), id, group) == users
    ensures AddToGroup(AddToGroup(users, id, group), id, group) == AddToGroup(users, id, group)
  {
    if group !in users[id].groups {
      var r := RemoveFromGroup(AddToGroup(users, id, group), id, group);
      assert r[id].groups == users[id].groups;
      assert r[id] == users[id];
    }
    var once := AddToGroup(users, id, group);
    assert once[id].groups + {group} == once[id].groups;
  }

  /** Adding a user to the Delivery Crew group makes them assignable to orders, and
      removing them makes them unassignable. */
  lemma CrewMembership(users: map<UserId, User>, id: UserId)
    requires id in users
    ensures IsCrewMember(AddToGroup(users, id, DeliveryCrewGroup), id)
    ensures !IsCrewMember(RemoveFromGroup(users, id, DeliveryCrewGroup), id)
  {
  }
}
