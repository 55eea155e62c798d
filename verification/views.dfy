/** The REST views of views.py acting on an in-memory database. Each request is one
    method of `Store`; each is proved to do to the tables exactly what the functions of
    module ViewsSpec say, and to keep the tables' invariants. */
module Views {
  import opened Common
  import opened Models
  import opened ViewsSpec

  /** What the `IsAdminUser` permission class answers a user who is not staff. */
  const NotPermitted := "You do not have permission to perform this action."

  class Store {
    var menuItems: map<ItemId, MenuItem>
    var users: map<UserId, User>
    var cart: seq<CartRow>
    var orders: seq<Order>
    var orderItems: seq<OrderItem>
    /** The `bonus_percentage` of SiteSettings row 1, once that row exists. */
    var bonusPercentage: Option<real>
    /** The id the next order will get. */
    var nextOrderId: OrderId

    ghost predicate Valid()
      reads this
    {
      && (forall id :: id in menuItems ==> menuItems[id].id == id)
      && UniqueCart(cart) && PricedRows(cart)
      && OrdersReferToUsers(users, orders)
      && UniqueOrderIds(orders) && OrderIdsBelow(orders, nextOrderId)
      && UniqueOrderItems(orderItems) && OrderItemsBelow(orderItems, nextOrderId)
      && UniqueNames(users)
    }

    /** A database with the given menu and accounts and empty cart, order and
        reservation tables. */
    constructor (menu: map<ItemId, MenuItem>, accounts: map<UserId, User>)
      requires forall id :: id in menu ==> menu[id].id == id
      requires UniqueNames(accounts)
      ensures Valid()
      ensures menuItems == menu && users == accounts
      ensures cart == [] && orders == [] && orderItems == []
      ensures bonusPercentage.None?
    {
      menuItems := menu;
      users := accounts;
      cart := [];
      orders := [];
      orderItems := [];
      bonusPercentage := None;
      nextOrderId := 1;
    }

    /** `CartView.post`: add `quantity` (1 when the request has none) of a menu item to the
        requester's cart. */
    method AddToCart(requester: UserId, menuitemId: ItemId, quantity: Option<int>) returns (resp: Response)
      requires Valid()
      modifies this`cart
      ensures Valid()
      ensures menuitemId !in menuItems ==> resp == Response(HttpNotFound, NotFound) && cart == old(cart)
      ensures menuitemId in menuItems ==>
        && cart == CartAdd(old(cart), requester, menuItems[menuitemId], quantity.GetOr(1))
        && resp == if Line(old(cart), requester, menuitemId).None?
                   then Response(HttpCreated, Message("Item added to Cart!"))
                   else Response(HttpOk, Message("Item already exists, quantity updated"))
    {
      if menuitemId !in menuItems {
        return Response(HttpNotFound, NotFound);
      }
      var menuitem := menuItems[menuitemId];
      var q := quantity.GetOr(1);
      var existing := RowIndex(cart, requester, menuitemId);
      if existing.None? {
        cart := cart + [CartRow(requester, menuitemId, q, menuitem.price, menuitem.price * q)];
        return Response(HttpCreated, Message("Item added to Cart!"));
      }
      var k := existing.value;
      var row := cart[k];
      var n := row.quantity + q;
      cart := cart[k := row.(quantity := n, price := n * row.unitPrice)];
      resp := Response(HttpOk, Message("Item already exists, quantity updated"));
    }

    /** `CartView.delete`: empty the requester's cart. */
    method ClearCart(requester: UserId) returns (resp: Response)
      requires Valid()
      modifies this`cart
      ensures Valid()
      ensures cart == CartClear(old(cart), requester)
      ensures UserRows(cart, requester) == []
      ensures forall v :: v != requester ==> UserRows(cart, v) == UserRows(old(cart), v)
      ensures resp == Response(HttpOk, PlainOk)
    {
      CartClearSpec(cart, requester);
      cart := CartClear(cart, requester);
      resp := Response(HttpOk, PlainOk);
    }

    /** `SingleCartItemView.put`: set the quantity of one line of the requester's cart. */
    method SetCartQuantity(requester: UserId, menuitemId: ItemId, quantity: Option<int>) returns (resp: Response)
      requires Valid()
      modifies this`cart
      ensures Valid()
      ensures CartResult(resp, cart) == CartSetQuantity(old(cart), requester, menuitemId, quantity)
    {
      CartSetQuantitySpec(cart, requester, menuitemId, quantity);
      var found := RowIndex(cart, requester, menuitemId);
      if found.None? {
        return Response(HttpNotFound, NotFound);
      }
      var k := found.value;
      var newQuantity := quantity.GetOr(cart[k].quantity);
      if newQuantity < 1 {
        cart := RemoveAt(cart, k);
        return Response(HttpNoContent, Message("Item removed from cart"));
      }
      cart := cart[k := cart[k].(quantity := newQuantity, price := cart[k].unitPrice * newQuantity)];
      resp := Response(HttpOk, Serialized);
    }

    /** `SingleCartItemView.delete`: delete one line of the requester's cart. */
    method RemoveCartLine(requester: UserId, menuitemId: ItemId) returns (resp: Response)
      requires Valid()
      modifies this`cart
      ensures Valid()
      ensures CartResult(resp, cart) == CartRemoveLine(old(cart), requester, menuitemId)
    {
      var r := CartRemoveLine(cart, requester, menuitemId);
      cart := r.rows;
      resp := r.response;
    }

    /** `OrderView.get_total_price`: add up the prices of the user's cart rows. */
    method TotalPrice(user: UserId) returns (total: int)
      ensures total == SumPrices(UserRows(cart, user))
    {
      total := 0;
      var i := 0;
      while i < |cart|
        invariant 0 <= i <= |cart|
        invariant total == SumPrices(UserRows(cart[..i], user))
      {
        UserRowsStep(cart, user, i);
        if cart[i].user == user {
          SumPricesSnoc(UserRows(cart[..i], user), cart[i]);
          total := total + cart[i].price;
        } else {
          assert UserRows(cart[..i + 1], user) == UserRows(cart[..i], user);
        }
        assert total == SumPrices(UserRows(cart[..i + 1], user));
        i := i + 1;
      }
      assert cart[..i] == cart;
    }

    /** `OrderView.get_bonus_percentage`: the stored percentage as a fraction, creating the
        settings row with 2 percent when it does not exist yet. */
    method BonusFraction() returns (fraction: real)
      modifies this`bonusPercentage
      ensures bonusPercentage == Some(EffectivePercentage(old(bonusPercentage)))
      ensures fraction == EffectivePercentage(old(bonusPercentage)) / 100.0
    {
      if bonusPercentage.None? {
        bonusPercentage := Some(DefaultBonusPercentage);
      }
      fraction := bonusPercentage.value / 100.0;
    }

    /** Lines 191-198: one order item per cart row of the user, in cart order. */
    method CopyCartToOrder(user: UserId, order: OrderId)
      modifies this`orderItems
      ensures orderItems == old(orderItems) + CopyToOrder(UserRows(cart, user), order)
    {
      var rows := cart;
      var i := 0;
      while i < |rows|
        invariant 0 <= i <= |rows|
        invariant orderItems == old(orderItems) + CopyToOrder(UserRows(rows[..i], user), order)
      {
        UserRowsStep(rows, user, i);
        if rows[i].user == user {
          ghost var copied := CopyToOrder(UserRows(rows[..i], user), order);
          CopyToOrderSnoc(UserRows(rows[..i], user), rows[i], order);
          var item := OrderItem(order, rows[i].menuitem, rows[i].quantity, rows[i].price);
          assert item == ItemFromRow(order, rows[i]);
          ConcatAssoc(old(orderItems), copied, [item]);
          orderItems := orderItems + [item];
        }
        i := i + 1;
      }
      assert rows[..i] == rows;
    }

    /** Lines 186-201: store a new order of `requester` for `total`, copy their cart rows
        into its order items and delete those rows. */
    method OpenOrder(requester: UserId, total: int) returns (id: OrderId)
      requires Valid() && requester in users
      modifies this`orders, this`nextOrderId, this`orderItems, this`cart
      ensures Valid()
      ensures id == old(nextOrderId) && nextOrderId == id + 1
      ensures orders == old(orders) + [DefaultOrder(id, requester).(total := total)]
      ensures orderItems == old(orderItems) + CopyToOrder(UserRows(old(cart), requester), id)
      ensures cart == CartClear(old(cart), requester)
    {
      id := nextOrderId;
      var order := DefaultOrder(id, requester).(total := total);
      AppendFreshOrder(orders, order, id);
      AppendKeepsReferences(users, orders, order);
      orders := orders + [order];
      nextOrderId := nextOrderId + 1;
      CopiedItemsBelow(orderItems, UserRows(cart, requester), id);
      CopyKeepsOrderItemsUnique(orderItems, cart, requester, id);
      CopyCartToOrder(requester, id);
      CartClearSpec(cart, requester);
      cart := CartClear(cart, requester);
    }

    /** Lines 203-213: credit the bonus earned on the amount charged, debit the bonus used,
        and add a positive tip to the customer's tip. */
    method CreditCustomer(requester: UserId, split: BonusSplit, tip: int) returns (balance: real)
      requires Valid() && requester in users
      modifies this`users, this`bonusPercentage
      ensures Valid()
      ensures balance == NewBalance(old(users)[requester].bonusEarned, split, EffectivePercentage(old(bonusPercentage)))
      ensures bonusPercentage == Some(EffectivePercentage(old(bonusPercentage)))
      ensures users == old(users)[requester := old(users)[requester].(
        bonusEarned := balance,
        tip := if tip > 0 then old(users)[requester].tip + tip else old(users)[requester].tip)]
    {
      var fraction := BonusFraction();
      var me := users[requester];
      var bonus := split.totalAfterBonus as real * fraction;
      assert bonus == split.totalAfterBonus as real * (EffectivePercentage(old(bonusPercentage)) / 100.0);
      me := me.(bonusEarned := me.bonusEarned + bonus);
      me := me.(bonusEarned := me.bonusEarned - split.bonusUsed as real);
      if tip > 0 {
        me := me.(tip := me.tip + tip);
      }
      assert SameNames(users, users[requester := me]);
      SameNamesKeepUnique(users, users[requester := me]);
      users := users[requester := me];
      balance := me.bonusEarned;
    }

    /** `OrderView.create`: turn the requester's cart into an order. An empty cart or a
        bonus request above the balance is refused with 400 and nothing changes; so is a
        request the order serializer rejects. Otherwise the order is stored with the
        pre-bonus total, the cart rows are copied into order items and deleted, the bonus
        balance accrues the percentage of the amount charged less the bonus used, and a
        positive tip is added to the requester's tip. */
    method CreateOrder(requester: UserId, tip: Option<int>, bonusUsed: Option<int>, serializerValid: bool)
      returns (resp: Response)
      requires Valid() && requester in users
      modifies this`orders, this`nextOrderId, this`orderItems, this`cart, this`users, this`bonusPercentage
      ensures Valid()
      ensures
        var rows := UserRows(old(cart), requester);
        var total := SumPrices(rows);
        var split := ApplyBonus(total, bonusUsed.GetOr(0));
        var me := old(users)[requester];
        if rows == [] then
          resp == Response(HttpBadRequest, Message("No items in cart")) && unchanged(this)
        else if bonusUsed.GetOr(0) as real > me.bonusEarned then
          resp == Response(HttpBadRequest, Message("Insufficient bonus balance.")) && unchanged(this)
        else if !serializerValid then
          resp == Response(HttpBadRequest, Invalid) && unchanged(this)
        else
          var balance := NewBalance(me.bonusEarned, split, EffectivePercentage(old(bonusPercentage)));
          var newTip := if tip.GetOr(0) > 0 then me.tip + tip.GetOr(0) else me.tip;
          && orders == old(orders) + [DefaultOrder(old(nextOrderId), requester).(total := total)]
          && nextOrderId == old(nextOrderId) + 1
          && orderItems == old(orderItems) + CopyToOrder(rows, old(nextOrderId))
          && cart == CartClear(old(cart), requester)
          && bonusPercentage == Some(EffectivePercentage(old(bonusPercentage)))
          && users == old(users)[requester := me.(bonusEarned := balance, tip := newTip)]
          && resp == Response(HttpCreated, Receipt(total, split.bonusUsed, balance, split.totalAfterBonus, tip.GetOr(0)))
    {
      if |UserRows(cart, requester)| == 0 {
        return Response(HttpBadRequest, Message("No items in cart"));
      }
      var total := TotalPrice(requester);
      var t := tip.GetOr(0);
      var used := bonusUsed.GetOr(0);
      if used as real > users[requester].bonusEarned {
        return Response(HttpBadRequest, Message("Insufficient bonus balance."));
      }
      var totalAfterBonus := total - used;
      if totalAfterBonus < 0 {
        totalAfterBonus := 0;
        used := total;
      }
      var split := BonusSplit(totalAfterBonus, used);
      assert split == ApplyBonus(total, bonusUsed.GetOr(0));
      if !serializerValid {
        return Response(HttpBadRequest, Invalid);
      }
      var balance := RecordOrder(requester, total, split, t);
      resp := Response(HttpCreated, Receipt(total, used, balance, totalAfterBonus, t));
    }

    /** Lines 186-213, once every check has passed: open the order, then credit the customer. */
    method RecordOrder(requester: UserId, total: int, split: BonusSplit, tip: int) returns (balance: real)
      requires Valid() && requester in users
      modifies this`orders, this`nextOrderId, this`orderItems, this`cart, this`users, this`bonusPercentage
      ensures Valid()
      ensures orders == old(orders) + [DefaultOrder(old(nextOrderId), requester).(total := total)]
      ensures nextOrderId == old(nextOrderId) + 1
      ensures orderItems == old(orderItems) + CopyToOrder(UserRows(old(cart), requester), old(nextOrderId))
      ensures cart == CartClear(old(cart), requester)
      ensures bonusPercentage == Some(EffectivePercentage(old(bonusPercentage)))
      ensures balance == NewBalance(old(users)[requester].bonusEarned, split, EffectivePercentage(old(bonusPercentage)))
      ensures users == old(users)[requester := old(users)[requester].(
        bonusEarned := balance,
        tip := if tip > 0 then old(users)[requester].tip + tip else old(users)[requester].tip)]
    {
      var _ := OpenOrder(requester, total);
      balance := CreditCustomer(requester, split, tip);
    }

    /** `SingleOrderView.update`: assign a delivery crew member and/or set the status of an
        order, moving the customer's tip to the crew member on READY or DELIVERED. */
    method UpdateOrder(requester: UserId, orderId: OrderId, crewId: Option<UserId>, newStatus: Option<string>)
      returns (resp: Response)
      requires Valid() && requester in users
      modifies this`users, this`orders
      ensures Valid()
      ensures UpdateResult(resp, users, orders) ==
        ViewsSpec.UpdateOrder(old(users), old(orders), requester, orderId, crewId, newStatus)
    {
      var me := users[requester];
      if me.groups == {} && !me.isSuperuser {
        return Response(HttpForbidden, Error("Not authorized to update order."));
      }
      var found := OrderIndex(orders, orderId);
      if found.None? {
        return Response(HttpNotFound, NotFound);
      }
      var k := found.value;
      var order := orders[k];
      if crewId.Some? {
        if !IsCrewMember(users, crewId.value) {
          return Response(HttpBadRequest, Error("Invalid delivery crew ID."));
        }
        order := order.(deliveryCrew := crewId);
      }
      if newStatus.Some? {
        order := order.(status := newStatus.value);
      }
      assert order == UpdatedOrder(orders[k], crewId, newStatus);
      SaveUpdate(k, order, newStatus);
      resp := Response(HttpOk, Serialized);
    }

    /** Lines 269-285: move the tip when the request named READY or DELIVERED and the
        updated order has a crew member and a customer with a tip, then save the order. */
    method SaveUpdate(k: nat, order: Order, newStatus: Option<string>)
      requires Valid() && k < |orders|
      requires order.id == orders[k].id && order.user == orders[k].user
      requires order.deliveryCrew.Some? ==> order.deliveryCrew.value in users
      modifies this`users, this`orders
      ensures Valid()
      ensures users == UsersAfterUpdate(old(users), order, newStatus)
      ensures orders == old(orders)[k := order]
    {
      ghost var before := users;
      if newStatus.Some? && (newStatus.value == Ready || newStatus.value == Delivered) {
        if order.deliveryCrew.Some? && users[order.user].tip > 0 {
          users := TransferTip(users, order.user, order.deliveryCrew.value);
        }
      }
      assert SameNames(before, users);
      SameNamesKeepUnique(before, users);
      SameIdsKeepInvariants(orders, orders[k := order], nextOrderId);
      ReplaceKeepsReferences(before, users, orders, k, order);
      orders := orders[k := order];
    }

    /** `get_object_or_404(User, username=...)`. */
    method FindUser(username: string) returns (found: Option<UserId>)
      requires Valid()
      ensures found.Some? ==> found.value in users && users[found.value].username == username
      ensures found.None? <==> forall id :: id in users ==> users[id].username != username
    {
      if id :| id in users && users[id].username == username {
        found := Some(id);
      } else {
        found := None;
      }
    }

    /** The user named `username` is `id`. */
    ghost predicate Named(id: UserId, username: string)
      reads this
    {
      id in users && users[id].username == username
    }

    /** `GroupViewSet.create` / `destroy` (admin only): add the named user to, or remove
        them from, the Manager group. */
    method SetManager(requester: UserId, username: string, add: bool) returns (resp: Response)
      requires Valid() && requester in users
      modifies this`users
      ensures Valid()
      ensures !old(users)[requester].isStaff ==> resp == Response(HttpForbidden, Detail(NotPermitted)) && users == old(users)
      ensures (old(users)[requester].isStaff && forall id :: id in old(users) ==> old(users)[id].username != username) ==>
        resp == Response(HttpNotFound, NotFound) && users == old(users)
      ensures forall id :: old(Named(id, username)) && old(users)[requester].isStaff ==>
        resp == Response(HttpOk, Message(if add then "user added to the manager group" else "user removed from the manager group"))
        && users == if add then AddToGroup(old(users), id, ManagerGroup) else RemoveFromGroup(old(users), id, ManagerGroup)
    {
      if !users[requester].isStaff {
        return Response(HttpForbidden, Detail(NotPermitted));
      }
      var found := FindUser(username);
      if found.None? {
        return Response(HttpNotFound, NotFound);
      }
      if add {
        users := AddToGroup(users, found.value, ManagerGroup);
        resp := Response(HttpOk, Message("user added to the manager group"));
      } else {
        users := RemoveFromGroup(users, found.value, ManagerGroup);
        resp := Response(HttpOk, Message("user removed from the manager group"));
      }
    }

    /** `DeliveryCrewViewSet.create` / `destroy` (superusers and managers only): add the
        named user to, or remove them from, the Delivery Crew group. */
    method SetDeliveryCrew(requester: UserId, username: string, add: bool) returns (resp: Response)
      requires Valid() && requester in users
      modifies this`users
      ensures Valid()
      ensures !old(users)[requester].isSuperuser && ManagerGroup !in old(users)[requester].groups ==>
        resp == Response(HttpForbidden, Message("forbidden")) && users == old(users)
      ensures ((old(users)[requester].isSuperuser || ManagerGroup in old(users)[requester].groups)
        && forall id :: id in old(users) ==> old(users)[id].username != username) ==>
        resp == Response(HttpNotFound, NotFound) && users == old(users)
      ensures forall id :: (old(Named(id, username))
        && (old(users)[requester].isSuperuser || ManagerGroup in old(users)[requester].groups)) ==>
        resp == Response(HttpOk, Message(if add then "user added to the delivery crew group" else "user removed from the delivery crew group"))
        && users == if add then AddToGroup(old(users), id, DeliveryCrewGroup) else RemoveFromGroup(old(users), id, DeliveryCrewGroup)
    {
      var me := users[requester];
      if !me.isSuperuser && ManagerGroup !in me.groups {
        return Response(HttpForbidden, Message("forbidden"));
      }
      var found := FindUser(username);
      if found.None? {
        return Response(HttpNotFound, NotFound);
      }
      if add {
        users := AddToGroup(users, found.value, DeliveryCrewGroup);
        resp := Response(HttpOk, Message("user added to the delivery crew group"));
      } else {
        users := RemoveFromGroup(users, found.value, DeliveryCrewGroup);
        resp := Response(HttpOk, Message("user removed from the delivery crew group"));
      }
    }
  }
}
