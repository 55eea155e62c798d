/** The cart page of the web client (Cart.jsx): the list of cart lines it shows, which
    lines have a request in flight, and the order error it displays. Requests are not
    sent: each handler takes the cookie string and the outcome of its request as
    parameters and performs its state changes as one step. */
module CartScreen {
  import opened Common
  import opened Text
  import opened Cookies

  /** One displayed cart line; prices are in cents. */
  datatype CartLine = CartLine(menuItemId: int, quantity: int, unitPrice: int)

  /** What became of a request: a 2xx response, any other status with its body text, or
      a failure before any response (carrying the exception's message). */
  datatype Outcome = Ok | HttpError(status: int, text: string) | NetworkError(message: string)

  /** The JSON body the quantity controls post to the cart endpoint. */
  datatype PostBody = PostBody(menuitemId: int, quantity: int)

  // ---------------------------------------------------------------- list operations

  /** The optimistic update: every line of menu item `id` gets quantity `q`. */
  function SetQuantity(items: seq<CartLine>, id: int, q: int): seq<CartLine> {
    seq(|items|, k requires 0 <= k < |items| =>
      if items[k].menuItemId == id then items[k].(quantity := q) else items[k])
  }

  /** The fix-up after a refused update: a line of `id` whose quantity is still
      `newQuantity` is set to 1; every other line is kept. */
  function FixUp(items: seq<CartLine>, id: int, newQuantity: int): seq<CartLine> {
    seq(|items|, k requires 0 <= k < |items| =>
      if items[k].menuItemId == id && items[k].quantity == newQuantity
      then items[k].(quantity := 1) else items[k])
  }

  function NotItem(id: int): CartLine -> bool {
    (l: CartLine) => l.menuItemId != id
  }

  function IsItem(id: int): CartLine -> bool {
    (l: CartLine) => l.menuItemId == id
  }

  /** A successful remove keeps the lines of every other menu item. */
  function RemoveLines(items: seq<CartLine>, id: int): seq<CartLine> {
    Filter(items, NotItem(id))
  }

  /** The optimistic update changes the quantity of the matching lines and nothing else:
      the list keeps its length, its order, its menu items and its prices. */
  lemma SetQuantitySpec(items: seq<CartLine>, id: int, q: int)
    ensures |SetQuantity(items, id, q)| == |items|
    ensures forall k :: 0 <= k < |items| ==>
      && SetQuantity(items, id, q)[k].menuItemId == items[k].menuItemId
      && SetQuantity(items, id, q)[k].unitPrice == items[k].unitPrice
      && SetQuantity(items, id, q)[k].quantity == (if items[k].menuItemId == id then q else items[k].quantity)
  {
  }

  /** After the optimistic update every matching line holds `newQuantity`, so a refused
      request sets them all to 1: the quantity before the click is not restored. */
  lemma {:induction false} FixUpAfterSetQuantity(items: seq<CartLine>, id: int, newQuantity: int)
    ensures FixUp(SetQuantity(items, id, newQuantity), id, newQuantity) == SetQuantity(items, id, 1)
  {
    var a := FixUp(SetQuantity(items, id, newQuantity), id, newQuantity);
    var b := SetQuantity(items, id, 1);
    assert |a| == |b|;
    forall k | 0 <= k < |a| ensures a[k] == b[k] {
      assert SetQuantity(items, id, newQuantity)[k].quantity ==
        (if items[k].menuItemId == id then newQuantity else items[k].quantity);
    }
  }

  /** Removing keeps exactly the lines of other menu items, in their order. */
  lemma RemoveLinesSpec(items: seq<CartLine>, id: int)
    ensures forall l :: l in RemoveLines(items, id) ==> l in items && l.menuItemId != id
    ensures forall k :: 0 <= k < |items| && items[k].menuItemId != id ==> items[k] in RemoveLines(items, id)
    ensures (forall k :: 0 <= k < |items| ==> items[k].menuItemId != id) ==> RemoveLines(items, id) == items
  {
    var r := RemoveLines(items, id);
    forall l | l in r ensures l in items && l.menuItemId != id {
      var i :| 0 <= i < |r| && r[i] == l;
    }
    if forall k :: 0 <= k < |items| ==> items[k].menuItemId != id {
      FilterKeepsAll(items, NotItem(id));
    }
  }

  // ---------------------------------------------------------------- subtotal

  /** The amount a row displays: unit price times quantity. */
  function LineTotal(l: CartLine): int {
    l.unitPrice * l.quantity
  }

  /** The `reduce` over the list: the sum of the line totals, in cents. */
  function Subtotal(items: seq<CartLine>): int {
    if items == [] then 0 else LineTotal(items[0]) + Subtotal(items[1..])
  }

  lemma {:induction false} SubtotalAppend(a: seq<CartLine>, b: seq<CartLine>)
    ensures Subtotal(a + b) == Subtotal(a) + Subtotal(b)
  {
    if a == [] {
      assert a + b == b;
    } else {
      assert (a + b)[0] == a[0];
      assert (a + b)[1..] == a[1..] + b;
      SubtotalAppend(a[1..], b);
    }
  }

  /** Changing one line changes the subtotal by the difference of its two line totals. */
  lemma {:induction false} SubtotalUpdate(items: seq<CartLine>, k: nat, l: CartLine)
    requires k < |items|
    ensures Subtotal(items[k := l]) == Subtotal(items) - LineTotal(items[k]) + LineTotal(l)
  {
    if k > 0 {
      assert items[k := l][1..] == items[1..][k - 1 := l];
      SubtotalUpdate(items[1..], k - 1, l);
    }
  }

  /** When menu item `id` is shown on one line only, the optimistic update moves the
      subtotal by that line's unit price times the change in quantity. */
  lemma SubtotalSetQuantity(items: seq<CartLine>, k: nat, q: int)
    requires k < |items|
    requires forall j :: 0 <= j < |items| && j != k ==> items[j].menuItemId != items[k].menuItemId
    ensures Subtotal(SetQuantity(items, items[k].menuItemId, q)) ==
      Subtotal(items) + items[k].unitPrice * (q - items[k].quantity)
  {
    var shown, updated := SetQuantity(items, items[k].menuItemId, q), items[k := items[k].(quantity := q)];
    forall j | 0 <= j < |items| ensures shown[j] == updated[j] {
      if j != k {
        assert items[j].menuItemId != items[k].menuItemId;
      }
    }
    assert shown == updated;
    SubtotalUpdate(items, k, items[k].(quantity := q));
  }

  /** Removing the lines of one menu item lowers the subtotal by exactly their totals. */
  lemma {:induction false} SubtotalSplit(items: seq<CartLine>, id: int)
    ensures Subtotal(items) == Subtotal(Filter(items, IsItem(id))) + Subtotal(RemoveLines(items, id))
  {
    if items != [] {
      SubtotalSplit(items[1..], id);
      var s, t := Filter(items[1..], IsItem(id)), Filter(items[1..], NotItem(id));
      if items[0].menuItemId == id {
        assert Filter(items, IsItem(id)) == [items[0]] + s;
        assert RemoveLines(items, id) == t;
        assert ([items[0]] + s)[1..] == s;
      } else {
        assert Filter(items, IsItem(id)) == s;
        assert RemoveLines(items, id) == [items[0]] + t;
        assert ([items[0]] + t)[1..] == t;
      }
    }
  }

  // ---------------------------------------------------------------- order error text

  /** The message `handleOrder` throws for a non-2xx response. */
  function HttpErrorMessage(status: int, text: string): string {
    "HTTP error! status: " + IntToString(status) + ", message: " + text
  }

  /** The error message names the status and the body text unambiguously: different
      responses give different messages. */
  lemma HttpErrorMessageInjective(s1: nat, t1: string, s2: nat, t2: string)
    requires HttpErrorMessage(s1, t1) == HttpErrorMessage(s2, t2)
    ensures s1 == s2 && t1 == t2
  {
    var p, m := "HTTP error! status: ", ", message: ";
    var a, b := IntToString(s1), IntToString(s2);
    ConcatAssoc(p + a, m, t1);
    ConcatAssoc(p, a, m + t1);
    ConcatAssoc(p + b, m, t2);
    ConcatAssoc(p, b, m + t2);
    DropCommonPrefix(p, a + (m + t1), b + (m + t2));
    assert a == NatToString(s1) && b == NatToString(s2);
    assert ',' !in a && ',' !in b;
    PrefixBeforeChar(a, m + t1, b, m + t2, ',');
    NatToStringInjective(s1, s2);
    DropCommonPrefix(m, t1, t2);
  }

  /** What the quantity controls send for an action: +1 for "increase", -1 otherwise. */
  function Delta(action: string): (d: int)
    ensures d == 1 || d == -1
    ensures d == 1 <==> action == "increase"
  {
    if action == "increase" then 1 else -1
  }

  // ---------------------------------------------------------------- the page state

  class CartPage {
    var cartItems: seq<CartLine>
    /** The per-menu-item in-flight flags (`loadingItems`). */
    var loadingItems: map<int, bool>
    var orderError: Option<string>

    constructor ()
      ensures cartItems == [] && loadingItems == map[] && orderError == None
    {
      cartItems := [];
      loadingItems := map[];
      orderError := None;
    }

    predicate InFlight(id: int)
      reads this
    {
      id in loadingItems && loadingItems[id]
    }

    /** `handleRemoveItem`: ask the server to delete a line; on success drop every line
        of that menu item. Without a token, or when the request fails, nothing changes. */
    method RemoveItem(menuItemId: int, cookie: string, outcome: Outcome)
      modifies this`cartItems
      ensures Truthy(GetTokenFromCookies(cookie)) && outcome.Ok? ==>
        cartItems == RemoveLines(old(cartItems), menuItemId)
      ensures !(Truthy(GetTokenFromCookies(cookie)) && outcome.Ok?) ==> cartItems == old(cartItems)
    {
      var authToken := GetTokenFromCookies(cookie);
      if !Truthy(authToken) {
        return;
      }
      if outcome.Ok? {
        cartItems := RemoveLines(cartItems, menuItemId);
      }
    }

    /** `updateQuantity`: refused while the line is in flight or for a quantity below 1;
        otherwise the line shows `newQuantity` at once and is marked in flight. Without a
        token it stays marked. With one, a delta of +1 or -1 is posted; a refusal sets the
        line to 1 if it still shows `newQuantity`; finally the mark is cleared. Returns the
        body posted, if any. */
    method UpdateQuantity(menuItemId: int, newQuantity: int, action: string, cookie: string, outcome: Outcome)
      returns (sent: Option<PostBody>)
      modifies this`cartItems, this`loadingItems
      ensures old(InFlight(menuItemId)) || newQuantity < 1 ==>
        sent == None && cartItems == old(cartItems) && loadingItems == old(loadingItems)
      ensures !old(InFlight(menuItemId)) && newQuantity >= 1 && !Truthy(GetTokenFromCookies(cookie)) ==>
        && sent == None
        && cartItems == SetQuantity(old(cartItems), menuItemId, newQuantity)
        && loadingItems == old(loadingItems)[menuItemId := true]
      ensures !old(InFlight(menuItemId)) && newQuantity >= 1 && Truthy(GetTokenFromCookies(cookie)) ==>
        && sent == Some(PostBody(menuItemId, Delta(action)))
        && cartItems == (if outcome.HttpError?
                         then SetQuantity(old(cartItems), menuItemId, 1)
                         else SetQuantity(old(cartItems), menuItemId, newQuantity))
        && loadingItems == old(loadingItems)[menuItemId := false]
    {
      sent := UpdateQuantityWith(menuItemId, newQuantity, action, GetTokenFromCookies(cookie), outcome);
    }

    /** `updateQuantity` once the cookie has been read into `authToken`. */
    method UpdateQuantityWith(menuItemId: int, newQuantity: int, action: string, authToken: Option<string>, outcome: Outcome)
      returns (sent: Option<PostBody>)
      modifies this`cartItems, this`loadingItems
      ensures old(InFlight(menuItemId)) || newQuantity < 1 ==>
        sent == None && cartItems == old(cartItems) && loadingItems == old(loadingItems)
      ensures !old(InFlight(menuItemId)) && newQuantity >= 1 && !Truthy(authToken) ==>
        && sent == None
        && cartItems == SetQuantity(old(cartItems), menuItemId, newQuantity)
        && loadingItems == old(loadingItems)[menuItemId := true]
      ensures !old(InFlight(menuItemId)) && newQuantity >= 1 && Truthy(authToken) ==>
        && sent == Some(PostBody(menuItemId, Delta(action)))
        && cartItems == (if outcome.HttpError?
                         then SetQuantity(old(cartItems), menuItemId, 1)
                         else SetQuantity(old(cartItems), menuItemId, newQuantity))
        && loadingItems == old(loadingItems)[menuItemId := false]
    {
      if InFlight(menuItemId) || newQuantity < 1 {
        return None;
      }
      ShowOptimistic(menuItemId, newQuantity);
      if !Truthy(authToken) {
        return None;
      }
      sent := Some(PostBody(menuItemId, Delta(action)));
      FixUpAfterSetQuantity(old(cartItems), menuItemId, newQuantity);
      Settle(menuItemId, newQuantity, outcome.HttpError?);
    }

    /** Lines 68-74: show `newQuantity` on the matching lines and mark them in flight. */
    method ShowOptimistic(menuItemId: int, newQuantity: int)
      modifies this`cartItems, this`loadingItems
      ensures cartItems == SetQuantity(old(cartItems), menuItemId, newQuantity)
      ensures loadingItems == old(loadingItems)[menuItemId := true]
    {
      cartItems := SetQuantity(cartItems, menuItemId, newQuantity);
      loadingItems := loadingItems[menuItemId := true];
    }

    /** Lines 95-108, after the optimistic update: a refused request sets the matching
        lines still showing `newQuantity` to 1, and the in-flight mark is cleared. */
    method Settle(menuItemId: int, newQuantity: int, refused: bool)
      modifies this`cartItems, this`loadingItems
      ensures cartItems == if refused then FixUp(old(cartItems), menuItemId, newQuantity) else old(cartItems)
      ensures loadingItems == old(loadingItems)[menuItemId := false]
    {
      if refused {
        cartItems := FixUp(cartItems, menuItemId, newQuantity);
      }
      loadingItems := loadingItems[menuItemId := false];
    }

    /** `handleOrder`: clear the error, then without a token stop; with one, post the
        order; success empties the list, failure shows the error and keeps the list. */
    method PlaceOrder(cookie: string, outcome: Outcome)
      modifies this`cartItems, this`orderError
      ensures !Truthy(GetTokenFromCookies(cookie)) ==> orderError == None && cartItems == old(cartItems)
      ensures Truthy(GetTokenFromCookies(cookie)) ==>
        match outcome
        case Ok => cartItems == [] && orderError == None
        case HttpError(status, text) =>
          cartItems == old(cartItems) && orderError == Some(HttpErrorMessage(status, text))
        case NetworkError(message) => cartItems == old(cartItems) && orderError == Some(message)
    {
      orderError := None;
      var authToken := GetTokenFromCookies(cookie);
      if !Truthy(authToken) {
        return;
      }
      match outcome {
        case Ok =>
          cartItems := [];
        case HttpError(status, text) =>
          orderError := Some(HttpErrorMessage(status, text));
        case NetworkError(message) =>
          orderError := Some(message);
      }
    }
  }
}
