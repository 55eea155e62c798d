/** The records of the Django app `rest_api` (models.py) as values, with the column
    constraints the database declares. Money is held in integer cents: every decimal
    column has two decimal places. */
module Models {
  import opened Common
  import opened Text

  type UserId = int
  type ItemId = int
  type OrderId = int

  /** `DecimalField(max_digits=6, decimal_places=2)`: at most 9999.99 in absolute value. */
  const MaxCents := 1_000_000

  predicate IsPrice(cents: int) {
    -MaxCents < cents < MaxCents
  }

  /** `SmallIntegerField`: a signed 16-bit integer. */
  predicate IsSmallInt(n: int) {
    -0x8000 <= n < 0x8000
  }

  /** `PositiveIntegerField`: Django admits 0 up to the 32-bit signed maximum. */
  predicate IsPositiveInteger(n: int) {
    0 <= n < 0x8000_0000
  }

  /** Python's `range(lo, hi)` as a list. */
  function Range(lo: int, hi: int): (r: seq<int>)
    ensures |r| == if lo < hi then hi - lo else 0
    ensures forall k :: 0 <= k < |r| ==> r[k] == lo + k
    decreases hi - lo
  {
    if lo < hi then [lo] + Range(lo + 1, hi) else []
  }

  /** The rating choices of `Review`: `[(i, i) for i in range(1, 6)]`. */
  function RatingChoices(): seq<int> {
    Range(1, 6)
  }

  /** A rating is valid exactly when it lies in 1..5. */
  lemma RatingChoicesAreOneToFive(n: int)
    ensures n in RatingChoices() <==> 1 <= n <= 5
  {
    var r := RatingChoices();
    if 1 <= n <= 5 { assert r[n - 1] == n; }
  }

  datatype Category = Category(slug: string, title: string)

  datatype MenuItem = MenuItem(id: ItemId, title: string, price: int, featured: bool, category: string)

  datatype Review = Review(user: UserId, menuItem: ItemId, rating: int, comment: string)

  predicate ReviewFits(r: Review) {
    r.rating in RatingChoices()
  }

  /** A row of the `Cart` table: one menu item in one user's cart. */
  datatype CartRow = CartRow(user: UserId, menuitem: ItemId, quantity: int, unitPrice: int, price: int)

  predicate CartRowFits(r: CartRow) {
    IsSmallInt(r.quantity) && IsPrice(r.unitPrice) && IsPrice(r.price)
  }

  /** `unique_together = ('menuitem', 'user')`. */
  predicate UniqueCart(rows: seq<CartRow>) {
    forall i, j :: 0 <= i < j < |rows| ==>
      rows[i].user != rows[j].user || rows[i].menuitem != rows[j].menuitem
  }

  const Ready := "READY"
  const Delivered := "DELIVERED"
  const Pending := "PENDING"
  const Cancelled := "CANCELLED"

  /** `Order.STATUS_CHOICES`, in declaration order. */
  const StatusChoices := [Ready, Delivered, Pending, Cancelled]

  datatype Order = Order(id: OrderId, user: UserId, deliveryCrew: Option<UserId>, status: string, total: int)

  /** An order as the table's defaults create it: no delivery crew, status PENDING, total 0. */
  function DefaultOrder(id: OrderId, user: UserId): (o: Order)
    ensures o.id == id && o.user == user
    ensures o.status in StatusChoices && o.status == Pending
    ensures o.deliveryCrew.None? && o.total == 0
  {
    Order(id, user, None, Pending, 0)
  }

  predicate OrderFits(o: Order) {
    o.status in StatusChoices && IsPrice(o.total)
  }

  datatype OrderItem = OrderItem(order: OrderId, menuitem: ItemId, quantity: int, price: int)

  predicate OrderItemFits(i: OrderItem) {
    IsSmallInt(i.quantity) && IsPrice(i.price)
  }

  /** `unique_together = ('order', 'menuitem')`. */
  predicate UniqueOrderItems(items: seq<OrderItem>) {
    forall i, j :: 0 <= i < j < |items| ==>
      items[i].order != items[j].order || items[i].menuitem != items[j].menuitem
  }

  // ---------------------------------------------------------------- `__str__`

  /** `Category.__str__` and `MenuItem.__str__`: the title. */
  function CategoryText(c: Category): string {
    c.title
  }

  function MenuItemText(m: MenuItem): string {
    m.title
  }

  /** `Review.__str__`, given the item's title and the author's username. */
  function ReviewText(itemTitle: string, username: string): string {
    "Review for " + itemTitle + " by " + username
  }

  /** `Cart.__str__`, given the item's title and the owner's username. */
  function CartRowText(itemTitle: string, username: string): string {
    itemTitle + " - user: " + username
  }

  /** `Order.__str__`, given the customer's username. */
  function OrderText(username: string, id: OrderId): string {
    "username:" + username + " order_id" + IntToString(id)
  }

  /** `OrderItem.__str__`, given the item's title and the text of its order. */
  function OrderItemText(itemTitle: string, orderText: string): string {
    itemTitle + " - order_id:" + orderText
  }

  /** Two orders of one customer read alike only if they are the same order. */
  lemma OrderTextKeepsId(username: string, id1: OrderId, id2: OrderId)
    requires OrderText(username, id1) == OrderText(username, id2)
    ensures id1 == id2
  {
    var head := "username:" + username + " order_id";
    DropCommonPrefix(head, IntToString(id1), IntToString(id2));
    IntToStringInjective(id1, id2);
  }

  /** Date and time are kept in the ISO text form the API exchanges. */
  datatype Reservation = Reservation(
    user: Option<UserId>, date: string, time: string, phoneNumber: string,
    numberOfGuests: int, message: string)

  /** `phone_number` holds at most 15 characters; `number_of_guests` is a PositiveIntegerField. */
  predicate ReservationFits(r: Reservation) {
    |r.phoneNumber| <= 15 && IsPositiveInteger(r.numberOfGuests)
  }

  /** `Reservation.__str__`. */
  function ReservationText(r: Reservation): (s: string)
    ensures StartsWith(s, "Reservation on " + r.date + " at " + r.time + " for ")
  {
    "Reservation on " + r.date + " at " + r.time + " for " + IntToString(r.numberOfGuests) + " guests"
  }

  /** Two reservations on the same date and time read alike only if they seat the same
      number of guests: the text keeps the count. */
  lemma ReservationTextKeepsGuests(r: Reservation, s: Reservation)
    requires ReservationFits(r) && ReservationFits(s)
    requires r.date == s.date && r.time == s.time
    requires ReservationText(r) == ReservationText(s)
    ensures r.numberOfGuests == s.numberOfGuests
  {
    var head := "Reservation on " + r.date + " at " + r.time + " for ";
    var tail := " guests";
    var a := IntToString(r.numberOfGuests);
    var b := IntToString(s.numberOfGuests);
    assert ReservationText(r) == head + a + tail;
    assert ReservationText(s) == head + b + tail;
    assert |a| == |b|;
    assert a == ReservationText(r)[|head|..|head| + |a|];
    assert b == ReservationText(s)[|head|..|head| + |b|];
    NatToStringInjective(r.numberOfGuests, s.numberOfGuests);
  }
}
