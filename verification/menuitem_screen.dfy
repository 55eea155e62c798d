/** The page of one menu item in the web client (Menuitem.jsx): the quantity stepper,
    the star rating display and picker, the review list and the add-to-cart request. */
module MenuItemScreen {
  import opened Common
  import opened Cookies
  import opened CartScreen

  /** The stepper: "increase" adds one; any other action takes one away but never goes
      below 1. */
  function Stepped(quantity: int, action: string): (r: int)
    ensures action == "increase" ==> r == quantity + 1
    ensures action != "increase" ==> r >= 1 && r >= quantity - 1 && (r == 1 || r == quantity - 1)
  {
    if action == "increase" then quantity + 1
    else if 1 > quantity - 1 then 1 else quantity - 1
  }

  /** From a positive quantity the stepper never leaves the positive numbers. */
  lemma SteppedStaysPositive(quantity: int, action: string)
    requires quantity >= 1
    ensures Stepped(quantity, action) >= 1
  {
  }

  /** Increasing and then decreasing gives back the quantity. */
  lemma IncreaseThenDecrease(quantity: int)
    requires quantity >= 1
    ensures Stepped(Stepped(quantity, "increase"), "decrease") == quantity
  {
  }

  /** `renderStars`: five stars, the one at index k highlighted iff k < rating. */
  function RenderStars(rating: int): (r: seq<bool>)
    ensures |r| == 5
    ensures forall k :: 0 <= k < 5 ==> (r[k] <==> k < rating)
  {
    seq(5, k => k < rating)
  }

  /** The picker: star s (1..5), shown at index s - 1, is highlighted iff s <= rating. */
  function PickerStars(rating: int): (r: seq<bool>)
    ensures |r| == 5
    ensures forall k :: 0 <= k < 5 ==> (r[k] <==> k + 1 <= rating)
  {
    seq(5, k => k + 1 <= rating)
  }

  /** The picker highlights the same stars as the display of a review with that rating. */
  lemma PickerMatchesDisplay(rating: int)
    ensures PickerStars(rating) == RenderStars(rating)
  {
  }

  /** How many stars are highlighted. */
  function Lit(stars: seq<bool>): nat {
    if stars == [] then 0 else (if stars[|stars| - 1] then 1 else 0) + Lit(stars[..|stars| - 1])
  }

  function Clamp(x: int, lo: int, hi: int): int {
    if x < lo then lo else if x > hi then hi else x
  }

  lemma {:induction false} LitPrefix(n: nat, rating: int)
    ensures Lit(seq(n, k => k < rating)) == Clamp(rating, 0, n)
  {
    if n > 0 {
      var s := seq(n, k => k < rating);
      assert s[..n - 1] == seq(n - 1, k => k < rating);
      LitPrefix(n - 1, rating);
    }
  }

  /** A review with rating r shows r highlighted stars, clipped to 0..5. */
  lemma LitStars(rating: int)
    ensures Lit(RenderStars(rating)) == Clamp(rating, 0, 5)
  {
    LitPrefix(5, rating);
  }

  /** A review as the page lists it. */
  datatype ShownReview = ShownReview(username: string, rating: int, comment: string)

  /** The JSON body of a review submission. */
  datatype ReviewBody = ReviewBody(rating: int, comment: string, menuItem: string)

  class MenuItemPage {
    /** The route parameter naming the menu item. */
    const id: string
    var quantity: int
    var rating: int
    var message: string
    var reviews: seq<ShownReview>

    /** The quantity is at least 1 and the picked rating is 0 (none) or a star 1..5. */
    ghost predicate Valid()
      reads this
    {
      quantity >= 1 && 0 <= rating <= 5
    }

    constructor (routeId: string)
      ensures Valid()
      ensures id == routeId && quantity == 1 && rating == 0 && message == "" && reviews == []
    {
      id := routeId;
      quantity := 1;
      rating := 0;
      message := "";
      reviews := [];
    }

    /** `updateQuantity`. */
    method UpdateQuantity(action: string)
      requires Valid()
      modifies this`quantity
      ensures Valid()
      ensures quantity == Stepped(old(quantity), action)
    {
      quantity := Stepped(quantity, action);
    }

    /** Clicking star `star` of the picker. */
    method PickStar(star: int)
      requires Valid() && 1 <= star <= 5
      modifies this`rating
      ensures Valid() && rating == star
    {
      rating := star;
    }

    /** Typing into the review box. */
    method SetMessage(text: string)
      modifies this`message
      ensures message == text
    {
      message := text;
    }

    /** `handleAddToCart`: with a token, the body posted is the item and the current
        quantity; without one nothing is sent. */
    method AddToCart(menuItemId: int, cookie: string) returns (sent: Option<PostBody>)
      requires Valid()
      ensures Truthy(GetTokenFromCookies(cookie)) <==> sent.Some?
      ensures sent.Some? ==> sent.value == PostBody(menuItemId, quantity) && sent.value.quantity >= 1
    {
      var authToken := GetTokenFromCookies(cookie);
      if !Truthy(authToken) {
        return None;
      }
      sent := Some(PostBody(menuItemId, quantity));
    }

    /** `handleReviewSubmit`: without a token nothing is sent. Otherwise the picked
        rating and the message are posted for this item; when the server answers with the
        stored review it is appended to the list and the form is reset, and on failure
        nothing changes. */
    method SubmitReview(cookie: string, created: Option<ShownReview>) returns (sent: Option<ReviewBody>)
      requires Valid()
      modifies this`reviews, this`message, this`rating
      ensures Valid()
      ensures !Truthy(GetTokenFromCookies(cookie)) ==>
        sent == None && reviews == old(reviews) && message == old(message) && rating == old(rating)
      ensures Truthy(GetTokenFromCookies(cookie)) ==>
        && sent == Some(ReviewBody(old(rating), old(message), id))
        && (created.Some? ==> reviews == old(reviews) + [created.value] && message == "" && rating == 0)
        && (created.None? ==> reviews == old(reviews) && message == old(message) && rating == old(rating))
    {
      var authToken := GetTokenFromCookies(cookie);
      if !Truthy(authToken) {
        return None;
      }
      sent := Some(ReviewBody(rating, message, id));
      if created.Some? {
        reviews := reviews + [created.value];
        message := "";
        rating := 0;
      }
    }
  }
}
