/** The client's reading of the `authToken` cookie out of `document.cookie`.
    Cart.jsx and Menuitem.jsx share one helper (`getTokenFromCookies`, which trims);
    Reservation.jsx inlines the same chain without the trim. */
module Cookies {
  import opened Common
  import opened Text

  const CookieSeparator := "; "
  const TokenPrefix := "authToken="

  /** `rows.findIndex(row => row.startsWith(prefix))`, absent for -1. */
  function FindPrefixed(rows: seq<string>, prefix: string): (r: Option<nat>)
    ensures r.Some? ==> r.value < |rows| && StartsWith(rows[r.value], prefix)
    ensures r.Some? ==> forall k :: 0 <= k < r.value ==> !StartsWith(rows[k], prefix)
    ensures r.None? <==> forall k :: 0 <= k < |rows| ==> !StartsWith(rows[k], prefix)
  {
    if rows == [] then None
    else if StartsWith(rows[0], prefix) then Some(0)
    else match FindPrefixed(rows[1..], prefix)
      case None => None
      case Some(k) => Some(k + 1)
  }

  /** The text of `t` before its first `=`, or all of `t` when it has none. */
  function UpToFirstEquals(t: string): (r: string)
    ensures StartsWith(t, r) && !Contains(r, "=")
  {
    match IndexOf(t, "=")
    case None => t
    case Some(i) =>
      assert !Contains(t[..i], "=") by {
        forall k | 0 <= k < i ensures t[..i][k] != '=' {
          OccursAtChar(t, '=', k);
        }
        WithoutChar(t[..i], '=');
      }
      t[..i]
  }

  /** `row.split('=')[1]` for a row that starts with `authToken=`: the text between the
      first and the second `=` of the row. */
  function TokenField(row: string): (r: string)
    requires StartsWith(row, TokenPrefix)
    ensures r == UpToFirstEquals(row[|TokenPrefix|..])
  {
    TokenRowSplit(row[|TokenPrefix|..]);
    assert row == TokenPrefix + row[|TokenPrefix|..];
    Split(row, "=")[1]
  }

  lemma TokenRowSplit(t: string)
    ensures Split(TokenPrefix + t, "=") == ["authToken"] + Split(t, "=")
    ensures Split(t, "=")[0] == UpToFirstEquals(t)
  {
    var a := "authToken";
    assert a + "=" + t == TokenPrefix + t;
    WithoutChar(a, '=');
    forall j: nat | j < |a| ensures !OccursAt(a + "=" + t, "=", j) {
      assert (a + "=" + t)[j] == a[j];
      OccursAtChar(a + "=" + t, '=', j);
    }
    SplitAfterFirst(a, "=", t);
  }

  /** No `; `-separated cookie starts with `authToken=`. */
  predicate NoTokenCookie(cookie: string) {
    var rows := Split(cookie, CookieSeparator);
    forall k :: 0 <= k < |rows| ==> !StartsWith(rows[k], TokenPrefix)
  }

  /** The first `; `-separated cookie that starts with `authToken=`, if any. */
  function TokenRow(cookie: string): (r: Option<string>)
    ensures r.Some? ==> StartsWith(r.value, TokenPrefix)
    ensures r.None? <==> NoTokenCookie(cookie)
  {
    var rows := Split(cookie, CookieSeparator);
    match FindPrefixed(rows, TokenPrefix)
    case None => None
    case Some(k) => Some(rows[k])
  }

  /** `getTokenFromCookies` of Cart.jsx and Menuitem.jsx: the token field of the first
      `authToken=` cookie, trimmed, or null when there is no such cookie. */
  function GetTokenFromCookies(cookie: string): (r: Option<string>)
    ensures r.None? <==> NoTokenCookie(cookie)
    ensures r.Some? ==> Trimmed(r.value) && !Contains(r.value, "=")
  {
    match TokenRow(cookie)
    case None => None
    case Some(row) =>
      TrimWithout(TokenField(row), "=");
      Some(Trim(TokenField(row)))
  }

  /** The inline extraction of Reservation.jsx: the same field, untrimmed, or undefined. */
  function ReservationToken(cookie: string): (r: Option<string>)
    ensures r.None? <==> NoTokenCookie(cookie)
    ensures r.Some? ==> !Contains(r.value, "=")
  {
    match TokenRow(cookie)
    case None => None
    case Some(row) => Some(TokenField(row))
  }

  /** The token is taken from the FIRST matching cookie: when segment `k` is the first that
      starts with `authToken=`, the token is the text after that prefix up to the next `=`. */
  lemma {:induction false} TokenIsFirstMatch(cookie: string, k: nat, t: string)
    requires k < |Split(cookie, CookieSeparator)|
    requires Split(cookie, CookieSeparator)[k] == TokenPrefix + t
    requires forall j :: 0 <= j < k ==> !StartsWith(Split(cookie, CookieSeparator)[j], TokenPrefix)
    ensures GetTokenFromCookies(cookie) == Some(Trim(UpToFirstEquals(t)))
    ensures ReservationToken(cookie) == Some(UpToFirstEquals(t))
  {
    var rows := Split(cookie, CookieSeparator);
    assert StartsWith(rows[k], TokenPrefix);
    assert FindPrefixed(rows, TokenPrefix) == Some(k);
    assert rows[k][|TokenPrefix|..] == t;
  }

  /** The two extractions agree up to trimming: the cart/menu-item token is always the
      reservation token trimmed, and they coincide when the raw token has no outer spaces. */
  lemma ExtractionsAgree(cookie: string)
    ensures GetTokenFromCookies(cookie).Some? <==> ReservationToken(cookie).Some?
    ensures ReservationToken(cookie).Some? ==>
      GetTokenFromCookies(cookie).value == Trim(ReservationToken(cookie).value)
    ensures ReservationToken(cookie).Some? && Trimmed(ReservationToken(cookie).value) ==>
      GetTokenFromCookies(cookie) == ReservationToken(cookie)
  {
    if ReservationToken(cookie).Some? && Trimmed(ReservationToken(cookie).value) {
      TrimOfTrimmed(ReservationToken(cookie).value);
    }
  }

  /** A token made only of white space is refused by the cart and menu-item screens
      (trimmed to "") but accepted by the reservation screen. */
  lemma BlankTokenDiffers(cookie: string)
    requires ReservationToken(cookie).Some? && ReservationToken(cookie).value != []
    requires forall k :: 0 <= k < |ReservationToken(cookie).value| ==> IsSpace(ReservationToken(cookie).value[k])
    ensures Truthy(ReservationToken(cookie)) && !Truthy(GetTokenFromCookies(cookie))
  {
    var raw := ReservationToken(cookie).value;
    var v := GetTokenFromCookies(cookie).value;
    assert v == Trim(raw);
    assert LeadingSpace(raw) == |raw|;
  }
}
