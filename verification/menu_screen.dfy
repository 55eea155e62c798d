/** The menu page of the web client (Menu.jsx): the category tabs, the paginated listing
    state, and the row of page buttons with ellipses. */
module MenuScreen {
  import opened Common
  import opened Text

  /** Items per page of the menu listing. */
  const PageSize := 8
  /** How many pages on each side of the current one get a button. */
  const Window := 2

  /** `Math.ceil(count / 8)`: the fewest pages of 8 that hold `count` items. */
  function TotalPages(count: nat): (r: nat)
    ensures r * PageSize >= count
    ensures r > 0 ==> (r - 1) * PageSize < count
    ensures r == 0 <==> count == 0
  {
    (count + PageSize - 1) / PageSize
  }

  const ListingBase := "http://localhost:8000/api/menu-items?category__title="

  /** The address of the listing for one category and page. */
  function ListingUrl(category: string, page: int): string {
    ListingBase + (category + PageQuery(page))
  }

  /** The address carries the category and the page: for a category without `&`,
      different requests have different addresses. */
  lemma ListingUrlInjective(c1: string, p1: int, c2: string, p2: int)
    requires '&' !in c1 && '&' !in c2
    requires ListingUrl(c1, p1) == ListingUrl(c2, p2)
    ensures c1 == c2 && p1 == p2
  {
    var x, y := PageQuery(p1), PageQuery(p2);
    DropCommonPrefix(ListingBase, c1 + x, c2 + y);
    PrefixBeforeChar(c1, x, c2, y, '&');
    assert IntToString(p1) == x[6..] && IntToString(p2) == y[6..];
    IntToStringInjective(p1, p2);
  }

  /** The page parameter of the listing address. */
  function PageQuery(page: int): string {
    "&page=" + IntToString(page)
  }

  // ---------------------------------------------------------------- page buttons

  /** One element of the pagination row: a page button (highlighted when it is the
      current page) or an ellipsis standing for skipped pages. */
  datatype Entry = Button(page: int, active: bool) | Ellipsis(page: int)

  /** Page `i` gets a button: it is the first or the last page, or within two of the
      current one. */
  predicate ShowsButton(i: int, total: int, current: int) {
    i == 1 || i == total || (current - Window <= i <= current + Window)
  }

  /** Page `i` gets an ellipsis: no button, and just outside the window. */
  predicate ShowsEllipsis(i: int, total: int, current: int) {
    !ShowsButton(i, total, current) && (i == current - Window - 1 || i == current + Window + 1)
  }

  /** What one iteration of the loop pushes for page `i`. */
  function EntryFor(i: int, total: int, current: int): seq<Entry> {
    if ShowsButton(i, total, current) then [Button(i, i == current)]
    else if ShowsEllipsis(i, total, current) then [Ellipsis(i)]
    else []
  }

  /** The entries for pages 1..n, in page order. */
  function EntriesUpTo(n: int, total: int, current: int): seq<Entry>
    decreases n
  {
    if n < 1 then [] else EntriesUpTo(n - 1, total, current) + EntryFor(n, total, current)
  }

  /** `renderPageNumbers`: the entries for every page. */
  function PageEntries(total: int, current: int): (r: seq<Entry>)
    ensures total < 1 ==> r == []
  {
    EntriesUpTo(total, total, current)
  }

  /** An entry is in the row for pages 1..n exactly when its page is in range and the
      loop pushes that entry for it. */
  lemma {:induction false} EntriesUpToMembers(n: int, total: int, current: int, e: Entry)
    ensures e in EntriesUpTo(n, total, current) <==> 1 <= e.page <= n && e in EntryFor(e.page, total, current)
    decreases n
  {
    if n >= 1 {
      EntriesUpToMembers(n - 1, total, current, e);
    }
  }

  /** Every entry's page is in 1..n, and the pages strictly increase along the row. */
  lemma {:induction false} EntriesUpToOrdered(n: int, total: int, current: int)
    ensures forall k :: 0 <= k < |EntriesUpTo(n, total, current)| ==> 1 <= EntriesUpTo(n, total, current)[k].page <= n
    ensures forall a, b :: 0 <= a < b < |EntriesUpTo(n, total, current)| ==>
      EntriesUpTo(n, total, current)[a].page < EntriesUpTo(n, total, current)[b].page
    decreases n
  {
    if n >= 1 {
      EntriesUpToOrdered(n - 1, total, current);
      var prev := EntriesUpTo(n - 1, total, current);
      var es := EntriesUpTo(n, total, current);
      assert es == prev + EntryFor(n, total, current);
      forall k | 0 <= k < |es| ensures 1 <= es[k].page <= n {
        if k >= |prev| {
          assert es[k] in EntryFor(n, total, current);
        }
      }
      forall a, b | 0 <= a < b < |es| ensures es[a].page < es[b].page {
        if b >= |prev| {
          assert es[b].page == n;
          assert es[a] == prev[a];
        }
      }
    }
  }

  /** Page `i` has a button, highlighted iff it is the current page, exactly when it is
      in 1..total and is the first, the last or within two of the current page. */
  lemma ButtonIff(total: int, current: int, i: int, active: bool)
    ensures Button(i, active) in PageEntries(total, current) <==>
      1 <= i <= total && ShowsButton(i, total, current) && active == (i == current)
  {
    EntriesUpToMembers(total, total, current, Button(i, active));
  }

  /** Page `i` has an ellipsis exactly when it is in 1..total, has no button, and is the
      third page before or after the current one. */
  lemma EllipsisIff(total: int, current: int, i: int)
    ensures Ellipsis(i) in PageEntries(total, current) <==>
      1 <= i <= total && !ShowsButton(i, total, current) && (i == current - 3 || i == current + 3)
  {
    EntriesUpToMembers(total, total, current, Ellipsis(i));
  }

  /** The first and the last page always have a button when there is any page. */
  lemma EndsPresent(total: int, current: int)
    requires total >= 1
    ensures Button(1, current == 1) in PageEntries(total, current)
    ensures Button(total, current == total) in PageEntries(total, current)
  {
    ButtonIff(total, current, 1, current == 1);
    ButtonIff(total, current, total, current == total);
  }

  // ---------------------------------------------------------------- counting

  function Buttons(es: seq<Entry>): nat {
    if es == [] then 0 else (if es[|es| - 1].Button? then 1 else 0) + Buttons(es[..|es| - 1])
  }

  function Ellipses(es: seq<Entry>): nat {
    if es == [] then 0 else (if es[|es| - 1].Ellipsis? then 1 else 0) + Ellipses(es[..|es| - 1])
  }

  function Indicator(b: bool): nat {
    if b then 1 else 0
  }

  /** How many of the pages 1..n lie within two of `current`. */
  function WindowCount(n: int, current: int): (r: nat)
    ensures r == WindowCountClosed(n, current) <= 2 * Window + 1
    decreases n
  {
    if n < 1 then 0
    else WindowCount(n - 1, current) + Indicator(current - Window <= n <= current + Window)
  }

  /** The size of the window [current-2, current+2] clipped to 1..n. */
  function WindowCountClosed(n: int, current: int): int {
    var lo := if current - Window > 1 then current - Window else 1;
    var hi := if current + Window < n then current + Window else n;
    if hi < lo then 0 else hi - lo + 1
  }

  /** Counting the buttons of pages 1..n: page 1, page `total` and the window around the
      current page are the only places a button can be. */
  lemma {:induction false} ButtonsBound(n: int, total: int, current: int)
    ensures Buttons(EntriesUpTo(n, total, current)) <=
      Indicator(n >= 1) + Indicator(1 < total <= n) + WindowCount(n, current)
    decreases n
  {
    if n >= 1 {
      ButtonsBound(n - 1, total, current);
      var prev := EntriesUpTo(n - 1, total, current);
      var es := prev + EntryFor(n, total, current);
      if EntryFor(n, total, current) == [] {
        assert es == prev;
      } else {
        assert es[..|es| - 1] == prev;
      }
    }
  }

  /** Ellipses can only be at the third page before and the third page after the
      current one. */
  lemma {:induction false} EllipsesBound(n: int, total: int, current: int)
    ensures Ellipses(EntriesUpTo(n, total, current)) <=
      Indicator(1 <= current - 3 <= n) + Indicator(1 <= current + 3 <= n)
    decreases n
  {
    if n >= 1 {
      EllipsesBound(n - 1, total, current);
      var prev := EntriesUpTo(n - 1, total, current);
      var es := prev + EntryFor(n, total, current);
      if EntryFor(n, total, current) == [] {
        assert es == prev;
      } else {
        assert es[..|es| - 1] == prev;
      }
    }
  }

  /** The row holds at most 7 buttons and at most 2 ellipses. */
  lemma RowIsShort(total: int, current: int)
    ensures Buttons(PageEntries(total, current)) <= 7
    ensures Ellipses(PageEntries(total, current)) <= 2
  {
    ButtonsBound(total, total, current);
    EllipsesBound(total, total, current);
  }

  // ---------------------------------------------------------------- the page state

  /** One page of the listing as the server sends it; items are given by id. */
  datatype Listing = Listing(results: Option<seq<int>>, next: Option<string>, previous: Option<string>, count: nat)

  class MenuPage {
    var activeCategory: string
    var nextPage: Option<string>
    var previousPage: Option<string>
    var currentPage: int
    var totalPages: int
    var menuData: seq<int>
    var errorMenu: string
    var loadingMenu: bool

    constructor ()
      ensures activeCategory == "Main Meals" && currentPage == 1 && totalPages == 1
      ensures nextPage == None && previousPage == None
      ensures menuData == [] && errorMenu == "" && loadingMenu
    {
      activeCategory := "Main Meals";
      nextPage := None;
      previousPage := None;
      currentPage := 1;
      totalPages := 1;
      menuData := [];
      errorMenu := "";
      loadingMenu := true;
    }

    /** The request the page makes whenever the category or the page changes. */
    function ListingRequest(): string
      reads this
    {
      ListingUrl(activeCategory, currentPage)
    }

    /** `handleCategoryClick`: switch category and go back to the first page. */
    method CategoryClick(categoryTitle: string)
      modifies this`activeCategory, this`currentPage
      ensures activeCategory == categoryTitle && currentPage == 1
    {
      activeCategory := categoryTitle;
      currentPage := 1;
    }

    /** `handleNextPage`: one page on, only when the listing has a next link. */
    method NextPage()
      modifies this`currentPage
      ensures currentPage == if Truthy(nextPage) then old(currentPage) + 1 else old(currentPage)
    {
      if Truthy(nextPage) {
        currentPage := currentPage + 1;
      }
    }

    /** `handlePreviousPage`: one page back, only when the listing has a previous link. */
    method PreviousPage()
      modifies this`currentPage
      ensures currentPage == if Truthy(previousPage) then old(currentPage) - 1 else old(currentPage)
    {
      if Truthy(previousPage) {
        currentPage := currentPage - 1;
      }
    }

    /** `handlePageClick`. */
    method PageClick(pageNumber: int)
      modifies this`currentPage
      ensures currentPage == pageNumber
    {
      currentPage := pageNumber;
    }

    /** `fetchMenuData` once the fetch settles: a listing replaces the items, the links
        and the page count (a missing result list counts as empty); a failure records
        its message and keeps the rest. Either way loading ends. */
    method ReceiveMenu(fetched: Fetched<Listing>)
      modifies this`menuData, this`nextPage, this`previousPage, this`totalPages, this`errorMenu, this`loadingMenu
      ensures !loadingMenu
      ensures fetched.Loaded? ==>
        && menuData == fetched.data.results.GetOr([])
        && nextPage == fetched.data.next && previousPage == fetched.data.previous
        && totalPages == TotalPages(fetched.data.count)
        && errorMenu == old(errorMenu)
      ensures fetched.Failed? ==>
        && errorMenu == fetched.message
        && menuData == old(menuData) && nextPage == old(nextPage) && previousPage == old(previousPage)
        && totalPages == old(totalPages)
    {
      match fetched {
        case Loaded(data) =>
          menuData := data.results.GetOr([]);
          nextPage := data.next;
          previousPage := data.previous;
          totalPages := TotalPages(data.count);
        case Failed(message) =>
          errorMenu := message;
      }
      loadingMenu := false;
    }

    /** `renderPageNumbers`: walk the pages 1..totalPages and push a button, an ellipsis
        or nothing for each. */
    method RenderPageNumbers() returns (pages: seq<Entry>)
      ensures pages == PageEntries(totalPages, currentPage)
    {
      pages := [];
      var i := 1;
      while i <= totalPages
        invariant 1 <= i <= if totalPages >= 1 then totalPages + 1 else 1
        invariant pages == EntriesUpTo(i - 1, totalPages, currentPage)
      {
        if i == 1 || i == totalPages {
          pages := pages + [Button(i, i == currentPage)];
        } else if i >= currentPage - Window && i <= currentPage + Window {
          pages := pages + [Button(i, i == currentPage)];
        } else if i == currentPage - Window - 1 || i == currentPage + Window + 1 {
          pages := pages + [Ellipsis(i)];
        }
        i := i + 1;
      }
    }
  }
}
