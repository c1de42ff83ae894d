/**
 The pagination hook: the committed page, the page size, and the page-jump
 editor (an edit flag plus the pending text), over a list of `itemCount`
 items. Every handler is a pure transition on `PageState`; the derived
 values `TotalPages` and `PageItems` are recomputed from the state.
 */
module Pagination {
  import opened Wrappers
  import Decimal

  /** The page size a fresh hook starts with when the caller gives none. */
  const DefaultItemsPerPage: int := 10

  datatype PageState = PageState(
    currentPage: int,
    itemsPerPage: int,
    isEditingPage: bool,
    pageInputValue: string)

  /** The hook's state on first render. */
  function Init(itemsPerPage: int): (st: PageState)
    requires itemsPerPage >= 1
    ensures Valid(st)
    ensures st.currentPage == 1 && st.itemsPerPage == itemsPerPage
    ensures !st.isEditingPage && st.pageInputValue == ""
  {
    PageState(1, itemsPerPage, false, "")
  }

  /** With the default page size, a list of `n` items starts on page 1 showing its first (at most) ten items. */
  lemma DefaultInit<T>(items: seq<T>)
    ensures Init(DefaultItemsPerPage).itemsPerPage == 10
    ensures PageItems(items, Init(DefaultItemsPerPage)) == items[..if |items| < 10 then |items| else 10]
  {
  }

  /** What every handler keeps: a page number from 1 up and a positive page size. */
  predicate Valid(st: PageState)
  {
    st.currentPage >= 1 && st.itemsPerPage >= 1
  }

  /** `Math.ceil(itemCount / itemsPerPage)`: the least number of pages that holds every item. */
  function TotalPages(itemCount: nat, itemsPerPage: int): (r: nat)
    requires itemsPerPage >= 1
    ensures r * itemsPerPage >= itemCount
    ensures r > 0 ==> (r - 1) * itemsPerPage < itemCount
    ensures r == 0 <==> itemCount == 0
  {
    CeilDiv(itemCount, itemsPerPage)
  }

  /** Integer ceiling of `n / d` by repeated subtraction. */
  function CeilDiv(n: nat, d: int): (q: nat)
    requires d >= 1
    ensures q * d >= n
    ensures q > 0 ==> (q - 1) * d < n
    decreases n
  {
    if n == 0 then 0 else 1 + CeilDiv(if n <= d then 0 else n - d, d)
  }

  /** Where an index argument of `Array.prototype.slice` lands: negative counts from the end, then clipped. */
  function SliceIndex(len: nat, i: int): (r: nat)
    ensures r <= len
    ensures 0 <= i <= len ==> r == i
    ensures i > len ==> r == len
  {
    if i < 0 then (if len + i < 0 then 0 else len + i)
    else if i > len then len
    else i
  }

  /** `s.slice(b, e)`: never fails, empty when the clipped bounds cross. */
  function JsSlice<T>(s: seq<T>, b: int, e: int): (r: seq<T>)
    ensures |r| <= |s|
  {
    var lo := SliceIndex(|s|, b);
    var hi := SliceIndex(|s|, e);
    if lo < hi then s[lo..hi] else []
  }

  /** The items shown on page `page` when pages hold `itemsPerPage` items. */
  function PageOf<T>(items: seq<T>, page: int, itemsPerPage: int): seq<T>
  {
    var start := (page - 1) * itemsPerPage;
    JsSlice(items, start, start + itemsPerPage)
  }

  /** `paginatedItems`: the slice for the committed page. */
  function PageItems<T>(items: seq<T>, st: PageState): seq<T>
  {
    PageOf(items, st.currentPage, st.itemsPerPage)
  }

  /** The visible slice starts at `(currentPage - 1) * itemsPerPage`, holds at most a page, and is empty past the end. */
  lemma PageItemsWindow<T>(items: seq<T>, st: PageState)
    requires Valid(st)
    ensures var start := (st.currentPage - 1) * st.itemsPerPage;
            && 0 <= start
            && |PageItems(items, st)| <= st.itemsPerPage
            && (start >= |items| ==> PageItems(items, st) == [])
            && (start < |items| ==>
                  PageItems(items, st) ==
                  items[start..if start + st.itemsPerPage < |items| then start + st.itemsPerPage else |items|])
  {
    var start := (st.currentPage - 1) * st.itemsPerPage;
    assert 0 <= start by { NonNegProduct(st.currentPage - 1, st.itemsPerPage); }
  }

  /** A product of non-negative factors is non-negative. */
  lemma NonNegProduct(a: int, b: int)
    requires a >= 0 && b >= 0
    ensures a * b >= 0
  {
  }

  /** The concatenation of pages 1 to k. */
  function PagesUpTo<T>(items: seq<T>, itemsPerPage: int, k: nat): seq<T>
    decreases k
  {
    if k == 0 then [] else PagesUpTo(items, itemsPerPage, k - 1) + PageOf(items, k, itemsPerPage)
  }

  /** Pages 1 to k together are the first `k * itemsPerPage` items (fewer at the end of the list). */
  lemma {:induction false} PagesUpToPrefix<T>(items: seq<T>, itemsPerPage: int, k: nat)
    requires itemsPerPage >= 1
    ensures k * itemsPerPage >= 0
    ensures PagesUpTo(items, itemsPerPage, k) ==
            items[..if k * itemsPerPage < |items| then k * itemsPerPage else |items|]
    decreases k
  {
    NonNegProduct(k, itemsPerPage);
    if k > 0 {
      PagesUpToPrefix(items, itemsPerPage, k - 1);
      var start := (k - 1) * itemsPerPage;
      NonNegProduct(k - 1, itemsPerPage);
      assert start + itemsPerPage == k * itemsPerPage;
      var n := |items|;
      var lo := if start < n then start else n;
      var hi := if k * itemsPerPage < n then k * itemsPerPage else n;
      assert PageOf(items, k, itemsPerPage) == items[lo..hi];
      assert items[..lo] + items[lo..hi] == items[..hi];
    }
  }

  /** Pages 1 to `TotalPages` together reproduce the item list exactly: nothing lost, repeated or reordered. */
  lemma PagesCoverItems<T>(items: seq<T>, itemsPerPage: int)
    requires itemsPerPage >= 1
    ensures PagesUpTo(items, itemsPerPage, TotalPages(|items|, itemsPerPage)) == items
  {
    var t := TotalPages(|items|, itemsPerPage);
    PagesUpToPrefix(items, itemsPerPage, t);
    assert items[..|items|] == items;
  }

  /** Every page from 1 to `TotalPages` shows something; every later page is empty. */
  lemma {:induction false} PageNonEmptyIffInRange<T>(items: seq<T>, page: int, itemsPerPage: int)
    requires page >= 1 && itemsPerPage >= 1
    ensures PageOf(items, page, itemsPerPage) != [] <==> page <= TotalPages(|items|, itemsPerPage)
  {
    var t := TotalPages(|items|, itemsPerPage);
    var start := (page - 1) * itemsPerPage;
    NonNegProduct(page - 1, itemsPerPage);
    if page <= t {
      MonotoneProduct(page - 1, t - 1, itemsPerPage);
    } else {
      MonotoneProduct(t, page - 1, itemsPerPage);
    }
  }

  /** Multiplying by a non-negative factor preserves order. */
  lemma MonotoneProduct(a: int, b: int, c: int)
    requires 0 <= a <= b && c >= 0
    ensures a * c <= b * c
  {
  }

  /** `setCurrentPage` (`handlePageChange`): moves to `page` only when it is a real page. */
  function SetCurrentPage(st: PageState, itemCount: nat, page: int): (r: PageState)
    requires Valid(st)
    ensures Valid(r)
    ensures r.itemsPerPage == st.itemsPerPage
    ensures r.isEditingPage == st.isEditingPage && r.pageInputValue == st.pageInputValue
    ensures 1 <= page <= TotalPages(itemCount, st.itemsPerPage) ==> r.currentPage == page
    ensures !(1 <= page <= TotalPages(itemCount, st.itemsPerPage)) ==> r == st
  {
    if 1 <= page <= TotalPages(itemCount, st.itemsPerPage) then st.(currentPage := page) else st
  }

  /** `setItemsPerPage` (`handleItemsPerPageChange`): a new page size always goes back to page 1. */
  function SetItemsPerPage(st: PageState, itemsPerPage: int): (r: PageState)
    requires itemsPerPage >= 1
    ensures Valid(r)
    ensures r.itemsPerPage == itemsPerPage && r.currentPage == 1
    ensures r.isEditingPage == st.isEditingPage && r.pageInputValue == st.pageInputValue
  {
    st.(itemsPerPage := itemsPerPage, currentPage := 1)
  }

  /** `handlePageEdit`: opens the editor pre-filled with the committed page. */
  function PageEdit(st: PageState): (r: PageState)
    ensures r == st.(isEditingPage := true, pageInputValue := Decimal.IntToString(st.currentPage))
    ensures r.isEditingPage
    ensures Decimal.ParseInt(r.pageInputValue) == Some(st.currentPage)
    ensures r.currentPage == st.currentPage && r.itemsPerPage == st.itemsPerPage
  {
    Decimal.ParseRender(st.currentPage);
    st.(isEditingPage := true, pageInputValue := Decimal.IntToString(st.currentPage))
  }

  /** `handlePageInputChange`: the pending text becomes what was typed. */
  function PageInputChange(st: PageState, value: string): (r: PageState)
    ensures r.pageInputValue == value
    ensures r.currentPage == st.currentPage && r.itemsPerPage == st.itemsPerPage
    ensures r.isEditingPage == st.isEditingPage
  {
    st.(pageInputValue := value)
  }

  /**
   `handlePageSubmit`: commits the typed page only when it parses and names a
   real page; the editor is closed and emptied in every case.
   */
  function PageSubmit(st: PageState, itemCount: nat): (r: PageState)
    requires Valid(st)
    ensures Valid(r)
    ensures !r.isEditingPage && r.pageInputValue == ""
    ensures r.itemsPerPage == st.itemsPerPage
    ensures r.currentPage != st.currentPage ==>
              Decimal.ParseInt(st.pageInputValue) == Some(r.currentPage) &&
              1 <= r.currentPage <= TotalPages(itemCount, st.itemsPerPage)
    ensures (match Decimal.ParseInt(st.pageInputValue)
             case Some(p) => 1 <= p <= TotalPages(itemCount, st.itemsPerPage)
             case None => false) ==>
              Some(r.currentPage) == Decimal.ParseInt(st.pageInputValue)
  {
    var next := match Decimal.ParseInt(st.pageInputValue)
      case Some(p) => if 1 <= p <= TotalPages(itemCount, st.itemsPerPage) then p else st.currentPage
      case None => st.currentPage;
    st.(currentPage := next, isEditingPage := false, pageInputValue := "")
  }

  /** `handlePageKeyPress`: Enter submits, Escape closes the editor, any other key does nothing. */
  function PageKeyPress(st: PageState, itemCount: nat, key: string): (r: PageState)
    requires Valid(st)
    ensures Valid(r)
    ensures key == "Enter" ==> r == PageSubmit(st, itemCount)
    ensures key == "Escape" ==> r == st.(isEditingPage := false, pageInputValue := "")
    ensures key == "Escape" ==> r.currentPage == st.currentPage && !r.isEditingPage
    ensures key != "Enter" && key != "Escape" ==> r == st
  {
    if key == "Enter" then PageSubmit(st, itemCount)
    else if key == "Escape" then st.(isEditingPage := false, pageInputValue := "")
    else st
  }

  /** Opening the editor and submitting it untouched never moves the page, even a page past the end. */
  lemma EditThenSubmitKeepsPage(st: PageState, itemCount: nat)
    requires Valid(st)
    ensures PageSubmit(PageEdit(st), itemCount) == st.(isEditingPage := false, pageInputValue := "")
  {
  }

  /** The committed page is page 1 or one of the real pages, and the state is valid. */
  predicate InRange(st: PageState, itemCount: nat)
  {
    Valid(st) &&
    (st.currentPage == 1 || st.currentPage <= TotalPages(itemCount, st.itemsPerPage))
  }

  /** A state whose page is in range stays in range under every handler (for a fixed item count). */
  lemma HandlersKeepInRange(st: PageState, itemCount: nat, page: int, ipp: int, key: string, text: string)
    requires InRange(st, itemCount)
    requires ipp >= 1
    ensures InRange(SetCurrentPage(st, itemCount, page), itemCount)
    ensures InRange(SetItemsPerPage(st, ipp), itemCount)
    ensures InRange(PageEdit(st), itemCount)
    ensures InRange(PageInputChange(st, text), itemCount)
    ensures InRange(PageSubmit(st, itemCount), itemCount)
    ensures InRange(PageKeyPress(st, itemCount, key), itemCount)
  {
    var total := TotalPages(itemCount, st.itemsPerPage);
    var submitted := PageSubmit(st, itemCount);
    assert submitted.currentPage == st.currentPage || 1 <= submitted.currentPage <= total;
    assert InRange(submitted, itemCount);
    var pressed := PageKeyPress(st, itemCount, key);
    assert pressed == submitted || pressed.currentPage == st.currentPage;
    assert InRange(pressed, itemCount);
  }

  /**
   The hook does not clamp the page when the list shrinks: page 3 of 25 items
   is a real page, and after the list drops to 5 items it stays page 3 and
   shows nothing.
   */
  lemma ShrinkLeavesPageEmpty(items: seq<int>)
    requires |items| == 5
    ensures InRange(PageState(3, 10, false, ""), 25)
    ensures !InRange(PageState(3, 10, false, ""), 5)
    ensures PageItems(items, PageState(3, 10, false, "")) == []
  {
  }

  /** Typing "2" and pressing Enter with 3 pages goes to page 2; "99" or Escape keeps the page. */
  lemma PageJumpExamples(st: PageState)
    requires Valid(st) && st.itemsPerPage == 10
    ensures PageKeyPress(PageInputChange(st, "2"), 25, "Enter").currentPage == 2
    ensures PageKeyPress(PageInputChange(st, "99"), 25, "Enter").currentPage == st.currentPage
    ensures PageKeyPress(PageInputChange(st, "2"), 25, "Escape").currentPage == st.currentPage
  {
    assert Decimal.ParseInt("2") == Some(2) by { Decimal.ParseRender(2); }
    assert Decimal.ParseInt("99") == Some(99) by { Decimal.ParseRender(99); }
  }
}
