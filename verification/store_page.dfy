/** The store page: category, search, filter-store and stock filters, the
    price order, paging by 30 with a collapsed page bar, and the effects
    that move the page when the filters change.

    The search term is the debounced value of the search box; the delay
    itself is not modelled.
 */
module StorePage {
  import opened Wrappers
  import opened Text
  import opened JsValues
  import opened Seqs
  import opened StableSort
  import opened Paging
  import opened Catalog

  /** What the list is filtered by: the page's category, search and stock
      switch, and the filter store's state. */
  datatype Selection = Selection(
    category: String,
    query: String,
    onlyInStock: bool,
    filters: Filters)

  /** The page's state: the selection and the current page. */
  datatype View = View(sel: Selection, page: int)

  function InitialView(filters: Filters): View {
    View(Selection(AllCategories, "", false, filters), 1)
  }

  /** `(p.category || "") === selectedCategory`. */
  predicate InCategory(p: Product, selected: String) {
    StrOr(p.category, "") == selected
  }

  /** The name or the description, lower-cased, contains `term`. */
  predicate SearchHit(p: Product, term: String) {
    Contains(Lowered(p.name), term) || Contains(Lowered(p.description), term)
  }

  /** `(p.stock ?? 1) > 0`: a product without a stock figure counts as in
      stock. */
  predicate InStock(p: Product) { p.stock.GetOr(1) > 0 }

  /** Whether a product is listed: it is in the selected category (any for
      "All"), it matches a non-blank search (the whole query lower-cased,
      surrounding spaces included, is looked for in the name or the
      description), it passes the filter store's filters, and it is in stock
      when only stocked products are wanted. */
  predicate Matches(p: Product, v: Selection) {
    && (v.category == AllCategories || InCategory(p, v.category))
    && (IsBlank(v.query) || SearchHit(p, ToLower(v.query)))
    && PassesFilters(p, v.filters)
    && (!v.onlyInStock || InStock(p))
  }

  /** The filters of the `filtered` memo, applied in the source's order. */
  function Unsorted(products: seq<Product>, v: Selection): seq<Product> {
    var byCategory := FilterIf(products, v.category != AllCategories, p => InCategory(p, v.category));
    var bySearch := FilterIf(byCategory, Trim(v.query) != "", p => SearchHit(p, ToLower(v.query)));
    var byStore := ApplyFilters(bySearch, v.filters);
    FilterIf(byStore, v.onlyInStock, InStock)
  }

  /** The `filtered` memo: the filters, then the price order. */
  function Listed(products: seq<Product>, v: Selection): seq<Product> {
    SortByMode(Unsorted(products, v), v.filters.price)
  }

  /** The filter chain keeps exactly the matching products, in catalogue
      order. */
  lemma UnsortedIsFilter(products: seq<Product>, v: Selection)
    ensures Unsorted(products, v) == Filter(products, p => Matches(p, v))
  {
    var c := (x: Product) => v.category == AllCategories || InCategory(x, v.category);
    var cs := (x: Product) => c(x) && (IsBlank(v.query) || SearchHit(x, ToLower(v.query)));
    var csf := (x: Product) => cs(x) && PassesFilters(x, v.filters);
    FilterIfBase(products, v.category != AllCategories, p => InCategory(p, v.category), c);
    FilterIfCompose(products, c, Trim(v.query) != "", p => SearchHit(p, ToLower(v.query)), cs);
    ApplyFiltersAfter(products, cs, v.filters, csf);
    FilterIfCompose(products, csf, v.onlyInStock, InStock, p => Matches(p, v));
  }

  /** The listed products are the matching ones: without a price order they
      keep the catalogue's order; with one they are sorted by price and
      products of equal price keep the catalogue's order. */
  lemma ListedSpec(products: seq<Product>, v: Selection)
    ensures var r := Listed(products, v);
      var m := Filter(products, p => Matches(p, v));
      && multiset(r) == multiset(m)
      && (forall x :: x in r <==> x in products && Matches(x, v))
      && (v.filters.price != LowToHigh && v.filters.price != HighToLow ==>
            r == m && IsSubsequence(r, products))
      && (v.filters.price == LowToHigh ==>
            SortedBy(r, PriceKey) && forall k :: WithKey(r, PriceKey, k) == WithKey(m, PriceKey, k))
      && (v.filters.price == HighToLow ==>
            SortedBy(r, NegPriceKey) && forall k :: WithKey(r, NegPriceKey, k) == WithKey(m, NegPriceKey, k))
  {
    var r := Listed(products, v);
    var m := Filter(products, p => Matches(p, v));
    UnsortedIsFilter(products, v);
    SortByModeSpec(m, v.filters.price);
    FilterIsSubsequence(products, p => Matches(p, v));
    forall x ensures x in r <==> x in products && Matches(x, v) {
      assert x in r <==> x in multiset(r);
      assert x in m <==> x in multiset(m);
      FilterMember(products, p => Matches(p, v), x);
    }
  }

  /** `totalPages` for a selection. */
  function PageCount(products: seq<Product>, v: Selection): int {
    TotalPages(|Listed(products, v)|, PageSize)
  }

  /** The products on the current page. */
  function Paginated(products: seq<Product>, v: View): seq<Product> {
    PageSlice(Listed(products, v.sel), v.page, PageSize)
  }

  /** The page bar's items, `pageNumbers`. */
  function PageBar(products: seq<Product>, v: View): seq<PageItem> {
    PageNumbers(v.page, PageCount(products, v.sel))
  }

  /** On an in-range page the bar runs from page 1 to the last page in
      increasing order, shows the current page and holds at most seven
      entries; every page it leaves out sits behind an ellipsis exactly
      when there are at most seven pages or the current page is neither the
      fourth nor the fourth from last. */
  lemma PageBarSpec(products: seq<Product>, v: View)
    requires 1 <= v.page <= PageCount(products, v.sel)
    ensures var r := PageBar(products, v); var t := PageCount(products, v.sel);
      && |r| <= 7
      && r[0] == Number(1) && r[|r| - 1] == Number(t)
      && Number(v.page) in r
      && Increasing(r)
      && (GapsMarked(r) <==> t <= 7 || (v.page != 4 && v.page != t - 3))
  {
    PageNumbersComplete(v.page, PageCount(products, v.sel));
    PageNumbersGapsMarkedExactly(v.page, PageCount(products, v.sel));
  }

  /** "Reset filter": every filter back to its default; the page is left to
      the reset effect. */
  function ClearAllFilters(): Selection {
    Selection(AllCategories, "", false, ClearedFilters())
  }

  /** After "Reset filter" every product is listed, in catalogue order. */
  lemma ClearAllListsEverything(products: seq<Product>)
    ensures Listed(products, ClearAllFilters()) == products
  {
    var w := ClearAllFilters();
    assert IsBlank(w.query);
    UnsortedIsFilter(products, w);
    FilterKeepAll(products, p => Matches(p, w));
  }

  /** What the user can do on the page. */
  datatype Event =
    | SelectCategory(category: String)
    | Search(query: String)
    | ToggleInStock
    | SetFilters(filters: Filters)
    | ClearAll
    | PrevPage
    | NextPage
    | GoToPage(n: int)

  /** The state updates an event makes, before the effects run. */
  function Change(products: seq<Product>, v: View, e: Event): View {
    match e
    case SelectCategory(c) => v.(sel := v.sel.(category := c))
    case Search(q) => v.(sel := v.sel.(query := q))
    case ToggleInStock => v.(sel := v.sel.(onlyInStock := !v.sel.onlyInStock))
    case SetFilters(f) => v.(sel := v.sel.(filters := f))
    case ClearAll => v.(sel := ClearAllFilters())
    case PrevPage => v.(page := Prev(v.page))
    case NextPage => v.(page := Next(v.page, PageCount(products, v.sel)))
    case GoToPage(n) => v.(page := n)
  }

  /** A change the reset effect reacts to: the category, the search, the
      stock switch or the filter store. */
  predicate FiltersChanged(v: View, w: View) {
    v.sel != w.sel
  }

  /** One event followed by the reset and clamp effects. */
  function Step(products: seq<Product>, v: View, e: Event): View {
    var w := Change(products, v, e);
    w.(page := SettlePage(w.page, FiltersChanged(v, w), PageCount(products, w.sel)))
  }

  predicate MovesPage(e: Event) {
    e.PrevPage? || e.NextPage? || e.GoToPage?
  }

  /** After a filter event the page is a valid one for the new list: page 1
      when the old page still exists, otherwise the last page, because the
      clamp effect runs after the reset effect in the same commit and sees
      the old page. */
  lemma FilterEventSettles(products: seq<Product>, v: View, e: Event)
    requires v.page >= 1 && !MovesPage(e)
    ensures var w := Step(products, v, e);
      var t := PageCount(products, w.sel);
      && 1 <= w.page <= t
      && (FiltersChanged(v, w) && v.page <= t ==> w.page == 1)
      && (v.page > t ==> w.page == t)
      && (!FiltersChanged(v, w) && v.page <= t ==> w.page == v.page)
  {
    var w0 := Change(products, v, e);
    assert w0.page == v.page;
    var t := PageCount(products, w0.sel);
    SettlePageInRange(w0.page, FiltersChanged(v, w0), t);
  }

  /** The page buttons and arrow keys change no filter and keep an in-range
      page in range: prev and next move by one within `1..total`, a page
      number beyond the last clamps to the last page. */
  lemma PageMoveStaysInRange(products: seq<Product>, v: View, e: Event)
    requires MovesPage(e)
    requires 1 <= v.page <= PageCount(products, v.sel)
    requires e.GoToPage? ==> e.n >= 1
    ensures var w := Step(products, v, e);
      var t := PageCount(products, v.sel);
      && w.sel == v.sel
      && 1 <= w.page <= t
      && (e.PrevPage? ==> w.page == Prev(v.page))
      && (e.NextPage? ==> w.page == Next(v.page, t))
      && (e.GoToPage? ==> w.page == Min(e.n, t))
  {
    var w0 := Change(products, v, e);
    assert w0.sel == v.sel;
    SettlePageInRange(w0.page, false, PageCount(products, v.sel));
  }
}
