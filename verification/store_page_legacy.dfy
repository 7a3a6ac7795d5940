/** The older store page: category and filter-store filters and the price
    order only, without search or the stock switch, and with an exact match
    on the category field. Paging, the page bar and the page effects are the
    same as on the current page.
 */
module LegacyStorePage {
  import opened Wrappers
  import opened Text
  import opened Seqs
  import opened Paging
  import opened Catalog
  import StorePage

  /** What the list is filtered by. */
  datatype Selection = Selection(category: String, filters: Filters)

  datatype View = View(sel: Selection, page: int)

  /** `p.category === selectedCategory`: a product without a category is in
      no category. */
  predicate InCategory(p: Product, selected: String) {
    p.category == Some(selected)
  }

  predicate Matches(p: Product, v: Selection) {
    (v.category == AllCategories || InCategory(p, v.category)) && PassesFilters(p, v.filters)
  }

  function Unsorted(products: seq<Product>, v: Selection): seq<Product> {
    var byCategory := FilterIf(products, v.category != AllCategories, p => InCategory(p, v.category));
    ApplyFilters(byCategory, v.filters)
  }

  function Listed(products: seq<Product>, v: Selection): seq<Product> {
    SortByMode(Unsorted(products, v), v.filters.price)
  }

  lemma UnsortedIsFilter(products: seq<Product>, v: Selection)
    ensures Unsorted(products, v) == Filter(products, p => Matches(p, v))
  {
    var c := (x: Product) => v.category == AllCategories || InCategory(x, v.category);
    FilterIfBase(products, v.category != AllCategories, p => InCategory(p, v.category), c);
    ApplyFiltersAfter(products, c, v.filters, p => Matches(p, v));
  }

  /** The same selection on the current page: no search, stock switch
      off. */
  function AsCurrent(v: Selection): StorePage.Selection {
    StorePage.Selection(v.category, "", false, v.filters)
  }

  /** For any category but the empty string the older page lists exactly
      what the current page lists with an empty search and the stock switch
      off, in the same order. */
  lemma AgreesWithCurrent(products: seq<Product>, v: Selection)
    requires v.category != ""
    ensures Listed(products, v) == StorePage.Listed(products, AsCurrent(v))
  {
    var w := AsCurrent(v);
    UnsortedIsFilter(products, v);
    StorePage.UnsortedIsFilter(products, w);
    assert IsBlank(w.query);
    FilterExt(products, p => Matches(p, v), p => StorePage.Matches(p, w));
  }

  /** The empty category is where the two pages part: the current page
      reads a missing category as "" and lists the product, the older page
      does not. */
  lemma EmptyCategoryDiffers(p: Product, f: Filters)
    requires p.category.None? && PassesFilters(p, f)
    ensures StorePage.Matches(p, StorePage.Selection("", "", false, f))
    ensures !Matches(p, Selection("", f))
  {
    assert IsBlank("");
  }

  function PageCount(products: seq<Product>, v: Selection): int {
    TotalPages(|Listed(products, v)|, PageSize)
  }

  function Paginated(products: seq<Product>, v: View): seq<Product> {
    PageSlice(Listed(products, v.sel), v.page, PageSize)
  }

  /** The page bar, drawn by the same code as on the current page. */
  function PageBar(products: seq<Product>, v: View): seq<PageItem> {
    PageNumbers(v.page, PageCount(products, v.sel))
  }

  /** The older page's bar has the same shape, and the same unmarked gaps
      on the fourth and the fourth-from-last page. */
  lemma PageBarSpec(products: seq<Product>, v: View)
    requires 1 <= v.page <= PageCount(products, v.sel)
    ensures var r := PageBar(products, v); var t := PageCount(products, v.sel);
      && |r| <= 7
      && r[0] == Number(1) && r[|r| - 1] == Number(t)
      && Number(v.page) in r
      && Increasing(r)
      && (GapsMarked(r) <==> t <= 7 || (v.page != 4 && v.page != t - 3))
  {
    PageNumbersComplete(v.page, PageCount(products, v.sel));
    PageNumbersGapsMarkedExactly(v.page, PageCount(products, v.sel));
  }

  datatype Event =
    | SelectCategory(category: String)
    | SetFilters(filters: Filters)
    | PrevPage
    | NextPage
    | GoToPage(n: int)

  function Change(products: seq<Product>, v: View, e: Event): View {
    match e
    case SelectCategory(c) => v.(sel := v.sel.(category := c))
    case SetFilters(f) => v.(sel := v.sel.(filters := f))
    case PrevPage => v.(page := Prev(v.page))
    case NextPage => v.(page := Next(v.page, PageCount(products, v.sel)))
    case GoToPage(n) => v.(page := n)
  }

  predicate FiltersChanged(v: View, w: View) {
    v.sel != w.sel
  }

  /** One event followed by the reset effect and then the clamp effect. */
  function Step(products: seq<Product>, v: View, e: Event): View {
    var w := Change(products, v, e);
    w.(page := SettlePage(w.page, FiltersChanged(v, w), PageCount(products, w.sel)))
  }

  /** After any event from a valid page the page is valid for the new
      list; a filter change lands on page 1, or on the last page when the
      old page lies beyond it; the page buttons change no filter. */
  lemma StepStaysInRange(products: seq<Product>, v: View, e: Event)
    requires 1 <= v.page <= PageCount(products, v.sel)
    requires e.GoToPage? ==> e.n >= 1
    ensures var w := Step(products, v, e);
      var t := PageCount(products, w.sel);
      && 1 <= w.page <= t
      && (e.SelectCategory? || e.SetFilters? ==>
            && (FiltersChanged(v, w) && v.page <= t ==> w.page == 1)
            && (v.page > t ==> w.page == t))
      && (e.PrevPage? || e.NextPage? || e.GoToPage? ==> w.sel == v.sel)
  {
    var w0 := Change(products, v, e);
    SettlePageInRange(w0.page, FiltersChanged(v, w0), PageCount(products, w0.sel));
  }
}
