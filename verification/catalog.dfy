/** What both store pages share: the product record read from `/items`, the
    shared filter store's state, the per-product tests, the price ordering,
    the category list and the "showing a–b of n" label. */
module Catalog {
  import opened Wrappers
  import opened Text
  import opened JsValues
  import opened Seqs
  import opened StableSort
  import opened Paging

  /** A product as the backend returns it; any field may be missing. */
  datatype Product = Product(
    id: String,
    name: Option<String>,
    description: Option<String>,
    price: Option<int>,
    imgSrc: Option<String>,
    category: Option<String>,
    gender: Option<String>,
    ageGroup: Option<String>,
    stock: Option<int>)

  /** The state of the shared filter store: the sale switch, the gender and
      age-group selections (`"all"` or a lower-case value) and the price
      order (`"none"`, `"low-high"` or `"high-low"`). */
  datatype Filters = Filters(sale: bool, gender: String, ageGroup: String, price: String)

  const AllCategories: String := "All"
  const AnyValue: String := "all"
  const NoOrder: String := "none"
  const LowToHigh: String := "low-high"
  const HighToLow: String := "high-low"

  /** Products strictly below this price count as "on sale". */
  const SaleThreshold: int := 3000000

  /** Products per store page. */
  const PageSize: int := 30

  /** The filters "Reset" restores. */
  function ClearedFilters(): Filters {
    Filters(false, AnyValue, AnyValue, NoOrder)
  }

  /** `p.price ?? 0`: the sort key and the sale test's price. */
  function PriceKey(p: Product): int { p.price.GetOr(0) }

  /** The key that sorts by descending price: `(b.price ?? 0) - (a.price ?? 0)`. */
  function NegPriceKey(p: Product): int { -PriceKey(p) }

  /** `(o || "").toLowerCase()`, equally `o?.toLowerCase() || ""`. */
  function Lowered(o: Option<String>): String {
    ToLower(StrOr(o, ""))
  }

  predicate OnSale(p: Product) { PriceKey(p) < SaleThreshold }

  predicate GenderIs(p: Product, g: String) { Lowered(p.gender) == g }

  predicate AgeGroupIs(p: Product, a: String) { Lowered(p.ageGroup) == a }

  /** What the filter store's three filters let through. */
  predicate PassesFilters(p: Product, f: Filters) {
    && (!f.sale || OnSale(p))
    && (f.gender == AnyValue || GenderIs(p, f.gender))
    && (f.ageGroup == AnyValue || AgeGroupIs(p, f.ageGroup))
  }

  /** The filter store's three filters applied one after another, as both
      pages do, in the source's order: sale, gender, age group. */
  function ApplyFilters(list: seq<Product>, f: Filters): seq<Product> {
    var bySale := FilterIf(list, f.sale, OnSale);
    var byGender := FilterIf(bySale, f.gender != AnyValue, p => GenderIs(p, f.gender));
    FilterIf(byGender, f.ageGroup != AnyValue, p => AgeGroupIs(p, f.ageGroup))
  }

  /** Filtering by a test `a` and then by the filter store is filtering once
      by `a` together with `PassesFilters`. */
  lemma ApplyFiltersAfter(s: seq<Product>, a: Product -> bool, f: Filters, af: Product -> bool)
    requires forall x :: x in s ==> af(x) == (a(x) && PassesFilters(x, f))
    ensures ApplyFilters(Filter(s, a), f) == Filter(s, af)
  {
    var m1 := (x: Product) => a(x) && (!f.sale || OnSale(x));
    var m2 := (x: Product) => m1(x) && (f.gender == AnyValue || GenderIs(x, f.gender));
    FilterIfCompose(s, a, f.sale, OnSale, m1);
    FilterIfCompose(s, m1, f.gender != AnyValue, p => GenderIs(p, f.gender), m2);
    FilterIfCompose(s, m2, f.ageGroup != AnyValue, p => AgeGroupIs(p, f.ageGroup), af);
  }

  /** The price-order select: a stable sort ascending or descending by
      `price ?? 0`, or the order as it is for any other value. */
  function SortByMode(list: seq<Product>, mode: String): (r: seq<Product>)
    ensures multiset(r) == multiset(list)
  {
    if mode == LowToHigh then SortBy(list, PriceKey)
    else if mode == HighToLow then SortBy(list, NegPriceKey)
    else list
  }

  /** The price order sorts and keeps products of equal price in the order
      they came in; any other mode keeps the order. */
  lemma SortByModeSpec(list: seq<Product>, mode: String)
    ensures var r := SortByMode(list, mode);
      && multiset(r) == multiset(list)
      && (mode == LowToHigh ==>
            SortedBy(r, PriceKey) && forall k :: WithKey(r, PriceKey, k) == WithKey(list, PriceKey, k))
      && (mode == HighToLow ==>
            SortedBy(r, NegPriceKey) && forall k :: WithKey(r, NegPriceKey, k) == WithKey(list, NegPriceKey, k))
      && (mode != LowToHigh && mode != HighToLow ==> r == list)
  {
    forall k ensures WithKey(SortBy(list, PriceKey), PriceKey, k) == WithKey(list, PriceKey, k) {
      SortByStable(list, PriceKey, k);
    }
    forall k ensures WithKey(SortBy(list, NegPriceKey), NegPriceKey, k) == WithKey(list, NegPriceKey, k) {
      SortByStable(list, NegPriceKey, k);
    }
  }

  /** Descending by price is ascending by price read backwards: the
      high-low order puts a dearer product first. */
  lemma HighToLowDescends(list: seq<Product>)
    ensures var r := SortByMode(list, HighToLow);
      forall i, j :: 0 <= i < j < |r| ==> PriceKey(r[i]) >= PriceKey(r[j])
  {
    var r := SortByMode(list, HighToLow);
    assert SortedBy(r, NegPriceKey);
    forall i, j | 0 <= i < j < |r| ensures PriceKey(r[i]) >= PriceKey(r[j]) {
      assert NegPriceKey(r[i]) <= NegPriceKey(r[j]);
    }
  }

  function CategoryOf(p: Product): Option<String> {
    p.category
  }

  /** `products.map(p => p.category).filter(Boolean)`. */
  function CategoryValues(products: seq<Product>): (r: seq<String>)
    ensures forall c :: c in r <==>
      c != "" && exists j :: 0 <= j < |products| && products[j].category == Some(c)
    ensures IsSubsequence(Present(r), Map(products, CategoryOf))
  {
    var cats := Map(products, CategoryOf);
    forall c ensures Some(c) in cats <==> exists j :: 0 <= j < |products| && products[j].category == Some(c) {
      if exists j :: 0 <= j < |products| && products[j].category == Some(c) {
        var j :| 0 <= j < |products| && products[j].category == Some(c);
        assert cats[j] == Some(c);
      }
    }
    TruthiesIsSubsequence(cats);
    Truthies(cats)
  }

  /** The category buttons: `"All"` followed by every category some product
      carries, each once, in order of first appearance. */
  function Categories(products: seq<Product>): seq<String> {
    [AllCategories] + Dedupe(CategoryValues(products))
  }

  /** The category list starts with "All", then lists each non-empty
      category of the products exactly once, in the order in which the
      products first carry them. */
  lemma CategoriesSpec(products: seq<Product>)
    ensures var r := Categories(products); var cats := Map(products, CategoryOf);
      && |r| >= 1 && r[0] == AllCategories
      && Distinct(r[1..])
      && (forall c :: c in r[1..] <==>
            c != "" && exists j :: 0 <= j < |products| && products[j].category == Some(c))
      && (forall i :: 1 <= i < |r| ==> Some(r[i]) in cats)
      && (forall i, j :: 1 <= i < j < |r| ==> FirstIndex(cats, Some(r[i])) < FirstIndex(cats, Some(r[j])))
  {
    var r := Categories(products);
    var cats := Map(products, CategoryOf);
    assert r[1..] == Dedupe(CategoryValues(products));
    assert CategoryValues(products) == Truthies(cats);
    DedupeMembers(CategoryValues(products));
    DedupeTruthiesOrder(cats);
    forall i, j | 1 <= i < j < |r| ensures FirstIndex(cats, Some(r[i])) < FirstIndex(cats, Some(r[j])) {
      assert r[i] == r[1..][i - 1] && r[j] == r[1..][j - 1];
    }
  }

  /** "Menampilkan a–b dari n": the 1-based positions of the first and last
      product on a page. */
  function ShownRange(page: int, n: int): (int, int) {
    ((page - 1) * PageSize + 1, Min(page * PageSize, n))
  }

  /** On an in-range page of a non-empty list the label counts exactly the
      products the page shows, and they are the products at those
      positions. */
  lemma ShownRangeMatchesPage<T>(list: seq<T>, page: int)
    requires 1 <= page <= TotalPages(|list|, PageSize) && |list| > 0
    ensures var (a, b) := ShownRange(page, |list|);
      && 1 <= a <= b <= |list|
      && PageSlice(list, page, PageSize) == list[a - 1..b]
  {
    var t := TotalPages(|list|, PageSize);
    MulMonotone(page - 1, t - 1, PageSize);
    var start := PageStart(page, PageSize);
    assert start == (page - 1) * PageSize;
    assert start + PageSize == page * PageSize;
  }
}
