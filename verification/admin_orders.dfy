/** The admin order list: the query built from the date and username
    filters, the fetch that falls back to the legacy route on a 404, the
    summary line, and paging by 15.

    The network is a parameter: `fetch` maps a URL to what the request
    yields. The browser's time-zone offset is a parameter as well.
 */
module AdminOrders {
  import opened Wrappers
  import opened Text
  import opened JsValues
  import opened Seqs
  import opened Paging
  import opened QueryParams
  import Api

  /** Orders per page. */
  const PageLimit: int := 15

  const LoadFailed: String := "Gagal memuat orders"

  /** An order as the list shows it; only the total enters the arithmetic. */
  datatype Order = Order(id: String, username: Option<String>, total: Option<int>)

  /** The filters as sent: `from` and `to` dates, the debounced username
      search, and the time-zone offset in minutes. */
  datatype Filters = Filters(from: String, to: String, search: String, tz: int)

  /** The optional filters of `fetchOrders`, before the offset. */
  function FilterQuery(f: Filters): Params {
    var p1 := SetIf([], f.from != "", "from", f.from);
    var p2 := SetIf(p1, f.to != "", "to", f.to);
    SetIf(p2, f.search != "", "username", f.search)
  }

  /** The `URLSearchParams` built by `fetchOrders`. */
  function OrderQuery(f: Filters): Params {
    Set(FilterQuery(f), "tz", IntToString(f.tz))
  }

  lemma FilterQuerySpec(f: Filters)
    ensures var ps := FilterQuery(f);
      && NamesDistinct(ps)
      && Get(ps, "from") == (if f.from == "" then None else Some(f.from))
      && Get(ps, "to") == (if f.to == "" then None else Some(f.to))
      && Get(ps, "username") == (if f.search == "" then None else Some(f.search))
  {
    var p1 := SetIf([], f.from != "", "from", f.from);
    var p2 := SetIf(p1, f.to != "", "to", f.to);
    SetIfSpec([], f.from != "", "from", f.from);
    SetIfSpec(p1, f.to != "", "to", f.to);
    SetIfSpec(p2, f.search != "", "username", f.search);
  }

  /** `from`, `to` and `username` are sent exactly when they are not
      empty, the offset always, each at most once. */
  lemma OrderQuerySpec(f: Filters)
    ensures var ps := OrderQuery(f);
      && NamesDistinct(ps)
      && Get(ps, "from") == (if f.from == "" then None else Some(f.from))
      && Get(ps, "to") == (if f.to == "" then None else Some(f.to))
      && Get(ps, "username") == (if f.search == "" then None else Some(f.search))
      && Get(ps, "tz") == Some(IntToString(f.tz))
      && ParseInt(Get(ps, "tz").value) == Some(f.tz)
  {
    FilterQuerySpec(f);
    OffsetKeepsFilters(FilterQuery(f), IntToString(f.tz));
    ParseIntOfIntToString(f.tz, "");
    assert IntToString(f.tz) + "" == IntToString(f.tz);
  }

  /** Setting the offset touches none of the filters. */
  lemma OffsetKeepsFilters(base: Params, tz: String)
    requires NamesDistinct(base)
    ensures var ps := Set(base, "tz", tz);
      && NamesDistinct(ps)
      && Get(ps, "from") == Get(base, "from")
      && Get(ps, "to") == Get(base, "to")
      && Get(ps, "username") == Get(base, "username")
      && Get(ps, "tz") == Some(tz)
  {
    SetIfSpec(base, true, "tz", tz);
  }

  /** `base.replace(/\/api$/, "")`. */
  function StripApiSuffix(base: String): (r: String)
    ensures EndsWith(base, Api.ApiSuffix) ==> r + Api.ApiSuffix == base
    ensures !EndsWith(base, Api.ApiSuffix) ==> r == base
  {
    if EndsWith(base, Api.ApiSuffix) then base[..|base| - |Api.ApiSuffix|] else base
  }

  function PrimaryUrl(base: String, ps: Params): String {
    base + "/admin/orders" + QuerySuffix(ps)
  }

  function LegacyUrl(base: String, ps: Params): String {
    StripApiSuffix(base) + "/orders" + QuerySuffix(ps)
  }

  /** For a base ending in `/api`, both routes hang off the same origin:
      the primary one under `/api/admin/orders`, the legacy one under
      `/orders`, and they carry the same query. */
  lemma RoutesShareOrigin(base: String, ps: Params)
    requires EndsWith(base, Api.ApiSuffix)
    ensures var origin := StripApiSuffix(base);
      && PrimaryUrl(base, ps) == origin + "/api/admin/orders" + QuerySuffix(ps)
      && LegacyUrl(base, ps) == origin + "/orders" + QuerySuffix(ps)
  {
    var origin := StripApiSuffix(base);
    var q := QuerySuffix(ps);
    assert base == origin + "/api";
    assert (origin + "/api") + "/admin/orders" == origin + ("/api" + "/admin/orders");
    assert "/api" + "/admin/orders" == "/api/admin/orders" by {
      var joined := "/api" + "/admin/orders";
      forall i | 0 <= i < |joined| ensures joined[i] == "/api/admin/orders"[i] {
      }
    }
  }

  /** The helper's `API_BASE` always ends in `/api`, so the above holds for
      the base the page uses. */
  lemma ApiRoutesShareOrigin(env: Option<String>, ps: Params)
    ensures var origin := StripApiSuffix(Api.ApiBase(env));
      && PrimaryUrl(Api.ApiBase(env), ps) == origin + "/api/admin/orders" + QuerySuffix(ps)
      && LegacyUrl(Api.ApiBase(env), ps) == origin + "/orders" + QuerySuffix(ps)
  {
    Api.ApiBaseSpec(env);
    RoutesShareOrigin(Api.ApiBase(env), ps);
  }

  /** A reply body as `r.json()` reads it. */
  datatype Body =
    | NotJson
    | OrderArray(orders: seq<Order>)
    | OtherJson(error: Option<String>)

  /** What one `fetch` yields: a rejection with its message, or a reply. */
  datatype Fetched =
    | Rejected(message: String)
    | Reply(status: int, body: Body)

  /** `fetchOrdersWithFallback` together with the error handling of
      `fetchOrders`: the URLs requested, in order, and the orders or the
      error message shown. */
  function FetchOrders(base: String, ps: Params, fetch: String -> Fetched): (seq<String>, Result<seq<Order>, String>) {
    var primary := PrimaryUrl(base, ps);
    var first := fetch(primary);
    var (r, urls) :=
      if first.Reply? && first.status == 404 then (fetch(LegacyUrl(base, ps)), [primary, LegacyUrl(base, ps)])
      else (first, [primary]);
    (urls, Outcome(r))
  }

  /** The result of one settled request. A body that is not JSON counts as
      `[]`, so a failed reply names its own error only through a JSON
      object's `error` field. */
  function Outcome(r: Fetched): Result<seq<Order>, String> {
    if r.Rejected? then Failure(r.message)
    else if !(200 <= r.status <= 299) then
      Failure(if r.body.OtherJson? && Truthy(r.body.error) then r.body.error.value else LoadFailed)
    else if r.body.OrderArray? then Success(r.body.orders)
    else Success([])
  }

  /** The primary route is always asked first, and the legacy route is
      asked exactly when the primary one answered 404, after which only its
      reply counts; the orders come back only from a successful reply
      holding an array, and an error always has a message. */
  lemma FetchOrdersSpec(base: String, ps: Params, fetch: String -> Fetched)
    ensures var (urls, res) := FetchOrders(base, ps, fetch);
      var first := fetch(PrimaryUrl(base, ps));
      var used := if |urls| == 2 then fetch(LegacyUrl(base, ps)) else first;
      && 1 <= |urls| <= 2
      && urls[0] == PrimaryUrl(base, ps)
      && (|urls| == 2 <==> first.Reply? && first.status == 404)
      && (|urls| == 2 ==> urls[1] == LegacyUrl(base, ps))
      && res == Outcome(used)
      && (res.Success? <==> used.Reply? && 200 <= used.status <= 299)
      && (res.Success? && |res.value| > 0 ==> used.body.OrderArray? && res.value == used.body.orders)
      && (res.Failure? && used.Reply? ==> res.error != "")
  {
  }

  function OrderTotal(o: Order): int {
    NumOr(o.total, 0)
  }

  /** The summary line: how many orders and their summed totals, a total
      that is missing, zero or not a number counting as 0. */
  function Summary(orders: seq<Order>): (int, int) {
    (|orders|, SumBy(orders, OrderTotal))
  }

  /** Summaries add up over concatenation. */
  lemma SummaryAppend(a: seq<Order>, b: seq<Order>)
    ensures Summary(a + b).0 == Summary(a).0 + Summary(b).0
    ensures Summary(a + b).1 == Summary(a).1 + Summary(b).1
  {
    SumByAppend(a, b, OrderTotal);
  }

  /** `pages`. */
  function PageCount(orders: seq<Order>): int {
    TotalPages(|orders|, PageLimit)
  }

  /** `visible`. */
  function Visible(orders: seq<Order>, page: int): seq<Order> {
    PageSlice(orders, page, PageLimit)
  }

  /** The totals of pages `1..k` added up. */
  function PageTotals(orders: seq<Order>, k: nat): int {
    if k == 0 then 0 else PageTotals(orders, k - 1) + Summary(Visible(orders, k)).1
  }

  lemma {:induction false} PageTotalsArePrefix(orders: seq<Order>, k: nat)
    ensures PageTotals(orders, k) == Summary(Pages(orders, k, PageLimit)).1
  {
    if k > 0 {
      PageTotalsArePrefix(orders, k - 1);
      SummaryAppend(Pages(orders, k - 1, PageLimit), Visible(orders, k));
    }
  }

  /** Paging neither loses nor repeats an order: the page totals add up to
      the summary's total. */
  lemma PageTotalsAddUp(orders: seq<Order>)
    ensures PageTotals(orders, PageCount(orders)) == Summary(orders).1
  {
    PageTotalsArePrefix(orders, PageCount(orders));
    PagesCover(orders, PageLimit);
  }

  /** The page's state; the loading flag is left out. */
  datatype View = View(orders: seq<Order>, page: int, err: Option<String>, filters: Filters)

  function InitialView(tz: int): View {
    View([], 1, None, Filters("", "", "", tz))
  }

  /** The page is in range. */
  predicate Valid(v: View) {
    1 <= v.page <= PageCount(v.orders)
  }

  datatype Event =
    | SetFrom(from: String)
    | SetTo(to: String)
    | SetSearch(search: String)
    | ClearFilters
    | Loaded(result: Result<seq<Order>, String>)
    | PrevPage
    | NextPage

  function Step(v: View, e: Event): View {
    match e
    case SetFrom(d) => v.(filters := v.filters.(from := d))
    case SetTo(d) => v.(filters := v.filters.(to := d))
    case SetSearch(s) => v.(filters := v.filters.(search := s))
    case ClearFilters => v.(filters := v.filters.(from := "", to := "", search := ""))
    case Loaded(res) =>
      if res.Success? then v.(orders := res.value, page := 1, err := None)
      else v.(err := Some(res.error))
    case PrevPage => v.(page := Prev(v.page))
    case NextPage => v.(page := Next(v.page, PageCount(v.orders)))
  }

  /** Every event keeps the page in range: a load resets it to the first
      page, a failed one keeps the orders and the page; clearing empties the
      three text filters and nothing else. */
  lemma StepKeepsValid(v: View, e: Event)
    requires Valid(v)
    ensures Valid(Step(v, e))
    ensures e.Loaded? && e.result.Success? ==> Step(v, e).page == 1 && Step(v, e).err.None?
    ensures e.Loaded? && e.result.Failure? ==>
      Step(v, e).orders == v.orders && Step(v, e).page == v.page && Step(v, e).err == Some(e.result.error)
    ensures e.ClearFilters? ==>
      Step(v, e).filters == Filters("", "", "", v.filters.tz) && Step(v, e).orders == v.orders
  {
  }

  /** On an in-range page the empty-list message shows exactly when there
      are no orders at all. */
  lemma VisibleEmptyIffNoOrders(v: View)
    requires Valid(v)
    ensures |Visible(v.orders, v.page)| == 0 <==> |v.orders| == 0
    ensures |Visible(v.orders, v.page)| <= PageLimit
  {
    PagesCover(v.orders, PageLimit);
  }
}
