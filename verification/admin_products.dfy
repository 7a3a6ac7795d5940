/** The admin product list: the add and edit forms, the list query sent to
    `/admin/items`, paging by 15, and the category choices remembered across
    loads.

    A numeric form field holds the value `Number(text)` gives, `None` when
    that is not a finite number. Requests are not sent here; the functions
    return what would be sent.
 */
module AdminProducts {
  import opened Wrappers
  import opened Text
  import opened JsValues
  import opened Seqs
  import opened Paging
  import opened QueryParams

  /** Items per admin page. */
  const PageLimit: int := 15

  const ActiveStatus: String := "active"
  const AllCategories: String := "all"
  const LoadFailed: String := "Gagal memuat produk"

  /** A product as the admin endpoints return it. */
  datatype Item = Item(
    id: String,
    name: Option<String>,
    imgSrc: Option<String>,
    price: Option<int>,
    category: Option<String>,
    description: Option<String>,
    status: Option<String>,
    version: Option<int>)

  datatype AddForm = AddForm(
    name: String,
    imgSrc: String,
    price: Option<int>,
    category: String,
    description: String)

  function EmptyAddForm(): AddForm {
    AddForm("", "", None, "", "")
  }

  /** The add form's `valid` memo. */
  predicate AddValid(f: AddForm) {
    |Trim(f.name)| > 0 && |Trim(f.imgSrc)| > 0 && f.price.Some? && f.price.value > 0
  }

  /** `s.trim() || undefined`. */
  function OptionalText(s: String): (r: Option<String>)
    ensures r.None? <==> IsBlank(s)
    ensures r.Some? ==> r.value == Trim(s) && r.value != ""
  {
    if Trim(s) == "" then None else Some(Trim(s))
  }

  /** The body posted to create a product. */
  datatype CreateBody = CreateBody(
    name: String,
    imgSrc: String,
    price: int,
    category: Option<String>,
    description: Option<String>,
    status: String)

  /** `submit` of the add form up to the request: nothing while the form is
      invalid or a save is running, otherwise the trimmed body. */
  function SubmitAdd(f: AddForm, saving: bool): (r: Option<CreateBody>)
  {
    if !AddValid(f) || saving then None
    else Some(CreateBody(Trim(f.name), Trim(f.imgSrc), f.price.value,
                         OptionalText(f.category), OptionalText(f.description), ActiveStatus))
  }

  /** A body is sent exactly when the form is valid and no save is running;
      it carries a non-blank name and image without surrounding white space,
      a positive price, the category and description only when they are not
      blank, and status "active". */
  lemma SubmitAddSpec(f: AddForm, saving: bool)
    ensures var r := SubmitAdd(f, saving);
      && (r.Some? <==> !saving && !IsBlank(f.name) && !IsBlank(f.imgSrc)
                       && f.price.Some? && f.price.value > 0)
      && (r.Some? ==>
            && r.value.name == Trim(f.name) && r.value.name != ""
            && !IsSpace(r.value.name[0]) && !IsSpace(r.value.name[|r.value.name| - 1])
            && r.value.imgSrc == Trim(f.imgSrc) && r.value.imgSrc != ""
            && r.value.price > 0
            && (r.value.category.None? <==> IsBlank(f.category))
            && (r.value.description.None? <==> IsBlank(f.description))
            && r.value.status == ActiveStatus)
  {
  }

  /** The edit form; `price` is what `Number(form.price)` gives. */
  datatype EditForm = EditForm(
    name: String,
    imgSrc: String,
    price: Option<int>,
    category: String,
    description: String,
    status: String,
    version: int)

  /** The edit form as first shown for an item (and again whenever the item
      changes). */
  function EditDefaults(item: Item): (r: EditForm)
    ensures r.status == (if Truthy(item.status) then item.status.value else ActiveStatus)
    ensures r.version == (if item.version.Some? then item.version.value else 0)
    ensures r.price.Some?
  {
    EditForm(StrOr(item.name, ""), StrOr(item.imgSrc, ""), Some(NumOr(item.price, 0)),
             StrOr(item.category, ""), StrOr(item.description, ""),
             StrOr(item.status, ActiveStatus), item.version.GetOr(0))
  }

  /** The edit form's `valid`. */
  predicate EditValid(f: EditForm) {
    Trim(f.name) != "" && Trim(f.imgSrc) != "" && f.price.Some? && f.price.value > 0
  }

  datatype PatchBody = PatchBody(
    name: String,
    imgSrc: String,
    price: int,
    category: Option<String>,
    description: Option<String>,
    status: String,
    version: int)

  /** `submit` of the edit form up to the request. */
  function SubmitEdit(f: EditForm): Option<PatchBody> {
    if !EditValid(f) then None
    else Some(PatchBody(Trim(f.name), Trim(f.imgSrc), f.price.value,
                        OptionalText(f.category), OptionalText(f.description), f.status, f.version))
  }

  /** A text field holds a value that trimming leaves alone. */
  predicate Clean(o: Option<String>) {
    Truthy(o) && Trim(o.value) == o.value
  }

  /** Opening the editor on an item with a name, an image and a positive
      price and saving it unchanged sends back the item's own values, the
      status defaulting to "active" and the version to 0. */
  lemma EditUnchangedWritesBack(item: Item)
    requires Clean(item.name) && Clean(item.imgSrc)
    requires item.price.Some? && item.price.value > 0
    ensures var r := SubmitEdit(EditDefaults(item));
      && r.Some?
      && r.value.name == item.name.value && r.value.imgSrc == item.imgSrc.value
      && r.value.price == item.price.value
      && (Clean(item.category) ==> r.value.category == item.category)
      && (!Truthy(item.category) ==> r.value.category.None?)
      && (Clean(item.description) ==> r.value.description == item.description)
      && r.value.status == StrOr(item.status, ActiveStatus)
      && r.value.version == item.version.GetOr(0)
  {
    var f := EditDefaults(item);
    assert !IsBlank(f.name) && !IsBlank(f.imgSrc);
    if !Truthy(item.category) {
      assert IsBlank(f.category);
    }
  }

  /** The values of the sort select. */
  const SortOptions: set<String> := {"priceAsc", "priceDesc", "updatedAsc", "updatedDesc"}

  /** `buildSortParam()`. */
  function SortParam(sort: String): String {
    if sort == "priceAsc" then "price:asc"
    else if sort == "priceDesc" then "price:desc"
    else if sort == "updatedAsc" then "updatedAt:asc"
    else "updatedAt:desc"
  }

  /** Each option of the sort select asks the server for its own order
      (price ascending or descending, oldest or newest update first), the
      four orders differ, and any other value falls back to the newest
      first. */
  lemma SortParamSpec(sort: String)
    ensures SortParam(sort) in {"price:asc", "price:desc", "updatedAt:asc", "updatedAt:desc"}
    ensures sort == "priceAsc" ==> SortParam(sort) == "price:asc"
    ensures sort == "priceDesc" ==> SortParam(sort) == "price:desc"
    ensures sort == "updatedAsc" ==> SortParam(sort) == "updatedAt:asc"
    ensures SortParam(sort) == "updatedAt:desc" <==>
      sort != "priceAsc" && sort != "priceDesc" && sort != "updatedAsc"
    ensures forall a, b ::
      (a in SortOptions && b in SortOptions && a != b) ==> SortParam(a) != SortParam(b)
  {
  }

  /** The list page's own state. */
  datatype ListState = ListState(
    page: int,
    category: String,
    sort: String,
    query: String,
    total: int,
    rows: seq<Item>,
    knownCategories: seq<String>,
    error: String)

  function InitialList(): ListState {
    ListState(1, AllCategories, "updatedDesc", "", 0, [], [], "")
  }

  /** The parameters every load sends: page, limit and sort. */
  function BaseQuery(s: ListState): Params {
    [("page", IntToString(s.page)), ("limit", IntToString(PageLimit)), ("sort", SortParam(s.sort))]
  }

  /** The base parameters with the trimmed search under both `q` and
      `search` when it is not blank. */
  function SearchQuery(s: ListState): Params {
    var q := Trim(s.query);
    SetIf(SetIf(BaseQuery(s), q != "", "q", q), q != "", "search", q)
  }

  /** The query string of `load()`. */
  function ListQuery(s: ListState): Params {
    SetIf(SearchQuery(s), s.category != AllCategories, "category", s.category)
  }

  lemma BaseQuerySpec(s: ListState)
    ensures var ps := BaseQuery(s);
      && NamesDistinct(ps)
      && Get(ps, "page") == Some(IntToString(s.page))
      && Get(ps, "limit") == Some("15")
      && Get(ps, "sort") == Some(SortParam(s.sort))
      && Get(ps, "q") == None && Get(ps, "search") == None && Get(ps, "category") == None
  {
    assert IntToString(PageLimit) == "15" by {
      assert NatToString(15) == NatToString(1) + [DigitChar(5)];
    }
    var ps := BaseQuery(s);
    assert ps == [ps[0], ps[1], ps[2]];
    assert "page"[0] != "limit"[0] && "limit"[0] != "sort"[0] && "sort"[0] != "page"[0];
    assert |"q"| == 1 && |"search"| == 6 && |"category"| == 8;
    GetOfThree(ps[0], ps[1], ps[2], "page");
    GetOfThree(ps[0], ps[1], ps[2], "limit");
    GetOfThree(ps[0], ps[1], ps[2], "sort");
    GetOfThree(ps[0], ps[1], ps[2], "q");
    GetOfThree(ps[0], ps[1], ps[2], "search");
    GetOfThree(ps[0], ps[1], ps[2], "category");
  }

  lemma SearchQuerySpec(s: ListState)
    ensures var ps := SearchQuery(s);
      && NamesDistinct(ps)
      && Get(ps, "page") == Some(IntToString(s.page))
      && Get(ps, "limit") == Some("15")
      && Get(ps, "sort") == Some(SortParam(s.sort))
      && Get(ps, "q") == (if IsBlank(s.query) then None else Some(Trim(s.query)))
      && Get(ps, "search") == (if IsBlank(s.query) then None else Some(Trim(s.query)))
      && Get(ps, "category") == None
  {
    BaseQuerySpec(s);
    var base := BaseQuery(s);
    var q := Trim(s.query);
    SetIfSpec(base, q != "", "q", q);
    SetIfSpec(SetIf(base, q != "", "q", q), q != "", "search", q);
  }

  /** Adding the category touches no other parameter. */
  lemma CategoryKeepsOthers(base: Params, on: bool, c: String)
    requires NamesDistinct(base)
    ensures var ps := SetIf(base, on, "category", c);
      && NamesDistinct(ps)
      && Get(ps, "page") == Get(base, "page")
      && Get(ps, "limit") == Get(base, "limit")
      && Get(ps, "sort") == Get(base, "sort")
      && Get(ps, "q") == Get(base, "q")
      && Get(ps, "search") == Get(base, "search")
      && Get(ps, "category") == (if on then Some(c) else Get(base, "category"))
  {
    SetIfSpec(base, on, "category", c);
  }

  /** The query names each parameter once: page, the fixed limit and the
      sort always; `q` and `search` both the trimmed search only when it is
      not blank; the category only when one is chosen. */
  lemma ListQuerySpec(s: ListState)
    ensures var ps := ListQuery(s);
      && NamesDistinct(ps)
      && Get(ps, "page") == Some(IntToString(s.page))
      && Get(ps, "limit") == Some("15")
      && Get(ps, "sort") == Some(SortParam(s.sort))
      && Get(ps, "q") == (if IsBlank(s.query) then None else Some(Trim(s.query)))
      && Get(ps, "search") == (if IsBlank(s.query) then None else Some(Trim(s.query)))
      && Get(ps, "category") == (if s.category == AllCategories then None else Some(s.category))
  {
    SearchQuerySpec(s);
    CategoryKeepsOthers(SearchQuery(s), s.category != AllCategories, s.category);
  }

  /** `pages`. */
  function PageCount(s: ListState): int {
    TotalPages(s.total, PageLimit)
  }

  function ItemCategory(x: Item): Option<String> {
    x.category
  }

  /** The distinct non-empty categories of the loaded items, first
      occurrence first. */
  function LoadedCategories(items: seq<Item>): (r: seq<String>)
    ensures Distinct(r)
    ensures forall c :: c in r <==>
      c != "" && exists i :: 0 <= i < |items| && items[i].category == Some(c)
    ensures forall i :: 0 <= i < |r| ==> Some(r[i]) in Map(items, ItemCategory)
    ensures forall i, j :: 0 <= i < j < |r| ==>
      FirstIndex(Map(items, ItemCategory), Some(r[i])) < FirstIndex(Map(items, ItemCategory), Some(r[j]))
  {
    var raw := Map(items, ItemCategory);
    forall c ensures Some(c) in raw <==> exists i :: 0 <= i < |items| && items[i].category == Some(c) {
      if exists i :: 0 <= i < |items| && items[i].category == Some(c) {
        var i :| 0 <= i < |items| && items[i].category == Some(c);
        assert raw[i] == Some(c);
      }
    }
    DedupeMembers(Truthies(raw));
    DedupeTruthiesOrder(raw);
    Dedupe(Truthies(raw))
  }

  /** `Array.from(new Set([...prev, ...cats]))` with `cats` the loaded
      categories. */
  function MergeCategories(prev: seq<String>, items: seq<Item>): seq<String> {
    Dedupe(prev + LoadedCategories(items))
  }

  /** The remembered categories only grow: the earlier list stays in front
      in its order, no category appears twice, and the list is exactly the
      earlier categories together with the loaded ones. */
  lemma MergeCategoriesSpec(prev: seq<String>, items: seq<Item>)
    requires Distinct(prev)
    ensures var r := MergeCategories(prev, items);
      && Distinct(r)
      && |prev| <= |r| && r[..|prev|] == prev
      && (forall c :: c in r <==> c in prev || c in LoadedCategories(items))
  {
    var cats := LoadedCategories(items);
    DedupeExtends(prev, cats);
    DedupeOfDistinct(prev);
    DedupeMembers(prev + cats);
  }

  /** What the user and the server can do to the list. */
  datatype Event =
    | SetQuery(query: String)
    | SetCategory(category: String)
    | SetSort(sort: String)
    | Loaded(items: Option<seq<Item>>, total: Option<int>)
    | LoadRejected(payloadError: Option<String>)
    | Created
    | PrevPage
    | NextPage

  function Step(s: ListState, e: Event): ListState {
    match e
    case SetQuery(q) => s.(page := 1, query := q)
    case SetCategory(c) => s.(page := 1, category := c)
    case SetSort(o) => s.(page := 1, sort := o)
    case Loaded(items, total) =>
      var rows := items.GetOr([]);
      s.(rows := rows, total := NumOr(total, 0), knownCategories := MergeCategories(s.knownCategories, rows),
         error := "")
    case LoadRejected(payloadError) => s.(error := StrOr(payloadError, LoadFailed))
    case Created => s.(page := 1)
    case PrevPage => s.(page := Prev(s.page))
    case NextPage => s.(page := Next(s.page, PageCount(s)))
  }

  /** Searching, filtering, sorting and creating return to page 1; prev and
      next keep an in-range page in range; the remembered categories stay
      duplicate-free and only grow; a load that succeeds clears the error,
      and one that fails shows a non-empty error (the server's, or the
      generic text) and keeps the rows, the total and the categories. */
  lemma StepSpec(s: ListState, e: Event)
    requires Distinct(s.knownCategories)
    ensures var r := Step(s, e);
      && Distinct(r.knownCategories)
      && |s.knownCategories| <= |r.knownCategories|
      && r.knownCategories[..|s.knownCategories|] == s.knownCategories
      && ((e.SetQuery? || e.SetCategory? || e.SetSort? || e.Created?) ==> r.page == 1)
      && ((e.PrevPage? || e.NextPage?) && 1 <= s.page <= PageCount(s) ==> 1 <= r.page <= PageCount(r))
      && (e.Loaded? ==> r.error == "" && r.rows == e.items.GetOr([]))
      && (e.LoadRejected? ==>
            && r.error != ""
            && (Truthy(e.payloadError) ==> r.error == e.payloadError.value)
            && (!Truthy(e.payloadError) ==> r.error == LoadFailed)
            && r.rows == s.rows && r.total == s.total && r.knownCategories == s.knownCategories)
  {
    if e.Loaded? {
      MergeCategoriesSpec(s.knownCategories, e.items.GetOr([]));
    }
  }
}
