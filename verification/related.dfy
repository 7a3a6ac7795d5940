/** Related-product lists: the horizontal product row filtered by
    category, and the "other products" column of the product detail page
    (both versions of that page derive it the same way), with the payloads
    they hand to the cart store.

    The fetched list is a parameter: `None` for a body that is missing or,
    on the detail page, not an array.
 */
module Related {
  import opened Wrappers
  import opened Text
  import opened JsValues
  import opened Seqs
  import opened Catalog
  import CartStore
  import opened Paging

  const DefaultRowLimit: int := 12
  const OtherLimit: int := 5
  const FallbackImage: String := "/fallback.png"

  /** `item.category?.toLowerCase() === category.toLowerCase()`: a product
      without a category never matches. */
  predicate SameCategory(p: Product, category: String) {
    p.category.Some? && ToLower(p.category.value) == ToLower(category)
  }

  /** The products the row keeps before the limit. */
  function RowCandidates(items: seq<Product>, category: Option<String>): seq<Product> {
    if Truthy(category) then Filter(items, (p: Product) => SameCategory(p, category.value)) else items
  }

  /** `ProductCart`'s list: `(data || [])`, filtered by the category when
      one is given, then `slice(0, limit)` with `limit` defaulting to 12. */
  function CategoryRow(data: Option<seq<Product>>, category: Option<String>, limit: Option<int>): seq<Product> {
    JsSlice(RowCandidates(data.GetOr([]), category), 0, limit.GetOr(DefaultRowLimit))
  }

  /** The row is an order-keeping prefix of the candidates, as long as the
      limit allows (12 when none is given); with a category, the candidates
      are exactly the products whose category equals it ignoring case, in
      their original order; without one, they are all the products. */
  lemma CategoryRowSpec(data: Option<seq<Product>>, category: Option<String>, limit: Option<int>)
    ensures var items := data.GetOr([]);
      var cands := RowCandidates(items, category);
      var r := CategoryRow(data, category, limit);
      var n := limit.GetOr(DefaultRowLimit);
      && |r| <= |cands| && r == cands[..|r|]
      && (n >= 0 ==> |r| == Min(n, |cands|))
      && (limit.None? ==> |r| == Min(12, |cands|))
      && IsSubsequence(cands, items)
      && (Truthy(category) ==>
            forall p :: p in cands <==> p in items && SameCategory(p, category.value))
      && (!Truthy(category) ==> cands == items)
  {
    var items := data.GetOr([]);
    if Truthy(category) {
      var keep := (p: Product) => SameCategory(p, category.value);
      FilterIsSubsequence(items, keep);
      forall p ensures p in RowCandidates(items, category) <==> p in items && SameCategory(p, category.value) {
        FilterMember(items, keep, p);
      }
    } else {
      IsSubsequenceRefl(items);
    }
  }

  /** Matching ignores case on both sides. */
  lemma SameCategoryIgnoresCase(p: Product, category: String)
    ensures SameCategory(p, category) <==> SameCategory(p, ToLower(category))
  {
    ToLowerIdempotent(category);
  }

  /** The line `handleAddToCart` hands to `addToCart`. */
  function RowPayload(p: Product): (r: CartStore.Line)
    ensures r.id == p.id && r.name == p.name && r.price == p.price && r.imgSrc == p.imgSrc
    ensures r.qty == Some(1)
  {
    CartStore.Line(p.id, p.name, p.price, p.imgSrc, Some(1))
  }

  /** The line `handleAdd` hands to `addToCart`: no quantity. */
  function DetailPayload(p: Product): (r: CartStore.Line)
    ensures r.id == p.id && r.name == p.name && r.price == p.price && r.imgSrc == p.imgSrc
    ensures r.qty.None?
  {
    CartStore.Line(p.id, p.name, p.price, p.imgSrc, None)
  }

  /** `handleAddToCart` on the storefront cart store: `addToCart` then
      `openDrawer` at the current path. */
  function RowAdd(c: CartStore.Cart, p: Product, path: String): CartStore.Cart {
    CartStore.OpenDrawer(CartStore.AddToCart(c, RowPayload(p)), path)
  }

  /** Adding from the row puts exactly one more item in the cart, opens the
      drawer unless the visitor is on the login page, and gives the
      product's line quantity 1 when it was not in the cart; adding from the
      detail page leaves the same cart lines, since the store ignores the
      quantity it is handed. */
  lemma AddSpec(c: CartStore.Cart, p: Product, path: String)
    requires CartStore.UniqueIds(c.lines)
    ensures var r := RowAdd(c, p, path);
      && CartStore.ItemCount(r.lines) == CartStore.ItemCount(c.lines) + 1
      && (path != CartStore.LoginPath ==> r.isOpen)
      && (path == CartStore.LoginPath ==> r.isOpen == c.isOpen)
      && (!CartStore.HasId(c.lines, p.id) ==> r.lines[|c.lines|].qty == Some(1))
      && r.lines == CartStore.AddToCart(c, DetailPayload(p)).lines
  {
    CartStore.AddToCartTotals(c, RowPayload(p));
  }

  function NotCurrent(x: Product, id: String): bool { x.id != id }

  /** `other`: every fetched product but the one on the page, in order. */
  function Other(items: Option<seq<Product>>, id: String): seq<Product> {
    Filter(items.GetOr([]), (x: Product) => NotCurrent(x, id))
  }

  /** `other.slice(0, 5)`. */
  function OtherShown(items: Option<seq<Product>>, id: String): seq<Product> {
    JsSlice(Other(items, id), 0, OtherLimit)
  }

  /** The column never shows the current product and shows at most five
      others: the first five of the fetched list, in order, without the
      current one; a body that is not a list shows nothing. */
  lemma OtherSpec(items: Option<seq<Product>>, id: String)
    ensures var o := Other(items, id);
      && (forall x :: x in o <==> x in items.GetOr([]) && x.id != id)
      && IsSubsequence(o, items.GetOr([]))
      && OtherShown(items, id) == o[..Min(5, |o|)]
      && (items.None? ==> OtherShown(items, id) == [])
  {
    var xs := items.GetOr([]);
    var keep := (x: Product) => NotCurrent(x, id);
    FilterIsSubsequence(xs, keep);
    forall x ensures x in Other(items, id) <==> x in xs && x.id != id {
      FilterMember(xs, keep, x);
    }
  }

  /** `safeSrc`. */
  function SafeSrc(src: Option<String>): (r: String)
    ensures r != ""
    ensures Truthy(src) ==> r == src.value
    ensures !Truthy(src) ==> r == FallbackImage
  {
    StrOr(src, FallbackImage)
  }

  /** The detail page's three states. */
  datatype DetailScreen = Loading | NotFound | Shows(product: Product)

  function Detail(loading: bool, product: Option<Product>): (r: DetailScreen)
    ensures r.Shows? <==> !loading && product.Some?
  {
    if loading then Loading else if product.None? then NotFound else Shows(product.value)
  }
}
