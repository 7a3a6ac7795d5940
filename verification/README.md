# Tapako storefront — a Dafny model of its client-side logic

Tapako is a small React storefront: a product catalogue with filters and
paging, a persisted shopping cart with a slide-in drawer, a checkout page that
hands off to a payment provider, and an admin area listing products and
orders. This project models the decision logic behind those screens as pure
Dafny functions over immutable datatypes, and proves what the code promises.

- **Cart store** (`CartStore`): lines and drawer flag. Each store action is
  a cart-to-cart function: open, close, add, update quantity, remove by
  index or id, and clear.
- **User store** (`UserStore`): the signed-in user's five fields.
- **Store pages** (`Catalog`, `StorePage`, `LegacyStorePage`, `Paging`,
  `StableSort`):
  - the filter chain (category, search, sale, gender, age group, stock);
  - the stable price sort;
  - pages of 30 and the collapsed page bar;
  - the effects that reset and clamp the page.

  The older page variant is modelled too, with a lemma stating where it
  agrees with the current page and where it differs. The difference is
  unreachable in the code as it stands. The older page never calls
  `setSelectedCategory` (tapako-frontend/src/pages/StorePage.jsx:18 is its
  only mention), so its category stays "All" and its `SelectCategory` event
  cannot happen. Neither page can select the category `""` either, because
  the category list drops empty values. The lemmas state what the chains
  would do if the category were set.
- **Checkout** (`Checkout`):
  - the validation chain and the payload sent;
  - the choice of payment link;
  - the handling of the server's reply.
- **Admin products and orders** (`AdminProducts`, `AdminOrders`):
  - form validity and request bodies;
  - the sort parameter and query strings (`QueryParams` models
    `URLSearchParams`, `FormEncoding` its form encoding);
  - the remembered categories;
  - the primary and legacy order routes with the 404 fallback;
  - order summaries and paging.
- **HTTP helper** (`Api`):
  - base-URL normalisation and `joinURL`;
  - request assembly and reply shaping.
- **Shell, header and drawer** (`AppShell`, `CartDrawer`):
  - route guards and the route table;
  - when the chrome is drawn;
  - the header badge and the drawer's checkout guard and quantity input.
- **Related products** (`Related`):
  - the category row on the home page;
  - the "other products" column of both product-detail pages.

JavaScript semantics are written out where they matter:

- `||` against `??` on optional values (`JsValues`, `Wrappers.Option.GetOr`).
- `slice` and `splice` with negative indices (`Seqs`).
- `trim` over the JavaScript white-space set and `parseInt` (`Text`).
- `Math.ceil` (`Paging.CeilDiv`).
- `Array.from(new Set(...))` (`Seqs.Dedupe`).
- The stability of `Array.prototype.sort` (`StableSort`).

A missing, `null` or `NaN` value is `None`.

Behaviours of the code worth knowing:

- `addToCart` always adds exactly one item, whatever quantity it is handed.
- `updateQty` with a positive quantity writes `arr[index].qty`, so an
  out-of-range index throws rather than being ignored. The model makes a
  valid index a precondition of that case.
- A quantity input that is not a number writes `NaN` into the line. The line
  then stays in the cart with no usable quantity.
- The search term is lower-cased but not trimmed, although the emptiness test
  trims it.
- When a filter change shrinks the list below the current page, the reset
  effect and the clamp effect both queue a page update in the same commit.
  The clamp is queued last, so the page lands on the new last page, not on
  page 1 (`Paging.SettlePage`).

## Model

| member | source | states |
|---|---|---|
| CartStore.OpenDrawer | tapako-frontend/src/components/store/UseCartStore.js:19 | on `/login` the state is returned unchanged; on any other path the drawer opens and the lines stay |
| CartStore.CloseDrawer | tapako-frontend/src/components/store/UseCartStore.js:20 | the drawer is closed and the lines stay |
| CartStore.IncrementMatching | tapako-frontend/src/components/store/UseCartStore.js:25 | the mapped list has the same length; a line with the id gets quantity `(qty \|\| 0) + 1`, every other line is unchanged |
| CartStore.AddToCart | tapako-frontend/src/components/store/UseCartStore.js:22-28 | the drawer flag is untouched; a known id keeps the line count; an unknown id appends the product at the end with quantity 1, whatever quantity it carried |
| CartStore.AddExisting | tapako-frontend/src/components/store/UseCartStore.js:22-27 | adding a product already in a duplicate-free cart raises that line's quantity by exactly one (missing counts as 0) and leaves every other line and field as it was |
| CartStore.AddPreservesUniqueIds | tapako-frontend/src/components/store/UseCartStore.js:23-26 | adding keeps at most one line per product id |
| CartStore.AddTwiceGivesOneLine | tapako-frontend/src/components/store/UseCartStore.js:22-28 | adding the same product twice to an empty cart gives one line of quantity 2 |
| CartStore.AddToCartTotals | tapako-frontend/src/components/store/UseCartStore.js:22-28 | on a duplicate-free cart an add raises the item count by one and the total by one unit price: the existing line's price, or the new product's |
| CartStore.UpdateQtyEffect | tapako-frontend/src/components/store/UseCartStore.js:30-34 | `qty <= 0` removes exactly line `index`, keeping the others in order, so the count drops by one; any other quantity (including `NaN`) replaces only that line's quantity |
| CartStore.UpdateQtyPreservesUniqueIds | tapako-frontend/src/components/store/UseCartStore.js:30-34 | removing a line or changing a quantity never creates a duplicate id |
| CartStore.RemoveItem | tapako-frontend/src/components/store/UseCartStore.js:36 | an in-range index removes exactly that line; an index past the end changes nothing; the drawer flag is untouched |
| CartStore.RemoveFromCart | tapako-frontend/src/components/store/UseCartStore.js:37 | no line with the id remains; every other line stays, every copy of it, and in order |
| CartStore.ClearCart | tapako-frontend/src/components/store/UseCartStore.js:38 | the lines are emptied and the drawer flag is untouched |
| CartStore.ApplyPreservesValid | tapako-frontend/src/components/store/UseCartStore.js:19-38 | every store action keeps one line per id and every quantity a positive number, provided a quantity update is given a number |
| UserStore.SetUser | tapako-frontend/src/components/store/UseUserStore.js:12 | all five fields take the given values, so nothing of the previous user survives |
| UserStore.ClearUser | tapako-frontend/src/components/store/UseUserStore.js:13 | every field is missing afterwards |
| UserStore.SessionRoundTrip | tapako-frontend/src/components/store/UseUserStore.js:7-13 | signing out after signing in gives the initial state; signing out is idempotent; a second sign-in forgets the first; signed out means exactly the initial state |
| Api.StripTrailingSlashes | src/lib/api.js:2 | the result is a prefix of the input without a trailing slash, and everything removed was a slash |
| Api.StripWithoutSlash | src/lib/api.js:2 | a string without a trailing slash is unchanged by the stripping |
| Api.ApiBaseSpec | src/lib/api.js:1-3 | `API_BASE` ends with `/api`, which is appended exactly when `BASE` does not already end with it; normalising `API_BASE` again changes nothing |
| Api.JoinURLSpec | src/lib/api.js:5-9 | an empty path gives the base; a path starting with `/` is appended as is; any other path is appended after one `/` |
| Api.RequestSpec | src/lib/api.js:25-31 | the URL joins `API_BASE` and the path; the headers are the caller's with the JSON content type added only when the caller sets none; a body is sent exactly when one is given |
| Api.HandleResponseSpec | src/lib/api.js:11-23 | a successful reply gives `{}` for an empty body, the parsed JSON, or `{ raw: text }`; any other status is an error carrying status and payload, whose message is the body's `error` when that is truthy and otherwise names the status |
| AppShell.PrivateRoute | src/App.jsx:21-24 | the children are shown exactly when the token is truthy; otherwise the guard navigates to `/login` |
| AppShell.AdminRoute | src/App.jsx:26-30 | the children are shown exactly for a truthy token with role `admin`; otherwise the guard navigates to `/login` |
| AppShell.GuardsOrdered | src/App.jsx:21-30 | the admin guard is the stricter one; after sign-out both guards send to `/login`; after an admin signs in both let through |
| AppShell.ShellChrome | src/App.jsx:39-52 | `App` draws the header, the cart drawer, the footer and the top padding together, exactly when the path it rendered on (`window.location` at render time) lies outside `/admin` |
| AppShell.PageFrameSpec | src/App.jsx:39-52 | the drawer, the footer and the padding follow the path `App` rendered on whatever the current path is; the header is hidden exactly when `App` left it out or an admin is on an admin path now |
| AppShell.AdminLinkKeepsDrawer | src/components/Header.jsx:11-12 | an admin who loads `/` and follows the dashboard link loses the header but keeps the cart drawer, the footer and the padding |
| AppShell.LandingSpec | src/App.jsx:53-79 | every path settles on a page within two redirects; the checkout is shown only to a signed-in visitor at `/checkout`; the dashboard is shown only to a signed-in admin; `/admin` leads to the dashboard for an admin and to login otherwise; an unknown path leads home |
| AppShell.Mount | src/App.jsx:42-44 | the mount effect closes the drawer and keeps the lines |
| AppShell.HeaderSpec | src/components/Header.jsx:11-44 | the header is hidden exactly for an admin on a path starting with `/admin`; the badge shows exactly when the summed quantities are positive; the admin link shows exactly for role `admin`; the greeting shows exactly for a truthy token |
| AppShell.CartCountIsItemCount | src/components/Header.jsx:14 | the header's count of cart-shaped lines equals the cart's item count (missing quantities count 0) |
| AppShell.CountAtLeastLines | src/components/Header.jsx:14 | with positive quantities the count is at least the number of lines, so a non-empty cart shows the badge |
| AppShell.Logout | src/components/Header.jsx:15 | logging out clears the user and navigates to `/` |
| AppShell.LogoutSpec | src/components/Header.jsx:15 | after logging out the header shows the login link and no admin link, and the checkout guard sends to `/login` |
| CartDrawer.Render | tapako-frontend/src/components/CartDrawer.jsx:13-48 | nothing is drawn while the drawer is closed; when open, one row per line in order and the cart total |
| CartDrawer.TotalOfRows | tapako-frontend/src/components/CartDrawer.jsx:13 | the drawer's total is the sum of price times quantity over the rows, a missing value counting 0 |
| CartDrawer.GoCheckout | tapako-frontend/src/components/CartDrawer.jsx:25-30 | without a token: a toast, navigation to `/login`, drawer left open; with one: drawer closed and navigation to `/checkout`; the lines never change |
| CartDrawer.ChangeQtySpec | tapako-frontend/src/components/CartDrawer.jsx:47 | clearing the field or typing 0 or a negative number removes that line; typing a positive `n` sets that line's quantity to `n` and changes nothing else |
| CartDrawer.ChangeQtyNotANumber | tapako-frontend/src/components/CartDrawer.jsx:47 | text that `parseInt` rejects keeps the line with no usable quantity |
| CartDrawer.PressOutside | tapako-frontend/src/components/CartDrawer.jsx:15-21 | a press outside leaves the drawer closed and the lines unchanged |
| Related.CategoryRowSpec | src/components/ProductCart.jsx:15-25 | the row is an order-keeping prefix of the candidates, of length `min(limit, n)` (limit 12 by default); with a category the candidates are exactly the products whose category matches it ignoring case; without one they are all the products |
| Related.SameCategoryIgnoresCase | src/components/ProductCart.jsx:22 | matching a category gives the same answer for the category lower-cased |
| Related.RowPayload | src/components/ProductCart.jsx:31-37 | the line handed to the cart carries the product's id, name, price and image, and quantity 1 |
| Related.AddSpec | src/components/ProductCart.jsx:30-39 | adding from the row adds exactly one item, opens the drawer except on `/login`, and puts a new product in with quantity 1; the resulting lines equal those from the detail page's add |
| Related.DetailPayload | src/pages/ProductDetail.jsx:35-36 | the detail page hands over id, name, price and image and no quantity |
| Related.OtherSpec | src/pages/ProductDetail.jsx:23-65 | the "other products" are exactly the fetched products with a different id, in order; at most the first five are shown; a body that is not an array shows none (the same holds for tapako-frontend/src/pages/ProductDetail.jsx:24-55) |
| Related.SafeSrc | src/pages/ProductDetail.jsx:7 | a truthy source is kept; anything else becomes `/fallback.png` |
| Related.Detail | src/pages/ProductDetail.jsx:32-33 | the product is shown exactly when loading has finished and a product came back |
| JsValues.Truthies | src/pages/StorePage.jsx:57 | `filter(Boolean)` keeps exactly the present, non-empty strings |
| JsValues.TruthiesIsSubsequence | src/pages/StorePage.jsx:57 | the kept values are a subsequence of the input: `filter(Boolean)` keeps their order |
| JsValues.TruthiesOrder | src/pages/StorePage.jsx:57 | two kept values first occur in the same order after `filter(Boolean)` as in the input |
| JsValues.DedupeTruthiesOrder | src/pages/Admin/Products.jsx:196 | `Array.from(new Set(xs.filter(Boolean)))` lists present, non-empty values of `xs` in the order of their first occurrence in `xs` |
| JsValues.NumOrZeroIsCoalesce | src/pages/StorePage.jsx:76 | on numbers `x \|\| 0` and `x ?? 0` agree |
| Catalog.ApplyFiltersAfter | src/pages/StorePage.jsx:76-80 | the sale, gender and age-group filters applied one after another equal one filter by their conjunction |
| Catalog.SortByMode | src/pages/StorePage.jsx:82-83 | the price order is a permutation of its input |
| Catalog.SortByModeSpec | src/pages/StorePage.jsx:82-83 | low-high sorts ascending by `price ?? 0`, high-low descending; products of equal price keep their order; any other value keeps the list as it is |
| Catalog.HighToLowDescends | src/pages/StorePage.jsx:83 | after the high-low order no product is cheaper than one after it |
| Catalog.CategoryValues | src/pages/StorePage.jsx:57 | the values are exactly the non-empty categories of the products, in the products' order |
| Catalog.CategoriesSpec | src/pages/StorePage.jsx:56-59 | the buttons start with "All", then list each non-empty category of the products exactly once, in the order in which the products first carry them |
| Catalog.ShownRangeMatchesPage | src/pages/StorePage.jsx:320-322 | on an in-range page the "Menampilkan a–b dari n" label names exactly the positions of the products the page shows |
| StorePage.UnsortedIsFilter | src/pages/StorePage.jsx:61-81 | the filter chain keeps exactly the matching products, in catalogue order: category unless "All", the lower-cased untrimmed term in name or description when the trimmed term is not empty, sale below 3000000, gender, age group, stock (missing counts 1) |
| StorePage.ListedSpec | src/pages/StorePage.jsx:61-86 | the listed products are exactly the matching ones; without a price order they are a subsequence in catalogue order; with one they are sorted by price, stable |
| StorePage.ClearAllListsEverything | src/pages/StorePage.jsx:134-142 | after "Reset filter" every product is listed in catalogue order |
| StorePage.FilterEventSettles | src/pages/StorePage.jsx:117-123 | after a category, search, stock or filter-store event the page is in range; page 1 when the old page still exists; the last page when the old page lies beyond it; unchanged when nothing changed |
| StorePage.PageMoveStaysInRange | src/pages/StorePage.jsx:125-132 | prev, next and a page number change no filter and keep an in-range page in range: prev and next move by one within `1..totalPages`, a page number past the last settles on the last page |
| StorePage.PageBarSpec | src/pages/StorePage.jsx:95-109 | the page bar as written runs from 1 to the last page in increasing order, shows the current page, has at most seven numbers, and marks every hidden page exactly when there are at most seven pages or the page is neither 4 nor `totalPages - 3` |
| LegacyStorePage.PageBarSpec | tapako-frontend/src/pages/StorePage.jsx:73-87 | the older page draws the same bar, with the same shape and the same unmarked gaps on page 4 and on page `totalPages - 3` |
| LegacyStorePage.UnsortedIsFilter | tapako-frontend/src/pages/StorePage.jsx:47-55 | the older chain keeps exactly the products whose category strictly equals the selection (unless "All") and that pass the sale, gender and age-group filters, in order |
| LegacyStorePage.AgreesWithCurrent | tapako-frontend/src/pages/StorePage.jsx:47-61 | for any category but `""` the older page lists exactly what the current page lists with an empty search and the stock switch off |
| LegacyStorePage.EmptyCategoryDiffers | tapako-frontend/src/pages/StorePage.jsx:49 | a product without a category is in category `""` on the current page and in none on the older one |
| LegacyStorePage.StepStaysInRange | tapako-frontend/src/pages/StorePage.jsx:95-101 | after any event from a valid page the page is valid; a filter change lands on page 1, or on the last page when the old page lies beyond it; page moves change no filter |
| Paging.CeilDiv | src/pages/StorePage.jsx:88 | the result is the least `r` with `n <= d * r` |
| Paging.TotalPages | src/pages/StorePage.jsx:88 | at least one page; enough pages for every item; no empty page beyond the first |
| Paging.PageStart | src/pages/StorePage.jsx:91 | page `p >= 1` starts at index `(p - 1) * size >= 0` |
| Paging.PageSlice | src/pages/StorePage.jsx:90-93 | a page holds at most `size` items, the window `[(p - 1) * size, p * size)` cut to the list |
| Paging.PagesPrefix | src/pages/StorePage.jsx:90-93 | pages `1..k` laid end to end are the first `k * size` items |
| Paging.PagesCover | src/pages/StorePage.jsx:88-93 | pages `1..totalPages` laid end to end are exactly the list |
| Paging.Prev | src/pages/StorePage.jsx:127 | `max(1, p - 1)`: never below 1, one back when possible |
| Paging.Next | src/pages/StorePage.jsx:128 | `min(total, p + 1)`: never past the last page, one forward when possible |
| Paging.PrevNextStayInRange | src/pages/StorePage.jsx:127-128 | from an in-range page, prev and next stay in range |
| Paging.SettlePageInRange | src/pages/StorePage.jsx:117-123 | the reset and clamp effects leave the page in range: page 1 after a filter change unless the old page exceeds the new count, then the last page; a second render changes nothing |
| Paging.Range | src/pages/StorePage.jsx:98 | the numbers `lo..hi` in order |
| Paging.PageNumbersShort | src/pages/StorePage.jsx:97-98 | with at most seven pages the bar is exactly `1..totalPages` |
| Paging.CollapsedShape | src/pages/StorePage.jsx:99-106 | with more than seven pages the bar has at most seven entries, starts with 1, ends with the last page, increases, and shows the current page |
| Paging.PageNumbersShape | src/pages/StorePage.jsx:95-109 | the bar as written has the shape above |
| Paging.PageNumbersComplete | src/pages/StorePage.jsx:95-109 | for any in-range page the bar as written starts at 1, ends at the last page, increases, has at most seven numbers and shows the page |
| Paging.PageNumbersHidesUnmarkedPage | src/pages/StorePage.jsx:101-105 | on page 4 of 8 the bar as written reads `1 3 4 5 … 8`: page 2 is neither shown nor behind an ellipsis |
| Paging.PageNumbersGapsMarkedExactly | src/pages/StorePage.jsx:99-106 | the bar as written marks every hidden page exactly when there are at most seven pages or the page is neither 4 nor `totalPages - 3` |
| Paging.BarGapsMarked | src/pages/StorePage.jsx:99-106 | a bar whose ellipses stand exactly where its neighbours are not consecutive marks every hidden page |
| Paging.PageNumbersMarkedShape | src/pages/StorePage.jsx:99-106 | with the corrected conditions the bar keeps its shape and marks every hidden page |
| Paging.PageNumbersMarkedComplete | src/pages/StorePage.jsx:95-109 | for any in-range page the corrected bar starts at 1, ends at the last page, increases, shows the page, and marks every hidden page |
| StableSort.SortBy | src/pages/StorePage.jsx:82 | the sort returns a sorted permutation of its input |
| StableSort.SortByStable | src/pages/StorePage.jsx:82-83 | for every key, the items with that key keep their relative order |
| StableSort.SortBySorted | src/pages/StorePage.jsx:82-83 | an already sorted list is left unchanged |
| StableSort.SortedStableIsUnique | src/pages/StorePage.jsx:82-83 | two sorted lists with the same items per key in the same order are equal, so the stable sort's result is determined |
| Seqs.Filter | src/pages/StorePage.jsx:65 | `filter` keeps exactly the elements satisfying the test, never adds any |
| Seqs.FilterMultiset | tapako-frontend/src/components/store/UseCartStore.js:37 | a filter keeps every copy of each element that passes and none of one that fails |
| Seqs.FilterIsSubsequence | src/pages/StorePage.jsx:61-81 | a filtered list is an order-keeping subsequence of its input |
| Seqs.FilterMember | src/pages/StorePage.jsx:61-81 | an element survives a filter exactly when it was there and passes |
| Seqs.FilterCompose | src/pages/StorePage.jsx:61-81 | two filters in a row equal one filter by both tests |
| Seqs.FilterCommutes | src/pages/StorePage.jsx:61-81 | the order in which two filters are applied does not change the result |
| Seqs.FilterKeepAll | src/pages/StorePage.jsx:134-142 | a filter every element passes returns the list itself |
| Seqs.JsSlice | src/pages/StorePage.jsx:92 | the slice starts at the resolved start (a negative index counts from the end, bounds are clamped to the list), holds the elements from there in order, and is as long as the resolved end lies past the start, or empty |
| Seqs.JsSliceWindow | src/pages/StorePage.jsx:92 | for `0 <= start <= end` the slice is the window cut to the list, at most `end - start` long |
| Seqs.JsSliceFromEnd | src/pages/StorePage.jsx:92 | `slice(-k, length)` is the last `k` elements |
| Seqs.Splice1 | tapako-frontend/src/components/store/UseCartStore.js:32 | `splice(i, 1)` removes the element at `i`, counting a negative index from the end; an index past the end removes nothing; one before the start removes the first element |
| Seqs.Dedupe | src/pages/StorePage.jsx:57 | `Array.from(new Set(xs))` has no duplicates and holds every element of `xs` |
| Seqs.DedupeOrder | src/pages/StorePage.jsx:57 | `Array.from(new Set(xs))` lists the elements in the order of their first occurrence in `xs` |
| Seqs.FirstIndexAppend | src/pages/StorePage.jsx:57 | appending an element leaves the first occurrence of every earlier element where it was, and puts a new element's first occurrence at the end |
| Seqs.DedupeMembers | src/pages/StorePage.jsx:57 | deduplicating keeps exactly the same set of elements |
| Seqs.DedupeExtends | src/pages/Admin/Products.jsx:197 | deduplicating `a + b` starts with the deduplicated `a` |
| Seqs.DedupeOfDistinct | src/pages/Admin/Products.jsx:197 | a duplicate-free list is its own deduplication |
| Seqs.SumByAppend | tapako-frontend/src/components/CartDrawer.jsx:13 | a `reduce` sum over a concatenation is the sum of the two sums |
| Text.Trim | src/pages/CheckoutPage.jsx:33-34 | the trimmed text is the input without leading and trailing white space: empty exactly for blank input, and neither end is white space |
| Text.ToLower | src/components/ProductCart.jsx:22 | each character is lower-cased in place |
| Text.ToLowerIdempotent | src/components/ProductCart.jsx:22 | lower-casing twice is lower-casing once |
| Text.NatToString | src/pages/Admin/Products.jsx:182 | `String(n)` is a digit string without a leading zero whose value is `n` |
| Text.LeadingDigits | tapako-frontend/src/components/CartDrawer.jsx:47 | the longest run of digits at the start of the text |
| Text.Magnitude | tapako-frontend/src/components/CartDrawer.jsx:47 | a number is read exactly when the text starts with a digit |
| Text.ParseIntOfIntToString | tapako-frontend/src/components/CartDrawer.jsx:47 | `parseInt(String(n) + rest, 10)` gives back `n` whenever `rest` does not start with a digit |
| QueryParams.SetSpec | src/pages/Admin/Orders.jsx:50-54 | `set(k, v)`: reading `k` gives `v`, every other name reads as before, and the other pairs are untouched |
| QueryParams.GetWithout | src/pages/Admin/Orders.jsx:50-54 | removing the pairs named `k` leaves every other name's value |
| QueryParams.WithoutIdempotent | src/pages/Admin/Orders.jsx:50-54 | removing a name twice is removing it once |
| QueryParams.SetKeepsNamesDistinct | src/pages/Admin/Orders.jsx:50-54 | `set` never adds a second pair of one name |
| QueryParams.WithoutKeepsNamesDistinct | src/pages/Admin/Orders.jsx:50-54 | removing a name keeps the names distinct |
| QueryParams.SetNames | src/pages/Admin/Orders.jsx:50-54 | after `set` every name is the new one or an earlier one |
| QueryParams.SetIfSpec | src/pages/Admin/Orders.jsx:51-53 | a conditional `set` writes the name only when the condition holds and leaves the others |
| QueryParams.GetOfThree | src/pages/Admin/Products.jsx:181-185 | reading a three-pair list gives the first pair with the name |
| QueryParams.SerializeEmpty | src/pages/Admin/Orders.jsx:20 | the serialised form is empty exactly when there are no pairs |
| QueryParams.SerializeRoundTrip | src/pages/Admin/Orders.jsx:20 | reading the query string back, split at `&` and `=` and form-decoded, gives every pair in order with its name and value as UTF-8 bytes |
| QueryParams.PairSplits | src/pages/Admin/Orders.jsx:20 | a written pair holds no `&`, and its first `=` separates the encoded name from the encoded value |
| FormEncoding.FormRoundTrip | src/pages/Admin/Orders.jsx:20 | form-decoding an encoded name or value gives back its UTF-8 bytes |
| FormEncoding.FormEncodeWritten | src/pages/Admin/Orders.jsx:20 | an encoded name or value holds no `&`, `=` or space |
| FormEncoding.UnreservedUnchanged | src/pages/Admin/Orders.jsx:20 | text of ASCII letters, digits and `*-._`, such as a date or a number, is written unchanged |
| FormEncoding.SpaceAndAmpersand | src/pages/Admin/Orders.jsx:20 | a space is written `+` and `&` is written `%26` |
| FormEncoding.Utf8RoundTrip | src/pages/Admin/Orders.jsx:20 | the UTF-8 bytes of a character read back as the character |
| QueryParams.QuerySuffix | src/pages/Admin/Orders.jsx:20 | no pairs give an empty suffix, otherwise `?` and the form-encoded pairs |
| Checkout.CheckoutUrl | src/pages/CheckoutPage.jsx:5 | the checkout endpoint hangs off the configured base, or `http://localhost:5000` when none is set |
| Checkout.Prefill | src/pages/CheckoutPage.jsx:22-25 | typed name and e-mail are never overwritten; phone and address are untouched |
| Checkout.PrefillSpec | src/pages/CheckoutPage.jsx:16-25 | an empty field takes the store's value when there is one; a second run changes nothing; the initial form equals prefilling an empty one |
| Checkout.Validate | src/pages/CheckoutPage.jsx:32-40 | no message exactly when name and address are not blank, the cart is not empty, a token is present and no line lacks a name, price or quantity; otherwise the first failing check in that order names the message: name, address, empty cart, login, bad item |
| Checkout.NormalizeCart | src/pages/CheckoutPage.jsx:42-47 | one item per line in order, with the name, the price or 0, the line's quantity when that is at least 1, and exactly 1 otherwise |
| Checkout.HandlePayment | src/pages/CheckoutPage.jsx:65-81 | a failing check alerts its message, even during a submission; a running submission ignores the press; a valid press with no submission running sends, and the payload carries the trimmed fields (phone as `whatsapp`), the normalised items and the cart total |
| Checkout.PayloadAddsUp | src/pages/CheckoutPage.jsx:27-47 | for a form that passes validation, with well-formed lines, the items are the lines unchanged, and the total sent is their sum of price times quantity |
| Checkout.PaymentUrl | src/pages/CheckoutPage.jsx:49-56 | a chosen link is never empty; no body gives no link |
| Checkout.PaymentUrlIsFirstCandidate | src/pages/CheckoutPage.jsx:49-56 | the link is the first non-empty of `paymentUrl`, `redirect_url`, `invoice.invoice_url`, `data.invoice_url`, `url`; there is none exactly when all are empty |
| Checkout.HttpFailureNamesStatus | src/pages/CheckoutPage.jsx:101 | the generic failure text names the status, which parses back |
| Checkout.HandleReply | src/pages/CheckoutPage.jsx:93-110 | only a redirect clears the cart, and then to a non-empty link; every alert leaves the cart |
| Checkout.HandleReplyCases | src/pages/CheckoutPage.jsx:96-107 | a 401 asks for a new login; any other failure alerts the server's `error`, its `message`, or the status; success with a link redirects and empties the cart; success without one alerts the missing link |
| AdminProducts.OptionalText | src/pages/Admin/Products.jsx:33-34 | `s.trim() \|\| undefined`: missing exactly for blank text, otherwise the trimmed, non-empty text |
| AdminProducts.SubmitAddSpec | src/pages/Admin/Products.jsx:19-36 | a body is sent exactly when name and image are not blank, the price is a positive number and no save is running; it carries trimmed name and image, the price, category and description only when not blank, and status `active` |
| AdminProducts.EditDefaults | src/pages/Admin/Products.jsx:76-84 | the edit form keeps a truthy status and defaults it to `active`, keeps a present version and defaults it to 0, and always holds a price |
| AdminProducts.EditUnchangedWritesBack | src/pages/Admin/Products.jsx:76-111 | saving the editor unchanged on a well-formed item sends back the item's own name, image, price, category and description, with the defaulted status and version |
| AdminProducts.SortParamSpec | src/pages/Admin/Products.jsx:170-175 | `priceAsc` is `price:asc`, `priceDesc` is `price:desc`, `updatedAsc` is `updatedAt:asc`, and any other value falls back to `updatedAt:desc` |
| AdminProducts.BaseQuerySpec | src/pages/Admin/Products.jsx:181-185 | the base query holds page, limit 15 and sort once each and nothing else |
| AdminProducts.SearchQuerySpec | src/pages/Admin/Products.jsx:181-190 | `q` and `search` both hold the trimmed search exactly when it is not blank; the base parameters stay |
| AdminProducts.CategoryKeepsOthers | src/pages/Admin/Products.jsx:191 | adding the category touches no other parameter |
| AdminProducts.ListQuerySpec | src/pages/Admin/Products.jsx:181-191 | each parameter appears once: page, limit 15 and sort always; `q` and `search` only for a non-blank search; `category` only when not `all` |
| AdminProducts.LoadedCategories | src/pages/Admin/Products.jsx:196 | the loaded categories are exactly the items' non-empty categories, each once, in the order in which the items first carry them |
| AdminProducts.MergeCategoriesSpec | src/pages/Admin/Products.jsx:196-197 | the remembered categories keep the earlier list in front, have no duplicates, and are exactly the earlier and the loaded ones |
| AdminProducts.StepSpec | src/pages/Admin/Products.jsx:177-264 | search, category, sort and create return to page 1; prev and next stay in range; the categories stay duplicate-free and only grow; a good load clears the error; a failed one shows the server's error or `Gagal memuat produk` and keeps rows, total and categories |
| AdminOrders.FilterQuerySpec | src/pages/Admin/Orders.jsx:50-53 | `from`, `to` and `username` are set exactly when not empty, each once |
| AdminOrders.OffsetKeepsFilters | src/pages/Admin/Orders.jsx:54 | setting the offset touches none of the filters |
| AdminOrders.OrderQuerySpec | src/pages/Admin/Orders.jsx:50-54 | the three filters are sent exactly when not empty; the offset always, and it parses back; each name once |
| AdminOrders.StripApiSuffix | src/pages/Admin/Orders.jsx:22 | one trailing `/api` is removed, and nothing else |
| AdminOrders.RoutesShareOrigin | src/pages/Admin/Orders.jsx:20-22 | for a base ending in `/api` the primary route is `origin/api/admin/orders` and the legacy one `origin/orders`, both with the same query |
| AdminOrders.ApiRoutesShareOrigin | src/pages/Admin/Orders.jsx:21-22 | the helper's base always ends in `/api`, so the two routes share its origin |
| AdminOrders.FetchOrdersSpec | src/pages/Admin/Orders.jsx:19-29 | the primary route is asked first; the legacy one exactly after a 404, and then only its reply counts; the result is a success exactly for a 2xx reply, and a non-empty list of orders comes only from an array body; a failed reply has a non-empty error |
| AdminOrders.SummaryAppend | src/pages/Admin/Orders.jsx:67-70 | count and total of the summary add up over concatenation |
| AdminOrders.PageTotalsAddUp | src/pages/Admin/Orders.jsx:72-74 | the totals of pages `1..pages` add up to the summary's total: paging loses and repeats nothing |
| AdminOrders.StepKeepsValid | src/pages/Admin/Orders.jsx:46-145 | every event keeps the page in range; a successful load resets it to 1 and clears the error; a failed load keeps orders and page and shows the error; clearing empties the three text filters only |
| AdminOrders.VisibleEmptyIffNoOrders | src/pages/Admin/Orders.jsx:72-74 | on an in-range page the visible slice has at most 15 orders and is empty exactly when there are none |
| Scenarios.TwoLineCart | tapako-frontend/src/components/CartDrawer.jsx:13 | two of one product at 1000 and one at 500 give a total of 2500 and a count of 3 |
| Scenarios.EmptyCatalogue | src/pages/StorePage.jsx:88-93 | no products give one page, and it is empty |
| Scenarios.SixtyOneProducts | src/pages/StorePage.jsx:88-123 | 61 products make three pages, the third holding only the last product; a page of 4 settles on 3 |
| Scenarios.PriceSortScenario | src/pages/StorePage.jsx:82-83 | prices 300, 100, 200 sort low to high as 100, 200, 300; without an order they stay |
| Scenarios.CategoryScenario | src/pages/StorePage.jsx:61-142 | the "Shoes" category keeps only the shoe; "Reset filter" lists both in their original order |

## Left out

- Network I/O is not modelled. `fetch`, promise sequencing, `Promise.all` and the `mounted` flags are left out. A request is returned as the URL and `init` it would send, and a reply is an input value (`Api.HandleResponse`, `Checkout.HandleReply`, `AdminOrders.FetchOrders`).
- JSON is kept abstract. Parsing a reply text is a function the caller supplies, and a record's fields are read as `Option` values.
- Timers are not modelled: the search debounce on the store page and on the orders page. The model takes the debounced value as already applied.
- Persistence is not modelled: zustand's `persist`, local storage, and the module-level path variable the drawer guard reads. The current path is a parameter.
- Locale formatting (`formatIDR`, `toLocaleString`) is not modelled. It depends on the Intl library.
- Prices and quantities are integers. `Number(text)` on a form field becomes `Option<int>`, `None` when the text is not a finite number. Fractional prices are not modelled.
- DOM-only code is not modelled: scrolling, dragging and the wheel on the product row, the `onError` image swap, and the scroll-into-view of the admin pager.
- The phone sanitiser of the checkout form is not modelled.
- The login and sign-up pages are not part of this model. They are forms around a request.
- The admin add-product page, both admin dashboards, and the admin header, layout and error boundary are not part of this model. They hold no logic of their own beyond requests and layout.
- `src/components/store/useCartStore.js` and `filterStore.js` are not part of this model. The filter store's state is a plain record (`Catalog.Filters`); its setters and its other fields are not modelled.
- AppShell.ShellChrome takes the path `App` rendered on as a parameter. The model does not say when React re-renders `App`; `App` subscribes only to `closeDrawer`, so the page load is the usual case.
- AppShell.Mount states the mount effect's `closeDrawer` under the storefront cart store's semantics (`CartStore.CloseDrawer`). The shell imports `src/components/store/useCartStore.js`, which is not part of this model.
- AppShell.Logout and AppShell.LogoutSpec state `clearUser` under the semantics of the user store that is modelled (`UserStore.ClearUser`). The header imports `src/components/store/useUserStore`, which is not part of this model; the modelled store is tapako-frontend/src/components/store/UseUserStore.js.
- Related.AddSpec states the effect of the product row's add under the storefront cart store's semantics. The row itself imports a cart store that is not part of this model.
- Checkout uses the cart line shape of the storefront store for the same reason. The cart total `(Number(p) || 0) * (Number(q) || 0)` reads a present, non-zero integer as itself. Conversion of numeric text by `Number` is not modelled.
- AdminProducts.Step does not model the delete and restore buttons. They ask for confirmation, send one request, then reload the list.
- AdminProducts.Step also leaves out the loading flag and the alerts shown when an add or an edit fails. None of these changes the list state that is modelled.
- AdminOrders.Step leaves out the loading flag. It models the "Terapkan" button as the same load as the filter effect.
- AppShell.Resolve matches paths exactly. The router also accepts other letter cases and a trailing slash; that is not modelled.
- Related.CategoryRow treats a missing body as `[]`. A body that is a non-array object makes `filter` throw inside a promise whose failure is swallowed; that case is not modelled.
- FormEncoding.FormRoundTrip gives back the UTF-8 bytes of a name or value. Turning a whole byte sequence back into text is not modelled; `FormEncoding.Utf8RoundTrip` states it one character at a time.
- Text.ToLower lower-cases the ASCII letters only. JavaScript's `toLowerCase` covers all of Unicode.
- Text.Trim uses the white-space set of the JavaScript specification, character by character. Surrogate pairs are not treated specially.
- Text.ParseInt reads an optional sign and decimal digits after leading white space. The radix argument is always 10 at the call sites, and other radixes are not modelled.
- CartStore.Valid assumes every quantity is a number. A `NaN` written by the quantity input (`CartDrawer.ChangeQtyNotANumber`) breaks it, which is why `CartStore.ApplyPreservesValid` asks for a numeric quantity.
- Catalog.Categories can list "All" twice when a product's category is itself "All". The source does the same, and the model does not exclude it.
- The two product-detail pages differ only in how they fetch, which is left out. One row in the table covers both. The older page's fetch could not run as written: tapako-frontend/src/pages/ProductDetail.jsx:5 imports a named `api` that tapako-frontend/src/lib/api.js does not export (it has only a default export and `apiGet`, `apiPost`, `apiPut`, `apiDelete`), and lines 19-20 call it as a function.

## Findings

| source | as written | input that shows it | evidently intended | confidence | as-written member | corrected member |
|---|---|---|---|---|---|---|
| src/pages/StorePage.jsx:101-105 (also tapako-frontend/src/pages/StorePage.jsx:79-83) | the left ellipsis appears for `page > 4` and the right one for `page < totalPages - 3`, while the window is `page - 1 .. page + 1` | page 4 of 8 gives `1 3 4 5 … 8`, so page 2 is neither shown nor behind an ellipsis; page 5 of 8 likewise hides page 7 | an ellipsis wherever a page is left out: `page > 3` and `page < totalPages - 2` | high; not executed | Paging.PageNumbersGapsMarkedExactly | Paging.PageNumbersMarkedComplete |

Both store pages draw the bar as written (`StorePage.PageBar`,
`LegacyStorePage.PageBar`), and their lemmas state its unmarked gaps.
`Paging.PageNumbersMarked` is the corrected bar, with `page > 3` and
`page < totalPages - 2`; `Paging.PageNumbersMarkedComplete` proves that it
marks every hidden page.
