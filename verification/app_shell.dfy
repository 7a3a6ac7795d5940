/** The application shell and the site header: which page a path shows,
    the guards in front of the checkout and the admin dashboard, and when
    the header, cart drawer and footer are drawn.

    The browser location is a parameter. `App` reads `window.location` only
    when it renders, and no store change re-renders it on client-side
    navigation, so its decision follows the path it rendered on (the page
    load), while the header follows the router's current path. Paths are
    matched exactly; the router's case-insensitive and trailing-slash
    matching is not modelled.
 */
module AppShell {
  import opened Wrappers
  import opened Text
  import opened JsValues
  import opened Seqs
  import UserStore
  import CartStore

  const AdminRole: String := "admin"
  const AdminPrefix: String := "/admin"
  const HomePath: String := "/"
  const LoginPath: String := "/login"
  const DashboardPath: String := "/admin/dashboard"
  const ProductPrefix: String := "/product/"

  /** What a guard does: draw its children, or navigate away. */
  datatype Guard = Allow | NavigateTo(path: String)

  predicate IsAdmin(u: UserStore.User) {
    u.role == Some(AdminRole)
  }

  /** `PrivateRoute`. */
  function PrivateRoute(u: UserStore.User): (r: Guard)
    ensures r.Allow? <==> Truthy(u.token)
    ensures r.NavigateTo? ==> r.path == LoginPath
  {
    if Truthy(u.token) then Allow else NavigateTo(LoginPath)
  }

  /** `AdminRoute`. */
  function AdminRoute(u: UserStore.User): (r: Guard)
    ensures r.Allow? <==> Truthy(u.token) && IsAdmin(u)
    ensures r.NavigateTo? ==> r.path == LoginPath
  {
    if Truthy(u.token) && IsAdmin(u) then Allow else NavigateTo(LoginPath)
  }

  /** The admin guard is the stricter one; after sign-out both send the
      visitor to the login page, and after signing in as an admin both let
      them through. */
  lemma GuardsOrdered(u: UserStore.User, admin: UserStore.User)
    requires Truthy(admin.token) && IsAdmin(admin)
    ensures AdminRoute(u).Allow? ==> PrivateRoute(u).Allow?
    ensures PrivateRoute(UserStore.ClearUser(u)) == NavigateTo(LoginPath)
    ensures AdminRoute(UserStore.ClearUser(u)) == NavigateTo(LoginPath)
    ensures AdminRoute(UserStore.SetUser(u, admin)) == Allow
    ensures PrivateRoute(UserStore.SetUser(u, admin)) == Allow
  {
  }

  /** `isAdminRoute`: the path starts with `/admin` (so `/administrator`
      counts as well). */
  predicate IsAdminRoute(path: String) {
    StartsWith(path, AdminPrefix)
  }

  /** Which parts of the page frame are drawn. */
  datatype Chrome = Chrome(header: bool, cartDrawer: bool, footer: bool, topPadding: bool)

  /** `App`'s decision, taken from `loadPath`, the path `App` rendered on. */
  function ShellChrome(loadPath: String): (r: Chrome)
    ensures r.header == r.cartDrawer == r.footer == r.topPadding
    ensures r.header <==> !IsAdminRoute(loadPath)
  {
    var shown := !IsAdminRoute(loadPath);
    Chrome(shown, shown, shown, shown)
  }

  /** The pages behind the routes. */
  datatype Screen =
    | Home
    | Login
    | SignUp
    | Checkout
    | SuccessPage
    | Store
    | Sale
    | Product(id: String)
    | AdminDashboard

  /** What the route table yields for one path: a page, or a navigation. */
  datatype Resolved = Show(screen: Screen) | Redirect(to: String)

  function GuardedBy(g: Guard, s: Screen): Resolved {
    if g.Allow? then Show(s) else Redirect(g.path)
  }

  /** The `:id` of `/product/:id`: a non-empty segment without a slash. */
  predicate IsProductPath(path: String) {
    StartsWith(path, ProductPrefix) && |path| > |ProductPrefix| && '/' !in path[|ProductPrefix|..]
  }

  /** The `<Routes>` table. */
  function Resolve(path: String, u: UserStore.User): Resolved {
    if path == HomePath then Show(Home)
    else if path == LoginPath then Show(Login)
    else if path == "/signup" then Show(SignUp)
    else if path == "/checkout" then GuardedBy(PrivateRoute(u), Checkout)
    else if path == "/success" then Show(SuccessPage)
    else if path == "/store" then Show(Store)
    else if path == "/sale" then Show(Sale)
    else if IsProductPath(path) then Show(Product(path[|ProductPrefix|..]))
    else if path == AdminPrefix then Redirect(DashboardPath)
    else if path == DashboardPath then GuardedBy(AdminRoute(u), AdminDashboard)
    else Redirect(HomePath)
  }

  /** Follows at most `hops` redirects. */
  function Land(path: String, u: UserStore.User, hops: nat): Resolved
    decreases hops
  {
    var r := Resolve(path, u);
    if r.Redirect? && hops > 0 then Land(r.to, u, hops - 1) else r
  }

  /** Every path settles on a page after at most two redirects. The
      checkout is shown only to a signed-in visitor and the dashboard only
      to a signed-in admin; `/admin` leads to the dashboard for an admin and
      to the login page for anyone else; an unknown path leads home. */
  lemma LandingSpec(path: String, u: UserStore.User)
    ensures Land(path, u, 2).Show?
    ensures Land(path, u, 2) == Show(Checkout) ==> Truthy(u.token) && path == "/checkout"
    ensures Land(path, u, 2) == Show(AdminDashboard) ==>
      Truthy(u.token) && IsAdmin(u) && (path == AdminPrefix || path == DashboardPath)
    ensures path == AdminPrefix ==>
      Land(path, u, 2) == if Truthy(u.token) && IsAdmin(u) then Show(AdminDashboard) else Show(Login)
    ensures Resolve(path, u) == Redirect(HomePath) ==> Land(path, u, 2) == Show(Home)
  {
    assert IsProductPath(HomePath) == false;
    assert IsProductPath(LoginPath) == false;
    assert !IsProductPath(DashboardPath) by {
      assert DashboardPath[..|ProductPrefix|][1] == 'a' != ProductPrefix[1];
    }
  }

  /** The app's mount effect: the drawer starts closed, the lines stay. */
  function Mount(c: CartStore.Cart): (r: CartStore.Cart)
    ensures !r.isOpen && r.lines == c.lines
  {
    CartStore.CloseDrawer(c)
  }

  /** The header's item count: quantities added up, a missing or `NaN`
      quantity counting as 0. */
  function QtyOrZero(q: Option<int>): int { NumOr(q, 0) }

  function CartCount(qtys: seq<Option<int>>): int {
    SumBy(qtys, QtyOrZero)
  }

  /** What the header draws. */
  datatype HeaderView =
    | HeaderHidden
    | HeaderShown(cartCount: int, badge: bool, adminLink: bool, signedIn: bool)

  /** `Header` for a path, the signed-in user and the quantities of the
      cart lines. */
  function Header(path: String, u: UserStore.User, qtys: seq<Option<int>>): HeaderView {
    if IsAdmin(u) && IsAdminRoute(path) then HeaderHidden
    else
      var count := CartCount(qtys);
      HeaderShown(count, count > 0, IsAdmin(u), Truthy(u.token))
  }

  /** The header hides only for an admin on an admin path; the badge shows
      the count exactly when it is positive; the admin link shows exactly
      for the admin role. */
  lemma HeaderSpec(path: String, u: UserStore.User, qtys: seq<Option<int>>)
    ensures var h := Header(path, u, qtys);
      && (h.HeaderHidden? <==> IsAdmin(u) && IsAdminRoute(path))
      && (h.HeaderShown? ==>
            && h.cartCount == CartCount(qtys)
            && (h.badge <==> CartCount(qtys) > 0)
            && (h.adminLink <==> IsAdmin(u))
            && (h.signedIn <==> Truthy(u.token)))
  {
  }

  /** The page frame as drawn: the parts `App` mounts on `loadPath`, with
      the header, when mounted, testing the current path itself. */
  datatype Frame = Frame(header: HeaderView, cartDrawer: bool, footer: bool, topPadding: bool)

  function PageFrame(loadPath: String, currentPath: String, u: UserStore.User, qtys: seq<Option<int>>): Frame {
    var c := ShellChrome(loadPath);
    Frame(if c.header then Header(currentPath, u, qtys) else HeaderHidden, c.cartDrawer, c.footer, c.topPadding)
  }

  /** The drawer, the footer and the padding follow the path `App` rendered
      on, whatever the current path; the header is hidden when `App` left
      it out or when an admin is on an admin path now. */
  lemma PageFrameSpec(loadPath: String, currentPath: String, u: UserStore.User, qtys: seq<Option<int>>)
    ensures var f := PageFrame(loadPath, currentPath, u, qtys);
      && (f.cartDrawer <==> !IsAdminRoute(loadPath))
      && f.footer == f.cartDrawer && f.topPadding == f.cartDrawer
      && (f.header.HeaderHidden? <==> IsAdminRoute(loadPath) || (IsAdmin(u) && IsAdminRoute(currentPath)))
  {
    HeaderSpec(currentPath, u, qtys);
  }

  /** An admin who loads `/` and follows the header's link to the dashboard
      loses the header but keeps the cart drawer, the footer and the
      padding. */
  lemma AdminLinkKeepsDrawer(u: UserStore.User, qtys: seq<Option<int>>)
    requires IsAdmin(u)
    ensures var f := PageFrame(HomePath, DashboardPath, u, qtys);
      f.header.HeaderHidden? && f.cartDrawer && f.footer && f.topPadding
  {
    assert !IsAdminRoute(HomePath);
    assert IsAdminRoute(DashboardPath) by {
      assert DashboardPath[..|AdminPrefix|] == AdminPrefix;
    }
  }

  function Quantities(lines: seq<CartStore.Line>): (r: seq<Option<int>>)
    ensures |r| == |lines|
    ensures forall i :: 0 <= i < |lines| ==> r[i] == lines[i].qty
  {
    seq(|lines|, i requires 0 <= i < |lines| => lines[i].qty)
  }

  /** Read off lines shaped like the storefront cart's, the header's count
      is that cart's item count. */
  lemma {:induction false} CartCountIsItemCount(lines: seq<CartStore.Line>)
    ensures CartCount(Quantities(lines)) == CartStore.ItemCount(lines)
    decreases |lines|
  {
    if |lines| > 0 {
      var init := lines[..|lines| - 1];
      CartCountIsItemCount(init);
      assert Quantities(lines)[..|lines| - 1] == Quantities(init);
    }
  }

  /** In a cart whose lines all hold a positive quantity, the count is at
      least the number of lines, so a non-empty cart shows the badge. */
  lemma {:induction false} CountAtLeastLines(lines: seq<CartStore.Line>)
    requires CartStore.PositiveQuantities(lines)
    ensures CartCount(Quantities(lines)) >= |lines|
    decreases |lines|
  {
    if |lines| > 0 {
      var init := lines[..|lines| - 1];
      CountAtLeastLines(init);
      assert Quantities(lines)[..|lines| - 1] == Quantities(init);
    }
  }

  /** `logout`: the user is cleared and the browser goes home. */
  function Logout(u: UserStore.User): (r: (UserStore.User, String))
    ensures UserStore.SignedOut(r.0) && r.1 == HomePath
  {
    (UserStore.ClearUser(u), HomePath)
  }

  /** After logging out, the header offers the login link and no admin
      link, and the checkout guard sends the visitor to log in. */
  lemma LogoutSpec(path: String, u: UserStore.User, qtys: seq<Option<int>>)
    ensures var (after, _) := Logout(u);
      && Header(path, after, qtys).HeaderShown?
      && !Header(path, after, qtys).signedIn && !Header(path, after, qtys).adminLink
      && PrivateRoute(after) == NavigateTo(LoginPath)
  {
  }
}
