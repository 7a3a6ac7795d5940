/** The checkout page: the form, the checks run before paying, the payload
    sent to `/checkout`, and what the page does with the reply.

    The cart lines are those of the cart store. The request itself is not
    sent here: `HandlePayment` returns the payload, and `HandleReply` takes
    the reply the network produced.
 */
module Checkout {
  import opened Wrappers
  import opened Text
  import opened JsValues
  import opened Seqs
  import opened Paging
  import CartStore

  type Line = CartStore.Line

  const DefaultApiBase: String := "http://localhost:5000"

  const NameRequired: String := "Nama wajib diisi."
  const AddressRequired: String := "Alamat pengiriman wajib diisi."
  const CartEmpty: String := "Cart kosong."
  const LoginRequired: String := "Silakan login terlebih dahulu."
  const BadItemFound: String := "Terdapat item yang tidak valid pada cart."
  const SessionExpired: String := "Sesi login berakhir. Silakan login lagi."
  const NoPaymentUrl: String := "URL pembayaran tidak ditemukan di respons server."
  const NetworkFailure: String := "Terjadi kesalahan saat checkout. Periksa koneksi Anda dan coba lagi."

  /** `${API_BASE}/checkout`, where the base is the build-time setting or
      the local default. */
  function CheckoutUrl(env: Option<String>): (r: String)
    ensures Truthy(env) ==> r == env.value + "/checkout"
    ensures !Truthy(env) ==> r == DefaultApiBase + "/checkout"
  {
    StrOr(env, DefaultApiBase) + "/checkout"
  }

  datatype Form = Form(username: String, email: String, phone: String, address: String)

  /** The form as first rendered: name and e-mail from the signed-in user. */
  function InitialForm(storeUsername: Option<String>, storeEmail: Option<String>): Form {
    Form(StrOr(storeUsername, ""), StrOr(storeEmail, ""), "", "")
  }

  /** The effect that fills an empty name or e-mail field once the user
      store provides one. */
  function Prefill(f: Form, storeUsername: Option<String>, storeEmail: Option<String>): (r: Form)
    ensures r.phone == f.phone && r.address == f.address
    ensures f.username != "" ==> r.username == f.username
    ensures f.email != "" ==> r.email == f.email
  {
    f.(username := if Truthy(storeUsername) && f.username == "" then storeUsername.value else f.username,
       email := if Truthy(storeEmail) && f.email == "" then storeEmail.value else f.email)
  }

  /** Prefilling never overwrites typed text, fills what it can, and a
      second run changes nothing. */
  lemma PrefillSpec(f: Form, storeUsername: Option<String>, storeEmail: Option<String>)
    ensures var r := Prefill(f, storeUsername, storeEmail);
      && (f.username == "" && Truthy(storeUsername) ==> r.username == storeUsername.value)
      && (f.email == "" && Truthy(storeEmail) ==> r.email == storeEmail.value)
      && Prefill(r, storeUsername, storeEmail) == r
      && InitialForm(storeUsername, storeEmail) == Prefill(Form("", "", "", ""), storeUsername, storeEmail)
  {
  }

  /** `!i.name || !i.price || !i.qty`. */
  predicate BadItem(l: Line) {
    !Truthy(l.name) || !NumTruthy(l.price) || !NumTruthy(l.qty)
  }

  /** `validate()`: the first failing check's message, or `None`. */
  function Validate(f: Form, cart: seq<Line>, token: Option<String>): (r: Option<String>)
    ensures r.None? <==>
      && !IsBlank(f.username) && !IsBlank(f.address) && |cart| > 0 && Truthy(token)
      && (forall i :: 0 <= i < |cart| ==> !BadItem(cart[i]))
    ensures IsBlank(f.username) ==> r == Some(NameRequired)
    ensures !IsBlank(f.username) && IsBlank(f.address) ==> r == Some(AddressRequired)
    ensures !IsBlank(f.username) && !IsBlank(f.address) && |cart| == 0 ==> r == Some(CartEmpty)
    ensures !IsBlank(f.username) && !IsBlank(f.address) && |cart| > 0 && !Truthy(token) ==>
      r == Some(LoginRequired)
    ensures (!IsBlank(f.username) && !IsBlank(f.address) && |cart| > 0 && Truthy(token)
             && exists i :: 0 <= i < |cart| && BadItem(cart[i])) ==>
      r == Some(BadItemFound)
  {
    if Trim(f.username) == "" then Some(NameRequired)
    else if Trim(f.address) == "" then Some(AddressRequired)
    else if |cart| == 0 then Some(CartEmpty)
    else if !Truthy(token) then Some(LoginRequired)
    else if exists i :: 0 <= i < |cart| && BadItem(cart[i]) then Some(BadItemFound)
    else None
  }

  /** An order item as sent. */
  datatype Item = Item(name: Option<String>, price: int, qty: int)

  /** `normalizeCart()`: price defaulting to 0, quantity at least 1. */
  function NormalizeCart(cart: seq<Line>): (r: seq<Item>)
    ensures |r| == |cart|
    ensures forall i :: 0 <= i < |cart| ==>
      && r[i].name == cart[i].name
      && r[i].price == NumOr(cart[i].price, 0)
      && r[i].qty >= 1
      && (NumOr(cart[i].qty, 1) >= 1 ==> r[i].qty == NumOr(cart[i].qty, 1))
      && (NumOr(cart[i].qty, 1) < 1 ==> r[i].qty == 1)
  {
    seq(|cart|, i requires 0 <= i < |cart| =>
      Item(cart[i].name, NumOr(cart[i].price, 0), Max(1, NumOr(cart[i].qty, 1))))
  }

  function ItemSubtotal(it: Item): int { it.price * it.qty }

  datatype Payload = Payload(
    items: seq<Item>,
    address: String,
    email: String,
    whatsapp: String,
    username: String,
    total: int)

  /** What pressing "Bayar Sekarang" does before any request. */
  datatype Submission =
    | Alert(message: String)
    | Ignored
    | Send(payload: Payload)

  /** `handlePayment` up to the request: the checks first (so an invalid
      form alerts even while a request is in flight), then the in-flight
      guard, then the payload with trimmed text fields. */
  function HandlePayment(f: Form, cart: seq<Line>, token: Option<String>, submitting: bool): (r: Submission)
    ensures Validate(f, cart, token).Some? ==> r == Alert(Validate(f, cart, token).value)
    ensures Validate(f, cart, token).None? && submitting ==> r == Ignored
    ensures Validate(f, cart, token).None? && !submitting ==> r.Send?
    ensures r.Send? ==> !submitting && Validate(f, cart, token).None?
    ensures r.Send? ==>
      && r.payload.username == Trim(f.username) && r.payload.address == Trim(f.address)
      && r.payload.email == Trim(f.email) && r.payload.whatsapp == Trim(f.phone)
      && r.payload.total == CartStore.Total(cart)
      && r.payload.items == NormalizeCart(cart)
  {
    var err := Validate(f, cart, token);
    if err.Some? then Alert(err.value)
    else if submitting then Ignored
    else Send(Payload(NormalizeCart(cart), Trim(f.address), Trim(f.email), Trim(f.phone),
                      Trim(f.username), CartStore.Total(cart)))
  }

  /** For a cart the store keeps valid, the payload's items are the cart's
      lines unchanged and the total sent is their sum, so the order the
      server receives adds up. */
  lemma PayloadAddsUp(f: Form, c: CartStore.Cart, token: Option<String>)
    requires CartStore.Valid(c)
    requires Validate(f, c.lines, token).None?
    ensures var p := HandlePayment(f, c.lines, token, false).payload;
      && |p.items| == |c.lines| && |p.items| > 0
      && (forall i :: 0 <= i < |c.lines| ==>
            p.items[i] == Item(c.lines[i].name, c.lines[i].price.value, c.lines[i].qty.value))
      && p.total == SumBy(p.items, ItemSubtotal)
  {
    var p := HandlePayment(f, c.lines, token, false).payload;
    SumMatches(c.lines, p.items);
  }

  lemma {:induction false} SumMatches(lines: seq<Line>, items: seq<Item>)
    requires |lines| == |items|
    requires forall i :: 0 <= i < |lines| ==>
      CartStore.Subtotal(lines[i]) == ItemSubtotal(items[i])
    ensures CartStore.Total(lines) == SumBy(items, ItemSubtotal)
    decreases |lines|
  {
    if |lines| > 0 {
      var n := |lines| - 1;
      SumMatches(lines[..n], items[..n]);
    }
  }

  /** The part of a reply body the page reads. */
  datatype Invoice = Invoice(invoiceUrl: Option<String>)

  datatype Reply = Reply(
    paymentUrl: Option<String>,
    redirectUrl: Option<String>,
    invoice: Option<Invoice>,
    data: Option<Invoice>,
    url: Option<String>,
    error: Option<String>,
    message: Option<String>)

  /** A network outcome: the request failed, or a status and a body, which
      is `None` when it was not JSON (or was `null`). */
  datatype Fetched =
    | NetworkError
    | Response(status: int, body: Option<Reply>)

  /** `res.ok`. */
  predicate Ok(status: int) { 200 <= status <= 299 }

  /** `data?.invoice?.invoice_url` and the like: a nested field that may be
      missing at any level. */
  function Nested(o: Option<Invoice>): Option<String> {
    if o.Some? then o.value.invoiceUrl else None
  }

  /** The payment link candidates in the order `redirectToPayment` tries
      them. */
  function UrlCandidates(d: Reply): seq<Option<String>> {
    [d.paymentUrl, d.redirectUrl, Nested(d.invoice), Nested(d.data), d.url]
  }

  /** The first non-empty payment link of a reply, if any. */
  function PaymentUrl(data: Option<Reply>): (r: Option<String>)
    ensures r.Some? ==> r.value != ""
    ensures data.None? ==> r.None?
  {
    if data.None? then None
    else
      var d := data.value;
      if Truthy(d.paymentUrl) then d.paymentUrl
      else if Truthy(d.redirectUrl) then d.redirectUrl
      else if Truthy(Nested(d.invoice)) then Nested(d.invoice)
      else if Truthy(Nested(d.data)) then Nested(d.data)
      else if Truthy(d.url) then d.url
      else None
  }

  /** The link chosen is the first candidate that is non-empty, and there is
      none only when every candidate is missing or empty. */
  lemma PaymentUrlIsFirstCandidate(d: Reply)
    ensures var r := PaymentUrl(Some(d)); var cs := UrlCandidates(d);
      && (r.None? <==> forall i :: 0 <= i < |cs| ==> !Truthy(cs[i]))
      && (r.Some? ==> exists i :: 0 <= i < |cs| && cs[i] == r
                        && forall j :: 0 <= j < i ==> !Truthy(cs[j]))
  {
    var cs := UrlCandidates(d);
    var r := PaymentUrl(Some(d));
    if r.Some? {
      var i := if Truthy(cs[0]) then 0 else if Truthy(cs[1]) then 1
        else if Truthy(cs[2]) then 2 else if Truthy(cs[3]) then 3 else 4;
      assert cs[i] == r;
    }
  }

  /** `Checkout gagal (HTTP <status>).` */
  function HttpFailure(status: int): String {
    "Checkout gagal (HTTP " + IntToString(status) + ")."
  }

  /** The message for a failed request: the body's `error`, its `message`,
      or the generic text with the status. */
  function FailureMessage(status: int, data: Option<Reply>): String {
    if data.Some? && Truthy(data.value.error) then data.value.error.value
    else if data.Some? && Truthy(data.value.message) then data.value.message.value
    else HttpFailure(status)
  }

  /** The generic failure text names the status, which can be read back. */
  lemma HttpFailureNamesStatus(status: int)
    ensures var m := HttpFailure(status); var pre := "Checkout gagal (HTTP ";
      && StartsWith(m, pre)
      && ParseInt(m[|pre|..]) == Some(status)
  {
    AfterPrefix("Checkout gagal (HTTP ", IntToString(status), ").");
    ParseIntOfIntToString(status, ").");
  }

  /** What the page ends with after a request. */
  datatype Outcome =
    | Alerted(message: String)
    | Redirected(url: String)

  /** The reply handling of `handlePayment`: a 401 asks for a new login, any
      other failure alerts the server's message, a success redirects to the
      payment link, and only a redirect clears the cart. */
  function HandleReply(c: CartStore.Cart, reply: Fetched): (r: (Outcome, CartStore.Cart))
    ensures r.0.Redirected? ==> r.1 == CartStore.ClearCart(c) && r.0.url != ""
    ensures r.0.Alerted? ==> r.1 == c
  {
    match reply
    case NetworkError => (Alerted(NetworkFailure), c)
    case Response(status, body) =>
      if status == 401 then (Alerted(SessionExpired), c)
      else if !Ok(status) then (Alerted(FailureMessage(status, body)), c)
      else
        var url := PaymentUrl(body);
        if url.Some? then (Redirected(url.value), CartStore.ClearCart(c))
        else (Alerted(NoPaymentUrl), c)
  }

  /** The outcome by status: 401 wins over any body; another failing
      status reports the server's text or names the status; a success
      with a link redirects there and empties the cart; a success without
      one reports the missing link. */
  lemma HandleReplyCases(c: CartStore.Cart, status: int, body: Option<Reply>)
    ensures var (o, c') := HandleReply(c, Response(status, body));
      && (status == 401 ==> o == Alerted(SessionExpired) && c' == c)
      && (status != 401 && !Ok(status) ==> o == Alerted(FailureMessage(status, body)) && c' == c)
      && (Ok(status) && PaymentUrl(body).Some? ==>
            o == Redirected(PaymentUrl(body).value) && c'.lines == [] && c'.isOpen == c.isOpen)
      && (Ok(status) && PaymentUrl(body).None? ==> o == Alerted(NoPaymentUrl) && c' == c)
  {
  }
}
