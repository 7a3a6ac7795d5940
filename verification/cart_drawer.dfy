/** The cart drawer of the storefront: its total, whether it is drawn,
    the checkout button's sign-in guard, and the quantity input and remove
    button of each line, all acting on the cart store.
 */
module CartDrawer {
  import opened Wrappers
  import opened Text
  import opened JsValues
  import opened Seqs
  import opened CartStore

  const FallbackImage: String := "/fallback.png"
  const CheckoutPath: String := "/checkout"
  const LoginFirst: String := "Silakan login terlebih dahulu."

  /** One drawn line: image, name, price, quantity. */
  datatype Row = Row(imgSrc: String, name: Option<String>, price: int, qty: Option<int>)

  function RowOf(l: Line): Row {
    Row(StrOr(l.imgSrc, FallbackImage), l.name, Price(l), l.qty)
  }

  /** What the drawer draws when open: the rows (the empty-cart message
      when there are none) and the total. */
  datatype Drawn = Drawn(rows: seq<Row>, total: int)

  /** `CartDrawer`: nothing while closed. */
  function Render(c: Cart): (r: Option<Drawn>)
    ensures r.None? <==> !c.isOpen
    ensures r.Some? ==> |r.value.rows| == |c.lines| && r.value.total == Total(c.lines)
    ensures r.Some? ==> forall i :: 0 <= i < |c.lines| ==> r.value.rows[i] == RowOf(c.lines[i])
  {
    if !c.isOpen then None
    else Some(Drawn(seq(|c.lines|, i requires 0 <= i < |c.lines| => RowOf(c.lines[i])), Total(c.lines)))
  }

  /** The drawer's total is the sum of the shown rows' price times
      quantity, a missing quantity counting as 0. */
  lemma {:induction false} TotalOfRows(lines: seq<Line>)
    ensures Total(lines) == SumBy(lines, (l: Line) => RowOf(l).price * NumOr(RowOf(l).qty, 0))
    decreases |lines|
  {
    if |lines| > 0 {
      TotalOfRows(lines[..|lines| - 1]);
    }
  }

  /** The result of the checkout button: the cart afterwards, where the
      browser goes, and the error toast shown, if any. */
  datatype CheckoutMove = CheckoutMove(cart: Cart, goTo: String, toast: Option<String>)

  /** `goCheckout`. */
  function GoCheckout(c: Cart, token: Option<String>): (r: CheckoutMove)
    ensures r.cart.lines == c.lines
    ensures !Truthy(token) ==> r == CheckoutMove(c, LoginPath, Some(LoginFirst))
    ensures Truthy(token) ==> r == CheckoutMove(CloseDrawer(c), CheckoutPath, None)
  {
    if !Truthy(token) then CheckoutMove(c, LoginPath, Some(LoginFirst))
    else CheckoutMove(CloseDrawer(c), CheckoutPath, None)
  }

  /** The quantity input's value: `parseInt(text || "0", 10)`. */
  function TypedQty(text: String): Option<int> {
    ParseInt(if text == "" then "0" else text)
  }

  /** The quantity input's `onChange` on the line at `index`. */
  function ChangeQty(c: Cart, index: int, text: String): Cart
    requires 0 <= index < |c.lines|
  {
    UpdateQty(c, index, TypedQty(text))
  }

  /** Clearing the field, or typing 0 or a negative number, removes that
      line and keeps the others in order; typing a positive number `n` sets
      that line's quantity to `n` and leaves the rest of the cart as it
      was. */
  lemma ChangeQtySpec(c: Cart, index: int, n: int)
    requires 0 <= index < |c.lines|
    ensures ChangeQty(c, index, "").lines == c.lines[..index] + c.lines[index + 1..]
    ensures n <= 0 ==> ChangeQty(c, index, IntToString(n)).lines == c.lines[..index] + c.lines[index + 1..]
    ensures n > 0 ==>
      ChangeQty(c, index, IntToString(n)) == c.(lines := c.lines[index := c.lines[index].(qty := Some(n))])
  {
    ParseIntOfIntToString(0, "");
    assert IntToString(0) + "" == "0";
    ParseIntOfIntToString(n, "");
    assert IntToString(n) + "" == IntToString(n);
    assert IntToString(n) != "" by {
      if n < 0 { assert |IntToString(n)| > |NatToString(-n)|; }
    }
    UpdateQtyEffect(c, index, Some(0));
    UpdateQtyEffect(c, index, Some(n));
  }

  /** A field holding text that is not a number gives `NaN`, which the
      store writes into the line: the line stays, without a usable
      quantity. */
  lemma ChangeQtyNotANumber(c: Cart, index: int, text: String)
    requires 0 <= index < |c.lines|
    requires text != "" && TypedQty(text).None?
    ensures |ChangeQty(c, index, text).lines| == |c.lines|
    ensures ChangeQty(c, index, text).lines[index].qty.None?
    ensures Qty(ChangeQty(c, index, text).lines[index]) == 0
  {
  }

  /** A mouse press outside the open drawer closes it. */
  function PressOutside(c: Cart): (r: Cart)
    ensures !r.isOpen && r.lines == c.lines
  {
    if c.isOpen then CloseDrawer(c) else c
  }
}
