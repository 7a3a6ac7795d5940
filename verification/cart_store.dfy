/** The persisted shopping-cart store: an ordered list of lines and the
    drawer's visibility flag, with every store action written as a
    state-to-state function.

    The path the drawer guard consults (a module-level variable kept up to
    date by a router hook in the source) is passed in as a parameter.
 */
module CartStore {
  import opened Wrappers
  import opened Text
  import opened JsValues
  import opened Seqs

  /** A cart line: the product fields handed to `addToCart` plus `qty`. */
  datatype Line = Line(
    id: String,
    name: Option<String>,
    price: Option<int>,
    imgSrc: Option<String>,
    qty: Option<int>)

  datatype Cart = Cart(lines: seq<Line>, isOpen: bool)

  const LoginPath: String := "/login"

  /** The store's initial state: no lines, drawer closed. */
  function Initial(): Cart {
    Cart([], false)
  }

  /** `p.qty || 0`. */
  function Qty(l: Line): int { NumOr(l.qty, 0) }

  /** `p.price || 0`. */
  function Price(l: Line): int { NumOr(l.price, 0) }

  /** `(p.price || 0) * (p.qty || 0)`. */
  function Subtotal(l: Line): int { Price(l) * Qty(l) }

  /** The cart total shown by the drawer and sent at checkout. */
  function Total(lines: seq<Line>): int {
    SumBy(lines, Subtotal)
  }

  /** The number of items in the cart, shown on the header badge. */
  function ItemCount(lines: seq<Line>): int {
    SumBy(lines, Qty)
  }

  predicate HasId(lines: seq<Line>, id: String) {
    exists i :: 0 <= i < |lines| && lines[i].id == id
  }

  /** At most one line per product id. */
  predicate UniqueIds(lines: seq<Line>) {
    forall i, j :: 0 <= i < j < |lines| ==> lines[i].id != lines[j].id
  }

  /** Every line holds a positive quantity. */
  predicate PositiveQuantities(lines: seq<Line>) {
    forall i :: 0 <= i < |lines| ==> lines[i].qty.Some? && lines[i].qty.value >= 1
  }

  /** `openDrawer`: a no-op on the login page. */
  function OpenDrawer(c: Cart, path: String): (r: Cart)
    ensures path == LoginPath ==> r == c
    ensures path != LoginPath ==> r.isOpen && r.lines == c.lines
  {
    if path == LoginPath then c else c.(isOpen := true)
  }

  /** `closeDrawer`. */
  function CloseDrawer(c: Cart): (r: Cart)
    ensures !r.isOpen && r.lines == c.lines
  {
    c.(isOpen := false)
  }

  /** `{ ...p, qty: (p.qty || 0) + 1 }`. */
  function Increment(l: Line): Line {
    l.(qty := Some(Qty(l) + 1))
  }

  /** `cart.map(p => p._id === id ? increment(p) : p)`. */
  function IncrementMatching(lines: seq<Line>, id: String): (r: seq<Line>)
    ensures |r| == |lines|
    ensures forall i :: 0 <= i < |lines| ==>
      r[i] == if lines[i].id == id then Increment(lines[i]) else lines[i]
  {
    seq(|lines|, i requires 0 <= i < |lines| => if lines[i].id == id then Increment(lines[i]) else lines[i])
  }

  /** `addToCart(product)`: always adds exactly one item; an existing line
      for the same id is incremented, otherwise the product is appended as a
      new line with quantity 1, whatever quantity it carried. */
  function AddToCart(c: Cart, product: Line): (r: Cart)
    ensures r.isOpen == c.isOpen
    ensures HasId(c.lines, product.id) ==> |r.lines| == |c.lines|
    ensures !HasId(c.lines, product.id) ==> r.lines == c.lines + [product.(qty := Some(1))]
  {
    var updated :=
      if HasId(c.lines, product.id) then IncrementMatching(c.lines, product.id)
      else c.lines + [product.(qty := Some(1))];
    c.(lines := updated)
  }

  /** A quantity argument that makes `updateQty` delete the line (`qty <= 0`;
      `NaN`, here `None`, compares false). */
  predicate RemovesLine(qty: Option<int>) {
    qty.Some? && qty.value <= 0
  }

  /** `updateQty(index, qty)`: removes the line for `qty <= 0`, otherwise
      overwrites that line's quantity, which needs an existing line. */
  function UpdateQty(c: Cart, index: int, qty: Option<int>): (r: Cart)
    requires RemovesLine(qty) || 0 <= index < |c.lines|
    ensures r.isOpen == c.isOpen
  {
    if RemovesLine(qty) then c.(lines := Splice1(c.lines, index))
    else c.(lines := c.lines[index := c.lines[index].(qty := qty)])
  }

  /** `removeItem(index)`: `splice(index, 1)` on a copy. */
  function RemoveItem(c: Cart, index: int): (r: Cart)
    ensures r.isOpen == c.isOpen
    ensures 0 <= index < |c.lines| ==> r.lines == c.lines[..index] + c.lines[index + 1..]
    ensures index >= |c.lines| ==> r == c
  {
    c.(lines := Splice1(c.lines, index))
  }

  /** `removeFromCart(id)`: no line with that id remains; every other line
      stays, in its original order. */
  function RemoveFromCart(c: Cart, id: String): (r: Cart)
    ensures r.isOpen == c.isOpen
    ensures !HasId(r.lines, id)
    ensures forall i :: 0 <= i < |c.lines| && c.lines[i].id != id ==> c.lines[i] in r.lines
    ensures forall i :: 0 <= i < |r.lines| ==> r.lines[i] in c.lines
    ensures IsSubsequence(r.lines, c.lines)
    ensures forall l :: multiset(r.lines)[l] == if l.id == id then 0 else multiset(c.lines)[l]
  {
    FilterIsSubsequence(c.lines, (l: Line) => l.id != id);
    FilterMultiset(c.lines, (l: Line) => l.id != id);
    c.(lines := Filter(c.lines, (l: Line) => l.id != id))
  }

  /** `clearCart`: empties the lines and leaves the drawer as it is. */
  function ClearCart(c: Cart): (r: Cart)
    ensures r.lines == [] && r.isOpen == c.isOpen
  {
    c.(lines := [])
  }

  /** Adding a product already in a cart without duplicate ids raises that
      line's quantity by exactly one (a missing quantity counting as 0) and
      changes nothing else. */
  lemma AddExisting(c: Cart, product: Line, i: int)
    requires UniqueIds(c.lines)
    requires 0 <= i < |c.lines| && c.lines[i].id == product.id
    ensures var r := AddToCart(c, product);
      && |r.lines| == |c.lines|
      && r.lines[i].qty == Some(Qty(c.lines[i]) + 1)
      && r.lines[i].(qty := c.lines[i].qty) == c.lines[i]
      && (forall j :: 0 <= j < |c.lines| && j != i ==> r.lines[j] == c.lines[j])
      && r.lines == c.lines[i := Increment(c.lines[i])]
  {
    var r := AddToCart(c, product);
    assert HasId(c.lines, product.id);
    assert forall j :: 0 <= j < |c.lines| && j != i ==> c.lines[j].id != product.id;
  }

  /** Every action keeps at most one line per id. */
  lemma AddPreservesUniqueIds(c: Cart, product: Line)
    requires UniqueIds(c.lines)
    ensures UniqueIds(AddToCart(c, product).lines)
  {
    var r := AddToCart(c, product);
    if !HasId(c.lines, product.id) {
      forall i, j | 0 <= i < j < |r.lines| ensures r.lines[i].id != r.lines[j].id {
        if j == |c.lines| {
          assert r.lines[i] == c.lines[i];
        }
      }
    }
  }

  /** Adding to an empty cart twice gives one line of quantity 2. */
  lemma AddTwiceGivesOneLine(product: Line, isOpen: bool)
    ensures AddToCart(AddToCart(Cart([], isOpen), product), product).lines
            == [product.(qty := Some(2))]
  {
    var once := AddToCart(Cart([], isOpen), product);
    assert once.lines == [product.(qty := Some(1))];
    assert once.lines[0].id == product.id;
    assert HasId(once.lines, product.id);
  }

  /** Changing one element changes a sum by the difference of the terms. */
  lemma SumByUpdate<T>(s: seq<T>, i: int, y: T, f: T -> int)
    requires 0 <= i < |s|
    ensures SumBy(s[i := y], f) == SumBy(s, f) - f(s[i]) + f(y)
  {
    var t := s[i := y];
    assert s == s[..i] + [s[i]] + s[i + 1..];
    assert t == s[..i] + [y] + s[i + 1..];
    SumByAppend(s[..i] + [s[i]], s[i + 1..], f);
    SumByAppend(s[..i], [s[i]], f);
    SumByAppend(s[..i] + [y], s[i + 1..], f);
    SumByAppend(s[..i], [y], f);
    assert SumBy([s[i]], f) == f(s[i]) by { assert [s[i]][..0] == []; }
    assert SumBy([y], f) == f(y) by { assert [y][..0] == []; }
  }

  /** On a cart without duplicate ids, `addToCart` adds exactly one item to
      the badge count and one unit price to the total: the existing line's
      price when the product is already there, the product's otherwise. */
  lemma AddToCartTotals(c: Cart, product: Line)
    requires UniqueIds(c.lines)
    ensures ItemCount(AddToCart(c, product).lines) == ItemCount(c.lines) + 1
    ensures !HasId(c.lines, product.id) ==>
      Total(AddToCart(c, product).lines) == Total(c.lines) + Price(product)
    ensures forall i :: 0 <= i < |c.lines| && c.lines[i].id == product.id ==>
      Total(AddToCart(c, product).lines) == Total(c.lines) + Price(c.lines[i])
  {
    if HasId(c.lines, product.id) {
      var i :| 0 <= i < |c.lines| && c.lines[i].id == product.id;
      AddExistingTotals(c, product, i);
      forall j | 0 <= j < |c.lines| && c.lines[j].id == product.id
        ensures Total(AddToCart(c, product).lines) == Total(c.lines) + Price(c.lines[j])
      {
        assert j == i;
      }
    } else {
      AddNewTotals(c, product);
    }
  }

  lemma AddExistingTotals(c: Cart, product: Line, i: int)
    requires UniqueIds(c.lines)
    requires 0 <= i < |c.lines| && c.lines[i].id == product.id
    ensures ItemCount(AddToCart(c, product).lines) == ItemCount(c.lines) + 1
    ensures Total(AddToCart(c, product).lines) == Total(c.lines) + Price(c.lines[i])
  {
    AddExisting(c, product, i);
    IncrementTotals(c.lines, i);
  }

  /** Incrementing one line adds one item and that line's price. */
  lemma IncrementTotals(lines: seq<Line>, i: int)
    requires 0 <= i < |lines|
    ensures ItemCount(lines[i := Increment(lines[i])]) == ItemCount(lines) + 1
    ensures Total(lines[i := Increment(lines[i])]) == Total(lines) + Price(lines[i])
  {
    var l := lines[i];
    SumByUpdate(lines, i, Increment(l), Qty);
    SumByUpdate(lines, i, Increment(l), Subtotal);
    assert Subtotal(Increment(l)) == Price(l) * (Qty(l) + 1) == Subtotal(l) + Price(l);
  }

  lemma AddNewTotals(c: Cart, product: Line)
    requires !HasId(c.lines, product.id)
    ensures ItemCount(AddToCart(c, product).lines) == ItemCount(c.lines) + 1
    ensures Total(AddToCart(c, product).lines) == Total(c.lines) + Price(product)
  {
    var line := product.(qty := Some(1));
    SumByAppend(c.lines, [line], Qty);
    SumByAppend(c.lines, [line], Subtotal);
    assert SumBy([line], Qty) == 1 by { assert [line][..0] == []; }
    assert SumBy([line], Subtotal) == Price(product) by { assert [line][..0] == []; }
  }

  /** `updateQty` with `qty <= 0` on an existing line removes exactly that
      line, keeping the others in order; with any other quantity it replaces
      only that line's quantity. */
  lemma UpdateQtyEffect(c: Cart, index: int, qty: Option<int>)
    requires 0 <= index < |c.lines|
    ensures var r := UpdateQty(c, index, qty);
      && (RemovesLine(qty) ==>
            r.lines == c.lines[..index] + c.lines[index + 1..] && |r.lines| == |c.lines| - 1)
      && (!RemovesLine(qty) ==>
            && |r.lines| == |c.lines|
            && r.lines[index].qty == qty
            && r.lines[index].(qty := c.lines[index].qty) == c.lines[index]
            && (forall j :: 0 <= j < |c.lines| && j != index ==> r.lines[j] == c.lines[j]))
  {
  }

  /** Removing lines or changing a quantity never creates a duplicate id. */
  lemma UpdateQtyPreservesUniqueIds(c: Cart, index: int, qty: Option<int>)
    requires UniqueIds(c.lines)
    requires RemovesLine(qty) || 0 <= index < |c.lines|
    ensures UniqueIds(UpdateQty(c, index, qty).lines)
  {
    var r := UpdateQty(c, index, qty);
    if RemovesLine(qty) {
      SpliceKeepsUniqueIds(c.lines, index);
    } else {
      assert forall j :: 0 <= j < |r.lines| ==> r.lines[j].id == c.lines[j].id;
    }
  }

  lemma SpliceKeepsUniqueIds(lines: seq<Line>, index: int)
    requires UniqueIds(lines)
    ensures UniqueIds(Splice1(lines, index))
  {
    var r := Splice1(lines, index);
    forall i, j | 0 <= i < j < |r| ensures r[i].id != r[j].id {
      SpliceAt(lines, index, i);
      SpliceAt(lines, index, j);
    }
  }

  /** Every store action, as the UI can issue it. */
  datatype Action =
    | Open(path: String)
    | Close
    | Add(product: Line)
    | SetQty(index: int, qty: Option<int>)
    | RemoveAt(index: int)
    | RemoveId(id: String)
    | Clear

  /** An action the store can carry out: a quantity update that does not
      delete a line names an existing one. */
  predicate Enabled(c: Cart, a: Action) {
    a.SetQty? ==> RemovesLine(a.qty) || 0 <= a.index < |c.lines|
  }

  function Apply(c: Cart, a: Action): Cart
    requires Enabled(c, a)
  {
    match a
    case Open(path) => OpenDrawer(c, path)
    case Close => CloseDrawer(c)
    case Add(product) => AddToCart(c, product)
    case SetQty(index, qty) => UpdateQty(c, index, qty)
    case RemoveAt(index) => RemoveItem(c, index)
    case RemoveId(id) => RemoveFromCart(c, id)
    case Clear => ClearCart(c)
  }

  /** The cart invariant: one line per id, and every quantity a positive
      number. */
  predicate Valid(c: Cart) {
    UniqueIds(c.lines) && PositiveQuantities(c.lines)
  }

  /** Every action keeps the cart invariant, provided a quantity update is
      given a number (not `NaN`). */
  lemma ApplyPreservesValid(c: Cart, a: Action)
    requires Valid(c) && Enabled(c, a)
    requires a.SetQty? ==> a.qty.Some?
    ensures Valid(Apply(c, a))
  {
    match a
    case Add(product) =>
      AddPreservesUniqueIds(c, product);
      var r := AddToCart(c, product);
      if HasId(c.lines, product.id) {
        assert forall i :: 0 <= i < |r.lines| ==>
          r.lines[i] == if c.lines[i].id == product.id then Increment(c.lines[i]) else c.lines[i];
      }
    case SetQty(index, qty) =>
      UpdateQtyPreservesUniqueIds(c, index, qty);
      if RemovesLine(qty) {
        SpliceKeepsPositive(c.lines, index);
      }
    case RemoveAt(index) =>
      SpliceKeepsUniqueIds(c.lines, index);
      SpliceKeepsPositive(c.lines, index);
    case RemoveId(id) =>
      var r := RemoveFromCart(c, id);
      FilterIsSubsequence(c.lines, (l: Line) => l.id != id);
      SubsequenceKeepsValid(r.lines, c.lines);
    case _ =>
  }

  lemma SpliceKeepsPositive(lines: seq<Line>, index: int)
    requires PositiveQuantities(lines)
    ensures PositiveQuantities(Splice1(lines, index))
  {
    var r := Splice1(lines, index);
    forall i | 0 <= i < |r| ensures r[i].qty.Some? && r[i].qty.value >= 1 {
      SpliceAt(lines, index, i);
    }
  }

  lemma {:induction false} SubsequenceKeepsValid(a: seq<Line>, b: seq<Line>)
    requires IsSubsequence(a, b) && UniqueIds(b) && PositiveQuantities(b)
    ensures UniqueIds(a) && PositiveQuantities(a)
    decreases |b|
  {
    if |a| > 0 {
      if a[0] == b[0] && IsSubsequence(a[1..], b[1..]) {
        SubsequenceKeepsValid(a[1..], b[1..]);
        SubsequenceMembers(a[1..], b[1..]);
        forall j | 0 < j < |a| ensures a[0].id != a[j].id {
          assert a[j] == a[1..][j - 1];
        }
      } else {
        SubsequenceKeepsValid(a, b[1..]);
      }
    }
  }

  lemma {:induction false} SubsequenceMembers<T>(a: seq<T>, b: seq<T>)
    requires IsSubsequence(a, b)
    ensures forall i :: 0 <= i < |a| ==> a[i] in b
    decreases |b|
  {
    if |a| > 0 {
      if a[0] == b[0] && IsSubsequence(a[1..], b[1..]) {
        SubsequenceMembers(a[1..], b[1..]);
        assert forall i :: 1 <= i < |a| ==> a[i] == a[1..][i - 1];
      } else {
        SubsequenceMembers(a, b[1..]);
      }
    }
  }
}
