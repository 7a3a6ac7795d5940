/** Worked examples of the storefront's promises on concrete data: a
    two-line cart, an empty and a 61-product catalogue, a price sort, and a
    category filter followed by "Reset filter".
 */
module Scenarios {
  import opened Wrappers
  import opened Text
  import opened Seqs
  import opened StableSort
  import opened Paging
  import opened Catalog
  import CartStore
  import StorePage

  /** A product with only an id, a name, a price and a category. */
  function Sample(id: String, name: String, price: int, category: String): Product {
    Product(id, Some(name), None, Some(price), None, Some(category), None, None, None)
  }

  /** Two of product 1 at 1000 and one of product 2 at 500: the drawer
      shows 2500 and the badge shows 3. */
  lemma TwoLineCart()
    ensures var lines := [CartStore.Line("1", None, Some(1000), None, Some(2)),
                          CartStore.Line("2", None, Some(500), None, Some(1))];
      && CartStore.Total(lines) == 2500
      && CartStore.ItemCount(lines) == 3
  {
    var lines := [CartStore.Line("1", None, Some(1000), None, Some(2)),
                  CartStore.Line("2", None, Some(500), None, Some(1))];
    var first := lines[0];
    assert lines[..1] == [first];
    assert SumBy([first], CartStore.Subtotal) == 2000 by { assert [first][..0] == []; }
    assert SumBy([first], CartStore.Qty) == 2 by { assert [first][..0] == []; }
  }

  /** An empty catalogue still has one page, and that page is empty. */
  lemma EmptyCatalogue(none: seq<Product>)
    requires none == []
    ensures TotalPages(|none|, PageSize) == 1
    ensures PageSlice(none, 1, PageSize) == []
  {
  }

  /** 61 products make three pages of 30, 30 and 1; a page number past the
      last settles on the last page. */
  lemma SixtyOneProducts(list: seq<Product>)
    requires |list| == 61
    ensures TotalPages(|list|, PageSize) == 3
    ensures PageSlice(list, 3, PageSize) == [list[60]]
    ensures SettlePage(4, false, TotalPages(|list|, PageSize)) == 3
  {
    var t := TotalPages(|list|, PageSize);
    assert t == 3 by {
      assert t * 30 >= 61 && (t == 1 || (t - 1) * 30 < 61);
    }
  }

  /** Prices 300, 100, 200 sort low to high as 100, 200, 300; without a
      price order they stay as they came. */
  lemma PriceSortScenario()
    ensures var a := Sample("a", "A", 300, "X");
      var b := Sample("b", "B", 100, "X");
      var c := Sample("c", "C", 200, "X");
      && SortByMode([a, b, c], LowToHigh) == [b, c, a]
      && SortByMode([a, b, c], NoOrder) == [a, b, c]
  {
    var a := Sample("a", "A", 300, "X");
    var b := Sample("b", "B", 100, "X");
    var c := Sample("c", "C", 200, "X");
    SortPair(b, c);
    InsertLast(a, b, c);
    assert [a, b, c][1..] == [b, c];
  }

  /** Two elements already in order stay in order. */
  lemma SortPair(b: Product, c: Product)
    requires PriceKey(b) <= PriceKey(c)
    ensures SortBy([b, c], PriceKey) == [b, c]
  {
    assert [b, c][1..] == [c];
    assert [c][1..] == [];
  }

  /** The dearest element goes to the back. */
  lemma InsertLast(a: Product, b: Product, c: Product)
    requires PriceKey(b) < PriceKey(a) && PriceKey(c) < PriceKey(a)
    ensures Insert(a, [b, c], PriceKey) == [b, c, a]
  {
    assert [b, c][1..] == [c];
    assert [c][1..] == [];
  }

  /** Choosing the "Shoes" category keeps the red shoe only; "Reset
      filter" brings both products back in their original order. */
  lemma CategoryScenario()
    ensures var shoe := Sample("1", "Red Shoe", 100, "Shoes");
      var hat := Sample("2", "Blue Hat", 50, "Hats");
      var shoes := StorePage.Selection("Shoes", "", false, ClearedFilters());
      && StorePage.Listed([shoe, hat], shoes) == [shoe]
      && StorePage.Listed([shoe, hat], StorePage.ClearAllFilters()) == [shoe, hat]
  {
    var shoe := Sample("1", "Red Shoe", 100, "Shoes");
    var hat := Sample("2", "Blue Hat", 50, "Hats");
    var shoes := StorePage.Selection("Shoes", "", false, ClearedFilters());
    var m := (p: Product) => StorePage.Matches(p, shoes);
    StorePage.UnsortedIsFilter([shoe, hat], shoes);
    assert IsBlank("");
    assert "Hats"[1] != "Shoes"[1];
    assert m(shoe) && !m(hat);
    assert [shoe, hat][1..] == [hat];
    assert [hat][1..] == [];
    assert Filter([shoe, hat], m) == [shoe] + Filter([hat], m);
    StorePage.ClearAllListsEverything([shoe, hat]);
  }
}
