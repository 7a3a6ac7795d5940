/** Client-side pagination shared by the storefront (30 products a page) and
    the admin lists (15 rows a page): page count, the window shown for a
    page, prev/next clamping, the collapsed page-number bar, and how the
    page cursor settles after a render whose effects queue page updates.
 */
module Paging {
  import opened Seqs

  function Min(a: int, b: int): int { if a <= b then a else b }
  function Max(a: int, b: int): int { if a >= b then a else b }

  /** `Math.ceil(n / d)` for a positive divisor. */
  function CeilDiv(n: int, d: int): (r: int)
    requires d > 0
    ensures d * (r - 1) < n <= d * r
  {
    var q := (-n) / d;
    var m := (-n) % d;
    assert -n == d * q + m && 0 <= m < d;
    -q
  }

  /** `Math.max(1, Math.ceil(n / size))`: the least page count, at least one,
      whose pages hold `n` items. */
  function TotalPages(n: int, size: int): (t: int)
    requires size > 0
    ensures t >= 1
    ensures n <= t * size
    ensures t == 1 || (t - 1) * size < n
  {
    var c := CeilDiv(n, size);
    if c >= 1 then c else 1
  }

  /** The index of the first item of `page`: `(page - 1) * size`. */
  function PageStart(page: int, size: int): (start: int)
    requires size > 0
    ensures page >= 1 ==> start >= 0
    ensures page >= 1 ==> start + size == page * size
  {
    if page >= 1 then
      MulMonotone(0, page - 1, size);
      (page - 1) * size
    else
      (page - 1) * size
  }

  /** `list.slice((page - 1) * size, (page - 1) * size + size)`. */
  function PageSlice<T>(list: seq<T>, page: int, size: int): (r: seq<T>)
    requires size > 0
    ensures page >= 1 ==> |r| <= size
    ensures page >= 1 ==>
      r == list[Min(PageStart(page, size), |list|)..Min(PageStart(page, size) + size, |list|)]
  {
    var start := PageStart(page, size);
    if page >= 1 then
      JsSliceWindow(list, start, start + size);
      JsSlice(list, start, start + size)
    else
      JsSlice(list, start, start + size)
  }

  /** Pages `1..k` laid end to end. */
  function Pages<T>(list: seq<T>, k: nat, size: int): seq<T>
    requires size > 0
  {
    if k == 0 then [] else Pages(list, k - 1, size) + PageSlice(list, k, size)
  }

  lemma {:induction false} PagesPrefix<T>(list: seq<T>, k: nat, size: int)
    requires size > 0
    ensures Pages(list, k, size) == list[..Min(k * size, |list|)]
  {
    if k > 0 {
      PagesPrefix(list, k - 1, size);
      LastPage(list, k, size);
      var a, b := Min((k - 1) * size, |list|), Min(k * size, |list|);
      SliceJoin(list, a, b);
    }
  }

  /** Pages `1..k` are pages `1..k-1` followed by the slice of page `k`. */
  lemma LastPage<T>(list: seq<T>, k: nat, size: int)
    requires size > 0 && k > 0
    ensures (k - 1) * size <= k * size
    ensures Pages(list, k, size) ==
      Pages(list, k - 1, size) + list[Min((k - 1) * size, |list|)..Min(k * size, |list|)]
  {
    var start := PageStart(k, size);
    assert start == (k - 1) * size;
  }

  lemma SliceJoin<T>(list: seq<T>, a: int, b: int)
    requires 0 <= a <= b <= |list|
    ensures list[..a] + list[a..b] == list[..b]
  {
  }

  lemma MulMonotone(a: int, b: int, c: int)
    requires a <= b && c >= 0
    ensures a * c <= b * c
  {
  }

  /** For a page count computed by `TotalPages`, every in-range page is
      non-empty when there are items at all, each holds at most `size` items,
      and the pages `1..total` laid end to end give back the whole list. */
  lemma PagesCover<T>(list: seq<T>, size: int)
    requires size > 0
    ensures var t := TotalPages(|list|, size);
      && Pages(list, t, size) == list
      && (forall page :: 1 <= page <= t ==> |PageSlice(list, page, size)| <= size)
      && (forall page :: 1 <= page <= t && |list| > 0 ==> |PageSlice(list, page, size)| > 0)
  {
    var t := TotalPages(|list|, size);
    PagesPrefix(list, t, size);
    assert list[..|list|] == list;
    forall page | 1 <= page <= t && |list| > 0
      ensures |PageSlice(list, page, size)| > 0
    {
      MulMonotone(page - 1, t - 1, size);
    }
  }

  /** The prev button and the left arrow key: `Math.max(1, p - 1)`. */
  function Prev(page: int): (r: int)
    ensures r >= 1
    ensures page >= 1 ==> r <= page
    ensures page > 1 ==> r == page - 1
  {
    Max(1, page - 1)
  }

  /** The next button and the right arrow key: `Math.min(total, p + 1)`. */
  function Next(page: int, total: int): (r: int)
    ensures r <= total
    ensures page <= total ==> r >= page
    ensures page < total ==> r == page + 1
  {
    Min(total, page + 1)
  }

  /** Prev and next keep an in-range page in range. */
  lemma PrevNextStayInRange(page: int, total: int)
    requires 1 <= page <= total
    ensures 1 <= Prev(page) <= total
    ensures 1 <= Next(page, total) <= total
  {
  }

  /** Page updates queued during one commit (`setPage(v)` calls) applied in
      order: the last one wins. */
  function ApplyQueued(page: int, queued: seq<int>): int {
    if |queued| == 0 then page else queued[|queued| - 1]
  }

  /** The page after one render of a paged list: the reset effect queues
      `setPage(1)` when a filter changed, then the clamp effect, which still
      sees the page of that render, queues `setPage(total)` when the page is
      beyond the new page count. */
  function SettlePage(page: int, filtersChanged: bool, total: int): int {
    ApplyQueued(page,
      (if filtersChanged then [1] else []) + (if page > total then [total] else []))
  }

  /** After the effects, the page is in range: a filter change brings it to
      page 1 unless the old page lies beyond the new page count, in which
      case the clamp, queued last, wins and it lands on the last page. The
      next render queues nothing more. */
  lemma SettlePageInRange(page: int, filtersChanged: bool, total: int)
    requires page >= 1 && total >= 1
    ensures var r := SettlePage(page, filtersChanged, total);
      && 1 <= r <= total
      && (filtersChanged && page <= total ==> r == 1)
      && (page > total ==> r == total)
      && (!filtersChanged && page <= total ==> r == page)
      && SettlePage(r, false, total) == r
  {
  }

  datatype PageItem = Number(n: int) | Ellipsis

  /** The page buttons `lo, lo + 1, ..., hi`. */
  function Range(lo: int, hi: int): (r: seq<PageItem>)
    ensures |r| == if lo <= hi then hi - lo + 1 else 0
    ensures forall i :: 0 <= i < |r| ==> r[i] == Number(lo + i)
    decreases hi - lo
  {
    if lo > hi then [] else [Number(lo)] + Range(lo + 1, hi)
  }

  /** The page-number bar: every page when there are at most seven;
      otherwise the first page, an ellipsis when `page > leftGap`, the pages
      around `page`, an ellipsis when `page < total - rightGap`, and the last
      page. The storefront writes it with `leftGap == 4` and
      `rightGap == 3`. */
  function CollapsedNumbers(page: int, total: int, leftGap: int, rightGap: int): seq<PageItem> {
    if total <= 7 then Range(1, total)
    else Bar(Max(2, page - 1), Min(total - 1, page + 1), total, page > leftGap, page < total - rightGap)
  }

  /** `1`, an optional ellipsis, the window `lo..hi`, an optional ellipsis,
      `total`. */
  function Bar(lo: int, hi: int, total: int, left: bool, right: bool): (r: seq<PageItem>)
    ensures |r| == (if left then 2 else 1) + |Range(lo, hi)| + (if right then 1 else 0) + 1
  {
    [Number(1)] + (if left then [Ellipsis] else []) + Range(lo, hi)
    + (if right then [Ellipsis] else []) + [Number(total)]
  }

  /** Entry `i` of a bar, read by position. */
  lemma BarAt(lo: int, hi: int, total: int, left: bool, right: bool, i: int)
    requires 0 <= i < |Bar(lo, hi, total, left, right)|
    ensures var r := Bar(lo, hi, total, left, right);
      var m := if left then 2 else 1;
      var e := m + |Range(lo, hi)|;
      r[i] == if i == 0 then Number(1)
        else if i < m then Ellipsis
        else if i < e then Number(lo + i - m)
        else if i < |r| - 1 then Ellipsis
        else Number(total)
  {
  }

  /** `pageNumbers` as the storefront computes it. */
  function PageNumbers(page: int, total: int): seq<PageItem> {
    CollapsedNumbers(page, total, 4, 3)
  }

  /** `pageNumbers` with the ellipsis conditions that mark every hidden page. */
  function PageNumbersMarked(page: int, total: int): seq<PageItem> {
    CollapsedNumbers(page, total, 3, 2)
  }

  /** The numbers in the bar strictly increase from left to right. */
  predicate Increasing(r: seq<PageItem>) {
    forall i, j :: 0 <= i < j < |r| && r[i].Number? && r[j].Number? ==> r[i].n < r[j].n
  }

  /** Every page not shown sits behind an ellipsis: two adjacent numbers are
      consecutive pages, and an ellipsis stands between two numbers that are
      not. */
  predicate GapsMarked(r: seq<PageItem>) {
    && (forall i :: 0 <= i < |r| - 1 && r[i].Number? && r[i + 1].Number? ==> r[i + 1].n == r[i].n + 1)
    && (forall i :: 0 <= i < |r| && r[i].Ellipsis? ==>
          0 < i < |r| - 1 && r[i - 1].Number? && r[i + 1].Number? && r[i + 1].n > r[i - 1].n + 1)
  }

  /** With at most seven pages the bar lists them all. */
  lemma PageNumbersShort(page: int, total: int)
    requires total <= 7
    ensures PageNumbers(page, total) == Range(1, total)
    ensures forall p :: 1 <= p <= total ==> Number(p) in PageNumbers(page, total)
    ensures Increasing(PageNumbers(page, total)) && GapsMarked(PageNumbers(page, total))
  {
    var r := PageNumbers(page, total);
    forall p | 1 <= p <= total ensures Number(p) in r {
      assert r[p - 1] == Number(p);
    }
  }

  /** With more than seven pages, for an in-range page the bar starts with
      page 1, ends with the last page, has strictly increasing numbers,
      shows the current page and holds at most seven entries. */
  lemma CollapsedShape(page: int, total: int, leftGap: int, rightGap: int)
    requires 7 < total && 1 <= page <= total
    requires 2 <= leftGap <= 4 && 1 <= rightGap <= 3
    ensures var r := CollapsedNumbers(page, total, leftGap, rightGap);
      && |r| <= 7
      && r[0] == Number(1) && r[|r| - 1] == Number(total)
      && Increasing(r)
      && Number(page) in r
  {
    var r := CollapsedNumbers(page, total, leftGap, rightGap);
    var lo, hi := Max(2, page - 1), Min(total - 1, page + 1);
    var left, right := page > leftGap, page < total - rightGap;
    assert r == Bar(lo, hi, total, left, right);
    BarAt(lo, hi, total, left, right, 0);
    BarAt(lo, hi, total, left, right, |r| - 1);
    forall i, j | 0 <= i < j < |r| && r[i].Number? && r[j].Number?
      ensures r[i].n < r[j].n
    {
      BarAt(lo, hi, total, left, right, i);
      BarAt(lo, hi, total, left, right, j);
    }
    if page != 1 && page != total {
      var m := if left then 2 else 1;
      BarAt(lo, hi, total, left, right, m + page - lo);
    }
  }

  /** The storefront's bar has the promised shape. */
  lemma PageNumbersShape(page: int, total: int)
    requires 7 < total && 1 <= page <= total
    ensures var r := PageNumbers(page, total);
      && |r| <= 7
      && r[0] == Number(1) && r[|r| - 1] == Number(total)
      && Increasing(r)
      && Number(page) in r
  {
    CollapsedShape(page, total, 4, 3);
  }

  /** The storefront's bar can leave a page out without an ellipsis: on page
      4 of 8 it reads `1 3 4 5 ... 8`, so page 2 is neither shown nor
      marked. */
  lemma PageNumbersHidesUnmarkedPage()
    ensures PageNumbers(4, 8) == [Number(1), Number(3), Number(4), Number(5), Ellipsis, Number(8)]
    ensures !GapsMarked(PageNumbers(4, 8))
    ensures Number(2) !in PageNumbers(4, 8)
  {
    var r := PageNumbers(4, 8);
    assert Range(3, 5) == [Number(3), Number(4), Number(5)];
    assert r[0].Number? && r[1].Number? && r[1].n != r[0].n + 1;
  }

  /** For any in-range page, however many pages there are, the storefront's
      bar runs from the first page to the last in increasing order, shows
      the current page, and holds at most seven entries. */
  lemma PageNumbersComplete(page: int, total: int)
    requires 1 <= page <= total
    ensures var r := PageNumbers(page, total);
      && |r| <= 7
      && r[0] == Number(1) && r[|r| - 1] == Number(total)
      && Increasing(r)
      && Number(page) in r
  {
    if total <= 7 {
      PageNumbersShort(page, total);
    } else {
      PageNumbersShape(page, total);
    }
  }

  /** The storefront's bar marks every page it leaves out exactly when it
      lists all pages or the current page is neither the fourth nor the
      fourth from last: on page 4 it hides page 2 without an ellipsis, and
      on page `total - 3` it hides page `total - 1` likewise. */
  lemma PageNumbersGapsMarkedExactly(page: int, total: int)
    requires 1 <= page <= total
    ensures GapsMarked(PageNumbers(page, total)) <==> total <= 7 || (page != 4 && page != total - 3)
  {
    if total <= 7 {
      PageNumbersShort(page, total);
    } else {
      var lo, hi := Max(2, page - 1), Min(total - 1, page + 1);
      var left, right := page > 4, page < total - 3;
      var r := PageNumbers(page, total);
      assert r == Bar(lo, hi, total, left, right);
      if page == 4 {
        BarAt(lo, hi, total, left, right, 0);
        BarAt(lo, hi, total, left, right, 1);
        assert r[0] == Number(1) && r[1] == Number(3);
      } else if page == total - 3 {
        BarAt(lo, hi, total, left, right, |r| - 2);
        BarAt(lo, hi, total, left, right, |r| - 1);
        assert r[|r| - 2] == Number(total - 2) && r[|r| - 1] == Number(total);
      } else {
        BarGapsMarked(lo, hi, total, left, right);
      }
    }
  }

  /** A bar `1 [...] lo..hi [...] total` marks every hidden page when it has
      an ellipsis exactly where its neighbours are not consecutive. */
  lemma BarGapsMarked(lo: int, hi: int, total: int, left: bool, right: bool)
    requires 2 <= lo <= hi <= total - 1
    requires left <==> lo > 2
    requires right <==> hi < total - 1
    ensures GapsMarked(Bar(lo, hi, total, left, right))
  {
    var r := Bar(lo, hi, total, left, right);
    forall i | 0 <= i < |r| - 1 && r[i].Number? && r[i + 1].Number?
      ensures r[i + 1].n == r[i].n + 1
    {
      BarAt(lo, hi, total, left, right, i);
      BarAt(lo, hi, total, left, right, i + 1);
    }
    forall i | 0 <= i < |r| && r[i].Ellipsis?
      ensures 0 < i < |r| - 1 && r[i - 1].Number? && r[i + 1].Number? && r[i + 1].n > r[i - 1].n + 1
    {
      BarAt(lo, hi, total, left, right, i);
      BarAt(lo, hi, total, left, right, i - 1);
      BarAt(lo, hi, total, left, right, i + 1);
    }
  }

  /** The bar with the corrected conditions has the same shape and also
      marks every page it leaves out. */
  lemma PageNumbersMarkedShape(page: int, total: int)
    requires 7 < total && 1 <= page <= total
    ensures var r := PageNumbersMarked(page, total);
      && |r| <= 7
      && r[0] == Number(1) && r[|r| - 1] == Number(total)
      && Increasing(r)
      && Number(page) in r
      && GapsMarked(r)
  {
    CollapsedShape(page, total, 3, 2);
    BarGapsMarked(Max(2, page - 1), Min(total - 1, page + 1), total, page > 3, page < total - 2);
  }

  /** For any in-range page, however many pages there are, the corrected bar
      runs from the first page to the last in increasing order, shows the
      current page, and marks every page it leaves out. */
  lemma PageNumbersMarkedComplete(page: int, total: int)
    requires 1 <= page <= total
    ensures var r := PageNumbersMarked(page, total);
      && |r| <= 7
      && r[0] == Number(1) && r[|r| - 1] == Number(total)
      && Increasing(r)
      && Number(page) in r
      && GapsMarked(r)
  {
    if total <= 7 {
      PageNumbersShort(page, total);
    } else {
      PageNumbersMarkedShape(page, total);
    }
  }
}
