/** The page arithmetic both result views use: the page count, the clamp of
    the current page, and the slice of the current page. The state holding
    `currentPage` and `totalPages` lives in the two controller classes. */
module Paging {

  /** `Math.ceil(n / perPage)`: the number of pages of `perPage` rows that
      `n` rows fill, zero for no rows. */
  function PageCount(n: nat, perPage: nat): (r: nat)
    requires perPage > 0
    ensures r == 0 <==> n == 0
    decreases n
  {
    if n == 0 then 0
    else if n <= perPage then 1
    else 1 + PageCount(n - perPage, perPage)
  }

  /** The page count is the ceiling of the quotient: the pages hold all `n`
      rows, and one page fewer would not. */
  lemma {:induction false} PageCountBounds(n: nat, perPage: nat)
    requires perPage > 0
    ensures n <= PageCount(n, perPage) * perPage
    ensures n > 0 ==> (PageCount(n, perPage) - 1) * perPage < n
    decreases n
  {
    if n > perPage {
      var r := PageCount(n - perPage, perPage);
      PageCountBounds(n - perPage, perPage);
      assert PageCount(n, perPage) * perPage == r * perPage + perPage;
      assert (PageCount(n, perPage) - 1) * perPage == r * perPage;
    }
  }

  /** The clamp after a page count is computed: a page past the last one
      becomes the last one (when there is one), and a page below 1 becomes 1. */
  function ClampPage(current: int, total: int): (r: int)
    ensures r >= 1
    ensures total > 0 ==> r <= total
    ensures 1 <= current && (current <= total || total <= 0) ==> r == current
  {
    var capped := if current > total && total > 0 then total else current;
    if capped < 1 then 1 else capped
  }

  /** Clamping a clamped page changes nothing. */
  lemma ClampIdempotent(current: int, total: int)
    ensures ClampPage(ClampPage(current, total), total) == ClampPage(current, total)
  {
  }

  function Min(a: int, b: int): int {
    if a < b then a else b
  }

  /** `items.slice(start, start + perPage)` with `start = (page - 1) * perPage`:
      the run of at most `perPage` rows beginning at `start`, empty when
      `start` is past the end. */
  function PageSlice<T>(items: seq<T>, page: int, perPage: nat): (r: seq<T>)
    requires page >= 1 && perPage > 0
    ensures |r| <= perPage
    ensures |r| == if (page - 1) * perPage >= |items| then 0 else Min(perPage, |items| - (page - 1) * perPage)
    ensures forall k :: 0 <= k < |r| ==> r[k] == items[(page - 1) * perPage + k]
  {
    var start := (page - 1) * perPage;
    if start >= |items| then [] else items[start..Min(start + perPage, |items|)]
  }

  /** Every row lies on exactly the page its position says: row `i` is entry
      `i % perPage` of page `i / perPage + 1`, and that page exists. */
  lemma PageOfRow<T>(items: seq<T>, perPage: nat, i: nat)
    requires perPage > 0 && i < |items|
    ensures 1 <= i / perPage + 1 <= PageCount(|items|, perPage)
    ensures i % perPage < |PageSlice(items, i / perPage + 1, perPage)|
    ensures PageSlice(items, i / perPage + 1, perPage)[i % perPage] == items[i]
  {
    var p, k := i / perPage, i % perPage;
    assert i == p * perPage + k && 0 <= k < perPage;
    var total := PageCount(|items|, perPage);
    PageCountBounds(|items|, perPage);
    assert p * perPage < total * perPage;
    MulCancelLess(p, total, perPage);
    assert ((p + 1) - 1) * perPage == p * perPage;
  }

  /** Cancelling a positive factor keeps a strict order. */
  lemma MulCancelLess(a: int, b: int, c: int)
    requires c > 0 && a * c < b * c
    ensures a < b
  {
    assert (b - a) * c > 0;
  }

  /** A non-empty list's last page holds at least one row. */
  lemma LastPageNonEmpty<T>(items: seq<T>, perPage: nat)
    requires perPage > 0 && |items| > 0
    ensures |PageSlice(items, PageCount(|items|, perPage), perPage)| > 0
  {
    PageCountBounds(|items|, perPage);
  }

  /** 41 rows at 20 a page make 3 pages, and the third holds one row. */
  lemma FortyOneRows<T>(items: seq<T>)
    requires |items| == 41
    ensures PageCount(41, 20) == 3
    ensures PageSlice(items, 3, 20) == [items[40]]
  {
  }
}
