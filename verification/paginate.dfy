/**
 * Django's `Paginator(items, 5).get_page(number)` as both list views use it:
 * no orphans, an empty first page allowed.
 */
module Paginate {
  import opened Basics

  const PerPage: nat := 5

  /** `num_pages`: ceil(max(1, count) / 5). */
  function NumPages(count: nat): (n: nat)
    ensures n >= 1
    ensures count <= n * PerPage
    ensures n == 1 || (n - 1) * PerPage < count
  {
    var hits := if count < 1 then 1 else count;
    (hits + PerPage - 1) / PerPage
  }

  /**
   * `get_page`: a missing or non-integer number (None) gives page 1; a number
   * outside 1..num_pages gives the last page.
   */
  function PageNumber(count: nat, requested: Option<int>): (k: nat)
    ensures 1 <= k <= NumPages(count)
    ensures requested.Some? && 1 <= requested.value <= NumPages(count) ==> k == requested.value
  {
    match requested
    case None => 1
    case Some(n) => if 1 <= n <= NumPages(count) then n else NumPages(count)
  }

  /** Page `k` (1-based): the items from (k-1)*5 up to, not past, k*5. */
  function PageOf<T>(items: seq<T>, k: nat): (page: seq<T>)
    requires 1 <= k <= NumPages(|items|)
    ensures |page| <= PerPage
    ensures k < NumPages(|items|) ==> |page| == PerPage
    ensures forall x :: x in page ==> x in items
  {
    var lo := (k - 1) * PerPage;
    var hi := if k * PerPage < |items| then k * PerPage else |items|;
    items[lo..hi]
  }

  /** Pages k, k+1, ..., num_pages laid end to end. */
  function PagesFrom<T>(items: seq<T>, k: nat): seq<T>
    requires 1 <= k <= NumPages(|items|) + 1
    decreases NumPages(|items|) + 1 - k
  {
    if k == NumPages(|items|) + 1 then [] else PageOf(items, k) + PagesFrom(items, k + 1)
  }

  lemma {:induction false} PagesFromIsSuffix<T>(items: seq<T>, k: nat)
    requires 1 <= k <= NumPages(|items|)
    ensures PagesFrom(items, k) == items[(k - 1) * PerPage..]
    decreases NumPages(|items|) - k
  {
    var n := NumPages(|items|);
    if k == n {
      assert PagesFrom(items, k + 1) == [];
    } else {
      PagesFromIsSuffix(items, k + 1);
      assert PageOf(items, k) == items[(k - 1) * PerPage..k * PerPage];
      assert items[(k - 1) * PerPage..] == items[(k - 1) * PerPage..k * PerPage] + items[k * PerPage..];
    }
  }

  /** Reading every page in turn yields the whole list once, in order. */
  lemma PagesCoverAll<T>(items: seq<T>)
    ensures PagesFrom(items, 1) == items
  {
    PagesFromIsSuffix(items, 1);
  }

  lemma {:induction false} InPagesFrom<T>(items: seq<T>, k: nat, x: T)
    requires 1 <= k <= NumPages(|items|) + 1
    requires x in PagesFrom(items, k)
    ensures exists j :: k <= j <= NumPages(|items|) && x in PageOf(items, j)
    decreases NumPages(|items|) + 1 - k
  {
    if k <= NumPages(|items|) && x !in PageOf(items, k) {
      InPagesFrom(items, k + 1, x);
    }
  }

  /** An item is in the list exactly when it is on one of the pages 1..num_pages. */
  lemma OnSomePage<T>(items: seq<T>, x: T)
    ensures x in items <==> exists k :: 1 <= k <= NumPages(|items|) && x in PageOf(items, k)
  {
    PagesCoverAll(items);
    if x in items {
      InPagesFrom(items, 1, x);
    }
  }
}
