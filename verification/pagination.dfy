/** Fixed-size pages over an ordered list, the way every timeline is cut
    (Django's Paginator with the default options: empty first page
    allowed, no orphans). */
module Pagination {
  import opened Wrappers
  import opened Seqs

  /** Every timeline shows this many posts per page. */
  const PostsPerPage: nat := 12

  /** Number of pages for `n` items: the least `k` with `n <= k * 12`,
      but never fewer than one (an empty list has one empty page). */
  function NumPages(n: nat): (k: nat)
    ensures k >= 1
    ensures n <= k * PostsPerPage
    ensures k == 1 || (k - 1) * PostsPerPage < n
  {
    if n == 0 then 1 else (n + PostsPerPage - 1) / PostsPerPage
  }

  /** Page `number` (counted from 1) of `items`. */
  function Page<T>(items: seq<T>, number: nat): (r: seq<T>)
    requires 1 <= number <= NumPages(|items|)
    ensures |r| == Min(PostsPerPage, |items| - (number - 1) * PostsPerPage)
    ensures forall i | 0 <= i < |r| :: r[i] == items[(number - 1) * PostsPerPage + i]
  {
    items[(number - 1) * PostsPerPage .. Min(number * PostsPerPage, |items|)]
  }

  /** The page `get_page` serves for a request parameter: a missing or
      non-integer parameter (`None`) gives the first page, an integer out
      of range gives the last page. */
  function PageNumber(n: nat, requested: Option<int>): (k: nat)
    ensures 1 <= k <= NumPages(n)
    ensures requested.None? ==> k == 1
    ensures requested.Some? && 1 <= requested.value <= NumPages(n) ==> k == requested.value
    ensures requested.Some? && !(1 <= requested.value <= NumPages(n)) ==> k == NumPages(n)
  {
    match requested
    case None => 1
    case Some(v) => if 1 <= v <= NumPages(n) then v else NumPages(n)
  }

  /** The page served for a request parameter: the slice of `items`
      that page `PageNumber(|items|, requested)` covers, in list order. */
  function GetPage<T>(items: seq<T>, requested: Option<int>): (r: seq<T>)
    ensures |r| <= PostsPerPage
    ensures forall x | x in r :: x in items
    ensures var k := PageNumber(|items|, requested);
      && |r| == Min(PostsPerPage, |items| - (k - 1) * PostsPerPage)
      && forall i | 0 <= i < |r| :: r[i] == items[(k - 1) * PostsPerPage + i]
  {
    Page(items, PageNumber(|items|, requested))
  }

  /** The first page holds the first `min(12, n)` items; with
      `12 < n <= 24` the second page holds the remaining `n - 12`. */
  lemma PageSizes<T>(items: seq<T>)
    ensures |Page(items, 1)| == Min(PostsPerPage, |items|)
    ensures Page(items, 1) == items[..Min(PostsPerPage, |items|)]
    ensures PostsPerPage < |items| <= 2 * PostsPerPage ==>
      NumPages(|items|) == 2 && Page(items, 2) == items[PostsPerPage..]
  {
  }

  /** Every item appears on exactly the page its position puts it on, so
      the pages together are the whole list. */
  lemma ItemOnItsPage<T>(items: seq<T>, i: nat)
    requires i < |items|
    ensures 1 <= i / PostsPerPage + 1 <= NumPages(|items|)
    ensures i % PostsPerPage < |Page(items, i / PostsPerPage + 1)|
    ensures Page(items, i / PostsPerPage + 1)[i % PostsPerPage] == items[i]
  {
  }
}
