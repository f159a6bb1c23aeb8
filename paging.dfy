/**
 * Pagination of the filtered feed: the page count, the visible window of a
 * page, and the guarded moves to the next and previous page.
 */
module Paging {
  import opened JsBuiltins

  /** `itemsPerPage`. */
  const ItemsPerPage: nat := 15

  /** `Math.ceil(n / itemsPerPage)` for a list of `n` articles. */
  function TotalPages(n: nat): (t: nat)
    ensures t * ItemsPerPage >= n
    ensures t > 0 ==> (t - 1) * ItemsPerPage < n
    ensures t == 0 <==> n == 0
  {
    (n + ItemsPerPage - 1) / ItemsPerPage
  }

  /** `currentArticles`: with `last = page * itemsPerPage` and
      `first = last - itemsPerPage`, the slice `articles.slice(first, last)`. */
  function PageSlice<T>(s: seq<T>, page: int): (r: seq<T>)
    ensures |r| <= ItemsPerPage
  {
    var last := page * ItemsPerPage;
    Slice(s, last - ItemsPerPage, last)
  }

  /** Page `p` shows the articles at positions [(p - 1) * 15, p * 15), cut
      off at the end of the list. */
  lemma PageWindow<T>(s: seq<T>, p: int)
    requires p >= 1
    ensures PageSlice(s, p) == s[Min((p - 1) * ItemsPerPage, |s|)..Min(p * ItemsPerPage, |s|)]
    ensures forall i :: 0 <= i < |PageSlice(s, p)| ==> PageSlice(s, p)[i] == s[(p - 1) * ItemsPerPage + i]
  {
  }

  /** Every page up to the last is full; the last holds what remains, and is
      never empty. */
  lemma PageSizes<T>(s: seq<T>, p: int)
    requires 1 <= p <= TotalPages(|s|)
    ensures |PageSlice(s, p)| == if p < TotalPages(|s|) then ItemsPerPage else |s| - (p - 1) * ItemsPerPage
    ensures |PageSlice(s, p)| > 0
  {
    PageWindow(s, p);
  }

  /** A page past the last one is empty. */
  lemma PastLastPageEmpty<T>(s: seq<T>, p: int)
    requires p > TotalPages(|s|)
    ensures PageSlice(s, p) == []
  {
    PageWindow(s, p);
  }

  /** 42 articles make three pages: positions 0 to 14 first, and 30 to 41,
      twelve articles, last. */
  lemma FortyTwoArticles<T>(s: seq<T>)
    requires |s| == 42
    ensures TotalPages(|s|) == 3
    ensures PageSlice(s, 1) == s[0..15] && PageSlice(s, 3) == s[30..42]
    ensures |PageSlice(s, 3)| == 12
  {
    PageWindow(s, 1);
    PageWindow(s, 3);
  }

  /** Pages 1 to `k` one after the other. */
  function PagesUpTo<T>(s: seq<T>, k: nat): seq<T> {
    if k == 0 then [] else PagesUpTo(s, k - 1) + PageSlice(s, k)
  }

  lemma {:induction false} PagesUpToPrefix<T>(s: seq<T>, k: nat)
    ensures PagesUpTo(s, k) == s[..Min(k * ItemsPerPage, |s|)]
  {
    if k > 0 {
      PagesUpToPrefix(s, k - 1);
      PageWindow(s, k);
      var a, b := Min((k - 1) * ItemsPerPage, |s|), Min(k * ItemsPerPage, |s|);
      assert s[..b] == s[..a] + s[a..b];
    }
  }

  /** Reading the pages in order shows every article exactly once, in the
      order of the list. */
  lemma PagesCoverFeed<T>(s: seq<T>)
    ensures PagesUpTo(s, TotalPages(|s|)) == s
  {
    PagesUpToPrefix(s, TotalPages(|s|));
  }

  /** `handleNextPage`: move on only while a later page exists. */
  function NextPage(page: int, n: nat): int {
    if page < TotalPages(n) then page + 1 else page
  }

  /** `handlePreviousPage`: move back only from a page after the first. */
  function PreviousPage(page: int): int {
    if page > 1 then page - 1 else page
  }

  /** `currentPage` is at least 1, and at most the page count when there
      is a page at all; on an empty feed it is 1. */
  predicate PageInRange(page: int, n: nat) {
    1 <= page && (TotalPages(n) >= 1 ==> page <= TotalPages(n)) && (n == 0 ==> page == 1)
  }

  /** The next-page handler adds exactly one when a later page exists and
      otherwise leaves the page alone; on an empty feed it never moves. */
  lemma NextPageStep(page: int, n: nat)
    ensures NextPage(page, n) == page + 1 <==> page < TotalPages(n)
    ensures NextPage(page, n) != page + 1 ==> NextPage(page, n) == page
    ensures n == 0 && page >= 1 ==> NextPage(page, n) == page
  {
  }

  /** The previous-page handler subtracts exactly one from a page after the
      first and otherwise leaves the page alone. */
  lemma PreviousPageStep(page: int)
    ensures PreviousPage(page) == page - 1 <==> page > 1
    ensures PreviousPage(page) != page - 1 ==> PreviousPage(page) == page
  {
  }

  /** Both handlers keep the page in range. */
  lemma HandlersKeepRange(page: int, n: nat)
    requires PageInRange(page, n)
    ensures PageInRange(NextPage(page, n), n)
    ensures PageInRange(PreviousPage(page), n)
  {
  }

  /** Going back a page and then forward again returns to where one was. */
  lemma PreviousThenNext(page: int, n: nat)
    requires 1 < page <= TotalPages(n)
    ensures NextPage(PreviousPage(page), n) == page
  {
  }

  /** Going forward a page and then back again returns to where one was. */
  lemma NextThenPrevious(page: int, n: nat)
    requires 1 <= page < TotalPages(n)
    ensures PreviousPage(NextPage(page, n)) == page
  {
  }

  /** The Previous button is disabled when `currentPage === 1`. */
  predicate PreviousDisabled(page: int) {
    page == 1
  }

  /** The Next button is disabled when `currentPage >= Math.ceil(...)`. */
  predicate NextDisabled(page: int, n: nat) {
    page >= TotalPages(n)
  }

  /** On a page in range, a button is disabled exactly when its handler
      would do nothing. */
  lemma DisabledIffNoop(page: int, n: nat)
    requires page >= 1
    ensures PreviousDisabled(page) <==> PreviousPage(page) == page
    ensures NextDisabled(page, n) <==> NextPage(page, n) == page
  {
  }

  /** A click on one of the two pager buttons. */
  datatype PageEvent = NextClicked | PreviousClicked

  /** The page reached from `page` after the clicks `events`, in order, on a
      feed of `n` articles. */
  function Replay(page: int, n: nat, events: seq<PageEvent>): int
    decreases |events|
  {
    if events == [] then page
    else
      var p := if events[0] == NextClicked then NextPage(page, n) else PreviousPage(page);
      Replay(p, n, events[1..])
  }

  /** From the initial page 1, any sequence of clicks leaves the page in
      range. */
  lemma {:induction false} ReplayStaysInRange(page: int, n: nat, events: seq<PageEvent>)
    requires PageInRange(page, n)
    ensures PageInRange(Replay(page, n, events), n)
    decreases |events|
  {
    if events != [] {
      HandlersKeepRange(page, n);
      var p := if events[0] == NextClicked then NextPage(page, n) else PreviousPage(page);
      ReplayStaysInRange(p, n, events[1..]);
    }
  }

  /** Starting from `useState(1)`, no sequence of clicks takes the page
      below 1 or past the last page, and on an empty feed the page stays 1. */
  lemma ReplayFromFirstPage(n: nat, events: seq<PageEvent>)
    ensures Replay(1, n, events) >= 1
    ensures TotalPages(n) >= 1 ==> Replay(1, n, events) <= TotalPages(n)
    ensures n == 0 ==> Replay(1, n, events) == 1
  {
    ReplayStaysInRange(1, n, events);
  }
}
