/** Paging through the release list: request a page of `PerPage` releases,
    keep going while the last page came back full, and concatenate the pages.
    `Crawl` is the outcome of that loop when at most `budget` requests may be
    sent; it is parameterised by which page number the k-th request asks for,
    so that the loop as written (always page 1) and the evidently intended
    loop (pages 1, 2, 3, ...) can be compared. */
module Pagination {
  import opened Wrappers
  import opened Records

  /** The page number sent with each request. */
  datatype Schedule =
    | AlwaysFirstPage  // every request asks for page 1
    | NextPage         // the k-th request (from 0) asks for page k + 1

  function PageFor(s: Schedule, k: nat): nat
  {
    match s
    case AlwaysFirstPage => 1
    case NextPage => k + 1
  }

  /** Puts the releases of earlier pages in front of a later outcome. */
  function Glue(prefix: seq<Release>, r: Result<seq<Release>, FeedError>): Result<seq<Release>, FeedError>
  {
    match r
    case Ok(rest) => Ok(prefix + rest)
    case Err(e) => Err(e)
  }

  lemma GlueNothing(r: Result<seq<Release>, FeedError>)
    ensures Glue([], r) == r
  {
    if r.Ok? {
      assert [] + r.value == r.value;
    }
  }

  lemma GlueGlue(a: seq<Release>, b: seq<Release>, r: Result<seq<Release>, FeedError>)
    ensures Glue(a, Glue(b, r)) == Glue(a + b, r)
  {
    if r.Ok? {
      assert a + (b + r.value) == (a + b) + r.value;
    }
  }

  /** The releases gathered from the k-th request on, with at most `budget`
      more requests. The paging fails only on a transport failure or the
      request limit. */
  function Crawl(list: Lister, s: Schedule, k: nat, budget: nat): (r: Result<seq<Release>, FeedError>)
    ensures r.Err? ==> r.error.Transport? || r.error == RequestLimitReached
    decreases budget
  {
    if budget == 0 then Err(RequestLimitReached)
    else
      match list(PageQuery(PageFor(s, k), PerPage))
      case Err(e) => Err(Transport(e))
      case Ok(items) =>
        if |items| == PerPage then Glue(items, Crawl(list, s, k + 1, budget - 1))
        else Ok(items)
  }

  /** The releases of the k-th request, when it succeeds. */
  function PageAt(list: Lister, s: Schedule, j: nat): seq<Release>
  {
    match list(PageQuery(PageFor(s, j), PerPage))
    case Ok(items) => items
    case Err(_) => []
  }

  /** The releases of `n` requests from the k-th on, concatenated. */
  function Joined(list: Lister, s: Schedule, k: nat, n: nat): seq<Release>
    decreases n
  {
    if n == 0 then [] else PageAt(list, s, k) + Joined(list, s, k + 1, n - 1)
  }

  /** The `n` requests from the k-th on all succeed, all but the last return
      a full page and the last returns a short one. */
  ghost predicate FullThenShort(list: Lister, s: Schedule, k: nat, n: nat)
  {
    1 <= n
    && (forall j :: k <= j < k + n ==> list(PageQuery(PageFor(s, j), PerPage)).Ok?)
    && (forall j :: k <= j < k + n - 1 ==> |PageAt(list, s, j)| == PerPage)
    && |PageAt(list, s, k + n - 1)| != PerPage
  }

  /** Paging goes on exactly while the last page was full: when the first
      short page is the n-th, the outcome is the n pages concatenated, or the
      request limit when `n` requests are not allowed. */
  lemma {:induction false} CrawlStopsAtFirstShortPage(list: Lister, s: Schedule, k: nat, budget: nat, n: nat)
    requires FullThenShort(list, s, k, n)
    ensures Crawl(list, s, k, budget) == if n <= budget then Ok(Joined(list, s, k, n)) else Err(RequestLimitReached)
    decreases budget
  {
    if budget > 0 {
      assert list(PageQuery(PageFor(s, k), PerPage)).Ok?;
      if n == 1 {
        var items := list(PageQuery(PageFor(s, k), PerPage)).value;
        assert PageAt(list, s, k) == items;
        assert |PageAt(list, s, k + n - 1)| != PerPage;
        assert Crawl(list, s, k, budget) == Ok(items);
        assert Joined(list, s, k, 1) == items + Joined(list, s, k + 1, 0);
        assert items + Joined(list, s, k + 1, 0) == items;
      } else {
        var items := list(PageQuery(PageFor(s, k), PerPage)).value;
        assert PageAt(list, s, k) == items && |items| == PerPage;
        assert FullThenShort(list, s, k + 1, n - 1);
        CrawlStopsAtFirstShortPage(list, s, k + 1, budget - 1, n - 1);
        assert Joined(list, s, k, n) == items + Joined(list, s, k + 1, n - 1);
      }
    }
  }

  /** A successful crawl is always the concatenation of full pages ended by
      one short page. */
  lemma {:induction false} CrawlIsConcatenation(list: Lister, s: Schedule, k: nat, budget: nat)
    requires Crawl(list, s, k, budget).Ok?
    ensures exists n: nat :: n <= budget && FullThenShort(list, s, k, n)
                        && Crawl(list, s, k, budget).value == Joined(list, s, k, n)
    decreases budget
  {
    var items := list(PageQuery(PageFor(s, k), PerPage)).value;
    if |items| == PerPage {
      CrawlIsConcatenation(list, s, k + 1, budget - 1);
      var n: nat :| n <= budget - 1 && FullThenShort(list, s, k + 1, n)
               && Crawl(list, s, k + 1, budget - 1).value == Joined(list, s, k + 1, n);
      assert FullThenShort(list, s, k, n + 1);
    } else {
      assert Joined(list, s, k, 1) == items;
      assert FullThenShort(list, s, k, 1);
    }
  }

  /** As written, every request asks for page 1: a full first page is asked
      for again and again, so the loop never ends (here: it exhausts any
      request limit), and otherwise the first page is all that is gathered. */
  lemma {:induction false} AsWrittenCrawlRepeatsFirstPage(list: Lister, k: nat, budget: nat)
    requires 1 <= budget
    ensures Crawl(list, AlwaysFirstPage, k, budget) ==
      match list(PageQuery(1, PerPage))
      case Err(e) => Err(Transport(e))
      case Ok(items) => if |items| == PerPage then Err(RequestLimitReached) else Ok(items)
    decreases budget
  {
    if budget > 1 {
      AsWrittenCrawlRepeatsFirstPage(list, k + 1, budget - 1);
    }
  }

  /** Page `p` (from 1) of a feed holding `all` releases, `PerPage` a page. */
  function FeedPage(all: seq<Release>, p: nat): seq<Release>
    requires 1 <= p
  {
    var lo := if (p - 1) * PerPage <= |all| then (p - 1) * PerPage else |all|;
    var hi := if p * PerPage <= |all| then p * PerPage else |all|;
    all[lo..hi]
  }

  /** Asking for pages 1, 2, 3, ... of a feed of N releases gathers all N of
      them in feed order with exactly N / PerPage + 1 requests (the last one
      returns the short, possibly empty, page), and fails with the request
      limit when fewer are allowed. */
  lemma {:induction false} NextPageCrawlCollectsFeed(list: Lister, all: seq<Release>, k: nat, budget: nat)
    requires forall p :: 1 <= p ==> list(PageQuery(p, PerPage)) == Ok(FeedPage(all, p))
    requires k * PerPage <= |all|
    ensures Crawl(list, NextPage, k, budget) ==
      if budget >= |all| / PerPage + 1 - k then Ok(all[k * PerPage..]) else Err(RequestLimitReached)
    decreases budget
  {
    var items := FeedPage(all, k + 1);
    assert list(PageQuery(PageFor(NextPage, k), PerPage)) == Ok(items);
    if (k + 1) * PerPage <= |all| {
      assert k + 1 <= |all| / PerPage;
      assert items == all[k * PerPage..(k + 1) * PerPage];
      if budget > 0 {
        NextPageCrawlCollectsFeed(list, all, k + 1, budget - 1);
        assert all[k * PerPage..] == items + all[(k + 1) * PerPage..];
      }
    } else {
      assert |all| / PerPage == k;
      assert items == all[k * PerPage..];
    }
  }
}
