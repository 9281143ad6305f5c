/**
 * The page loop of the scraper: pages 1, 2, ... up to the requested count
 * are fetched in turn, every item of a page becomes one listing appended to
 * the accumulator, and the loop stops early at the first page whose fetch
 * fails or which has no items.
 *
 * Fetching and parsing one page is abstracted as `server(page)`, the outcome
 * the site gives for that page number. The courtesy delay before each
 * request and the request headers are not modelled.
 */
module Pages {
  import opened Listings

  /** The outcome of fetching and parsing one results page: a transport or
      HTTP error, or the item boxes found on it in document order. */
  datatype PageOutcome = Failed | Fetched(items: seq<Item>)

  /** An outcome after which no further page is requested. */
  predicate Stops(o: PageOutcome)
  {
    o.Failed? || o.items == []
  }

  /** The first page from `from` on, and not after `pages`, whose outcome
      stops the loop; `pages + 1` (at least `from`) when there is none. */
  function StopFrom(server: nat -> PageOutcome, from: nat, pages: int): (s: nat)
    requires from >= 1
    ensures from <= s
    ensures s <= pages ==> Stops(server(s))
    ensures s > pages ==> s == if from > pages then from else pages + 1
    ensures forall k :: from <= k < s ==> !Stops(server(k))
    decreases if from <= pages then pages - from + 1 else 0
  {
    if from > pages then from
    else if Stops(server(from)) then from
    else StopFrom(server, from + 1, pages)
  }

  /** The page at which a run asked for `pages` pages stops: the first
      failing or empty page, or one past the last page. */
  function StopPage(server: nat -> PageOutcome, pages: int): nat
  {
    StopFrom(server, 1, pages)
  }

  /** How many pages a run requests: every page up to and including the
      stop page, but never more than `pages`. */
  function Attempts(server: nat -> PageOutcome, pages: int): (a: nat)
    ensures a <= (if pages < 0 then 0 else pages)
    ensures pages >= 1 ==> a >= 1
    ensures forall k :: 1 <= k <= a ==> k == a || !Stops(server(k))
    ensures pages >= 1 ==> a == pages || Stops(server(a))
  {
    var s := StopPage(server, pages);
    if s <= pages then s else s - 1
  }

  /** The listings of the items of one page, in document order. */
  function ListingsOf(items: seq<Item>, isSpace: char -> bool): seq<Listing>
  {
    seq(|items|, i requires 0 <= i < |items| => ListingOf(items[i], isSpace))
  }

  /** The items of a page outcome (none for a failed fetch). */
  function ItemsOf(o: PageOutcome): seq<Item>
  {
    if o.Failed? then [] else o.items
  }

  /** The items of pages 1 to `n`, in page order and then in document order. */
  function ItemsThrough(server: nat -> PageOutcome, n: nat): seq<Item>
  {
    if n == 0 then [] else ItemsThrough(server, n - 1) + ItemsOf(server(n))
  }

  /** The listings accumulated from pages 1 to `n`. */
  function ListingsThrough(server: nat -> PageOutcome, n: nat, isSpace: char -> bool): seq<Listing>
  {
    if n == 0 then [] else ListingsThrough(server, n - 1, isSpace) + ListingsOf(ItemsOf(server(n)), isSpace)
  }

  /** The number of items on pages 1 to `n`. */
  function ItemCount(server: nat -> PageOutcome, n: nat): nat
  {
    if n == 0 then 0 else ItemCount(server, n - 1) + |ItemsOf(server(n))|
  }

  /** The listings a run collects: those of every page before the stop page. */
  function Collected(server: nat -> PageOutcome, pages: int, isSpace: char -> bool): seq<Listing>
  {
    ListingsThrough(server, StopPage(server, pages) - 1, isSpace)
  }

  /** Extending the items by one extends their listings by that item's listing. */
  lemma ListingsOfSnoc(items: seq<Item>, j: nat, isSpace: char -> bool)
    requires j < |items|
    ensures ListingsOf(items[..j + 1], isSpace) == ListingsOf(items[..j], isSpace) + [ListingOf(items[j], isSpace)]
  {
  }

  /** Requests pages 1 to `pages` in turn and accumulates their listings,
      stopping at the first page whose fetch fails or which has no items.
      `requested` is the sequence of page numbers asked for. */
  method ScrapePages(server: nat -> PageOutcome, pages: int, isSpace: char -> bool)
    returns (listings: seq<Listing>, requested: seq<nat>)
    ensures |requested| == Attempts(server, pages)
    ensures forall i :: 0 <= i < |requested| ==> requested[i] == i + 1
    ensures listings == Collected(server, pages, isSpace)
  {
    listings := [];
    requested := [];
    var page := 1;
    while page <= pages
      invariant 1 <= page <= StopPage(server, pages)
      invariant page <= pages + 1 || page == 1
      invariant |requested| == page - 1
      invariant forall i :: 0 <= i < |requested| ==> requested[i] == i + 1
      invariant listings == ListingsThrough(server, page - 1, isSpace)
    {
      requested := requested + [page];
      var outcome := server(page);
      if outcome.Failed? {
        assert page == StopPage(server, pages);
        break;
      }
      var items := outcome.items;
      if items == [] {
        assert page == StopPage(server, pages);
        break;
      }
      ghost var before := listings;
      for j := 0 to |items|
        invariant listings == before + ListingsOf(items[..j], isSpace)
      {
        var listing := BuildListing(items[j], isSpace);
        ListingsOfSnoc(items, j, isSpace);
        listings := listings + [listing];
      }
      assert items[..|items|] == items;
      page := page + 1;
    }
  }

  /** A run that meets its first failing or empty page `k` requests exactly
      pages 1 to `k` and keeps exactly the listings of pages 1 to `k - 1`. */
  lemma StopsAtFirstStoppingPage(server: nat -> PageOutcome, pages: int, k: nat, isSpace: char -> bool)
    requires 1 <= k <= pages && Stops(server(k))
    requires forall j :: 1 <= j < k ==> !Stops(server(j))
    ensures StopPage(server, pages) == k && Attempts(server, pages) == k
    ensures Collected(server, pages, isSpace) == ListingsThrough(server, k - 1, isSpace)
  {
  }

  /** What a run that stops at page `k` collects: one listing per item of
      pages 1 to `k - 1`, in order, as many as those pages had items. */
  lemma {:induction false} StoppedRunListings(server: nat -> PageOutcome, pages: int, k: nat, isSpace: char -> bool)
    requires 1 <= k && StopPage(server, pages) == k
    ensures Collected(server, pages, isSpace) == ListingsOf(ItemsThrough(server, k - 1), isSpace)
    ensures |Collected(server, pages, isSpace)| == ItemCount(server, k - 1)
  {
    assert Collected(server, pages, isSpace) == ListingsThrough(server, k - 1, isSpace);
    ListingsFollowItems(server, k - 1, isSpace);
    ListingCountIsItemCount(server, k - 1, isSpace);
  }

  /** When the fetch of page `k` fails, page `k` is the last one requested
      and the result holds exactly the listings of pages 1 to `k - 1`, as
      many as those pages had items. */
  lemma FailedFetchStops(server: nat -> PageOutcome, pages: int, k: nat, isSpace: char -> bool)
    requires 1 <= k <= pages && server(k).Failed?
    requires forall j :: 1 <= j < k ==> !Stops(server(j))
    ensures Attempts(server, pages) == k
    ensures Collected(server, pages, isSpace) == ListingsOf(ItemsThrough(server, k - 1), isSpace)
    ensures |Collected(server, pages, isSpace)| == ItemCount(server, k - 1)
  {
    StopsAtFirstStoppingPage(server, pages, k, isSpace);
    StoppedRunListings(server, pages, k, isSpace);
  }

  /** When page `k` has no items, page `k` is the last one requested and
      the listings of pages 1 to `k - 1` are kept. */
  lemma EmptyPageStops(server: nat -> PageOutcome, pages: int, k: nat, isSpace: char -> bool)
    requires 1 <= k <= pages && server(k) == Fetched([])
    requires forall j :: 1 <= j < k ==> !Stops(server(j))
    ensures Attempts(server, pages) == k
    ensures Collected(server, pages, isSpace) == ListingsOf(ItemsThrough(server, k - 1), isSpace)
    ensures |Collected(server, pages, isSpace)| == ItemCount(server, k - 1)
  {
    assert Stops(server(k));
    StopsAtFirstStoppingPage(server, pages, k, isSpace);
    StoppedRunListings(server, pages, k, isSpace);
  }

  /** A run in which no page fails or comes back empty requests every one
      of the `pages` pages and keeps the listings of all of them. */
  lemma FullRun(server: nat -> PageOutcome, pages: int, isSpace: char -> bool)
    requires pages >= 1
    requires forall k :: 1 <= k <= pages ==> !Stops(server(k))
    ensures StopPage(server, pages) == pages + 1 && Attempts(server, pages) == pages
    ensures Collected(server, pages, isSpace) == ListingsThrough(server, pages, isSpace)
  {
  }

  /** A run asked for no pages requests nothing and collects nothing. */
  lemma NoPagesNoRequests(server: nat -> PageOutcome, pages: int, isSpace: char -> bool)
    requires pages <= 0
    ensures StopPage(server, pages) == 1
    ensures Attempts(server, pages) == 0 && Collected(server, pages, isSpace) == []
  {
  }

  /** The listings of concatenated items are the concatenated listings. */
  lemma ListingsOfAppend(a: seq<Item>, b: seq<Item>, isSpace: char -> bool)
    ensures ListingsOf(a + b, isSpace) == ListingsOf(a, isSpace) + ListingsOf(b, isSpace)
  {
  }

  /** The listings of pages 1 to `n` are one listing per item, in page order
      and then in document order. */
  lemma {:induction false} ListingsFollowItems(server: nat -> PageOutcome, n: nat, isSpace: char -> bool)
    ensures ListingsThrough(server, n, isSpace) == ListingsOf(ItemsThrough(server, n), isSpace)
  {
    if n > 0 {
      ListingsFollowItems(server, n - 1, isSpace);
      ListingsOfAppend(ItemsThrough(server, n - 1), ItemsOf(server(n)), isSpace);
    }
  }

  /** Pages 1 to `n` give as many listings as they have items. */
  lemma {:induction false} ListingCountIsItemCount(server: nat -> PageOutcome, n: nat, isSpace: char -> bool)
    ensures |ListingsThrough(server, n, isSpace)| == ItemCount(server, n)
  {
    if n > 0 {
      ListingCountIsItemCount(server, n - 1, isSpace);
    }
  }

  /** Later pages only add listings: what pages 1 to `m` gave stays, unchanged,
      at the front of what pages 1 to `n` give. */
  lemma {:induction false} EarlierListingsKept(server: nat -> PageOutcome, m: nat, n: nat, isSpace: char -> bool)
    requires m <= n
    ensures ListingsThrough(server, m, isSpace) <= ListingsThrough(server, n, isSpace)
  {
    if m < n {
      EarlierListingsKept(server, m, n - 1, isSpace);
    }
  }

  /** The stop page depends only on the outcomes of the pages up to it. */
  lemma {:induction false} StopFromLocal(server: nat -> PageOutcome, other: nat -> PageOutcome, from: nat, pages: int)
    requires from >= 1
    requires forall k :: from <= k <= StopFrom(server, from, pages) && k <= pages ==> other(k) == server(k)
    ensures StopFrom(other, from, pages) == StopFrom(server, from, pages)
    decreases if from <= pages then pages - from + 1 else 0
  {
    if from <= pages && !Stops(server(from)) {
      StopFromLocal(server, other, from + 1, pages);
    }
  }

  /** The listings of pages 1 to `n` depend only on the outcomes of those pages. */
  lemma {:induction false} ListingsThroughLocal(server: nat -> PageOutcome, other: nat -> PageOutcome, n: nat, isSpace: char -> bool)
    requires forall k :: 1 <= k <= n ==> other(k) == server(k)
    ensures ListingsThrough(other, n, isSpace) == ListingsThrough(server, n, isSpace)
  {
    if n > 0 {
      ListingsThroughLocal(server, other, n - 1, isSpace);
    }
  }

  /** Nothing after the stop point matters: two sites that answer the same
      for every page a run requests give the same requests and the same
      listings, whatever they answer for later pages. */
  lemma NothingAfterStopMatters(server: nat -> PageOutcome, other: nat -> PageOutcome, pages: int, isSpace: char -> bool)
    requires forall k :: 1 <= k <= Attempts(server, pages) ==> other(k) == server(k)
    ensures Attempts(other, pages) == Attempts(server, pages)
    ensures Collected(other, pages, isSpace) == Collected(server, pages, isSpace)
  {
    StopFromLocal(server, other, 1, pages);
    ListingsThroughLocal(server, other, StopPage(server, pages) - 1, isSpace);
  }
}
