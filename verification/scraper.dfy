/**
 * `scrape_olx` as a whole: the search URL derived from the query, the page
 * loop, and what is saved at the end. Writing the files is not modelled:
 * the result says which files would be written, at which path, with which
 * records, and (for CSV) with which header.
 */
module Scraper {
  import opened Wrappers
  import Text
  import opened Listings
  import opened Pages

  /** The search URL up to the query segment. */
  const SearchPrefix: string := "https://www.olx.in/items/q-"

  /** The directory the output files are written to. */
  const OutputDir: string := "olx_results"

  /** The query as a URL path segment: every space becomes `-`. */
  function SearchSegment(query: string): (r: string)
    ensures |r| == |query| && ' ' !in r
    ensures forall i :: 0 <= i < |query| && query[i] != ' ' ==> r[i] == query[i]
    ensures forall i :: 0 <= i < |query| && query[i] == ' ' ==> r[i] == '-'
  {
    Text.ReplaceChar(query, ' ', '-')
  }

  /** The URL every page request is made against (with `?page=N` added). */
  function BaseUrl(query: string): string
  {
    SearchPrefix + SearchSegment(query)
  }

  /** The stem of the output file names: every space becomes `_`. */
  function FileStem(query: string): (r: string)
    ensures |r| == |query| && ' ' !in r
    ensures forall i :: 0 <= i < |query| && query[i] != ' ' ==> r[i] == query[i]
    ensures forall i :: 0 <= i < |query| && query[i] == ' ' ==> r[i] == '_'
  {
    Text.ReplaceChar(query, ' ', '_')
  }

  function JsonPath(query: string): string
  {
    OutputDir + "/" + FileStem(query) + "_listings.json"
  }

  function CsvPath(query: string): string
  {
    OutputDir + "/" + FileStem(query) + "_listings.csv"
  }

  /** Formats for which the JSON file is written. */
  predicate WritesJson(format: string)
  {
    format == "json" || format == "both"
  }

  /** Formats for which the CSV file is written. */
  predicate WritesCsv(format: string)
  {
    format == "csv" || format == "both"
  }

  /** One page request: the base URL and the page number of its query string. */
  datatype Request = Get(baseUrl: string, page: nat)

  /** A file the run writes: a JSON array of the listings, or a CSV table
      with a header row of field names and one row per listing. */
  datatype OutputFile =
    | JsonFile(path: string, records: seq<Listing>)
    | CsvFile(path: string, fieldnames: seq<string>, rows: seq<Listing>)

  /** Every listing a run collects has the five listing keys, in order. */
  lemma {:induction false} CollectedListingsComplete(server: nat -> PageOutcome, n: nat, isSpace: char -> bool)
    ensures forall l :: l in ListingsThrough(server, n, isSpace) ==> Keys(l) == ListingKeys
  {
    ListingsFollowItems(server, n, isSpace);
    var items := ItemsThrough(server, n);
    forall l | l in ListingsThrough(server, n, isSpace) ensures Keys(l) == ListingKeys {
      var i :| 0 <= i < |items| && l == ListingsOf(items, isSpace)[i];
      ListingFields(items[i], isSpace);
    }
  }

  /**
   * Scrapes up to `pages` result pages for `query`, then decides what to
   * save. With no listings collected nothing is written and `None` is
   * returned; otherwise the JSON file is written for format `json` or
   * `both`, the CSV file for `csv` or `both`, and the listings are returned.
   */
  method ScrapeOlx(query: string, pages: int, format: string, server: nat -> PageOutcome, isSpace: char -> bool)
    returns (result: Option<seq<Listing>>, requests: seq<Request>, files: seq<OutputFile>)
    ensures |requests| == Attempts(server, pages)
    ensures forall i :: 0 <= i < |requests| ==> requests[i] == Get(BaseUrl(query), i + 1)
    ensures result.None? <==> Collected(server, pages, isSpace) == []
    ensures result.Some? ==> result.value == Collected(server, pages, isSpace)
    ensures result.None? ==> files == []
    ensures JsonFile(JsonPath(query), Collected(server, pages, isSpace)) in files
      <==> result.Some? && WritesJson(format)
    ensures CsvFile(CsvPath(query), ListingKeys, Collected(server, pages, isSpace)) in files
      <==> result.Some? && WritesCsv(format)
    ensures |files| == (if result.Some? && WritesJson(format) then 1 else 0)
                     + (if result.Some? && WritesCsv(format) then 1 else 0)
    ensures |files| == 2 ==> files[0].JsonFile? && files[1].CsvFile?
  {
    var baseUrl := BaseUrl(query);
    var all, pagesRequested := ScrapePages(server, pages, isSpace);
    requests := seq(|pagesRequested|, i requires 0 <= i < |pagesRequested| => Get(baseUrl, pagesRequested[i]));

    files := [];
    if all == [] {
      result := None;
      return;
    }
    if WritesJson(format) {
      files := files + [JsonFile(JsonPath(query), all)];
    }
    if WritesCsv(format) {
      CollectedListingsComplete(server, StopPage(server, pages) - 1, isSpace);
      assert all[0] in all;
      var fieldnames := Keys(all[0]);
      files := files + [CsvFile(CsvPath(query), fieldnames, all)];
    }
    result := Some(all);
  }

  /** The items of the first page of a worked example: two ads, the
      second of which shows no price, no `href` and no image. */
  function BikeItems(): seq<Item>
  {
    [ Item(Some("Hero bike "), Some(" 5000"), Some("Pune"), Some(Anchor(Some("/item/1"))), Some(Image(Some("a.jpg")))),
      Item(Some("Old bike"), None, Some("Goa"), Some(Anchor(None)), None) ]
  }

  /** The site of the worked example: page 1 has `BikeItems`, every later page is empty. */
  function BikeSite(page: nat): PageOutcome
  {
    if page == 1 then Fetched(BikeItems()) else Fetched([])
  }

  /** The space character as the only whitespace. */
  predicate IsBlank(c: char)
  {
    c == ' '
  }

  /** The worked example with two pages asked for: both pages are
      requested and the two ads of page 1 are collected, the missing price
      and `href` as the sentinel and the title stripped. */
  lemma BikeScenario()
    ensures Attempts(BikeSite, 2) == 2
    ensures |Collected(BikeSite, 2, IsBlank)| == 2
    ensures Lookup(Collected(BikeSite, 2, IsBlank)[0], "title") == Some("Hero bike")
    ensures Lookup(Collected(BikeSite, 2, IsBlank)[1], "price") == Some(NotAvailable)
    ensures Lookup(Collected(BikeSite, 2, IsBlank)[1], "url") == Some(NotAvailable)
  {
    var items := BikeItems();
    EmptyPageStops(BikeSite, 2, 2, IsBlank);
    assert ItemsThrough(BikeSite, 1) == items;
    var c := Collected(BikeSite, 2, IsBlank);
    assert c[0] == ListingOf(items[0], IsBlank);
    assert c[1] == ListingOf(items[1], IsBlank);
    ListingFields(items[0], IsBlank);
    ListingFields(items[1], IsBlank);
    BikeTitleStripped();
  }

  /** Stripping removes the trailing blank of the first ad's title. */
  lemma BikeTitleStripped()
    ensures Text.Strip("Hero bike ", IsBlank) == "Hero bike"
  {
  }

  /** The output files of the query "bike" are named after it. */
  lemma BikePaths()
    ensures JsonPath("bike") == "olx_results/bike_listings.json"
    ensures CsvPath("bike") == "olx_results/bike_listings.csv"
  {
  }
}
