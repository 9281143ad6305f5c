# OLX listing scraper — a verified model of `scrape_olx`

`scrape_olx` asks the OLX India site for result pages 1, 2, … of a search,
turns every item box on a page into a five-field listing record, and stops
at the first page whose request fails or which has no items. At the end it
writes the collected listings to a JSON file, a CSV file or both under
`olx_results/`, or writes nothing and returns `None` when nothing was
collected.

The model follows that function piece by piece:

- `text.dfy` (module `Text`): `str.replace` of one character and `str.strip`.
  The set of whitespace characters is a parameter `isSpace`.
- `listings.dfy` (module `Listings`): an item box as the optional parts the
  scraper selects from it, and the listing dict as its ordered entries.
  Dict assignment is `Put`. `BuildListing` fills the dict key by key, in a
  loop over the selectors, and is proved equal to the specification `ListingOf`.
- `pages.dfy` (module `Pages`): the page loop `ScrapePages`. It is an
  imperative method over the growing accumulator, with two early exits. It
  is proved equal to a specification: `StopPage` is the first failing or
  empty page, `Attempts` counts the requests, and `Collected` holds the
  listings of the pages before the stop page. Lemmas then state the stop
  policy, the count, the order, and that nothing after the stop point matters.
- `scraper.dfy` (module `Scraper`): the search URL, the output file names,
  the choice of files by format, the empty-result early return, and
  `ScrapeOlx` tying them together. It also has a worked example
  (query "bike", two pages, the second page empty).
- `wrappers.dfy`: `Option`.

Fetching and parsing one page is the parameter `server: nat -> PageOutcome`.
It gives the outcome for a page number: `Failed`, or `Fetched(items)` with
the item boxes in document order.

`pages` is an unconstrained integer, as in the code. A value of 0 or less
requests nothing, because `range(1, pages + 1)` is then empty. The output
format is an arbitrary string, as `scrape_olx` receives it. A format other
than `json`, `csv` and `both` writes no file but still returns the listings.

## Model

| member | source | states |
|---|---|---|
| `Text.ReplaceChar` | olx_scrapper.py:20 | same length; each occurrence of the old character is replaced and every other character kept; the old character no longer occurs |
| `Text.TrimStartSpec` | olx_scrapper.py:48 | left trimming removes a prefix made only of whitespace and leaves text that does not start with whitespace |
| `Text.TrimEndSpec` | olx_scrapper.py:48 | right trimming removes a suffix made only of whitespace and leaves text that does not end with whitespace |
| `Text.Strip` | olx_scrapper.py:48 | definition of `str.strip` (trim start, then trim end); its properties are stated by `Text.StripEnds`, `Text.StripIsCore`, `Text.StripEmptyIffBlank` and `Text.StripIdempotent` |
| `Text.StripEnds` | olx_scrapper.py:48 | a stripped text neither begins nor ends with whitespace |
| `Text.StripIsCore` | olx_scrapper.py:48 | the stripped text is a contiguous middle part `s[i..j]` of the input, and everything cut off on either side is whitespace |
| `Text.StripEmptyIffBlank` | olx_scrapper.py:48 | stripping gives the empty text exactly when the input is all whitespace |
| `Text.StripIdempotent` | olx_scrapper.py:48 | stripping twice equals stripping once |
| `Text.NoTrimAtNonSpace` | olx_scrapper.py:48 | text with no whitespace at either end is unchanged by strip |
| `Listings.Put` | olx_scrapper.py:48-52 | definition of dict assignment `d[key] = value`; its meaning is stated by `Listings.PutNewKeyAppends` and `Listings.PutExistingKeyReplaces` |
| `Listings.PutNewKeyAppends` | olx_scrapper.py:48-52 | assigning a key the dict lacks appends one entry at the end (insertion order) |
| `Listings.PutExistingKeyReplaces` | olx_scrapper.py:48-52 | assigning a key the dict has replaces that entry in place and leaves the others |
| `Listings.LookupAt` | olx_scrapper.py:48-52 | in a dict without repeated keys, looking up the key at position i gives the value at position i |
| `Listings.SelectorEntry` | olx_scrapper.py:41-48 | positions 0 to 2 of a listing hold the i-th selector's key and the stripped text selected by that selector, or "N/A" |
| `Listings.ListingOf` | olx_scrapper.py:40-52 | definition of the listing of one item, the reference for `Listings.BuildListing`; its keys and values are stated by `Listings.ListingFields` |
| `Listings.BuildListing` | olx_scrapper.py:40-52 | the key-by-key construction, a loop over the selectors followed by `url` and `image_url`, yields exactly the listing `ListingOf(item)` |
| `Listings.ListingFields` | olx_scrapper.py:40-52 | a listing has exactly the keys title, price, location, url, image_url in that order; each text field is the stripped text, or "N/A" when its element is missing; url is the origin followed by the href when there is an anchor with an href, else "N/A"; image_url is the raw src, else "N/A" |
| `Pages.StopFrom` | olx_scrapper.py:26-38 | the stop page is the first failing or empty page within the range; every page before it is fetched and non-empty; without one it is one past the last page |
| `Pages.Attempts` | olx_scrapper.py:26-38 | at most `pages` requests (none when `pages <= 0`), at least one when `pages >= 1`; every requested page before the last was fetched and non-empty, and the last is page `pages` or a failing or empty page |
| `Pages.FullRun` | olx_scrapper.py:26-56 | when no page in 1..pages fails or comes back empty, all `pages` pages are requested and the listings of every one of them are kept |
| `Pages.ScrapePages` | olx_scrapper.py:25-60 | the loop requests pages 1, 2, … in order, as many as `Attempts`, and returns exactly `Collected`: the listings of the pages before the stop page |
| `Pages.StopsAtFirstStoppingPage` | olx_scrapper.py:29-38 | if page k is the first failing or empty page, the run requests exactly pages 1..k and keeps the listings of pages 1..k-1 |
| `Pages.StoppedRunListings` | olx_scrapper.py:26-54 | a run stopping at page k collects one listing per item of pages 1..k-1, in page and then document order, as many as those pages had items |
| `Pages.FailedFetchStops` | olx_scrapper.py:29-60 | a failed fetch of page k ends the run: k requests, and the result is the listings of pages 1..k-1, unchanged and complete |
| `Pages.EmptyPageStops` | olx_scrapper.py:34-38 | an empty page k ends the run: k requests, and the listings of pages 1..k-1 are kept |
| `Pages.NoPagesNoRequests` | olx_scrapper.py:26 | with `pages <= 0` nothing is requested and nothing collected |
| `Pages.ListingsFollowItems` | olx_scrapper.py:39-54 | the listings of pages 1..n are the listings of their items concatenated in page order, then document order |
| `Pages.ListingCountIsItemCount` | olx_scrapper.py:39-54 | pages 1..n give exactly as many listings as they have items |
| `Pages.EarlierListingsKept` | olx_scrapper.py:54 | later pages only append: the listings of pages 1..m are a prefix of those of pages 1..n for m <= n |
| `Pages.StopFromLocal` | olx_scrapper.py:26-38 | the stop page depends only on the outcomes of the pages up to it |
| `Pages.ListingsThroughLocal` | olx_scrapper.py:26-54 | the listings of pages 1..n depend only on those pages' outcomes |
| `Pages.NothingAfterStopMatters` | olx_scrapper.py:26-60 | two sites that agree on every requested page give the same requests and the same result, whatever they answer afterwards |
| `Scraper.SearchSegment` | olx_scrapper.py:20 | the search segment has the query's length, contains no space, has `-` where the query has a space, and keeps every other character |
| `Scraper.BaseUrl` | olx_scrapper.py:20 | definition: the search prefix followed by the search segment; the segment's properties are stated by `Scraper.SearchSegment`, and `Scraper.ScrapeOlx` states that every request uses this URL |
| `Scraper.FileStem` | olx_scrapper.py:71 | the file stem has the query's length, contains no space, has `_` where the query has a space, and keeps every other character |
| `Scraper.JsonPath` | olx_scrapper.py:71 | definition: `olx_results/` + file stem + `_listings.json`; `Scraper.BikePaths` shows it on an example, and `Scraper.FileStem` states the stem's properties |
| `Scraper.CsvPath` | olx_scrapper.py:77 | definition: `olx_results/` + file stem + `_listings.csv`; `Scraper.BikePaths` shows it on an example |
| `Scraper.WritesJson` | olx_scrapper.py:70 | definition: the format is `json` or `both`; `Scraper.ScrapeOlx` states that the JSON file is written iff it holds and something was collected |
| `Scraper.WritesCsv` | olx_scrapper.py:76 | definition: the format is `csv` or `both`; `Scraper.ScrapeOlx` states that the CSV file is written iff it holds and something was collected |
| `Scraper.CollectedListingsComplete` | olx_scrapper.py:80 | every collected listing has the five keys in order, so the CSV header taken from the first listing fits every row |
| `Scraper.ScrapeOlx` | olx_scrapper.py:11-85 | requests go to the base URL for pages 1..Attempts in order; `None` and no file exactly when nothing was collected; otherwise the listings are returned, the JSON file is written iff the format is json or both, the CSV file (header = the five keys) iff csv or both, and JSON comes before CSV |
| `Scraper.BikeScenario` | olx_scrapper.py:25-56 | a two-page run whose second page is empty makes two requests and collects the two ads of page 1; a missing price or href becomes "N/A" and a title is stripped |
| `Scraper.BikePaths` | olx_scrapper.py:70-77 | the query "bike" is saved to `olx_results/bike_listings.json` and `olx_results/bike_listings.csv` |

## Left out

- HTTP requests, the User-Agent header, `raise_for_status` and the random 1–2 second sleep before each request (olx_scrapper.py:21-23, 30-32). These are network I/O, randomness and time. A page's fetch is the abstract outcome `server(page)`.
- The text of the page URL: a request is modelled as `Get(baseUrl, page)`. The decimal rendering of `?page=N` is not modelled.
- HTML parsing and CSS selection (olx_scrapper.py:33-34, 47, 49, 51). These belong to BeautifulSoup. An item box is given as its optional title, price and location texts, its first anchor with an optional `href` and its first image with an optional `src`.
- Only `requests.exceptions.RequestException` ends the loop (the `Failed` outcome). Any other exception raised while parsing would leave `scrape_olx`; the model has no outcome for it.
- JSON and CSV serialisation, directory creation and file writing (olx_scrapper.py:67-83). The model says which files would be written, with which records and CSV header, and under which path string.
- Scraper.JsonPath, Scraper.CsvPath: the path is plain string concatenation `olx_results/` + stem + suffix. pathlib's `/` is not modelled. That operator drops the directory when the stem is absolute (a query starting with `/`) and treats a `/` inside the query as a subdirectory.
- Scraper.ScrapeOlx: a file write that fails is not modelled. The contract promises the result and the planned files even when opening the file would raise. This happens for a query containing `/`, whose subdirectory of `olx_results` is never created, and the exception would then leave `scrape_olx`.
- Console output and the command-line interface in `main` (olx_scrapper.py:27, 37, 56, 59, 64, 74, 83, 87-96).
- `Text.Strip`: Python's `str.strip` uses Unicode whitespace. Here whitespace is whatever predicate `isSpace` is passed in.
