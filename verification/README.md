# OLX rental scraper: incremental synchronisation, modelled in Dafny

The scraper walks the OLX listing API page by page and turns each listing into
an `Offer`. It drops offers whose URL was already seen in the batch. Offers
created today whose URL is not in the stored table become new rows after the
stored ones. Every row without a `rented_at` date is then re-checked against
the per-offer status endpoint. A row whose status is non-empty and not
`"active"` is marked as rented today.

The model follows the program file by file:

| file | module | source |
|---|---|---|
| `wrappers.dfy` | `Wrappers` | `Option` and `Result` |
| `offer.dfy` | `Offers` | the `Offer` record (`scraper/offer.py`) |
| `table.dfy` | `Table` | a row of the stored table and an opaque calendar `Date` |
| `utils.dfy` | `Utils` | `is_valid_url`, `remove_duplicate_offers` (`scraper/utils.py`) |
| `olx.dfy` | `Olx` | `OLX.get_next_page_url`, `OLX.scrape` (`scraper/olx.py`) |
| `status.dfy` | `RentedStatus` | `fetch_status`, `check_offer`, `update_rented_status` (`scraper/main.py`) |
| `merge.dfy` | `Merge` | the new-offer loop and merge of `main`, and one whole run (`scraper/main.py`) |

Each loop of the program is a method that carries loop invariants. It is
proved equal to a specification function, and lemmas then state what the
program promises about that function:

- The de-duplication pass returns `Dedup(offers)` and the removed count.
- The param scan, the per-page loop and the page walk return `ScanParams`, `ScrapePage` and `ScrapeFrom`.
- The retry loop's result is described by the first successful attempt.
- The new-offer loop returns `NewRows`.
- The in-place table update (an `array` of rows, modified in place) leaves `MarkRented` of the old table.

How the outside world is represented:

- **The listing API** is a `map` from URL to the decoded page body. A URL missing from the map is a request that raises. The walk gets a budget of page requests (`fuel`), because next-links may form a cycle.
- **The status API** is a fixed-length sequence of `MaxRetries` (3) outcomes per row. Each outcome is an exception, a non-200 reply, a 200 reply whose body does not decode, or a 200 reply with a `data.status`. The status lookups of a run are given by offer id.
- **Date handling:** today's date is a parameter. Parsing `created_at` into a calendar date is a function parameter `dateOf`; `None` means parsing raises.
- **HTML to text:** the cleanup of descriptions is a function parameter `htmlText`.
- **The worker pool** hands back results in some completion order. The model computes every result from the table as it was before any marking. It then applies the results in a given order, which may be any order that lists each row exactly once. `RentedStatus.CompletionOrderIrrelevant` proves that the order does not change the table. `Merge.Sync` uses index order.

Two behaviours of the program as written are modelled as they are (`Merge.Sync` is the run as written; `Merge.CorrectedSyncResult` is the run as evidently intended):

- A run in which no offer is new crashes: `df` is assigned only when there are new offers (scraper/main.py:99-101), yet it is read right after (scraper/main.py:106). The branch for that case prints "No new offers found." and falls through to the re-check (scraper/main.py:103-106), so re-checking the stored table was evidently meant. A second run with the same batch therefore crashes too. See "## Findings".
- An unparsable `created_at` on any scraped offer aborts the run, even for an offer whose URL is already stored, because the date is parsed before the URL test (scraper/main.py:71-72). The model returns `Merge.UnparsableCreatedAt`. This is unlike the status lookup, which turns every failure into "no update" (scraper/main.py:29-32).

`furnished` and `elevator` are declared as optional booleans, but the scrape stores the param's label text in them. The model keeps them as `Option<string>`.

## Model

| member | source | states |
|---|---|---|
| Utils.IsValidUrl | scraper/utils.py:1-6 | a URL is valid iff it is a string (not `None`), starts with "http" and has "olx.pl" at some position |
| Utils.Contains | scraper/utils.py:5 | substring test: true iff the needle occurs at some position of the string |
| Utils.RemoveDuplicateOffers | scraper/utils.py:8-17 | the one-pass loop returns the first-wins de-duplication of the offers, and the removed count is the input length minus the output length |
| Utils.FirstIndices | scraper/utils.py:12-13 | the positions holding the first offer with each URL, strictly increasing, and every first occurrence is listed |
| Utils.DedupIsFirstOccurrences | scraper/utils.py:9-17 | the kept offers are exactly the first occurrences of each URL, in input order: a subsequence of the input in first-seen order |
| Utils.DedupUrls | scraper/utils.py:11-14 | the output has the same set of URLs as the input |
| Utils.DedupDistinct | scraper/utils.py:9-14 | the output URLs are pairwise distinct |
| Utils.DedupLength | scraper/utils.py:10-15 | the output length is the number of distinct input URLs and at most the input length |
| Utils.DedupOfDistinct | scraper/utils.py:8-17 | a list whose URLs are already distinct comes back unchanged |
| Utils.DedupIdempotent | scraper/utils.py:8-17 | de-duplicating the output again returns it unchanged, with nothing removed |
| RentedStatus.FirstSuccess | scraper/main.py:22-28 | the index of the first attempt that is a 200 reply with a decodable body; no earlier attempt succeeds; `None` iff no attempt does |
| RentedStatus.FetchStatus | scraper/main.py:20-32 | between 1 and 3 attempts. On the first success at attempt k: that reply's `data.status` (possibly null), k+1 attempts and k sleeps. If no attempt succeeds: `None`, 3 attempts, 3 sleeps. The time slept is the number of sleeps times `RETRY_DELAY` |
| RentedStatus.CheckOffer | scraper/main.py:38-43 | yields `(i, status)` iff the row's `rented_at` is null and the fetched status is present, non-empty and not "active" |
| RentedStatus.SubmitAll | scraper/main.py:45-46 | one result per row, each the decision for that row against the table before any marking |
| RentedStatus.ApplyInOrderMarksListed | scraper/main.py:47-53 | applying results in an order that lists each row at most once marks exactly the listed rows that have a result, and leaves the rest unchanged |
| RentedStatus.CompletionOrderIrrelevant | scraper/main.py:45-53 | any two completion orders give the same table: marking every row that has a result |
| RentedStatus.ApplyCompleted | scraper/main.py:47-53 | the completion loop updates the array in place to the result of applying the results in that order; its counter is the number of rows marked |
| RentedStatus.UpdateRentedStatus | scraper/main.py:35-57 | the table afterwards is the old table with every row that has a result marked (`rented_at` = today, `status` = the fetched value); `rented_count` is the number of rows marked |
| RentedStatus.MarkRentedEffect | scraper/main.py:39-52 | a row with a `rented_at` is unchanged. Any other row either stays unchanged or gets `rented_at` = today and the fetched status, which is non-empty and not "active". No other column changes |
| RentedStatus.RentedIsTerminal | scraper/main.py:39-43 | a row marked by one re-check is left unchanged by every later re-check |
| Olx.ScanParams | scraper/olx.py:64-82 | the scan over a listing's params fails only with a missing-value error |
| Olx.ApplyParamWrites | scraper/olx.py:64-82 | one param sets exactly the field its key names to its label; every other field keeps its value |
| Olx.ScanLastWins | scraper/olx.py:64-82 | after a successful scan, each of the nine recognised fields holds the label of the last param with its key, or its earlier value if no param has that key |
| Olx.ScanFailsIff | scraper/olx.py:64-82 | the scan fails iff some param with a recognised key has no `value` object |
| Olx.ReadParams | scraper/olx.py:57-82 | the inner loop over params, writing nine local variables, computes the scan |
| Olx.MapUrl | scraper/olx.py:84-88 | a map link exists iff both coordinates are truthy, and it is then the Google Maps URL built from their text |
| Olx.ExtractOffer | scraper/olx.py:43-114 | a listing yields an offer iff its title and URL are truthy. That offer keeps the listing's id, title and URL and has no `rented_at`. The only errors are a missing param value and an unassigned `floor`/`buildtype` |
| Olx.ExtractedOfferFields | scraper/olx.py:57-114 | an emitted offer's price, rent, furnished, rooms, area, elevator and pets are the label of the last param with their key, else `None`; its floor and buildtype are the last label else the carried value; its map link is `MapUrl` of the coordinates; district, `created_at`, status and the cleaned description are copied from the listing |
| Olx.ExtractedCarry | scraper/olx.py:57-82 | a listing, emitted or skipped, hands on `floor` and `buildtype` as the last label with their key, else the values it received |
| Olx.ScrapePage | scraper/olx.py:43-114 | every offer a page yields is emitted: non-empty title and URL, no `rented_at` |
| Olx.ScrapePageData | scraper/olx.py:43-114 | the loop over a page's `data` computes the page's offers and the carried `floor`/`buildtype` |
| Olx.GetNextPageUrl | scraper/olx.py:13-19 | no URL when `links.next` is falsy, otherwise its `href` |
| Olx.ScrapeFrom | scraper/olx.py:35-120 | every offer the walk returns is emitted: non-empty title and URL, no `rented_at` |
| Olx.WalkStep | scraper/olx.py:35-120 | a falsy page ends the walk with nothing more. A page with a falsy next-link ends it with that page's offers. Otherwise that page's offers come before those of the next page |
| Olx.Scrape | scraper/olx.py:21-123 | the `while True` loop returns the page walk from the start URL, so every returned offer is emitted |
| Olx.ChainWalkNeedsNoMoreFuel | scraper/olx.py:35-120 | on a finite chain of pages, one request per page suffices: the walk never hits the request budget and its result does not depend on the budget |
| Olx.FloorCarriesOver | scraper/olx.py:57-109 | a listing without a `floor_select` param gets the floor of an earlier listing, while a reset field such as the price stays `None` |
| Olx.UnboundFloorRaises | scraper/olx.py:75-108 | an accepted first listing without a `floor_select` param makes the scrape raise on the unassigned `floor` |
| Merge.FlattenLines | scraper/main.py:80-82 | same length; each `\n` and `\r` becomes a space and every other character is kept |
| Merge.ToRow | scraper/main.py:76-96 | a new row copies the offer's id, title, URL, price, rent, pets, furnished, rooms, area, elevator, map link, district, `created_at` and status; its description is the offer's with each `\n` and `\r` replaced by a space; its `rented_at` is null |
| Merge.NewRowsAreAdmittedOffers | scraper/main.py:67-97 | on success the new rows are the admitted offers in batch order: URL not stored and created today. Each is turned into a fresh row |
| Merge.NewRowsFailsIff | scraper/main.py:70-82 | the merge fails iff some offer's `created_at` does not parse, or some admitted offer has no description |
| Merge.NewRowsOnceStored | scraper/main.py:67-74 | once every URL a batch admitted is stored, the same batch admits nothing |
| Merge.NewRowsUrls | scraper/main.py:67-74 | new rows' URLs come from the batch and are not yet stored |
| Merge.NewRowsDistinct | scraper/main.py:67-97 | if the batch's URLs are distinct, so are the new rows' URLs |
| Merge.CollectNewOffers | scraper/main.py:67-97 | the loop building `new_offers` computes the new rows for the stored table's URL set |
| Merge.MergeBatch | scraper/main.py:99-101 | the merge as evidently intended (see "## Findings"): the stored rows, unchanged and in order, followed by exactly the rows of the admitted offers in batch order, each with no `rented_at`; the stored table itself when no offer is new |
| Merge.MergeBatchIdempotent | scraper/main.py:67-101 | merging the same batch into the merged table returns it unchanged |
| Merge.MergeKeepsUrlsDistinct | scraper/main.py:67-101 | if the stored rows and the batch each have distinct URLs, so does the merged table |
| Merge.RerunAsWrittenFails | scraper/main.py:99-106 | with the merge as written, running it again with the same batch fails: no new rows, `df` unbound |
| Merge.EmptyBatchAsWrittenFails | scraper/main.py:99-106 | as written, an empty batch fails; corrected, it returns the stored table |
| Merge.MergeBatchAsWritten | scraper/main.py:99-106 | the merge as written agrees with the intended merge whenever it succeeds, and then adds at least one row; it fails with `df` unbound exactly when the intended merge would return the stored table unchanged |
| Merge.InIndexOrder | scraper/main.py:45-47 | submission order lists each row index exactly once |
| Merge.Sync | scraper/main.py:60-106 | one run as written (scrape, de-duplicate, collect new offers, fail when none is new, re-check in place) returns the run's specification `SyncResult`; a successful run adds at least one row |
| Merge.EmptyScrapeAsWrittenFails | scraper/main.py:99-106 | a run whose first page is falsy fails on the unbound `df` whatever the stored table holds, while the corrected run re-checks the stored table |
| Merge.CorrectedRunAgrees | scraper/main.py:99-106 | the corrected run differs from the run as written only where the latter fails on the unbound `df`, and there it returns the re-checked stored table |
| Merge.SyncKeepsStoredRows | scraper/main.py:60-106 | no stored row is dropped or moved, and a stored row with a `rented_at` comes out unchanged |
| Merge.SyncKeepsUrlsDistinct | scraper/main.py:60-106 | if the stored rows have distinct URLs, so does the table a run leaves |

## Left out

- HTTP requests, JSON decoding and BeautifulSoup: pages and status replies are inputs; description cleanup is the parameter `htmlText`.
- The CSV load and save and `pd.isna`: the table is an in-memory sequence of rows; `Merge.Sync` returns the table it would save.
- `load_dotenv` and `os.getenv` configuration and all `print` logging: plumbing with no effect on the data.
- `time.sleep`: sleeps are counted, not performed.
- `datetime.today()` and `datetime.fromisoformat`: the parameters `today` and `dateOf`.
- `MAX_WORKERS` and the thread pool: results are computed from the table before any marking, then applied serially in a completion order.
- Olx.ScrapeFrom: the walk is bounded by a request budget and returns `PageLimit` when it runs out. The program itself loops forever on a cycle of next-links. Olx.ChainWalkNeedsNoMoreFuel shows the budget never matters on a finite chain.
- Olx.RawOffer: the listing is assumed to be a JSON object with a `data` array, a string `description` and a list `params`. These are missing-key or wrong-type crashes: a missing `data` key, a null `map` or `location` object, a null `location.district` (whose `name` is then read from `None`), a missing `params` list, or a `description` that is not a string.
- The text of a JSON float inside the Google Maps URL: each coordinate carries its printed text as given.
- RentedStatus.CheckOffer: a status that is not a string (a number, a list) is not represented, and the truthiness test is modelled on strings only.
- Offers.Offer: `furnished` and `elevator` are `Option<string>`, not the declared optional booleans, because the scrape stores label text in them.

## Findings

| source | as written | input that shows it | evidently intended | confidence | as-written member | corrected member |
|---|---|---|---|---|---|---|
| scraper/main.py:99-106 | `df` is bound only inside the `len(new_offers) > 0` branch, yet `update_rented_status(df)` is called unconditionally | an empty scrape, or any batch whose offers are all stored or not from today (for example the same batch run a second time) | with no new offers the stored table is re-checked and saved unchanged (`df = df_existing`), so the merge is idempotent | high (not executed) | Merge.RerunAsWrittenFails | Merge.MergeBatchIdempotent |
