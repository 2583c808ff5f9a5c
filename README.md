# Edmonton cafe fetcher: discovery and dedup core

This project models the `EdmontonCafeFetcher` class in Dafny. The class
builds a list of Edmonton cafes from the Google Places API in four steps:

- it lays a grid of search points over a bounding box around the city;
- it runs a paginated nearby search at every point;
- it keeps each result that passes a region test and a cafe heuristic, in a
  store keyed by place identifier where the first write wins;
- it enriches every stored entry with a place-details lookup.

The class appears twice, in `manipulation/ellis-0-scan.py` and in
`manipulation/scan/cafe-fetcher-comprehensive.py`. The modelled methods
(ellis-0-scan.py:86-288, cafe-fetcher-comprehensive.py:34-236) differ only in
one progress message (ellis-0-scan.py:260). Within them, line n of the first
file is line n − 52 of the second. One model therefore covers both, and the
table below cites either file. The `search_all` banner and `save_results` also
differ between the copies, and both lie outside the model.

Modules:

- `Wrappers`: `Option`.
- `Text`: ASCII lower-casing, substring search (`Contains`, stated through
  `OccursAt` positions) and `Join`.
- `Config`: the bounds, the search radius and the region margin. The grid
  step is a parameter of `Grid.GenerateSearchGrid`.
- `Places`: search results, stored records, and the details and search
  replies.
- `Classifier`: `is_in_edmonton_area` and `is_likely_cafe`, as pure
  predicates.
- `Grid`: `generate_search_grid`, as the method `GenerateSearchGrid`. Its
  latitude loop calls `GenerateRow`, which holds the longitude loop and is
  proved against `Row`. `GenerateSearchGrid` is proved against the spec
  function `GridPoints`.
- `Pagination`: the `search_nearby` loop as the spec function `Paginate`
  over a finite sequence of upstream replies, with lemmas about it.
- `Dedup`: `process_place` as the pure store update `Insert`, and the per-search
  batch as `InsertAll`.
- `Enrich`: `get_place_details` as `DetailsOf`, the per-entry update as
  `Merge`, and the whole pass as `Enriched`.
- `Fetcher`: the class `CafeFetcher`.
  - It holds the store as a `map` plus the identifiers in insertion order.
    That order is the order in which a Python dict iterates.
  - It holds the call counter.
  - Its methods update these fields in place and are proved equal to the
    pure functions above.
  - Its invariant `Valid` says three things: `order` lists every stored
    identifier exactly once; every entry sits under its own non-empty
    identifier; and every entry's coordinates are truthy and inside the
    region.

External inputs are parameters:

- The search upstream is a sequence `upstream`, whose k-th element is the
  reply to the k-th request.
- The details service is a function `lookup` from place identifier to reply.

Python truthiness is written out:

- a missing or empty `place_id` is falsy;
- a missing or `0.0` coordinate is falsy;
- a missing or empty page token is falsy;
- `type` and `keyword` are sent only when truthy;
- a details object is empty only when it has no keys at all.

## Model

| member | source | states |
|---|---|---|
| `Classifier.IsInEdmontonArea` | manipulation/ellis-0-scan.py:192-196 | accepted exactly when 53.3 ≤ lat ≤ 53.8 and −113.8 ≤ lng ≤ −113.2: the box widened by the 0.1 margin on each side, ends included |
| `Classifier.CornersAccepted` | manipulation/scan/cafe-fetcher-comprehensive.py:140-144 | all four corners of the unwidened box pass the region test |
| `Classifier.MarginExamples` | manipulation/ellis-0-scan.py:194-196 | half a margin outside the south edge passes; two margins outside the south or north edge fails |
| `Classifier.LikelyCafeIff` | manipulation/ellis-0-scan.py:198-218 | accepted exactly when (an allowed type tag is present, or an allow keyword occurs at some position of the lower-cased name) and no deny keyword occurs at any position |
| `Classifier.DenyWins` | manipulation/scan/cafe-fetcher-comprehensive.py:160-166 | a deny keyword in the name rejects the place, whatever its tags or allow keywords |
| `Classifier.AllowRequired` | manipulation/ellis-0-scan.py:204-218 | an accepted place matched a type tag or an allow keyword |
| `Classifier.NameCaseIgnored` | manipulation/ellis-0-scan.py:201 | two places with the same tags whose names agree after lower-casing get the same verdict |
| `Classifier.LowerCasedNameSameVerdict` | manipulation/scan/cafe-fetcher-comprehensive.py:149 | replacing the name by its lower-cased form never changes the verdict |
| `Classifier.EmptyNameMatchesNothing` | manipulation/ellis-0-scan.py:201 | the empty name contains no non-empty keyword |
| `Classifier.MissingNameUsesTypesOnly` | manipulation/ellis-0-scan.py:200-201 | with the name missing, only the type tags decide acceptance |
| `Classifier.DeniedAt` | manipulation/ellis-0-scan.py:214-218 | a deny keyword found at a given position rejects the place |
| `Classifier.TimHortonsAccepted` | manipulation/ellis-0-scan.py:204-218 | a place named "Tim Hortons" tagged `cafe` is accepted: no deny keyword occurs in "tim hortons" |
| `Classifier.HotelCafeRejected` | manipulation/ellis-0-scan.py:208-218 | "XYZ Hotel Cafe" is rejected although it holds the allow keyword "cafe" |
| `Classifier.GasStationRejected` | manipulation/scan/cafe-fetcher-comprehensive.py:162-166 | "ABC Gas Station" is rejected whatever its tags |
| `Text.LowerChar` | manipulation/ellis-0-scan.py:201 | an upper-case ASCII letter maps to the lower-case letter at the same alphabet position; every other character is unchanged; the result is a lower-case letter exactly when the input is a letter of either case, and it is never upper-case |
| `Text.Lower` | manipulation/ellis-0-scan.py:201 | lower-casing keeps the length and maps every character by `LowerChar` |
| `Text.LowerIdempotent` | manipulation/scan/cafe-fetcher-comprehensive.py:149 | lower-casing twice is lower-casing once |
| `Text.Contains` | manipulation/ellis-0-scan.py:211 | substring test: true exactly when the needle occurs at some position of the haystack |
| `Text.Join` | manipulation/ellis-0-scan.py:253 | joining no parts gives "". Otherwise the length is the parts' lengths plus one separator between each two parts. Part k starts at `Offset(sep, parts, k)`, and a separator follows every part except the last, so the layout is fixed. Every part occurs in the joined string |
| `Grid.GenerateRow` | manipulation/ellis-0-scan.py:100-103 | the inner loop emits exactly `Row(lat, west, east, step)`: the longitudes from `west` in steps of `step` while not past `east`, in order |
| `Grid.GenerateSearchGrid` | manipulation/ellis-0-scan.py:94-107 | the emitted points are `GridPoints(bounds, step)`; every point satisfies both loop guards; points come out in row-major order |
| `Grid.RowShape` | manipulation/ellis-0-scan.py:101-103 | a row keeps its latitude, has strictly increasing longitudes within west..east, starts at its first longitude, and ends less than one step before passing east |
| `Grid.RowsShape` | manipulation/scan/cafe-fetcher-comprehensive.py:46-52 | every point of the rows from `lat` has `lat` ≤ latitude ≤ north and west ≤ longitude ≤ east, and the rows are row-major |
| `Grid.ConfiguredGrid` | manipulation/ellis-0-scan.py:70-75 | over `EDMONTON_BOUNDS`, with any positive step (so with `GRID_SIZE`), the grid is non-empty, starts at (53.4, −113.7), stays within 53.4..53.7 and −113.7..−113.3 and is row-major |
| `Fetcher.ConfiguredGridInRegion` | manipulation/ellis-0-scan.py:192-196 | every point of the grid over `EDMONTON_BOUNDS`, with any positive step, passes the region test |
| `Grid.GridShape` | manipulation/scan/cafe-fetcher-comprehensive.py:46-52 | every grid point lies within south..north and west..east; the grid is row-major |
| `Grid.GridStartsAtSouthWest` | manipulation/ellis-0-scan.py:98-101 | a well-formed box yields a point, and the first one is the south-west corner |
| `Grid.GridEndsNearEdges` | manipulation/ellis-0-scan.py:99-104 | the last point is less than one step from passing the north edge and the east edge |
| `Pagination.PaginateAt` | manipulation/scan/cafe-fetcher-comprehensive.py:74-111 | one loop iteration: a continuing reply contributes its page and leads to the next request; any other reply ends the run with its stop reason |
| `Pagination.PaginateStops` | manipulation/ellis-0-scan.py:126-163 | at most one request per reply; every consumed reply but the last continued the loop, so the run ends at the first reply that does not (ZERO_RESULTS, a non-OK status other than OVER_QUERY_LIMIT, an OK page without a token, a transport error), with that reply's reason; otherwise every reply is used. It stops with `OutOfResponses` only when there were no replies or the last one continued the loop |
| `Pagination.PaginateRequests` | manipulation/ellis-0-scan.py:114-158 | the first request is the initial params; after a quota reply the same params are sent again; after a token the params are exactly {pagetoken, key} |
| `Pagination.PaginateResults` | manipulation/ellis-0-scan.py:147-149 | the results are the OK pages of the replies consumed, concatenated in page order |
| `Pagination.QuotaRetriesWithoutEnd` | manipulation/ellis-0-scan.py:140-145 | replies that are all OVER_QUERY_LIMIT make every request the same, collect nothing, and never end the loop by themselves |
| `Fetcher.CafeFetcher.constructor` | manipulation/ellis-0-scan.py:87-92 | the store, the insertion order and the call counter start empty or zero; the invariant holds |
| `Fetcher.CafeFetcher.SearchNearby` | manipulation/ellis-0-scan.py:109-163 | results, requests sent and stop reason equal `Paginate` from the initial params; `api_calls` grows by one per request sent |
| `Fetcher.CafeFetcher.GetPlaceDetails` | manipulation/ellis-0-scan.py:165-190 | the details are `DetailsOf` the reply; one call is counted |
| `Enrich.DetailsOf` | manipulation/scan/cafe-fetcher-comprehensive.py:130-138 | a non-empty result only comes from an OK reply and is its `result`; an OK reply's `result` is passed through |
| `Fetcher.CafeFetcher.ProcessPlace` | manipulation/ellis-0-scan.py:220-258 | the store becomes `Insert(old store, place)`; the identifier is appended to the order exactly when it is accepted; the invariant is kept |
| `Fetcher.CafeFetcher.ProcessAll` | manipulation/ellis-0-scan.py:313-314 | offering a search's results in order leaves `InsertAll` of them; the order grows by `AddedIds`; the invariant is kept |
| `Fetcher.CafeFetcher.EnrichWithDetails` | manipulation/ellis-0-scan.py:262-283 | the store becomes `Enriched(old store, lookup)` with the same keys; `api_calls` grows by the number of stored entries, one call each; the invariant is kept |
| `Fetcher.StoreOkSize` | manipulation/ellis-0-scan.py:264-266 | a well-formed store has exactly as many entries as the order lists, so the loop over the listed ids visits each stored entry once |
| `Fetcher.CafeFetcher.EnrichEach` | manipulation/scan/cafe-fetcher-comprehensive.py:214-231 | each listed entry becomes its merge with its own lookup, unlisted entries and the key set stay, and one call is counted per identifier |
| `Fetcher.EnrichedKeepsStoreOk` | manipulation/ellis-0-scan.py:266-283 | enrichment keeps the store invariant |
| `Dedup.InsertChangesIffAccepted` | manipulation/ellis-0-scan.py:220-258 | the store changes exactly when the result has a new truthy id, truthy in-region coordinates and passes the classifier |
| `Dedup.InsertSkips` | manipulation/ellis-0-scan.py:222-244 | each skip case leaves the store unchanged: missing id, known id, falsy lat or lng, failed region test, failed classifier |
| `Dedup.InsertKeepsEntries` | manipulation/scan/cafe-fetcher-comprehensive.py:174-176 | first write wins: every stored entry survives unchanged |
| `Dedup.InsertAdds` | manipulation/ellis-0-scan.py:247-258 | an accepted insert adds exactly its own key and grows the store by one. The record keeps the id, name and coordinates. `types` is the tags joined by ", " and contains each tag. `address` is `vicinity` when truthy and `formatted_address` otherwise. `rating`, `user_ratings_total`, `business_status` and `price_level` are copied. There is no enrichment yet |
| `Dedup.InsertGrowth` | manipulation/scan/cafe-fetcher-comprehensive.py:195-206 | the store grows by at most one entry, and only by the result's own id |
| `Dedup.InsertIdempotent` | manipulation/ellis-0-scan.py:227-228 | offering the same result twice is offering it once |
| `Dedup.InsertKeepsStoredOk` | manipulation/ellis-0-scan.py:222-247 | every stored entry stays keyed by its own truthy id at truthy in-region coordinates |
| `Dedup.RejectionPersists` | manipulation/ellis-0-scan.py:227-228 | a result rejected by a store is rejected by every larger store |
| `Dedup.InsertAllKeepsEntries` | manipulation/ellis-0-scan.py:313-314 | a batch keeps every earlier entry unchanged and adds at most one entry per result |
| `Dedup.AddedIdsAreNewKeys` | manipulation/scan/cafe-fetcher-comprehensive.py:261-262 | the ids a batch appends to the order are new, and they are exactly the keys the store gains |
| `Dedup.InsertAllSettles` | manipulation/ellis-0-scan.py:322-323 | after a batch, the resulting store rejects every result of the batch |
| `Dedup.InsertAllOfRejected` | manipulation/ellis-0-scan.py:313-314 | a batch the store already rejects entirely leaves it unchanged |
| `Dedup.InsertAllIdempotent` | manipulation/scan/cafe-fetcher-comprehensive.py:270-271 | replaying a batch into the store it produced changes nothing |
| `Enrich.FailedLookupChangesNothing` | manipulation/ellis-0-scan.py:269-270 | a non-OK status, a transport error or a missing result leaves the entry unchanged |
| `Enrich.MergeFields` | manipulation/ellis-0-scan.py:270-283 | a non-empty result keeps the base fields. `formatted_address` falls back to `address`. `phone`, `website` and `description` default to "". `hours` is the weekday lines joined by "; ": "" when there are none, and it contains each line. `is_open_now` is the `open_now` of the opening hours, absent when there are none. `description` is the editorial overview when both the summary and its overview are present, and "" otherwise |
| `Enrich.MergeIdempotent` | manipulation/scan/cafe-fetcher-comprehensive.py:217-231 | merging the same details twice equals merging once |
| `Enrich.MergeOverwrites` | manipulation/ellis-0-scan.py:272-283 | a later non-empty merge replaces every field an earlier merge set |
| `Enrich.EnrichedKeepsKeys` | manipulation/scan/cafe-fetcher-comprehensive.py:214-231 | enrichment neither adds nor removes keys |
| `Enrich.EnrichedKeepsBase` | manipulation/ellis-0-scan.py:266-283 | enrichment keeps every entry's base fields |
| `Enrich.EnrichedIsolation` | manipulation/ellis-0-scan.py:266-283 | an entry's outcome depends only on its own lookup; an entry whose lookup fails is unchanged, and other entries are enriched as usual |

## Left out

- HTTP, JSON and `raise_for_status` are not modelled. The search replies are the sequence `upstream`, and the details replies come from the function `lookup`. A failure of `requests` is the transport-error reply.
- All sleeps are left out: the 2-second page delay, the 60-second quota wait, the 0.5-second per-search delay and the pause after every tenth entry. They affect timing only.
- Progress and warning messages are left out, and so is the unused `search_count` field.
- API key loading is left out: the `.Renv` file reading in `ellis-0-scan.py` and `load_dotenv` in `cafe-fetcher-comprehensive.py`. The key is a constructor parameter.
- `search_all` beyond its per-search batch is left out: the loop over grid points, search types and keywords. So is everything after enrichment: the pandas frame, the sort by name, CSV and SQLite output, the `Rscript` conversion, the statistics in `main`, and the interrupt and traceback handling.
- Grid.GenerateSearchGrid: coordinates are exact reals, so the IEEE rounding of `lat += GRID_SIZE` is not modelled. With floats the last row or column can be dropped or kept differently. The guard and order properties hold either way.
- Fetcher.CafeFetcher.SearchNearby: a real upstream can return OVER_QUERY_LIMIT forever, and the loop then never ends. The stub is finite, so the model stops with `OutOfResponses` when it runs out, and makes no extra call. `QuotaRetriesWithoutEnd` states the non-termination as far as a finite stub can.
- Classifier.IsInEdmontonArea: the region edges are exact reals. In floats `south - 0.1`, `north + 0.1` and the other edges round (53.7 + 0.1 is 53.800000000000004), so a point within an ulp of an edge may be judged differently.
- `GRID_SIZE`, `SEARCH_TYPES` and `SEARCH_KEYWORDS` are not constants of the model. The step is a parameter of the grid, and the grid lemmas hold for every positive step, 0.05 included. The types and keywords only feed the `search_all` loop.
- The `location` parameter is a coordinate pair, not the string `"lat,lng"`.
- Text.Lower: only ASCII letters are folded. Python's `str.lower` also folds non-ASCII letters, such as `'É'` or the Kelvin sign.
- JSON `null` is not told apart from a missing key. A `null` name would make `.lower()` raise in the source, and `details.get('formatted_address', …)` would store the `null`. The model treats both as absent.
- The non-key fields of a details object are not modelled one by one: name, geometry, rating and the others. They only decide whether the object is empty.

