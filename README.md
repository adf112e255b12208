# Route optimizer core, modelled in Dafny

This project models the core of a small delivery route optimizer. The
optimizer reads a list of street addresses and asks the Google Maps
Directions API for two routes: one in input order and one with the
waypoints reordered by the provider. It caches every successful route on
disk for 30 days and renders distances, durations, fuel cost and a viewer URL.

The model covers five pieces:

- **`Cache`** (`cache.dfy`) is the file cache of `route_optimizer/cache.py`:
  - a cache key that depends only on the request's parameter *set*, not on
    the order the pairs were written in;
  - the `.cache` directory as a class whose files map keys to stamped entries;
  - lookups that delete expired or corrupt entries, and that raise on an
    unreadable entry (a `TypeError` or `OverflowError` the code does not catch)
    and leave it in place;
  - saves that fail when the directory was never created.
- **`Api`** (`api.dfy`) is `get_route_with_waypoints` and `optimize_route` of
  `route_optimizer/api.py`:
  - the request and cache parameters;
  - leg totals;
  - the waypoint reordering by the provider's `waypoint_order`, with Python's
    negative indexing;
  - the detailed error message built from the geocoding results;
  - the cache-then-provider flow, as a `Client` class whose methods are
    proved equal to the specification functions `Fetch` and `Optimize`.

  The single-file script `route_optimizer.py` holds the same code, except that
  a non-`OK` status raises with the status alone. `Config.detailedErrors`
  selects the variant.
- **`Utils`** (`utils.dfy`) is `format_duration`, `calculate_fuel_cost` and
  `generate_google_maps_url` of `route_optimizer/utils.py`. It includes
  `urllib.parse.quote` with its default safe set, over UTF-8.
- **`InputHandler`** (`input_handler.dfy`) is the validation in
  `read_addresses_from_file`, taking the file's lines as input:
  - strip each line and drop the blank ones;
  - require between 2 and 26 addresses;
  - report case- and whitespace-insensitive duplicates, each paired with its
    first occurrence.
- **`Text`** and **`Wrappers`** hold string joining and splitting, decimal
  rendering, and `Option`/`Result`.

Outside influences are parameters:
- the clock is `now`, in integer seconds;
- the HTTP call is `Config.provider`, a function from request parameters to
  a decoded response;
- the environment's API key is `Config.apiKey`;
- the MD5 of the sorted JSON is `Config.digest`, a function of the sorted
  parameter list.

## Model

| member | source | states |
|---|---|---|
| Cache.CanonicalIgnoresOrder | route_optimizer/cache.py:32-33 | Two parameter lists give the same sorted (`sort_keys=True`) list exactly when they denote the same dict. |
| Cache.CacheKeyDeterminedByPairs | route_optimizer/cache.py:22-34 | Equal parameter dicts give equal keys. With an injective digest, keys are equal exactly when the dicts are. |
| Cache.LookupDeletesOnlyDeadEntry | route_optimizer/cache.py:37-70 | A hit leaves the files unchanged. A miss on a present file deletes that file only. An absent key changes nothing. The lookup raises exactly on an unreadable entry (`TypeError` or `OverflowError`, neither caught at line 67) and then leaves the files unchanged. |
| Cache.SaveThenLookup | route_optimizer/cache.py:56-89 | Data saved at `t` is read back at any `now <= t + 30 days` and never later. |
| Cache.ExpiryBoundary | route_optimizer/cache.py:57-63 | Expiry is strict: an entry is returned exactly at the 30-day mark. One second later it is dropped and its file deleted. |
| Cache.Store.constructor | route_optimizer/cache.py:13-14 | The store starts as found on disk: no files without the directory. |
| Cache.Store.Init | route_optimizer/cache.py:17-19 | `init_cache` makes the directory exist and keeps every file already there. |
| Cache.Store.Get | route_optimizer/cache.py:37-70 | `get_from_cache` returns `Lookup` of the old files. The new files are `AfterLookup`, which deletes an expired or corrupt entry and keeps an unreadable one. |
| Cache.Store.Save | route_optimizer/cache.py:73-89 | `save_to_cache` succeeds exactly when the directory exists. On success only key `k` changes, to the data stamped `now`. |
| Cache.SaveThenGet | route_optimizer/cache.py:17-89 | Initialising twice equals initialising once. What is saved at `t` is read back by a get within the TTL. |
| Text.Pad2 | route_optimizer/utils.py:26 | `{n:02d}`: at least two characters, exactly two for 0 to 99. For `n >= 0` the digits read back as `n`, with a leading zero only when the text is two characters. For `n < 0` the text is `-` followed by digits that read back as `-n`. |
| Text.NatToString | route_optimizer/api.py:121 | Decimal rendering: non-empty, digits only, no leading zero. |
| Text.ParseNatToString | route_optimizer/api.py:121 | The decimal rendering of `n` reads back as `n`. |
| Text.SplitJoin | route_optimizer/utils.py:75 | Joining separator-free pieces and splitting on the separator gives the pieces back. |
| Text.JoinInjective | route_optimizer/api.py:39 | Separator-free lists join to the same text exactly when they are equal. |
| Api.CacheParams | route_optimizer/api.py:43-49 | The cache parameters have distinct names and never include the credential `key`. |
| Api.RouteKeySeparatesRequests | route_optimizer/api.py:38-50 | With an injective digest, two requests of the same kind share a cache key exactly when origin and waypoints agree (addresses without `\|`). |
| Api.RouteKeySeparatesOptimize | route_optimizer/api.py:39-50 | With an injective digest, the optimised request never shares the input-order request's key. |
| Api.SumLegs | route_optimizer/api.py:73-79 | The loop's totals are `TotalDistance`/`TotalDuration` of the legs. |
| Api.TotalsAppend | route_optimizer/api.py:73-79 | Totals over two consecutive stretches of legs add up. |
| Api.TotalsNonNegative | route_optimizer/api.py:73-79 | Non-negative legs give non-negative totals. |
| Api.PyIndex | route_optimizer/api.py:91 | `waypoints[idx]` succeeds exactly for `-len <= idx < len`, and is the usual element for `idx >= 0`. |
| Api.Reorder | route_optimizer/api.py:88-91 | The reordering fails (IndexError) exactly when some index is out of range. Otherwise position `j` holds `waypoints[order[j]]`. |
| Api.ReorderStep | route_optimizer/api.py:88-91 | One more index appends the waypoint it selects when in range. An out-of-range index makes the whole reordering fail. |
| Api.BuildAddresses | route_optimizer/api.py:86-94 | The loop builds `RouteAddresses`: the origin first, then the reordered waypoints when the order is non-empty, else the input order. |
| Api.ReorderPermutes | route_optimizer/api.py:81-91 | A `waypoint_order` that permutes the waypoint positions yields every waypoint exactly once, `waypoints[order[j]]` at position `j`. |
| Api.FailuresExact | route_optimizer/api.py:112-122 | Failures are exactly the in-range positions whose geocoder status (default `UNKNOWN`) is not `OK`, in order, with their address. |
| Api.FailureLines | route_optimizer/api.py:121-122 | Each failure contributes exactly two message lines. |
| Api.CollectFailureLines | route_optimizer/api.py:112-122 | The loop yields the rendered lines of `Failures`. |
| Api.ListInputAddresses | route_optimizer/api.py:126-131 | The listing as the code builds it. When no address holds a line break, its lines are two blank lines, `Input addresses:`, `  - Origin: <origin>`, then `  - Waypoint <i>: <waypoint>` for each waypoint, numbered from 1. |
| Api.InputListingLines | route_optimizer/api.py:126-131 | Split at line breaks, the input-address listing is two blank lines, the header, the origin line and one numbered line per waypoint, in order. |
| Api.WaypointListingLines | route_optimizer/api.py:130-131 | A line followed by the waypoint listing splits into that line, then `  - Waypoint <i>: <waypoint>` for each waypoint, numbered from 1, in order. |
| Api.ListWaypoints | route_optimizer/api.py:130-131 | The loop yields `WaypointListing`. When no waypoint holds a line break, the listing splits into a leading empty line and then `  - Waypoint <i>: <waypoint>` for each waypoint, numbered from 1, in order. |
| Api.DescribeGeocoding | route_optimizer/api.py:111-131 | Yields the failure section when geocoding results are present and non-empty, otherwise the input listing. |
| Api.DetailedMessage | route_optimizer/api.py:107-137 | The message equals `ProviderMessage` in its detailed form. |
| Api.ProviderMessageLeadsWithStatus | route_optimizer/api.py:107-137 | Every message starts with `Google Maps API error: <status>`. The detailed one ends with the provider's own message when present. |
| Api.BuildRecordNotOk | route_optimizer.py:168-169 | A non-`OK` status always raises. In the single-file variant the message is the status line alone. |
| Api.BuildRecordOk | route_optimizer/api.py:70-101 | An `OK` record carries the leg sums and starts at the origin. It keeps `waypoint_order` only for an optimised request whose route has one. Otherwise, or with an empty order, the waypoints keep input order. A permutation order gives a permutation of the waypoints. |
| Api.FetchRequests | route_optimizer/api.py:52-68 | A cache hit returns the cached record and sends nothing. A miss sends exactly one request: the cache parameters plus the credential. An unreadable cache file makes the call raise with no request and no file changed, so the same call raises again. |
| Api.FetchTwiceServedFromCache | route_optimizer/api.py:50-106 | Repeating a successful uncached call within 30 days returns the same record, files and requests: no second request. |
| Api.EndToEndTwoStops | route_optimizer/api.py:18-106 | Two stops and one leg of 5000 m / 600 s give `addresses [origin, destination]`, 5000, 600 and no order. One request is sent, and asking again sends none. |
| Api.OptimizeOrder | route_optimizer/api.py:154-175 | A missing or empty key, or fewer than two addresses, is rejected before any request. Otherwise on cache misses the input-order request is sent first and the optimised one second. |
| Api.Client.constructor | route_optimizer/api.py:14-15 | The client starts with the given configuration and store, and no requests sent. |
| Api.Client.GetRoute | route_optimizer/api.py:18-137 | `get_route_with_waypoints`: result, files and requests equal `Fetch` of the old state. |
| Api.Client.OptimizeRoute | route_optimizer/api.py:140-175 | `optimize_route`: result, files and requests equal `Optimize` of the old state. |
| Utils.DurationFields | route_optimizer/utils.py:24-25 | Minutes lie in `[0, 60)`, and `hours*3600 + minutes*60` is within the minute below `seconds`. |
| Utils.DurationFieldsUnique | route_optimizer/utils.py:24-25 | Those are the only hours and minutes with that property. |
| Utils.FormatDuration | route_optimizer/utils.py:14-26 | For `seconds >= 0` the text is `<hours>:<mm>`, and both fields read back as `seconds // 3600` and `(seconds % 3600) // 60`. The hours start with a zero only when they are the two characters `00`-`09`. |
| Utils.FormatDurationHourAndHalf | route_optimizer/utils.py:24-26 | 5400 s renders as `01:30`. |
| Utils.FormatDurationNoDayRollover | route_optimizer/utils.py:24-26 | 90000 s renders as `25:00`: hours do not wrap. |
| Utils.FormatDurationTruncates | route_optimizer/utils.py:24-26 | 119 s renders as `00:01`: seconds are dropped, not rounded. |
| Utils.FuelCost | route_optimizer/utils.py:29-42 | The cost is 0.0001275 EUR per metre. |
| Utils.FuelCostLinear | route_optimizer/utils.py:39-42 | The cost is zero at zero, additive over distances, and monotone. |
| Utils.FuelCostExample | route_optimizer/utils.py:10-42 | 10 km burns 0.85 L and costs 1.275 EUR. |
| Utils.Quote | route_optimizer/utils.py:60-62 | Quoted text holds only unreserved characters, `/` and `%`. Text made only of safe characters is unchanged. |
| Utils.QuoteAll | route_optimizer/utils.py:64-68 | Every address is quoted, in order. |
| Utils.QuoteMiddle | route_optimizer/utils.py:64-68 | For three or more addresses the loop quotes every address strictly between the first and the last, in order; the list is non-empty. |
| Utils.GoogleMapsUrl | route_optimizer/utils.py:45-78 | `None` exactly for fewer than two addresses. Otherwise the base URL with quoted origin, quoted destination, driving mode, and the quoted middle addresses when there are any. |
| Utils.WaypointsParamSplitsBack | route_optimizer/utils.py:74-76 | The `waypoints` parameter splits back on `\|` into exactly the quoted middle addresses, in order. |
| InputHandler.Strip | route_optimizer/input_handler.py:34 | A stripped line is empty exactly when it is all whitespace. Otherwise it neither starts nor ends with whitespace. |
| InputHandler.NonBlankLines | route_optimizer/input_handler.py:31-36 | The kept addresses are non-empty and stripped, and no more than the lines. |
| InputHandler.StripLines | route_optimizer/input_handler.py:31-36 | The reading loop yields `NonBlankLines` of the lines. |
| InputHandler.LowerIdempotent | route_optimizer/input_handler.py:53 | `lower()` applied to an already lower-cased string changes nothing. |
| InputHandler.NormalizeIgnoresCase | route_optimizer/input_handler.py:53 | An address and its lower-cased form normalise to the same key, so addresses differing only in case are duplicates. |
| InputHandler.NormalizeIgnoresLeadingSpace | route_optimizer/input_handler.py:53 | A leading whitespace character does not change the normalised key (`split()` drops it). |
| InputHandler.WordsSplitAtSpace | route_optimizer/input_handler.py:53 | `split()` breaks at every whitespace character: the words of `x + c + y` are the words of `x` followed by those of `y`. |
| InputHandler.NormalizeIgnoresSpacing | route_optimizer/input_handler.py:52-53 | Spacing does not matter: trailing whitespace is dropped, any whitespace character separates words like a space, and two spaces count as one. |
| InputHandler.NormalizedAt | route_optimizer/input_handler.py:53 | The comparison form of address `i` is `NormalizeAll(addresses)[i]`. |
| InputHandler.FirstIndex | route_optimizer/input_handler.py:55-61 | The dict's stored position for a key is its first occurrence, and absent keys are absent. |
| InputHandler.DistinctNormalized | route_optimizer/input_handler.py:47-61 | The normalised list has no repeats exactly when no two addresses normalise alike. |
| InputHandler.DuplicateReportSound | route_optimizer/input_handler.py:55-59 | Every reported pair links a later address to the first one with the same normalised form. |
| InputHandler.DuplicateReportLines | route_optimizer/input_handler.py:51-59 | Reported lines are 1-based positions within the list. |
| InputHandler.DuplicateReportOrdered | route_optimizer/input_handler.py:51-61 | Each pair's first occurrence precedes it, and the pairs come in increasing line order. |
| InputHandler.DuplicateReportComplete | route_optimizer/input_handler.py:55-61 | A position is reported exactly when an earlier address normalises alike. |
| InputHandler.DuplicateReportFindsRepeat | route_optimizer/input_handler.py:55-59 | A position whose key occurred earlier is reported. |
| InputHandler.DuplicateReportEmptyIff | route_optimizer/input_handler.py:63-65 | Nothing is reported exactly when all normalised addresses are distinct. |
| InputHandler.FindDuplicates | route_optimizer/input_handler.py:47-61 | The dict-based scan yields `DuplicateReport` of the addresses and their normalised forms. |
| InputHandler.ScanStep | route_optimizer/input_handler.py:53-61 | One scan step: a key already in the dict appends the pair for its stored first position and leaves the dict unchanged; a new key appends nothing and enters the dict with its own position. |
| InputHandler.ReadAddresses | route_optimizer/input_handler.py:29-67 | Fewer than 2 addresses is the first error and more than 26 the second; then duplicates, then success. Success happens exactly for 2 to 26 pairwise-distinct addresses. |

## Left out

- The HTTP request, `requests`, `dotenv` and the environment are parameters of `Config`. Console output (`print`) is not modelled.
- MD5 and the JSON text of the cache key are folded into `Config.digest`, applied to the key-sorted parameter list. Collisions are ruled out only where a lemma assumes an injective digest.
- File names, JSON encoding and the `indent=2` layout of cache files are not modelled. A cache file is a key mapped to one of three entries:
  - a stamped entry;
  - `Corrupt`, for every error that `get_from_cache` catches: bad JSON, a missing `timestamp` or `data`, or a non-ISO timestamp string;
  - `Unreadable`, for the errors `get_from_cache` does not catch:
    - `TypeError`: JSON that is not an object, a non-string timestamp, or a time-zone-aware timestamp;
    - `OverflowError`: a timestamp within 30 days of the largest date Python represents, such as `9999-12-20T00:00:00`, where adding the TTL at cache.py:58 leaves the date range.
- Clock readings are integer seconds. ISO timestamps, microseconds and time zones are not modelled. Each call reads the clock once, and `optimize_route`'s two calls share one reading.
- Cached `data` is assumed to be a route record, as written by `get_route_with_waypoints`.
- Response fields beyond those the code reads are not modelled. A missing `status`, `routes`, `legs` or `value` (a `KeyError`) is not modelled.
- `Api.RouteKeySeparatesRequests` assumes no address contains `|`. With `|` inside addresses, different waypoint lists can produce the same request text and so the same key.
- `Api.RouteKeySeparatesOptimize` compares the two flags for one waypoint list only. A list whose first address is literally `optimize:true` produces the same request text as the optimised request for the rest of the list.
- Fuel cost uses exact reals, not binary floating point. Rounding for display happens outside this core.
- `InputHandler.Lower` lower-cases ASCII letters only; Python's `str.lower` also folds non-ASCII letters.
- The `FileNotFoundError` and file reading of `read_addresses_from_file` are not modelled. The validation takes the lines as input.
- The `ValueError` messages of the input checks are not modelled as text. `InputError` carries their data: the count, or the duplicate pairs.
- Duplicate report line numbers are 1-based positions among the non-blank addresses, as in the code. They are not line numbers of the file.
- `main.py`, `run_optimizer.py` and the report rendering are not part of this model.
