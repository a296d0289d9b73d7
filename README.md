# IMDb scraper: a verified model

This project models the core of a small IMDb scraper in Dafny. The scraper
searches IMDb for a film title and ranks the candidates by relevance. It then
fetches the detail page of the best candidate and builds a validated `Movie`
record. Every end-to-end lookup is recorded in a search history.

The model covers:

- the scraper object: its rate limiting, its retrying request loop, the two
  passes over a search page (embedded JSON first, markup second) and the
  detail-page extraction;
- the `Movie` and `SearchResult` records: their validation and their
  dictionary forms;
- the search history: recording, listings, cleanup and totals.

Modules, one per concern:

- `Wrappers`: `Option` and `Result`.
- `Text`: Python's `strip` and `isspace` with the full Unicode whitespace set, `s[:n]`, the substring test, and `lower`, `\d` and `\w` restricted to ASCII and Latin-1 (see below).
- `Sorting`: the stable `sort(reverse=True)`, generic over a total-preorder comparator.
- `Json`: a decoded JSON document and the Python operations the extraction applies to it. Each operation raises the exception Python raises on a value of the wrong shape.
- `Models`: `models.py`.
- `Extraction`: the page-reading logic of `scraper.py`, as functions.
- `History`: `history.py`, as a class over a key order and a map.
- `Scraper`: the `IMDbScraper` class, whose methods carry the loops of `scraper.py`.

Environment:

- Time is an integer clock in milliseconds. Only the scraper's own sleeps and the duration of each request advance it.
- The network is a fixed function. It takes a request and the number of requests sent before it, and returns the reply and how long the request took.
- A parsed HTML page is a `Page` value. It holds the embedded JSON blocks, and the texts and links that the CSS selectors of `config.py` would select.

## Model

| member | source | states |
|---|---|---|
| Models.NewMovie | imdb_scraper/models.py:23-38 | Construction succeeds exactly when the title is not blank, is at most 200 characters, and the rating (0.0–10.0) and year (1900–2030) are in range. The first failing check, in source order, decides the error. A built movie is valid, keeps every field and holds the truncated plot. |
| Models.TruncatePlot | imdb_scraper/models.py:37-38 | A plot over 1000 characters becomes its first 997 characters plus "...", exactly 1000 in all. A shorter plot or an absent one is unchanged. |
| Models.Revalidate | imdb_scraper/models.py:23-38 | Building a movie from the fields of a valid movie gives that movie back, so validation is idempotent. |
| Models.ValidationBoundaries | imdb_scraper/models.py:25-38 | Both bounds of the rating and year ranges are inclusive, and the values just outside fail. A title of spaces is empty. A 1050-character plot is cut to 997 characters plus "...". |
| Models.NewSearchResult | imdb_scraper/models.py:75-78 | A search result is rejected only for a blank title, and otherwise keeps every field. |
| Models.MovieToDict | imdb_scraper/models.py:40-54 | The dictionary has exactly the eleven movie fields, and the timestamp is rendered as ISO text. |
| Models.MovieFromFields | imdb_scraper/models.py:63 | `cls(**data)` succeeds only when every key is a movie field and the title is present. Whatever it builds is a valid movie. |
| Models.MovieFromDict | imdb_scraper/models.py:56-63 | Only `scraped_at` is rewritten in the dictionary passed in. Whatever is built is a valid movie. |
| Models.MovieDictRoundTrip | imdb_scraper/models.py:40-63 | `from_dict(to_dict(m))` gives back every valid movie `m` when the ISO text parses back to the same instant, and leaves the parsed timestamp in the dictionary. |
| Models.FieldsRoundTrip | imdb_scraper/models.py:40-63 | The dictionary of a valid movie, with its timestamp parsed back, rebuilds exactly that movie. |
| Models.ToDictConversions | imdb_scraper/models.py:40-63 | Each field of a movie's dictionary converts back to the movie's own field. |
| Models.SearchResultToDict | imdb_scraper/models.py:80-88 | The dictionary has exactly the five result fields. |
| Models.SearchResultToDictInjective | imdb_scraper/models.py:80-88 | Two results with the same dictionary are equal, so no field is lost. |
| Json.Get | imdb_scraper/scraper.py:121 | `v.get(k, d)` fails with `AttributeError` exactly when `v` is not a dict. Otherwise it gives the value bound to `k`, or `d` when there is none. |
| Json.Slice | imdb_scraper/scraper.py:123 | `v[:n]` succeeds exactly on lists and strings and keeps at most `n` elements. On a dict it raises `KeyError`. |
| Extraction.FindYear | imdb_scraper/scraper.py:128-134 | The year is absent exactly when no `\b(19\|20)\d{2}\b` match exists. Otherwise it is the value of the leftmost match, between 1900 and 2099. |
| Extraction.YearExamples | imdb_scraper/scraper.py:132 | "(1999 TV Movie)" gives 1999. "1850, 1999-2003" gives 1999. "2010s", "12010" and "1850" give no year. |
| Extraction.RelevanceScore | imdb_scraper/scraper.py:140-143 | The score is 1.0 exactly when the lower-cased query occurs in the lower-cased title, and 0.5 exactly when it does not. |
| Extraction.TitleIdIn | imdb_scraper/scraper.py:175-176 | No id exactly when `/title/(tt\d+)/` matches nowhere in the URL. Otherwise the id is the `tt` and digits of the leftmost match. |
| Extraction.TitleIdAtStart | imdb_scraper/scraper.py:175-176 | A match at the very start of the URL gives its own `tt` and digits. |
| Extraction.TitleIdLeftmost | imdb_scraper/scraper.py:175-176 | Once the URL matches at its start, nothing appended after it changes the id, so a later match never wins. |
| Extraction.TitleIdExamples | imdb_scraper/scraper.py:175 | "/title/tt12/" gives "tt12". |
| Extraction.TitleIdNeedsSlash | imdb_scraper/scraper.py:175 | "/title/tt12", without the closing slash, gives no id. |
| Extraction.ItemResult | imdb_scraper/scraper.py:124-152 | A kept item has a non-blank title and its relevance score. A URL is present only with its id and is the title URL of that id. Validation never fails: a stripped, non-empty title is never blank. |
| Extraction.ItemResultContent | imdb_scraper/scraper.py:124-152 | A non-object item or a non-string title raises `AttributeError`. A blank title gives nothing, and only a blank title does. A non-blank title with a readable release text gives a result. A result holds the stripped title, the year of the release text and the id of the item's `id`. |
| Extraction.ItemsHarvest | imdb_scraper/scraper.py:123-156 | At most one result per item, each scored. |
| Extraction.BlockHarvest | imdb_scraper/scraper.py:112-156 | A block yields at most `max_results` results, each scored. |
| Extraction.StructuredHarvest | imdb_scraper/scraper.py:112-156 | The pass is never abandoned midway: each block either finishes or is skipped on a caught exception, or an escaping exception ends the pass. Every result is scored. |
| Extraction.StructuredSnoc | imdb_scraper/scraper.py:112-156 | Blocks are read in page order. A further block adds its results after those of the earlier blocks, unless an exception has already escaped, and an exception escaping from it ends the pass. |
| Extraction.StructuredBound | imdb_scraper/scraper.py:112-156 | The structured pass yields at most `max_results` per script block. |
| Extraction.ElementResult | imdb_scraper/scraper.py:163-201 | An element without a title link gives nothing. With one, it gives a result exactly when the link text is not blank. The result is scored and holds the link text, the link URL, the id the URL pattern extracts, and the year of the year text. |
| Extraction.MarkupResults | imdb_scraper/scraper.py:163-201 | At most one result per element, each scored. |
| Extraction.Gathered | imdb_scraper/scraper.py:105-201 | Every gathered result is scored. |
| Extraction.GatheredFallback | imdb_scraper/scraper.py:105-201 | The structured results stand when the structured pass found something or an exception escaped it, including what it found before. Otherwise the results are the markup pass over the first `max_results` elements. |
| Extraction.GatheredBound | imdb_scraper/scraper.py:105-201 | The gathered results number at most `max_results`, or at most `max_results` per script block. |
| Extraction.ScoreGeIsTotalPreorder | imdb_scraper/scraper.py:207 | Comparing relevance scores is a total preorder, so the stable sort applies. |
| Extraction.RankedCorrect | imdb_scraper/scraper.py:206-208 | The ranked list is a permutation of the gathered results, with scores non-increasing. Results of equal score stay in page order. Every score is 1.0 or 0.5. |
| Extraction.MarkupIgnoredAfterStructuredHit | imdb_scraper/scraper.py:158-159 | Once the structured pass finds anything, the markup results do not affect the outcome. |
| Extraction.LimitIsPerBlock | imdb_scraper/scraper.py:112-123 | Two blocks of one item each give two results for a limit of one. |
| Extraction.FirstPageProps | imdb_scraper/scraper.py:224-240 | No page properties exactly when no block has any. Otherwise they are truthy and come from the first block that has some. |
| Extraction.DirectorOf | imdb_scraper/scraper.py:273-302 | A named crew director wins. Otherwise a named principal-credits director wins. Otherwise a named director from the directors entry wins. When none of the three names one, the director is falsy. A truthy director always comes from one of the three sources, and no director is read when the crew lookup raises. |
| Extraction.GenreNames | imdb_scraper/scraper.py:268-271 | At most one name per genre entry, and every name is non-empty. |
| Extraction.GenreEntry | imdb_scraper/scraper.py:268-271 | A genre entry contributes at most one name, and only a non-empty one. |
| Extraction.GenreNamesAppend | imdb_scraper/scraper.py:268-271 | The names of a concatenation of entries are the names of its parts, concatenated, and the first exception wins. Order and multiplicity are kept. |
| Extraction.GenreNamesOne | imdb_scraper/scraper.py:268-271 | A single entry contributes exactly its own name, if its text is truthy. |
| Extraction.CastNames | imdb_scraper/scraper.py:304-308 | At most one name per cast edge. |
| Extraction.CastEntry | imdb_scraper/scraper.py:304-308 | A cast edge contributes at most one name. |
| Extraction.CastNamesAppend | imdb_scraper/scraper.py:304-308 | The names of a concatenation of edges are the names of its parts, concatenated, and the first exception wins. Order and multiplicity are kept. |
| Extraction.CastNamesOne | imdb_scraper/scraper.py:304-308 | A single edge contributes exactly its own name, if its `node.name` is truthy. |
| Extraction.PropsMovie | imdb_scraper/scraper.py:247-329 | Nothing exactly when the stripped title is empty. A movie holds that title and the fields read from the page properties, with the plot truncated, the requested id, the title URL and the creation time, and is valid. With a title and readable fields, a movie is built exactly when the title length, rating and year pass validation. |
| Extraction.NonEmptyTexts | imdb_scraper/scraper.py:83-90 | Keeps exactly the non-empty texts among the first `limit`, and no more than `limit`. |
| Extraction.Filter | imdb_scraper/scraper.py:87 | A text is kept exactly when it occurs and is non-empty. |
| Extraction.FilterAppend | imdb_scraper/scraper.py:87 | Filtering keeps order and multiplicity: the filter of a concatenation is the concatenation of the filters, and a single text is kept exactly when it is non-empty. |
| Extraction.BeforeSlash | imdb_scraper/scraper.py:356 | The text before the first `/`, which is the whole text when there is none. |
| Extraction.MarkupMovie | imdb_scraper/scraper.py:335-384 | No title or a blank one gives nothing. With a title, a movie is built exactly when its length, the rating and the year pass validation. The movie holds the title, the markup year and rating, the runtime, the first five non-empty genres, the director, the first five non-empty cast names, the truncated plot, the id, the URL and the creation time. |
| Extraction.MovieFromPage | imdb_scraper/scraper.py:220-245 | Without page properties in any block the movie is the markup movie. With them it is the movie of the first block's properties, or nothing when reading them raises. Any movie is valid and carries the id, URL and creation time. |
| Extraction.MarkupIgnoredWithPageProps | imdb_scraper/scraper.py:235-245 | Once a block has page properties, two pages with the same blocks give the same movie, whatever their markup. |
| Sorting.SortDescCorrect | imdb_scraper/scraper.py:207 | The sort is a permutation, its ranks never increase, and equal-ranking elements keep their input order. |
| History.Record | imdb_scraper/history.py:43-64 | Recording puts the key in the store, stamps it, sets the outcome and adds one to its count. Other keys are unchanged, and a well-formed store stays well-formed. |
| History.NormalizeIdempotent | imdb_scraper/history.py:50 | Normalising a normalised query changes nothing. |
| History.RecordAddsOne | imdb_scraper/history.py:59-62 | Each recorded search adds exactly one to the total of all counts. |
| History.RecordUnique | imdb_scraper/history.py:52-57 | A new query adds one distinct query, and a repeated one adds none. |
| History.UniqueIsOrderLength | imdb_scraper/history.py:180-186 | The number of distinct queries equals the number of keys in insertion order. |
| History.TopOfSorted | imdb_scraper/history.py:76-83 | The first `n` of a ranked sequence are sorted and drawn from the input, and are all of it when `n` covers it. Each kept element ranks at least as high as each dropped one. |
| History.PopularCorrect | imdb_scraper/history.py:66-91 | At most `limit` copies of stored entries, by count and then by last search. Nothing left out outranks anything listed. The listing draws each stored entry at most once, and lists every entry when `limit` covers the store. |
| History.StampedMembers | imdb_scraper/history.py:111-112 | The filter keeps exactly the entries that have a last search. |
| History.StampedOrdered | imdb_scraper/history.py:110-112 | Filtering keeps the order of what it keeps, so a list ranked by last search stays ranked. |
| History.KeepStamped | imdb_scraper/history.py:110-117 | The filtering loop returns exactly the filtered listing. |
| History.RecentCorrect | imdb_scraper/history.py:93-119 | At most `limit` stored entries, all of them searched. No searched entry left out is more recent than one listed. |
| History.RecentFromStore | imdb_scraper/history.py:102-117 | Each listed entry has a last search and is a copy of a stored entry. |
| History.RecentOutranks | imdb_scraper/history.py:102-117 | Each listed entry is at least as recent as each searched entry left out. |
| History.RecentComplete | imdb_scraper/history.py:102-117 | Each stored entry is listed at most once, and every searched entry is listed when `limit` covers the store. |
| History.StampedSubMultiset | imdb_scraper/history.py:110-112 | The filter only drops entries: it never adds or repeats one. |
| History.RecentOrdered | imdb_scraper/history.py:102-119 | The recent listing runs from the most recent search to the least recent. |
| History.ExpiredKeys | imdb_scraper/history.py:158-162 | The expired keys are exactly the keys whose last search lies before the cutoff. |
| History.Cleaned | imdb_scraper/history.py:164-165 | The cleaned store is well-formed. It holds exactly the unexpired entries, unchanged. |
| History.CleanedPartition | imdb_scraper/history.py:158-165 | Every key is either expired or kept by the cleanup, and never both. |
| History.CleanupCount | imdb_scraper/history.py:155-170 | The reported number plus the remaining entries equals the entries before the cleanup. |
| History.SearchHistory.constructor | imdb_scraper/history.py:13-33 | A history starts with the loaded store. |
| History.SearchHistory.RecordSearch | imdb_scraper/history.py:43-64 | The new state is `Record` of the old one under the normalised query, and the total grows by one. The query then exists. |
| History.SearchHistory.GetPopularSearches | imdb_scraper/history.py:66-91 | Returns exactly the popular listing. |
| History.SearchHistory.GetRecentSearches | imdb_scraper/history.py:93-119 | Returns exactly the recent listing. |
| History.SearchHistory.GetSearchStats | imdb_scraper/history.py:121-144 | A copy of the entry exactly when the normalised query exists, as `search_exists` tests. |
| History.SearchHistory.CleanupOldEntries | imdb_scraper/history.py:146-170 | The new state is the cleaned old state. The result is the number of expired queries, and it plus the remaining entries equals the old count. |
| History.SearchHistory.ExpiredQueries | imdb_scraper/history.py:155-162 | The first loop collects exactly the expired keys, in insertion order. |
| History.SearchHistory.DeleteEntries | imdb_scraper/history.py:164-165 | The second loop deletes exactly the listed keys. |
| History.SearchHistory.GetTotalSearches | imdb_scraper/history.py:172-178 | The loop sums every count. |
| History.SearchHistory.GetUniqueQueries | imdb_scraper/history.py:180-186 | The number of distinct queries. |
| History.SearchHistory.ClearHistory | imdb_scraper/history.py:188-192 | The history is empty and well-formed. |
| Scraper.RateLimitWait | imdb_scraper/scraper.py:35-41 | The pause is the least that makes half a second pass since the previous request started. There is no pause when that much time has already passed. |
| Scraper.Fetch | imdb_scraper/scraper.py:43-72 | The retry loop sends at least one request and at most `max_retries`, or none when `max_retries` is not positive. |
| Scraper.FetchShape | imdb_scraper/scraper.py:45-72 | Every attempt but the last met a request error. The pause after attempt `k` is `k + 1` seconds. A page is the result exactly when the last reply is a page. |
| Scraper.RetryThenSucceed | imdb_scraper/scraper.py:60-64 | Two request errors and then a page: three requests, with pauses of one and two seconds. |
| Scraper.AllAttemptsFail | imdb_scraper/scraper.py:60-67 | Three request errors: three requests, pauses of one and two seconds, and no page. |
| Scraper.NoRetryUnlessRequestError | imdb_scraper/scraper.py:53-70 | A non-HTML reply or an unexpected error ends the loop after one request, without a page. |
| Scraper.SpacedAppend | imdb_scraper/scraper.py:35-41 | A request started half a second after the last one keeps all requests spaced. |
| Scraper.SpacedIncreasing | imdb_scraper/scraper.py:35-41 | Spaced request start times strictly increase. |
| Scraper.HarvestItems | imdb_scraper/scraper.py:123-152 | The item loop computes exactly the item harvest of the block. |
| Scraper.HarvestBlock | imdb_scraper/scraper.py:113-156 | One block's processing computes exactly its harvest. |
| Scraper.StructuredPass | imdb_scraper/scraper.py:112-156 | The block loop computes exactly the structured pass. |
| Scraper.MarkupPass | imdb_scraper/scraper.py:163-201 | The element loop computes exactly the markup pass. |
| Scraper.Gather | imdb_scraper/scraper.py:105-201 | The two passes compute exactly the gathered results. |
| Scraper.DetailsOutcome | imdb_scraper/scraper.py:210-245 | A detail lookup gives a valid movie with the requested id and at most five cast names, or nothing. |
| Scraper.IMDbScraper.constructor | imdb_scraper/scraper.py:28-33 | A scraper starts with no requests sent, a last request time of zero and the loaded history. |
| Scraper.IMDbScraper.RateLimit | imdb_scraper/scraper.py:35-41 | Sleeps exactly the rate-limit pause and records the new request time, at least half a second after the previous one. |
| Scraper.IMDbScraper.Send | imdb_scraper/scraper.py:47-50 | One request, sent once the rate limit allows. Request start times stay spaced. |
| Scraper.IMDbScraper.Backoff | imdb_scraper/scraper.py:62-64 | The retry pause advances the clock by exactly the delay. |
| Scraper.IMDbScraper.Attempt | imdb_scraper/scraper.py:47-70 | One request. A page reply is the page. A request error asks for a retry, after a pause of `attempt + 1` seconds, exactly when attempts remain. Anything else ends the loop. |
| Scraper.IMDbScraper.MakeRequest | imdb_scraper/scraper.py:43-72 | The page and the number of requests are those of `Fetch` on the replies. The pauses taken are its delays. Request start times stay at least half a second apart. |
| Scraper.IMDbScraper.SearchMovies | imdb_scraper/scraper.py:92-208 | A blank query sends nothing and finds nothing. Otherwise the result is the ranked gathering of the fetched search page for the stripped query, or nothing when the fetch fails, and the requests sent are those of that fetch. |
| Scraper.ReadDetails | imdb_scraper/scraper.py:220-245 | The loop over script blocks reads the movie of the page: from the first block's page properties, or from the markup when no block has any. |
| Scraper.BestId | imdb_scraper/scraper.py:389-396 | The id of the first result, present exactly when there is a first result and its id is non-empty. |
| Scraper.IMDbScraper.GetMovieDetails | imdb_scraper/scraper.py:210-245 | An id without the `tt` prefix sends nothing and gives nothing. Otherwise the movie is the detail outcome of the fetched title page at the time of the reply, and the requests sent are those of that fetch. Any movie is valid and carries the requested id. |
| Scraper.IMDbScraper.LookupBest | imdb_scraper/scraper.py:389-398 | No first result with an id gives nothing. Otherwise the movie is the detail lookup of that id. |
| Scraper.IMDbScraper.FindBest | imdb_scraper/scraper.py:388-398 | The movie is the detail lookup of the id of the first result of a one-result search, made after the search's requests. Without such an id it is nothing. |
| Scraper.IMDbScraper.SearchAndGetMovie | imdb_scraper/scraper.py:386-400 | The lookup is recorded exactly once: as a success exactly when a movie is returned, under the normalised query, at the current time. Without a first search result or without its id, the movie is nothing. Otherwise it is the detail lookup of that id, made after the search's requests. Any movie returned is valid. |

## Left out

- Logging, session headers and the request timeout: they do not change what the scraper returns.
- Floating-point time: the clock is in whole milliseconds. The constants become 500 ms between requests and 1000 ms per retry step.
- URL building: `quote` and the URL formats of the search and title pages are not modelled. A request is identified by the stripped query or by the title id.
- `urljoin` on a markup link is not modelled: a `Link` holds the joined URL.
- HTML parsing and CSS selection are not modelled. A `Page` holds what the selectors of `config.py` pick. A script block whose text is missing, empty or not valid JSON is `Unreadable`.
- `float()` on rating text is the parameter `parseFloat`. The ISO rendering and parsing of timestamps are the parameters `isoFormat` and `isoParse`.
- Loading and saving the history file, and deleting it in `clear_history`, are not modelled. A history starts from a loaded, well-formed store.
- History timestamps are clock readings. The ISO strings the source stores and compares sort in the same order as the instants they name.
- Extraction.YearField: a JSON year that is not a whole number is rejected, while Python would keep the float. A boolean year counts as 0 or 1, as in Python.
- Extraction.PropsMovie: a runtime, director, genre or cast name that is not a string is rejected as a `TypeError`, while Python would store it in the movie unchanged.
- Extraction.ItemResult: a search item whose `id` is truthy but not a string gets no id and no URL. Python keeps the value and builds a URL from it.
- Json.Slice: slicing a dict raises `KeyError`, which is what Python 3.12 and later do. Earlier versions raise `TypeError`, which would end the structured pass instead of skipping the block.
- Sorting by Python tuple keys is modelled by the comparators `PopularGe` and `RecentGe`. An absent last search ranks below every timestamp, as `or ""` makes it.
- Models.MovieFromFields: booleans and other kinds Python would accept unchecked in the dictionary are rejected as `WrongType`.
- Text.Lower: maps only ASCII and Latin-1 capitals to lower case. Python's `str.lower` follows the full Unicode case tables.
- Text.IsDigit: is `0`–`9` only. Python's `\d` on `str` patterns matches every Unicode decimal digit.
- Text.IsWordChar: is ASCII letters, digits and `_` only. Python's `\w` on `str` patterns matches every Unicode letter and digit.
- Extraction.FindYear: uses the ASCII `\d` and `\w` above, so a year next to a non-ASCII letter or digit can be found where Python would see no word boundary, and non-ASCII digits never form a year.
- Extraction.RelevanceScore: compares through the ASCII and Latin-1 `lower` above, so titles differing only in other scripts' letter case score 0.5 where Python gives 1.0.
- Extraction.TitleIdIn: uses the ASCII `\d` above, so non-ASCII digits after `tt` do not form an id.
- History.Normalize: lower-cases through the ASCII and Latin-1 `lower` above, so queries differing only in other scripts' letter case stay distinct keys.
- The retry loop of `MakeRequest` leaves through a flag rather than `return` statements. The result is the same.

`max_results` is applied to each embedded JSON block separately (imdb_scraper/scraper.py:123), so several blocks can give more than `max_results` candidates. The model follows the code, and `Extraction.LimitIsPerBlock` exhibits it.
