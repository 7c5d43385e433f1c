# lagransala content acquisition, modelled in Dafny

lagransala collects cultural events from venue web sites. This project
models its content-acquisition core:

- Pagination descriptors. They are validated and turn into the list of page
  URLs to scrape, kind by kind (NONE, SIMPLE, DAY, MONTH). The module-level
  copy `pagination_urls` is modelled too.
- Link extraction and the "looks like an HTML page" heuristic.
- The two breadth-first, same-host crawlers: the one built on a `Fetcher` and
  the aiohttp one.
- The `cached` decorator with its key generation (signature binding,
  `key_params`, sorted keyword items), and its two backends: the in-memory
  dictionary and the one-file-per-key directory.
- The two JSON-file repositories (paginations by id, content scrapers by
  venue slug) and the two venue lookups built on a repository.

Foreign code is passed in as parameters:

- `urlparse`, `urljoin`, pydantic's `HttpUrl` and `html.unescape` are the
  function fields of `Web.UrlLib`.
- A parsed HTML document is its sequence of tags.
- The network is a finite map from URL to response. Any other URL answers 404.
  A fetch always answers; a fetch that raises is not modelled (see "## Left out").
- `datetime.now()` and `strftime` are the pagination `Env`.
- The clock of the cache backends is an integer reading given to each call.
- The SHA-256-of-JSON key hash is a function `KeyData -> string`.

Stateful entities are classes whose methods are proved against
specification functions:

- Each crawler's `visited`, `processed` and `queue`.
- Each cache backend's store.
- Each repository's file contents.

The lemmas then state what the source promises of those functions. For
example:

- A crawl visits exactly the least set closed under "same-host link of an
  accepted page".
- The file cache name is an injective, slash-free encoding of the key.
- A value set with a ttl reads back until its expiry and not after.
- The cache key ignores keyword order. With `key_params` it ignores
  unlisted arguments. Otherwise it separates any two different bindings.

## Model

| member | source | states |
|---|---|---|
| PaginationDomain.Validate | src/lagransala/scraper/domain/pagination.py:26-59 | a descriptor is accepted (and returned unchanged) exactly when its kind's rules hold: NONE/no type has no limit, start or date format; SIMPLE has `{n}`, a start and a limit; DAY has `{date}`, a format and a limit; MONTH has `{month}`, a format and a limit |
| PaginationDomain.Urls | src/lagransala/scraper/domain/pagination.py:61-99 | `urls()` yields the enumeration of the descriptor with the month formatted into `month` |
| PaginationDomain.Collect | src/lagransala/scraper/domain/pagination.py:79-84 | the DAY/MONTH loop yields the first `max(limit, 0)` steps in order, or the error of the first failing step |
| PaginationDomain.GatherOk | src/lagransala/scraper/domain/pagination.py:68-74 | a run of steps succeeds exactly when every step does, and then yields their URLs in order |
| PaginationDomain.GatherErr | src/lagransala/scraper/domain/pagination.py:90-99 | a failed run reports the error of its first failing step |
| PaginationDomain.GatherErrPersists | src/lagransala/scraper/domain/pagination.py:79-84 | once a prefix of the loop fails, every longer run fails with that same error |
| PaginationDomain.UnpaginatedUrls | src/lagransala/scraper/domain/pagination.py:63-64 | NONE or no type gives the one-element list of the validated template, placeholders untouched |
| PaginationDomain.SimpleUrls | src/lagransala/scraper/domain/pagination.py:65-74 | SIMPLE gives `max(limit, 0)` URLs, the i-th formatted with `n = start + i`, and succeeds exactly when each formats and validates |
| PaginationDomain.DayUrls | src/lagransala/scraper/domain/pagination.py:75-84 | DAY gives `max(limit, 0)` URLs, the i-th from the day i days after today, and succeeds exactly when no day passes 9999-12-31 and each URL formats and validates |
| PaginationDomain.MonthUrls | src/lagransala/scraper/domain/pagination.py:85-99 | MONTH gives `max(limit, 0)` URLs, the i-th from the first of month `current + i` of the current year, and succeeds exactly when that month number never passes 12 and each URL formats and validates |
| PaginationDomain.MonthNoRollover | src/lagransala/scraper/domain/pagination.py:91-92 | a MONTH descriptor whose pages run past December always fails, whatever its template |
| PaginationDomain.RolledMonthStart | src/lagransala/scraper/domain/pagination.py:92 | the corrected month: i months after (year, month) carried into later years, always in 1..12 |
| PaginationDomain.RolledMonthUrls | src/lagransala/scraper/domain/pagination.py:88-99 | with rollover a `{month}` template yields one URL per month for any limit, the i-th with the i-th month from now in place of the placeholder |
| PaginationDomain.MonthTemplateRenders | src/lagransala/scraper/domain/pagination.py:94-96 | a `{month}` template, within the year, enumerates to the template with each month's rendering in place of the placeholder |
| PaginationUrls.PaginationUrls | src/lagransala/scraper/application/pagination_urls.py:7-45 | `pagination_urls` yields the enumeration of the descriptor with the month formatted into `date` |
| PaginationUrls.AgreesWithDomain | src/lagransala/scraper/application/pagination_urls.py:9-32 | on NONE, SIMPLE and DAY the copy and `Pagination.urls()` give the same result; on MONTH only when nothing is formatted |
| PaginationUrls.MonthTemplateFails | src/lagransala/scraper/application/pagination_urls.py:40-43 | a validated MONTH descriptor with a positive limit fails with KeyError('month') on its first page |
| Strings.ContainsIff | src/lagransala/scraper/domain/pagination.py:40 | `sub in s` holds exactly when `sub` occurs at some offset of `s` |
| Strings.FormatOneField | src/lagransala/scraper/domain/pagination.py:69 | `str.format` of a template with one matching field between brace-free text replaces the field by the value |
| Strings.FormatOtherField | src/lagransala/scraper/application/pagination_urls.py:40-43 | `str.format` raises KeyError naming the first field when that field is not the keyword supplied |
| Strings.FormatLiteral | src/lagransala/scraper/domain/pagination.py:69 | brace-free text formats to itself |
| Strings.LowerSameIffSameIgnoringCase | src/lagransala/shared/application/urls.py:10 | two strings lower-case to the same string exactly when, position by position, they differ at most by the case of an ASCII letter |
| Strings.LowerIdempotent | src/lagransala/shared/application/urls.py:10 | lower-casing twice is lower-casing once |
| Urls.LastSegment | src/lagransala/shared/application/urls.py:13 | `path.split("/")[-1]` is a slash-free suffix of the path preceded by '/' when shorter than it |
| Urls.NoDotInLastSegment | src/lagransala/shared/application/urls.py:13 | the last segment has no dot exactly when every dot of the path has a '/' after it |
| Urls.IsHtmlPathIff | src/lagransala/shared/application/urls.py:9-15 | a URL looks like a page exactly when its lower-cased path ends in '/', .html, .htm, .php, .asp, .aspx or .jsp, or no dot follows its last '/' |
| Urls.ExtensionMatchIff | src/lagransala/shared/application/urls.py:6 | matching some member of `HTML_EXTENSIONS` is matching one of the seven listed endings |
| Urls.IsHtmlPathIgnoresCase | src/lagransala/shared/application/urls.py:9-15 | two paths that differ only in the case of their letters are classified alike |
| Urls.UpperCaseEndingIsPage | src/lagransala/shared/application/urls.py:6-11 | a path ending in ".HTML" is a page, since the ending is compared after lower-casing |
| Urls.ExtractUrls | src/lagransala/shared/application/urls.py:18-29 | the loop over the tags collects exactly the specified set of kept links |
| Urls.ExtractedIff | src/lagransala/shared/application/urls.py:22-27 | a string is extracted exactly when some tag contributes it |
| Urls.ExtractedAreNavigable | src/lagransala/shared/application/urls.py:22-27 | every extracted link has scheme http, https or none, looks like a page, and is the unescaped href or src of a searched tag |
| Urls.HrefPreferred | src/lagransala/shared/application/urls.py:23 | a non-empty href wins over src |
| CrawlDomain.FormatUrlSplits | src/lagransala/scraper/application/crawler.py:17-23 | `_format_url` loses nothing: splitting at the first '?' gives back path and query when the path holds no '?' |
| CrawlDomain.InUniverse | src/lagransala/scraper/application/crawler.py:57-70 | every validated link of a site page lies in the finite universe a crawl can visit |
| Crawling.LeastClosedUnique | src/lagransala/scraper/application/crawler.py:72-97 | two sets that are both least closed around the start are equal, so the crawl result is determined |
| Crawling.SuccessorsBounded | src/lagransala/scraper/application/crawler.py:57-70 | what a page adds stays in the universe and on the start host |
| Crawling.ExploreStep | src/lagransala/scraper/application/crawler.py:42-70 | fetching the first pending URL keeps the search invariant for any link graph: no URL queued twice, the queue is the unfetched suffix of everything queued, fetched URLs are processed exactly when accepted and have their successors visited, and everything visited is in every closed set around the start |
| Crawling.ExploredStart | src/lagransala/scraper/application/crawler.py:74-76 | the start alone visited and queued satisfies the search invariant |
| Crawling.ExploredDone | src/lagransala/scraper/application/crawler.py:78-87 | an empty queue means the visited set is closed and the processed set is exactly its accepted members |
| Crawling.ProcessedAccepted | src/lagransala/scraper/application/crawler.py:46-55 | processed exactly when visited and accepted is the set of visited URLs whose fetch is accepted |
| Crawling.OnHost | src/lagransala/scraper/application/crawler.py:66-70 | a visited set inside the bound holds only URLs on the start host |
| Crawling.Crawler.constructor | src/lagransala/scraper/application/crawler.py:27-40 | a fresh crawler has nothing visited, processed or queued |
| Crawling.Crawler.FetchAndExtract | src/lagransala/scraper/application/crawler.py:42-70 | a page with status 200 and "text/html" in its content type is processed, and its unseen same-host links are visited and queued once each, appended after the queue |
| Crawling.Crawler.FollowLinks | src/lagransala/scraper/application/crawler.py:57-70 | the link loop visits exactly the page's same-host validated targets and queues the new ones, each once |
| Crawling.Crawler.Consider | src/lagransala/scraper/application/crawler.py:58-70 | one link: resolved, validated, and visited and queued only when unseen and on the start host |
| Crawling.Crawler.FetchNext | src/lagransala/scraper/application/crawler.py:83-87 | one fetch of the batch keeps the search invariant and appends to the queue exactly the URLs it newly visited |
| Crawling.Crawler.TakeBatch | src/lagransala/scraper/application/crawler.py:79-81 | the whole queue, in order, becomes the batch |
| Crawling.Crawler.RunBatch | src/lagransala/scraper/application/crawler.py:78-87 | a round keeps the search invariant and leaves queued exactly what it newly visited |
| Crawling.Crawler.Drain | src/lagransala/scraper/application/crawler.py:78-87 | rounds run until the queue is empty, keeping the search invariant; they terminate because each round that queues something visits new URLs of the finite bound |
| Crawling.Crawler.Run | src/lagransala/scraper/application/crawler.py:72-97 | the visited URLs are the least set holding the start and closed under same-host links of accepted pages, all on the start host; processed URLs are its accepted members; pages are the formatted processed URLs other than the start that pass the filter |
| AiohttpCrawling.SuccessorsBounded | src/lagransala/scraper/infrastructure/aiohttp_crawler.py:56-69 | what a page adds stays in the universe, and a page that is not accepted adds nothing |
| AiohttpCrawling.ExploreStep | src/lagransala/scraper/infrastructure/aiohttp_crawler.py:41-69 | fetching the first pending URL keeps the search invariant of the aiohttp crawler for any link graph: a URL is visited once discovered, and the start only once its own fetch is accepted |
| AiohttpCrawling.OnlyStart | src/lagransala/scraper/infrastructure/aiohttp_crawler.py:52-53 | while the start is unvisited nothing is visited and only the start was ever queued |
| AiohttpCrawling.ExploreFirst | src/lagransala/scraper/infrastructure/aiohttp_crawler.py:41-69 | the fetch of the start: accepted, the start and its successors are visited and the new ones queued; rejected, nothing changes and the queue empties |
| AiohttpCrawling.ExploreLater | src/lagransala/scraper/infrastructure/aiohttp_crawler.py:56-69 | a fetch after the start was visited adds its successors and keeps the invariant |
| AiohttpCrawling.ExploredStart | src/lagransala/scraper/infrastructure/aiohttp_crawler.py:73-74 | nothing visited and the start queued satisfies the search invariant |
| AiohttpCrawling.ExploredDone | src/lagransala/scraper/infrastructure/aiohttp_crawler.py:76-85 | at the end the start is visited exactly when its own fetch was accepted, the visited set is closed, and a rejected start leaves nothing visited |
| AiohttpCrawling.RunStart | src/lagransala/scraper/infrastructure/aiohttp_crawler.py:73-74 | the initial state of `run` satisfies the invariant over the start's universe and host |
| AiohttpCrawling.RunDone | src/lagransala/scraper/infrastructure/aiohttp_crawler.py:76-87 | at the end, with the start put back, the visited set is the least closed set around the start when the start is accepted, and empty with only the start queued otherwise |
| AiohttpCrawling.AiohttpCrawler.constructor | src/lagransala/scraper/infrastructure/aiohttp_crawler.py:27-39 | a fresh crawler has nothing visited or queued |
| AiohttpCrawling.AiohttpCrawler.FetchAndExtract | src/lagransala/scraper/infrastructure/aiohttp_crawler.py:41-69 | only status 200, content type exactly "text/html" and a decodable body count; such a page is marked visited and its unseen same-host links are visited and queued once each |
| AiohttpCrawling.AiohttpCrawler.FollowLinks | src/lagransala/scraper/infrastructure/aiohttp_crawler.py:56-69 | the link loop visits exactly the page's validated targets whose resolved text has the start host |
| AiohttpCrawling.AiohttpCrawler.Consider | src/lagransala/scraper/infrastructure/aiohttp_crawler.py:57-69 | one link: resolved, validated, host read from the resolved text, visited and queued only when unseen and on the start host |
| AiohttpCrawling.AiohttpCrawler.FetchNext | src/lagransala/scraper/infrastructure/aiohttp_crawler.py:81-85 | one fetch of the batch keeps the search invariant and queues only URLs that were not visited before the round |
| AiohttpCrawling.AiohttpCrawler.TakeBatch | src/lagransala/scraper/infrastructure/aiohttp_crawler.py:77-79 | the whole queue, in order, becomes the batch |
| AiohttpCrawling.AiohttpCrawler.RunBatch | src/lagransala/scraper/infrastructure/aiohttp_crawler.py:76-85 | a round keeps the search invariant and leaves queued only URLs it newly visited |
| AiohttpCrawling.AiohttpCrawler.Drain | src/lagransala/scraper/infrastructure/aiohttp_crawler.py:76-85 | rounds run until the queue is empty, keeping the search invariant; they terminate because each round that queues something visits new URLs of the finite universe |
| AiohttpCrawling.AiohttpCrawler.Run | src/lagransala/scraper/infrastructure/aiohttp_crawler.py:71-94 | when the start is accepted, the visited set plus the start is the least closed set around it; otherwise nothing was visited and only the start was queued; the start is discarded and the pages are every other visited URL passing the filter, formatted |
| MemoryBackend.ExpiryAt | src/lagransala/shared/infrastructure/memory_cache_backend.py:25 | an expiry is recorded exactly when a ttl is given |
| MemoryBackend.Lookup | src/lagransala/shared/infrastructure/memory_cache_backend.py:13-22 | `get` answers a value exactly when the key is present and not past its expiry, and then the stored value |
| MemoryBackend.Pruned | src/lagransala/shared/infrastructure/memory_cache_backend.py:18-20 | `get` removes the key only when its entry is stale, and changes no other entry |
| MemoryBackend.MemoryCacheBackend.constructor | src/lagransala/shared/infrastructure/memory_cache_backend.py:10-11 | the store starts empty |
| MemoryBackend.MemoryCacheBackend.Get | src/lagransala/shared/infrastructure/memory_cache_backend.py:13-22 | answers the lookup and leaves the pruned store |
| MemoryBackend.MemoryCacheBackend.Set | src/lagransala/shared/infrastructure/memory_cache_backend.py:24-26 | overwrites the key with the value and `now + ttl` (or no expiry) |
| MemoryBackend.SetThenGet | src/lagransala/shared/infrastructure/memory_cache_backend.py:18-26 | a value set at t reads back exactly until t + ttl, and forever without a ttl |
| MemoryBackend.GetAbsent | src/lagransala/shared/infrastructure/memory_cache_backend.py:14-16 | a missing key reads as None and nothing changes |
| MemoryBackend.GetPrunesOnlyStale | src/lagransala/shared/infrastructure/memory_cache_backend.py:18-22 | a hit changes nothing; a present key that misses is deleted |
| MemoryBackend.GetRepeatable | src/lagransala/shared/infrastructure/memory_cache_backend.py:13-22 | a second read at the same time answers as the first and prunes nothing more |
| MemoryBackend.OtherKeysUnaffected | src/lagransala/shared/infrastructure/memory_cache_backend.py:13-26 | reads and writes of one key never change what another key reads |
| MemoryBackend.SetOverwrites | src/lagransala/shared/infrastructure/memory_cache_backend.py:24-26 | a second set replaces both value and expiry of the first |
| Utf8.DecodeEncode | src/lagransala/shared/infrastructure/file_cache_backend.py:21 | decoding the UTF-8 bytes of a key gives back the key |
| Utf8.EncodeInjective | src/lagransala/shared/infrastructure/file_cache_backend.py:21 | distinct keys have distinct UTF-8 bytes |
| Base64Url.EncodeLength | src/lagransala/shared/infrastructure/file_cache_backend.py:21 | the padded encoding of n bytes has 4 * ceil(n / 3) characters |
| Base64Url.EncodeAlphabet | src/lagransala/shared/infrastructure/file_cache_backend.py:21 | the encoding uses only the URL-safe alphabet and '=' |
| Base64Url.DecodeEncode | src/lagransala/shared/infrastructure/file_cache_backend.py:21 | decoding undoes the URL-safe encoding |
| Base64Url.EncodeInjective | src/lagransala/shared/infrastructure/file_cache_backend.py:21 | distinct byte strings have distinct encodings |
| FileBackend.PathForKey | src/lagransala/shared/infrastructure/file_cache_backend.py:20-22 | the cache file name ends in ".json" |
| FileBackend.KeyForPathForKey | src/lagransala/shared/infrastructure/file_cache_backend.py:20-22 | the file name gives back its key |
| FileBackend.PathForKeyInjective | src/lagransala/shared/infrastructure/file_cache_backend.py:20-22 | distinct keys never share a file |
| FileBackend.PathForKeyIsPlainName | src/lagransala/shared/infrastructure/file_cache_backend.py:20-22 | the file name holds no '/', so it lands directly in the cache directory |
| FileBackend.Lookup | src/lagransala/shared/infrastructure/file_cache_backend.py:24-40 | `get` answers a value exactly when the key's file exists, parses, is not expired and its data validates, and then that data |
| FileBackend.Pruned | src/lagransala/shared/infrastructure/file_cache_backend.py:33-36 | only an expired file of the key is removed |
| FileBackend.FileCacheBackend.constructor | src/lagransala/shared/infrastructure/file_cache_backend.py:15-18 | files already in the directory are kept |
| FileBackend.FileCacheBackend.Get | src/lagransala/shared/infrastructure/file_cache_backend.py:24-40 | answers the lookup and leaves the pruned directory |
| FileBackend.FileCacheBackend.Set | src/lagransala/shared/infrastructure/file_cache_backend.py:42-47 | writes the key's file with the value and `now + ttl` (or no expiry) |
| FileBackend.SetThenGet | src/lagransala/shared/infrastructure/file_cache_backend.py:24-47 | a value set at t reads back exactly until t + ttl, and forever without a ttl |
| FileBackend.ExpiredIsRemoved | src/lagransala/shared/infrastructure/file_cache_backend.py:33-36 | a read after the expiry removes the file |
| FileBackend.CorruptIsMiss | src/lagransala/shared/infrastructure/file_cache_backend.py:38-40 | an unreadable file or invalid data is a miss, and the file stays unless expired |
| FileBackend.OtherKeysUnaffected | src/lagransala/shared/infrastructure/file_cache_backend.py:20-47 | reads and writes of one key never change what another key reads |
| FileBackend.SetOverwrites | src/lagransala/shared/infrastructure/file_cache_backend.py:42-47 | a second set replaces both value and expiry of the first |
| Caching.Put | src/lagransala/shared/application/caching.py:33 | `d[name] = v` keeps names distinct, answers v for name and the old answers for the others |
| Caching.GetIff | src/lagransala/shared/application/caching.py:32-33 | in a dict, looking a name up and finding its item are the same |
| Caching.Sort | src/lagransala/shared/application/caching.py:34 | `sorted(items)` is a permutation of the items, ordered by name |
| Caching.SortKeepsGet | src/lagransala/shared/application/caching.py:34 | sorting keeps what the dict answers |
| Caching.BelowTotal | src/lagransala/shared/application/caching.py:34 | Python's string order is total on distinct strings |
| Caching.BelowTrans | src/lagransala/shared/application/caching.py:34 | Python's string order is transitive |
| Caching.Bind | src/lagransala/shared/application/caching.py:25-27 | binding succeeds with one entry per parameter |
| Caching.PositionalArgs | src/lagransala/shared/application/caching.py:38 | `bound_args.args` is the leading run of bound positional-or-keyword arguments |
| Caching.KeywordArgsFrom | src/lagransala/shared/application/caching.py:39 | `bound_args.kwargs` holds exactly the bound parameters after the leading run, with their values |
| Caching.Named | src/lagransala/shared/application/caching.py:32-33 | a name is in `bound_args.arguments` exactly when its parameter is bound, with its value |
| Caching.Selection | src/lagransala/shared/application/caching.py:29-33 | `filtered_args` has distinct names, all listed in `key_params` |
| Caching.SelectionHolds | src/lagransala/shared/application/caching.py:29-33 | `filtered_args` holds exactly the listed names that are bound, with their values |
| Caching.GenerateKey | src/lagransala/shared/application/caching.py:15-44 | the loop over `key_params` computes the specified key, or the binding error |
| Caching.UnknownKeywordIff | src/lagransala/shared/application/caching.py:26 | no TypeError for an unexpected keyword exactly when every keyword names a parameter |
| Caching.KeywordOrderIrrelevant | src/lagransala/shared/application/caching.py:25-27 | the order of keyword arguments does not change the binding or its failure |
| Caching.KeyIgnoresKeywordOrder | src/lagransala/shared/application/caching.py:15-44 | the key does not depend on the order of keyword arguments |
| Caching.DefaultsApplied | src/lagransala/shared/application/caching.py:27 | leaving out a parameter with a default binds as passing the default |
| Caching.PositionOrKeyword | src/lagransala/shared/application/caching.py:26 | passing the next positional-or-keyword parameter by position or by name binds alike |
| Caching.SelectionDependsOnListed | src/lagransala/shared/application/caching.py:29-34 | with `key_params`, arguments not listed do not affect the key data |
| Caching.SelectedKeyIgnoresOthers | src/lagransala/shared/application/caching.py:29-44 | calls that bind the listed parameters alike get the same key |
| Caching.SelectedKeySeparates | src/lagransala/shared/application/caching.py:29-44 | with an injective hash, a listed parameter bound differently gives a different key |
| Caching.AllArgumentsDetermine | src/lagransala/shared/application/caching.py:35-40 | without `key_params`, the key data determine every bound argument |
| Caching.FullKeySeparates | src/lagransala/shared/application/caching.py:35-44 | without `key_params` and with an injective hash, different bindings get different keys |
| Caching.Cached | src/lagransala/shared/application/caching.py:57-58 | the decorator refuses exactly a key function together with a non-empty parameter list, with the source's message |
| Caching.CallCached | src/lagransala/shared/application/caching.py:64-78 | a binding error propagates and nothing is stored; a hit returns the stored value without calling the function; a miss calls it, stores the result with the ttl and returns it |
| Caching.MissThenHit | src/lagransala/shared/application/caching.py:70-78 | after a miss, the next call within the ttl gets the stored result |
| JsonStore.FirstMatch | src/lagransala/scraper/infrastructure/json_pagination_repo.py:45 | `next(filter(...), None)` is None exactly when no record has the key |
| JsonStore.FirstMatchIsFirst | src/lagransala/scraper/infrastructure/json_pagination_repo.py:45 | the match found is the first record with the key |
| JsonStore.UpsertExisting | src/lagransala/scraper/infrastructure/json_pagination_repo.py:22-25 | adding a present key replaces every record with that key in place and keeps the rest |
| JsonStore.UpsertNew | src/lagransala/scraper/infrastructure/json_pagination_repo.py:26-27 | adding a new key appends the record |
| JsonStore.UpsertThenFind | src/lagransala/scraper/infrastructure/json_pagination_repo.py:19-30 | after adding a record, looking up its key finds it |
| JsonStore.UpsertKeepsOthers | src/lagransala/scraper/infrastructure/json_pagination_repo.py:19-30 | adding a record changes no lookup of another key |
| JsonStore.UpsertIdempotent | src/lagransala/scraper/infrastructure/json_pagination_repo.py:19-30 | adding the same record twice is adding it once |
| JsonStore.UpsertKeepsKeysUnique | src/lagransala/scraper/infrastructure/json_pagination_repo.py:19-30 | keys stay unique when they were |
| JsonPaginationRepository.Query | src/lagransala/scraper/infrastructure/json_pagination_repo.py:38-47 | an invalid file fails; no id lists everything; an id finds a record exactly when one has that id |
| JsonPaginationRepository.JsonPaginationRepo.constructor | src/lagransala/scraper/infrastructure/json_pagination_repo.py:13-17 | a missing file starts as the empty list; an existing one is kept |
| JsonPaginationRepository.JsonPaginationRepo.Add | src/lagransala/scraper/infrastructure/json_pagination_repo.py:19-30 | an invalid file fails and is not written; otherwise the file becomes the upserted list |
| JsonPaginationRepository.JsonPaginationRepo.Get | src/lagransala/scraper/infrastructure/json_pagination_repo.py:38-47 | answers the query on the current contents |
| JsonPaginationRepository.AddThenGet | src/lagransala/scraper/infrastructure/json_pagination_repo.py:19-47 | after `add(p)`, `get(p.id)` is p and other ids answer as before |
| JsonContentScraperRepository.Query | src/lagransala/scraper/infrastructure/json_content_scraper_repo.py:42-60 | an invalid file raises ValueError with the file name and the errors; a missing or empty slug lists everything; a slug finds a record exactly when one has it |
| JsonContentScraperRepository.JsonContentScraperRepo.constructor | src/lagransala/scraper/infrastructure/json_content_scraper_repo.py:16-20 | a missing file starts as the empty list; an existing one is kept |
| JsonContentScraperRepository.JsonContentScraperRepo.Add | src/lagransala/scraper/infrastructure/json_content_scraper_repo.py:22-34 | an invalid file fails and is not written; otherwise the file becomes the upserted list |
| JsonContentScraperRepository.JsonContentScraperRepo.Get | src/lagransala/scraper/infrastructure/json_content_scraper_repo.py:42-60 | answers the query on the current contents |
| JsonContentScraperRepository.AddThenGet | src/lagransala/scraper/infrastructure/json_content_scraper_repo.py:22-60 | after `add(c)`, `get(c.venue_slug)` is c and other non-empty slugs answer as before |
| VenueLookup.GetVenuePagination | src/lagransala/applications/event_discovery/get_venue_pagination.py:5-9 | succeeds exactly when the repository has a record for the venue's slug, returning it; otherwise fails with the source's message |
| VenueLookup.GetVenueContentScraper | src/lagransala/applications/event_discovery/get_venue_content_scraper.py:5-9 | succeeds exactly when the repository has a record for the venue's slug, returning it; otherwise fails with the source's message |
| VenueLookup.PaginationAsksOnlyForSlug | src/lagransala/applications/event_discovery/get_venue_pagination.py:6 | the outcome depends only on the repository's answer for the venue's slug |
| VenueLookup.ContentScraperAsksOnlyForSlug | src/lagransala/applications/event_discovery/get_venue_content_scraper.py:6 | the outcome depends only on the repository's answer for the venue's slug |
| VenueLookup.ContentScraperFromRecords | src/lagransala/applications/event_discovery/get_venue_content_scraper.py:5-9 | over the JSON repository, the lookup succeeds exactly when some record has the slug, and returns the first one |

## Left out

- Concurrency. Each batch's fetches run one after another. The crawlers' semaphore, `max_concurrency` and the asyncio tasks are not modelled. The locked check-and-add of a discovered URL is one atomic step, as the lock makes it.
- Timestamps. The `date` and `duration` fields of `CrawlResult` are not modelled; the result is the start URL and the page set.
- Foreign functions. `urlparse`, `urljoin`, `HttpUrl` validation, `html.unescape` and BeautifulSoup parsing are not modelled. The first four are uninterpreted functions of `Web.UrlLib`; a parsed page is its sequence of tags.
- Crawling.Crawler.Run: every fetch answers with a response. In the source a fetcher can raise (a connection error, a timeout, an undecodable body), `asyncio.gather` passes the exception on, and `run` raises instead of returning a result. A fetch that raises, which aborts the whole crawl, is not modelled.
- AiohttpCrawling.AiohttpCrawler.Run: likewise, `session.get` raising on a connection error aborts the crawl in the source and is not modelled; only a body that fails to decode is handled, as a rejected page.
- Crawling.Crawler.Run: requires a fresh crawler (nothing visited or queued), as the source only ever calls `run` once per crawler.
- AiohttpCrawling.AiohttpCrawler.Run: requires a fresh crawler, for the same reason.
- AiohttpCrawling.AiohttpCrawler.RunBatch: states only that what a round leaves queued was newly visited. The converse does not hold, since an accepted start page is visited without being queued again.
- AiohttpCrawling.AiohttpCrawler.Run: follows the code, not tests/scraper/infrastructure/test_aiohttp_crawler.py:87. The pages are every visited URL other than the start, so links that were discovered but whose fetch failed are included. That test expects only the successfully fetched pages.
- Strings.Lower: lower-cases ASCII letters only; Python's full Unicode case mapping is not modelled.
- Strings.Format: a replacement field is matched by its whole text. Format specs, conversions, attribute access and indexing in a field are treated as unknown fields.
- PaginationDomain.Step: the clock and `strftime` are parameters; calendar arithmetic is modelled only as the day ordinal, bounded by 9999-12-31.
- PaginationDomain.Step: a `Moment` carries no time of day. The source resets hour, minute and second but keeps the microseconds of `datetime.now()`, so a date format with `%f` would print them; `strftime` is a parameter that sees only the day or month.
- The `print(month)` at src/lagransala/scraper/domain/pagination.py:93 is output only and is not modelled.
- Caching.Bind: models positional-or-keyword and keyword-only parameters with defaults. Positional-only parameters, `*args` and `**kwargs` are not modelled.
- Caching.GeneratedKey: `json.dumps` and SHA-256 are a hash function parameter. The lemmas that separate keys assume it is injective.
- Caching.CallCached: an exception raised by the wrapped coroutine is not modelled; the function is a total parameter. A key function's own exceptions are not modelled either.
- Caching.CallCached: the generic `CacheBackend` protocol is limited to the two backends in the source.
- MemoryBackend.MemoryCacheBackend.Set: time is an integer clock reading, not a float from `time.time()`, and the ttl is an integer.
- FileBackend.FileCacheBackend.Set: time and ttl are integers as above. The file text is abstracted to what `get` makes of it; `model_dump` followed by `model_validate` is taken to give the value back.
- FileBackend.FileCacheBackend.Get: any exception while reading (I/O errors, bad JSON, a missing "data" field, failed validation) is the single `Unreadable` or `data: None` case.
- Utf8.Encode: a lone surrogate cannot occur, since a Dafny `char` is a Unicode scalar value; Python's encode error for one is not modelled.
- VenueLookup.GetVenuePagination: the `PaginationRepo` protocol is keyed by venue slug, while `JsonPaginationRepo.get` takes an id. The lookup is therefore modelled over an abstract slug lookup rather than over the JSON repository.
- The logging of validation errors in src/lagransala/scraper/infrastructure/json_content_scraper_repo.py:50-53 is output only and is not modelled.
- Model validation of `Venue`, `ContentScraper` and `Pagination` fields (UUIDs, slugs, URL types) beyond `validate_pagination` is not modelled. Ids are natural numbers; a content scraper's settings are opaque text.
- Signs of `limit` and `simple_start_from` are not checked by the source, and the model keeps them as integers: a negative limit gives an empty list.

## Findings

| source | as written | input that shows it | evidently intended | confidence | as-written member | corrected member |
|---|---|---|---|---|---|---|
| src/lagransala/scraper/domain/pagination.py:92 | the MONTH page i replaces the month number by current month + i in the same year, which raises once it passes 12 | current month 12 (December), limit 2: the second page asks for month 13 | pages continue into January and later months of the next year | not executed | PaginationDomain.MonthNoRollover | PaginationDomain.RolledMonthUrls |
| src/lagransala/scraper/application/pagination_urls.py:40-43 | the MONTH branch formats the month into a `date` placeholder, while validation demands `{month}` in the URL | a validated MONTH descriptor with URL `https://x/{month}` and limit 1: formatting raises KeyError('month') on the first page | format into `month`, as `Pagination.urls()` does | not executed | PaginationUrls.MonthTemplateFails | PaginationDomain.MonthTemplateRenders |
