# Avito scraper: a verified model of the crawl and the database front end

The scraper collects Avito ads in two ways. The first is a keyword search in one region (`parse_by_search`). The second is every active ad of one storefront (`parse_shop`). For each ad it fetches the ad page and extracts a record. A database front end (`ParseBase.start_parse`) runs the search for every stored phrase in every stored city. It then inserts the ads that pass an exclusion filter.

This project models that behaviour as pure functions over immutable data and proves what the code promises. The browser, the JSON/HTML decoding and PostgreSQL are replaced by inputs:

- **the index endpoint**: an oracle from cursor to a batch of stubs. Search is indexed by (text, region id, page); a shop by (hash, offset).
- **the ad page**: a `Page` datatype with optional fields. `None` stands for a fetch that raised.
- **the database tables**: sequences of rows.
- **the excluded-words query**: a function of the phrase id.
- **the database-side crawl**: a function of (phrase, city name).

What a crawl does is recorded as a log of requests, in issue order. What `start_parse` does is recorded as a log of actions: load words, search, insert, commit.

Modules, one per concern of the source:

- `Outcome` (`outcome.dfy`): `Option` and `Result`.
- `Seqs` (`seqs.dfy`): concat-map, the shape shared by every view of a request or action log and by every filter over stubs, with its distribution over concatenation.
- `Text` (`text.dfy`): the string primitives used by the code. These are substring `in`, `split('/')`, `lower()`, `split()[0]` and `int()`, each with a round trip or an independent characterisation.
- `PageExtractor` (`page_extractor.dfy`): `__parse_ad_information`, including its fail-soft policy.
- `ShopHash` (`shop_hash.dfy`): extraction of the seller hash at the start of `parse_shop`.
- `Paginator` (`paginator.dfy`): the two cursor schemes and the reference list of processed batches (`Walk`). Pages run 1, 2, 3, …; offsets run 0, 100, 200, ….
- `Crawler` (`crawler.dfy`): the two `while True` loops as written, the reference catalogue (`Select`), and the public `ParseBySearch` / `ParseShop`.
- `ParseBase` (`database_build.dfy`): the keep rule of `__process_ad`, `exclude_user_by_name`, `__get_excluded_words` and the iteration order of `start_parse`.

Two behaviours of the code are easy to miss and worth stating:

- **Extraction is fail-soft field by field.** A lookup that raises does not reset the record. Fields assigned before the failing lookup keep their extracted values; the failing one and those after it keep their defaults. The model follows the code here.
- **A storefront URL whose first segment mentioning `avito` is one of its last two raises `IndexError`.** That error escapes `parse_shop`. The model returns the distinct error `ShopUrlIndexError`. A URL with no such segment, or with an empty hash segment, returns an empty catalogue without any request.

## Model

| member | source | states |
|---|---|---|
| `Text.Contains` | AvitoParser.py:176 | Python's substring test: true exactly when the needle occurs at some position of the text |
| `Text.Split` | AvitoParser.py:174 | `split('/')` yields at least one piece and no piece contains the separator |
| `Text.JoinSplit` | AvitoParser.py:174 | joining the pieces of a split with the separator gives back the original string |
| `Text.SplitJoin` | AvitoParser.py:174 | splitting a join of separator-free pieces gives back exactly those pieces |
| `Text.FirstToken` | AvitoParser.py:92 | `split()[0]` fails exactly when the text is all whitespace; otherwise it returns the first maximal non-empty run of non-whitespace, right after the leading whitespace |
| `Text.ParseInt` | AvitoParser.py:90 | on the modelled subset of `int()`'s inputs (ASCII digits with an optional sign), parsing succeeds exactly on those strings; the value is the decimal value of the digits, negated after `-` |
| `Text.LowerProjects` | database_build.py:68 | `lower()` leaves no capital behind and changes exactly the capitals, so a string is its own lower-case form exactly when it has no capital, and lower-casing twice equals lower-casing once |
| `Text.ParseShowNat` | AvitoParser.py:90 | `int()` inverts decimal rendering, for both signs |
| `PageExtractor.Reached` | AvitoParser.py:88-92 | the number of lookups that succeed before the first one that raises: 0 for a failed fetch, all five when none fails |
| `PageExtractor.FirstNewConditionRow` | AvitoParser.py:94-98 | the scan stops at the first parameter row containing both `Состояние` and `Нов`; it finds none exactly when no row has both |
| `PageExtractor.Extract` | AvitoParser.py:73-102 | extraction never fails. Each field holds its extracted value if its lookup came before the first failure, and its default otherwise. The condition is `Новое` only after all five lookups and a matching row |
| `PageExtractor.ConditionIsNewOrEmpty` | AvitoParser.py:73-98 | the condition is always `''` or `Новое` |
| `PageExtractor.ConditionNewIff` | AvitoParser.py:88-98 | the condition is `Новое` if and only if the page was fetched, all five lookups succeeded and some parameter row carries both markers |
| `PageExtractor.FailSoftPrefix` | AvitoParser.py:82-100 | when lookup k is the first to raise, the fields before k are extracted and the fields from k on are defaults; no reset to an all-default record |
| `PageExtractor.UnfetchedIsDefaults` | AvitoParser.py:73-89 | a page that could not be fetched, or whose title lookup raises, yields exactly the default record |
| `ShopHash.ScanFrom` | AvitoParser.py:175-178 | the scan's outcome is decided by the first segment containing `avito`: the segment two further on, or the index error when there is none; no match leaves the hash empty |
| `ShopHash.ScanHash` | AvitoParser.py:173-178 | the same over the '/'-pieces of the URL |
| `ShopHash.FirstMarketUnique` | AvitoParser.py:175-178 | there is only one first matching segment |
| `ShopHash.ScanHashOfJoin` | AvitoParser.py:173-178 | a URL built from separator-free segments yields the segment two after its first `avito` segment |
| `Paginator.CursorIsStepped` | AvitoParser.py:127-209 | the cursor the loop reaches by starting at page 1 / offset 0 and adding 1 / 100 per request is, for request n (from 0), page n + 1 / offset 100·n, the closed form the model's loops use |
| `Paginator.CursorSteps` | AvitoParser.py:127-209 | the closed form starts at the initial cursor and follows the loop's update `+1` / `+100` |
| `Paginator.CursorInjective` | AvitoParser.py:127-209 | no cursor is requested twice |
| `Paginator.Walk` | AvitoParser.py:127-209 | the processed batches are the index batches at consecutive cursors, all non-empty, and the next cursor's batch is empty |
| `Paginator.WalkUnique` | AvitoParser.py:127-209 | any batch list with those properties is `Walk`, so the stop rule fixes the processed batches |
| `Paginator.SearchRequestsArePages` | AvitoParser.py:127-158 | with N non-empty batches the pages requested are 1, 2, …, N + 1 |
| `Paginator.ShopRequestsAreOffsets` | AvitoParser.py:183-209 | with N non-empty batches the offsets requested are 0, 100, …, 100·N |
| `Crawler.Select` | AvitoParser.py:140-157 | the catalogue of a stub list is never longer than the list |
| `Crawler.BatchStepSpec` | AvitoParser.py:140-157 | one batch of the loop issues exactly one detail request per visited stub, in stub order, and nothing else (no index request), and appends exactly the kept stubs' listings |
| `Crawler.BatchStepLog` | AvitoParser.py:196-208 | the requests of one batch are exactly the detail requests of its visited stubs, in order |
| `Crawler.LoopLog` | AvitoParser.py:127-209 | the whole request log, interleaving included: each processed batch's index request is followed immediately by that batch's detail requests, before the next index request; the log ends with the index request that returned the empty batch |
| `Crawler.LoopRequests` | AvitoParser.py:127-209 | the loop's index requests are exactly the cursors of the processed batches followed by the cursor of the first empty one |
| `Crawler.LoopEndsAtEmptyBatch` | AvitoParser.py:127-209 | the last request of any kind is the index request that returned the empty batch |
| `Crawler.LoopVisits` | AvitoParser.py:127-209 | the detail pages fetched are those of the visited stubs of all processed batches, in page then in-page order |
| `Crawler.LoopCatalogue` | AvitoParser.py:127-209 | the catalogue is the selection of the concatenated processed batches, in page then in-page order |
| `Crawler.CrawlSpec` | AvitoParser.py:127-209 | run from the first request, the loop's request log is the interleaved log of the processed batches (index request, then that batch's detail requests), and its index requests, last request, detail requests and catalogue are those of the processed batches |
| `Crawler.SelectSound` | AvitoParser.py:140-157 | every catalogue entry is the listing of a kept stub. In search mode that is an `item` whose extracted condition is `Новое` |
| `Crawler.SelectComplete` | AvitoParser.py:140-157 | every kept stub's listing is in the catalogue |
| `Crawler.ShopCatalogueOnePerStub` | AvitoParser.py:196-208 | in shop mode there is one entry per stub, in order, linked as `https://www.avito.ru` followed by the stub's path |
| `Crawler.ParseBySearch` | AvitoParser.py:111-160 | an unknown region fails before any request. Otherwise the request log is the interleaved log of the processed search pages, index request k asks for page k + 1, and the last request, the detail fetches and the catalogue are as above for the search index |
| `Crawler.ParseShop` | AvitoParser.py:162-211 | the hash error fails; a missing or empty hash gives an empty catalogue with no request. Otherwise the request log is the interleaved log of the processed shop batches, index request k asks for offset 100·k, and the last request, the detail fetches and the catalogue are as above for the shop index |
| `ParseBase.WordHitsIgnoresCase` | database_build.py:68 | the word test ignores case: lower-casing the word or the title first changes nothing, and titles equal up to case are hit by the same words |
| `ParseBase.AnyWordHits` | database_build.py:68 | some excluded word, lower-cased, is a substring of the lower-cased title |
| `ParseBase.KeepAd` | database_build.py:67-71 | an ad is inserted if and only if no excluded word hits its title and no exclusion-list entry equals its seller name |
| `ParseBase.KeepAfterAddedWord` | database_build.py:68 | one more excluded word keeps an ad exactly when it was kept before and the new word misses the title |
| `ParseBase.KeepAfterAddedUser` | database_build.py:69 | one more excluded seller keeps an ad exactly when it was kept before and the ad is by someone else |
| `ParseBase.KeepAntitone` | database_build.py:68-71 | enlarging either exclusion list never turns a dropped ad into a kept one |
| `ParseBase.KeepWithoutExclusions` | database_build.py:68-71 | with both lists empty every ad is kept |
| `ParseBase.EmptyWordDropsAll` | database_build.py:68 | an empty excluded word drops every ad |
| `ParseBase.ExcludeUserByName` | database_build.py:94-95 | the name is appended at the end and the earlier entries are unchanged |
| `ParseBase.ExcludeUserEffect` | database_build.py:69 | after the exclusion that seller's ads are dropped and every other ad is treated as before |
| `ParseBase.ExcludedWords` | database_build.py:82-88 | one word per row, the row's third column, in row order |
| `ParseBase.Kept` | database_build.py:52-59 | the kept ads of one crawl are never more than the ads found |
| `ParseBase.KeptMembers` | database_build.py:52-71 | an ad is among the kept ones exactly when it was found and passes the keep rule |
| `ParseBase.KeptAllWithoutExclusions` | database_build.py:68-71 | with no exclusions the kept ads are all ads found, in order |
| `ParseBase.AdLoopInsertsKept` | database_build.py:52-59 | for one (phrase, city) the inserts are the kept ads in crawl order, with the phrase's and city's ids, and nothing else happens |
| `ParseBase.CityLoopSearches` | database_build.py:43-50 | for one phrase there is one crawl per city, in table order |
| `ParseBase.SearchCount` | database_build.py:34-50 | `start_parse` crawls once per (phrase, city) pair |
| `ParseBase.SearchesInOrder` | database_build.py:34-50 | the crawls of a run are exactly the reference order: phrase by phrase in table order, each phrase in every city in table order |
| `ParseBase.SearchRowsAt` | database_build.py:34-50 | in that reference order, the entry after i full rows of cities plus j is phrase i in city j |
| `ParseBase.SearchOrder` | database_build.py:34-50 | crawl number i·C + j, where C is the number of cities, is phrase i in city j: phrases outer, cities inner |
| `ParseBase.LoadsAndCommits` | database_build.py:34-61 | excluded words are loaded once per phrase in table order, and there is one commit per phrase |
| `ParseBase.StoredRows` | database_build.py:29-76 | a row is inserted if and only if it is the insert of an ad found for some phrase in some city that passes the keep rule under that phrase's own word list |
| `ParseBase.AdLoopStoresKept` | database_build.py:52-71 | the inserts of one (phrase, city) pair are exactly the inserts of its kept ads, in crawl order |
| `ParseBase.CityLoopStoresInOrder` | database_build.py:43-59 | one phrase's inserts are its cities' kept ads, city by city in table order |
| `ParseBase.StoresInOrder` | database_build.py:29-61 | the whole run's inserts are exactly the reference sequence: phrases outer, cities inner, kept ads in crawl order; an ad found twice is inserted twice |
| `ParseBase.NoExclusionsStoresAll` | database_build.py:29-71 | with no excluded words and no excluded sellers, every ad found is inserted |

## Left out

- Selenium session setup, login, sleeps, request blocking and `close_browser` (AvitoParser.py:20-61, 104-109) are browser I/O. They are not modelled.
- The HTTP fetches and the BeautifulSoup/JSON decoding are not modelled. They are replaced by the index oracle and the `Page` datatype, so a page whose JSON lacks the expected keys is outside the model.
- Query strings are not modelled beyond the cursor value. This includes the unescaped search text in the search URL.
- PostgreSQL is not modelled: connection, SQL text, execution, `fetchall`, commit and close. The SQL built with f-strings (an injection hazard) is I/O. The `WHERE search_phrase_id = …` query is the `wordQuery` input, not a filter over a table.
- The contents of the region table are an input map. The `AvitoParser_database_version` module, whose `parse_by_search` the database front end calls, is not part of this model. Its results are the `search` input, with title, seller name, URL and price.
- Text.Lower: covers Python's Unicode `lower()` only for ASCII letters and the basic Cyrillic alphabet. Other letters are left unchanged.
- Text.FirstToken: `split()` is covered only for ASCII whitespace and the no-break space. Other Unicode whitespace is treated as part of a token.
- Text.ParseInt: covers only an optional sign followed by ASCII digits. Python's `int()` also accepts surrounding whitespace, `_` between digits and non-ASCII decimal digits; the model rejects those. The price attribute the code parses is not expected to contain them.
- The `__main__` blocks, `pprint` and the default region argument `'Все регионы'` are not modelled. The default argument is just a value of `region`.
- The crawl loops are only modelled when some cursor is known to return an empty batch. That cursor is the ghost `bound` parameter. A crawl whose index never runs dry does not terminate in the source either.
- The database-side crawl is assumed never to raise: `search` is a total function. In the source an exception from `parse_by_search` (database_build.py:47-50), such as the `KeyError` of an unknown city name (AvitoParser.py:125), escapes `start_parse`. The phrases already processed stay committed and the remaining phrases and cities are never searched. `StoredRows`, `StoresInOrder` and `NoExclusionsStoresAll` describe only runs in which no crawl raises and no insert raises.
- An insert is assumed never to fail. In the source the title and URL are pasted between single quotes into the `insert` statement (database_build.py:73-75). A title containing `'`, such as "Levi's", makes `cursor.execute` raise a syntax error. Nothing in `__process_ad` or `start_parse` catches it, so the run stops at that ad: its phrase is never committed (database_build.py:61), and the remaining ads, cities and phrases are never processed. The model keeps issuing `Store` actions and cannot state this.
- The detail fetch is modelled as a function of the URL: the same URL yields the same page within one run. Time-varying pages are not modelled.
- The condition field of a record is not part of a catalogue entry, as in the source.
