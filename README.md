# CryptoRealtimeCrawler core, in Dafny

This project models the ingestion and reconciliation core of CryptoRealtimeCrawler, a Django service that builds a coin registry from the CoinMarketCap listing and a set of exchanges. It then keeps a Redis cache of realtime tickers, order books and OHLCV bars per coin. Every fetch from an exchange or from the aggregator is a parameter of the model: a map or a function whose `None` stands for a call that raised after its retries. The model proves what each step does with that data, given the database and the cache.

The modules follow the source:

- `Cmc` covers `CMCCrawler.remove_stablecoins`.
- `StartTime` covers `get_start_time`.
- `TextCleaner` covers the brace locating of `TexTCleaner`.
- `Retry` covers `SharedUtils.retry`.
- `Redis` covers the `RedisConnection` wrapper.
- `Tables` holds the schema of `models.py` and the database object.
- `Reconcile` covers the coins frame and its per-exchange matching, deduplication and drop.
- `Registry` covers what the frame and the listing become in the tables and in the cache.
- `Ingestion` covers the timeframe crawlers and the per-coin fallback loops, as functions.
- `Handler` is the `CoinHandler` object: a class over the database and the cache whose methods run those loops in place.
- `Services` covers the write services.
- `Selectors` covers the read queries.

Modelling conventions:

- JSON values are the datatype `Json`, and its numbers are integers. Database prices are integers in units of 1e-8, matching `DecimalField(decimal_places=8)`.
- A pandas column is a `seq<Option<string>>`, where NaN is `None`.
- A table is a sequence of rows in storage order. Rows are keyed by their natural keys (the CMC id, (crypto, exchange), (crypto, timestamp)) rather than by auto-increment ids.
- Clock readings are parameters (`nowS`, `now`).
- The sleeps of `retry`, of the order-book loop and of the OHLCV loop are recorded as lists of durations and are not performed.
- Python's `str` formatting of a non-string coin-list item is the parameter `render`.
- `jsons.dumps`/`jsons.loads` are the parameters `encode`/`decode` of the Redis connection. `decode` returns `None` where parsing raises.

Where the code departs from its own docstrings or from what its names suggest, the model follows the code:

- The docstring of `retry` (`cryptorealtimecrawler/utils/shared_utils.py:100`) calls `delay` the initial delay between retries. The loop (`cryptorealtimecrawler/utils/shared_utils.py:113-133`) never sleeps `delay` itself, and it does not sleep after the first failed attempt. After failed attempt k ≥ 2 it sleeps `delay * backoff^(k-1)`, and it also sleeps after the last attempt. So N-1 failures followed by a success give N-2 sleeps, starting at `delay * backoff`.
- The timeout of `retry` does not bound the wait. The test (`>=`) runs only after an attempt failed, and it times only a call that returned. After a call that raised, it compares that call's `start_time` with the `end_time` left over from an earlier call.
- A raised call with a truthy timeout and no earlier normal return reads an unbound `end_time`. UnboundLocalError then escapes; this is the outcome `EndTimeUnbound`.
- A negative sleep raises ValueError; this is the outcome `NegativeSleep`.
- The registry refresh cascades. `Crypto.objects.all().delete()` also deletes exchange symbols, market data, crypto-tag links and every price row, because every foreign key is `on_delete=CASCADE`.
- An empty listing makes `json_normalize` produce a frame without an `id` column. The refresh then raises before writing anything (`FrameError.NoCoins`).
- `HistoricalPrice` declares `unique_together` on (crypto, timestamp) in its abstract `Meta` (`cryptorealtimecrawler/exchange_webservice/models.py:85-90`). Each of the five price tables declares its own `Meta` without inheriting it (`cryptorealtimecrawler/exchange_webservice/models.py:93-121`), so the constraint is dropped. Saving a second row at a crypto's timestamp therefore succeeds, in the single save, the bulk save and the OHLCV save alike.

## Model

| member | source | states |
|---|---|---|
| Cmc.NonStablecoinsMembers | cryptorealtimecrawler/exchange_webservice/crawler/cmc_crawler.py:72-74 | a coin is kept exactly when it is in the listing and its `tags` do not contain the element `'stablecoin'` |
| Cmc.NonStablecoinsAppend | cryptorealtimecrawler/exchange_webservice/crawler/cmc_crawler.py:73-74 | the filter distributes over concatenation, so kept coins keep their relative order |
| Cmc.UntaggedCoinKept | cryptorealtimecrawler/exchange_webservice/crawler/cmc_crawler.py:74 | a coin without a `tags` key is kept |
| Cmc.NonStablecoinsIdempotent | cryptorealtimecrawler/exchange_webservice/crawler/cmc_crawler.py:73-75 | filtering twice gives the same list as filtering once |
| Cmc.CmcPayload.constructor | cryptorealtimecrawler/exchange_webservice/crawler/cmc_crawler.py:61-76 | a payload holds its `data` list (absent or present) and its other keys |
| Cmc.RemoveStablecoins | cryptorealtimecrawler/exchange_webservice/crawler/cmc_crawler.py:61-76 | the same payload object is returned; `data` becomes the non-stablecoins, with a missing `data` becoming `[]`; other keys are unchanged |
| StartTime.DurationSeconds | cryptorealtimecrawler/utils/crawler/crawler.py:8-13 | exactly 5m, 15m, 1h and 4h have a duration, each a positive multiple of 300 seconds |
| StartTime.GetStartTime | cryptorealtimecrawler/utils/crawler/crawler.py:6-24 | ValueError for every other timeframe, 1d and 1w included; otherwise exactly 1000 bars before now, in milliseconds, a multiple of 1000 and strictly before now |
| StartTime.LongerTimeframeStartsEarlier | cryptorealtimecrawler/utils/crawler/crawler.py:8-22 | for the same clock reading a longer bar starts earlier |
| StartTime.StartTimesOrdered | cryptorealtimecrawler/utils/crawler/crawler.py:8-22 | 4h < 1h < 15m < 5m start times for any clock reading |
| TextCleaner.ExtractDeleteJson | cryptorealtimecrawler/utils/text_cleaner.py:27-30 | the result is a prefix of the text with no '{'; it is the whole text when there is no '{', and otherwise the text up to the first '{' |
| TextCleaner.ExtractDeleteJsonIdempotent | cryptorealtimecrawler/utils/text_cleaner.py:27-30 | applying it twice changes nothing more |
| TextCleaner.RemoveNewlines | cryptorealtimecrawler/utils/text_cleaner.py:11 | the result has no '\n', holds every other character the text holds and no more, is no longer than the text, and is the text itself when it has no '\n' |
| TextCleaner.RemoveNewlinesAppend | cryptorealtimecrawler/utils/text_cleaner.py:11 | removing newlines works piece by piece, so the other characters keep their order |
| TextCleaner.FirstIndexOf | cryptorealtimecrawler/utils/text_cleaner.py:28-29 | the index of the first occurrence, or the length when there is none |
| TextCleaner.LastIndexOf | cryptorealtimecrawler/utils/text_cleaner.py:12-16 | the index of the last occurrence, if any |
| TextCleaner.GreedyBracesSpec | cryptorealtimecrawler/utils/text_cleaner.py:12-16 | the greedy `\{.*\}` match exists exactly when some '{' is followed by a '}', and it runs from the first such '{' to the last '}' |
| TextCleaner.GreedyBracesFound | cryptorealtimecrawler/utils/text_cleaner.py:12-24 | there is no match (the function returns None) exactly when no '{' has a later '}' |
| TextCleaner.LocateJson | cryptorealtimecrawler/utils/text_cleaner.py:10-24 | the candidate is searched in the newline-free text, and None is returned exactly when no brace pair exists there |
| Retry.RetrySpec | cryptorealtimecrawler/utils/shared_utils.py:90-133 | retries ≤ 0 raises without calling; a successful first attempt returns at once; a slow falsy first return with a timeout raises TimeoutError; a raised first attempt with a timeout reads an unbound `end_time` |
| Retry.CallsBounded | cryptorealtimecrawler/utils/shared_utils.py:113-117 | from any attempt on, `func` is called at most the remaining number of times |
| Retry.CallsAtMostRetries | cryptorealtimecrawler/utils/shared_utils.py:114-117 | `func` is called at most `retries` times |
| Retry.ReturnedIsFirstSuccess | cryptorealtimecrawler/utils/shared_utils.py:119-124 | a returned value is that of the last call made; that call succeeded and every earlier call failed, with falsy responses failing under `raise_none` |
| Retry.SleepValuesFrom | cryptorealtimecrawler/utils/shared_utils.py:129-130 | each sleep follows a failed attempt j ≥ 2 and lasts `delay * backoff^(j-1)` |
| Retry.SleepCountFrom | cryptorealtimecrawler/utils/shared_utils.py:113-133 | no sleep follows attempt 1, nor the attempt that ends a run before its attempts are exhausted |
| Retry.RetrySleeps | cryptorealtimecrawler/utils/shared_utils.py:113-133 | the i-th sleep is `delay * backoff^(i+1)`; a run that exhausts its attempts slept after every attempt but the first, any other run also not after its last |
| Retry.AllFailFrom | cryptorealtimecrawler/utils/shared_utils.py:113-133 | without a timeout, with non-negative sleeps and every attempt failing (raising, or returning a falsy value under `raise_none`), the run makes all remaining calls and fails with ValueError carrying the last attempt's exception |
| Retry.FirstSuccessReturned | cryptorealtimecrawler/utils/shared_utils.py:113-133 | without a timeout and with non-negative sleeps, when attempt k is the first that succeeds, its value is returned after exactly k calls |
| Retry.ThreeFailures | cryptorealtimecrawler/utils/shared_utils.py:113-133 | retries = 3, all raising: three calls, sleeps `delay*backoff` then `delay*backoff^2`, then ValueError carrying the third exception |
| Retry.RunFromAfterFailure | cryptorealtimecrawler/utils/shared_utils.py:125-133 | after a failed attempt the run is the handler's stop, or its sleeps followed by the rest of the run |
| Retry.RetryCall | cryptorealtimecrawler/utils/shared_utils.py:113-133 | the loop as written returns the outcome, the number of calls and the sleeps that `RetrySpec` gives |
| Redis.Encoded | cryptorealtimecrawler/common/redis_db_connection.py:40-45 | the encoded entries of the dict whose keys are done, and no others |
| Redis.EncodedStep | cryptorealtimecrawler/common/redis_db_connection.py:42-44 | writing one more entry extends the done keys by that key |
| Redis.UpdateFieldsKeys | cryptorealtimecrawler/common/redis_db_connection.py:35-37 | the updated dict has exactly the old fields plus the named ones |
| Redis.UpdateFieldsKeepsOthers | cryptorealtimecrawler/common/redis_db_connection.py:35-37 | a field that is not named keeps its value |
| Redis.UpdateFieldsSets | cryptorealtimecrawler/common/redis_db_connection.py:35-37 | each named field ends with the value at the last position that names it |
| Redis.UpdateFieldsPrefix | cryptorealtimecrawler/common/redis_db_connection.py:35-37 | only the first `len(field_names)` values are read |
| Redis.RedisConnection.constructor | cryptorealtimecrawler/common/redis_db_connection.py:1-55 | a connection over a server that already holds the given entries and expiries |
| Redis.RedisConnection.DecodeOrRaw | cryptorealtimecrawler/common/redis_db_connection.py:50-53 | the decoded value, or the raw string when decoding raises |
| Redis.RedisConnection.Get | cryptorealtimecrawler/common/redis_db_connection.py:47-55 | False for an absent key or an empty stored string, otherwise the decoded or raw value; nothing changes |
| Redis.RedisConnection.Set | cryptorealtimecrawler/common/redis_db_connection.py:16-21 | stores the encoded value; a positive `ex` sets the expiry, a negative one is refused and changes nothing, and a falsy one drops any expiry; no other key changes |
| Redis.RedisConnection.SetWithExpiry | cryptorealtimecrawler/common/redis_db_connection.py:23-24 | stores the string as given, with the expiry; no other key changes |
| Redis.RedisConnection.BulkSet | cryptorealtimecrawler/common/redis_db_connection.py:40-45 | every key of the dict holds its encoded value, and no other key changes |
| Redis.RedisConnection.BulkGet | cryptorealtimecrawler/common/redis_db_connection.py:72-102 | the result holds exactly the requested keys that exist, each decoded or raw, an empty stored string included; `[]` reads nothing; nothing changes |
| Redis.RedisConnection.UpdateRedisField | cryptorealtimecrawler/common/redis_db_connection.py:26-38 | the key is rewritten with the stored dict whose named fields are set and whose others are kept; with fields named, a stored value that is no dict or too few values raise and change nothing |
| Tables.TableForNames | cryptorealtimecrawler/exchange_webservice/models.py:93-120 | each of 5m, 15m, 1h, 4h and 1d selects its own price table, and no other timeframe selects one |
| Tables.WeeklyHasNoTable | cryptorealtimecrawler/exchange_webservice/services.py:169-179 | `1w` has no price table |
| Tables.WithoutCrypto | cryptorealtimecrawler/exchange_webservice/services.py:214 | deleting a crypto's rows keeps exactly the rows of the other cryptos |
| Tables.OfCrypto | cryptorealtimecrawler/exchange_webservice/models.py:74-90 | exactly the rows of that crypto |
| Tables.OfCryptoAppend | cryptorealtimecrawler/exchange_webservice/models.py:74-90 | appending a row extends exactly its own crypto's rows |
| Tables.ReplaceRowsReadBack | cryptorealtimecrawler/exchange_webservice/services.py:213-234 | after deleting a crypto's rows and appending new ones, that crypto's rows are exactly the new ones |
| Tables.ReplaceRowsKeepsOthers | cryptorealtimecrawler/exchange_webservice/services.py:213-234 | a replacement leaves every other crypto's rows as they were |
| Tables.NoneLeft | cryptorealtimecrawler/exchange_webservice/services.py:214 | no row of the crypto survives its delete |
| Tables.NoneOf | cryptorealtimecrawler/exchange_webservice/services.py:214 | a table holding no row of the crypto reads back none for it |
| Tables.KeepsOthers | cryptorealtimecrawler/exchange_webservice/services.py:214 | the delete keeps another crypto's rows unchanged |
| Tables.UniquePrefix | cryptorealtimecrawler/exchange_webservice/models.py:31 | a prefix of a table with a unique key keeps the key unique |
| Tables.UniqueLast | cryptorealtimecrawler/exchange_webservice/models.py:31 | under a unique key no earlier row shares the last row's key |
| Tables.Database.constructor | cryptorealtimecrawler/exchange_webservice/models.py:7-120 | a database holding the given tables |
| Reconcile.ExchangesDistinct | cryptorealtimecrawler/exchange_webservice/crawler/connector.py:6 | the four exchanges of the priority list are distinct |
| Reconcile.Upper | cryptorealtimecrawler/exchange_webservice/crawler/real_time.py:115-116 | each ASCII lower-case letter becomes its upper-case letter, every other character is kept in place, and no lower-case letter remains |
| Reconcile.Platforms | cryptorealtimecrawler/exchange_webservice/crawler/real_time.py:109-113 | a symbol is a platform symbol exactly when some coin's platform names it |
| Reconcile.PrepareRows | cryptorealtimecrawler/exchange_webservice/crawler/real_time.py:101-119 | an empty listing raises; otherwise there is one row per coin, in order, with the pairs `symbol/USDT` and `NAME/USDT`, and `is_main` true exactly when the symbol is a platform symbol |
| Reconcile.SetColumn | cryptorealtimecrawler/exchange_webservice/crawler/real_time.py:125-132 | assigning a column changes that column's cells and nothing else |
| Reconcile.MatchColumn | cryptorealtimecrawler/exchange_webservice/crawler/real_time.py:123-132 | a coin gets its symbol pair when that pair is a ticker key, else its name pair when that is one, else nothing |
| Reconcile.AssignPairsColumns | cryptorealtimecrawler/exchange_webservice/crawler/real_time.py:121-134 | after matching, each handled exchange column holds exactly the matched pairs; an exchange whose fetch failed assigns nothing; other columns and the coin fields are untouched |
| Reconcile.DedupColumn | cryptorealtimecrawler/exchange_webservice/crawler/real_time.py:136-143 | a cell keeps its pair exactly when no earlier cell holds it; otherwise it becomes NaN |
| Reconcile.DedupColumnInjective | cryptorealtimecrawler/exchange_webservice/crawler/real_time.py:136-143 | after deduplication no pair occurs twice in the column |
| Reconcile.DedupColumnKeepsEveryPair | cryptorealtimecrawler/exchange_webservice/crawler/real_time.py:136-143 | every pair of the column survives, at the first row that held it |
| Reconcile.DedupColumnIdempotent | cryptorealtimecrawler/exchange_webservice/crawler/real_time.py:136-143 | deduplicating twice changes nothing more |
| Reconcile.DedupColumnsSpec | cryptorealtimecrawler/exchange_webservice/crawler/real_time.py:136-143 | each handled column is deduplicated, and the other columns and coin fields are untouched |
| Reconcile.DropUnlisted | cryptorealtimecrawler/exchange_webservice/crawler/real_time.py:95 | the kept rows are exactly the rows with a pair on some exchange |
| Reconcile.DropUnlistedAppend | cryptorealtimecrawler/exchange_webservice/crawler/real_time.py:95 | the drop distributes over concatenation |
| Reconcile.DropUnlistedInjective | cryptorealtimecrawler/exchange_webservice/crawler/real_time.py:95 | dropping rows keeps a column free of repeated pairs |
| Reconcile.HeadPairUnique | cryptorealtimecrawler/exchange_webservice/crawler/real_time.py:136-143 | in a column without repeats no later row holds the first row's pair |
| Reconcile.ReconciledInjective | cryptorealtimecrawler/exchange_webservice/crawler/real_time.py:90-95 | within one exchange no pair belongs to two surviving coins |
| Reconcile.ReconciledPairs | cryptorealtimecrawler/exchange_webservice/crawler/real_time.py:90-95 | every surviving coin is listed somewhere, and each pair it holds is a ticker key of that exchange and the pair matching chose for it |
| Reconcile.PipelinePairs | cryptorealtimecrawler/exchange_webservice/crawler/real_time.py:121-143 | a row of the matched and deduplicated frame holds only pairs chosen for its own coin |
| Reconcile.PipelineCell | cryptorealtimecrawler/exchange_webservice/crawler/real_time.py:121-143 | a cell of the deduplicated frame holds the matched pair or nothing |
| Reconcile.PipelineCoin | cryptorealtimecrawler/exchange_webservice/crawler/real_time.py:121-143 | matching and deduplication keep each row's coin in place |
| Reconcile.AssignPairsCell | cryptorealtimecrawler/exchange_webservice/crawler/real_time.py:121-134 | a cell of the matched frame is the pair chosen for it, or the old cell for an unhandled exchange |
| Reconcile.DedupColumnsCell | cryptorealtimecrawler/exchange_webservice/crawler/real_time.py:136-143 | a cell of the deduplicated frame is the same pair or nothing |
| Reconcile.CoinsFrame.constructor | cryptorealtimecrawler/exchange_webservice/crawler/real_time.py:101-119 | a frame over the prepared rows |
| Reconcile.CoinsFrame.ProcessExchangeData | cryptorealtimecrawler/exchange_webservice/crawler/real_time.py:121-134 | the frame becomes the matched frame for all four exchanges, in order |
| Reconcile.CoinsFrame.RemoveDuplicates | cryptorealtimecrawler/exchange_webservice/crawler/real_time.py:136-143 | the frame becomes its column-wise deduplication |
| Reconcile.CoinsFrame.DropUnlistedRows | cryptorealtimecrawler/exchange_webservice/crawler/real_time.py:95 | the frame keeps exactly its listed rows |
| Registry.CryptosOf | cryptorealtimecrawler/exchange_webservice/crawler/real_time.py:150-158 | one crypto per frame row, in order |
| Registry.SavedIds | cryptorealtimecrawler/exchange_webservice/crawler/real_time.py:150-158 | the i-th saved crypto's primary key is the i-th row's id |
| Registry.RepeatedId | cryptorealtimecrawler/exchange_webservice/crawler/real_time.py:150-158 | a row whose id was already saved makes the ids repeat, which the primary key refuses |
| Registry.NewIdSaved | cryptorealtimecrawler/exchange_webservice/crawler/real_time.py:150-165 | saving one more row with a new id keeps the ids distinct and extends the cryptos and symbols by that row's |
| Registry.RowSymbolsMembers | cryptorealtimecrawler/exchange_webservice/crawler/real_time.py:159-165 | a row's symbols are exactly one active symbol per exchange cell that holds a pair |
| Registry.SymbolsOfMembers | cryptorealtimecrawler/exchange_webservice/crawler/real_time.py:145-165 | the frame's exchange symbols are exactly one active symbol per frame cell holding a pair |
| Registry.LoadedPairs | cryptorealtimecrawler/exchange_webservice/crawler/real_time.py:228-240 | one cell per exchange |
| Registry.LoadedFrame | cryptorealtimecrawler/exchange_webservice/crawler/real_time.py:228-240 | one loaded row per crypto, in table order, each with one cell per exchange |
| Registry.LastSymbolAppend | cryptorealtimecrawler/exchange_webservice/crawler/real_time.py:232-235 | the last symbol over two lists is the second's, or the first's when the second has none |
| Registry.RowSymbolsOther | cryptorealtimecrawler/exchange_webservice/crawler/real_time.py:159-165 | a row's symbols say nothing about another crypto |
| Registry.RowSymbolsOwn | cryptorealtimecrawler/exchange_webservice/crawler/real_time.py:159-165 | the last symbol of a row's crypto on an exchange is that row's cell |
| Registry.CellSymbolsLast | cryptorealtimecrawler/exchange_webservice/crawler/real_time.py:159-165 | a cell's symbol is the last one of its row and exchange |
| Registry.SymbolsOfAbsent | cryptorealtimecrawler/exchange_webservice/crawler/real_time.py:145-165 | a crypto outside the frame has no saved symbol |
| Registry.SymbolsOfLast | cryptorealtimecrawler/exchange_webservice/crawler/real_time.py:145-165 | with distinct ids, the symbol saved for a row and exchange is the only one of that crypto and exchange |
| Registry.SaveLoadRoundTrip | cryptorealtimecrawler/exchange_webservice/crawler/real_time.py:145-240 | loading the saved registry gives back each saved coin, in order, with the pair it was saved under on each exchange; only a pair spelled "nan" would not survive |
| Registry.ReconciledNeverNan | cryptorealtimecrawler/exchange_webservice/crawler/real_time.py:236 | a reconciled pair ends in "/USDT" and so is never read back as NaN |
| Registry.FirstFailure | cryptorealtimecrawler/exchange_webservice/crawler/real_time.py:171-191 | the position of the first coin whose store raises, with every earlier coin storing |
| Registry.MarketRows | cryptorealtimecrawler/exchange_webservice/crawler/real_time.py:177-186 | one market-data row per coin, in order, carrying that coin's fields |
| Registry.AddTagsSpec | cryptorealtimecrawler/exchange_webservice/crawler/real_time.py:189-190 | `get_or_create` adds exactly the new names and keeps no name twice |
| Registry.TagsStored | cryptorealtimecrawler/exchange_webservice/crawler/real_time.py:167-193 | a listing's tags are stored once each and each coin is linked to exactly its own tags |
| Registry.TagTableSpec | cryptorealtimecrawler/exchange_webservice/crawler/real_time.py:189-190 | the tag table holds exactly the listing's tags, without repeats |
| Registry.CryptoTagsSpec | cryptorealtimecrawler/exchange_webservice/crawler/real_time.py:189-191 | a link exists exactly for a coin of the listing and one of its tags |
| Registry.CoinTags | cryptorealtimecrawler/exchange_webservice/crawler/real_time.py:189-191 | one link per tag of the coin |
| Registry.CoinTagsMembers | cryptorealtimecrawler/exchange_webservice/crawler/real_time.py:189-191 | a coin is linked to exactly its own tags |
| Registry.CmcCacheWrites | cryptorealtimecrawler/exchange_webservice/crawler/real_time.py:193 | the cache afterwards holds exactly its old keys plus one key per coin of the listing |
| Registry.StoredCoinsRegistered | cryptorealtimecrawler/exchange_webservice/crawler/real_time.py:174-191 | a listing stores whole only when every coin has a registry row, lists each tag once and has an id of its own |
| Registry.UnregisteredCoinAborts | cryptorealtimecrawler/exchange_webservice/crawler/real_time.py:174-175 | a coin whose id has no registry row makes the store as written fail |
| Registry.RegistryIdsFromListing | cryptorealtimecrawler/exchange_webservice/crawler/real_time.py:84-99 | the reconciled registry holds only ids of the filtered listing |
| Registry.ReconciledRowFromListing | cryptorealtimecrawler/exchange_webservice/crawler/real_time.py:84-99 | each reconciled row comes from a coin of the filtered listing |
| Registry.RegisteredCoins | cryptorealtimecrawler/exchange_webservice/crawler/real_time.py:174-175 | the coins of the listing that have a registry row, in order |
| Registry.RegisteredListingStores | cryptorealtimecrawler/exchange_webservice/crawler/real_time.py:167-193 | skipping unregistered ids, a storable listing stores whole whatever stablecoins or unlisted coins it carries |
| Registry.RegisteredStorable | cryptorealtimecrawler/exchange_webservice/crawler/real_time.py:167-193 | skipping unregistered ids keeps a listing storable |
| Ingestion.CrawlersDistinct | cryptorealtimecrawler/exchange_webservice/crawler/real_time.py:395-458 | distinct crawlers have distinct timeframes and distinct aggregate keys |
| Ingestion.SinceTimeFrame | cryptorealtimecrawler/exchange_webservice/crawler/real_time.py:402-404 | the four intraday crawlers start 1000 bars before now, and the daily and weekly ones have no start |
| Ingestion.Limited | cryptorealtimecrawler/exchange_webservice/crawler/real_time.py:287 | at most 500 coins, a prefix of the frame, and the whole frame when it fits |
| Ingestion.RealtimeCoinSpec | cryptorealtimecrawler/exchange_webservice/crawler/real_time.py:208-218 | a coin takes the first exchange in list order whose ticker for its pair is a truthy dict, tagged with that exchange and cached under `<coin>_RealTime`; with none, nothing is kept; the coin counts as failed exactly when a truthy non-dict ticker comes first |
| Ingestion.RealtimeCoinNone | cryptorealtimecrawler/exchange_webservice/crawler/real_time.py:208-218 | with no readable ticker the coin keeps nothing |
| Ingestion.RealtimeCoinFirst | cryptorealtimecrawler/exchange_webservice/crawler/real_time.py:208-218 | the first readable exchange gives the coin's reading and cache entry |
| Ingestion.RealtimeCoinErrors | cryptorealtimecrawler/exchange_webservice/crawler/real_time.py:215-218 | the coin is counted as failed exactly when a ticker that raises comes before the first readable one |
| Ingestion.RealtimeRowsCoins | cryptorealtimecrawler/exchange_webservice/crawler/real_time.py:205-218 | only coins of the frame are read, counted as failed or cached |
| Ingestion.RealtimeCoinKeys | cryptorealtimecrawler/exchange_webservice/crawler/real_time.py:208-218 | a coin's sweep adds no other coin's reading |
| Ingestion.RealtimeAsWritten | cryptorealtimecrawler/exchange_webservice/crawler/real_time.py:195-226 | as written, the run returns 0 and leaves the cache as it was, whatever the registry and tickers |
| Ingestion.RealtimeAsWrittenLosesReadings | cryptorealtimecrawler/exchange_webservice/crawler/real_time.py:206 | a registry coin with a live ticker is read by the corrected run and lost by the run as written |
| Ingestion.DepthFor | cryptorealtimecrawler/exchange_webservice/crawler/real_time.py:259 | coinex gets no depth limit, and every other exchange gets the limit |
| Ingestion.BookCoinSpec | cryptorealtimecrawler/exchange_webservice/crawler/real_time.py:255-270 | a coin keeps the first book fetched in exchange order; it is marked failed exactly when a fetch raised before that, with one five-second pause per failure |
| Ingestion.BookCoinFirst | cryptorealtimecrawler/exchange_webservice/crawler/real_time.py:263-265 | the first book fetched is the one kept |
| Ingestion.BookCoinNone | cryptorealtimecrawler/exchange_webservice/crawler/real_time.py:255-269 | with no book fetched the coin keeps nothing |
| Ingestion.BookCoinFailures | cryptorealtimecrawler/exchange_webservice/crawler/real_time.py:266-269 | the failures before the first book mark the coin and each pause five seconds |
| Ingestion.Orderbook | cryptorealtimecrawler/exchange_webservice/crawler/real_time.py:242-276 | the aggregate order-book key is always written, even when no coin has a book |
| Ingestion.BookRowsVisited | cryptorealtimecrawler/exchange_webservice/crawler/real_time.py:251-270 | every book kept and every failure belongs to one of the first 500 coins, and each coin pauses at least once |
| Ingestion.BookCoinKeys | cryptorealtimecrawler/exchange_webservice/crawler/real_time.py:255-269 | a coin's sweep adds no other coin's book |
| Ingestion.BarRows | cryptorealtimecrawler/exchange_webservice/crawler/real_time.py:340-352 | every record built belongs to the crypto |
| Ingestion.OhlcvSaved | cryptorealtimecrawler/exchange_webservice/crawler/real_time.py:318-356 | the save fails, with a value the column cannot store, exactly when the timeframe has a table and some bar does not make a record; `1w` never fails |
| Ingestion.OhlcvSavedSpec | cryptorealtimecrawler/exchange_webservice/crawler/real_time.py:318-356 | after a save the crypto's rows in the timeframe's table are exactly the records in order, repeated timestamps included; other cryptos and tables are unchanged; `1w` changes nothing |
| Ingestion.OhlcvSavedKeepsRepeatedTimestamp | cryptorealtimecrawler/exchange_webservice/models.py:93-121 | two bars at one timestamp are both stored in the hourly table |
| Ingestion.StaleEntryStopsCoin | cryptorealtimecrawler/exchange_webservice/crawler/real_time.py:306-307 | a stale truthy cache entry ends the coin at the first attempt that does not raise |
| Ingestion.OhlcvCoinRecords | cryptorealtimecrawler/exchange_webservice/crawler/real_time.py:292-310 | every failure names one exchange and the coin, and bars are kept only under the coin |
| Ingestion.OhlcvCoinErrors | cryptorealtimecrawler/exchange_webservice/crawler/real_time.py:308-310 | a coin's failures are `<exchange>_<coin>` for exchanges it tried |
| Ingestion.OhlcvCoinData | cryptorealtimecrawler/exchange_webservice/crawler/real_time.py:301-304 | bars are kept only under the coin's own key |
| Ingestion.NamedCryptos | cryptorealtimecrawler/exchange_webservice/crawler/real_time.py:289 | the cryptos with that short name, in table order |
| Ingestion.CryptoNamed | cryptorealtimecrawler/exchange_webservice/crawler/real_time.py:289 | the lookup succeeds exactly when one crypto has that name |
| Ingestion.SharedSymbolAbandonsBatch | cryptorealtimecrawler/exchange_webservice/crawler/real_time.py:287-289 | as written, when the first coin's short symbol is shared by two cryptos the batch returns no bars and no failures, whatever the exchanges return |
| Ingestion.ByIdVisitsEveryCoin | cryptorealtimecrawler/exchange_webservice/crawler/real_time.py:287-313 | taking each coin's crypto from its own row, earlier entries are kept and every coin whose first exchange returns a truthy bar list ends with an entry |
| Ingestion.OhlcvCoinKeeps | cryptorealtimecrawler/exchange_webservice/crawler/real_time.py:292-310 | a coin's sweep keeps earlier coins' entries and keeps the coin's bars when its first exchange returns some |
| Ingestion.OhlcvCoinCachesBars | cryptorealtimecrawler/exchange_webservice/crawler/real_time.py:301-304 | the bars a coin keeps are cached under `<coin>_<timeframe>` |
| Ingestion.CoinsOhlcv | cryptorealtimecrawler/exchange_webservice/crawler/real_time.py:376-392 | the result holds only cached entries, unchanged, and an empty coin list reads nothing |
| Ingestion.CachedBarsStep | cryptorealtimecrawler/exchange_webservice/crawler/real_time.py:386-390 | reading one more coin adds its cached entry, if there is one |
| Ingestion.BarsReadBack | cryptorealtimecrawler/exchange_webservice/crawler/real_time.py:376-392 | reading a single cached coin gives exactly its entry |
| Ingestion.SweptBarsReadBack | cryptorealtimecrawler/exchange_webservice/crawler/real_time.py:278-392 | reading a swept coin back returns exactly the bars the sweep kept for it |
| Handler.FetchedTickers | cryptorealtimecrawler/exchange_webservice/crawler/real_time.py:68-82 | each exchange whose fetch succeeded maps to its tickers, and the others are absent |
| Handler.FirstFailureAt | cryptorealtimecrawler/exchange_webservice/crawler/real_time.py:171-191 | a failing coin at position k makes the listing fail there |
| Handler.StoreStep | cryptorealtimecrawler/exchange_webservice/crawler/real_time.py:174-193 | storing one more coin that does not raise grows the tables and the cache by that coin's entries |
| Handler.BarRowsNoneExtends | cryptorealtimecrawler/exchange_webservice/crawler/real_time.py:340-352 | bars that raise make every longer list raise |
| Handler.CoinHandler.constructor | cryptorealtimecrawler/exchange_webservice/crawler/real_time.py:32-51 | a handler over the given database and cache |
| Handler.CoinHandler.CollectTickers | cryptorealtimecrawler/exchange_webservice/crawler/real_time.py:68-82 | the tickers of every exchange whose fetch succeeded |
| Handler.CoinHandler.SaveTfCoins | cryptorealtimecrawler/exchange_webservice/crawler/real_time.py:145-165 | with distinct ids the registry is replaced by exactly the frame's cryptos and symbols, and the cascade empties market data, links and price rows while the tag table is kept; a repeated id raises IntegrityError and changes nothing |
| Handler.CoinHandler.CreateSymbols | cryptorealtimecrawler/exchange_webservice/crawler/real_time.py:159-165 | appends the row's active symbols |
| Handler.CoinHandler.GetSaveTfCoinsData | cryptorealtimecrawler/exchange_webservice/crawler/real_time.py:84-99 | the registry becomes the reconciled frame of the filtered listing, or nothing is written for an empty listing |
| Handler.CoinHandler.LoadCoins | cryptorealtimecrawler/exchange_webservice/crawler/real_time.py:228-240 | the loaded frame of the two tables; nothing changes |
| Handler.CoinHandler.SaveCmcCoins | cryptorealtimecrawler/exchange_webservice/crawler/real_time.py:167-193 | the store as written: the listing is stored whole, or its tables roll back at the first failing coin while the cache entries written before it stay |
| Handler.CoinHandler.StoreTags | cryptorealtimecrawler/exchange_webservice/crawler/real_time.py:189-191 | the tag table and links grow by the coin's tags |
| Handler.CoinHandler.SaveRegisteredCmcCoins | cryptorealtimecrawler/exchange_webservice/crawler/real_time.py:167-193 | the corrected store: exactly the registered coins of the listing are stored |
| Handler.CoinHandler.GetSaveCmcCoinsData | cryptorealtimecrawler/exchange_webservice/crawler/real_time.py:53-61 | a fetched listing is cached whole under `CMCCoinsData` and then stored as given, with a failing store's error logged; a failed fetch changes nothing |
| Handler.CoinHandler.GetSaveRealtimeData | cryptorealtimecrawler/exchange_webservice/crawler/real_time.py:195-226 | with coins keyed by their short symbol, the cache gains the per-coin readings and, when any exists, the aggregate; returns the number of failed coins |
| Handler.CoinHandler.GetSaveOrderbookData | cryptorealtimecrawler/exchange_webservice/crawler/real_time.py:242-276 | the cache and the pauses are those of the order-book run, and it returns its failed-coin count |
| Handler.CoinHandler.SaveOhlcv | cryptorealtimecrawler/exchange_webservice/crawler/real_time.py:318-356 | the price tables become those of the OHLCV save, or are unchanged when it raises |
| Ingestion.OhlcvCoinSleeps | cryptorealtimecrawler/exchange_webservice/crawler/real_time.py:292-310 | a coin's exchange loop does not pause |
| Ingestion.OhlcvRowsPauses | cryptorealtimecrawler/exchange_webservice/crawler/real_time.py:287-311 | one 100 ms pause per visited coin and no other; every coin is visited when each short symbol names one crypto |
| Ingestion.OhlcvBatchPauses | cryptorealtimecrawler/exchange_webservice/crawler/real_time.py:287-311 | the batch pauses 100 ms after each coin it visits, at most 500, and after all of them when no lookup raises |
| Handler.CoinHandler.GetAllCoinsOhlcvData | cryptorealtimecrawler/exchange_webservice/crawler/real_time.py:278-316 | the bars, failures, cache, price tables and pauses of the batch as written |
| Handler.CoinHandler.OhlcvCoinSweep | cryptorealtimecrawler/exchange_webservice/crawler/real_time.py:292-313 | one coin's exchange loop leaves what `OhlcvCoin` gives |
| Handler.CoinHandler.RunSaveOhlcvRedis | cryptorealtimecrawler/exchange_webservice/crawler/real_time.py:358-374 | the batch for the crawler's timeframe with 201 bars; the bars are cached under the crawler's key when any were fetched; returns the failure count |
| Handler.CoinHandler.GetCoinsOhlcvData | cryptorealtimecrawler/exchange_webservice/crawler/real_time.py:376-392 | the cached bars of the requested coins, read without changing anything |
| Services.Saved | cryptorealtimecrawler/exchange_webservice/services.py:31-134 | `save()` keeps the saved row, replaces the row with its key, keeps every other row, and adds at most one row |
| Services.SaveUnchangedRow | cryptorealtimecrawler/exchange_webservice/services.py:31-134 | saving a stored row unchanged leaves the table as it was |
| Services.SaveKeepsKeysUnique | cryptorealtimecrawler/exchange_webservice/services.py:31-134 | a save keeps the table's keys distinct |
| Services.UpdatedCrypto | cryptorealtimecrawler/exchange_webservice/services.py:39-47 | `name` and `full_name` change only to a truthy argument, `is_main` to any non-None one, and the key is kept |
| Services.UpdatedMarketData | cryptorealtimecrawler/exchange_webservice/services.py:86-102 | each field changes exactly to a non-None argument, 0 and False included |
| Services.UpdatedSymbol | cryptorealtimecrawler/exchange_webservice/services.py:128-134 | `symbol` changes only to a truthy argument and `is_active` to any non-None one |
| Services.UpdateCrypto | cryptorealtimecrawler/exchange_webservice/services.py:31-47 | the crypto is updated and saved, and no other table changes |
| Services.UpdateCmcMarketData | cryptorealtimecrawler/exchange_webservice/services.py:74-102 | the market data is updated and saved, and no other table changes |
| Services.UpdateExchangeSymbol | cryptorealtimecrawler/exchange_webservice/services.py:121-134 | the symbol is updated and saved, and no other table changes |
| Services.WithoutLink | cryptorealtimecrawler/exchange_webservice/services.py:150-152 | all and only the links equal to the (crypto, tag) pair are removed |
| Services.WithoutLinkIdempotent | cryptorealtimecrawler/exchange_webservice/services.py:150-152 | deleting twice deletes nothing more |
| Services.RemoveCryptoTag | cryptorealtimecrawler/exchange_webservice/services.py:149-152 | the links become those without the pair, and no other table changes |
| Services.PriceSavedSpec | cryptorealtimecrawler/exchange_webservice/services.py:155-190 | the save fails exactly when the timeframe is unknown, with ValueError before writing; otherwise only that crypto's rows in that table grow by the row, even at a timestamp it already has |
| Services.SaveHistoricalPrice | cryptorealtimecrawler/exchange_webservice/services.py:155-190 | the price tables become those of `PriceSavedSpec`'s save (one row appended, or ValueError for an unknown timeframe), and no other table changes |
| Services.FirstMissing | cryptorealtimecrawler/exchange_webservice/services.py:218-229 | the first required key the record lacks, or none when it has them all |
| Services.DraftOfSpec | cryptorealtimecrawler/exchange_webservice/services.py:217-230 | a record fails exactly when a required key is missing, with KeyError |
| Services.DraftsSpec | cryptorealtimecrawler/exchange_webservice/services.py:217-230 | a successful batch has one record per item, each built from it; a failed one fails with some item's error |
| Services.DraftsOk | cryptorealtimecrawler/exchange_webservice/services.py:217-230 | the success half of `DraftsSpec` |
| Services.DraftsErr | cryptorealtimecrawler/exchange_webservice/services.py:217-230 | the failure half of `DraftsSpec` |
| Services.DraftsErrPersists | cryptorealtimecrawler/exchange_webservice/services.py:217-230 | once a prefix fails the whole batch fails with that error |
| Services.DraftsAfterErr | cryptorealtimecrawler/exchange_webservice/services.py:217-230 | a failed prefix makes one more item fail the same way |
| Services.RowsOf | cryptorealtimecrawler/exchange_webservice/services.py:231-234 | the stored rows, one per record, or none when a record holds a value other than a number |
| Services.RowsOfStore | cryptorealtimecrawler/exchange_webservice/services.py:231-234 | every stored row belongs to the crypto and holds exactly its record's values |
| Services.RowStores | cryptorealtimecrawler/exchange_webservice/services.py:231-234 | a stored row holds its record's values |
| Services.BulkSavedReadBack | cryptorealtimecrawler/exchange_webservice/services.py:193-234 | after a successful bulk save the crypto's rows in the table are exactly `price_data`, in order; other cryptos and tables are unchanged |
| Services.BulkSavedFailures | cryptorealtimecrawler/exchange_webservice/services.py:193-234 | an unknown timeframe raises; a record missing a required key fails the save, so the delete does not persist; empty data just deletes |
| Services.RepeatedTimestampStored | cryptorealtimecrawler/exchange_webservice/models.py:93-121 | saving the same record twice stores it twice: the five tables have no (crypto, timestamp) constraint |
| Services.BuildDrafts | cryptorealtimecrawler/exchange_webservice/services.py:216-230 | the loop builds the records that `Drafts` gives |
| Services.BulkSaveHistoricalPrices | cryptorealtimecrawler/exchange_webservice/services.py:193-234 | the price tables become those of the bulk save, which fails only for an unknown timeframe, a missing key or a non-number value and otherwise stores every record, repeated timestamps included; unchanged when it fails; no other table changes |
| Selectors.Window | cryptorealtimecrawler/exchange_webservice/selectors.py:41 | a slice holds the rows from `start` to `stop`, in order |
| Selectors.WindowsConcatenate | cryptorealtimecrawler/exchange_webservice/selectors.py:41 | two consecutive slices make the slice spanning both |
| Selectors.MatchingCryptos | cryptorealtimecrawler/exchange_webservice/selectors.py:12-20 | exactly the cryptos the query matches |
| Selectors.GetCrypto | cryptorealtimecrawler/exchange_webservice/selectors.py:12-20 | exactly one match is returned; none raises DoesNotExist and several raise MultipleObjectsReturned |
| Selectors.AtMostOneWithId | cryptorealtimecrawler/exchange_webservice/models.py:11 | under the primary key at most one crypto matches an id |
| Selectors.GetCryptoById | cryptorealtimecrawler/exchange_webservice/selectors.py:12-20 | looking up a truthy id succeeds exactly when a crypto has it, and returns that crypto |
| Selectors.LowerStr | cryptorealtimecrawler/exchange_webservice/selectors.py:37-38 | each ASCII upper-case letter becomes its lower-case letter, every other character is kept in place, and no upper-case letter remains |
| Selectors.OccursAtIgnoresCase | cryptorealtimecrawler/exchange_webservice/selectors.py:37-38 | an occurrence does not depend on the case of the text or of the search |
| Selectors.ListedCryptos | cryptorealtimecrawler/exchange_webservice/selectors.py:30-39 | the cryptos matching `is_main` when given and a truthy search, case-insensitively, on name or full name |
| Selectors.GetCryptoList | cryptorealtimecrawler/exchange_webservice/selectors.py:23-41 | a negative index raises; otherwise exactly the `[offset, offset+limit)` slice of the listed cryptos, and the whole listing for offset 0 and a large limit |
| Selectors.PagesConcatenate | cryptorealtimecrawler/exchange_webservice/selectors.py:41 | paging loses and repeats nothing |
| Selectors.GetExchangeSymbols | cryptorealtimecrawler/exchange_webservice/selectors.py:54-67 | exactly the symbols with the given activity, restricted to the crypto and exchange when given |
| Selectors.OneSymbolPerExchange | cryptorealtimecrawler/exchange_webservice/models.py:31 | under the unique constraint one crypto has at most one symbol per exchange |
| Selectors.Selected | cryptorealtimecrawler/exchange_webservice/selectors.py:91-95 | the crypto's rows within the bounds, with a falsy bound meaning unbounded |
| Selectors.InsertDescHead | cryptorealtimecrawler/exchange_webservice/selectors.py:100 | one insertion step, at its head |
| Selectors.InsertDescSorted | cryptorealtimecrawler/exchange_webservice/selectors.py:100 | inserting into a sorted sequence keeps it sorted |
| Selectors.InsertDescPerm | cryptorealtimecrawler/exchange_webservice/selectors.py:100 | inserting adds exactly the element |
| Selectors.SortDescSpec | cryptorealtimecrawler/exchange_webservice/selectors.py:100 | `order_by('-key')` gives a permutation, largest key first |
| Selectors.SortedPageLeads | cryptorealtimecrawler/exchange_webservice/selectors.py:109 | a leading page of a sorted sequence holds its largest keys |
| Selectors.SameElements | cryptorealtimecrawler/exchange_webservice/selectors.py:100 | a permutation has the same elements |
| Selectors.Top | cryptorealtimecrawler/exchange_webservice/selectors.py:188-194 | exactly min(`limit`, all) rows drawn from the input without repeats, sorted largest first, no left-out row larger than a kept one, and all rows when they fit |
| Selectors.SortedPage | cryptorealtimecrawler/exchange_webservice/selectors.py:109 | a leading page of a sorted sequence is sorted, and is all of it when it fits |
| Selectors.GetHistoricalPrices | cryptorealtimecrawler/exchange_webservice/selectors.py:70-110 | an unknown timeframe raises; exactly min(`limit`, matching) rows of the crypto within the bounds, newest first, none newer left out |
| Selectors.MaxOf | cryptorealtimecrawler/exchange_webservice/selectors.py:140 | the largest value, or None over no rows |
| Selectors.MinOf | cryptorealtimecrawler/exchange_webservice/selectors.py:141 | the smallest value, or None over no rows |
| Selectors.GetPriceStatistics | cryptorealtimecrawler/exchange_webservice/selectors.py:113-159 | an unknown timeframe raises; price max/min are the largest high and smallest low, and volume max/min the extremes of volume, all None over no rows |
| Selectors.MaxPriceAttained | cryptorealtimecrawler/exchange_webservice/selectors.py:139-140 | the price maximum is attained by a selected row, and no selected row exceeds it |
| Selectors.Joined | cryptorealtimecrawler/exchange_webservice/selectors.py:181-191 | the bounded rows of any crypto that join a crypto, with its name and full name |
| Selectors.GroupKeys | cryptorealtimecrawler/exchange_webservice/selectors.py:191 | every group once, in order of first appearance |
| Selectors.GroupVolumes | cryptorealtimecrawler/exchange_webservice/selectors.py:192 | the volumes of exactly one group's rows, never empty for a group |
| Selectors.Entries | cryptorealtimecrawler/exchange_webservice/selectors.py:191-192 | one entry per group, carrying its average volume |
| Selectors.GetTopCryptosByVolume | cryptorealtimecrawler/exchange_webservice/selectors.py:162-194 | an unknown timeframe raises; exactly min(`limit`, groups) entries drawn from the groups without repeats, ordered by average volume descending, none larger left out |
| Selectors.EntryIsGroupAverage | cryptorealtimecrawler/exchange_webservice/selectors.py:191-192 | every entry names a group and carries its average volume |
| Selectors.TopEntriesAreGroupAverages | cryptorealtimecrawler/exchange_webservice/selectors.py:162-194 | every returned entry names a group with rows within the bounds and carries its average volume |
| Selectors.NatToString | cryptorealtimecrawler/exchange_webservice/selectors.py:231 | `str(n)` is a non-empty string of digits, one digit exactly for n < 10 |
| Selectors.NatToStringInjective | cryptorealtimecrawler/exchange_webservice/selectors.py:231 | distinct numbers have distinct decimal strings |
| Selectors.IntToStringInjective | cryptorealtimecrawler/exchange_webservice/selectors.py:231 | distinct integers have distinct strings |
| Selectors.PeriodKeyInjective | cryptorealtimecrawler/exchange_webservice/selectors.py:231 | distinct periods have distinct `<p>d` keys |
| Selectors.Between | cryptorealtimecrawler/exchange_webservice/selectors.py:221-225 | exactly the crypto's rows within the closed window |
| Selectors.Earliest | cryptorealtimecrawler/exchange_webservice/selectors.py:225-228 | a row with the smallest timestamp |
| Selectors.Latest | cryptorealtimecrawler/exchange_webservice/selectors.py:225-229 | a row with the largest timestamp |
| Selectors.PeriodChange | cryptorealtimecrawler/exchange_webservice/selectors.py:218-231 | a period has no value exactly when its window is empty; a zero first close raises |
| Selectors.PeriodChangeUnfold | cryptorealtimecrawler/exchange_webservice/selectors.py:227-231 | a period's value is the change between the first and last close of its window |
| Selectors.ChangesKeys | cryptorealtimecrawler/exchange_webservice/selectors.py:216-231 | key `<p>d` is present exactly when p is a period with a row in its window |
| Selectors.ChangesValues | cryptorealtimecrawler/exchange_webservice/selectors.py:227-231 | each value is its period's change |
| Selectors.ChangesStep | cryptorealtimecrawler/exchange_webservice/selectors.py:217-231 | one more period adds its key, or raises |
| Selectors.ChangesErrPersists | cryptorealtimecrawler/exchange_webservice/selectors.py:217-231 | once a period raises, the whole call raises the same |
| Selectors.GetCryptoPriceChanges | cryptorealtimecrawler/exchange_webservice/selectors.py:197-233 | an unknown timeframe raises; otherwise the loop builds the dict `Changes` gives |

## Left out

- Network and I/O. The ccxt connector, the CoinMarketCap HTTP fetchers and the Redis server are outside the model: fetch results are parameters and the cache is a map. The only part of `connector.py` kept is its exchange priority list.
- Publish/subscribe, `inc`, `expire`, `delete_key` and `check_redis_key_existence` of the Redis wrapper are left out. They are raw server commands with no logic of their own.
- `count_decimal_places`, logging, directory and CSV helpers, `now` and `convert_ohlc_to_heikinashi` are left out: they concern float formatting, the file system, the clock and floating-point frame arithmetic.
- Parsing the located JSON candidate (`json.loads`, then `eval`) is not modelled; only locating the candidate is.
- Celery scheduling, the HTTP API, serializers and settings are not part of this model. Neither is the concrete crawler construction, which opens live connections.
- Selectors.GetPriceStatistics: the average price and average volume are not modelled, only the maximum and minimum.
- Selectors.GetTopCryptosByVolume: the averages are computed exactly over reals, without Decimal rounding; so are the percent changes of `Selectors.GetCryptoPriceChanges`.
- Services.RowsOf: only JSON numbers are stored. Django's field conversion also stores a numeric string (`"12.5"` through `to_python` into a DecimalField, `"123"` through `int()` into a BigIntegerField) and a boolean (as 1 or 0); the model instead fails such a batch with `InvalidValue` and rolls it back.
- Services.RowOf: the same gap, for one record: a numeric string or a boolean gives no row.
- Ingestion.BarRows: only JSON numbers make a record. A bar whose fields are numeric strings, which Django converts and stores, is treated as raising, so the coin's OHLCV save rolls back; the same gap as `Services.RowsOf`.
- Cmc.CmcCoin: a key present with JSON `null` is read as an absent key. In the source, `"tags": null` makes `coin.get('tags', [])` return None, so the `in` test of `remove_stablecoins` and the tag loop of the market-data store raise TypeError; the model keeps the coin and links no tags.
- Registry.TagsOf: the same gap: a `null` tags value gives no tags here, where the source raises TypeError.
- Registry.MarketRow: `"infinite_supply": null` and `"num_market_pairs": null` put NULL into NOT NULL columns in the source, which raises IntegrityError and rolls the store back; the model stores `false` and `0`.
- Case folding in `Reconcile.Upper` and `Selectors.LowerStr` covers ASCII letters only.
- Rows are identified by natural keys. Auto-increment ids, timestamps such as `created_at`/`updated_at`, and model-instance aliasing are not modelled.
- Selectors return rows rather than `.values()` dictionaries.
- Handler caches decoded JSON values rather than encoded strings; the encoding is modelled only in `Redis`.
- `time.sleep` is recorded as a list of durations, not performed. The backoff sleeps of the `retry` calls that wrap each exchange fetch are inside the fetch oracles and are not recorded; `retry` itself is modelled on its own in `Retry`.
- `run_save_ohlcv_redis` computes a start time that no later call uses; the model keeps only its timeframe and key.
- Selectors.GetCryptoPriceChanges: reads the clock once, as `now`, rather than once per period.
- Retry.RetrySpec: each call is an oracle outcome with its clock readings, so the arguments passed to `func` are not modelled.

## Findings

| source | as written | input that shows it | evidently intended | confidence | as-written member | corrected member |
|---|---|---|---|---|---|---|
| cryptorealtimecrawler/exchange_webservice/crawler/real_time.py:206 | the realtime loop reads a `symbol` column that `_load_coins_data_from_database` never produces, so the KeyError makes the call return 0 with nothing cached | a registry with one coin that has a pair and a live ticker | each coin keyed by its short symbol, which the loaded frame holds as `name` | not executed | Ingestion.RealtimeAsWrittenLosesReadings | Handler.CoinHandler.GetSaveRealtimeData |
| cryptorealtimecrawler/exchange_webservice/crawler/real_time.py:174-175 | the market-data store uses the unfiltered listing, and `Crypto.objects.get` raises for any coin missing from the registry (a stablecoin, or a coin listed on no exchange), rolling the whole store back | a listing with one registered coin and one stablecoin | store the coins that have a registry row | not executed | Registry.UnregisteredCoinAborts | Registry.RegisteredListingStores |
| cryptorealtimecrawler/exchange_webservice/crawler/real_time.py:289 | the crypto of each coin is looked up by short name outside the per-exchange try, so two cryptos sharing a symbol abandon the whole OHLCV batch | two registry coins with the same short symbol | take the crypto from the coin's own row, its primary key | not executed | Ingestion.SharedSymbolAbandonsBatch | Ingestion.ByIdVisitsEveryCoin |

