/** `CoinHandler` (exchange_webservice/crawler/real_time.py): the crawler
    object that refreshes the coin registry, stores the aggregator's listing
    and fills the cache with realtime tickers, order books and OHLCV bars.
    Its database is a `Database` object and its cache the map from keys to
    the JSON values stored under them. Exchange and aggregator requests are
    parameters: a fetch returns None where the retried request raised. */
module Handler {
  import opened Wrappers
  import opened Json
  import opened Cmc
  import opened Tables
  import opened Reconcile
  import opened Registry
  import opened Ingestion

  /** `get_all_exchanges_realtime_data`: each exchange's tickers, keyed by
      exchange; an exchange whose fetch raised is absent. */
  function FetchedTickers(fetch: string -> Option<map<string, Json>>): (t: map<string, map<string, Json>>)
    ensures forall ex :: ex in t <==> ex in Exchanges && fetch(ex).Some?
    ensures forall ex :: ex in t ==> t[ex] == fetch(ex).value
  {
    map ex | ex in Exchanges && fetch(ex).Some? :: fetch(ex).value
  }

  /** The decoded listing response as the JSON object cached under
      `CMCCoinsData`. */
  function PayloadJson(data: Option<seq<CmcCoin>>, others: map<string, Json>): Json {
    match data
    case Some(coins) => JObj(others["data" := JArr(seq(|coins|, k requires 0 <= k < |coins| => CoinJson(coins[k])))])
    case None => JObj(others)
  }

  /** What `_save_cmc_coins_to_database` leaves, from the market data, tags
      and crypto-tag links `before` and the cache `cache0`: up to the first
      coin whose store raises, each coin's listing entry is cached; if one
      raises the tables roll back and its error propagates, otherwise the
      tables hold exactly the listing's market data, tags and links. */
  predicate ListingStored(cryptos: seq<Crypto>, coins: seq<CmcCoin>, cache0: map<string, Json>,
                          before: (seq<MarketData>, seq<string>, seq<CryptoTag>),
                          r: Result<(), DbError>, cache: map<string, Json>,
                          after: (seq<MarketData>, seq<string>, seq<CryptoTag>))
  {
    match FirstFailure(cryptos, coins)
    case Some(k) =>
      && r == Err(CoinError(cryptos, coins[..k], coins[k]).value)
      && after == before
      && cache == CmcCacheWrites(cache0, coins[..k])
    case None =>
      && r == Ok(())
      && (forall k :: 0 <= k < |coins| ==> coins[k].cmcRank.Some? && coins[k].lastUpdated.Some?)
      && after == (MarketRows(coins), TagTable(coins), CryptoTagsOf(coins))
      && cache == CmcCacheWrites(cache0, coins)
  }

  /** A failure at position k: the listing fails there. */
  lemma FirstFailureAt(cryptos: seq<Crypto>, coins: seq<CmcCoin>, k: nat)
    requires k < |coins|
    requires FirstFailure(cryptos, coins[..k]).None?
    requires CoinError(cryptos, coins[..k], coins[k]).Some?
    ensures FirstFailure(cryptos, coins) == Some(k)
  {
    forall j | 0 <= j < k ensures coins[..k][..j] == coins[..j] && coins[..k][j] == coins[j] {
    }
  }

  /** Storing one more coin that does not raise: the listing's tables and
      cache entries grow by that coin's. */
  lemma StoreStep(cryptos: seq<Crypto>, coins: seq<CmcCoin>, cache0: map<string, Json>, k: nat)
    requires k < |coins|
    requires FirstFailure(cryptos, coins[..k]).None?
    requires CoinError(cryptos, coins[..k], coins[k]).None?
    requires forall j :: 0 <= j < k ==> coins[j].cmcRank.Some? && coins[j].lastUpdated.Some?
    ensures FirstFailure(cryptos, coins[..k + 1]).None?
    ensures forall j :: 0 <= j <= k ==> coins[j].cmcRank.Some? && coins[j].lastUpdated.Some?
    ensures MarketRows(coins[..k + 1]) == MarketRows(coins[..k]) + [MarketRow(coins[k])]
    ensures TagTable(coins[..k + 1]) == AddTags(TagTable(coins[..k]), TagsOf(coins[k]))
    ensures CryptoTagsOf(coins[..k + 1]) == CryptoTagsOf(coins[..k]) + CoinTags(coins[k])
    ensures CmcCacheWrites(cache0, coins[..k + 1]) == CmcCacheWrites(cache0, coins[..k])[CmcDataKey(coins[k]) := CoinJson(coins[k])]
  {
    var prefix := coins[..k + 1];
    assert prefix[..k] == coins[..k] && prefix[k] == coins[k];
  }

  /** Bars that raise make every longer list raise. */
  lemma {:induction false} BarRowsNoneExtends(cryptoId: int, bars: seq<Json>, j: nat)
    requires j <= |bars| && BarRows(cryptoId, bars[..j]).None?
    ensures BarRows(cryptoId, bars).None?
    decreases |bars|
  {
    if j < |bars| {
      var n := |bars| - 1;
      assert bars[..n][..j] == bars[..j];
      BarRowsNoneExtends(cryptoId, bars[..n], j);
    } else {
      assert bars[..j] == bars;
    }
  }

  class CoinHandler {
    const db: Database
    var cache: map<string, Json>

    /** A handler over a database and a cache holding `cache`. */
    constructor (db: Database, cache: map<string, Json>)
      ensures this.db == db && this.cache == cache
    {
      this.db := db;
      this.cache := cache;
    }

    /** `get_all_exchanges_realtime_data`: one retried fetch per exchange,
        an exchange whose fetch raised left out. */
    method CollectTickers(fetch: string -> Option<map<string, Json>>) returns (tickers: map<string, map<string, Json>>)
      ensures tickers == FetchedTickers(fetch)
    {
      tickers := map[];
      for k := 0 to |Exchanges|
        invariant tickers == map ex | ex in Exchanges[..k] && fetch(ex).Some? :: fetch(ex).value
      {
        var exchange := Exchanges[k];
        assert Exchanges[..k + 1] == Exchanges[..k] + [exchange];
        match fetch(exchange) {
          case Some(t) => tickers := tickers[exchange := t];
          case None =>
        }
      }
      assert Exchanges[..|Exchanges|] == Exchanges;
    }

    /** `_save_tf_coins_to_database` (atomic): every crypto is deleted, which
        cascades to exchange symbols, market data, crypto-tag links and all
        price rows; then one crypto per row and one exchange symbol per cell
        holding a pair are created. A repeated id violates the primary key
        and rolls everything back. */
    method SaveTfCoins(rows: seq<Row>) returns (r: Result<(), DbError>)
      modifies db
      ensures r.Err? <==> !DistinctIds(rows)
      ensures r.Err? ==> r.error == IntegrityError
      ensures r.Err? ==> db.cryptos == old(db.cryptos) && db.exchangeSymbols == old(db.exchangeSymbols) && db.prices == old(db.prices)
      ensures r.Err? ==> db.marketData == old(db.marketData) && db.tags == old(db.tags) && db.cryptoTags == old(db.cryptoTags)
      ensures r.Ok? ==> db.cryptos == CryptosOf(rows) && db.exchangeSymbols == SymbolsOf(rows)
      ensures r.Ok? ==> db.marketData == [] && db.cryptoTags == [] && db.prices == map[] && db.tags == old(db.tags)
    {
      var cryptos0, symbols0, market0, links0, prices0 := db.cryptos, db.exchangeSymbols, db.marketData, db.cryptoTags, db.prices;
      db.cryptos, db.exchangeSymbols, db.marketData, db.cryptoTags, db.prices := [], [], [], [], map[];
      for i := 0 to |rows|
        invariant db.cryptos == CryptosOf(rows[..i]) && db.exchangeSymbols == SymbolsOf(rows[..i])
        invariant DistinctIds(rows[..i])
        invariant db.marketData == [] && db.cryptoTags == [] && db.prices == map[] && db.tags == old(db.tags)
      {
        var row := rows[i];
        if HasCrypto(db.cryptos, row.id) {
          RepeatedId(rows, i);
          db.cryptos, db.exchangeSymbols, db.marketData, db.cryptoTags, db.prices := cryptos0, symbols0, market0, links0, prices0;
          return Err(IntegrityError);
        }
        NewIdSaved(rows, i);
        db.cryptos := db.cryptos + [CryptoOf(row)];
        CreateSymbols(row);
      }
      assert rows[..|rows|] == rows;
      r := Ok(());
    }

    /** The inner loop of `_save_tf_coins_to_database`: one active
        `ExchangeSymbol` per exchange column of the row that holds a pair. */
    method CreateSymbols(row: Row)
      modifies db
      ensures db.exchangeSymbols == old(db.exchangeSymbols) + RowSymbols(row, |Exchanges|)
      ensures db.cryptos == old(db.cryptos) && db.marketData == old(db.marketData) && db.cryptoTags == old(db.cryptoTags)
      ensures db.prices == old(db.prices) && db.tags == old(db.tags)
    {
      for e := 0 to |Exchanges|
        invariant db.exchangeSymbols == old(db.exchangeSymbols) + RowSymbols(row, e)
        invariant db.cryptos == old(db.cryptos) && db.marketData == old(db.marketData) && db.cryptoTags == old(db.cryptoTags)
        invariant db.prices == old(db.prices) && db.tags == old(db.tags)
      {
        var added := CellSymbols(row, Exchanges[e]);
        if Cell(row, Exchanges[e]).Some? {
          db.exchangeSymbols := db.exchangeSymbols + [ExchangeSymbol(row.id, Exchanges[e], Cell(row, Exchanges[e]).value, true)];
        }
        assert old(db.exchangeSymbols) + RowSymbols(row, e + 1) == old(db.exchangeSymbols) + RowSymbols(row, e) + added;
      }
    }

    /** `get_save_tf_coins_data` on the listing read back from the cache:
        stablecoins are dropped from it in place, the frame is built,
        matched against the fetched tickers, deduplicated and stripped of
        unlisted rows, then saved. An empty listing raises before anything is
        written. */
    method GetSaveTfCoinsData(payload: CmcPayload, fetch: string -> Option<map<string, Json>>) returns (saved: bool)
      modifies payload, db
      ensures payload.data == Some(NonStablecoins(old(payload.data).GetOr([])))
      ensures var frame := Reconciled(NonStablecoins(old(payload.data).GetOr([])), FetchedTickers(fetch));
        && (saved <==> frame.Ok? && DistinctIds(frame.value))
        && (saved ==> db.cryptos == CryptosOf(frame.value) && db.exchangeSymbols == SymbolsOf(frame.value))
        && (saved ==> db.marketData == [] && db.cryptoTags == [] && db.prices == map[] && db.tags == old(db.tags))
        && (!saved ==> db.cryptos == old(db.cryptos) && db.exchangeSymbols == old(db.exchangeSymbols) && db.prices == old(db.prices))
        && (!saved ==> db.marketData == old(db.marketData) && db.tags == old(db.tags) && db.cryptoTags == old(db.cryptoTags))
    {
      var cleaned := RemoveStablecoins(payload);
      var tickers := CollectTickers(fetch);
      var coins := cleaned.data.GetOr([]);
      var prepared := PrepareRows(coins);
      if prepared.Err? {
        return false;
      }
      var frame := new CoinsFrame(prepared.value);
      frame.ProcessExchangeData(tickers);
      frame.RemoveDuplicates();
      frame.DropUnlistedRows();
      var r := SaveTfCoins(frame.rows);
      saved := r.Ok?;
    }

    /** `_load_coins_data_from_database`: one row per crypto; the exchange
        columns are filled exchange by exchange, each symbol of that exchange
        written into its crypto's row in table order, and a cell holding
        "nan" reads as missing. Reads only. */
    method LoadCoins() returns (frame: seq<LoadedRow>)
      ensures frame == LoadedFrame(db.cryptos, db.exchangeSymbols)
      ensures WellFormed(frame)
    {
      var cryptos, symbols := db.cryptos, db.exchangeSymbols;
      var columns: seq<seq<Option<string>>> := [];
      for e := 0 to |Exchanges|
        invariant |columns| == e
        invariant forall c :: 0 <= c < e ==> |columns[c]| == |cryptos|
        invariant forall c, i :: 0 <= c < e && 0 <= i < |cryptos| ==>
          columns[c][i] == LastSymbol(symbols, cryptos[i].cmcId, Exchanges[c])
      {
        var col: seq<Option<string>> := seq(|cryptos|, _ => None);
        for j := 0 to |symbols|
          invariant |col| == |cryptos|
          invariant forall i :: 0 <= i < |cryptos| ==> col[i] == LastSymbol(symbols[..j], cryptos[i].cmcId, Exchanges[e])
        {
          var s := symbols[j];
          assert symbols[..j + 1][..j] == symbols[..j];
          if s.exchange == Exchanges[e] {
            col := seq(|cryptos|, i requires 0 <= i < |cryptos| => if cryptos[i].cmcId == s.cryptoId then Some(s.symbol) else col[i]);
          }
        }
        assert symbols[..|symbols|] == symbols;
        columns := columns + [col];
      }
      frame := seq(|cryptos|, i requires 0 <= i < |cryptos| =>
        LoadedRow(cryptos[i], seq(|Exchanges|, c requires 0 <= c < |Exchanges| => NanToNone(columns[c][i]))));
      forall i | 0 <= i < |cryptos| ensures frame[i] == LoadedFrame(cryptos, symbols)[i] {
        assert frame[i].pairs == LoadedPairs(symbols, cryptos[i].cmcId);
      }
    }

    /** `_save_cmc_coins_to_database` (atomic) on the listing's coins as
        given: market data, tags and links are deleted and rebuilt coin by
        coin, and each stored coin's entry is cached. The cache is not part
        of the transaction: entries written before a failure stay. */
    method SaveCmcCoins(coins: seq<CmcCoin>) returns (r: Result<(), DbError>)
      modifies this, db
      ensures ListingStored(old(db.cryptos), coins, old(cache), old((db.marketData, db.tags, db.cryptoTags)),
                            r, cache, (db.marketData, db.tags, db.cryptoTags))
      ensures db.cryptos == old(db.cryptos) && db.exchangeSymbols == old(db.exchangeSymbols) && db.prices == old(db.prices)
    {
      var market0, tags0, links0 := db.marketData, db.tags, db.cryptoTags;
      db.marketData, db.tags, db.cryptoTags := [], [], [];
      for k := 0 to |coins|
        invariant FirstFailure(db.cryptos, coins[..k]).None?
        invariant forall j :: 0 <= j < k ==> coins[j].cmcRank.Some? && coins[j].lastUpdated.Some?
        invariant db.marketData == MarketRows(coins[..k])
        invariant db.tags == TagTable(coins[..k]) && db.cryptoTags == CryptoTagsOf(coins[..k])
        invariant cache == CmcCacheWrites(old(cache), coins[..k])
        invariant db.cryptos == old(db.cryptos) && db.exchangeSymbols == old(db.exchangeSymbols) && db.prices == old(db.prices)
      {
        var c := coins[k];
        var err := CoinError(db.cryptos, coins[..k], c);
        if err.Some? {
          FirstFailureAt(db.cryptos, coins, k);
          db.marketData, db.tags, db.cryptoTags := market0, tags0, links0;
          return Err(err.value);
        }
        StoreStep(db.cryptos, coins, old(cache), k);
        db.marketData := db.marketData + [MarketRow(c)];
        StoreTags(c);
        cache := cache[CmcDataKey(c) := CoinJson(c)];
      }
      assert coins[..|coins|] == coins;
      r := Ok(());
    }

    /** The tag loop of one coin: each tag is fetched or created and the
        coin linked to it. */
    method StoreTags(c: CmcCoin)
      modifies db
      ensures db.tags == AddTags(old(db.tags), TagsOf(c))
      ensures db.cryptoTags == old(db.cryptoTags) + CoinTags(c)
      ensures db.cryptos == old(db.cryptos) && db.exchangeSymbols == old(db.exchangeSymbols)
      ensures db.marketData == old(db.marketData) && db.prices == old(db.prices)
    {
      var names := TagsOf(c);
      for j := 0 to |names|
        invariant db.tags == AddTags(old(db.tags), names[..j])
        invariant db.cryptoTags == old(db.cryptoTags) + CoinTags(c)[..j]
        invariant db.cryptos == old(db.cryptos) && db.exchangeSymbols == old(db.exchangeSymbols)
        invariant db.marketData == old(db.marketData) && db.prices == old(db.prices)
      {
        assert names[..j + 1][..j] == names[..j];
        assert CoinTags(c)[..j + 1] == CoinTags(c)[..j] + [CryptoTag(c.id, names[j])];
        if names[j] !in db.tags {
          db.tags := db.tags + [names[j]];
        }
        db.cryptoTags := db.cryptoTags + [CryptoTag(c.id, names[j])];
      }
      assert names[..|names|] == names && CoinTags(c)[..|names|] == CoinTags(c);
    }

    /** The store with unregistered ids skipped: it stores exactly the
        registered coins of the listing. */
    method SaveRegisteredCmcCoins(coins: seq<CmcCoin>) returns (r: Result<(), DbError>)
      modifies this, db
      ensures ListingStored(old(db.cryptos), RegisteredCoins(old(db.cryptos), coins), old(cache),
                            old((db.marketData, db.tags, db.cryptoTags)), r, cache, (db.marketData, db.tags, db.cryptoTags))
      ensures db.cryptos == old(db.cryptos) && db.exchangeSymbols == old(db.exchangeSymbols) && db.prices == old(db.prices)
    {
      var registered := RegisteredCoins(db.cryptos, coins);
      r := SaveCmcCoins(registered);
    }

    /** `get_save_cmc_coins_data`: a fetched listing (None where the retried
        request raised) is cached whole under `CMCCoinsData` and then stored
        as given; a failing store is logged, and its error is returned
        here. */
    method GetSaveCmcCoinsData(fetched: Option<CmcPayload>) returns (logged: Option<DbError>)
      modifies this, db
      ensures fetched.None? ==> logged.None? && cache == old(cache)
      ensures fetched.None? ==> db.marketData == old(db.marketData) && db.tags == old(db.tags) && db.cryptoTags == old(db.cryptoTags)
      ensures fetched.Some? ==>
        ListingStored(old(db.cryptos), fetched.value.data.GetOr([]),
                      old(cache)[CmcCoinsData := PayloadJson(fetched.value.data, fetched.value.others)],
                      old((db.marketData, db.tags, db.cryptoTags)),
                      if logged.Some? then Err(logged.value) else Ok(()), cache, (db.marketData, db.tags, db.cryptoTags))
      ensures db.cryptos == old(db.cryptos) && db.exchangeSymbols == old(db.exchangeSymbols) && db.prices == old(db.prices)
    {
      logged := None;
      if fetched.Some? {
        var payload := fetched.value;
        cache := cache[CmcCoinsData := PayloadJson(payload.data, payload.others)];
        var r := SaveCmcCoins(payload.data.GetOr([]));
        if r.Err? {
          logged := Some(r.error);
        }
      }
    }

    /** `get_save_realtime_data` with each coin keyed by its short symbol
        (`name`): per coin, the first exchange whose ticker is a truthy dict
        gives the reading, tagged with the exchange and cached; the aggregate
        is cached when any reading exists. Returns the number of coins whose
        lookup raised. */
    method GetSaveRealtimeData(fetch: string -> Option<map<string, Json>>) returns (n: int)
      modifies this
      ensures (n, cache) == Realtime(LoadedFrame(db.cryptos, db.exchangeSymbols), FetchedTickers(fetch), old(cache))
    {
      var tickers := CollectTickers(fetch);
      var frame := LoadCoins();
      var data: map<string, Json> := map[];
      var errors: set<string> := {};
      ghost var st0 := Readings(map[], {}, cache);
      for i := 0 to |frame|
        invariant RealtimeRows(st0, frame, tickers, 0) == RealtimeRows(Readings(data, errors, cache), frame, tickers, i)
      {
        var row := frame[i];
        var coin := row.crypto.name;
        ghost var start := Readings(data, errors, cache);
        var e := 0;
        while e < |Exchanges|
          invariant 0 <= e <= |Exchanges|
          invariant RealtimeCoin(start, coin, row, tickers, 0) == RealtimeCoin(Readings(data, errors, cache), coin, row, tickers, e)
        {
          if row.pairs[e].Some? {
            var t := TickerFor(tickers, Exchanges[e], row.pairs[e].value);
            if Truthy(t) && t.JObj? {
              var v := Tagged(t, Exchanges[e]);
              data := data[coin := v];
              cache := cache[RealtimeKey(coin) := v];
              break;
            } else if Truthy(t) {
              errors := errors + {coin};
            }
          }
          e := e + 1;
        }
      }
      if data != map[] {
        cache := cache[RealTimeData := JObj(data)];
      }
      n := |errors|;
    }

    /** `get_save_orderbook_data`: for the first `Coins_Limit` coins, the
        first exchange whose retried fetch returns a book gives it; a fetch
        that raised marks the coin and pauses five seconds; each coin ends
        with a short pause. The aggregate is always cached. Returns the
        number of coins marked, and the pauses in order. */
    method GetSaveOrderbookData(limit: int, fetch: (string, string, Option<int>) -> Option<Json>) returns (n: int, sleeps: seq<int>)
      modifies this
      ensures (n, cache, sleeps) == Orderbook(LoadedFrame(db.cryptos, db.exchangeSymbols), limit, fetch, old(cache))
    {
      var loaded := LoadCoins();
      var frame := Limited(loaded);
      var data: map<string, Json> := map[];
      var errors: set<string> := {};
      sleeps := [];
      ghost var st0 := Books(map[], {}, []);
      for i := 0 to |frame|
        invariant BookRows(st0, frame, limit, fetch, 0) == BookRows(Books(data, errors, sleeps), frame, limit, fetch, i)
      {
        var row := frame[i];
        var coin := row.crypto.name;
        ghost var start := Books(data, errors, sleeps);
        var e := 0;
        while e < |Exchanges|
          invariant 0 <= e <= |Exchanges|
          invariant BookCoin(start, coin, row, limit, fetch, 0) == BookCoin(Books(data, errors, sleeps), coin, row, limit, fetch, e)
        {
          if row.pairs[e].Some? {
            var book := fetch(Exchanges[e], row.pairs[e].value, DepthFor(Exchanges[e], limit));
            if book.None? {
              errors := errors + {coin};
              sleeps := sleeps + [FailurePause];
            } else if book.value != JNull {
              data := data[coin := book.value];
              break;
            }
          }
          e := e + 1;
        }
        sleeps := sleeps + [CoinPause];
      }
      cache := cache[OrderBookData := JObj(data)];
      n := |errors|;
    }

    /** `_save_ohlcv_to_database` (atomic): for a timeframe with a table,
        the crypto's rows there are replaced by the bars' records; building a
        record that raises rolls the delete back. Another timeframe is logged
        and changes nothing. */
    method SaveOhlcv(cryptoId: int, bars: seq<Json>, tf: string) returns (r: Result<(), DbError>)
      modifies db
      ensures match OhlcvSaved(old(db.prices), cryptoId, bars, tf)
        case Ok(p) => r == Ok(()) && db.prices == p
        case Err(e) => r == Err(e) && db.prices == old(db.prices)
      ensures db.cryptos == old(db.cryptos) && db.exchangeSymbols == old(db.exchangeSymbols)
      ensures db.marketData == old(db.marketData) && db.tags == old(db.tags) && db.cryptoTags == old(db.cryptoTags)
    {
      var table := TableFor(tf);
      if table.None? {
        return Ok(());
      }
      var t := table.value;
      var prices0 := db.prices;
      db.prices := db.prices[t := WithoutCrypto(Rows(db.prices, t), cryptoId)];
      var records: seq<PriceRow> := [];
      for j := 0 to |bars|
        invariant BarRows(cryptoId, bars[..j]) == Some(records)
        invariant db.prices == prices0[t := WithoutCrypto(Rows(prices0, t), cryptoId)]
      {
        assert bars[..j + 1][..j] == bars[..j];
        match BarOutcomeOf(cryptoId, bars[j]) {
          case Skip =>
          case Keep(row) => records := records + [row];
          case Fail =>
            BarRowsNoneExtends(cryptoId, bars, j + 1);
            db.prices := prices0;
            return Err(InvalidValue);
        }
      }
      assert bars[..|bars|] == bars;
      assert BarRows(cryptoId, bars) == Some(records);
      if records != [] {
        db.prices := db.prices[t := Rows(db.prices, t) + records];
      } else {
        assert WithoutCrypto(Rows(prices0, t), cryptoId) + records == WithoutCrypto(Rows(prices0, t), cryptoId);
      }
      r := Ok(());
    }

    /** `get_all_coins_ohlcv_data`: for the first `Coins_Limit` coins, each
        looked up by short symbol, the exchanges are tried in order; a truthy
        bar list is kept, cached under `<coin>_<timeframe>` and saved, and a
        truthy cache entry for the coin ends it, and each visited coin is
        followed by a 100 ms pause. A lookup that raises abandons the batch
        and returns nothing. */
    method GetAllCoinsOhlcvData(tf: string, limit: int, fetch: (string, string, int, string) -> Option<Json>)
      returns (data: map<string, Json>, errors: set<string>, sleeps: seq<int>)
      modifies this, db
      ensures var res := OhlcvBatch(LoadedFrame(old(db.cryptos), old(db.exchangeSymbols)), old(db.cryptos), tf, limit, fetch, old(cache), old(db.prices));
        data == res.data && errors == res.errors && cache == res.cache && db.prices == res.prices && sleeps == res.sleeps
      ensures db.cryptos == old(db.cryptos) && db.exchangeSymbols == old(db.exchangeSymbols)
      ensures db.marketData == old(db.marketData) && db.tags == old(db.tags) && db.cryptoTags == old(db.cryptoTags)
    {
      var loaded := LoadCoins();
      var frame := Limited(loaded);
      data, errors, sleeps := map[], {}, [];
      ghost var st0 := Sweep(map[], {}, cache, db.prices, []);
      for i := 0 to |frame|
        invariant OhlcvRows(st0, frame, db.cryptos, tf, limit, fetch, 0) == OhlcvRows(Sweep(data, errors, cache, db.prices, sleeps), frame, db.cryptos, tf, limit, fetch, i)
        invariant db.cryptos == old(db.cryptos) && db.exchangeSymbols == old(db.exchangeSymbols)
        invariant db.marketData == old(db.marketData) && db.tags == old(db.tags) && db.cryptoTags == old(db.cryptoTags)
      {
        var row := frame[i];
        var coin := row.crypto.name;
        var crypto := CryptoNamed(db.cryptos, coin);
        if crypto.Err? {
          return map[], {}, sleeps;
        }
        data, errors := OhlcvCoinSweep(data, errors, coin, crypto.value.cmcId, row, tf, limit, fetch, sleeps);
        sleeps := sleeps + [CoinPause];
      }
    }

    /** The exchange loop of `get_all_coins_ohlcv_data` for one coin. */
    method OhlcvCoinSweep(data0: map<string, Json>, errors0: set<string>, coin: string, cryptoId: int, row: LoadedRow,
                          tf: string, limit: int, fetch: (string, string, int, string) -> Option<Json>,
                          ghost sleeps: seq<int>)
      returns (data: map<string, Json>, errors: set<string>)
      requires |row.pairs| == |Exchanges|
      modifies this, db
      ensures Sweep(data, errors, cache, db.prices, sleeps) ==
        OhlcvCoin(Sweep(data0, errors0, old(cache), old(db.prices), sleeps), coin, cryptoId, row, tf, limit, fetch, 0)
      ensures db.cryptos == old(db.cryptos) && db.exchangeSymbols == old(db.exchangeSymbols)
      ensures db.marketData == old(db.marketData) && db.tags == old(db.tags) && db.cryptoTags == old(db.cryptoTags)
    {
      data, errors := data0, errors0;
      var e := 0;
      while e < |Exchanges|
        invariant 0 <= e <= |Exchanges|
        invariant OhlcvCoin(Sweep(data0, errors0, old(cache), old(db.prices), sleeps), coin, cryptoId, row, tf, limit, fetch, 0) ==
          OhlcvCoin(Sweep(data, errors, cache, db.prices, sleeps), coin, cryptoId, row, tf, limit, fetch, e)
        invariant db.cryptos == old(db.cryptos) && db.exchangeSymbols == old(db.exchangeSymbols)
        invariant db.marketData == old(db.marketData) && db.tags == old(db.tags) && db.cryptoTags == old(db.cryptoTags)
      {
        if row.pairs[e].Some? {
          var bars := fetch(row.pairs[e].value, tf, limit, Exchanges[e]);
          var raised := bars.None?;
          if bars.Some? && Truthy(bars.value) && bars.value.JArr? {
            data := data[coin := bars.value];
            cache := cache[BarsKey(coin, tf) := bars.value];
            var saved := SaveOhlcv(cryptoId, bars.value.items, tf);
            raised := saved.Err?;
          }
          if raised {
            errors := errors + {ErrorKey(Exchanges[e], coin)};
          } else if Cached(cache, BarsKey(coin, tf)) {
            break;
          }
        }
        e := e + 1;
      }
    }

    /** `run_save_ohlcv_redis` for a crawler: the batch for its timeframe
        with 201 bars; the bars are cached under the crawler's key when any
        were fetched. Returns the number of failed attempts. */
    method RunSaveOhlcvRedis(crawler: Crawler, nowS: int, fetch: (string, string, int, string) -> Option<Json>) returns (n: int)
      modifies this, db
      ensures var res := OhlcvBatch(LoadedFrame(old(db.cryptos), old(db.exchangeSymbols)), old(db.cryptos),
                                    TimeframeOf(crawler), OhlcvLimit, fetch, old(cache), old(db.prices));
        && n == |res.errors|
        && cache == (if res.data != map[] then res.cache[RedisKey(crawler) := JObj(res.data)] else res.cache)
        && db.prices == res.prices
      ensures db.cryptos == old(db.cryptos) && db.exchangeSymbols == old(db.exchangeSymbols)
    {
      var (since, tf) := SinceTimeFrame(crawler, nowS);
      var data, errors, _ := GetAllCoinsOhlcvData(tf, OhlcvLimit, fetch);
      if data != map[] {
        cache := cache[RedisKey(crawler) := JObj(data)];
      }
      n := |errors|;
    }

    /** `get_coins_ohlcv_data`: the `<coin>_<timeframe>` keys of the
        requested coins are read in one batch; a key not cached is left out.
        Reads only. */
    method GetCoinsOhlcvData(crawler: Crawler, coins: Option<seq<string>>, tf: Option<string>, render: Json -> string)
      returns (r: map<string, Json>)
      ensures r == CoinsOhlcv(cache, crawler, coins, tf, render)
    {
      var timeframe := if tf.Some? then tf.value else TimeframeOf(crawler);
      var names := RequestedCoins(cache, crawler, coins, render);
      var pending := names;
      r := map[];
      while pending != {}
        invariant pending <= names
        invariant r == CachedBars(cache, names - pending, timeframe)
        decreases pending
      {
        var c :| c in pending;
        var key := BarsKey(c, timeframe);
        CachedBarsStep(cache, names - pending, c, timeframe);
        if key in cache {
          r := r[key := cache[key]];
        }
        assert names - (pending - {c}) == (names - pending) + {c};
        pending := pending - {c};
      }
    }
  }
}
