/** The per-coin exchange fallback loops of `CoinHandler`
    (exchange_webservice/crawler/real_time.py) and the timeframe crawlers
    built on them, as functions of the loaded registry frame, the fetched
    exchange data and the cache. Each loop visits a coin's exchanges in the
    order of `Exchanges`, skipping exchanges without a pair. A fetch that
    goes through `retry` is an oracle returning None when the retry raised. */
module Ingestion {
  import opened Wrappers
  import opened Json
  import opened Tables
  import opened Reconcile
  import opened Registry
  import StartTime

  // ---------------------------------------------------------------------
  // Cache keys (exchange_webservice/crawler/redis_keys.py) and crawlers

  const FiveMinuteData: string := "FiveMinuteData"
  const FifteenMinutesData: string := "FifteenMinutesData"
  const OneHourData: string := "OneHourData"
  const FourHourData: string := "FourHourData"
  const DailyData: string := "DailyData"
  const WeeklyData: string := "WeeklyData"
  const RealTimeData: string := "RealTimeData"
  const OrderBookData: string := "OrderBookData"
  const CmcCoinsData: string := "CMCCoinsData"

  /** `CoinHandler.Coins_Limit`: the order-book and OHLCV loops visit only
      this many coins. */
  const CoinsLimit: nat := 500

  /** The bar count `run_save_ohlcv_redis` asks for. */
  const OhlcvLimit: int := 201

  /** The six timeframe crawlers. */
  datatype Crawler =
    | FiveMinuteCrawler | FifteenMinutesCrawler | OneHourCrawler
    | FourHourCrawler | DailyCrawler | WeeklyCrawler

  function TimeframeOf(c: Crawler): string {
    match c
    case FiveMinuteCrawler => "5m"
    case FifteenMinutesCrawler => "15m"
    case OneHourCrawler => "1h"
    case FourHourCrawler => "4h"
    case DailyCrawler => "1d"
    case WeeklyCrawler => "1w"
  }

  /** `get_redis_key`: each crawler's aggregate key. */
  function RedisKey(c: Crawler): string {
    match c
    case FiveMinuteCrawler => FiveMinuteData
    case FifteenMinutesCrawler => FifteenMinutesData
    case OneHourCrawler => OneHourData
    case FourHourCrawler => FourHourData
    case DailyCrawler => DailyData
    case WeeklyCrawler => WeeklyData
  }

  /** Distinct crawlers write distinct timeframes and distinct aggregate keys. */
  lemma CrawlersDistinct(a: Crawler, b: Crawler)
    requires a != b
    ensures TimeframeOf(a) != TimeframeOf(b)
    ensures RedisKey(a) != RedisKey(b)
  {
  }

  /** `get_since_time_frame`: the start time of the last 1000 bars for the
      four intraday crawlers, none for the daily and weekly ones; the clock
      reading `nowS` (seconds) is a parameter. */
  function SinceTimeFrame(c: Crawler, nowS: int): (r: (Option<int>, string))
    ensures r.1 == TimeframeOf(c)
    ensures r.0.None? <==> c == DailyCrawler || c == WeeklyCrawler
    ensures r.0.Some? ==> StartTime.GetStartTime(TimeframeOf(c), nowS) == Ok(r.0.value)
    ensures r.0.Some? ==> r.0.value < nowS * 1000
  {
    if c == DailyCrawler || c == WeeklyCrawler then (None, TimeframeOf(c))
    else (Some(StartTime.GetStartTime(TimeframeOf(c), nowS).value), TimeframeOf(c))
  }

  // ---------------------------------------------------------------------
  // The loaded frame

  /** Every row has one cell per exchange. */
  predicate WellFormed(frame: seq<LoadedRow>) {
    forall i :: 0 <= i < |frame| ==> |frame[i].pairs| == |Exchanges|
  }

  /** `iloc[:Coins_Limit]`. */
  function Limited(frame: seq<LoadedRow>): (r: seq<LoadedRow>)
    ensures |r| <= CoinsLimit && r <= frame
    ensures |frame| <= CoinsLimit ==> r == frame
  {
    if |frame| <= CoinsLimit then frame else frame[..CoinsLimit]
  }

  /** The short symbols (`name`) of the frame's coins. */
  predicate NamedIn(frame: seq<LoadedRow>, coin: string) {
    exists i :: 0 <= i < |frame| && frame[i].crypto.name == coin
  }

  // ---------------------------------------------------------------------
  // Realtime readings (`get_save_realtime_data`, lines 195-226)

  /** What the realtime loop accumulates: the readings per coin, the coins
      whose lookup raised, and the cache. */
  datatype Readings = Readings(data: map<string, Json>, errors: set<string>, cache: map<string, Json>)

  /** `tickers_json_data.get(exchange, {}).get(symbol)`, None being JNull. */
  function TickerFor(tickers: map<string, map<string, Json>>, exchange: string, symbol: string): Json {
    if exchange in tickers && symbol in tickers[exchange] then tickers[exchange][symbol] else JNull
  }

  /** The ticker a coin finds on exchange `e`; JNull where it has no pair. */
  function TickerAt(row: LoadedRow, tickers: map<string, map<string, Json>>, e: nat): Json
    requires e < |Exchanges| && |row.pairs| == |Exchanges|
  {
    match row.pairs[e]
    case Some(symbol) => TickerFor(tickers, Exchanges[e], symbol)
    case None => JNull
  }

  /** A truthy dict: tagged with its exchange and kept. */
  predicate Readable(t: Json) {
    Truthy(t) && t.JObj?
  }

  /** A truthy value that is not a dict: tagging it raises. */
  predicate Unreadable(t: Json) {
    Truthy(t) && !t.JObj?
  }

  function Tagged(t: Json, exchange: string): Json
    requires t.JObj?
  {
    JObj(t.fields["exchange" := JStr(exchange)])
  }

  function RealtimeKey(coin: string): string {
    coin + "_RealTime"
  }

  /** One coin over exchanges `e..`: the first readable ticker is kept and
      cached under `<coin>_RealTime`, and an unreadable one marks the coin as
      failed and moves on. */
  function RealtimeCoin(st: Readings, coin: string, row: LoadedRow, tickers: map<string, map<string, Json>>, e: nat): Readings
    requires e <= |Exchanges| && |row.pairs| == |Exchanges|
    decreases |Exchanges| - e
  {
    if e == |Exchanges| then st
    else
      var t := TickerAt(row, tickers, e);
      if Readable(t) then
        var v := Tagged(t, Exchanges[e]);
        Readings(st.data[coin := v], st.errors, st.cache[RealtimeKey(coin) := v])
      else if Unreadable(t) then
        RealtimeCoin(Readings(st.data, st.errors + {coin}, st.cache), coin, row, tickers, e + 1)
      else
        RealtimeCoin(st, coin, row, tickers, e + 1)
  }

  /** No exchange from `e` on gives a readable ticker. */
  predicate NoneReadable(row: LoadedRow, tickers: map<string, map<string, Json>>, e: nat)
    requires |row.pairs| == |Exchanges|
  {
    forall k :: e <= k < |Exchanges| ==> !Readable(TickerAt(row, tickers, k))
  }

  /** Exchange `k` is the first readable one from `e` on. */
  predicate FirstReadable(row: LoadedRow, tickers: map<string, map<string, Json>>, e: nat, k: nat)
    requires |row.pairs| == |Exchanges|
  {
    e <= k < |Exchanges| && Readable(TickerAt(row, tickers, k)) &&
    forall j :: e <= j < k ==> !Readable(TickerAt(row, tickers, j))
  }

  /** Some exchange before the first readable one (from `e` on) raises. */
  predicate RaisesFirst(row: LoadedRow, tickers: map<string, map<string, Json>>, e: nat)
    requires |row.pairs| == |Exchanges|
  {
    exists k :: e <= k < |Exchanges| && Unreadable(TickerAt(row, tickers, k)) &&
      forall j :: e <= j < k ==> !Readable(TickerAt(row, tickers, j))
  }

  /** A coin takes the first exchange, in list order, whose ticker for its
      pair is a truthy dict, tagged with that exchange and cached; with none,
      nothing is kept. It is counted as failed iff a truthy non-dict ticker
      comes before that exchange. */
  lemma RealtimeCoinSpec(st: Readings, coin: string, row: LoadedRow, tickers: map<string, map<string, Json>>, e: nat)
    requires e <= |Exchanges| && |row.pairs| == |Exchanges|
    ensures var res := RealtimeCoin(st, coin, row, tickers, e);
      && (NoneReadable(row, tickers, e) ==> res.data == st.data && res.cache == st.cache)
      && (forall k: nat :: FirstReadable(row, tickers, e, k) ==>
            var v := Tagged(TickerAt(row, tickers, k), Exchanges[k]);
            res.data == st.data[coin := v] && res.cache == st.cache[RealtimeKey(coin) := v])
      && res.errors == st.errors + (if RaisesFirst(row, tickers, e) then {coin} else {})
  {
    if NoneReadable(row, tickers, e) {
      RealtimeCoinNone(st, coin, row, tickers, e);
    }
    forall k: nat | FirstReadable(row, tickers, e, k)
      ensures var v := Tagged(TickerAt(row, tickers, k), Exchanges[k]);
        var res := RealtimeCoin(st, coin, row, tickers, e);
        res.data == st.data[coin := v] && res.cache == st.cache[RealtimeKey(coin) := v]
    {
      RealtimeCoinFirst(st, coin, row, tickers, e, k);
    }
    RealtimeCoinErrors(st, coin, row, tickers, e);
  }

  lemma {:induction false} RealtimeCoinNone(st: Readings, coin: string, row: LoadedRow, tickers: map<string, map<string, Json>>, e: nat)
    requires e <= |Exchanges| && |row.pairs| == |Exchanges|
    requires NoneReadable(row, tickers, e)
    ensures RealtimeCoin(st, coin, row, tickers, e).data == st.data
    ensures RealtimeCoin(st, coin, row, tickers, e).cache == st.cache
    decreases |Exchanges| - e
  {
    if e < |Exchanges| {
      var t := TickerAt(row, tickers, e);
      assert !Readable(t);
      if Unreadable(t) {
        RealtimeCoinNone(Readings(st.data, st.errors + {coin}, st.cache), coin, row, tickers, e + 1);
      } else {
        RealtimeCoinNone(st, coin, row, tickers, e + 1);
      }
    }
  }

  lemma {:induction false} RealtimeCoinFirst(st: Readings, coin: string, row: LoadedRow, tickers: map<string, map<string, Json>>, e: nat, k: nat)
    requires e <= |Exchanges| && |row.pairs| == |Exchanges|
    requires FirstReadable(row, tickers, e, k)
    ensures var v := Tagged(TickerAt(row, tickers, k), Exchanges[k]);
      var res := RealtimeCoin(st, coin, row, tickers, e);
      res.data == st.data[coin := v] && res.cache == st.cache[RealtimeKey(coin) := v]
    decreases |Exchanges| - e
  {
    var t := TickerAt(row, tickers, e);
    if k != e {
      assert !Readable(t);
      assert FirstReadable(row, tickers, e + 1, k);
      if Unreadable(t) {
        RealtimeCoinFirst(Readings(st.data, st.errors + {coin}, st.cache), coin, row, tickers, e + 1, k);
      } else {
        RealtimeCoinFirst(st, coin, row, tickers, e + 1, k);
      }
    }
  }

  lemma {:induction false} RealtimeCoinErrors(st: Readings, coin: string, row: LoadedRow, tickers: map<string, map<string, Json>>, e: nat)
    requires e <= |Exchanges| && |row.pairs| == |Exchanges|
    ensures RealtimeCoin(st, coin, row, tickers, e).errors == st.errors + (if RaisesFirst(row, tickers, e) then {coin} else {})
    decreases |Exchanges| - e
  {
    if e < |Exchanges| {
      var t := TickerAt(row, tickers, e);
      if Readable(t) {
        assert !RaisesFirst(row, tickers, e);
      } else if Unreadable(t) {
        RealtimeCoinErrors(Readings(st.data, st.errors + {coin}, st.cache), coin, row, tickers, e + 1);
        assert RaisesFirst(row, tickers, e);
      } else {
        RealtimeCoinErrors(st, coin, row, tickers, e + 1);
        assert RaisesFirst(row, tickers, e) <==> RaisesFirst(row, tickers, e + 1);
      }
    }
  }

  /** The rows `i..` of the frame, one coin after the other. */
  function RealtimeRows(st: Readings, frame: seq<LoadedRow>, tickers: map<string, map<string, Json>>, i: nat): Readings
    requires WellFormed(frame) && i <= |frame|
    decreases |frame| - i
  {
    if i == |frame| then st
    else RealtimeRows(RealtimeCoin(st, frame[i].crypto.name, frame[i], tickers, 0), frame, tickers, i + 1)
  }

  /** Only coins of the frame are read or counted as failed, and each
      realtime cache entry written belongs to one of them. */
  lemma {:induction false} RealtimeRowsCoins(st: Readings, frame: seq<LoadedRow>, tickers: map<string, map<string, Json>>, i: nat)
    requires WellFormed(frame) && i <= |frame|
    ensures var res := RealtimeRows(st, frame, tickers, i);
      && (forall c :: c in res.data && c !in st.data ==> NamedIn(frame[i..], c))
      && (forall c :: c in res.errors && c !in st.errors ==> NamedIn(frame[i..], c))
    decreases |frame| - i
  {
    if i < |frame| {
      var next := RealtimeCoin(st, frame[i].crypto.name, frame[i], tickers, 0);
      RealtimeCoinSpec(st, frame[i].crypto.name, frame[i], tickers, 0);
      RealtimeRowsCoins(next, frame, tickers, i + 1);
      var res := RealtimeRows(st, frame, tickers, i);
      forall c | c in res.data && c !in st.data ensures NamedIn(frame[i..], c) {
        if c == frame[i].crypto.name {
          assert frame[i..][0] == frame[i];
        } else {
          assert c in next.data ==> c in st.data by {
            RealtimeCoinKeys(st, frame[i].crypto.name, frame[i], tickers, 0, c);
          }
          assert NamedIn(frame[i + 1..], c);
          var j :| 0 <= j < |frame[i + 1..]| && frame[i + 1..][j].crypto.name == c;
          assert frame[i..][j + 1] == frame[i + 1..][j];
        }
      }
      forall c | c in res.errors && c !in st.errors ensures NamedIn(frame[i..], c) {
        if c == frame[i].crypto.name {
          assert frame[i..][0] == frame[i];
        } else {
          assert c !in next.errors;
          assert NamedIn(frame[i + 1..], c);
          var j :| 0 <= j < |frame[i + 1..]| && frame[i + 1..][j].crypto.name == c;
          assert frame[i..][j + 1] == frame[i + 1..][j];
        }
      }
    }
  }

  /** A coin's sweep adds no other coin's reading. */
  lemma {:induction false} RealtimeCoinKeys(st: Readings, coin: string, row: LoadedRow, tickers: map<string, map<string, Json>>, e: nat, c: string)
    requires e <= |Exchanges| && |row.pairs| == |Exchanges| && c != coin
    ensures c in RealtimeCoin(st, coin, row, tickers, e).data <==> c in st.data
    decreases |Exchanges| - e
  {
    if e < |Exchanges| {
      var t := TickerAt(row, tickers, e);
      if !Readable(t) && Unreadable(t) {
        RealtimeCoinKeys(Readings(st.data, st.errors + {coin}, st.cache), coin, row, tickers, e + 1, c);
      } else if !Readable(t) {
        RealtimeCoinKeys(st, coin, row, tickers, e + 1, c);
      }
    }
  }

  /** The whole realtime run on a frame: the count it returns and the cache
      it leaves; the aggregate is written only when some reading exists. */
  function Realtime(frame: seq<LoadedRow>, tickers: map<string, map<string, Json>>, cache: map<string, Json>): (int, map<string, Json>)
    requires WellFormed(frame)
  {
    var st := RealtimeRows(Readings(map[], {}, cache), frame, tickers, 0);
    (|st.errors|, if st.data != map[] then st.cache[RealTimeData := JObj(st.data)] else st.cache)
  }

  /** The realtime run as written: the loaded frame has no `symbol` column,
      so line 206 raises KeyError for the first coin and the run returns 0
      having written nothing; an empty registry also returns 0. */
  function RealtimeAsWritten(frame: seq<LoadedRow>, tickers: map<string, map<string, Json>>, cache: map<string, Json>): (r: (int, map<string, Json>))
    ensures r.0 == 0 && r.1 == cache
  {
    (0, cache)
  }

  /** A registry coin with a live ticker: read by the run keyed on `name`,
      lost by the run as written. */
  lemma RealtimeAsWrittenLosesReadings()
    ensures var frame := [LoadedRow(Crypto(1, "BTC", "Bitcoin", false), [Some("BTC/USDT"), None, None, None])];
      var tickers := map["bingx" := map["BTC/USDT" := JObj(map["last" := JNum(1)])]];
      && WellFormed(frame)
      && "BTC_RealTime" in Realtime(frame, tickers, map[]).1
      && "BTC_RealTime" !in RealtimeAsWritten(frame, tickers, map[]).1
  {
    var frame := [LoadedRow(Crypto(1, "BTC", "Bitcoin", false), [Some("BTC/USDT"), None, None, None])];
    var tickers := map["bingx" := map["BTC/USDT" := JObj(map["last" := JNum(1)])]];
    assert Exchanges[0] == "bingx";
    assert TickerAt(frame[0], tickers, 0) == JObj(map["last" := JNum(1)]);
    assert "last" in map["last" := JNum(1)];
    assert Readable(TickerAt(frame[0], tickers, 0));
    var v := Tagged(TickerAt(frame[0], tickers, 0), "bingx");
    var st := Readings(map[], {}, map[]);
    var after := RealtimeCoin(st, "BTC", frame[0], tickers, 0);
    assert after.cache == map[RealtimeKey("BTC") := v];
    assert RealtimeKey("BTC") == "BTC_RealTime";
    assert RealtimeRows(after, frame, tickers, 1) == after;
    assert RealtimeRows(st, frame, tickers, 0) == after;
  }

  // ---------------------------------------------------------------------
  // Order books (`get_save_orderbook_data`, lines 242-276)

  /** The `limit` passed to the order-book fetch: none for coinex. */
  function DepthFor(exchange: string, limit: int): (d: Option<int>)
    ensures d.None? <==> exchange == "coinex"
    ensures d.Some? ==> d.value == limit
  {
    if exchange != "coinex" then Some(limit) else None
  }

  /** The pause after a failed fetch and after each coin, in milliseconds. */
  const FailurePause: int := 5000
  const CoinPause: int := 100

  datatype Books = Books(data: map<string, Json>, errors: set<string>, sleeps: seq<int>)

  /** The book fetched for a coin on exchange `e`: absent where it has no
      pair, None where the retried fetch raised. */
  function BookAt(row: LoadedRow, limit: int, fetch: (string, string, Option<int>) -> Option<Json>, e: nat): Option<Option<Json>>
    requires e < |Exchanges| && |row.pairs| == |Exchanges|
  {
    match row.pairs[e]
    case Some(symbol) => Some(fetch(Exchanges[e], symbol, DepthFor(Exchanges[e], limit)))
    case None => None
  }

  /** One coin over exchanges `e..`: the first fetched book that is not None
      is kept; a failed fetch marks the coin and pauses five seconds. */
  function BookCoin(st: Books, coin: string, row: LoadedRow, limit: int, fetch: (string, string, Option<int>) -> Option<Json>, e: nat): Books
    requires e <= |Exchanges| && |row.pairs| == |Exchanges|
    decreases |Exchanges| - e
  {
    if e == |Exchanges| then st
    else match BookAt(row, limit, fetch, e)
      case Some(Some(book)) =>
        if book != JNull then Books(st.data[coin := book], st.errors, st.sleeps)
        else BookCoin(st, coin, row, limit, fetch, e + 1)
      case Some(None) =>
        BookCoin(Books(st.data, st.errors + {coin}, st.sleeps + [FailurePause]), coin, row, limit, fetch, e + 1)
      case None => BookCoin(st, coin, row, limit, fetch, e + 1)
  }

  /** Exchange `k` gives the first book from `e` on. */
  predicate FirstBook(row: LoadedRow, limit: int, fetch: (string, string, Option<int>) -> Option<Json>, e: nat, k: nat)
    requires |row.pairs| == |Exchanges|
  {
    e <= k < |Exchanges| && GotBook(BookAt(row, limit, fetch, k)) &&
    forall j :: e <= j < k ==> !GotBook(BookAt(row, limit, fetch, j))
  }

  predicate GotBook(b: Option<Option<Json>>) {
    b.Some? && b.value.Some? && b.value.value != JNull
  }

  /** The number of failed fetches from `e` on before the first book. */
  function FailuresBefore(row: LoadedRow, limit: int, fetch: (string, string, Option<int>) -> Option<Json>, e: nat): nat
    requires e <= |Exchanges| && |row.pairs| == |Exchanges|
    decreases |Exchanges| - e
  {
    if e == |Exchanges| then 0
    else
      var b := BookAt(row, limit, fetch, e);
      if GotBook(b) then 0
      else (if b == Some(None) then 1 else 0) + FailuresBefore(row, limit, fetch, e + 1)
  }

  /** A coin keeps the first book fetched in exchange order; it is marked
      failed iff some fetch raised before that, with one five-second pause
      per such failure. */
  lemma BookCoinSpec(st: Books, coin: string, row: LoadedRow, limit: int, fetch: (string, string, Option<int>) -> Option<Json>, e: nat)
    requires e <= |Exchanges| && |row.pairs| == |Exchanges|
    ensures var res := BookCoin(st, coin, row, limit, fetch, e);
      && (forall k: nat :: FirstBook(row, limit, fetch, e, k) ==> res.data == st.data[coin := BookAt(row, limit, fetch, k).value.value])
      && ((forall k :: e <= k < |Exchanges| ==> !GotBook(BookAt(row, limit, fetch, k))) ==> res.data == st.data)
      && res.errors == st.errors + (if FailuresBefore(row, limit, fetch, e) > 0 then {coin} else {})
      && res.sleeps == st.sleeps + seq(FailuresBefore(row, limit, fetch, e), _ => FailurePause)
  {
    forall k: nat | FirstBook(row, limit, fetch, e, k)
      ensures BookCoin(st, coin, row, limit, fetch, e).data == st.data[coin := BookAt(row, limit, fetch, k).value.value]
    {
      BookCoinFirst(st, coin, row, limit, fetch, e, k);
    }
    if forall k :: e <= k < |Exchanges| ==> !GotBook(BookAt(row, limit, fetch, k)) {
      BookCoinNone(st, coin, row, limit, fetch, e);
    }
    BookCoinFailures(st, coin, row, limit, fetch, e);
  }

  lemma {:induction false} BookCoinFirst(st: Books, coin: string, row: LoadedRow, limit: int,
                                         fetch: (string, string, Option<int>) -> Option<Json>, e: nat, k: nat)
    requires e <= |Exchanges| && |row.pairs| == |Exchanges| && FirstBook(row, limit, fetch, e, k)
    ensures BookCoin(st, coin, row, limit, fetch, e).data == st.data[coin := BookAt(row, limit, fetch, k).value.value]
    decreases |Exchanges| - e
  {
    if k != e {
      var b := BookAt(row, limit, fetch, e);
      assert !GotBook(b);
      assert FirstBook(row, limit, fetch, e + 1, k);
      if b == Some(None) {
        BookCoinFirst(Books(st.data, st.errors + {coin}, st.sleeps + [FailurePause]), coin, row, limit, fetch, e + 1, k);
      } else {
        BookCoinFirst(st, coin, row, limit, fetch, e + 1, k);
      }
    }
  }

  lemma {:induction false} BookCoinNone(st: Books, coin: string, row: LoadedRow, limit: int,
                                        fetch: (string, string, Option<int>) -> Option<Json>, e: nat)
    requires e <= |Exchanges| && |row.pairs| == |Exchanges|
    requires forall k :: e <= k < |Exchanges| ==> !GotBook(BookAt(row, limit, fetch, k))
    ensures BookCoin(st, coin, row, limit, fetch, e).data == st.data
    decreases |Exchanges| - e
  {
    if e < |Exchanges| {
      var b := BookAt(row, limit, fetch, e);
      assert !GotBook(b);
      if b == Some(None) {
        BookCoinNone(Books(st.data, st.errors + {coin}, st.sleeps + [FailurePause]), coin, row, limit, fetch, e + 1);
      } else {
        BookCoinNone(st, coin, row, limit, fetch, e + 1);
      }
    }
  }

  lemma {:induction false} BookCoinFailures(st: Books, coin: string, row: LoadedRow, limit: int,
                                            fetch: (string, string, Option<int>) -> Option<Json>, e: nat)
    requires e <= |Exchanges| && |row.pairs| == |Exchanges|
    ensures var res := BookCoin(st, coin, row, limit, fetch, e);
      && res.errors == st.errors + (if FailuresBefore(row, limit, fetch, e) > 0 then {coin} else {})
      && res.sleeps == st.sleeps + seq(FailuresBefore(row, limit, fetch, e), _ => FailurePause)
    decreases |Exchanges| - e
  {
    if e < |Exchanges| {
      var b := BookAt(row, limit, fetch, e);
      if GotBook(b) {
        assert st.sleeps + seq(0, _ => FailurePause) == st.sleeps;
      } else if b == Some(None) {
        var st' := Books(st.data, st.errors + {coin}, st.sleeps + [FailurePause]);
        BookCoinFailures(st', coin, row, limit, fetch, e + 1);
        var n := FailuresBefore(row, limit, fetch, e + 1);
        assert st'.sleeps + seq(n, _ => FailurePause) == st.sleeps + seq(n + 1, _ => FailurePause);
      } else {
        BookCoinFailures(st, coin, row, limit, fetch, e + 1);
      }
    }
  }

  /** The rows `i..`, each followed by the short pause. */
  function BookRows(st: Books, frame: seq<LoadedRow>, limit: int, fetch: (string, string, Option<int>) -> Option<Json>, i: nat): Books
    requires WellFormed(frame) && i <= |frame|
    decreases |frame| - i
  {
    if i == |frame| then st
    else
      var next := BookCoin(st, frame[i].crypto.name, frame[i], limit, fetch, 0);
      BookRows(Books(next.data, next.errors, next.sleeps + [CoinPause]), frame, limit, fetch, i + 1)
  }

  /** The whole order-book run: the count it returns, the cache and the
      pauses. The aggregate is written even when empty. */
  function Orderbook(frame: seq<LoadedRow>, limit: int, fetch: (string, string, Option<int>) -> Option<Json>, cache: map<string, Json>): (r: (int, map<string, Json>, seq<int>))
    requires WellFormed(frame)
    ensures OrderBookData in r.1
  {
    var st := BookRows(Books(map[], {}, []), Limited(frame), limit, fetch, 0);
    (|st.errors|, cache[OrderBookData := JObj(st.data)], st.sleeps)
  }

  /** Only the first `Coins_Limit` coins are visited: every book kept and
      every failure belongs to one of them, and each coin pauses at least
      once. */
  lemma {:induction false} BookRowsVisited(st: Books, frame: seq<LoadedRow>, limit: int, fetch: (string, string, Option<int>) -> Option<Json>, i: nat)
    requires WellFormed(frame) && i <= |frame|
    ensures var res := BookRows(st, frame, limit, fetch, i);
      && (forall c :: c in res.data && c !in st.data ==> NamedIn(frame[i..], c))
      && (forall c :: c in res.errors && c !in st.errors ==> NamedIn(frame[i..], c))
      && |res.sleeps| >= |st.sleeps| + |frame| - i
    decreases |frame| - i
  {
    if i < |frame| {
      var coin := frame[i].crypto.name;
      var next := BookCoin(st, coin, frame[i], limit, fetch, 0);
      BookCoinSpec(st, coin, frame[i], limit, fetch, 0);
      var paused := Books(next.data, next.errors, next.sleeps + [CoinPause]);
      BookRowsVisited(paused, frame, limit, fetch, i + 1);
      var res := BookRows(st, frame, limit, fetch, i);
      assert frame[i..][0] == frame[i];
      forall c | c in res.data && c !in st.data ensures NamedIn(frame[i..], c) {
        if c != coin {
          BookCoinKeys(st, coin, frame[i], limit, fetch, 0, c);
          var j :| 0 <= j < |frame[i + 1..]| && frame[i + 1..][j].crypto.name == c;
          assert frame[i..][j + 1] == frame[i + 1..][j];
        }
      }
      forall c | c in res.errors && c !in st.errors ensures NamedIn(frame[i..], c) {
        if c != coin {
          var j :| 0 <= j < |frame[i + 1..]| && frame[i + 1..][j].crypto.name == c;
          assert frame[i..][j + 1] == frame[i + 1..][j];
        }
      }
    }
  }

  lemma {:induction false} BookCoinKeys(st: Books, coin: string, row: LoadedRow, limit: int, fetch: (string, string, Option<int>) -> Option<Json>, e: nat, c: string)
    requires e <= |Exchanges| && |row.pairs| == |Exchanges| && c != coin
    ensures c in BookCoin(st, coin, row, limit, fetch, e).data <==> c in st.data
    decreases |Exchanges| - e
  {
    if e < |Exchanges| {
      var b := BookAt(row, limit, fetch, e);
      if b == Some(None) {
        BookCoinKeys(Books(st.data, st.errors + {coin}, st.sleeps + [FailurePause]), coin, row, limit, fetch, e + 1, c);
      } else if !GotBook(b) {
        BookCoinKeys(st, coin, row, limit, fetch, e + 1, c);
      }
    }
  }

  // ---------------------------------------------------------------------
  // OHLCV bars (`get_all_coins_ohlcv_data`, `_save_ohlcv_to_database`)

  /** What one fetched bar becomes in the records loop (lines 340-352). */
  datatype BarOutcome = Skip | Keep(row: PriceRow) | Fail

  predicate AllNumbers(items: seq<Json>) {
    forall j :: 0 <= j < |items| ==> items[j].JNum?
  }

  /** A list of at least six fields becomes a price row (timestamp, open,
      high, low, close, volume) and a shorter value is skipped; `len` of a
      number, boolean or null raises, and so does a long value whose first
      six fields are not numbers. */
  function BarOutcomeOf(cryptoId: int, bar: Json): BarOutcome {
    match bar
    case JArr(items) =>
      if |items| < 6 then Skip
      else if AllNumbers(items[..6]) then
        Keep(PriceRow(cryptoId, items[0].n, items[1].n, items[2].n, items[3].n, items[4].n, items[5].n, None))
      else Fail
    case JObj(fields) => if |fields| < 6 then Skip else Fail
    case JStr(s) => if |s| < 6 then Skip else Fail
    case _ => Fail
  }

  /** The records built from a bar list, in order; None when one raises. */
  function BarRows(cryptoId: int, bars: seq<Json>): (r: Option<seq<PriceRow>>)
    ensures r.Some? ==> forall x :: x in r.value ==> x.cryptoId == cryptoId
  {
    if bars == [] then Some([])
    else match BarRows(cryptoId, bars[..|bars| - 1])
      case None => None
      case Some(rows) =>
        match BarOutcomeOf(cryptoId, bars[|bars| - 1])
        case Skip => Some(rows)
        case Keep(row) => Some(rows + [row])
        case Fail => None
  }

  /** `_save_ohlcv_to_database` on the price tables: nothing for a timeframe
      without a table; otherwise the crypto's rows in that table replaced by
      the records, unless building one raises (the atomic block then rolls
      the delete back). Records sharing a timestamp are all stored: the price
      tables carry no unique constraint. */
  function OhlcvSaved(prices: map<PriceTable, seq<PriceRow>>, cryptoId: int, bars: seq<Json>, tf: string)
    : (r: Result<map<PriceTable, seq<PriceRow>>, DbError>)
    ensures r.Err? <==> TableFor(tf).Some? && BarRows(cryptoId, bars).None?
    ensures r.Err? ==> r.error == InvalidValue
  {
    match TableFor(tf)
    case None => Ok(prices)
    case Some(t) =>
      match BarRows(cryptoId, bars)
      case None => Err(InvalidValue)
      case Some(rows) =>
        Ok(prices[t := WithoutCrypto(Rows(prices, t), cryptoId) + rows])
  }

  /** After a successful save the crypto's rows in the timeframe's table are
      exactly the records, in order; other cryptos' rows and the other
      tables are unchanged; `1w` changes nothing. */
  lemma OhlcvSavedSpec(prices: map<PriceTable, seq<PriceRow>>, cryptoId: int, bars: seq<Json>, tf: string, other: int, u: PriceTable)
    requires OhlcvSaved(prices, cryptoId, bars, tf).Ok?
    ensures var after := OhlcvSaved(prices, cryptoId, bars, tf).value;
      && (TableFor(tf).None? ==> after == prices)
      && (TableFor(tf).Some? ==>
            && OfCrypto(Rows(after, TableFor(tf).value), cryptoId) == BarRows(cryptoId, bars).value
            && (other != cryptoId ==> OfCrypto(Rows(after, TableFor(tf).value), other) == OfCrypto(Rows(prices, TableFor(tf).value), other))
            && (u != TableFor(tf).value ==> Rows(after, u) == Rows(prices, u)))
  {
    if TableFor(tf).Some? {
      var t := TableFor(tf).value;
      var rows := BarRows(cryptoId, bars).value;
      ReplaceRowsReadBack(Rows(prices, t), cryptoId, rows);
      if other != cryptoId {
        ReplaceRowsKeepsOthers(Rows(prices, t), cryptoId, rows, other);
      }
    }
  }

  /** Two bars at one timestamp are both stored, in order. */
  lemma OhlcvSavedKeepsRepeatedTimestamp(prices: map<PriceTable, seq<PriceRow>>, cryptoId: int)
    ensures var bars := [JArr([JNum(1000), JNum(1), JNum(1), JNum(1), JNum(1), JNum(1)]),
                         JArr([JNum(1000), JNum(2), JNum(2), JNum(2), JNum(2), JNum(2)])];
      var saved := OhlcvSaved(prices, cryptoId, bars, "1h");
      && saved.Ok?
      && OfCrypto(Rows(saved.value, OneHourPrice), cryptoId) ==
           [PriceRow(cryptoId, 1000, 1, 1, 1, 1, 1, None), PriceRow(cryptoId, 1000, 2, 2, 2, 2, 2, None)]
  {
    var bars := [JArr([JNum(1000), JNum(1), JNum(1), JNum(1), JNum(1), JNum(1)]),
                 JArr([JNum(1000), JNum(2), JNum(2), JNum(2), JNum(2), JNum(2)])];
    var rows := [PriceRow(cryptoId, 1000, 1, 1, 1, 1, 1, None), PriceRow(cryptoId, 1000, 2, 2, 2, 2, 2, None)];
    assert bars[0].items[..6] == bars[0].items && bars[1].items[..6] == bars[1].items;
    assert BarOutcomeOf(cryptoId, bars[0]) == Keep(rows[0]);
    assert BarOutcomeOf(cryptoId, bars[1]) == Keep(rows[1]);
    var first := [bars[0]];
    assert first[..|first| - 1] == [] && first[|first| - 1] == bars[0];
    assert BarRows(cryptoId, []) == Some([]);
    assert [] + [rows[0]] == [rows[0]];
    assert BarRows(cryptoId, first) == Some([rows[0]]);
    assert bars[..|bars| - 1] == first;
    assert BarRows(cryptoId, bars) == Some([rows[0]] + [rows[1]]);
    assert [rows[0]] + [rows[1]] == rows;
    OhlcvSavedSpec(prices, cryptoId, bars, "1h", cryptoId, OneHourPrice);
  }

  /** What the OHLCV loop accumulates: bars per coin, failed
      `<exchange>_<coin>` attempts, the cache, the price tables and the
      pauses between coins. */
  datatype Sweep = Sweep(data: map<string, Json>, errors: set<string>, cache: map<string, Json>,
                         prices: map<PriceTable, seq<PriceRow>>, sleeps: seq<int>)

  function BarsKey(coin: string, tf: string): string {
    coin + "_" + tf
  }

  function ErrorKey(exchange: string, coin: string): string {
    exchange + "_" + coin
  }

  /** `redis_handler.get(key)` is truthy. */
  predicate Cached(cache: map<string, Json>, key: string) {
    key in cache && Truthy(cache[key])
  }

  /** One coin over exchanges `e..`: a truthy bar list is kept, cached and
      saved, and the entry just cached ends the coin; a raising fetch or save
      marks `<exchange>_<coin>` and moves on; after an attempt that fetched
      nothing usable, a truthy cache entry for the coin left from an earlier
      run ends the coin. */
  function OhlcvCoin(st: Sweep, coin: string, cryptoId: int, row: LoadedRow, tf: string, limit: int,
                     fetch: (string, string, int, string) -> Option<Json>, e: nat): Sweep
    requires e <= |Exchanges| && |row.pairs| == |Exchanges|
    decreases |Exchanges| - e
  {
    if e == |Exchanges| then st
    else match row.pairs[e]
      case None => OhlcvCoin(st, coin, cryptoId, row, tf, limit, fetch, e + 1)
      case Some(symbol) =>
        match fetch(symbol, tf, limit, Exchanges[e])
        case None =>
          OhlcvCoin(st.(errors := st.errors + {ErrorKey(Exchanges[e], coin)}), coin, cryptoId, row, tf, limit, fetch, e + 1)
        case Some(v) =>
          if Truthy(v) && v.JArr? then
            var kept := st.(data := st.data[coin := v], cache := st.cache[BarsKey(coin, tf) := v]);
            match OhlcvSaved(kept.prices, cryptoId, v.items, tf)
            case Err(_) =>
              OhlcvCoin(kept.(errors := kept.errors + {ErrorKey(Exchanges[e], coin)}), coin, cryptoId, row, tf, limit, fetch, e + 1)
            case Ok(p) => kept.(prices := p)
          else if Cached(st.cache, BarsKey(coin, tf)) then st
          else OhlcvCoin(st, coin, cryptoId, row, tf, limit, fetch, e + 1)
  }

  /** The `e`-th exchange lists the coin and returns a truthy bar list. */
  predicate FetchedBars(row: LoadedRow, e: nat, tf: string, limit: int, fetch: (string, string, int, string) -> Option<Json>)
    requires e < |row.pairs| && e < |Exchanges|
  {
    && row.pairs[e].Some?
    && var v := fetch(row.pairs[e].value, tf, limit, Exchanges[e]);
    v.Some? && Truthy(v.value) && v.value.JArr?
  }

  /** A stale truthy cache entry ends the coin at the first attempt that
      does not raise, even when that attempt fetched nothing usable. */
  lemma StaleEntryStopsCoin(st: Sweep, coin: string, cryptoId: int, row: LoadedRow, tf: string, limit: int,
                            fetch: (string, string, int, string) -> Option<Json>, e: nat)
    requires e < |Exchanges| && |row.pairs| == |Exchanges|
    requires row.pairs[e].Some? && Cached(st.cache, BarsKey(coin, tf))
    requires fetch(row.pairs[e].value, tf, limit, Exchanges[e]).Some?
    requires !Truthy(fetch(row.pairs[e].value, tf, limit, Exchanges[e]).value) || !fetch(row.pairs[e].value, tf, limit, Exchanges[e]).value.JArr?
    ensures OhlcvCoin(st, coin, cryptoId, row, tf, limit, fetch, e) == st
  {
  }

  /** Every failure recorded for a coin names one of the exchanges and the
      coin; bars are kept only under the coin. */
  lemma OhlcvCoinRecords(st: Sweep, coin: string, cryptoId: int, row: LoadedRow, tf: string, limit: int,
                         fetch: (string, string, int, string) -> Option<Json>, e: nat)
    requires e <= |Exchanges| && |row.pairs| == |Exchanges|
    ensures var res := OhlcvCoin(st, coin, cryptoId, row, tf, limit, fetch, e);
      && (forall x :: x in res.errors && x !in st.errors ==> exists k :: e <= k < |Exchanges| && x == ErrorKey(Exchanges[k], coin))
      && (forall c :: c in res.data && c != coin ==> c in st.data && res.data[c] == st.data[c])
  {
    OhlcvCoinErrors(st, coin, cryptoId, row, tf, limit, fetch, e);
    OhlcvCoinData(st, coin, cryptoId, row, tf, limit, fetch, e);
  }

  lemma {:induction false} OhlcvCoinErrors(st: Sweep, coin: string, cryptoId: int, row: LoadedRow, tf: string, limit: int,
                                           fetch: (string, string, int, string) -> Option<Json>, e: nat)
    requires e <= |Exchanges| && |row.pairs| == |Exchanges|
    ensures var res := OhlcvCoin(st, coin, cryptoId, row, tf, limit, fetch, e);
      forall x :: x in res.errors && x !in st.errors ==> exists k :: e <= k < |Exchanges| && x == ErrorKey(Exchanges[k], coin)
    decreases |Exchanges| - e
  {
    if e < |Exchanges| {
      var next := OhlcvCoin(st, coin, cryptoId, row, tf, limit, fetch, e);
      if row.pairs[e].None? {
        OhlcvCoinErrors(st, coin, cryptoId, row, tf, limit, fetch, e + 1);
      } else {
        var v := fetch(row.pairs[e].value, tf, limit, Exchanges[e]);
        if v.None? {
          var failed := st.(errors := st.errors + {ErrorKey(Exchanges[e], coin)});
          OhlcvCoinErrors(failed, coin, cryptoId, row, tf, limit, fetch, e + 1);
          forall x | x in next.errors && x !in st.errors
            ensures exists k :: e <= k < |Exchanges| && x == ErrorKey(Exchanges[k], coin)
          {
            if x in failed.errors {
              assert x == ErrorKey(Exchanges[e], coin);
            }
          }
        } else if Truthy(v.value) && v.value.JArr? {
          var kept := st.(data := st.data[coin := v.value], cache := st.cache[BarsKey(coin, tf) := v.value]);
          if OhlcvSaved(kept.prices, cryptoId, v.value.items, tf).Err? {
            var failed := kept.(errors := kept.errors + {ErrorKey(Exchanges[e], coin)});
            OhlcvCoinErrors(failed, coin, cryptoId, row, tf, limit, fetch, e + 1);
            forall x | x in next.errors && x !in st.errors
              ensures exists k :: e <= k < |Exchanges| && x == ErrorKey(Exchanges[k], coin)
            {
              if x in failed.errors {
                assert x == ErrorKey(Exchanges[e], coin);
              }
            }
          }
        } else if !Cached(st.cache, BarsKey(coin, tf)) {
          OhlcvCoinErrors(st, coin, cryptoId, row, tf, limit, fetch, e + 1);
        }
      }
    }
  }

  lemma {:induction false} OhlcvCoinData(st: Sweep, coin: string, cryptoId: int, row: LoadedRow, tf: string, limit: int,
                                         fetch: (string, string, int, string) -> Option<Json>, e: nat)
    requires e <= |Exchanges| && |row.pairs| == |Exchanges|
    ensures var res := OhlcvCoin(st, coin, cryptoId, row, tf, limit, fetch, e);
      forall c :: c in res.data && c != coin ==> c in st.data && res.data[c] == st.data[c]
    decreases |Exchanges| - e
  {
    if e < |Exchanges| {
      if row.pairs[e].None? {
        OhlcvCoinData(st, coin, cryptoId, row, tf, limit, fetch, e + 1);
      } else {
        var v := fetch(row.pairs[e].value, tf, limit, Exchanges[e]);
        if v.None? {
          OhlcvCoinData(st.(errors := st.errors + {ErrorKey(Exchanges[e], coin)}), coin, cryptoId, row, tf, limit, fetch, e + 1);
        } else if Truthy(v.value) && v.value.JArr? {
          var kept := st.(data := st.data[coin := v.value], cache := st.cache[BarsKey(coin, tf) := v.value]);
          if OhlcvSaved(kept.prices, cryptoId, v.value.items, tf).Err? {
            OhlcvCoinData(kept.(errors := kept.errors + {ErrorKey(Exchanges[e], coin)}), coin, cryptoId, row, tf, limit, fetch, e + 1);
          }
        } else if !Cached(st.cache, BarsKey(coin, tf)) {
          OhlcvCoinData(st, coin, cryptoId, row, tf, limit, fetch, e + 1);
        }
      }
    }
  }

  /** The cryptos whose `name` is `coin`, in table order. */
  function NamedCryptos(cryptos: seq<Crypto>, coin: string): (r: seq<Crypto>)
    ensures forall c :: c in r <==> c in cryptos && c.name == coin
  {
    if cryptos == [] then []
    else if cryptos[|cryptos| - 1].name == coin then NamedCryptos(cryptos[..|cryptos| - 1], coin) + [cryptos[|cryptos| - 1]]
    else NamedCryptos(cryptos[..|cryptos| - 1], coin)
  }

  /** `Crypto.objects.get(name=coin)`: the one crypto of that name; zero or
      several raise. */
  function CryptoNamed(cryptos: seq<Crypto>, coin: string): (r: Result<Crypto, DbError>)
    ensures r.Ok? <==> |NamedCryptos(cryptos, coin)| == 1
    ensures r.Ok? ==> r.value in cryptos && r.value.name == coin
  {
    var named := NamedCryptos(cryptos, coin);
    if |named| == 0 then Err(DoesNotExist)
    else if |named| > 1 then Err(MultipleObjectsReturned)
    else
      assert named[0] in named;
      Ok(named[0])
  }

  /** The rows `i..` as written: each coin's crypto is looked up by short
      name outside the per-exchange try, so a lookup that raises abandons
      the rest of the batch (the flag); what was cached and saved before
      stays. Each coin whose exchanges were tried is followed by a 100 ms
      pause. */
  function OhlcvRows(st: Sweep, frame: seq<LoadedRow>, cryptos: seq<Crypto>, tf: string, limit: int,
                     fetch: (string, string, int, string) -> Option<Json>, i: nat): (Sweep, bool)
    requires WellFormed(frame) && i <= |frame|
    decreases |frame| - i
  {
    if i == |frame| then (st, false)
    else match CryptoNamed(cryptos, frame[i].crypto.name)
      case Err(_) => (st, true)
      case Ok(c) =>
        var next := OhlcvCoin(st, frame[i].crypto.name, c.cmcId, frame[i], tf, limit, fetch, 0);
        OhlcvRows(next.(sleeps := next.sleeps + [CoinPause]), frame, cryptos, tf, limit, fetch, i + 1)
  }

  /** `get_all_coins_ohlcv_data` as written: the bars and failures it
      returns (nothing when the batch was abandoned), and the cache and price
      tables it leaves. */
  function OhlcvBatch(frame: seq<LoadedRow>, cryptos: seq<Crypto>, tf: string, limit: int,
                      fetch: (string, string, int, string) -> Option<Json>,
                      cache: map<string, Json>, prices: map<PriceTable, seq<PriceRow>>): Sweep
    requires WellFormed(frame)
  {
    var (st, abandoned) := OhlcvRows(Sweep(map[], {}, cache, prices, []), Limited(frame), cryptos, tf, limit, fetch, 0);
    if abandoned then st.(data := map[], errors := {}) else st
  }

  /** Two registry coins sharing a short symbol: as written, the batch is
      abandoned at the first of them and returns no bars, whatever the
      exchanges returned. */
  lemma SharedSymbolAbandonsBatch(frame: seq<LoadedRow>, cryptos: seq<Crypto>, tf: string, limit: int,
                                  fetch: (string, string, int, string) -> Option<Json>,
                                  cache: map<string, Json>, prices: map<PriceTable, seq<PriceRow>>)
    requires WellFormed(frame) && 0 < |frame| <= CoinsLimit
    requires |NamedCryptos(cryptos, frame[0].crypto.name)| > 1
    ensures OhlcvBatch(frame, cryptos, tf, limit, fetch, cache, prices).data == map[]
    ensures OhlcvBatch(frame, cryptos, tf, limit, fetch, cache, prices).errors == {}
  {
  }

  /** A coin's exchange loop pauses nowhere: only the loop over coins sleeps. */
  lemma {:induction false} OhlcvCoinSleeps(st: Sweep, coin: string, cryptoId: int, row: LoadedRow, tf: string, limit: int,
                                           fetch: (string, string, int, string) -> Option<Json>, e: nat)
    requires e <= |Exchanges| && |row.pairs| == |Exchanges|
    ensures OhlcvCoin(st, coin, cryptoId, row, tf, limit, fetch, e).sleeps == st.sleeps
    decreases |Exchanges| - e
  {
    if e < |Exchanges| {
      if row.pairs[e].None? {
        OhlcvCoinSleeps(st, coin, cryptoId, row, tf, limit, fetch, e + 1);
      } else {
        var v := fetch(row.pairs[e].value, tf, limit, Exchanges[e]);
        if v.None? {
          OhlcvCoinSleeps(st.(errors := st.errors + {ErrorKey(Exchanges[e], coin)}), coin, cryptoId, row, tf, limit, fetch, e + 1);
        } else if Truthy(v.value) && v.value.JArr? {
          var kept := st.(data := st.data[coin := v.value], cache := st.cache[BarsKey(coin, tf) := v.value]);
          if OhlcvSaved(kept.prices, cryptoId, v.value.items, tf).Err? {
            OhlcvCoinSleeps(kept.(errors := kept.errors + {ErrorKey(Exchanges[e], coin)}), coin, cryptoId, row, tf, limit, fetch, e + 1);
          }
        } else if !Cached(st.cache, BarsKey(coin, tf)) {
          OhlcvCoinSleeps(st, coin, cryptoId, row, tf, limit, fetch, e + 1);
        }
      }
    }
  }

  /** From row `i` on, the loop adds one 100 ms pause per coin it visits and
      no other; it visits every row, and is not abandoned, when each row's
      short symbol names exactly one crypto. */
  lemma {:induction false} OhlcvRowsPauses(st: Sweep, frame: seq<LoadedRow>, cryptos: seq<Crypto>, tf: string, limit: int,
                                           fetch: (string, string, int, string) -> Option<Json>, i: nat)
    requires WellFormed(frame) && i <= |frame|
    ensures var (res, abandoned) := OhlcvRows(st, frame, cryptos, tf, limit, fetch, i);
      && |st.sleeps| <= |res.sleeps| <= |st.sleeps| + |frame| - i
      && res.sleeps[..|st.sleeps|] == st.sleeps
      && (forall j :: |st.sleeps| <= j < |res.sleeps| ==> res.sleeps[j] == CoinPause)
      && ((forall k :: i <= k < |frame| ==> CryptoNamed(cryptos, frame[k].crypto.name).Ok?) ==>
            !abandoned && |res.sleeps| == |st.sleeps| + |frame| - i)
    decreases |frame| - i
  {
    if i < |frame| {
      match CryptoNamed(cryptos, frame[i].crypto.name)
      case Err(_) =>
      case Ok(c) =>
        var next := OhlcvCoin(st, frame[i].crypto.name, c.cmcId, frame[i], tf, limit, fetch, 0);
        OhlcvCoinSleeps(st, frame[i].crypto.name, c.cmcId, frame[i], tf, limit, fetch, 0);
        var paused := next.(sleeps := next.sleeps + [CoinPause]);
        OhlcvRowsPauses(paused, frame, cryptos, tf, limit, fetch, i + 1);
        var res := OhlcvRows(paused, frame, cryptos, tf, limit, fetch, i + 1).0;
        assert res.sleeps[..|paused.sleeps|] == paused.sleeps;
        assert res.sleeps[..|st.sleeps|] == res.sleeps[..|paused.sleeps|][..|st.sleeps|];
    }
  }

  /** The batch pauses 100 ms after each coin it visits, at most the first
      `Coins_Limit`, and after all of them when every short symbol names
      exactly one crypto. */
  lemma OhlcvBatchPauses(frame: seq<LoadedRow>, cryptos: seq<Crypto>, tf: string, limit: int,
                         fetch: (string, string, int, string) -> Option<Json>,
                         cache: map<string, Json>, prices: map<PriceTable, seq<PriceRow>>)
    requires WellFormed(frame)
    ensures var res := OhlcvBatch(frame, cryptos, tf, limit, fetch, cache, prices);
      && |res.sleeps| <= |Limited(frame)|
      && (forall j :: 0 <= j < |res.sleeps| ==> res.sleeps[j] == CoinPause)
      && ((forall k :: 0 <= k < |Limited(frame)| ==> CryptoNamed(cryptos, Limited(frame)[k].crypto.name).Ok?) ==>
            |res.sleeps| == |Limited(frame)|)
  {
    OhlcvRowsPauses(Sweep(map[], {}, cache, prices, []), Limited(frame), cryptos, tf, limit, fetch, 0);
  }

  /** The rows `i..` with each coin's crypto taken from its own row (its
      primary key), so no lookup can fail. */
  function OhlcvRowsById(st: Sweep, frame: seq<LoadedRow>, tf: string, limit: int,
                         fetch: (string, string, int, string) -> Option<Json>, i: nat): Sweep
    requires WellFormed(frame) && i <= |frame|
    decreases |frame| - i
  {
    if i == |frame| then st
    else
      var next := OhlcvCoin(st, frame[i].crypto.name, frame[i].crypto.cmcId, frame[i], tf, limit, fetch, 0);
      OhlcvRowsById(next.(sleeps := next.sleeps + [CoinPause]), frame, tf, limit, fetch, i + 1)
  }

  /** Looking coins up by their own row, every coin of the first
      `Coins_Limit` is visited: a coin whose first exchange returns a
      truthy bar list keeps an entry for it, whatever other coins share
      its symbol. */
  lemma {:induction false} ByIdVisitsEveryCoin(st: Sweep, frame: seq<LoadedRow>, tf: string, limit: int,
                                               fetch: (string, string, int, string) -> Option<Json>, i: nat)
    requires WellFormed(frame) && i <= |frame|
    ensures forall c :: c in st.data ==> c in OhlcvRowsById(st, frame, tf, limit, fetch, i).data
    ensures forall k :: i <= k < |frame| ==>
      (FetchedBars(frame[k], 0, tf, limit, fetch) ==> frame[k].crypto.name in OhlcvRowsById(st, frame, tf, limit, fetch, i).data)
    decreases |frame| - i
  {
    if i < |frame| {
      var coin := frame[i].crypto.name;
      var next := OhlcvCoin(st, coin, frame[i].crypto.cmcId, frame[i], tf, limit, fetch, 0);
      OhlcvCoinKeeps(st, coin, frame[i].crypto.cmcId, frame[i], tf, limit, fetch, 0);
      ByIdVisitsEveryCoin(next.(sleeps := next.sleeps + [CoinPause]), frame, tf, limit, fetch, i + 1);
    }
  }

  /** A coin's sweep keeps earlier coins' entries and, when its first
      exchange returns a truthy bar list, keeps an entry for the coin. */
  lemma {:induction false} OhlcvCoinKeeps(st: Sweep, coin: string, cryptoId: int, row: LoadedRow, tf: string, limit: int,
                                          fetch: (string, string, int, string) -> Option<Json>, e: nat)
    requires e <= |Exchanges| && |row.pairs| == |Exchanges|
    ensures var res := OhlcvCoin(st, coin, cryptoId, row, tf, limit, fetch, e);
      && (forall c :: c in st.data ==> c in res.data)
      && (coin in st.data ==> coin in res.data)
      && (e < |Exchanges| && FetchedBars(row, e, tf, limit, fetch) ==> coin in res.data)
    decreases |Exchanges| - e
  {
    if e < |Exchanges| {
      if row.pairs[e].None? {
        OhlcvCoinKeeps(st, coin, cryptoId, row, tf, limit, fetch, e + 1);
      } else {
        var v := fetch(row.pairs[e].value, tf, limit, Exchanges[e]);
        if v.None? {
          OhlcvCoinKeeps(st.(errors := st.errors + {ErrorKey(Exchanges[e], coin)}), coin, cryptoId, row, tf, limit, fetch, e + 1);
        } else if Truthy(v.value) && v.value.JArr? {
          var kept := st.(data := st.data[coin := v.value], cache := st.cache[BarsKey(coin, tf) := v.value]);
          match OhlcvSaved(kept.prices, cryptoId, v.value.items, tf)
          case Err(_) =>
            OhlcvCoinKeeps(kept.(errors := kept.errors + {ErrorKey(Exchanges[e], coin)}), coin, cryptoId, row, tf, limit, fetch, e + 1);
          case Ok(p) =>
        } else if !Cached(st.cache, BarsKey(coin, tf)) {
          OhlcvCoinKeeps(st, coin, cryptoId, row, tf, limit, fetch, e + 1);
        }
      }
    }
  }

  /** A coin's sweep caches the bars it keeps under `<coin>_<timeframe>`. */
  lemma {:induction false} OhlcvCoinCachesBars(st: Sweep, coin: string, cryptoId: int, row: LoadedRow, tf: string, limit: int,
                                               fetch: (string, string, int, string) -> Option<Json>, e: nat)
    requires e <= |Exchanges| && |row.pairs| == |Exchanges|
    requires coin in st.data ==> BarsKey(coin, tf) in st.cache && st.cache[BarsKey(coin, tf)] == st.data[coin]
    ensures var res := OhlcvCoin(st, coin, cryptoId, row, tf, limit, fetch, e);
      coin in res.data ==> BarsKey(coin, tf) in res.cache && res.cache[BarsKey(coin, tf)] == res.data[coin]
    decreases |Exchanges| - e
  {
    if e < |Exchanges| {
      if row.pairs[e].None? {
        OhlcvCoinCachesBars(st, coin, cryptoId, row, tf, limit, fetch, e + 1);
      } else {
        var v := fetch(row.pairs[e].value, tf, limit, Exchanges[e]);
        if v.None? {
          OhlcvCoinCachesBars(st.(errors := st.errors + {ErrorKey(Exchanges[e], coin)}), coin, cryptoId, row, tf, limit, fetch, e + 1);
        } else if Truthy(v.value) && v.value.JArr? {
          var kept := st.(data := st.data[coin := v.value], cache := st.cache[BarsKey(coin, tf) := v.value]);
          match OhlcvSaved(kept.prices, cryptoId, v.value.items, tf)
          case Err(_) =>
            OhlcvCoinCachesBars(kept.(errors := kept.errors + {ErrorKey(Exchanges[e], coin)}), coin, cryptoId, row, tf, limit, fetch, e + 1);
          case Ok(p) =>
        } else if !Cached(st.cache, BarsKey(coin, tf)) {
          OhlcvCoinCachesBars(st, coin, cryptoId, row, tf, limit, fetch, e + 1);
        }
      }
    }
  }

  // ---------------------------------------------------------------------
  // Reading cached bars back (`get_coins_ohlcv_data`, lines 376-392)

  /** `f"{coin}"`: a string as it is, any other value as Python's `str`
      formats it, which `render` stands for. */
  function Formatted(v: Json, render: Json -> string): string {
    if v.JStr? then v.s else render(v)
  }

  /** The names iterating a cached coin list yields: a list's items, a
      dict's keys, a string's characters; None where iterating raises (a
      number or a boolean). */
  function IteratedNames(v: Json, render: Json -> string): Option<set<string>> {
    match v
    case JArr(items) => Some(set j | 0 <= j < |items| :: Formatted(items[j], render))
    case JObj(fields) => Some(fields.Keys)
    case JStr(s) => Some(set j | 0 <= j < |s| :: [s[j]])
    case _ => None
  }

  /** The key a crawler's coin list is read from. */
  function CoinsListKey(c: Crawler): string {
    RedisKey(c) + "_coins"
  }

  /** The coins whose bars are read: the given ones, else those of the
      crawler's cached coin list. A falsy entry, and one whose iteration
      raises (the handler then returns {}), give none. */
  function RequestedCoins(cache: map<string, Json>, crawler: Crawler, coins: Option<seq<string>>, render: Json -> string): set<string> {
    if coins.Some? then set c | c in coins.value
    else if !Cached(cache, CoinsListKey(crawler)) then {}
    else IteratedNames(cache[CoinsListKey(crawler)], render).GetOr({})
  }

  /** The cached `<coin>_<timeframe>` entries of the named coins, as stored. */
  function CachedBars(cache: map<string, Json>, names: set<string>, tf: string): map<string, Json> {
    map k | k in cache && (exists c :: c in names && k == BarsKey(c, tf)) :: cache[k]
  }

  /** `get_coins_ohlcv_data`: the timeframe defaults to the crawler's; the
      result holds only cached entries, unchanged, and an empty coin list
      reads nothing. */
  function CoinsOhlcv(cache: map<string, Json>, crawler: Crawler, coins: Option<seq<string>>, tf: Option<string>,
                      render: Json -> string): (r: map<string, Json>)
    ensures forall k :: k in r ==> k in cache && r[k] == cache[k]
    ensures coins == Some([]) ==> r == map[]
  {
    CachedBars(cache, RequestedCoins(cache, crawler, coins, render), tf.GetOr(TimeframeOf(crawler)))
  }

  /** Reading one more coin adds its cached entry, if there is one. */
  lemma CachedBarsStep(cache: map<string, Json>, names: set<string>, c: string, tf: string)
    ensures var k := BarsKey(c, tf);
      CachedBars(cache, names + {c}, tf) ==
        if k in cache then CachedBars(cache, names, tf)[k := cache[k]] else CachedBars(cache, names, tf)
  {
    var k := BarsKey(c, tf);
    var lhs := CachedBars(cache, names + {c}, tf);
    var rhs := if k in cache then CachedBars(cache, names, tf)[k := cache[k]] else CachedBars(cache, names, tf);
    assert lhs.Keys == rhs.Keys;
  }

  /** Reading a single coin back gives exactly its cached entry. */
  lemma BarsReadBack(cache: map<string, Json>, crawler: Crawler, coin: string, tf: string, render: Json -> string)
    requires BarsKey(coin, tf) in cache
    ensures CoinsOhlcv(cache, crawler, Some([coin]), Some(tf), render) == map[BarsKey(coin, tf) := cache[BarsKey(coin, tf)]]
  {
    var r := CoinsOhlcv(cache, crawler, Some([coin]), Some(tf), render);
    assert RequestedCoins(cache, crawler, Some([coin]), render) == {coin};
    forall k | k in r
      ensures k == BarsKey(coin, tf)
    {
      var c :| c in {coin} && k == BarsKey(c, tf);
    }
    assert BarsKey(coin, tf) in r;
  }

  /** What a coin's OHLCV sweep keeps, reading that coin back returns: its
      bars, under `<coin>_<timeframe>`, and nothing else. */
  lemma SweptBarsReadBack(st: Sweep, coin: string, cryptoId: int, row: LoadedRow, tf: string, limit: int,
                          fetch: (string, string, int, string) -> Option<Json>, crawler: Crawler, render: Json -> string)
    requires |row.pairs| == |Exchanges| && coin !in st.data
    ensures var res := OhlcvCoin(st, coin, cryptoId, row, tf, limit, fetch, 0);
      coin in res.data ==> CoinsOhlcv(res.cache, crawler, Some([coin]), Some(tf), render) == map[BarsKey(coin, tf) := res.data[coin]]
  {
    OhlcvCoinCachesBars(st, coin, cryptoId, row, tf, limit, fetch, 0);
    var res := OhlcvCoin(st, coin, cryptoId, row, tf, limit, fetch, 0);
    if coin in res.data {
      BarsReadBack(res.cache, crawler, coin, tf, render);
    }
  }
}
