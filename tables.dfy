/** The relational tables of the exchange web service
    (exchange_webservice/models.py), as the crawler and the services see them:
    one sequence of rows per table, in storage order. Timestamps and the
    `created_at`/`updated_at` columns are not modelled; decimal prices and
    supplies are integers (fixed point, 8 decimal places). */
module Tables {
  import opened Wrappers
  import opened Json

  /** A `Crypto` row. `cmcId` is the primary key; `name` holds the short
      symbol and `fullName` the coin's name. */
  datatype Crypto = Crypto(cmcId: int, name: string, fullName: string, isMain: bool)

  /** An `ExchangeSymbol` row; (cryptoId, exchange) is unique. */
  datatype ExchangeSymbol = ExchangeSymbol(cryptoId: int, exchange: string, symbol: string, isActive: bool)

  /** A `CMCMarketData` row, one-to-one with its crypto. */
  datatype MarketData = MarketData(
    cryptoId: int,
    cmcRank: int,
    maxSupply: Option<int>,
    circulatingSupply: Option<int>,
    totalSupply: Option<int>,
    infiniteSupply: bool,
    numMarketPairs: int,
    lastUpdated: string)

  /** A `CMCCryptoTag` link; (cryptoId, tag) is unique. */
  datatype CryptoTag = CryptoTag(cryptoId: int, tag: string)

  /** A row of one of the five price tables. The (crypto, timestamp)
      constraint of the abstract `HistoricalPrice` does not reach the five
      concrete tables, whose own `Meta` replaces it, so two rows may share a
      crypto and a timestamp. */
  datatype PriceRow = PriceRow(
    cryptoId: int,
    timestamp: int,
    open: int,
    high: int,
    low: int,
    close: int,
    volume: int,
    indicators: Option<Json>)

  datatype PriceTable = FiveMinutePrice | FifteenMinutePrice | OneHourPrice | FourHourPrice | DailyPrice

  /** An exception out of the ORM or the services. */
  datatype DbError =
    | DoesNotExist             // `get` matched no row
    | MultipleObjectsReturned  // `get` matched more than one row
    | IntegrityError           // a NOT NULL or unique constraint failed
    | InvalidTimeframe         // the services' ValueError
    | MissingKey(key: string)  // KeyError on a price record
    | InvalidValue             // a value the column cannot store
    | NegativeIndexing         // a queryset sliced with a negative bound
    | DivisionByZero           // a Decimal division by zero

  /** The `timeframe_model_map` shared by the OHLCV save, the services and the
      selectors: five timeframes, one table each; `1w` has none. */
  function TableFor(tf: string): Option<PriceTable>
  {
    if tf == "5m" then Some(FiveMinutePrice)
    else if tf == "15m" then Some(FifteenMinutePrice)
    else if tf == "1h" then Some(OneHourPrice)
    else if tf == "4h" then Some(FourHourPrice)
    else if tf == "1d" then Some(DailyPrice)
    else None
  }

  /** Each of the five timeframes selects its own table, and only it. */
  lemma TableForNames(tf: string)
    ensures TableFor(tf) == Some(FiveMinutePrice) <==> tf == "5m"
    ensures TableFor(tf) == Some(FifteenMinutePrice) <==> tf == "15m"
    ensures TableFor(tf) == Some(OneHourPrice) <==> tf == "1h"
    ensures TableFor(tf) == Some(FourHourPrice) <==> tf == "4h"
    ensures TableFor(tf) == Some(DailyPrice) <==> tf == "1d"
  {
  }

  /** The weekly timeframe has no table. */
  lemma WeeklyHasNoTable()
    ensures TableFor("1w") == None
  {
  }

  /** The rows of a price table; a table never written is empty. */
  function Rows(prices: map<PriceTable, seq<PriceRow>>, t: PriceTable): seq<PriceRow> {
    if t in prices then prices[t] else []
  }

  /** `model_class.objects.filter(crypto=crypto).delete()`: the other cryptos'
      rows, in order. */
  function WithoutCrypto(rows: seq<PriceRow>, cryptoId: int): (r: seq<PriceRow>)
    ensures forall x :: x in r <==> x in rows && x.cryptoId != cryptoId
    ensures |r| <= |rows|
  {
    if rows == [] then []
    else if rows[|rows| - 1].cryptoId == cryptoId then WithoutCrypto(rows[..|rows| - 1], cryptoId)
    else WithoutCrypto(rows[..|rows| - 1], cryptoId) + [rows[|rows| - 1]]
  }

  /** The rows of one crypto, in order. */
  function OfCrypto(rows: seq<PriceRow>, cryptoId: int): (r: seq<PriceRow>)
    ensures forall x :: x in r <==> x in rows && x.cryptoId == cryptoId
    ensures |r| <= |rows|
  {
    if rows == [] then []
    else if rows[|rows| - 1].cryptoId == cryptoId then OfCrypto(rows[..|rows| - 1], cryptoId) + [rows[|rows| - 1]]
    else OfCrypto(rows[..|rows| - 1], cryptoId)
  }

  /** Appending a row extends exactly its own crypto's rows. */
  lemma OfCryptoAppend(rows: seq<PriceRow>, x: PriceRow, cryptoId: int)
    ensures OfCrypto(rows + [x], cryptoId) == OfCrypto(rows, cryptoId) + (if x.cryptoId == cryptoId then [x] else [])
  {
    var s := rows + [x];
    assert s[..|s| - 1] == rows;
  }

  /** Replacing one crypto's rows: its old rows go, the new ones are
      appended, and the crypto's rows then read back as exactly the new ones. */
  lemma {:induction false} ReplaceRowsReadBack(rows: seq<PriceRow>, cryptoId: int, newRows: seq<PriceRow>)
    requires forall x :: x in newRows ==> x.cryptoId == cryptoId
    ensures OfCrypto(WithoutCrypto(rows, cryptoId) + newRows, cryptoId) == newRows
  {
    if newRows == [] {
      NoneLeft(rows, cryptoId);
      assert WithoutCrypto(rows, cryptoId) + newRows == WithoutCrypto(rows, cryptoId);
    } else {
      var n := |newRows| - 1;
      assert (WithoutCrypto(rows, cryptoId) + newRows)[..|WithoutCrypto(rows, cryptoId) + newRows| - 1]
        == WithoutCrypto(rows, cryptoId) + newRows[..n];
      ReplaceRowsReadBack(rows, cryptoId, newRows[..n]);
      assert newRows == newRows[..n] + [newRows[n]];
    }
  }

  lemma {:induction false} NoneLeft(rows: seq<PriceRow>, cryptoId: int)
    ensures OfCrypto(WithoutCrypto(rows, cryptoId), cryptoId) == []
  {
    NoneOf(WithoutCrypto(rows, cryptoId), cryptoId);
  }

  lemma {:induction false} NoneOf(rows: seq<PriceRow>, cryptoId: int)
    requires forall x :: x in rows ==> x.cryptoId != cryptoId
    ensures OfCrypto(rows, cryptoId) == []
  {
    if rows != [] {
      NoneOf(rows[..|rows| - 1], cryptoId);
    }
  }

  /** Other cryptos' rows are untouched by a replacement. */
  lemma {:induction false} ReplaceRowsKeepsOthers(rows: seq<PriceRow>, cryptoId: int, newRows: seq<PriceRow>, other: int)
    requires forall x :: x in newRows ==> x.cryptoId == cryptoId
    requires other != cryptoId
    ensures OfCrypto(WithoutCrypto(rows, cryptoId) + newRows, other) == OfCrypto(rows, other)
  {
    if newRows == [] {
      assert WithoutCrypto(rows, cryptoId) + newRows == WithoutCrypto(rows, cryptoId);
      KeepsOthers(rows, cryptoId, other);
    } else {
      var n := |newRows| - 1;
      assert (WithoutCrypto(rows, cryptoId) + newRows)[..|WithoutCrypto(rows, cryptoId) + newRows| - 1]
        == WithoutCrypto(rows, cryptoId) + newRows[..n];
      ReplaceRowsKeepsOthers(rows, cryptoId, newRows[..n], other);
    }
  }

  lemma {:induction false} KeepsOthers(rows: seq<PriceRow>, cryptoId: int, other: int)
    requires other != cryptoId
    ensures OfCrypto(WithoutCrypto(rows, cryptoId), other) == OfCrypto(rows, other)
  {
    if rows != [] {
      var n := |rows| - 1;
      KeepsOthers(rows[..n], cryptoId, other);
      if rows[n].cryptoId != cryptoId {
        assert (WithoutCrypto(rows[..n], cryptoId) + [rows[n]])[..|WithoutCrypto(rows[..n], cryptoId)|]
          == WithoutCrypto(rows[..n], cryptoId);
      }
    }
  }

  /** A table whose rows have pairwise distinct keys (a primary key or a
      unique constraint). */
  predicate UniqueKeys<T, K(==)>(rows: seq<T>, key: T -> K) {
    forall i, j :: 0 <= i < j < |rows| ==> key(rows[i]) != key(rows[j])
  }

  /** A prefix of rows with unique keys has unique keys. */
  lemma UniquePrefix<T, K>(rows: seq<T>, key: T -> K, n: nat)
    requires n <= |rows| && UniqueKeys(rows, key)
    ensures UniqueKeys(rows[..n], key)
  {
    forall i, j | 0 <= i < j < n
      ensures key(rows[..n][i]) != key(rows[..n][j])
    {
      assert rows[..n][i] == rows[i] && rows[..n][j] == rows[j];
    }
  }

  /** Under unique keys, no earlier row shares the last row's key. */
  lemma UniqueLast<T, K>(rows: seq<T>, key: T -> K)
    requires rows != [] && UniqueKeys(rows, key)
    ensures forall x :: x in rows[..|rows| - 1] ==> key(x) != key(rows[|rows| - 1])
  {
    var n := |rows| - 1;
    forall x | x in rows[..n]
      ensures key(x) != key(rows[n])
    {
      var i :| 0 <= i < n && rows[..n][i] == x;
      assert rows[i] == x;
    }
  }

  /** The database the crawler writes and the services and selectors use. */
  class Database {
    var cryptos: seq<Crypto>
    var exchangeSymbols: seq<ExchangeSymbol>
    var marketData: seq<MarketData>
    var tags: seq<string>
    var cryptoTags: seq<CryptoTag>
    var prices: map<PriceTable, seq<PriceRow>>

    /** A database holding the given tables. */
    constructor (cryptos: seq<Crypto>, exchangeSymbols: seq<ExchangeSymbol>, marketData: seq<MarketData>,
                 tags: seq<string>, cryptoTags: seq<CryptoTag>, prices: map<PriceTable, seq<PriceRow>>)
      ensures this.cryptos == cryptos && this.exchangeSymbols == exchangeSymbols
      ensures this.marketData == marketData && this.tags == tags
      ensures this.cryptoTags == cryptoTags && this.prices == prices
    {
      this.cryptos := cryptos;
      this.exchangeSymbols := exchangeSymbols;
      this.marketData := marketData;
      this.tags := tags;
      this.cryptoTags := cryptoTags;
      this.prices := prices;
    }
  }
}
