/** The write services of the exchange web service
    (exchange_webservice/services.py): partial updates of one stored record
    followed by `save()`, deleting crypto-tag links, and inserting or
    replacing one crypto's rows in one price table. Every service is one
    transaction: when it raises, nothing it wrote stays. */
module Services {
  import opened Wrappers
  import opened Json
  import opened Tables

  /** `save()` on a model instance: the stored rows with the instance's key
      are overwritten by it; when there is none it is inserted at the end. */
  function Saved<T(==), K(==)>(rows: seq<T>, key: T -> K, x: T): (r: seq<T>)
    ensures x in r
    ensures forall y :: y in r && key(y) == key(x) ==> y == x
    ensures forall y :: y in r && key(y) != key(x) ==> y in rows
    ensures forall y :: y in rows && key(y) != key(x) ==> y in r
    ensures |r| == |rows| || (|r| == |rows| + 1 && forall y :: y in rows ==> key(y) != key(x))
  {
    if forall i | 0 <= i < |rows| :: key(rows[i]) != key(x) then
      rows + [x]
    else
      var r := seq(|rows|, i requires 0 <= i < |rows| => if key(rows[i]) == key(x) then x else rows[i]);
      assert forall y :: y in r ==> key(y) == key(x) || y in rows;
      assert forall y :: key(y) != key(x) && y in rows ==> y in r by {
        forall y | key(y) != key(x) && y in rows
          ensures y in r
        {
          var i :| 0 <= i < |rows| && rows[i] == y;
          assert r[i] == y;
        }
      }
      var i :| 0 <= i < |rows| && key(rows[i]) == key(x);
      assert r[i] == x;
      r
  }

  /** Saving a row that is already stored, unchanged, leaves the table as it was. */
  lemma SaveUnchangedRow<T, K>(rows: seq<T>, key: T -> K, x: T)
    requires UniqueKeys(rows, key) && x in rows
    ensures Saved(rows, key, x) == rows
  {
    var k :| 0 <= k < |rows| && rows[k] == x;
    var r := Saved(rows, key, x);
    assert |r| == |rows|;
    forall i | 0 <= i < |rows| && i != k
      ensures key(rows[i]) != key(x)
    {
      if i < k {
        assert key(rows[i]) != key(rows[k]);
      } else {
        assert key(rows[k]) != key(rows[i]);
      }
    }
  }

  /** A save keeps the keys of a table distinct. */
  lemma SaveKeepsKeysUnique<T, K>(rows: seq<T>, key: T -> K, x: T)
    requires UniqueKeys(rows, key)
    ensures UniqueKeys(Saved(rows, key, x), key)
  {
    var r := Saved(rows, key, x);
    if forall i | 0 <= i < |rows| :: key(rows[i]) != key(x) {
      assert r == rows + [x];
    } else {
      forall i, j | 0 <= i < j < |r|
        ensures key(r[i]) != key(r[j])
      {
        assert |r| == |rows|;
        if key(rows[i]) == key(x) {
          assert key(rows[j]) != key(x);
        } else if key(rows[j]) == key(x) {
          assert key(rows[i]) != key(x);
        } else {
          assert key(rows[i]) != key(rows[j]);
        }
      }
    }
  }

  /** The primary key of `Crypto`. */
  function CryptoKey(c: Crypto): int { c.cmcId }

  /** `CMCMarketData` is one-to-one with its crypto. */
  function MarketKey(m: MarketData): int { m.cryptoId }

  /** `ExchangeSymbol` is unique on (crypto, exchange). */
  function SymbolKey(s: ExchangeSymbol): (int, string) { (s.cryptoId, s.exchange) }

  /** The fields `update_crypto` assigns: `name` and `full_name` only to a
      truthy (non-empty) value, `is_main` to any value given, False included. */
  function UpdatedCrypto(c: Crypto, name: Option<string>, fullName: Option<string>, isMain: Option<bool>): (r: Crypto)
    ensures r.cmcId == c.cmcId
    ensures r.name != c.name ==> name == Some(r.name) && r.name != ""
    ensures name.Some? && name.value != "" ==> r.name == name.value
    ensures r.fullName != c.fullName ==> fullName == Some(r.fullName) && r.fullName != ""
    ensures fullName.Some? && fullName.value != "" ==> r.fullName == fullName.value
    ensures r.isMain != c.isMain ==> isMain == Some(r.isMain)
    ensures isMain.Some? ==> r.isMain == isMain.value
  {
    Crypto(c.cmcId,
           if name.Some? && name.value != "" then name.value else c.name,
           if fullName.Some? && fullName.value != "" then fullName.value else c.fullName,
           if isMain.Some? then isMain.value else c.isMain)
  }

  /** The fields `update_cmc_market_data` assigns: each one whose argument
      is not None, so 0 and False do overwrite. */
  function UpdatedMarketData(m: MarketData, cmcRank: Option<int>, maxSupply: Option<int>,
                             circulatingSupply: Option<int>, totalSupply: Option<int>,
                             infiniteSupply: Option<bool>, numMarketPairs: Option<int>,
                             lastUpdated: Option<string>): (r: MarketData)
    ensures r.cryptoId == m.cryptoId
    ensures r.cmcRank != m.cmcRank ==> cmcRank == Some(r.cmcRank)
    ensures cmcRank.Some? ==> r.cmcRank == cmcRank.value
    ensures r.maxSupply != m.maxSupply ==> maxSupply.Some? && r.maxSupply == maxSupply
    ensures maxSupply.Some? ==> r.maxSupply == maxSupply
    ensures r.circulatingSupply != m.circulatingSupply ==> circulatingSupply.Some? && r.circulatingSupply == circulatingSupply
    ensures circulatingSupply.Some? ==> r.circulatingSupply == circulatingSupply
    ensures r.totalSupply != m.totalSupply ==> totalSupply.Some? && r.totalSupply == totalSupply
    ensures totalSupply.Some? ==> r.totalSupply == totalSupply
    ensures r.infiniteSupply != m.infiniteSupply ==> infiniteSupply == Some(r.infiniteSupply)
    ensures infiniteSupply.Some? ==> r.infiniteSupply == infiniteSupply.value
    ensures r.numMarketPairs != m.numMarketPairs ==> numMarketPairs == Some(r.numMarketPairs)
    ensures numMarketPairs.Some? ==> r.numMarketPairs == numMarketPairs.value
    ensures r.lastUpdated != m.lastUpdated ==> lastUpdated == Some(r.lastUpdated)
    ensures lastUpdated.Some? ==> r.lastUpdated == lastUpdated.value
  {
    MarketData(m.cryptoId,
               cmcRank.GetOr(m.cmcRank),
               if maxSupply.Some? then maxSupply else m.maxSupply,
               if circulatingSupply.Some? then circulatingSupply else m.circulatingSupply,
               if totalSupply.Some? then totalSupply else m.totalSupply,
               infiniteSupply.GetOr(m.infiniteSupply),
               numMarketPairs.GetOr(m.numMarketPairs),
               lastUpdated.GetOr(m.lastUpdated))
  }


  /** The fields `update_exchange_symbol` assigns: `symbol` only to a truthy
      value, `is_active` to any value given. */
  function UpdatedSymbol(s: ExchangeSymbol, symbol: Option<string>, isActive: Option<bool>): (r: ExchangeSymbol)
    ensures SymbolKey(r) == SymbolKey(s)
    ensures r.symbol != s.symbol ==> symbol == Some(r.symbol) && r.symbol != ""
    ensures symbol.Some? && symbol.value != "" ==> r.symbol == symbol.value
    ensures r.isActive != s.isActive ==> isActive == Some(r.isActive)
    ensures isActive.Some? ==> r.isActive == isActive.value
  {
    ExchangeSymbol(s.cryptoId, s.exchange,
                   if symbol.Some? && symbol.value != "" then symbol.value else s.symbol,
                   isActive.GetOr(s.isActive))
  }

  /** `update_crypto`: assigns the given fields on the crypto and saves it;
      no other table changes. */
  method UpdateCrypto(db: Database, crypto: Crypto, name: Option<string>, fullName: Option<string>,
                      isMain: Option<bool>) returns (r: Crypto)
    modifies db
    ensures r == UpdatedCrypto(crypto, name, fullName, isMain)
    ensures db.cryptos == Saved(old(db.cryptos), CryptoKey, r)
    ensures db.exchangeSymbols == old(db.exchangeSymbols) && db.marketData == old(db.marketData)
    ensures db.tags == old(db.tags) && db.cryptoTags == old(db.cryptoTags) && db.prices == old(db.prices)
  {
    r := crypto;
    if name.Some? && name.value != "" {
      r := r.(name := name.value);
    }
    if fullName.Some? && fullName.value != "" {
      r := r.(fullName := fullName.value);
    }
    if isMain.Some? {
      r := r.(isMain := isMain.value);
    }
    db.cryptos := Saved(db.cryptos, CryptoKey, r);
  }

  /** `update_cmc_market_data`: assigns each field given and saves the row. */
  method UpdateCmcMarketData(db: Database, m: MarketData, cmcRank: Option<int>, maxSupply: Option<int>,
                             circulatingSupply: Option<int>, totalSupply: Option<int>,
                             infiniteSupply: Option<bool>, numMarketPairs: Option<int>,
                             lastUpdated: Option<string>) returns (r: MarketData)
    modifies db
    ensures r == UpdatedMarketData(m, cmcRank, maxSupply, circulatingSupply, totalSupply,
                                   infiniteSupply, numMarketPairs, lastUpdated)
    ensures db.marketData == Saved(old(db.marketData), MarketKey, r)
    ensures db.cryptos == old(db.cryptos) && db.exchangeSymbols == old(db.exchangeSymbols)
    ensures db.tags == old(db.tags) && db.cryptoTags == old(db.cryptoTags) && db.prices == old(db.prices)
  {
    r := m.(cmcRank := if cmcRank.Some? then cmcRank.value else m.cmcRank,
            maxSupply := if maxSupply.Some? then maxSupply else m.maxSupply,
            circulatingSupply := if circulatingSupply.Some? then circulatingSupply else m.circulatingSupply,
            totalSupply := if totalSupply.Some? then totalSupply else m.totalSupply,
            infiniteSupply := if infiniteSupply.Some? then infiniteSupply.value else m.infiniteSupply,
            numMarketPairs := if numMarketPairs.Some? then numMarketPairs.value else m.numMarketPairs,
            lastUpdated := if lastUpdated.Some? then lastUpdated.value else m.lastUpdated);
    db.marketData := Saved(db.marketData, MarketKey, r);
  }

  /** `update_exchange_symbol`: assigns the given fields and saves the row. */
  method UpdateExchangeSymbol(db: Database, s: ExchangeSymbol, symbol: Option<string>, isActive: Option<bool>)
    returns (r: ExchangeSymbol)
    modifies db
    ensures r == UpdatedSymbol(s, symbol, isActive)
    ensures db.exchangeSymbols == Saved(old(db.exchangeSymbols), SymbolKey, r)
    ensures db.cryptos == old(db.cryptos) && db.marketData == old(db.marketData)
    ensures db.tags == old(db.tags) && db.cryptoTags == old(db.cryptoTags) && db.prices == old(db.prices)
  {
    r := s;
    if symbol.Some? && symbol.value != "" {
      r := r.(symbol := symbol.value);
    }
    if isActive.Some? {
      r := r.(isActive := isActive.value);
    }
    db.exchangeSymbols := Saved(db.exchangeSymbols, SymbolKey, r);
  }

  /** The links left after deleting every (crypto, tag) link equal to `link`,
      in their stored order. */
  function WithoutLink(links: seq<CryptoTag>, link: CryptoTag): (r: seq<CryptoTag>)
    ensures forall l :: l in r <==> l in links && l != link
    ensures |r| <= |links|
  {
    if links == [] then []
    else if links[|links| - 1] == link then WithoutLink(links[..|links| - 1], link)
    else WithoutLink(links[..|links| - 1], link) + [links[|links| - 1]]
  }

  /** Deleting a link twice deletes nothing more. */
  lemma {:induction false} WithoutLinkIdempotent(links: seq<CryptoTag>, link: CryptoTag)
    ensures WithoutLink(WithoutLink(links, link), link) == WithoutLink(links, link)
  {
    if links != [] {
      var n := |links| - 1;
      WithoutLinkIdempotent(links[..n], link);
      if links[n] != link {
        var w := WithoutLink(links[..n], link) + [links[n]];
        assert w[..|w| - 1] == WithoutLink(links[..n], link);
      }
    }
  }

  /** `remove_crypto_tag`: deletes all and only the links of that crypto to that tag. */
  method RemoveCryptoTag(db: Database, cryptoId: int, tag: string)
    modifies db
    ensures db.cryptoTags == WithoutLink(old(db.cryptoTags), CryptoTag(cryptoId, tag))
    ensures db.cryptos == old(db.cryptos) && db.exchangeSymbols == old(db.exchangeSymbols)
    ensures db.marketData == old(db.marketData) && db.tags == old(db.tags) && db.prices == old(db.prices)
  {
    db.cryptoTags := WithoutLink(db.cryptoTags, CryptoTag(cryptoId, tag));
  }

  /** The tables after `save_historical_price` inserts `row`, or its error: an
      unknown timeframe raises before any write. The price tables carry no
      unique constraint, so a second row at a taken timestamp is inserted. */
  function PriceSaved(prices: map<PriceTable, seq<PriceRow>>, row: PriceRow, tf: string)
    : Result<map<PriceTable, seq<PriceRow>>, DbError>
  {
    match TableFor(tf)
    case None => Err(InvalidTimeframe)
    case Some(t) =>
      Ok(prices[t := Rows(prices, t) + [row]])
  }

  /** What `save_historical_price` promises: it fails exactly for an unknown
      timeframe; otherwise the crypto's rows gain the new one at the end and
      every other crypto and table is untouched. */
  lemma {:induction false} PriceSavedSpec(prices: map<PriceTable, seq<PriceRow>>, row: PriceRow, tf: string)
    ensures TableFor(tf).None? ==> PriceSaved(prices, row, tf) == Err(InvalidTimeframe)
    ensures PriceSaved(prices, row, tf).Err? <==> TableFor(tf).None?
    ensures PriceSaved(prices, row, tf).Ok? ==>
      var p := PriceSaved(prices, row, tf).value;
      var t := TableFor(tf).value;
      && OfCrypto(Rows(p, t), row.cryptoId) == OfCrypto(Rows(prices, t), row.cryptoId) + [row]
      && (forall other :: other != row.cryptoId ==> OfCrypto(Rows(p, t), other) == OfCrypto(Rows(prices, t), other))
      && (forall u :: u != t ==> Rows(p, u) == Rows(prices, u))
  {
    if PriceSaved(prices, row, tf).Ok? {
      var t := TableFor(tf).value;
      var p := PriceSaved(prices, row, tf).value;
      assert p == prices[t := Rows(prices, t) + [row]];
      assert Rows(p, t) == Rows(prices, t) + [row];
      OfCryptoAppend(Rows(prices, t), row, row.cryptoId);
      forall other | other != row.cryptoId
        ensures OfCrypto(Rows(p, t), other) == OfCrypto(Rows(prices, t), other)
      {
        OfCryptoAppend(Rows(prices, t), row, other);
      }
    }
  }

  /** Saving the same row twice stores it twice: nothing refuses a second
      row at a taken timestamp. */
  lemma RepeatedTimestampStored(prices: map<PriceTable, seq<PriceRow>>, row: PriceRow, tf: string)
    requires TableFor(tf).Some?
    ensures var once := PriceSaved(prices, row, tf);
      && once.Ok?
      && PriceSaved(once.value, row, tf).Ok?
      && OfCrypto(Rows(PriceSaved(once.value, row, tf).value, TableFor(tf).value), row.cryptoId)
         == OfCrypto(Rows(prices, TableFor(tf).value), row.cryptoId) + [row, row]
  {
    PriceSavedSpec(prices, row, tf);
    PriceSavedSpec(PriceSaved(prices, row, tf).value, row, tf);
  }

  /** `save_historical_price`. */
  method SaveHistoricalPrice(db: Database, cryptoId: int, tf: string, timestamp: int, open: int, high: int,
                             low: int, close: int, volume: int, indicators: Option<Json>)
    returns (r: Result<(), DbError>)
    modifies db
    ensures match PriceSaved(old(db.prices), PriceRow(cryptoId, timestamp, open, high, low, close, volume, indicators), tf)
      case Ok(p) => r == Ok(()) && db.prices == p
      case Err(e) => r == Err(e) && db.prices == old(db.prices)
    ensures db.cryptos == old(db.cryptos) && db.exchangeSymbols == old(db.exchangeSymbols)
    ensures db.marketData == old(db.marketData) && db.tags == old(db.tags) && db.cryptoTags == old(db.cryptoTags)
  {
    var t := TableFor(tf);
    if t.None? {
      return Err(InvalidTimeframe);
    }
    var row := PriceRow(cryptoId, timestamp, open, high, low, close, volume, indicators);
    db.prices := db.prices[t.value := Rows(db.prices, t.value) + [row]];
    r := Ok(());
  }

  /** The keys `bulk_save_historical_prices` reads from every record, in the
      order it reads them. */
  const PriceKeys: seq<string> := ["timestamp", "open", "high", "low", "close", "volume"]

  /** The first of `keys` that `data` lacks. */
  function FirstMissing(keys: seq<string>, data: map<string, Json>): (r: Option<string>)
    ensures r.None? <==> forall k :: k in keys ==> k in data
    ensures r.Some? ==> r.value in keys && r.value !in data
  {
    if keys == [] then None
    else if keys[0] !in data then Some(keys[0])
    else FirstMissing(keys[1..], data)
  }

  /** A record of `price_data` as the service builds it, before the database
      converts its values. */
  datatype Draft = Draft(timestamp: Json, open: Json, high: Json, low: Json, close: Json, volume: Json,
                         indicators: Option<Json>)

  /** `data.get('indicators')`: absent and null both store NULL. */
  function IndicatorsOf(data: map<string, Json>): Option<Json> {
    if "indicators" in data && data["indicators"] != JNull then Some(data["indicators"]) else None
  }

  /** Building one record: the first missing required key raises KeyError. */
  function DraftOf(data: map<string, Json>): Result<Draft, DbError> {
    match FirstMissing(PriceKeys, data)
    case Some(k) => Err(MissingKey(k))
    case None =>
      assert PriceKeys[0] in PriceKeys && PriceKeys[1] in PriceKeys && PriceKeys[2] in PriceKeys;
      assert PriceKeys[3] in PriceKeys && PriceKeys[4] in PriceKeys && PriceKeys[5] in PriceKeys;
      Ok(Draft(data["timestamp"], data["open"], data["high"], data["low"], data["close"], data["volume"],
               IndicatorsOf(data)))
  }

  /** A record fails exactly when a required key is missing, and then with
      the KeyError of a missing required key. */
  lemma DraftOfSpec(data: map<string, Json>)
    ensures DraftOf(data).Err? <==> exists k :: k in PriceKeys && k !in data
    ensures DraftOf(data).Err? ==>
      DraftOf(data).error.MissingKey? && DraftOf(data).error.key in PriceKeys && DraftOf(data).error.key !in data
  {
  }

  /** The records built from `price_data`, or the KeyError of the first
      record that lacks a key. */
  function Drafts(s: seq<map<string, Json>>): Result<seq<Draft>, DbError> {
    if s == [] then Ok([])
    else
      var n := |s| - 1;
      match Drafts(s[..n])
      case Err(e) => Err(e)
      case Ok(ds) =>
        match DraftOf(s[n])
        case Err(e) => Err(e)
        case Ok(d) => Ok(ds + [d])
  }

  /** A successful batch holds one record per item, each built from its
      item; a failed one carries the KeyError of some item. */
  lemma DraftsSpec(s: seq<map<string, Json>>)
    ensures Drafts(s).Ok? ==> |Drafts(s).value| == |s| && forall i :: 0 <= i < |s| ==> DraftOf(s[i]) == Ok(Drafts(s).value[i])
    ensures Drafts(s).Err? ==> exists i :: 0 <= i < |s| && DraftOf(s[i]) == Err(Drafts(s).error)
  {
    DraftsOk(s);
    DraftsErr(s);
  }

  lemma {:induction false} DraftsOk(s: seq<map<string, Json>>)
    ensures Drafts(s).Ok? ==> |Drafts(s).value| == |s| && forall i :: 0 <= i < |s| ==> DraftOf(s[i]) == Ok(Drafts(s).value[i])
  {
    if s != [] && Drafts(s).Ok? {
      var n := |s| - 1;
      DraftsOk(s[..n]);
      var prev := Drafts(s[..n]).value;
      var r := Drafts(s).value;
      assert r == prev + [DraftOf(s[n]).value];
      forall i | 0 <= i < n
        ensures DraftOf(s[i]) == Ok(r[i])
      {
        assert s[..n][i] == s[i] && r[i] == prev[i];
      }
    }
  }

  lemma {:induction false} DraftsErr(s: seq<map<string, Json>>)
    ensures Drafts(s).Err? ==> exists i :: 0 <= i < |s| && DraftOf(s[i]) == Err(Drafts(s).error)
  {
    if s != [] && Drafts(s).Err? {
      var n := |s| - 1;
      if Drafts(s[..n]).Err? {
        DraftsErr(s[..n]);
        var i :| 0 <= i < n && DraftOf(s[..n][i]) == Err(Drafts(s[..n]).error);
        assert s[..n][i] == s[i];
      }
    }
  }

  /** Once a prefix of the records fails, the whole batch fails with the same error. */
  lemma {:induction false} DraftsErrPersists(s: seq<map<string, Json>>, i: nat)
    requires i <= |s| && Drafts(s[..i]).Err?
    ensures Drafts(s) == Drafts(s[..i])
    decreases |s|
  {
    if i < |s| {
      var n := |s| - 1;
      assert s[..n][..i] == s[..i];
      DraftsErrPersists(s[..n], i);
      DraftsAfterErr(s);
    } else {
      assert s[..i] == s;
    }
  }

  lemma DraftsAfterErr(t: seq<map<string, Json>>)
    requires t != [] && Drafts(t[..|t| - 1]).Err?
    ensures Drafts(t) == Drafts(t[..|t| - 1])
  {
  }

  /** The row the database stores for a record: every value must be a number. */
  function RowOf(cryptoId: int, d: Draft): Option<PriceRow> {
    if d.timestamp.JNum? && d.open.JNum? && d.high.JNum? && d.low.JNum? && d.close.JNum? && d.volume.JNum? then
      Some(PriceRow(cryptoId, d.timestamp.n, d.open.n, d.high.n, d.low.n, d.close.n, d.volume.n, d.indicators))
    else None
  }

  /** The rows of all records, or None when one holds a value no column can store. */
  function RowsOf(cryptoId: int, ds: seq<Draft>): (r: Option<seq<PriceRow>>)
    ensures r.Some? ==> |r.value| == |ds| && forall i :: 0 <= i < |ds| ==> RowOf(cryptoId, ds[i]) == Some(r.value[i])
    ensures r.None? ==> exists i :: 0 <= i < |ds| && RowOf(cryptoId, ds[i]).None?
  {
    if ds == [] then Some([])
    else
      var n := |ds| - 1;
      match RowsOf(cryptoId, ds[..n])
      case None =>
        var i :| 0 <= i < n && RowOf(cryptoId, ds[..n][i]).None?;
        assert ds[..n][i] == ds[i];
        None
      case Some(rows) =>
        assert forall i :: 0 <= i < n ==> ds[..n][i] == ds[i];
        match RowOf(cryptoId, ds[n])
        case None => None
        case Some(row) => Some(rows + [row])
  }

  /** The tables after `bulk_save_historical_prices`, or the error that rolls
      it back: an unknown timeframe, a record lacking a key, or a value no
      column can store. Records sharing a timestamp are all stored. */
  function BulkSaved(prices: map<PriceTable, seq<PriceRow>>, cryptoId: int, tf: string,
                     priceData: seq<map<string, Json>>): Result<map<PriceTable, seq<PriceRow>>, DbError>
  {
    match TableFor(tf)
    case None => Err(InvalidTimeframe)
    case Some(t) =>
      match Drafts(priceData)
      case Err(e) => Err(e)
      case Ok(ds) =>
        match RowsOf(cryptoId, ds)
        case None => Err(InvalidValue)
        case Some(rows) =>
          Ok(prices[t := WithoutCrypto(Rows(prices, t), cryptoId) + rows])
  }

  /** A stored row holds exactly the values of its record. */
  predicate Stores(row: PriceRow, cryptoId: int, data: map<string, Json>) {
    && row.cryptoId == cryptoId
    && "timestamp" in data && data["timestamp"] == JNum(row.timestamp)
    && "open" in data && data["open"] == JNum(row.open)
    && "high" in data && data["high"] == JNum(row.high)
    && "low" in data && data["low"] == JNum(row.low)
    && "close" in data && data["close"] == JNum(row.close)
    && "volume" in data && data["volume"] == JNum(row.volume)
    && row.indicators == IndicatorsOf(data)
  }

  /** The rows converted from records all belong to the crypto, and each
      holds exactly the values of its record. */
  lemma RowsOfStore(cryptoId: int, priceData: seq<map<string, Json>>, ds: seq<Draft>, rows: seq<PriceRow>)
    requires Drafts(priceData) == Ok(ds) && RowsOf(cryptoId, ds) == Some(rows)
    ensures |rows| == |priceData|
    ensures forall x :: x in rows ==> x.cryptoId == cryptoId
    ensures forall i :: 0 <= i < |rows| ==> Stores(rows[i], cryptoId, priceData[i])
  {
    DraftsSpec(priceData);
    forall i | 0 <= i < |rows|
      ensures Stores(rows[i], cryptoId, priceData[i])
    {
      RowStores(cryptoId, priceData[i], ds[i], rows[i]);
    }
    forall x | x in rows
      ensures x.cryptoId == cryptoId
    {
      var i :| 0 <= i < |rows| && rows[i] == x;
      assert Stores(rows[i], cryptoId, priceData[i]);
    }
  }

  lemma RowStores(cryptoId: int, data: map<string, Json>, d: Draft, row: PriceRow)
    requires DraftOf(data) == Ok(d) && RowOf(cryptoId, d) == Some(row)
    ensures Stores(row, cryptoId, data)
  {
    assert FirstMissing(PriceKeys, data).None?;
  }

  /** After a successful bulk save the crypto's rows in that table are exactly
      the records, in order; other cryptos' rows and other tables are untouched. */
  lemma BulkSavedReadBack(prices: map<PriceTable, seq<PriceRow>>, cryptoId: int, tf: string,
                          priceData: seq<map<string, Json>>)
    requires BulkSaved(prices, cryptoId, tf, priceData).Ok?
    ensures TableFor(tf).Some?
    ensures
      var p := BulkSaved(prices, cryptoId, tf, priceData).value;
      var mine := OfCrypto(Rows(p, TableFor(tf).value), cryptoId);
      |mine| == |priceData| && forall i :: 0 <= i < |mine| ==> Stores(mine[i], cryptoId, priceData[i])
    ensures
      var p := BulkSaved(prices, cryptoId, tf, priceData).value;
      forall other :: other != cryptoId ==>
        OfCrypto(Rows(p, TableFor(tf).value), other) == OfCrypto(Rows(prices, TableFor(tf).value), other)
    ensures
      var p := BulkSaved(prices, cryptoId, tf, priceData).value;
      forall u :: u != TableFor(tf).value ==> Rows(p, u) == Rows(prices, u)
  {
    var t := TableFor(tf).value;
    var ds := Drafts(priceData).value;
    var rows := RowsOf(cryptoId, ds).value;
    var p := BulkSaved(prices, cryptoId, tf, priceData).value;
    assert p == prices[t := WithoutCrypto(Rows(prices, t), cryptoId) + rows];
    assert Rows(p, t) == WithoutCrypto(Rows(prices, t), cryptoId) + rows;
    RowsOfStore(cryptoId, priceData, ds, rows);
    ReplaceRowsReadBack(Rows(prices, t), cryptoId, rows);
    forall other | other != cryptoId
      ensures OfCrypto(Rows(p, t), other) == OfCrypto(Rows(prices, t), other)
    {
      ReplaceRowsKeepsOthers(Rows(prices, t), cryptoId, rows, other);
    }
  }

  /** An unknown timeframe, or a record lacking a required key, makes the
      bulk save fail; an empty `price_data` with a known timeframe only
      deletes the crypto's rows. */
  lemma BulkSavedFailures(prices: map<PriceTable, seq<PriceRow>>, cryptoId: int, tf: string,
                          priceData: seq<map<string, Json>>)
    ensures TableFor(tf).None? ==> BulkSaved(prices, cryptoId, tf, priceData) == Err(InvalidTimeframe)
    ensures TableFor(tf).Some? && (exists i, k :: 0 <= i < |priceData| && k in PriceKeys && k !in priceData[i]) ==>
      BulkSaved(prices, cryptoId, tf, priceData).Err? && BulkSaved(prices, cryptoId, tf, priceData).error.MissingKey?
    ensures TableFor(tf).Some? && priceData == [] ==>
      BulkSaved(prices, cryptoId, tf, priceData).Ok? &&
      OfCrypto(Rows(BulkSaved(prices, cryptoId, tf, priceData).value, TableFor(tf).value), cryptoId) == []
  {
    if TableFor(tf).Some? && (exists i, k :: 0 <= i < |priceData| && k in PriceKeys && k !in priceData[i]) {
      var i, k :| 0 <= i < |priceData| && k in PriceKeys && k !in priceData[i];
      DraftOfSpec(priceData[i]);
      DraftsSpec(priceData);
      var j :| 0 <= j < |priceData| && DraftOf(priceData[j]) == Err(Drafts(priceData).error);
      DraftOfSpec(priceData[j]);
    }
    if TableFor(tf).Some? && priceData == [] {
      var t := TableFor(tf).value;
      assert WithoutCrypto(Rows(prices, t), cryptoId) + [] == WithoutCrypto(Rows(prices, t), cryptoId);
      NoneLeft(Rows(prices, t), cryptoId);
    }
  }

  /** The loop of `bulk_save_historical_prices` that builds the records,
      stopping at the first KeyError. */
  method BuildDrafts(priceData: seq<map<string, Json>>) returns (r: Result<seq<Draft>, DbError>)
    ensures r == Drafts(priceData)
  {
    var records: seq<Draft> := [];
    var i := 0;
    while i < |priceData|
      invariant 0 <= i <= |priceData|
      invariant Drafts(priceData[..i]) == Ok(records)
    {
      var d := DraftOf(priceData[i]);
      assert priceData[..i + 1][..i] == priceData[..i];
      if d.Err? {
        assert Drafts(priceData[..i + 1]) == Err(d.error);
        DraftsErrPersists(priceData, i + 1);
        return Err(d.error);
      }
      records := records + [d.value];
      i := i + 1;
    }
    assert priceData[..i] == priceData;
    r := Ok(records);
  }

  /** `bulk_save_historical_prices`: deletes the crypto's rows in the
      timeframe's table, builds one record per item of `price_data`, and
      inserts them; any exception rolls the delete back. */
  method BulkSaveHistoricalPrices(db: Database, cryptoId: int, tf: string, priceData: seq<map<string, Json>>)
    returns (r: Result<(), DbError>)
    modifies db
    ensures match BulkSaved(old(db.prices), cryptoId, tf, priceData)
      case Ok(p) => r == Ok(()) && db.prices == p
      case Err(e) => r == Err(e) && db.prices == old(db.prices)
    ensures db.cryptos == old(db.cryptos) && db.exchangeSymbols == old(db.exchangeSymbols)
    ensures db.marketData == old(db.marketData) && db.tags == old(db.tags) && db.cryptoTags == old(db.cryptoTags)
  {
    var t := TableFor(tf);
    if t.None? {
      return Err(InvalidTimeframe);
    }
    var before := db.prices;
    var kept := WithoutCrypto(Rows(before, t.value), cryptoId);
    db.prices := before[t.value := kept];
    var drafts := BuildDrafts(priceData);
    if drafts.Err? {
      assert BulkSaved(before, cryptoId, tf, priceData) == Err(drafts.error);
      db.prices := before;
      return Err(drafts.error);
    }
    var records := drafts.value;
    assert Drafts(priceData) == Ok(records);
    if records != [] {
      var rows := RowsOf(cryptoId, records);
      if rows.None? {
        assert BulkSaved(before, cryptoId, tf, priceData) == Err(InvalidValue);
        db.prices := before;
        return Err(InvalidValue);
      }
      assert Rows(db.prices, t.value) == kept;
      db.prices := db.prices[t.value := Rows(db.prices, t.value) + rows.value];
      assert BulkSaved(before, cryptoId, tf, priceData) == Ok(before[t.value := kept + rows.value]);
    } else {
      assert kept + [] == kept;
      assert BulkSaved(before, cryptoId, tf, priceData) == Ok(before[t.value := kept]);
    }
    r := Ok(());
  }
}
