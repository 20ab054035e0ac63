/** What `CoinHandler` writes to and reads from the coin registry
    (exchange_webservice/crawler/real_time.py): the `Crypto` and
    `ExchangeSymbol` rows a reconciled frame becomes, the frame read back
    from them, and the market data, tags and cache entries written for the
    aggregator's listing. These functions are the specifications the
    handler's methods are proved against. */
module Registry {
  import opened Wrappers
  import opened Json
  import opened Cmc
  import opened Tables
  import opened Reconcile

  // ---------------------------------------------------------------------
  // Saving the reconciled frame (`_save_tf_coins_to_database`)

  /** The `Crypto` row a frame row becomes: `name` is the short symbol. */
  function CryptoOf(r: Row): Crypto {
    Crypto(r.id, r.symbol, r.name, r.isMain)
  }

  function CryptosOf(rows: seq<Row>): (c: seq<Crypto>)
    ensures |c| == |rows|
    ensures forall i :: 0 <= i < |rows| ==> c[i] == CryptoOf(rows[i])
  {
    seq(|rows|, i requires 0 <= i < |rows| => CryptoOf(rows[i]))
  }

  /** The exchange symbols created for one row over the first `k` exchanges:
      one active symbol per exchange column that holds a pair. */
  function RowSymbols(r: Row, k: nat): seq<ExchangeSymbol>
    requires k <= |Exchanges|
  {
    if k == 0 then [] else RowSymbols(r, k - 1) + CellSymbols(r, Exchanges[k - 1])
  }

  /** The symbol saved for one exchange cell of a row, if it holds a pair. */
  function CellSymbols(r: Row, ex: string): seq<ExchangeSymbol> {
    match Cell(r, ex)
    case Some(s) => [ExchangeSymbol(r.id, ex, s, true)]
    case None => []
  }

  /** The `ExchangeSymbol` rows created for a whole frame, row by row. */
  function SymbolsOf(rows: seq<Row>): seq<ExchangeSymbol> {
    if rows == [] then []
    else SymbolsOf(rows[..|rows| - 1]) + RowSymbols(rows[|rows| - 1], |Exchanges|)
  }

  /** No two rows carry the same CMC id, the primary key of `Crypto`. */
  predicate DistinctIds(rows: seq<Row>) {
    forall i, j :: 0 <= i < j < |rows| ==> rows[i].id != rows[j].id
  }

  /** The id of the row a saved crypto comes from is its primary key. */
  lemma SavedIds(rows: seq<Row>, i: nat)
    requires i <= |rows|
    ensures forall j :: 0 <= j < i ==> CryptosOf(rows[..i])[j].cmcId == rows[j].id
  {
    forall j | 0 <= j < i
      ensures CryptosOf(rows[..i])[j].cmcId == rows[j].id
    {
      assert rows[..i][j] == rows[j];
    }
  }

  /** A row whose id was already saved makes the ids of the frame repeat. */
  lemma RepeatedId(rows: seq<Row>, i: nat)
    requires i < |rows| && HasCrypto(CryptosOf(rows[..i]), rows[i].id)
    ensures !DistinctIds(rows)
  {
    SavedIds(rows, i);
    var j :| 0 <= j < |CryptosOf(rows[..i])| && CryptosOf(rows[..i])[j].cmcId == rows[i].id;
    assert rows[j].id == rows[i].id && j < i;
  }

  /** Saving one more row with a new id keeps the ids distinct and extends
      the saved cryptos and symbols by that row's. */
  lemma NewIdSaved(rows: seq<Row>, i: nat)
    requires i < |rows| && DistinctIds(rows[..i]) && !HasCrypto(CryptosOf(rows[..i]), rows[i].id)
    ensures DistinctIds(rows[..i + 1])
    ensures CryptosOf(rows[..i + 1]) == CryptosOf(rows[..i]) + [CryptoOf(rows[i])]
    ensures SymbolsOf(rows[..i + 1]) == SymbolsOf(rows[..i]) + RowSymbols(rows[i], |Exchanges|)
  {
    SavedIds(rows, i);
    var next := rows[..i + 1];
    assert next[..i] == rows[..i];
    forall a, b | 0 <= a < b < |next|
      ensures next[a].id != next[b].id
    {
      if b == i {
        assert CryptosOf(rows[..i])[a].cmcId == rows[a].id;
      } else {
        assert rows[..i][a] == next[a] && rows[..i][b] == next[b];
      }
    }
  }

  /** `s` is the exchange symbol saved for one exchange cell of row `r`. */
  predicate HoldsCell(r: Row, s: ExchangeSymbol) {
    s.isActive && s.cryptoId == r.id && s.exchange in Exchanges && Cell(r, s.exchange) == Some(s.symbol)
  }

  lemma {:induction false} RowSymbolsMembers(r: Row, k: nat, s: ExchangeSymbol)
    requires k <= |Exchanges|
    ensures s in RowSymbols(r, k) <==>
      s.isActive && s.cryptoId == r.id && s.exchange in Exchanges[..k] && Cell(r, s.exchange) == Some(s.symbol)
  {
    if k > 0 {
      RowSymbolsMembers(r, k - 1, s);
      assert Exchanges[..k] == Exchanges[..k - 1] + [Exchanges[k - 1]];
    }
  }

  /** One active `ExchangeSymbol` exists for each frame cell holding a pair,
      and no other. */
  lemma {:induction false} SymbolsOfMembers(rows: seq<Row>, s: ExchangeSymbol)
    ensures s in SymbolsOf(rows) <==> exists i :: 0 <= i < |rows| && HoldsCell(rows[i], s)
  {
    if rows != [] {
      var n := |rows| - 1;
      SymbolsOfMembers(rows[..n], s);
      RowSymbolsMembers(rows[n], |Exchanges|, s);
      assert Exchanges[..|Exchanges|] == Exchanges;
      assert forall i :: 0 <= i < n ==> rows[..n][i] == rows[i];
    }
  }

  // ---------------------------------------------------------------------
  // Loading the registry back (`_load_coins_data_from_database`)

  /** The symbol the last `ExchangeSymbol` of that crypto and exchange holds:
      each later `.loc` assignment overwrites the earlier one. */
  function LastSymbol(symbols: seq<ExchangeSymbol>, cryptoId: int, exchange: string): Option<string> {
    if symbols == [] then None
    else
      var last := symbols[|symbols| - 1];
      if last.cryptoId == cryptoId && last.exchange == exchange then Some(last.symbol)
      else LastSymbol(symbols[..|symbols| - 1], cryptoId, exchange)
  }

  /** `replace("nan", np.nan)`: a cell holding the text "nan" reads as NaN. */
  function NanToNone(cell: Option<string>): Option<string> {
    if cell == Some("nan") then None else cell
  }

  /** A row of the loaded frame: the crypto's columns and one cell per
      exchange, in the order of `Exchanges`. */
  datatype LoadedRow = LoadedRow(crypto: Crypto, pairs: seq<Option<string>>)

  function LoadedPairs(symbols: seq<ExchangeSymbol>, cryptoId: int): (p: seq<Option<string>>)
    ensures |p| == |Exchanges|
  {
    seq(|Exchanges|, e requires 0 <= e < |Exchanges| => NanToNone(LastSymbol(symbols, cryptoId, Exchanges[e])))
  }

  /** The frame loaded from the two tables, one row per crypto in table order. */
  function LoadedFrame(cryptos: seq<Crypto>, symbols: seq<ExchangeSymbol>): (f: seq<LoadedRow>)
    ensures |f| == |cryptos|
    ensures forall i :: 0 <= i < |cryptos| ==> f[i].crypto == cryptos[i] && |f[i].pairs| == |Exchanges|
  {
    seq(|cryptos|, i requires 0 <= i < |cryptos| => LoadedRow(cryptos[i], LoadedPairs(symbols, cryptos[i].cmcId)))
  }

  lemma {:induction false} LastSymbolAppend(a: seq<ExchangeSymbol>, b: seq<ExchangeSymbol>, cryptoId: int, exchange: string)
    ensures LastSymbol(a + b, cryptoId, exchange) ==
      if LastSymbol(b, cryptoId, exchange).Some? then LastSymbol(b, cryptoId, exchange) else LastSymbol(a, cryptoId, exchange)
  {
    if b == [] {
      assert a + b == a;
    } else {
      var n := |b| - 1;
      assert (a + b)[..|a + b| - 1] == a + b[..n];
      LastSymbolAppend(a, b[..n], cryptoId, exchange);
    }
  }

  lemma {:induction false} RowSymbolsOther(r: Row, k: nat, cryptoId: int, exchange: string)
    requires k <= |Exchanges| && r.id != cryptoId
    ensures LastSymbol(RowSymbols(r, k), cryptoId, exchange) == None
  {
    if k > 0 {
      RowSymbolsOther(r, k - 1, cryptoId, exchange);
      LastSymbolAppend(RowSymbols(r, k - 1), CellSymbols(r, Exchanges[k - 1]), cryptoId, exchange);
    }
  }

  lemma {:induction false} RowSymbolsOwn(r: Row, k: nat, e: nat)
    requires k <= |Exchanges| && e < |Exchanges|
    ensures LastSymbol(RowSymbols(r, k), r.id, Exchanges[e]) == if e < k then Cell(r, Exchanges[e]) else None
  {
    if k > 0 {
      RowSymbolsOwn(r, k - 1, e);
      LastSymbolAppend(RowSymbols(r, k - 1), CellSymbols(r, Exchanges[k - 1]), r.id, Exchanges[e]);
      CellSymbolsLast(r, Exchanges[k - 1], Exchanges[e]);
      if e != k - 1 {
        assert Exchanges[e] != Exchanges[k - 1] by {
          ExchangesDistinct();
        }
      }
    }
  }

  /** A cell's symbol is the last one of its row and exchange. */
  lemma CellSymbolsLast(r: Row, ex: string, exchange: string)
    ensures LastSymbol(CellSymbols(r, ex), r.id, exchange) == if ex == exchange then Cell(r, ex) else None
  {
    if Cell(r, ex).Some? {
      assert CellSymbols(r, ex)[..0] == [];
    }
  }

  lemma {:induction false} SymbolsOfAbsent(rows: seq<Row>, cryptoId: int, exchange: string)
    requires forall j :: 0 <= j < |rows| ==> rows[j].id != cryptoId
    ensures LastSymbol(SymbolsOf(rows), cryptoId, exchange) == None
  {
    if rows != [] {
      var n := |rows| - 1;
      SymbolsOfAbsent(rows[..n], cryptoId, exchange);
      RowSymbolsOther(rows[n], |Exchanges|, cryptoId, exchange);
      LastSymbolAppend(SymbolsOf(rows[..n]), RowSymbols(rows[n], |Exchanges|), cryptoId, exchange);
    }
  }

  /** With distinct ids, the symbol saved for a row and exchange is the last
      (indeed the only) one of that crypto and exchange. */
  lemma {:induction false} SymbolsOfLast(rows: seq<Row>, i: nat, e: nat)
    requires DistinctIds(rows) && i < |rows| && e < |Exchanges|
    ensures LastSymbol(SymbolsOf(rows), rows[i].id, Exchanges[e]) == Cell(rows[i], Exchanges[e])
    decreases |rows|
  {
    var n := |rows| - 1;
    var prefix := rows[..n];
    LastSymbolAppend(SymbolsOf(prefix), RowSymbols(rows[n], |Exchanges|), rows[i].id, Exchanges[e]);
    if i == n {
      RowSymbolsOwn(rows[n], |Exchanges|, e);
      SymbolsOfAbsent(prefix, rows[i].id, Exchanges[e]);
    } else {
      RowSymbolsOther(rows[n], |Exchanges|, rows[i].id, Exchanges[e]);
      assert DistinctIds(prefix);
      SymbolsOfLast(prefix, i, e);
    }
  }

  /** Round trip: loading the registry a frame was saved to gives back each
      saved coin with the pair it was saved under on each exchange. Only a
      pair spelled "nan" would not survive. */
  lemma SaveLoadRoundTrip(rows: seq<Row>)
    requires DistinctIds(rows)
    requires forall i, e :: 0 <= i < |rows| && 0 <= e < |Exchanges| ==> Cell(rows[i], Exchanges[e]) != Some("nan")
    ensures var frame := LoadedFrame(CryptosOf(rows), SymbolsOf(rows));
      && |frame| == |rows|
      && (forall i :: 0 <= i < |rows| ==> frame[i].crypto == CryptoOf(rows[i]))
      && (forall i, e :: 0 <= i < |rows| && 0 <= e < |Exchanges| ==> frame[i].pairs[e] == Cell(rows[i], Exchanges[e]))
  {
    var frame := LoadedFrame(CryptosOf(rows), SymbolsOf(rows));
    forall i, e | 0 <= i < |rows| && 0 <= e < |Exchanges|
      ensures frame[i].pairs[e] == Cell(rows[i], Exchanges[e])
    {
      SymbolsOfLast(rows, i, e);
    }
  }

  /** A reconciled pair ends in "/USDT", so it is never read back as NaN. */
  lemma ReconciledNeverNan(rows: seq<Row>, i: nat, e: nat)
    requires i < |rows| && e < |Exchanges|
    requires Cell(rows[i], Exchanges[e]).Some? ==>
      Cell(rows[i], Exchanges[e]).value == rows[i].symbol + "/USDT" || Cell(rows[i], Exchanges[e]).value == Upper(rows[i].name) + "/USDT"
    ensures Cell(rows[i], Exchanges[e]) != Some("nan")
  {
    var c := Cell(rows[i], Exchanges[e]);
    if c.Some? {
      assert |c.value| >= 5;
    }
  }

  // ---------------------------------------------------------------------
  // Saving the aggregator's listing (`_save_cmc_coins_to_database`)

  predicate HasCrypto(cryptos: seq<Crypto>, id: int) {
    exists j :: 0 <= j < |cryptos| && cryptos[j].cmcId == id
  }

  predicate IdIn(coins: seq<CmcCoin>, id: int) {
    exists j :: 0 <= j < |coins| && coins[j].id == id
  }

  /** The tag names a coin lists; a coin without `tags` has none. */
  function TagsOf(c: CmcCoin): seq<string> {
    c.tags.GetOr([])
  }

  predicate NoDuplicates(names: seq<string>) {
    forall i, j :: 0 <= i < j < |names| ==> names[i] != names[j]
  }

  /** Why storing coin `c` raises, after `earlier` were stored: no registry
      row with its id (`Crypto.objects.get`), a NOT NULL column left empty or
      a second market-data row for the same crypto (one-to-one), or the same
      tag twice (unique crypto-tag pair). */
  function CoinError(cryptos: seq<Crypto>, earlier: seq<CmcCoin>, c: CmcCoin): Option<DbError> {
    if !HasCrypto(cryptos, c.id) then Some(DoesNotExist)
    else if c.cmcRank.None? || c.lastUpdated.None? || IdIn(earlier, c.id) then Some(IntegrityError)
    else if !NoDuplicates(TagsOf(c)) then Some(IntegrityError)
    else None
  }

  /** The position of the first coin whose store raises, if any. */
  function FirstFailure(cryptos: seq<Crypto>, coins: seq<CmcCoin>): (f: Option<nat>)
    ensures f.Some? ==> f.value < |coins| && CoinError(cryptos, coins[..f.value], coins[f.value]).Some?
    ensures f.Some? ==> forall k :: 0 <= k < f.value ==> CoinError(cryptos, coins[..k], coins[k]).None?
    ensures f.None? ==> forall k :: 0 <= k < |coins| ==> CoinError(cryptos, coins[..k], coins[k]).None?
  {
    if coins == [] then None
    else
      var n := |coins| - 1;
      var prefix := coins[..n];
      assert forall k :: 0 <= k < n ==> prefix[..k] == coins[..k] && prefix[k] == coins[k];
      match FirstFailure(cryptos, prefix)
      case Some(k) => Some(k)
      case None => if CoinError(cryptos, prefix, coins[n]).Some? then Some(n) else None
  }

  function MarketRow(c: CmcCoin): MarketData
    requires c.cmcRank.Some? && c.lastUpdated.Some?
  {
    MarketData(c.id, c.cmcRank.value, c.maxSupply, c.circulatingSupply, c.totalSupply,
               c.infiniteSupply.GetOr(false), c.numMarketPairs.GetOr(0), c.lastUpdated.value)
  }

  /** The market-data rows of a stored listing, one per coin, in order. */
  function MarketRows(coins: seq<CmcCoin>): (m: seq<MarketData>)
    requires forall k :: 0 <= k < |coins| ==> coins[k].cmcRank.Some? && coins[k].lastUpdated.Some?
    ensures |m| == |coins|
    ensures forall k :: 0 <= k < |coins| ==> m[k] == MarketRow(coins[k])
  {
    seq(|coins|, k requires 0 <= k < |coins| => MarketRow(coins[k]))
  }

  /** `CMCTag.objects.get_or_create` for each name in turn. */
  function AddTags(table: seq<string>, names: seq<string>): seq<string> {
    if names == [] then table
    else
      var t := AddTags(table, names[..|names| - 1]);
      if names[|names| - 1] in t then t else t + [names[|names| - 1]]
  }

  /** The tag table gains exactly the new names and keeps no name twice. */
  lemma {:induction false} AddTagsSpec(table: seq<string>, names: seq<string>)
    requires NoDuplicates(table)
    ensures NoDuplicates(AddTags(table, names))
    ensures forall x :: x in AddTags(table, names) <==> x in table || x in names
  {
    if names != [] {
      var n := |names| - 1;
      AddTagsSpec(table, names[..n]);
      assert names == names[..n] + [names[n]];
    }
  }

  /** The tag table after a listing is stored from an empty one. */
  function TagTable(coins: seq<CmcCoin>): seq<string> {
    if coins == [] then []
    else AddTags(TagTable(coins[..|coins| - 1]), TagsOf(coins[|coins| - 1]))
  }

  function CoinTags(c: CmcCoin): (t: seq<CryptoTag>)
    ensures |t| == |TagsOf(c)|
    ensures forall j :: 0 <= j < |t| ==> t[j] == CryptoTag(c.id, TagsOf(c)[j])
  {
    seq(|TagsOf(c)|, j requires 0 <= j < |TagsOf(c)| => CryptoTag(c.id, TagsOf(c)[j]))
  }

  /** The crypto-tag links of a stored listing, coin by coin. */
  function CryptoTagsOf(coins: seq<CmcCoin>): seq<CryptoTag> {
    if coins == [] then []
    else CryptoTagsOf(coins[..|coins| - 1]) + CoinTags(coins[|coins| - 1])
  }

  /** The listing's tags are stored once each, and a coin is linked to
      exactly the tags it lists. */
  lemma TagsStored(coins: seq<CmcCoin>, x: string, link: CryptoTag)
    ensures NoDuplicates(TagTable(coins))
    ensures x in TagTable(coins) <==> exists k :: 0 <= k < |coins| && x in TagsOf(coins[k])
    ensures link in CryptoTagsOf(coins) <==> exists k :: 0 <= k < |coins| && link.cryptoId == coins[k].id && link.tag in TagsOf(coins[k])
  {
    TagTableSpec(coins, x);
    CryptoTagsSpec(coins, link);
  }

  lemma {:induction false} TagTableSpec(coins: seq<CmcCoin>, x: string)
    ensures NoDuplicates(TagTable(coins))
    ensures x in TagTable(coins) <==> exists k :: 0 <= k < |coins| && x in TagsOf(coins[k])
  {
    if coins != [] {
      var n := |coins| - 1;
      TagTableSpec(coins[..n], x);
      AddTagsSpec(TagTable(coins[..n]), TagsOf(coins[n]));
      assert forall k :: 0 <= k < n ==> coins[..n][k] == coins[k];
    }
  }

  lemma {:induction false} CryptoTagsSpec(coins: seq<CmcCoin>, link: CryptoTag)
    ensures link in CryptoTagsOf(coins) <==> exists k :: 0 <= k < |coins| && link.cryptoId == coins[k].id && link.tag in TagsOf(coins[k])
  {
    if coins != [] {
      var n := |coins| - 1;
      var prefix := coins[..n];
      CryptoTagsSpec(prefix, link);
      CoinTagsMembers(coins[n], link);
      assert CryptoTagsOf(coins) == CryptoTagsOf(prefix) + CoinTags(coins[n]);
      if link in CryptoTagsOf(prefix) {
        var k :| 0 <= k < n && link.cryptoId == prefix[k].id && link.tag in TagsOf(prefix[k]);
        assert prefix[k] == coins[k];
      }
      if exists k :: 0 <= k < |coins| && link.cryptoId == coins[k].id && link.tag in TagsOf(coins[k]) {
        var k :| 0 <= k < |coins| && link.cryptoId == coins[k].id && link.tag in TagsOf(coins[k]);
        if k < n {
          assert prefix[k] == coins[k];
        }
      }
    }
  }

  /** A coin is linked to exactly its own tags. */
  lemma CoinTagsMembers(c: CmcCoin, link: CryptoTag)
    ensures link in CoinTags(c) <==> link.cryptoId == c.id && link.tag in TagsOf(c)
  {
    if link in CoinTags(c) {
      var j :| 0 <= j < |CoinTags(c)| && CoinTags(c)[j] == link;
      assert link.tag == TagsOf(c)[j];
    }
    if link.cryptoId == c.id && link.tag in TagsOf(c) {
      var j :| 0 <= j < |TagsOf(c)| && TagsOf(c)[j] == link.tag;
      assert CoinTags(c)[j] == link;
    }
  }

  function OptNum(v: Option<int>): Json {
    match v
    case Some(n) => JNum(n)
    case None => JNull
  }

  function OptStr(v: Option<string>): Json {
    match v
    case Some(s) => JStr(s)
    case None => JNull
  }

  /** The listing entry of a coin as the JSON object it arrived as (the
      fields the core reads). */
  function CoinJson(c: CmcCoin): Json {
    JObj(map[
      "id" := JNum(c.id),
      "symbol" := JStr(c.symbol),
      "name" := JStr(c.name),
      "cmc_rank" := OptNum(c.cmcRank),
      "max_supply" := OptNum(c.maxSupply),
      "circulating_supply" := OptNum(c.circulatingSupply),
      "total_supply" := OptNum(c.totalSupply),
      "infinite_supply" := (match c.infiniteSupply case Some(b) => JBool(b) case None => JNull),
      "num_market_pairs" := OptNum(c.numMarketPairs),
      "last_updated" := OptStr(c.lastUpdated),
      "tags" := (match c.tags case Some(ts) => JArr(seq(|ts|, j requires 0 <= j < |ts| => JStr(ts[j]))) case None => JNull),
      "platform" := (match c.platform case Some(p) => JObj(map["symbol" := OptStr(p.symbol)]) case None => JNull)
    ])
  }

  /** The cache key of a coin's listing entry. */
  function CmcDataKey(c: CmcCoin): string {
    c.symbol + "_CMCData"
  }

  /** The cache after the entries of `coins` were written in order; a later
      coin with the same symbol overwrites an earlier one. */
  function CmcCacheWrites(cache: map<string, Json>, coins: seq<CmcCoin>): (r: map<string, Json>)
    ensures forall x :: x in r <==> x in cache || exists k :: 0 <= k < |coins| && x == CmcDataKey(coins[k])
  {
    if coins == [] then cache
    else
      var n := |coins| - 1;
      assert forall k :: 0 <= k < n ==> coins[..n][k] == coins[k];
      CmcCacheWrites(cache, coins[..n])[CmcDataKey(coins[n]) := CoinJson(coins[n])]
  }

  /** Every coin stored: its id names a registry row, it lists each tag once,
      and no earlier coin has its id. */
  lemma {:induction false} StoredCoinsRegistered(cryptos: seq<Crypto>, coins: seq<CmcCoin>)
    requires FirstFailure(cryptos, coins).None?
    ensures forall k :: 0 <= k < |coins| ==> HasCrypto(cryptos, coins[k].id) && NoDuplicates(TagsOf(coins[k]))
    ensures forall k, l :: 0 <= k < l < |coins| ==> coins[k].id != coins[l].id
  {
    forall k, l | 0 <= k < l < |coins|
      ensures coins[k].id != coins[l].id
    {
      assert CoinError(cryptos, coins[..l], coins[l]).None?;
      assert coins[..l][k] == coins[k];
    }
  }

  /** The listing as written is stored whole only if every coin of it is in
      the registry: one coin missing from it aborts the store. */
  lemma UnregisteredCoinAborts(cryptos: seq<Crypto>, coins: seq<CmcCoin>, k: nat)
    requires k < |coins| && !HasCrypto(cryptos, coins[k].id)
    ensures FirstFailure(cryptos, coins).Some?
    ensures FirstFailure(cryptos, coins).value <= k
  {
    assert CoinError(cryptos, coins[..k], coins[k]).Some?;
  }

  /** The registry the reconciliation saves holds only ids of the filtered
      listing. */
  lemma RegistryIdsFromListing(coins: seq<CmcCoin>, tickers: map<string, map<string, Json>>, id: int)
    requires Reconciled(coins, tickers).Ok?
    requires HasCrypto(CryptosOf(Reconciled(coins, tickers).value), id)
    ensures IdIn(coins, id)
  {
    var rows := Reconciled(coins, tickers).value;
    var j :| 0 <= j < |CryptosOf(rows)| && CryptosOf(rows)[j].cmcId == id;
    ReconciledRowFromListing(coins, tickers, rows[j]);
  }

  lemma ReconciledRowFromListing(coins: seq<CmcCoin>, tickers: map<string, map<string, Json>>, r: Row)
    requires Reconciled(coins, tickers).Ok? && r in Reconciled(coins, tickers).value
    ensures IdIn(coins, r.id)
  {
    var prepared := PrepareRows(coins).value;
    var deduped := DedupColumns(AssignPairs(prepared, tickers, Exchanges), Exchanges);
    assert r in deduped;
    var i :| 0 <= i < |deduped| && deduped[i] == r;
    PipelineCoin(prepared, tickers, i);
    assert coins[i].id == r.id;
  }

  /** The coins of a listing that have a registry row, in order: what a
      store that skips unregistered ids would store. */
  function RegisteredCoins(cryptos: seq<Crypto>, coins: seq<CmcCoin>): (r: seq<CmcCoin>)
    ensures forall c :: c in r <==> c in coins && HasCrypto(cryptos, c.id)
  {
    if coins == [] then []
    else
      var n := |coins| - 1;
      if HasCrypto(cryptos, coins[n].id) then RegisteredCoins(cryptos, coins[..n]) + [coins[n]]
      else RegisteredCoins(cryptos, coins[..n])
  }

  /** A listing the database can hold: every coin has a rank and an update
      time, lists each tag once, and no two coins share an id. */
  predicate Storable(coins: seq<CmcCoin>) {
    && (forall k :: 0 <= k < |coins| ==> coins[k].cmcRank.Some? && coins[k].lastUpdated.Some? && NoDuplicates(TagsOf(coins[k])))
    && (forall k, l :: 0 <= k < l < |coins| ==> coins[k].id != coins[l].id)
  }

  /** Skipping unregistered ids, a storable listing is stored whole whatever
      stablecoins or unlisted coins it also carries. */
  lemma RegisteredListingStores(cryptos: seq<Crypto>, coins: seq<CmcCoin>)
    requires Storable(coins)
    ensures Storable(RegisteredCoins(cryptos, coins))
    ensures FirstFailure(cryptos, RegisteredCoins(cryptos, coins)).None?
  {
    RegisteredStorable(cryptos, coins);
    var r := RegisteredCoins(cryptos, coins);
    forall k | 0 <= k < |r|
      ensures CoinError(cryptos, r[..k], r[k]).None?
    {
      assert r[k] in r;
      assert !IdIn(r[..k], r[k].id) by {
        forall j | 0 <= j < k
          ensures r[..k][j].id != r[k].id
        {
          assert r[..k][j] == r[j];
        }
      }
    }
  }

  /** Skipping unregistered ids keeps a storable listing storable. */
  lemma {:induction false} RegisteredStorable(cryptos: seq<Crypto>, coins: seq<CmcCoin>)
    requires Storable(coins)
    ensures Storable(RegisteredCoins(cryptos, coins))
  {
    if coins != [] {
      var n := |coins| - 1;
      var prefix := coins[..n];
      assert Storable(prefix) by {
        assert forall k :: 0 <= k < n ==> prefix[k] == coins[k];
      }
      RegisteredStorable(cryptos, prefix);
      var rp := RegisteredCoins(cryptos, prefix);
      if HasCrypto(cryptos, coins[n].id) {
        var r := rp + [coins[n]];
        assert RegisteredCoins(cryptos, coins) == r;
        forall k | 0 <= k < |rp| ensures rp[k].id != coins[n].id {
          assert rp[k] in prefix;
          var j :| 0 <= j < n && prefix[j] == rp[k];
          assert coins[j] == rp[k];
        }
        forall k, l | 0 <= k < l < |r| ensures r[k].id != r[l].id {
          if l == |rp| {
            assert r[k] == rp[k];
          } else {
            assert r[k] == rp[k] && r[l] == rp[l];
          }
        }
        forall k | 0 <= k < |r|
          ensures r[k].cmcRank.Some? && r[k].lastUpdated.Some? && NoDuplicates(TagsOf(r[k]))
        {
          if k < |rp| {
            assert r[k] == rp[k];
          }
        }
      }
    }
  }
}
