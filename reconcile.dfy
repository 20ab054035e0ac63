/** Symbol reconciliation of `CoinHandler` (exchange_webservice/crawler/real_time.py):
    the coins frame built from the aggregator's listing, one column per
    exchange holding the trading pair the coin is listed under there, the
    per-column duplicate removal, and the drop of coins listed nowhere.

    A frame row is a `Row`; its exchange columns are the map `cells` (a
    column not yet added, and pandas NaN, are both None). */
module Reconcile {
  import opened Wrappers
  import opened Json
  import opened Cmc

  /** `ExchangeConnector.Exchanges` (crawler/connector.py), in priority order. */
  const Exchanges: seq<string> := ["bingx", "xt", "lbank", "coinex"]

  /** The four exchange names are distinct. */
  lemma ExchangesDistinct()
    ensures forall i, j :: 0 <= i < j < |Exchanges| ==> Exchanges[i] != Exchanges[j]
  {
    assert Exchanges[0][0] == 'b' && Exchanges[2][0] == 'l';
  }

  datatype Row = Row(
    id: int,
    symbol: string,
    name: string,
    symbolUsdt: string,
    nameUsdt: string,
    isMain: bool,
    cells: map<string, Option<string>>)

  /** The frame cannot be built: `json_normalize` of an empty list has no
      `id` column, so selecting it raises KeyError. */
  datatype FrameError = NoCoins

  function UpperChar(c: char): char {
    if 'a' <= c <= 'z' then (c as int - 32) as char else c
  }

  /** `str.upper`, for ASCII letters. */
  function Upper(s: string): (r: string)
    ensures |r| == |s|
    ensures forall i :: 0 <= i < |s| && 'a' <= s[i] <= 'z' ==> r[i] as int == s[i] as int - 32
    ensures forall i :: 0 <= i < |s| && !('a' <= s[i] <= 'z') ==> r[i] == s[i]
    ensures forall i :: 0 <= i < |r| ==> !('a' <= r[i] <= 'z')
  {
    seq(|s|, i requires 0 <= i < |s| => UpperChar(s[i]))
  }

  const UsdtSuffix: string := "/USDT"

  /** Some coin's `platform` names `symbol` as its host chain. */
  predicate IsPlatformSymbol(coins: seq<CmcCoin>, symbol: string) {
    exists k :: 0 <= k < |coins| && coins[k].platform.Some? && coins[k].platform.value.symbol == Some(symbol)
  }

  /** The set `platforms` of line 109, without the None a platform lacking a
      symbol contributes (no coin symbol equals it). */
  function Platforms(coins: seq<CmcCoin>): (p: set<string>)
    ensures forall s :: s in p <==> IsPlatformSymbol(coins, s)
  {
    if coins == [] then {}
    else
      var head := if coins[0].platform.Some? && coins[0].platform.value.symbol.Some?
                  then {coins[0].platform.value.symbol.value} else {};
      var rest := Platforms(coins[1..]);
      assert forall s :: IsPlatformSymbol(coins, s) <==>
        (coins[0].platform.Some? && coins[0].platform.value.symbol == Some(s)) || IsPlatformSymbol(coins[1..], s) by {
        forall s | IsPlatformSymbol(coins, s) && !(coins[0].platform.Some? && coins[0].platform.value.symbol == Some(s))
          ensures IsPlatformSymbol(coins[1..], s)
        {
          var k :| 0 <= k < |coins| && coins[k].platform.Some? && coins[k].platform.value.symbol == Some(s);
          assert coins[1..][k - 1] == coins[k];
        }
        forall s | IsPlatformSymbol(coins[1..], s) ensures IsPlatformSymbol(coins, s) {
          var k :| 0 <= k < |coins[1..]| && coins[1..][k].platform.Some? && coins[1..][k].platform.value.symbol == Some(s);
          assert coins[k + 1] == coins[1..][k];
        }
      }
      head + rest
  }

  function PrepareRow(c: CmcCoin, platforms: set<string>): Row {
    Row(c.id, c.symbol, c.name, c.symbol + UsdtSuffix, Upper(c.name) + UsdtSuffix, c.symbol in platforms, map[])
  }

  /** `_prepare_tf_coins_dataframe`: one row per listed coin, in order, with
      its two candidate pairs and its `is_main` flag. */
  function PrepareRows(coins: seq<CmcCoin>): (r: Result<seq<Row>, FrameError>)
    ensures r.Err? <==> coins == []
    ensures r.Ok? ==> |r.value| == |coins|
    ensures r.Ok? ==> forall i :: 0 <= i < |coins| ==>
      && r.value[i].id == coins[i].id && r.value[i].symbol == coins[i].symbol && r.value[i].name == coins[i].name
      && r.value[i].symbolUsdt == coins[i].symbol + "/USDT"
      && r.value[i].nameUsdt == Upper(coins[i].name) + "/USDT"
      && (r.value[i].isMain <==> IsPlatformSymbol(coins, coins[i].symbol))
      && r.value[i].cells == map[]
  {
    if coins == [] then Err(NoCoins)
    else
      var platforms := Platforms(coins);
      Ok(seq(|coins|, i requires 0 <= i < |coins| => PrepareRow(coins[i], platforms)))
  }

  /** The value in column `ex` of a row; NaN and a missing column are None. */
  function Cell(r: Row, ex: string): Option<string> {
    if ex in r.cells then r.cells[ex] else None
  }

  function Column(rows: seq<Row>, ex: string): (col: seq<Option<string>>)
    ensures |col| == |rows|
    ensures forall i :: 0 <= i < |rows| ==> col[i] == Cell(rows[i], ex)
  {
    seq(|rows|, i requires 0 <= i < |rows| => Cell(rows[i], ex))
  }

  /** Assigning a whole column: `tf_coins_data[ex] = col`. */
  function SetColumn(rows: seq<Row>, ex: string, col: seq<Option<string>>): (r: seq<Row>)
    requires |col| == |rows|
    ensures |r| == |rows|
    ensures forall i :: 0 <= i < |rows| ==> r[i] == rows[i].(cells := rows[i].cells[ex := col[i]])
  {
    seq(|rows|, i requires 0 <= i < |rows| => rows[i].(cells := rows[i].cells[ex := col[i]]))
  }

  /** The ticker symbols of one exchange; none when its fetch failed. */
  function TickerKeys(tickers: map<string, map<string, Json>>, ex: string): set<string> {
    if ex in tickers then tickers[ex].Keys else {}
  }

  /** The pair a coin gets on an exchange: its symbol pair if listed, else
      its name pair if listed, else nothing. */
  function PairFor(r: Row, keys: set<string>): Option<string> {
    if r.symbolUsdt in keys then Some(r.symbolUsdt)
    else if r.nameUsdt in keys then Some(r.nameUsdt)
    else None
  }

  /** Lines 125-132: the column of one exchange, first all NaN, then the
      symbol matches, then the name matches of rows without a symbol match. */
  function MatchColumn(rows: seq<Row>, keys: set<string>): (col: seq<Option<string>>)
    ensures |col| == |rows|
    ensures forall i :: 0 <= i < |rows| ==> col[i] == PairFor(rows[i], keys)
  {
    seq(|rows|, i requires 0 <= i < |rows| => PairFor(rows[i], keys))
  }

  /** The frame after `_process_exchange_data` has handled exchanges `exs`, in order. */
  function AssignPairs(rows: seq<Row>, tickers: map<string, map<string, Json>>, exs: seq<string>): seq<Row>
    decreases |exs|
  {
    if exs == [] then rows
    else AssignPairs(SetColumn(rows, exs[0], MatchColumn(rows, TickerKeys(tickers, exs[0]))), tickers, exs[1..])
  }

  /** Two rows agree on everything but their exchange columns. */
  predicate SameCoin(a: Row, b: Row) {
    a.id == b.id && a.symbol == b.symbol && a.name == b.name && a.symbolUsdt == b.symbolUsdt
      && a.nameUsdt == b.nameUsdt && a.isMain == b.isMain
  }

  predicate SameCoins(a: seq<Row>, b: seq<Row>) {
    |a| == |b| && forall i :: 0 <= i < |a| ==> SameCoin(a[i], b[i])
  }

  /** Each handled exchange's column holds exactly the matched pairs; every
      other column and the coin fields are untouched. */
  lemma {:induction false} AssignPairsColumns(rows: seq<Row>, tickers: map<string, map<string, Json>>, exs: seq<string>)
    ensures SameCoins(AssignPairs(rows, tickers, exs), rows)
    ensures forall ex :: ex in exs ==>
      Column(AssignPairs(rows, tickers, exs), ex) == MatchColumn(rows, TickerKeys(tickers, ex))
    ensures forall ex :: ex !in exs ==> Column(AssignPairs(rows, tickers, exs), ex) == Column(rows, ex)
    decreases |exs|
  {
    if exs != [] {
      var next := SetColumn(rows, exs[0], MatchColumn(rows, TickerKeys(tickers, exs[0])));
      AssignPairsColumns(next, tickers, exs[1..]);
      assert SameCoins(next, rows);
      forall ex ensures MatchColumn(next, TickerKeys(tickers, ex)) == MatchColumn(rows, TickerKeys(tickers, ex)) {
      }
      forall ex | ex !in exs[1..]
        ensures Column(AssignPairs(rows, tickers, exs), ex) == (if ex == exs[0] then MatchColumn(rows, TickerKeys(tickers, ex)) else Column(rows, ex))
      {
      }
    }
  }

  /** `duplicated(subset=ex, keep='first')` set to NaN: a pair already
      matched to an earlier row of the column is removed. */
  function DedupColumn(col: seq<Option<string>>): (r: seq<Option<string>>)
    ensures |r| == |col|
    ensures forall i :: 0 <= i < |col| ==> r[i] == (if col[i].Some? && col[i] in col[..i] then None else col[i])
  {
    seq(|col|, i requires 0 <= i < |col| => if col[i].Some? && col[i] in col[..i] then None else col[i])
  }

  /** No pair is matched twice within one column. */
  predicate Injective(col: seq<Option<string>>) {
    forall i, j :: 0 <= i < j < |col| && col[i].Some? ==> col[i] != col[j]
  }

  lemma DedupColumnInjective(col: seq<Option<string>>)
    ensures Injective(DedupColumn(col))
  {
    var r := DedupColumn(col);
    forall i, j | 0 <= i < j < |col| && r[i].Some?
      ensures r[i] != r[j]
    {
      if r[j].Some? {
        assert col[i] in col[..j];
      }
    }
  }

  /** Every pair of the column survives, at the row that held it first. */
  lemma DedupColumnKeepsEveryPair(col: seq<Option<string>>, v: string)
    requires Some(v) in col
    ensures Some(v) in DedupColumn(col)
  {
    var i :| 0 <= i < |col| && col[i] == Some(v);
    while Some(v) in col[..i]
      invariant 0 <= i < |col| && col[i] == Some(v)
      decreases i
    {
      var k :| 0 <= k < |col[..i]| && col[..i][k] == Some(v);
      i := k;
    }
    assert DedupColumn(col)[i] == Some(v);
  }

  /** Removing duplicates again changes nothing. */
  lemma DedupColumnIdempotent(col: seq<Option<string>>)
    ensures DedupColumn(DedupColumn(col)) == DedupColumn(col)
  {
    var r := DedupColumn(col);
    DedupColumnInjective(col);
    forall i | 0 <= i < |r| && r[i].Some?
      ensures r[i] !in r[..i]
    {
    }
  }

  /** The frame after `_remove_tf_coins_data_duplicates` has handled `exs`. */
  function DedupColumns(rows: seq<Row>, exs: seq<string>): seq<Row>
    decreases |exs|
  {
    if exs == [] then rows
    else DedupColumns(SetColumn(rows, exs[0], DedupColumn(Column(rows, exs[0]))), exs[1..])
  }

  /** Each handled column is deduplicated, the others are untouched. */
  lemma {:induction false} DedupColumnsSpec(rows: seq<Row>, exs: seq<string>)
    ensures SameCoins(DedupColumns(rows, exs), rows)
    ensures forall ex :: ex in exs ==> Column(DedupColumns(rows, exs), ex) == DedupColumn(Column(rows, ex))
    ensures forall ex :: ex !in exs ==> Column(DedupColumns(rows, exs), ex) == Column(rows, ex)
    decreases |exs|
  {
    if exs != [] {
      var next := SetColumn(rows, exs[0], DedupColumn(Column(rows, exs[0])));
      DedupColumnsSpec(next, exs[1..]);
      assert Column(next, exs[0]) == DedupColumn(Column(rows, exs[0]));
      DedupColumnIdempotent(Column(rows, exs[0]));
      forall ex | ex != exs[0] ensures Column(next, ex) == Column(rows, ex) {
      }
    }
  }

  /** Some exchange column of the row holds a pair. */
  predicate Listed(r: Row) {
    Cell(r, "bingx").Some? || Cell(r, "xt").Some? || Cell(r, "lbank").Some? || Cell(r, "coinex").Some?
  }

  /** `dropna(subset=Exchanges, how='all')`. */
  function DropUnlisted(rows: seq<Row>): (r: seq<Row>)
    ensures forall x :: x in r <==> x in rows && Listed(x)
    ensures |r| <= |rows|
  {
    if rows == [] then []
    else if Listed(rows[0]) then [rows[0]] + DropUnlisted(rows[1..])
    else DropUnlisted(rows[1..])
  }

  /** The drop keeps the surviving rows in their order. */
  lemma {:induction false} DropUnlistedAppend(a: seq<Row>, b: seq<Row>)
    ensures DropUnlisted(a + b) == DropUnlisted(a) + DropUnlisted(b)
  {
    if a == [] {
      assert a + b == b;
    } else {
      assert (a + b)[1..] == a[1..] + b;
      DropUnlistedAppend(a[1..], b);
    }
  }

  /** Column `ex` of `rows` has no pair twice. */
  predicate ColumnInjective(rows: seq<Row>, ex: string) {
    forall i, j :: 0 <= i < j < |rows| && Cell(rows[i], ex).Some? ==> Cell(rows[i], ex) != Cell(rows[j], ex)
  }

  /** Dropping rows cannot create a duplicate. */
  lemma {:induction false} DropUnlistedInjective(rows: seq<Row>, ex: string)
    requires ColumnInjective(rows, ex)
    ensures ColumnInjective(DropUnlisted(rows), ex)
  {
    if rows != [] {
      var tail := rows[1..];
      assert ColumnInjective(tail, ex) by {
        forall i, j | 0 <= i < j < |tail| && Cell(tail[i], ex).Some?
          ensures Cell(tail[i], ex) != Cell(tail[j], ex)
        {
          assert tail[i] == rows[i + 1] && tail[j] == rows[j + 1];
        }
      }
      DropUnlistedInjective(tail, ex);
      if Listed(rows[0]) {
        var r := DropUnlisted(rows);
        var rest := DropUnlisted(tail);
        assert r == [rows[0]] + rest;
        forall i, j | 0 <= i < j < |r| && Cell(r[i], ex).Some?
          ensures Cell(r[i], ex) != Cell(r[j], ex)
        {
          if i == 0 {
            assert r[j] == rest[j - 1] && rest[j - 1] in rest;
            HeadPairUnique(rows, ex, r[j]);
          } else {
            assert r[i] == rest[i - 1] && r[j] == rest[j - 1];
          }
        }
      }
    }
  }

  /** In an injective column, no later row holds the first row's pair. */
  lemma HeadPairUnique(rows: seq<Row>, ex: string, x: Row)
    requires ColumnInjective(rows, ex) && rows != [] && Cell(rows[0], ex).Some? && x in rows[1..]
    ensures Cell(x, ex) != Cell(rows[0], ex)
  {
    var k :| 0 <= k < |rows| - 1 && rows[1..][k] == x;
    assert rows[k + 1] == x;
  }

  /** The whole reconciliation of `get_save_tf_coins_data` (lines 90-95) on
      the filtered listing and the tickers fetched per exchange. */
  function Reconciled(coins: seq<CmcCoin>, tickers: map<string, map<string, Json>>): Result<seq<Row>, FrameError> {
    match PrepareRows(coins)
    case Err(e) => Err(e)
    case Ok(rows) => Ok(DropUnlisted(DedupColumns(AssignPairs(rows, tickers, Exchanges), Exchanges)))
  }

  /** Within one exchange no pair belongs to two surviving coins. */
  lemma ReconciledInjective(coins: seq<CmcCoin>, tickers: map<string, map<string, Json>>, ex: string)
    requires Reconciled(coins, tickers).Ok? && ex in Exchanges
    ensures ColumnInjective(Reconciled(coins, tickers).value, ex)
  {
    var prepared := PrepareRows(coins).value;
    var matched := AssignPairs(prepared, tickers, Exchanges);
    var deduped := DedupColumns(matched, Exchanges);
    DedupColumnsSpec(matched, Exchanges);
    DedupColumnInjective(Column(matched, ex));
    assert ColumnInjective(deduped, ex) by {
      forall i, j | 0 <= i < j < |deduped| && Cell(deduped[i], ex).Some?
        ensures Cell(deduped[i], ex) != Cell(deduped[j], ex)
      {
        assert Column(deduped, ex)[i] == Cell(deduped[i], ex);
        assert Column(deduped, ex)[j] == Cell(deduped[j], ex);
      }
    }
    DropUnlistedInjective(deduped, ex);
  }

  /** Every surviving coin is listed somewhere, and each pair it holds is a
      ticker symbol of that exchange and the pair matching picks for it: the
      symbol pair when listed, else the name pair. */
  lemma ReconciledPairs(coins: seq<CmcCoin>, tickers: map<string, map<string, Json>>, r: Row, ex: string)
    requires Reconciled(coins, tickers).Ok? && r in Reconciled(coins, tickers).value
    ensures Listed(r)
    ensures ex in Exchanges && Cell(r, ex).Some? ==>
      && Cell(r, ex).value in TickerKeys(tickers, ex)
      && Cell(r, ex) == PairFor(r, TickerKeys(tickers, ex))
  {
    PipelinePairs(PrepareRows(coins).value, tickers, r, ex);
  }

  lemma PipelinePairs(prepared: seq<Row>, tickers: map<string, map<string, Json>>, r: Row, ex: string)
    requires r in DropUnlisted(DedupColumns(AssignPairs(prepared, tickers, Exchanges), Exchanges))
    ensures Listed(r)
    ensures ex in Exchanges && Cell(r, ex).Some? ==> Cell(r, ex) == PairFor(r, TickerKeys(tickers, ex))
  {
    var deduped := DedupColumns(AssignPairs(prepared, tickers, Exchanges), Exchanges);
    assert r in deduped;
    if ex in Exchanges {
      var i :| 0 <= i < |deduped| && deduped[i] == r;
      PipelineCell(prepared, tickers, ex, i);
    }
  }

  /** One cell of the deduplicated frame holds the pair matching picked for its coin, or nothing. */
  lemma PipelineCell(prepared: seq<Row>, tickers: map<string, map<string, Json>>, ex: string, i: nat)
    requires ex in Exchanges && i < |DedupColumns(AssignPairs(prepared, tickers, Exchanges), Exchanges)|
    ensures var r := DedupColumns(AssignPairs(prepared, tickers, Exchanges), Exchanges)[i];
      Cell(r, ex).Some? ==> Cell(r, ex) == PairFor(r, TickerKeys(tickers, ex))
  {
    var matched := AssignPairs(prepared, tickers, Exchanges);
    assert |DedupColumns(matched, Exchanges)| == |matched| == |prepared| by {
      DedupColumnsSpec(matched, Exchanges);
      AssignPairsColumns(prepared, tickers, Exchanges);
    }
    DedupColumnsCell(matched, Exchanges, ex, i);
    AssignPairsCell(prepared, tickers, Exchanges, ex, i);
  }

  /** Matching and deduplication keep each row's coin in place. */
  lemma PipelineCoin(prepared: seq<Row>, tickers: map<string, map<string, Json>>, i: nat)
    requires i < |DedupColumns(AssignPairs(prepared, tickers, Exchanges), Exchanges)|
    ensures i < |prepared|
    ensures SameCoin(DedupColumns(AssignPairs(prepared, tickers, Exchanges), Exchanges)[i], prepared[i])
  {
    var matched := AssignPairs(prepared, tickers, Exchanges);
    AssignPairsColumns(prepared, tickers, Exchanges);
    DedupColumnsSpec(matched, Exchanges);
  }

  /** One cell of the matched frame. */
  lemma AssignPairsCell(rows: seq<Row>, tickers: map<string, map<string, Json>>, exs: seq<string>, ex: string, i: nat)
    requires ex in exs && i < |rows|
    ensures i < |AssignPairs(rows, tickers, exs)|
    ensures SameCoin(AssignPairs(rows, tickers, exs)[i], rows[i])
    ensures Cell(AssignPairs(rows, tickers, exs)[i], ex) == PairFor(rows[i], TickerKeys(tickers, ex))
  {
    AssignPairsColumns(rows, tickers, exs);
    assert Column(AssignPairs(rows, tickers, exs), ex)[i] == MatchColumn(rows, TickerKeys(tickers, ex))[i];
  }

  /** One cell of the deduplicated frame: the same pair, or nothing. */
  lemma DedupColumnsCell(rows: seq<Row>, exs: seq<string>, ex: string, i: nat)
    requires ex in exs && i < |rows|
    ensures i < |DedupColumns(rows, exs)|
    ensures SameCoin(DedupColumns(rows, exs)[i], rows[i])
    ensures Cell(DedupColumns(rows, exs)[i], ex).Some? ==> Cell(DedupColumns(rows, exs)[i], ex) == Cell(rows[i], ex)
  {
    DedupColumnsSpec(rows, exs);
    assert Column(DedupColumns(rows, exs), ex)[i] == DedupColumn(Column(rows, ex))[i];
  }

  /** The frame `get_save_tf_coins_data` works on in place. */
  class CoinsFrame {
    var rows: seq<Row>

    constructor (rows: seq<Row>)
      ensures this.rows == rows
    {
      this.rows := rows;
    }

    /** `_process_exchange_data`: one column per exchange, in order. */
    method ProcessExchangeData(tickers: map<string, map<string, Json>>)
      modifies this
      ensures rows == AssignPairs(old(rows), tickers, Exchanges)
    {
      for k := 0 to |Exchanges|
        invariant AssignPairs(old(rows), tickers, Exchanges) == AssignPairs(rows, tickers, Exchanges[k..])
      {
        var exchange := Exchanges[k];
        var tickersSet := TickerKeys(tickers, exchange);
        assert Exchanges[k..][1..] == Exchanges[k + 1..];
        rows := SetColumn(rows, exchange, MatchColumn(rows, tickersSet));
      }
    }

    /** `_remove_tf_coins_data_duplicates`: each exchange column in turn. */
    method RemoveDuplicates()
      modifies this
      ensures rows == DedupColumns(old(rows), Exchanges)
    {
      for k := 0 to |Exchanges|
        invariant DedupColumns(old(rows), Exchanges) == DedupColumns(rows, Exchanges[k..])
      {
        var exchange := Exchanges[k];
        assert Exchanges[k..][1..] == Exchanges[k + 1..];
        rows := SetColumn(rows, exchange, DedupColumn(Column(rows, exchange)));
      }
    }

    /** Line 95: rows with NaN on every exchange are dropped. */
    method DropUnlistedRows()
      modifies this
      ensures rows == DropUnlisted(old(rows))
    {
      rows := DropUnlisted(rows);
    }
  }
}
