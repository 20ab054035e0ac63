/** The read queries of the exchange web service
    (exchange_webservice/selectors.py) over the tables: filters, orderings,
    slices and aggregates, each as the rows it yields. Rows come in storage
    order wherever the query sets no ordering. */
module Selectors {
  import opened Wrappers
  import opened Json
  import opened Tables

  function Min(a: int, b: int): int { if a <= b then a else b }

  /** `qs[start:stop]` with non-negative bounds: the rows from `start` up to
      `stop`, none when `stop <= start`. */
  function Window<T>(s: seq<T>, start: nat, stop: nat): (r: seq<T>)
    ensures |r| <= |s| && |r| <= if stop <= start then 0 else stop - start
    ensures forall i :: 0 <= i < |r| ==> start + i < |s| && r[i] == s[start + i]
    ensures start < |s| && start < stop ==> |r| == Min(stop, |s|) - start
  {
    if start >= |s| || stop <= start then [] else s[start..Min(stop, |s|)]
  }

  /** Two consecutive pages make up the page that spans both. */
  lemma WindowsConcatenate<T>(s: seq<T>, start: nat, a: nat, b: nat)
    ensures Window(s, start, start + a) + Window(s, start + a, start + a + b) == Window(s, start, start + a + b)
  {
    if start < |s| && 0 < a && start + a < |s| && 0 < b {
      var stop := Min(start + a + b, |s|);
      assert s[start..stop] == s[start..start + a] + s[start + a..stop];
    } else if start < |s| && 0 < a && start + a < |s| {
      assert Window(s, start + a, start + a + b) == [];
    } else if start < |s| && 0 < a {
      assert Window(s, start + a, start + a + b) == [];
      assert Window(s, start, start + a) == s[start..|s|];
    }
  }

  // ---------------------------------------------------------------- get_crypto

  /** The `Q` of `get_crypto`: an id and a name count only when truthy, the
      two are or-ed, and with neither every crypto matches. */
  predicate MatchesCrypto(c: Crypto, cmcId: Option<int>, name: Option<string>) {
    var byId := cmcId.Some? && cmcId.value != 0;
    var byName := name.Some? && name.value != "";
    (!byId && !byName) || (byId && c.cmcId == cmcId.value) || (byName && c.name == name.value)
  }

  /** The cryptos the query matches, in storage order. */
  function MatchingCryptos(cryptos: seq<Crypto>, cmcId: Option<int>, name: Option<string>): (r: seq<Crypto>)
    ensures forall c :: c in r <==> c in cryptos && MatchesCrypto(c, cmcId, name)
    ensures |r| <= |cryptos|
    ensures (forall c :: c in cryptos ==> !MatchesCrypto(c, cmcId, name)) ==> r == []
  {
    if cryptos == [] then []
    else
      var n := |cryptos| - 1;
      if MatchesCrypto(cryptos[n], cmcId, name) then MatchingCryptos(cryptos[..n], cmcId, name) + [cryptos[n]]
      else MatchingCryptos(cryptos[..n], cmcId, name)
  }

  /** `get_crypto`: the one matching crypto; none or several raise. */
  function GetCrypto(cryptos: seq<Crypto>, cmcId: Option<int>, name: Option<string>): (r: Result<Crypto, DbError>)
    ensures r.Ok? <==> |MatchingCryptos(cryptos, cmcId, name)| == 1
    ensures r.Ok? ==> r.value in cryptos && MatchesCrypto(r.value, cmcId, name)
    ensures r == Err(DoesNotExist) <==> forall c :: c in cryptos ==> !MatchesCrypto(c, cmcId, name)
    ensures r.Err? ==> r == Err(DoesNotExist) || r == Err(MultipleObjectsReturned)
  {
    var found := MatchingCryptos(cryptos, cmcId, name);
    if |found| == 0 then Err(DoesNotExist)
    else if |found| > 1 then
      assert found[0] in found;
      Err(MultipleObjectsReturned)
    else
      assert found[0] in found;
      Ok(found[0])
  }

  /** Under the primary key, at most one crypto has a given id. */
  lemma {:induction false} AtMostOneWithId(cryptos: seq<Crypto>, id: int)
    requires id != 0 && UniqueKeys(cryptos, (c: Crypto) => c.cmcId)
    ensures |MatchingCryptos(cryptos, Some(id), None)| <= 1
    ensures (exists c :: c in cryptos && c.cmcId == id) ==> |MatchingCryptos(cryptos, Some(id), None)| == 1
  {
    if cryptos != [] {
      var n := |cryptos| - 1;
      var prefix := cryptos[..n];
      UniquePrefix(cryptos, (c: Crypto) => c.cmcId, n);
      AtMostOneWithId(prefix, id);
      if cryptos[n].cmcId == id {
        UniqueLast(cryptos, (c: Crypto) => c.cmcId);
        forall c | c in prefix
          ensures c.cmcId != id
        {
          assert c.cmcId != cryptos[n].cmcId;
        }
        assert MatchingCryptos(prefix, Some(id), None) == [];
      } else {
        assert MatchingCryptos(cryptos, Some(id), None) == MatchingCryptos(prefix, Some(id), None);
        if exists c :: c in cryptos && c.cmcId == id {
          var c :| c in cryptos && c.cmcId == id;
          assert c in prefix;
        }
      }
    }
  }

  /** Looking a crypto up by a truthy id alone succeeds exactly when a crypto has that id. */
  lemma GetCryptoById(cryptos: seq<Crypto>, id: int)
    requires id != 0 && UniqueKeys(cryptos, (c: Crypto) => c.cmcId)
    ensures GetCrypto(cryptos, Some(id), None).Ok? <==> exists c :: c in cryptos && c.cmcId == id
    ensures GetCrypto(cryptos, Some(id), None).Ok? ==> GetCrypto(cryptos, Some(id), None).value.cmcId == id
  {
    AtMostOneWithId(cryptos, id);
  }

  // ------------------------------------------------------------ get_crypto_list

  /** ASCII case folding. */
  function Lower(ch: char): char {
    if 'A' <= ch <= 'Z' then (ch as int + 32) as char else ch
  }

  function LowerStr(s: string): (r: string)
    ensures |r| == |s|
    ensures forall i :: 0 <= i < |s| && 'A' <= s[i] <= 'Z' ==> r[i] as int == s[i] as int + 32
    ensures forall i :: 0 <= i < |s| && !('A' <= s[i] <= 'Z') ==> r[i] == s[i]
    ensures forall i :: 0 <= i < |r| ==> !('A' <= r[i] <= 'Z')
  {
    seq(|s|, i requires 0 <= i < |s| => Lower(s[i]))
  }

  /** Folding twice folds no more, so the search does not depend on the case
      of either argument. */
  lemma LowerStrIdempotent(s: string)
    ensures LowerStr(LowerStr(s)) == LowerStr(s)
  {
  }

  lemma OccursAtIgnoresCase(s: string, sub: string, i: int)
    ensures OccursAt(s, sub, i) <==> OccursAt(LowerStr(s), LowerStr(sub), i)
  {
    LowerStrIdempotent(s);
    LowerStrIdempotent(sub);
  }

  /** `sub` occurs in `s` at index `i`, ignoring case. */
  predicate OccursAt(s: string, sub: string, i: int) {
    0 <= i && i + |sub| <= |s| && LowerStr(s)[i..i + |sub|] == LowerStr(sub)
  }

  /** `icontains`. */
  predicate ContainsIgnoringCase(s: string, sub: string) {
    exists i :: 0 <= i <= |s| && OccursAt(s, sub, i)
  }

  /** The `Q` of `get_crypto_list`: `is_main` when given, and a truthy search
      that must occur in the name or the full name. */
  predicate Listed(c: Crypto, isMain: Option<bool>, search: Option<string>) {
    && (isMain.None? || c.isMain == isMain.value)
    && (search.None? || search.value == ""
        || ContainsIgnoringCase(c.name, search.value) || ContainsIgnoringCase(c.fullName, search.value))
  }

  function ListedCryptos(cryptos: seq<Crypto>, isMain: Option<bool>, search: Option<string>): (r: seq<Crypto>)
    ensures forall c :: c in r <==> c in cryptos && Listed(c, isMain, search)
    ensures |r| <= |cryptos|
  {
    if cryptos == [] then []
    else
      var n := |cryptos| - 1;
      if Listed(cryptos[n], isMain, search) then ListedCryptos(cryptos[..n], isMain, search) + [cryptos[n]]
      else ListedCryptos(cryptos[..n], isMain, search)
  }

  /** `get_crypto_list`: the `[offset, offset + limit)` page of the listed
      cryptos; a negative slice bound raises. */
  function GetCryptoList(cryptos: seq<Crypto>, isMain: Option<bool>, search: Option<string>, limit: int, offset: int)
    : (r: Result<seq<Crypto>, DbError>)
    ensures r.Err? <==> offset < 0 || offset + limit < 0
    ensures r.Err? ==> r.error == NegativeIndexing
    ensures r.Ok? ==> |r.value| <= if limit <= 0 then 0 else limit
    ensures r.Ok? ==> forall c :: c in r.value ==> c in cryptos && Listed(c, isMain, search)
    ensures r.Ok? && offset == 0 && limit >= |cryptos| ==> r.value == ListedCryptos(cryptos, isMain, search)
    ensures r.Ok? ==>
      var l := ListedCryptos(cryptos, isMain, search);
      && |r.value| == (if offset >= |l| || limit <= 0 then 0 else Min(offset + limit, |l|) - offset)
      && forall i :: 0 <= i < |r.value| ==> r.value[i] == l[offset + i]
  {
    if offset < 0 || offset + limit < 0 then Err(NegativeIndexing)
    else
      var listed := ListedCryptos(cryptos, isMain, search);
      var page := Window(listed, offset, offset + limit);
      assert forall c :: c in page ==> c in listed;
      assert offset == 0 && limit >= |cryptos| ==> page == listed[0..|listed|];
      Ok(page)
  }

  /** Paging through the list loses and repeats nothing: a page followed by
      the next is the page covering both. */
  lemma PagesConcatenate(cryptos: seq<Crypto>, isMain: Option<bool>, search: Option<string>, offset: nat, a: nat, b: nat)
    ensures GetCryptoList(cryptos, isMain, search, a, offset).value
            + GetCryptoList(cryptos, isMain, search, b, offset + a).value
            == GetCryptoList(cryptos, isMain, search, a + b, offset).value
  {
    WindowsConcatenate(ListedCryptos(cryptos, isMain, search), offset, a, b);
  }

  // ------------------------------------------------------- get_exchange_symbols

  /** The `Q` of `get_exchange_symbols`: `is_active` always; the crypto when
      given; the exchange when truthy. */
  predicate SymbolSelected(s: ExchangeSymbol, cryptoId: Option<int>, exchange: Option<string>, isActive: bool) {
    && s.isActive == isActive
    && (cryptoId.None? || s.cryptoId == cryptoId.value)
    && (exchange.None? || exchange.value == "" || s.exchange == exchange.value)
  }

  /** `get_exchange_symbols`, in storage order. */
  function GetExchangeSymbols(symbols: seq<ExchangeSymbol>, cryptoId: Option<int>, exchange: Option<string>,
                              isActive: bool): (r: seq<ExchangeSymbol>)
    ensures forall s :: s in r <==> s in symbols && SymbolSelected(s, cryptoId, exchange, isActive)
    ensures |r| <= |symbols|
    ensures (forall s :: s in symbols ==> !SymbolSelected(s, cryptoId, exchange, isActive)) ==> r == []
  {
    if symbols == [] then []
    else
      var n := |symbols| - 1;
      if SymbolSelected(symbols[n], cryptoId, exchange, isActive) then
        GetExchangeSymbols(symbols[..n], cryptoId, exchange, isActive) + [symbols[n]]
      else GetExchangeSymbols(symbols[..n], cryptoId, exchange, isActive)
  }

  /** Under the unique (crypto, exchange) constraint, asking for one crypto on
      one exchange yields at most one symbol. */
  lemma {:induction false} OneSymbolPerExchange(symbols: seq<ExchangeSymbol>, cryptoId: int, exchange: string, isActive: bool)
    requires exchange != ""
    requires UniqueKeys(symbols, (s: ExchangeSymbol) => (s.cryptoId, s.exchange))
    ensures |GetExchangeSymbols(symbols, Some(cryptoId), Some(exchange), isActive)| <= 1
  {
    if symbols != [] {
      var n := |symbols| - 1;
      var prefix := symbols[..n];
      UniquePrefix(symbols, (s: ExchangeSymbol) => (s.cryptoId, s.exchange), n);
      OneSymbolPerExchange(prefix, cryptoId, exchange, isActive);
      if SymbolSelected(symbols[n], Some(cryptoId), Some(exchange), isActive) {
        UniqueLast(symbols, (s: ExchangeSymbol) => (s.cryptoId, s.exchange));
        forall s | s in prefix
          ensures !SymbolSelected(s, Some(cryptoId), Some(exchange), isActive)
        {
          assert (s.cryptoId, s.exchange) != (symbols[n].cryptoId, symbols[n].exchange);
        }
        assert GetExchangeSymbols(prefix, Some(cryptoId), Some(exchange), isActive) == [];
      }
    }
  }

  // ------------------------------------------------------ get_historical_prices

  /** The timestamp bounds of the price selectors: a falsy bound (None or 0)
      is no bound. */
  predicate InBounds(ts: int, start: Option<int>, end: Option<int>) {
    && (start.None? || start.value == 0 || ts >= start.value)
    && (end.None? || end.value == 0 || ts <= end.value)
  }

  /** The crypto's rows within the bounds, in storage order. */
  function Selected(rows: seq<PriceRow>, cryptoId: int, start: Option<int>, end: Option<int>): (r: seq<PriceRow>)
    ensures forall x :: x in r <==> x in rows && x.cryptoId == cryptoId && InBounds(x.timestamp, start, end)
    ensures |r| <= |rows|
  {
    if rows == [] then []
    else
      var n := |rows| - 1;
      var x := rows[n];
      if x.cryptoId == cryptoId && InBounds(x.timestamp, start, end) then Selected(rows[..n], cryptoId, start, end) + [x]
      else Selected(rows[..n], cryptoId, start, end)
  }

  /** Ordered by `key`, largest first. */
  predicate SortedDesc<T>(s: seq<T>, key: T -> real) {
    forall i, j :: 0 <= i < j < |s| ==> key(s[i]) >= key(s[j])
  }

  /** One step of the sort: `x` placed before the first element whose key
      it is at least. */
  function InsertDesc<T>(x: T, s: seq<T>, key: T -> real): seq<T> {
    if s == [] then [x]
    else if key(x) >= key(s[0]) then [x] + s
    else [s[0]] + InsertDesc(x, s[1..], key)
  }

  lemma {:induction false} InsertDescHead<T>(x: T, s: seq<T>, key: T -> real)
    ensures var r := InsertDesc(x, s, key);
      |r| == |s| + 1 && (r[0] == x || (s != [] && r[0] == s[0]))
  {
    if s != [] && key(x) < key(s[0]) {
      InsertDescHead(x, s[1..], key);
    }
  }

  /** Inserting into a sorted sequence keeps it sorted. */
  lemma {:induction false} InsertDescSorted<T>(x: T, s: seq<T>, key: T -> real)
    requires SortedDesc(s, key)
    ensures SortedDesc(InsertDesc(x, s, key), key)
  {
    if s != [] && key(x) < key(s[0]) {
      var rest := InsertDesc(x, s[1..], key);
      InsertDescSorted(x, s[1..], key);
      InsertDescHead(x, s[1..], key);
      var r := [s[0]] + rest;
      assert key(s[0]) >= key(rest[0]);
      forall i, j | 0 <= i < j < |r|
        ensures key(r[i]) >= key(r[j])
      {
        assert r[j] == rest[j - 1];
        if i > 0 {
          assert r[i] == rest[i - 1];
        } else if j > 1 {
          assert key(rest[0]) >= key(rest[j - 1]);
        }
      }
    }
  }

  /** Inserting adds exactly `x`. */
  lemma {:induction false} InsertDescPerm<T>(x: T, s: seq<T>, key: T -> real)
    ensures multiset(InsertDesc(x, s, key)) == multiset(s) + multiset{x}
  {
    if s != [] && key(x) < key(s[0]) {
      InsertDescPerm(x, s[1..], key);
      assert s == [s[0]] + s[1..];
    }
  }

  /** `order_by('-<key>')`: the same rows, largest key first. */
  function SortDesc<T>(s: seq<T>, key: T -> real): seq<T> {
    if s == [] then []
    else InsertDesc(s[|s| - 1], SortDesc(s[..|s| - 1], key), key)
  }

  /** The sort yields a permutation of its input, ordered largest key first. */
  lemma {:induction false} SortDescSpec<T>(s: seq<T>, key: T -> real)
    ensures SortedDesc(SortDesc(s, key), key)
    ensures multiset(SortDesc(s, key)) == multiset(s)
    ensures |SortDesc(s, key)| == |s|
  {
    if s != [] {
      var n := |s| - 1;
      SortDescSpec(s[..n], key);
      InsertDescHead(s[n], SortDesc(s[..n], key), key);
      InsertDescSorted(s[n], SortDesc(s[..n], key), key);
      InsertDescPerm(s[n], SortDesc(s[..n], key), key);
      assert s == s[..n] + [s[n]];
    }
  }

  /** A leading page of a sorted sequence holds its largest keys. */
  lemma SortedPageLeads<T>(sorted: seq<T>, key: T -> real, limit: nat)
    requires SortedDesc(sorted, key)
    ensures forall x, y :: x in sorted && x !in Window(sorted, 0, limit) && y in Window(sorted, 0, limit) ==> key(y) >= key(x)
  {
    var page := Window(sorted, 0, limit);
    forall x, y | x in sorted && x !in page && y in page
      ensures key(y) >= key(x)
    {
      var j :| 0 <= j < |sorted| && sorted[j] == x;
      var i :| 0 <= i < |page| && page[i] == y;
      assert sorted[i] == y;
      assert page == sorted[..|page|];
      assert i < j;
    }
  }

  /** The same elements, in any order. */
  lemma SameElements<T>(a: seq<T>, b: seq<T>)
    requires multiset(a) == multiset(b)
    ensures forall x :: x in a <==> x in b
  {
    forall x
      ensures x in a <==> x in b
    {
      assert x in a <==> x in multiset(a);
      assert x in b <==> x in multiset(b);
    }
  }

  /** `order_by('-<key>')[:limit]`: at most `limit` of the rows, largest key
      first; every row left out has a key no larger than any row kept, and
      with room for all, all are kept. */
  function Top<T(==)>(s: seq<T>, key: T -> real, limit: nat): (r: seq<T>)
    ensures |r| == Min(limit, |s|)
    ensures multiset(r) <= multiset(s)
    ensures SortedDesc(r, key)
    ensures forall x :: x in r ==> x in s
    ensures forall x, y :: x in s && x !in r && y in r ==> key(y) >= key(x)
    ensures |s| <= limit ==> multiset(r) == multiset(s)
  {
    var sorted := SortDesc(s, key);
    SortDescSpec(s, key);
    assert |sorted| == |multiset(sorted)| == |multiset(s)| == |s|;
    assert sorted == Window(sorted, 0, limit) + sorted[|Window(sorted, 0, limit)|..];
    SortedPageLeads(sorted, key, limit);
    SameElements(s, sorted);
    SortedPage(sorted, key, limit);
    Window(sorted, 0, limit)
  }

  /** A leading page of a sorted sequence is sorted, and with room for all it
      is the whole sequence. */
  lemma SortedPage<T>(sorted: seq<T>, key: T -> real, limit: nat)
    requires SortedDesc(sorted, key)
    ensures SortedDesc(Window(sorted, 0, limit), key)
    ensures |sorted| <= limit ==> Window(sorted, 0, limit) == sorted
  {
    var page := Window(sorted, 0, limit);
    assert forall i :: 0 <= i < |page| ==> page[i] == sorted[i];
    if |sorted| <= limit && sorted != [] {
      assert page == sorted[0..|sorted|];
    }
  }

  function Timestamp(x: PriceRow): real { x.timestamp as real }

  /** `get_historical_prices`: the crypto's rows within the bounds, newest
      first, at most `limit` of them; the rows left out are no newer than the
      rows returned, and with room for all, all are returned. */
  function GetHistoricalPrices(prices: map<PriceTable, seq<PriceRow>>, cryptoId: int, tf: string,
                               start: Option<int>, end: Option<int>, limit: int): (r: Result<seq<PriceRow>, DbError>)
    ensures TableFor(tf).None? ==> r == Err(InvalidTimeframe)
    ensures TableFor(tf).Some? ==> (r.Err? <==> limit < 0)
    ensures r.Ok? ==> |r.value| <= limit
    ensures r.Ok? ==> forall x :: x in r.value ==>
      x in Rows(prices, TableFor(tf).value) && x.cryptoId == cryptoId && InBounds(x.timestamp, start, end)
    ensures r.Ok? ==> SortedDesc(r.value, Timestamp)
    ensures r.Ok? ==>
      var all := Selected(Rows(prices, TableFor(tf).value), cryptoId, start, end);
      && |r.value| == Min(limit, |all|)
      && multiset(r.value) <= multiset(all)
      && (forall x, y :: x in all && x !in r.value && y in r.value ==> Timestamp(y) >= Timestamp(x))
      && (|all| <= limit ==> multiset(r.value) == multiset(all))
  {
    match TableFor(tf)
    case None => Err(InvalidTimeframe)
    case Some(t) =>
      if limit < 0 then Err(NegativeIndexing)
      else
        Ok(Top(Selected(Rows(prices, t), cryptoId, start, end), Timestamp, limit))
  }

  // ------------------------------------------------------- get_price_statistics

  /** `m` is the largest of `xs`, and None exactly when `xs` is empty. */
  predicate IsMax(m: Option<int>, xs: seq<int>) {
    (m.None? <==> xs == []) && (m.Some? ==> m.value in xs && forall x :: x in xs ==> x <= m.value)
  }

  predicate IsMin(m: Option<int>, xs: seq<int>) {
    (m.None? <==> xs == []) && (m.Some? ==> m.value in xs && forall x :: x in xs ==> m.value <= x)
  }

  /** `Max`, as the database aggregates it; NULL over no rows. */
  function MaxOf(xs: seq<int>): (r: Option<int>)
    ensures IsMax(r, xs)
  {
    if xs == [] then None
    else
      var n := |xs| - 1;
      assert xs == xs[..n] + [xs[n]];
      match MaxOf(xs[..n])
      case None => Some(xs[n])
      case Some(m) => Some(if xs[n] > m then xs[n] else m)
  }

  /** `Min`, as the database aggregates it; NULL over no rows. */
  function MinOf(xs: seq<int>): (r: Option<int>)
    ensures IsMin(r, xs)
  {
    if xs == [] then None
    else
      var n := |xs| - 1;
      assert xs == xs[..n] + [xs[n]];
      match MinOf(xs[..n])
      case None => Some(xs[n])
      case Some(m) => Some(if xs[n] < m then xs[n] else m)
  }

  function Highs(rows: seq<PriceRow>): (r: seq<int>)
    ensures |r| == |rows| && forall i :: 0 <= i < |rows| ==> r[i] == rows[i].high
  {
    seq(|rows|, i requires 0 <= i < |rows| => rows[i].high)
  }

  function Lows(rows: seq<PriceRow>): (r: seq<int>)
    ensures |r| == |rows| && forall i :: 0 <= i < |rows| ==> r[i] == rows[i].low
  {
    seq(|rows|, i requires 0 <= i < |rows| => rows[i].low)
  }

  function Volumes(rows: seq<PriceRow>): (r: seq<int>)
    ensures |r| == |rows| && forall i :: 0 <= i < |rows| ==> r[i] == rows[i].volume
  {
    seq(|rows|, i requires 0 <= i < |rows| => rows[i].volume)
  }

  /** The extremes `get_price_statistics` reports; the averages are not modelled. */
  datatype Stats = Stats(maxPrice: Option<int>, minPrice: Option<int>, maxVolume: Option<int>, minVolume: Option<int>)

  /** `get_price_statistics`: the price maximum is the largest high and the
      price minimum the smallest low over the selected rows; all are None when
      no row is selected. */
  function GetPriceStatistics(prices: map<PriceTable, seq<PriceRow>>, cryptoId: int, tf: string,
                              start: Option<int>, end: Option<int>): (r: Result<Stats, DbError>)
    ensures TableFor(tf).None? <==> r.Err?
    ensures r.Err? ==> r.error == InvalidTimeframe
    ensures r.Ok? ==>
      var rows := Selected(Rows(prices, TableFor(tf).value), cryptoId, start, end);
      && IsMax(r.value.maxPrice, Highs(rows)) && IsMin(r.value.minPrice, Lows(rows))
      && IsMax(r.value.maxVolume, Volumes(rows)) && IsMin(r.value.minVolume, Volumes(rows))
  {
    match TableFor(tf)
    case None => Err(InvalidTimeframe)
    case Some(t) =>
      var rows := Selected(Rows(prices, t), cryptoId, start, end);
      Ok(Stats(MaxOf(Highs(rows)), MinOf(Lows(rows)), MaxOf(Volumes(rows)), MinOf(Volumes(rows))))
  }

  /** The price maximum is attained by a selected row, and no selected row's
      high exceeds it. */
  lemma MaxPriceAttained(prices: map<PriceTable, seq<PriceRow>>, cryptoId: int, tf: string,
                         start: Option<int>, end: Option<int>)
    requires GetPriceStatistics(prices, cryptoId, tf, start, end).Ok?
    ensures
      var rows := Selected(Rows(prices, TableFor(tf).value), cryptoId, start, end);
      var m := GetPriceStatistics(prices, cryptoId, tf, start, end).value.maxPrice;
      && (m.Some? ==> exists x :: x in rows && x.high == m.value)
      && (forall x :: x in rows ==> m.Some? && x.high <= m.value)
  {
    var rows := Selected(Rows(prices, TableFor(tf).value), cryptoId, start, end);
    var m := GetPriceStatistics(prices, cryptoId, tf, start, end).value.maxPrice;
    if m.Some? {
      var i :| 0 <= i < |rows| && Highs(rows)[i] == m.value;
      assert rows[i] in rows;
    }
    forall x | x in rows
      ensures m.Some? && x.high <= m.value
    {
      var i :| 0 <= i < |rows| && rows[i] == x;
      assert Highs(rows)[i] in Highs(rows);
    }
  }

  // -------------------------------------------------- get_top_cryptos_by_volume

  /** The (name, full name) a row groups under: its crypto's, found through the
      foreign key; a row whose crypto is gone joins nothing. */
  function GroupOf(cryptos: seq<Crypto>, cryptoId: int): Option<(string, string)> {
    if cryptos == [] then None
    else if cryptos[0].cmcId == cryptoId then Some((cryptos[0].name, cryptos[0].fullName))
    else GroupOf(cryptos[1..], cryptoId)
  }

  /** The rows within the bounds, of any crypto, that join a crypto. */
  function Joined(rows: seq<PriceRow>, cryptos: seq<Crypto>, start: Option<int>, end: Option<int>)
    : (r: seq<((string, string), int)>)
    ensures forall e :: e in r <==> exists x :: x in rows && InBounds(x.timestamp, start, end)
                                     && GroupOf(cryptos, x.cryptoId) == Some(e.0) && e.1 == x.volume
  {
    if rows == [] then []
    else
      var n := |rows| - 1;
      var x := rows[n];
      var prefix := Joined(rows[..n], cryptos, start, end);
      assert forall y :: y in rows ==> y in rows[..n] || y == x;
      if InBounds(x.timestamp, start, end) && GroupOf(cryptos, x.cryptoId).Some? then
        prefix + [(GroupOf(cryptos, x.cryptoId).value, x.volume)]
      else prefix
  }

  /** The groups, once each, in order of first appearance. */
  function GroupKeys(joined: seq<((string, string), int)>): (r: seq<(string, string)>)
    ensures forall g :: g in r <==> exists e :: e in joined && e.0 == g
    ensures forall i, j :: 0 <= i < j < |r| ==> r[i] != r[j]
  {
    if joined == [] then []
    else
      var n := |joined| - 1;
      var keys := GroupKeys(joined[..n]);
      assert forall e :: e in joined ==> e in joined[..n] || e == joined[n];
      if joined[n].0 in keys then keys else keys + [joined[n].0]
  }

  /** The volumes of one group's rows. */
  function GroupVolumes(joined: seq<((string, string), int)>, g: (string, string)): (r: seq<int>)
    ensures (exists e :: e in joined && e.0 == g) ==> r != []
    ensures g in GroupKeys(joined) ==> r != []
    ensures forall v :: v in r <==> (g, v) in joined
  {
    if joined == [] then []
    else
      var n := |joined| - 1;
      var vs := GroupVolumes(joined[..n], g);
      assert forall e :: e in joined ==> e in joined[..n] || e == joined[n];
      if joined[n].0 == g then vs + [joined[n].1] else vs
  }

  function Sum(xs: seq<int>): int {
    if xs == [] then 0 else Sum(xs[..|xs| - 1]) + xs[|xs| - 1]
  }

  /** `Avg`, computed exactly. */
  function Average(xs: seq<int>): real
    requires xs != []
  {
    Sum(xs) as real / |xs| as real
  }

  /** One line of `get_top_cryptos_by_volume`. */
  datatype VolumeEntry = VolumeEntry(name: string, fullName: string, totalVolume: real)

  function TotalVolume(e: VolumeEntry): real { e.totalVolume }

  /** One entry per group, carrying the average volume of its rows. */
  function Entries(joined: seq<((string, string), int)>): (r: seq<VolumeEntry>)
    ensures |r| == |GroupKeys(joined)|
    ensures forall i :: 0 <= i < |r| ==>
      var g := GroupKeys(joined)[i];
      r[i] == VolumeEntry(g.0, g.1, Average(GroupVolumes(joined, g)))
  {
    var keys := GroupKeys(joined);
    seq(|keys|, i requires 0 <= i < |keys| =>
      var g := keys[i];
      assert g in keys;
      VolumeEntry(g.0, g.1, Average(GroupVolumes(joined, g))))
  }

  /** `get_top_cryptos_by_volume`: per (name, full name) the average volume of
      its rows within the bounds, largest first, at most `limit` lines. */
  function GetTopCryptosByVolume(prices: map<PriceTable, seq<PriceRow>>, cryptos: seq<Crypto>, tf: string,
                                 limit: int, start: Option<int>, end: Option<int>): (r: Result<seq<VolumeEntry>, DbError>)
    ensures TableFor(tf).None? ==> r == Err(InvalidTimeframe)
    ensures TableFor(tf).Some? ==> (r.Err? <==> limit < 0)
    ensures r.Ok? ==> |r.value| <= limit
    ensures r.Ok? ==> SortedDesc(r.value, TotalVolume)
    ensures r.Ok? ==>
      var entries := Entries(Joined(Rows(prices, TableFor(tf).value), cryptos, start, end));
      && |r.value| == Min(limit, |entries|)
      && multiset(r.value) <= multiset(entries)
      && (forall e :: e in r.value ==> e in entries)
      && (forall x, y :: x in entries && x !in r.value && y in r.value ==> TotalVolume(y) >= TotalVolume(x))
  {
    match TableFor(tf)
    case None => Err(InvalidTimeframe)
    case Some(t) =>
      if limit < 0 then Err(NegativeIndexing)
      else
        Ok(Top(Entries(Joined(Rows(prices, t), cryptos, start, end)), TotalVolume, limit))
  }

  /** Every entry names a group of the joined rows and carries its average. */
  lemma EntryIsGroupAverage(joined: seq<((string, string), int)>, e: VolumeEntry)
    requires e in Entries(joined)
    ensures exists j :: j in joined && j.0 == (e.name, e.fullName)
    ensures e.totalVolume == Average(GroupVolumes(joined, (e.name, e.fullName)))
  {
    var entries := Entries(joined);
    var i :| 0 <= i < |entries| && entries[i] == e;
    var g := GroupKeys(joined)[i];
    assert g in GroupKeys(joined);
    assert g == (e.name, e.fullName);
  }

  /** Every line names a group that has rows within the bounds and carries
      that group's average volume. */
  lemma TopEntriesAreGroupAverages(prices: map<PriceTable, seq<PriceRow>>, cryptos: seq<Crypto>, tf: string,
                                   limit: int, start: Option<int>, end: Option<int>)
    requires GetTopCryptosByVolume(prices, cryptos, tf, limit, start, end).Ok?
    ensures
      var r := GetTopCryptosByVolume(prices, cryptos, tf, limit, start, end).value;
      var joined := Joined(Rows(prices, TableFor(tf).value), cryptos, start, end);
      forall e :: e in r ==>
        && (exists x :: x in Rows(prices, TableFor(tf).value) && InBounds(x.timestamp, start, end)
                        && GroupOf(cryptos, x.cryptoId) == Some((e.name, e.fullName)))
        && e.totalVolume == Average(GroupVolumes(joined, (e.name, e.fullName)))
  {
    var t := TableFor(tf).value;
    var joined := Joined(Rows(prices, t), cryptos, start, end);
    var entries := Entries(joined);
    var r := GetTopCryptosByVolume(prices, cryptos, tf, limit, start, end).value;
    forall e | e in r
      ensures exists x :: x in Rows(prices, t) && InBounds(x.timestamp, start, end)
                          && GroupOf(cryptos, x.cryptoId) == Some((e.name, e.fullName))
      ensures e.totalVolume == Average(GroupVolumes(joined, (e.name, e.fullName)))
    {
      assert e in entries;
      EntryIsGroupAverage(joined, e);
      var j :| j in joined && j.0 == (e.name, e.fullName);
    }
  }

  // --------------------------------------------------- get_crypto_price_changes

  /** A day in milliseconds. */
  const DayMs: int := 24 * 60 * 60 * 1000

  function DigitChar(d: int): char
    requires 0 <= d < 10
  {
    ('0' as int + d) as char
  }

  /** `str(n)` for a natural number. */
  function NatToString(n: nat): (s: string)
    ensures |s| >= 1 && (|s| == 1 <==> n < 10)
    ensures forall i :: 0 <= i < |s| ==> '0' <= s[i] <= '9'
  {
    if n < 10 then [DigitChar(n)] else NatToString(n / 10) + [DigitChar(n % 10)]
  }

  /** `str(n)`. */
  function IntToString(n: int): string {
    if n < 0 then "-" + NatToString(-n) else NatToString(n)
  }

  lemma {:induction false} NatToStringInjective(a: nat, b: nat)
    requires NatToString(a) == NatToString(b)
    ensures a == b
  {
    var s := NatToString(a);
    if a < 10 {
      assert b < 10;
      assert s[0] == DigitChar(a) && s[0] == DigitChar(b);
    } else {
      assert b >= 10;
      var n := |s| - 1;
      assert s == NatToString(a / 10) + [DigitChar(a % 10)];
      assert s == NatToString(b / 10) + [DigitChar(b % 10)];
      assert s[..n] == NatToString(a / 10) && s[..n] == NatToString(b / 10);
      NatToStringInjective(a / 10, b / 10);
      assert s[n] == DigitChar(a % 10) && s[n] == DigitChar(b % 10);
    }
  }

  lemma IntToStringInjective(a: int, b: int)
    requires IntToString(a) == IntToString(b)
    ensures a == b
  {
    var s := IntToString(a);
    if a < 0 {
      assert s[0] == '-';
      assert b < 0;
      assert s[1..] == NatToString(-a) && s[1..] == NatToString(-b);
      NatToStringInjective(-a, -b);
    } else {
      assert '0' <= s[0] <= '9';
      assert b >= 0;
      NatToStringInjective(a, b);
    }
  }

  /** The key `f'{period}d'`. */
  function PeriodKey(period: int): string { IntToString(period) + "d" }

  lemma PeriodKeyInjective(p: int, q: int)
    requires PeriodKey(p) == PeriodKey(q)
    ensures p == q
  {
    var s := PeriodKey(p);
    assert s[..|s| - 1] == IntToString(p) && s[..|s| - 1] == IntToString(q);
    IntToStringInjective(p, q);
  }

  /** The crypto's rows with `from <= timestamp <= to`, in storage order. */
  function Between(rows: seq<PriceRow>, cryptoId: int, from: int, to: int): (r: seq<PriceRow>)
    ensures forall x :: x in r <==> x in rows && x.cryptoId == cryptoId && from <= x.timestamp <= to
  {
    if rows == [] then []
    else
      var n := |rows| - 1;
      var x := rows[n];
      if x.cryptoId == cryptoId && from <= x.timestamp <= to then Between(rows[..n], cryptoId, from, to) + [x]
      else Between(rows[..n], cryptoId, from, to)
  }

  /** `prices.first()` under `order_by('timestamp')`: a row with the smallest timestamp. */
  function Earliest(rows: seq<PriceRow>): (r: PriceRow)
    requires rows != []
    ensures r in rows && forall x :: x in rows ==> r.timestamp <= x.timestamp
  {
    if |rows| == 1 then rows[0]
    else
      var n := |rows| - 1;
      assert rows == rows[..n] + [rows[n]];
      var e := Earliest(rows[..n]);
      if rows[n].timestamp < e.timestamp then rows[n] else e
  }

  /** `prices.last()`: a row with the largest timestamp. */
  function Latest(rows: seq<PriceRow>): (r: PriceRow)
    requires rows != []
    ensures r in rows && forall x :: x in rows ==> x.timestamp <= r.timestamp
  {
    if |rows| == 1 then rows[0]
    else
      var n := |rows| - 1;
      assert rows == rows[..n] + [rows[n]];
      var e := Latest(rows[..n]);
      if rows[n].timestamp > e.timestamp then rows[n] else e
  }

  /** `((last - first) / first) * 100`, computed exactly. */
  function PercentChange(first: int, last: int): real
    requires first != 0
  {
    ((last - first) as real / first as real) * 100.0
  }

  /** `end - timedelta(days=period)`, in milliseconds. */
  function PeriodStart(end: int, period: int): int {
    end - period * DayMs
  }

  /** The change over one period ending at `now`, in percent of the first
      close: None without rows; a first close of zero raises. */
  function PeriodChange(rows: seq<PriceRow>, cryptoId: int, period: int, now: int): (r: Result<Option<real>, DbError>)
    ensures r.Ok? && r.value.None? <==> Between(rows, cryptoId, PeriodStart(now, period), now) == []
    ensures r.Err? ==> r.error == DivisionByZero
  {
    var window := Between(rows, cryptoId, PeriodStart(now, period), now);
    if window == [] then Ok(None)
    else
      var first := Earliest(window).close;
      var last := Latest(window).close;
      if first == 0 then Err(DivisionByZero)
      else Ok(Some(PercentChange(first, last)))
  }

  lemma PeriodChangeUnfold(rows: seq<PriceRow>, cryptoId: int, period: int, now: int)
    ensures
      var window := Between(rows, cryptoId, PeriodStart(now, period), now);
      PeriodChange(rows, cryptoId, period, now) ==
        if window == [] then Ok(None)
        else if Earliest(window).close == 0 then Err(DivisionByZero)
        else Ok(Some(PercentChange(Earliest(window).close, Latest(window).close)))
  {
  }

  /** The `changes` dict after the periods in `periods`, or the exception of
      the first period that raises. */
  function Changes(rows: seq<PriceRow>, cryptoId: int, periods: seq<int>, now: int): Result<map<string, real>, DbError> {
    if periods == [] then Ok(map[])
    else
      var n := |periods| - 1;
      match Changes(rows, cryptoId, periods[..n], now)
      case Err(e) => Err(e)
      case Ok(m) =>
        match PeriodChange(rows, cryptoId, periods[n], now)
        case Err(e) => Err(e)
        case Ok(None) => Ok(m)
        case Ok(Some(c)) => Ok(m[PeriodKey(periods[n]) := c])
  }

  lemma SplitLast<T>(s: seq<T>)
    requires s != []
    ensures s == s[..|s| - 1] + [s[|s| - 1]]
    ensures forall x :: x in s <==> x in s[..|s| - 1] || x == s[|s| - 1]
  {
  }

  /** The keys of the result are the periods with a row in their window. */
  lemma {:induction false} ChangesKeys(rows: seq<PriceRow>, cryptoId: int, periods: seq<int>, now: int)
    requires Changes(rows, cryptoId, periods, now).Ok?
    ensures forall p :: PeriodKey(p) in Changes(rows, cryptoId, periods, now).value <==>
      p in periods && Between(rows, cryptoId, PeriodStart(now, p), now) != []
    ensures forall k :: k in Changes(rows, cryptoId, periods, now).value ==> exists p :: p in periods && k == PeriodKey(p)
  {
    if periods != [] {
      var n := |periods| - 1;
      var prefix := periods[..n];
      var last := periods[n];
      ChangesKeys(rows, cryptoId, prefix, now);
      var m := Changes(rows, cryptoId, prefix, now).value;
      var pc := PeriodChange(rows, cryptoId, last, now);
      var result := Changes(rows, cryptoId, periods, now).value;
      assert pc.Ok?;
      assert result == if pc.value.None? then m else m[PeriodKey(last) := pc.value.value];
      SplitLast(periods);
      forall p
        ensures PeriodKey(p) in result <==> p in periods && Between(rows, cryptoId, PeriodStart(now, p), now) != []
      {
        if PeriodKey(p) == PeriodKey(last) {
          PeriodKeyInjective(p, last);
        }
      }
      forall k | k in result
        ensures exists p :: p in periods && k == PeriodKey(p)
      {
        if k != PeriodKey(last) {
          var p :| p in prefix && k == PeriodKey(p);
          assert p in periods;
        }
      }
    }
  }

  /** A period's value is the change between the first and last close of its window. */
  lemma {:induction false} ChangesValues(rows: seq<PriceRow>, cryptoId: int, periods: seq<int>, now: int, p: int)
    requires Changes(rows, cryptoId, periods, now).Ok?
    requires PeriodKey(p) in Changes(rows, cryptoId, periods, now).value
    ensures PeriodChange(rows, cryptoId, p, now) == Ok(Some(Changes(rows, cryptoId, periods, now).value[PeriodKey(p)]))
  {
    var n := |periods| - 1;
    var prefix := periods[..n];
    var last := periods[n];
    if PeriodKey(p) == PeriodKey(last) && PeriodChange(rows, cryptoId, last, now).value.Some? {
      PeriodKeyInjective(p, last);
    } else {
      ChangesValues(rows, cryptoId, prefix, now, p);
    }
  }

  /** `get_crypto_price_changes`, with the clock read as `now` (milliseconds). */
  method GetCryptoPriceChanges(prices: map<PriceTable, seq<PriceRow>>, cryptoId: int, tf: string,
                               periods: seq<int>, now: int) returns (r: Result<map<string, real>, DbError>)
    ensures TableFor(tf).None? ==> r == Err(InvalidTimeframe)
    ensures TableFor(tf).Some? ==> r == Changes(Rows(prices, TableFor(tf).value), cryptoId, periods, now)
  {
    var t := TableFor(tf);
    if t.None? {
      return Err(InvalidTimeframe);
    }
    var rows := Rows(prices, t.value);
    var changes: map<string, real> := map[];
    var i := 0;
    while i < |periods|
      invariant 0 <= i <= |periods|
      invariant Changes(rows, cryptoId, periods[..i], now) == Ok(changes)
    {
      var period := periods[i];
      var endTime := now;
      var startTime := PeriodStart(endTime, period);
      var window := Between(rows, cryptoId, startTime, endTime);
      PeriodChangeUnfold(rows, cryptoId, period, now);
      ChangesStep(rows, cryptoId, periods, now, i);
      if window != [] {
        var first := Earliest(window).close;
        var last := Latest(window).close;
        if first == 0 {
          assert PeriodChange(rows, cryptoId, period, now) == Err(DivisionByZero);
          assert Changes(rows, cryptoId, periods[..i + 1], now) == Err(DivisionByZero);
          ChangesErrPersists(rows, cryptoId, periods, now, i + 1);
          return Err(DivisionByZero);
        }
        var change := PercentChange(first, last);
        assert PeriodChange(rows, cryptoId, period, now) == Ok(Some(change));
        changes := changes[PeriodKey(period) := change];
      } else {
        assert PeriodChange(rows, cryptoId, period, now) == Ok(None);
      }
      i := i + 1;
    }
    assert periods[..i] == periods;
    r := Ok(changes);
  }

  lemma ChangesStep(rows: seq<PriceRow>, cryptoId: int, periods: seq<int>, now: int, i: nat)
    requires i < |periods|
    ensures Changes(rows, cryptoId, periods[..i + 1], now) ==
      match Changes(rows, cryptoId, periods[..i], now)
      case Err(e) => Err(e)
      case Ok(m) =>
        match PeriodChange(rows, cryptoId, periods[i], now)
        case Err(e) => Err(e)
        case Ok(None) => Ok(m)
        case Ok(Some(c)) => Ok(m[PeriodKey(periods[i]) := c])
  {
    assert periods[..i + 1][..i] == periods[..i];
  }

  /** Once a period raises, the whole call raises the same. */
  lemma {:induction false} ChangesErrPersists(rows: seq<PriceRow>, cryptoId: int, periods: seq<int>, now: int, i: nat)
    requires i <= |periods| && Changes(rows, cryptoId, periods[..i], now).Err?
    ensures Changes(rows, cryptoId, periods, now) == Changes(rows, cryptoId, periods[..i], now)
    decreases |periods| - i
  {
    if i < |periods| {
      assert periods[..i + 1][..i] == periods[..i];
      ChangesErrPersists(rows, cryptoId, periods, now, i + 1);
    } else {
      assert periods[..i] == periods;
    }
  }
}
