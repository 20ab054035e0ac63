/** The aggregator's coin listing and `CMCCrawler.remove_stablecoins`
    (exchange_webservice/crawler/cmc_crawler.py). Numbers are abstracted to
    integers; an `Option` field is None when the key is absent. */
module Cmc {
  import opened Wrappers
  import opened Json

  /** The `platform` object of a token: the symbol of its host chain. */
  datatype PlatformRef = PlatformRef(symbol: Option<string>)

  /** One entry of the listing's `data` array. */
  datatype CmcCoin = CmcCoin(
    id: int,
    symbol: string,
    name: string,
    cmcRank: Option<int>,
    maxSupply: Option<int>,
    circulatingSupply: Option<int>,
    totalSupply: Option<int>,
    infiniteSupply: Option<bool>,
    numMarketPairs: Option<int>,
    lastUpdated: Option<string>,
    tags: Option<seq<string>>,
    platform: Option<PlatformRef>)

  /** `'stablecoin' in coin.get('tags', [])`: an exact element match. */
  predicate IsStablecoin(coin: CmcCoin) {
    coin.tags.Some? && "stablecoin" in coin.tags.value
  }

  /** The list comprehension of `remove_stablecoins`. */
  function NonStablecoins(coins: seq<CmcCoin>): seq<CmcCoin> {
    if coins == [] then []
    else if IsStablecoin(coins[0]) then NonStablecoins(coins[1..])
    else [coins[0]] + NonStablecoins(coins[1..])
  }

  /** A coin is kept exactly when it is in the listing and is no stablecoin. */
  lemma {:induction false} NonStablecoinsMembers(coins: seq<CmcCoin>, c: CmcCoin)
    ensures c in NonStablecoins(coins) <==> c in coins && !IsStablecoin(c)
  {
    if coins != [] {
      NonStablecoinsMembers(coins[1..], c);
      assert coins == [coins[0]] + coins[1..];
    }
  }

  /** The filter works element by element, so the kept coins keep their
      relative order. */
  lemma {:induction false} NonStablecoinsAppend(a: seq<CmcCoin>, b: seq<CmcCoin>)
    ensures NonStablecoins(a + b) == NonStablecoins(a) + NonStablecoins(b)
  {
    if a != [] {
      assert (a + b)[1..] == a[1..] + b;
      NonStablecoinsAppend(a[1..], b);
    } else {
      assert a + b == b;
    }
  }

  /** A coin without a `tags` key is kept. */
  lemma {:induction false} UntaggedCoinKept(coins: seq<CmcCoin>, c: CmcCoin)
    requires c in coins && c.tags.None?
    ensures c in NonStablecoins(coins)
  {
    NonStablecoinsMembers(coins, c);
  }

  /** Filtering again removes nothing more. */
  lemma {:induction false} NonStablecoinsIdempotent(coins: seq<CmcCoin>)
    ensures NonStablecoins(NonStablecoins(coins)) == NonStablecoins(coins)
  {
    if coins != [] {
      NonStablecoinsIdempotent(coins[1..]);
      if !IsStablecoin(coins[0]) {
        assert ([coins[0]] + NonStablecoins(coins[1..]))[1..] == NonStablecoins(coins[1..]);
      }
    }
  }

  /** The decoded listing response: its `data` array (None when the key is
      missing) and every other key. `remove_stablecoins` updates it in place. */
  class CmcPayload {
    var data: Option<seq<CmcCoin>>
    var others: map<string, Json>

    constructor (data: Option<seq<CmcCoin>>, others: map<string, Json>)
      ensures this.data == data && this.others == others
    {
      this.data := data;
      this.others := others;
    }
  }

  /** `remove_stablecoins`: overwrites `data` with the non-stablecoins (a
      missing `data` becomes the empty list) and returns the same object. */
  method RemoveStablecoins(payload: CmcPayload) returns (r: CmcPayload)
    modifies payload
    ensures r == payload
    ensures payload.data == Some(NonStablecoins(old(payload.data).GetOr([])))
    ensures payload.others == old(payload.others)
  {
    var coins := payload.data.GetOr([]);
    payload.data := Some(NonStablecoins(coins));
    r := payload;
  }
}
