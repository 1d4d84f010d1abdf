/**
 * The funding-rate table (getArbitrageData in services/binanceService.ts):
 * the futures premium index joined with the spot price list on the symbol.
 */
module FundingArbitrage {
  import opened Wrappers
  import opened Types
  import opened Strings

  /** One record of the futures premium index (`/premiumIndex`). */
  datatype PremiumIndex = PremiumIndex(symbol: string, markPrice: real, lastFundingRate: real, nextFundingTime: int)

  /** Funding settlements per day times days per year times 100 (percent). */
  const AnnualFactor: real := 3.0 * 365.0 * 100.0

  /**
   * The spot price the join uses for `symbol`: the spot list is loaded into a
   * map in order, so the last record for a symbol wins.
   */
  function SpotPriceOf(spot: seq<SpotPrice>, symbol: string): (r: Option<real>)
    ensures r.None? <==> forall j :: 0 <= j < |spot| ==> spot[j].symbol != symbol
    ensures r.Some? ==> exists k :: 0 <= k < |spot| && spot[k] == SpotPrice(symbol, r.value)
                                    && forall j :: k < j < |spot| ==> spot[j].symbol != symbol
  {
    if spot == [] then None
    else if spot[|spot| - 1].symbol == symbol then Some(spot[|spot| - 1].price)
    else
      var init := spot[..|spot| - 1];
      assert spot == init + [spot[|spot| - 1]];
      LaterOtherSymbol(init, spot[|spot| - 1], symbol, SpotPriceOf(init, symbol));
      SpotPriceOf(init, symbol)
  }

  /** A record for another symbol appended to the spot list changes nothing about `symbol`. */
  lemma LaterOtherSymbol(init: seq<SpotPrice>, p: SpotPrice, symbol: string, r: Option<real>)
    requires p.symbol != symbol
    requires r.None? <==> forall j :: 0 <= j < |init| ==> init[j].symbol != symbol
    requires r.Some? ==> exists k :: 0 <= k < |init| && init[k] == SpotPrice(symbol, r.value)
                                     && forall j :: k < j < |init| ==> init[j].symbol != symbol
    ensures r.None? <==> forall j :: 0 <= j < |init + [p]| ==> (init + [p])[j].symbol != symbol
    ensures r.Some? ==> exists k :: 0 <= k < |init + [p]| && (init + [p])[k] == SpotPrice(symbol, r.value)
                                    && forall j :: k < j < |init + [p]| ==> (init + [p])[j].symbol != symbol
  {
    var spot := init + [p];
    if r.Some? {
      var k :| 0 <= k < |init| && init[k] == SpotPrice(symbol, r.value)
               && forall j :: k < j < |init| ==> init[j].symbol != symbol;
      assert spot[k] == SpotPrice(symbol, r.value);
    }
  }

  /** A premium record makes a row: a USDT pair with a spot price that is present and non-zero. */
  predicate Qualifies(item: PremiumIndex, spot: seq<SpotPrice>) {
    EndsWith(item.symbol, QuoteSuffix) && SpotPriceOf(spot, item.symbol).Some? && SpotPriceOf(spot, item.symbol).value != 0.0
  }

  /** The row of a premium record at a given spot price. */
  function ArbitrageRow(item: PremiumIndex, spotPrice: real): (r: ArbitrageData)
    requires spotPrice != 0.0
    ensures r.spread * spotPrice == (item.markPrice - spotPrice) * 100.0
    ensures r.apy == item.lastFundingRate * AnnualFactor
    ensures r.symbol == item.symbol && r.markPrice == item.markPrice && r.spotPrice == spotPrice
    ensures r.fundingRate == item.lastFundingRate && r.nextFundingTime == item.nextFundingTime
  {
    ArbitrageData(item.symbol, item.markPrice, spotPrice, item.lastFundingRate, item.nextFundingTime,
                  (item.markPrice - spotPrice) / spotPrice * 100.0, item.lastFundingRate * 3.0 * 365.0 * 100.0)
  }

  /** The rows a premium list yields, in premium order. */
  function ArbitrageRows(premium: seq<PremiumIndex>, spot: seq<SpotPrice>): (r: seq<ArbitrageData>)
    ensures |r| <= |premium|
    ensures forall k :: 0 <= k < |r| ==>
      && EndsWith(r[k].symbol, QuoteSuffix)
      && SpotPriceOf(spot, r[k].symbol) == Some(r[k].spotPrice) && r[k].spotPrice != 0.0
      && exists i :: 0 <= i < |premium| && premium[i].symbol == r[k].symbol && r[k] == ArbitrageRow(premium[i], r[k].spotPrice)
    ensures forall i :: 0 <= i < |premium| && Qualifies(premium[i], spot) ==>
      ArbitrageRow(premium[i], SpotPriceOf(spot, premium[i].symbol).value) in r
  {
    if premium == [] then []
    else
      var init, item := premium[..|premium| - 1], premium[|premium| - 1];
      assert forall i :: 0 <= i < |premium| - 1 ==> init[i] == premium[i];
      ArbitrageRows(init, spot)
      + (if Qualifies(item, spot) then [ArbitrageRow(item, SpotPriceOf(spot, item.symbol).value)] else [])
  }

  /** The rows of two concatenated premium lists are the rows of each, in order. */
  lemma {:induction false} ArbitrageRowsAppend(a: seq<PremiumIndex>, b: seq<PremiumIndex>, spot: seq<SpotPrice>)
    ensures ArbitrageRows(a + b, spot) == ArbitrageRows(a, spot) + ArbitrageRows(b, spot)
    decreases |b|
  {
    if b != [] {
      var initB := b[..|b| - 1];
      assert (a + b)[..|a + b| - 1] == a + initB;
      ArbitrageRowsAppend(a, initB, spot);
    } else {
      assert a + b == a;
    }
  }

  /** Loading one more spot record into the map keeps it equal to `SpotPriceOf` of the records loaded. */
  lemma SpotMapStep(loaded: seq<SpotPrice>, p: SpotPrice, m: map<string, real>)
    requires forall s :: SpotPriceOf(loaded, s) == (if s in m then Some(m[s]) else None)
    ensures forall s :: SpotPriceOf(loaded + [p], s)
                        == (if s in m[p.symbol := p.price] then Some(m[p.symbol := p.price][s]) else None)
  {
    assert (loaded + [p])[..|loaded|] == loaded;
  }

  /** One more premium record adds its row, if it qualifies, after the rows before it. */
  lemma RowsPrefixStep(items: seq<PremiumIndex>, i: nat, prices: seq<SpotPrice>)
    requires i < |items|
    ensures ArbitrageRows(items[..i + 1], prices)
            == ArbitrageRows(items[..i], prices)
               + if Qualifies(items[i], prices) then [ArbitrageRow(items[i], SpotPriceOf(prices, items[i].symbol).value)] else []
  {
    assert items[..i + 1][..i] == items[..i];
  }

  /**
   * Both requests are needed: a falsy payload (a failed request's `null`)
   * yields an empty table. Only falsiness is checked for, so a truthy
   * payload that is not an array reaches `forEach` and the call rejects
   * (`None`). Otherwise the spot list
   * is loaded into a map and every qualifying premium record is pushed as a
   * row.
   */
  method GetArbitrageData(premium: Json<PremiumIndex>, spot: Json<SpotPrice>) returns (result: Option<seq<ArbitrageData>>)
    ensures premium.JFalsy? || spot.JFalsy? ==> result == Some([])
    ensures result.None? <==> !premium.JFalsy? && !spot.JFalsy? && (premium.JOther? || spot.JOther?)
    ensures premium.JArray? && spot.JArray? ==> result == Some(ArbitrageRows(premium.items, spot.items))
  {
    if premium.JFalsy? || spot.JFalsy? {
      return Some([]);
    }
    if premium.JOther? || spot.JOther? {
      return None;
    }
    var prices := spot.items;
    var spotMap: map<string, real> := map[];
    for i := 0 to |prices|
      invariant forall s :: SpotPriceOf(prices[..i], s) == (if s in spotMap then Some(spotMap[s]) else None)
    {
      assert prices[..i + 1] == prices[..i] + [prices[i]];
      SpotMapStep(prices[..i], prices[i], spotMap);
      spotMap := spotMap[prices[i].symbol := prices[i].price];
    }
    assert prices[..|prices|] == prices;
    var rows := [];
    var items := premium.items;
    for i := 0 to |items|
      invariant rows == ArbitrageRows(items[..i], prices)
    {
      var item := items[i];
      RowsPrefixStep(items, i, prices);
      ghost var known := SpotPriceOf(prices, item.symbol);
      assert known == if item.symbol in spotMap then Some(spotMap[item.symbol]) else None;
      if !EndsWith(item.symbol, QuoteSuffix) {
        continue;
      }
      if item.symbol !in spotMap || spotMap[item.symbol] == 0.0 {
        continue;
      }
      var spotPrice := spotMap[item.symbol];
      rows := rows + [ArbitrageRow(item, spotPrice)];
    }
    assert items[..|items|] == items;
    return Some(rows);
  }
}
