/**
 * The records exchanged between the feeds, the scanner, the alert log and the
 * views. Prices, volumes and rates are `real`; millisecond timestamps are `int`.
 */
module Types {
  import opened Wrappers
  import opened Strings

  /** Which exchange segment a feed or a candle request targets. */
  datatype MarketType = Spot | Futures

  /** Candle widths offered by the chart; the scanner always uses five minutes. */
  datatype TimeInterval = OneMinute | FiveMinutes | FifteenMinutes

  /** One candle: open time and the open/high/low/close/volume aggregate. */
  datatype Kline = Kline(time: int, open: real, high: real, low: real, close: real, volume: real)

  /** Latest snapshot of one trading pair. */
  datatype Ticker = Ticker(symbol: string, price: real, changePercent: real, volume: real)

  /** The three kinds of alert the scanner raises. */
  datatype AlertType = VolumeSpike | PriceSurge | PriceDump

  /** One entry of the alert log. */
  datatype AlertLog = AlertLog(id: string, symbol: string, kind: AlertType, message: string, timestamp: int)

  /** One order-book level: price and amount. */
  datatype OrderBookItem = OrderBookItem(price: real, amount: real)

  /** Both sides of the order book, as the last depth message delivered them. */
  datatype OrderBookState = OrderBookState(bids: seq<OrderBookItem>, asks: seq<OrderBookItem>)

  /** One trade print; `isBuyerMaker` means the aggressor sold. */
  datatype Trade = Trade(id: int, price: real, qty: real, time: int, isBuyerMaker: bool)

  /** One row of the funding-rate arbitrage table. */
  datatype ArbitrageData = ArbitrageData(
    symbol: string, markPrice: real, spotPrice: real, fundingRate: real,
    nextFundingTime: int, spread: real, apy: real)

  /** One reading of the fear and greed index. */
  datatype FearGreedData = FearGreedData(
    value: int, classification: string, timestamp: int, timeUntilUpdate: Option<int>)

  /** One row of the cross-exchange price comparison. */
  datatype CrossChainData = CrossChainData(
    symbol: string, binancePrice: real, asterPrice: real, hypePrice: real,
    bestRoute: string, spreadPercent: real, profitPerUnit: real)

  /** One record of the spot price list (`/ticker/price`). */
  datatype SpotPrice = SpotPrice(symbol: string, price: real)

  /** The localised alert labels the messages are built from. */
  datatype Translation = Translation(alertVolume: string, alertSurge: string, alertDump: string)

  /**
   * A parsed JSON payload as the handlers see it: an array of records; a
   * falsy value (`null`, which a failed request yields, or `0`, `false`,
   * `""`), which a `!data` test catches; or any other value (an object, a
   * non-empty string, a non-zero number).
   */
  datatype Json<T> = JArray(items: seq<T>) | JFalsy | JOther

  /** The quote-asset suffix every pair shown must carry. */
  const QuoteSuffix: string := "USDT"

  /** The token shown for a pair: the symbol with its first `USDT` removed. */
  function BaseAsset(symbol: string): string {
    ReplaceFirst(symbol, QuoteSuffix, "")
  }

  /**
   * Shown tokens invert pair construction: the token of `base + "USDT"` is
   * `base` whenever `base` itself does not contain `USDT`; a symbol without
   * `USDT` is shown unchanged.
   */
  lemma BaseAssetOfPair(base: string)
    ensures !Includes(base, QuoteSuffix) ==> BaseAsset(base + QuoteSuffix) == base
    ensures !Includes(base, QuoteSuffix) ==> BaseAsset(base) == base
  {
    if !Includes(base, QuoteSuffix) {
      assert QuoteSuffix[0] !in QuoteSuffix[1..];
      StripAppended(base, QuoteSuffix);
    }
  }
}
