/**
 * Candle history requests and decoding (services/binanceService.ts,
 * `fetchKlines`). The network call is left out: the decoder receives what the
 * request returned. A row is the candle tuple `[openTime, open, high, low,
 * close, volume, ...]` with its numeric strings already read as numbers.
 */
module Klines {
  import opened Types
  import opened Strings

  /** The two REST bases; their URLs live in a constants file outside this model. */
  datatype ApiBase = SpotApi | FuturesApi

  /** The parameters of one `/klines` request. */
  datatype KlinesRequest = KlinesRequest(base: ApiBase, symbol: string, interval: TimeInterval, limit: nat)

  /** The number of candles asked for when the caller names no limit. */
  const DefaultLimit: nat := 100

  /** The wire name of an interval. */
  function IntervalName(i: TimeInterval): string {
    match i
    case OneMinute => "1m"
    case FiveMinutes => "5m"
    case FifteenMinutes => "15m"
  }

  /** The request `fetchKlines(symbol, interval, market, limit)` sends. */
  function Request(symbol: string, interval: TimeInterval, market: MarketType, limit: nat := DefaultLimit): (r: KlinesRequest)
    ensures r.base == SpotApi <==> market == Spot
    ensures |r.symbol| == |symbol| && forall i :: 0 <= i < |r.symbol| ==> !IsLowerAscii(r.symbol[i])
    ensures r.symbol == ToUpper(symbol)
    ensures r.interval == interval && r.limit == limit
  {
    ToUpperNormalises(symbol);
    KlinesRequest(if market == Spot then SpotApi else FuturesApi, ToUpper(symbol), interval, limit)
  }

  /** The query string of the request URL, after the base. */
  function Query(r: KlinesRequest): string {
    "/klines?symbol=" + (r.symbol + ("&interval=" + (IntervalName(r.interval) + ("&limit=" + NatToString(r.limit)))))
  }

  /**
   * The query string names the request: for symbols without an `&` (which
   * would end the parameter early), equal query strings ask for the same
   * symbol, interval and number of candles.
   */
  lemma QueryDeterminesRequest(r1: KlinesRequest, r2: KlinesRequest)
    requires '&' !in r1.symbol && '&' !in r2.symbol
    requires Query(r1) == Query(r2)
    ensures r1.symbol == r2.symbol && r1.interval == r2.interval && r1.limit == r2.limit
  {
    var i1, i2 := IntervalName(r1.interval), IntervalName(r2.interval);
    var n1, n2 := NatToString(r1.limit), NatToString(r2.limit);
    var limit1, limit2 := "&limit=" + n1, "&limit=" + n2;
    var tail1, tail2 := "&interval=" + (i1 + limit1), "&interval=" + (i2 + limit2);
    PrefixCancel("/klines?symbol=", r1.symbol + tail1, r2.symbol + tail2);
    SplitAtSeparator(r1.symbol, tail1, r2.symbol, tail2, '&');
    PrefixCancel("&interval=", i1 + limit1, i2 + limit2);
    SplitAtSeparator(i1, limit1, i2, limit2, '&');
    PrefixCancel("&limit=", n1, n2);
    NatToStringRoundTrip(r1.limit);
    NatToStringRoundTrip(r2.limit);
  }

  /** A candle tuple as it arrives: at least six numbers, the first the open time. */
  type Row = seq<real>

  predicate WellFormed(rows: seq<Row>) {
    forall i :: 0 <= i < |rows| ==> |rows[i]| >= 6
  }

  /** Positions 0..5 of a row; open times are whole milliseconds, so `Floor` keeps them. */
  function DecodeRow(row: Row): Kline
    requires |row| >= 6
  {
    Kline(row[0].Floor, row[1], row[2], row[3], row[4], row[5])
  }

  /** What `fetchKlines` returns for a response: nothing unless it is an array, else one candle per row. */
  function DecodeKlines(response: Json<Row>): (r: seq<Kline>)
    requires response.JArray? ==> WellFormed(response.items)
    ensures !response.JArray? ==> r == []
    ensures response.JArray? ==> |r| == |response.items|
  {
    match response
    case JFalsy | JOther => []
    case JArray(rows) => seq(|rows|, i requires 0 <= i < |rows| => DecodeRow(rows[i]))
  }

  /** The first six fields of the row the exchange sends for a candle. */
  function EncodeRow(k: Kline): (row: Row)
    ensures |row| == 6
  {
    [k.time as real, k.open, k.high, k.low, k.close, k.volume]
  }

  /**
   * Decoding is faithful: rows that start with a candle's six fields, followed
   * by whatever further fields the exchange appends (close time, trade count,
   * ...), decode to those candles, in the same order.
   */
  lemma DecodeEncode(ks: seq<Kline>, extra: seq<Row>)
    requires |extra| == |ks|
    ensures var rows := seq(|ks|, i requires 0 <= i < |ks| => EncodeRow(ks[i]) + extra[i]);
      WellFormed(rows) && DecodeKlines(JArray(rows)) == ks
  {
    var rows := seq(|ks|, i requires 0 <= i < |ks| => EncodeRow(ks[i]) + extra[i]);
    var r := DecodeKlines(JArray(rows));
    forall i | 0 <= i < |ks| ensures r[i] == ks[i] {
      assert rows[i][..6] == EncodeRow(ks[i]);
      assert (ks[i].time as real).Floor == ks[i].time;
    }
  }
}
