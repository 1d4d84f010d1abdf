/**
 * The order book and recent trades of the active symbol, fed by the combined
 * depth / aggregate-trade stream (App.tsx). A depth message replaces the book;
 * a trade message prepends one trade to a newest-first list capped at 50.
 */
module MarketData {
  import opened Wrappers
  import opened Types
  import opened Seqs
  import opened Strings

  /** How many trades the list keeps. */
  const TradeCapacity: nat := 50

  /**
   * The `data` field of a stream message. A depth payload carries its levels
   * under `bids`/`asks` or under the short names `b`/`a`; an aggregate-trade
   * payload's fields (`a`, `p`, `q`, `T`, `m`) are read as `trade`.
   */
  datatype Payload = Payload(
    bids: Option<seq<OrderBookItem>>,
    b: Option<seq<OrderBookItem>>,
    asks: Option<seq<OrderBookItem>>,
    a: Option<seq<OrderBookItem>>,
    trade: Trade)

  datatype StreamMessage = StreamMessage(stream: string, data: Option<Payload>)

  /** A message the depth branch handles. */
  predicate IsDepth(m: StreamMessage) {
    m.data.Some? && Includes(m.stream, "depth20")
  }

  /** A message the trade branch handles. */
  predicate IsTrade(m: StreamMessage) {
    m.data.Some? && !Includes(m.stream, "depth20") && Includes(m.stream, "aggTrade")
  }

  /** `x || y || []` over optional lists: the first one present, else empty. */
  function FirstPresent(x: Option<seq<OrderBookItem>>, y: Option<seq<OrderBookItem>>): (r: seq<OrderBookItem>)
    ensures x.Some? ==> r == x.value
    ensures x.None? && y.Some? ==> r == y.value
    ensures x.None? && y.None? ==> r == []
  {
    if x.Some? then x.value else y.GetOr([])
  }

  /** The book a depth payload replaces the current one with. */
  function DepthBook(p: Payload): OrderBookState {
    OrderBookState(FirstPresent(p.bids, p.b), FirstPresent(p.asks, p.a))
  }

  /** The book and trade list after one message. */
  function Step(book: OrderBookState, trades: seq<Trade>, m: StreamMessage): (OrderBookState, seq<Trade>) {
    if IsDepth(m) then (DepthBook(m.data.value), trades)
    else if IsTrade(m) then (book, PrependCapped(m.data.value.trade, trades, TradeCapacity))
    else (book, trades)
  }

  /** The book and trade list after a run of messages, in arrival order. */
  function Replay(book: OrderBookState, trades: seq<Trade>, ms: seq<StreamMessage>): (OrderBookState, seq<Trade>)
    decreases |ms|
  {
    if ms == [] then (book, trades)
    else
      var next := Step(book, trades, ms[0]);
      Replay(next.0, next.1, ms[1..])
  }

  /** The trades carried by the trade messages of `ms`, in arrival order. */
  function TradesIn(ms: seq<StreamMessage>): (r: seq<Trade>)
    ensures |r| <= |ms|
  {
    if ms == [] then []
    else (if IsTrade(ms[0]) then [ms[0].data.value.trade] else []) + TradesIn(ms[1..])
  }

  /** The book of the last depth message of `ms`, if there is one. */
  function LastDepth(ms: seq<StreamMessage>): (r: Option<OrderBookState>)
    ensures r.Some? <==> exists i :: 0 <= i < |ms| && IsDepth(ms[i])
  {
    if ms == [] then None
    else if IsDepth(ms[|ms| - 1]) then Some(DepthBook(ms[|ms| - 1].data.value))
    else
      var r := LastDepth(ms[..|ms| - 1]);
      assert forall i :: 0 <= i < |ms| - 1 ==> ms[..|ms| - 1][i] == ms[i];
      r
  }

  lemma {:induction false} ReplayAppend(book: OrderBookState, trades: seq<Trade>, ms: seq<StreamMessage>, m: StreamMessage)
    ensures Replay(book, trades, ms + [m]) == Step(Replay(book, trades, ms).0, Replay(book, trades, ms).1, m)
    decreases |ms|
  {
    if ms == [] {
      assert [m][1..] == [];
    } else {
      assert (ms + [m])[1..] == ms[1..] + [m];
      var next := Step(book, trades, ms[0]);
      ReplayAppend(next.0, next.1, ms[1..], m);
    }
  }

  lemma {:induction false} TradesInAppend(ms: seq<StreamMessage>, m: StreamMessage)
    ensures TradesIn(ms + [m]) == TradesIn(ms) + (if IsTrade(m) then [m.data.value.trade] else [])
    decreases |ms|
  {
    if ms == [] {
      assert [m][1..] == [];
    } else {
      assert (ms + [m])[1..] == ms[1..] + [m];
      TradesInAppend(ms[1..], m);
      ConcatAssoc(if IsTrade(ms[0]) then [ms[0].data.value.trade] else [], TradesIn(ms[1..]),
                  if IsTrade(m) then [m.data.value.trade] else []);
    }
  }

  const EmptyBook := OrderBookState([], [])

  /**
   * After the reset that a change of symbol or market performs, the book
   * depends only on the messages received since: it is that of the last depth
   * message, and empty before the first one.
   */
  lemma {:induction false} BookFromReset(ms: seq<StreamMessage>)
    ensures Replay(EmptyBook, [], ms).0 == LastDepth(ms).GetOr(EmptyBook)
    decreases |ms|
  {
    if ms != [] {
      var init, m := ms[..|ms| - 1], ms[|ms| - 1];
      assert ms == init + [m];
      BookFromReset(init);
      ReplayAppend(EmptyBook, [], init, m);
    }
  }

  /**
   * Likewise the trade list: the 50 newest trades received since the reset,
   * newest first, and none from before it.
   */
  lemma {:induction false} TradesFromReset(ms: seq<StreamMessage>)
    ensures Replay(EmptyBook, [], ms).1 == Take(Reverse(TradesIn(ms)), TradeCapacity)
    decreases |ms|
  {
    if ms != [] {
      var init, m := ms[..|ms| - 1], ms[|ms| - 1];
      assert ms == init + [m];
      TradesFromReset(init);
      ReplayAppend(EmptyBook, [], init, m);
      TradesInAppend(init, m);
      if IsTrade(m) {
        var t, older := m.data.value.trade, Reverse(TradesIn(init));
        calc {
          Replay(EmptyBook, [], ms).1;
          PrependCapped(t, Take(older, TradeCapacity), TradeCapacity);
          [t] + Take(Take(older, TradeCapacity), TradeCapacity - 1);
          { TakeOfTake([t], older, TradeCapacity); }
          Take([t] + older, TradeCapacity);
          { ReverseSnoc(TradesIn(init), t); }
          Take(Reverse(TradesIn(ms)), TradeCapacity);
        }
      }
    }
  }

  /** The order book and trade list of the market view. */
  class SymbolFeed {
    var orderBook: OrderBookState
    var recentTrades: seq<Trade>

    ghost predicate Valid()
      reads this
    {
      |recentTrades| <= TradeCapacity
    }

    constructor ()
      ensures Valid() && orderBook == EmptyBook && recentTrades == []
    {
      orderBook := EmptyBook;
      recentTrades := [];
    }

    /**
     * A change of symbol, market or view: entering (or staying in) the market
     * view empties the book and the trades before the new stream opens;
     * leaving it only closes the stream and keeps both.
     */
    method SwitchContext(marketView: bool)
      requires Valid()
      modifies this
      ensures Valid()
      ensures marketView ==> orderBook == EmptyBook && recentTrades == []
      ensures !marketView ==> orderBook == old(orderBook) && recentTrades == old(recentTrades)
    {
      if marketView {
        orderBook := EmptyBook;
        recentTrades := [];
      }
    }

    /**
     * One stream message: without `data` it is dropped; a stream whose name
     * contains `depth20` replaces the book; otherwise one whose name contains
     * `aggTrade` prepends its trade and keeps the newest 50.
     */
    method OnMessage(m: StreamMessage)
      requires Valid()
      modifies this
      ensures Valid()
      ensures (orderBook, recentTrades) == Step(old(orderBook), old(recentTrades), m)
    {
      if m.data.None? {
        return;
      }
      var payload := m.data.value;
      if Includes(m.stream, "depth20") {
        var bids := if payload.bids.Some? then payload.bids.value else payload.b.GetOr([]);
        var asks := if payload.asks.Some? then payload.asks.value else payload.a.GetOr([]);
        orderBook := OrderBookState(bids, asks);
      } else if Includes(m.stream, "aggTrade") {
        recentTrades := PrependCapped(payload.trade, recentTrades, TradeCapacity);
      }
    }
  }
}
