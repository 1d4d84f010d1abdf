/**
 * The alert log of the market view and the background scanner that feeds it
 * (App.tsx). The log is newest first and holds at most 50 alerts; an alert is
 * dropped when an alert for the same symbol and type, stamped within the last
 * minute, is still in the log. Every accepted alert plays the alert sound once;
 * the sound itself is left out and counted by a ghost counter.
 */
module Alerts {
  import opened Wrappers
  import opened Types
  import opened Seqs
  import opened Strings
  import opened Anomaly
  import opened Klines
  import opened TickerTable

  /** How many alerts the log keeps. */
  const Capacity: nat := 50
  /** How long, in milliseconds, an alert suppresses a repeat of itself. */
  const DedupWindow: int := 60000

  /** `entry` suppresses `a` at time `now`: same symbol and type, stamped within the window. */
  predicate Blocks(entry: AlertLog, a: AlertLog, now: int) {
    entry.symbol == a.symbol && entry.timestamp > now - DedupWindow && entry.kind == a.kind
  }

  /** Some entry of the log suppresses `a` at time `now`. */
  predicate IsDuplicate(log: seq<AlertLog>, a: AlertLog, now: int) {
    exists i :: 0 <= i < |log| && Blocks(log[i], a, now)
  }

  /** `[a, ...log].slice(0, 50)`. */
  function Accept(log: seq<AlertLog>, a: AlertLog): seq<AlertLog> {
    PrependCapped(a, log, Capacity)
  }

  /** The log after `a` is offered at time `now`. */
  function Offered(log: seq<AlertLog>, a: AlertLog, now: int): seq<AlertLog> {
    if IsDuplicate(log, a, now) then log else Accept(log, a)
  }

  /**
   * An accepted alert becomes the head and the rest is the previous log's
   * first 49 entries in order; a rejected one leaves the log as it was.
   */
  lemma OfferedShape(log: seq<AlertLog>, a: AlertLog, now: int)
    requires |log| <= Capacity
    ensures var r := Offered(log, a, now);
      && |r| <= Capacity
      && (IsDuplicate(log, a, now) ==> r == log)
      && (!IsDuplicate(log, a, now) ==> r[0] == a && r[1..] == Take(log, Capacity - 1) && |r| == Min(|log| + 1, Capacity))
  {
  }

  /**
   * No two entries for the same symbol and type are less than a minute
   * apart, the newer one first.
   */
  ghost predicate Spaced(log: seq<AlertLog>) {
    forall i, j :: 0 <= i < j < |log| && log[i].symbol == log[j].symbol && log[i].kind == log[j].kind
      ==> log[i].timestamp - log[j].timestamp >= DedupWindow
  }

  /**
   * The scanner stamps an alert with the time it offers it, so offering keeps
   * the log spaced: deduplication is what guarantees the cooldown.
   */
  lemma OfferKeepsSpaced(log: seq<AlertLog>, a: AlertLog, now: int)
    requires Spaced(log) && a.timestamp == now
    ensures Spaced(Offered(log, a, now))
  {
    if !IsDuplicate(log, a, now) {
      var r := Accept(log, a);
      forall i, j | 0 <= i < j < |r| && r[i].symbol == r[j].symbol && r[i].kind == r[j].kind
        ensures r[i].timestamp - r[j].timestamp >= DedupWindow
      {
        assert r[j] == log[j - 1];
        if i == 0 {
          assert !Blocks(log[j - 1], a, now);
        } else {
          assert r[i] == log[i - 1];
        }
      }
    }
  }

  /**
   * After `a` is accepted at time `t`, a second alert for the same symbol and
   * type offered `d` milliseconds later (with nothing older in the way) is
   * rejected iff `d` is under a minute: 5 s apart is a repeat, 61 s is not.
   */
  lemma RepeatWithinWindow(log: seq<AlertLog>, a: AlertLog, b: AlertLog, t: int, d: nat)
    requires a.timestamp == t && !IsDuplicate(log, a, t)
    requires b.symbol == a.symbol && b.kind == a.kind
    requires forall i :: 0 <= i < |log| ==> !Blocks(log[i], b, t + d)
    ensures IsDuplicate(Offered(log, a, t), b, t + d) <==> d < DedupWindow
  {
    var r := Offered(log, a, t);
    assert r[0] == a;
    if IsDuplicate(r, b, t + d) {
      var i :| 0 <= i < |r| && Blocks(r[i], b, t + d);
    }
  }

  /** Accepting each of `xs` in turn. */
  function AcceptAll(log: seq<AlertLog>, xs: seq<AlertLog>): seq<AlertLog> {
    PrependEach(log, xs, Capacity)
  }

  /**
   * Accepting alerts one after another keeps the 50 newest, newest first; once
   * 50 or more have been accepted the log is exactly the last 50 of them.
   */
  lemma AcceptAllKeepsNewest(log: seq<AlertLog>, xs: seq<AlertLog>)
    requires |log| <= Capacity
    ensures AcceptAll(log, xs) == Take(Reverse(xs) + log, Capacity)
    ensures |xs| >= Capacity ==> AcceptAll(log, xs) == Reverse(xs[|xs| - Capacity..])
  {
    PrependEachKeepsNewest(log, xs, Capacity);
    if |xs| >= Capacity {
      PrependEachLast(log, xs, Capacity);
    }
  }

  /** The symbols the test button picks from. */
  const TestSymbols: seq<string> := ["BTCUSDT", "ETHUSDT", "BNBUSDT", "SOLUSDT", "DOGEUSDT"]

  /** The label of an alert type in the current language. */
  function TypeText(kind: AlertType, tr: Translation): string {
    match kind
    case VolumeSpike => tr.alertVolume
    case PriceSurge => tr.alertSurge
    case PriceDump => tr.alertDump
  }

  /** The alert the test button creates: fixed percentages 45.2 for volume, 12.5 otherwise. */
  function TestAlertFor(kind: AlertType, symbol: string, now: int, tr: Translation): AlertLog {
    var mock := if kind == VolumeSpike then "45.2" else "12.5";
    AlertLog("TEST-" + IntToString(now), symbol, kind, "[TEST] " + TypeText(kind, tr) + " (" + mock + "%)", now)
  }

  /** The alert log of the market view. */
  class AlertStore {
    var alerts: seq<AlertLog>
    /** How many times the alert sound has been played. */
    ghost var soundCount: nat

    ghost predicate Valid()
      reads this
    {
      |alerts| <= Capacity
    }

    constructor ()
      ensures Valid() && alerts == [] && soundCount == 0
    {
      alerts := [];
      soundCount := 0;
    }

    /**
     * Offers a scanner alert at time `now`: rejected, with no sound, iff an
     * entry still in the log blocks it; otherwise the sound plays once and the
     * alert is prepended.
     */
    method Offer(a: AlertLog, now: int) returns (accepted: bool)
      requires Valid()
      modifies this
      ensures Valid()
      ensures accepted <==> !IsDuplicate(old(alerts), a, now)
      ensures alerts == Offered(old(alerts), a, now)
      ensures soundCount == old(soundCount) + (if accepted then 1 else 0)
    {
      var found := FindFirst(alerts, (e: AlertLog) => Blocks(e, a, now));
      if found.Some? {
        return false;
      }
      soundCount := soundCount + 1;
      alerts := Accept(alerts, a);
      return true;
    }

    /**
     * The test button: the sound always plays and the test alert is prepended
     * without the duplicate check.
     */
    method TestAlert(kind: AlertType, symbol: string, now: int, tr: Translation)
      requires Valid() && symbol in TestSymbols
      modifies this
      ensures Valid()
      ensures alerts == Accept(old(alerts), TestAlertFor(kind, symbol, now, tr))
      ensures soundCount == old(soundCount) + 1
    {
      soundCount := soundCount + 1;
      alerts := Accept(alerts, TestAlertFor(kind, symbol, now, tr));
    }

    /** The clear button. */
    method Clear()
      requires Valid()
      modifies this
      ensures Valid() && alerts == [] && soundCount == old(soundCount)
    {
      alerts := [];
    }
  }

  /** The alert type an anomaly kind is reported as. */
  function AlertTypeOf(kind: AnomalyKind): AlertType {
    match kind
    case Volume => VolumeSpike
    case Surge => PriceSurge
    case Dump => PriceDump
  }

  function Abs(x: real): real { if x < 0.0 then -x else x }

  /**
   * The message of a scanner alert: the label, then the percentage in
   * parentheses, formatted by `toFixed` (one decimal for volume, two for price).
   */
  function AlertMessage(an: Anomaly, tr: Translation, toFixed: (real, nat) -> string): string {
    if an.kind == Volume then tr.alertVolume + " (" + toFixed(an.diff, 1) + "%)"
    else (if an.diff > 0.0 then tr.alertSurge else tr.alertDump) + " (" + toFixed(Abs(an.diff), 2) + "%)"
  }

  function AlertFor(symbol: string, an: Anomaly, now: int, tr: Translation, toFixed: (real, nat) -> string): AlertLog {
    AlertLog(symbol + "-" + IntToString(now), symbol, AlertTypeOf(an.kind), AlertMessage(an, tr, toFixed), now)
  }

  /** The request the scanner sends for one symbol: the last five 5-minute candles. */
  function ScanRequest(symbol: string, market: MarketType): KlinesRequest {
    Request(symbol, FiveMinutes, market, 5)
  }

  /** What the network answers the scanner's request for `symbol` with can be decoded and evaluated. */
  predicate Scannable(network: KlinesRequest -> Json<Row>, market: MarketType, symbol: string) {
    var response := network(ScanRequest(symbol, market));
    (response.JArray? ==> WellFormed(response.items))
    && var candles := DecodeKlines(response);
       (|candles| >= 2 ==> Evaluable(Some(candles[|candles| - 1]), Some(candles[|candles| - 2])))
  }

  /**
   * The alert the scanner raises for `symbol`, if any: it needs at least two
   * candles and compares the last with the one before it.
   */
  function Candidate(symbol: string, network: KlinesRequest -> Json<Row>, market: MarketType,
                     now: int, tr: Translation, toFixed: (real, nat) -> string): (r: Option<AlertLog>)
    requires Scannable(network, market, symbol)
    ensures var c := DecodeKlines(network(ScanRequest(symbol, market)));
      && (|c| < 2 ==> r.None?)
      && (|c| >= 2 ==> var an := CheckAnomaly(Some(c[|c| - 1]), Some(c[|c| - 2]));
                       && (r.Some? <==> an.Some?)
                       && (r.Some? ==> r.value.kind == AlertTypeOf(an.value.kind)
                                       && r.value.message == AlertMessage(an.value, tr, toFixed)))
    ensures r.Some? ==> r.value.symbol == symbol && r.value.timestamp == now
  {
    var candles := DecodeKlines(network(ScanRequest(symbol, market)));
    if |candles| < 2 then None
    else match CheckAnomaly(Some(candles[|candles| - 1]), Some(candles[|candles| - 2]))
      case None => None
      case Some(an) => Some(AlertFor(symbol, an, now, tr, toFixed))
  }

  /**
   * The scanner's rule on the candles themselves: with at least two candles,
   * the last compared with the one before it (both with positive volume and
   * close), a volume spike is reported iff the volume grew by more than 30%,
   * else a surge iff the close rose by more than 10%, a dump iff it fell by
   * more than 10%, and no alert otherwise.
   */
  lemma CandidateRule(symbol: string, network: KlinesRequest -> Json<Row>, market: MarketType,
                      now: int, tr: Translation, toFixed: (real, nat) -> string)
    requires Scannable(network, market, symbol)
    requires var c := DecodeKlines(network(ScanRequest(symbol, market)));
      |c| >= 2 && c[|c| - 2].volume > 0.0 && c[|c| - 2].close > 0.0
    ensures var c := DecodeKlines(network(ScanRequest(symbol, market)));
      var cur, prev := c[|c| - 1], c[|c| - 2];
      var r := Candidate(symbol, network, market, now, tr, toFixed);
      && (r.Some? && r.value.kind == VolumeSpike <==> cur.volume > prev.volume * 1.3)
      && (r.Some? && r.value.kind == PriceSurge <==> cur.volume <= prev.volume * 1.3 && cur.close > prev.close * 1.1)
      && (r.Some? && r.value.kind == PriceDump <==> cur.volume <= prev.volume * 1.3 && cur.close < prev.close * 0.9)
      && (r.None? <==> cur.volume <= prev.volume * 1.3 && prev.close * 0.9 <= cur.close <= prev.close * 1.1)
  {
    var c := DecodeKlines(network(ScanRequest(symbol, market)));
    var cur, prev := c[|c| - 1], c[|c| - 2];
    KindFollowsAnomaly(Candidate(symbol, network, market, now, tr, toFixed), cur, prev);
  }

  /** An alert whose presence and type follow `checkAnomaly` obeys the ratio thresholds. */
  lemma KindFollowsAnomaly(r: Option<AlertLog>, cur: Kline, prev: Kline)
    requires prev.volume > 0.0 && prev.close > 0.0
    requires var an := CheckAnomaly(Some(cur), Some(prev));
      (r.Some? <==> an.Some?) && (r.Some? ==> r.value.kind == AlertTypeOf(an.value.kind))
    ensures && (r.Some? && r.value.kind == VolumeSpike <==> cur.volume > prev.volume * 1.3)
            && (r.Some? && r.value.kind == PriceSurge <==> cur.volume <= prev.volume * 1.3 && cur.close > prev.close * 1.1)
            && (r.Some? && r.value.kind == PriceDump <==> cur.volume <= prev.volume * 1.3 && cur.close < prev.close * 0.9)
            && (r.None? <==> cur.volume <= prev.volume * 1.3 && prev.close * 0.9 <= cur.close <= prev.close * 1.1)
  {
    AlertTypeByRatios(cur, prev);
  }

  /** The alert type the rule gives two candles, by ratio thresholds. */
  lemma AlertTypeByRatios(cur: Kline, prev: Kline)
    requires prev.volume > 0.0 && prev.close > 0.0
    ensures var an := CheckAnomaly(Some(cur), Some(prev));
      && (an.Some? && AlertTypeOf(an.value.kind) == VolumeSpike <==> cur.volume > prev.volume * 1.3)
      && (an.Some? && AlertTypeOf(an.value.kind) == PriceSurge <==> cur.volume <= prev.volume * 1.3 && cur.close > prev.close * 1.1)
      && (an.Some? && AlertTypeOf(an.value.kind) == PriceDump <==> cur.volume <= prev.volume * 1.3 && cur.close < prev.close * 0.9)
      && (an.None? <==> cur.volume <= prev.volume * 1.3 && prev.close * 0.9 <= cur.close <= prev.close * 1.1)
  {
    CheckAnomalyByRatios(cur, prev);
  }

  /**
   * The log after the scanner has offered the candidates of `symbols` in
   * order; `clock[k]` is the time read while `symbols[k]` is examined.
   */
  function ScanLog(log: seq<AlertLog>, symbols: seq<string>, network: KlinesRequest -> Json<Row>,
                   market: MarketType, clock: seq<int>, tr: Translation, toFixed: (real, nat) -> string): seq<AlertLog>
    requires |clock| == |symbols|
    requires forall s | s in symbols :: Scannable(network, market, s)
    decreases |symbols|
  {
    if symbols == [] then log
    else
      var c := Candidate(symbols[0], network, market, clock[0], tr, toFixed);
      ScanLog(if c.Some? then Offered(log, c.value, clock[0]) else log, symbols[1..], network, market, clock[1..], tr, toFixed)
  }

  /** How many of those candidates were accepted (and so how many times the sound played). */
  function ScanSounds(log: seq<AlertLog>, symbols: seq<string>, network: KlinesRequest -> Json<Row>,
                      market: MarketType, clock: seq<int>, tr: Translation, toFixed: (real, nat) -> string): nat
    requires |clock| == |symbols|
    requires forall s | s in symbols :: Scannable(network, market, s)
    decreases |symbols|
  {
    if symbols == [] then 0
    else
      var c := Candidate(symbols[0], network, market, clock[0], tr, toFixed);
      var accepted := c.Some? && !IsDuplicate(log, c.value, clock[0]);
      (if accepted then 1 else 0)
      + ScanSounds(if c.Some? then Offered(log, c.value, clock[0]) else log, symbols[1..], network, market, clock[1..], tr, toFixed)
  }

  /** A scan never grows the log past its capacity, and never accepts more alerts than it examines symbols. */
  lemma {:induction false} ScanBounded(log: seq<AlertLog>, symbols: seq<string>, network: KlinesRequest -> Json<Row>,
                                       market: MarketType, clock: seq<int>, tr: Translation, toFixed: (real, nat) -> string)
    requires |log| <= Capacity && |clock| == |symbols|
    requires forall s | s in symbols :: Scannable(network, market, s)
    ensures |ScanLog(log, symbols, network, market, clock, tr, toFixed)| <= Capacity
    ensures ScanSounds(log, symbols, network, market, clock, tr, toFixed) <= |symbols|
    decreases |symbols|
  {
    if symbols != [] {
      var c := Candidate(symbols[0], network, market, clock[0], tr, toFixed);
      ScanBounded(if c.Some? then Offered(log, c.value, clock[0]) else log, symbols[1..], network, market, clock[1..], tr, toFixed);
    }
  }

  /** Examining `symbols[i]` and then the rest is examining `symbols[i..]`. */
  lemma ScanStep(log: seq<AlertLog>, symbols: seq<string>, i: nat, network: KlinesRequest -> Json<Row>,
                 market: MarketType, clock: seq<int>, tr: Translation, toFixed: (real, nat) -> string)
    requires i < |symbols| == |clock|
    requires forall s | s in symbols :: Scannable(network, market, s)
    ensures var c := Candidate(symbols[i], network, market, clock[i], tr, toFixed);
            var next := if c.Some? then Offered(log, c.value, clock[i]) else log;
            ScanLog(log, symbols[i..], network, market, clock[i..], tr, toFixed)
              == ScanLog(next, symbols[i + 1..], network, market, clock[i + 1..], tr, toFixed)
            && ScanSounds(log, symbols[i..], network, market, clock[i..], tr, toFixed)
               == (if c.Some? && !IsDuplicate(log, c.value, clock[i]) then 1 else 0)
                  + ScanSounds(next, symbols[i + 1..], network, market, clock[i + 1..], tr, toFixed)
  {
    assert symbols[i..][0] == symbols[i] && symbols[i..][1..] == symbols[i + 1..];
    assert clock[i..][0] == clock[i] && clock[i..][1..] == clock[i + 1..];
  }

  /**
   * One scanner cycle: the 20 busiest tickers are examined in order (none when
   * the table is empty); for each, the candles fetched by `network` are checked
   * and any anomaly is offered to the log, stamped with the clock reading
   * taken for that symbol.
   */
  method ScanMarket(store: AlertStore, tickers: seq<Ticker>, market: MarketType, network: KlinesRequest -> Json<Row>,
                    clock: seq<int>, tr: Translation, toFixed: (real, nat) -> string)
    requires store.Valid() && |clock| == |TopSymbols(tickers)|
    requires forall s | s in TopSymbols(tickers) :: Scannable(network, market, s)
    modifies store
    ensures store.Valid()
    ensures store.alerts == ScanLog(old(store.alerts), TopSymbols(tickers), network, market, clock, tr, toFixed)
    ensures store.soundCount
            == old(store.soundCount) + ScanSounds(old(store.alerts), TopSymbols(tickers), network, market, clock, tr, toFixed)
  {
    var symbols := TopSymbols(tickers);
    if |symbols| == 0 {
      return;
    }
    ScanSymbols(store, symbols, market, network, clock, tr, toFixed);
  }

  /** The scanner's loop: each of `symbols` in turn. */
  method ScanSymbols(store: AlertStore, symbols: seq<string>, market: MarketType, network: KlinesRequest -> Json<Row>,
                     clock: seq<int>, tr: Translation, toFixed: (real, nat) -> string)
    requires store.Valid() && |clock| == |symbols|
    requires forall s | s in symbols :: Scannable(network, market, s)
    modifies store
    ensures store.Valid()
    ensures store.alerts == ScanLog(old(store.alerts), symbols, network, market, clock, tr, toFixed)
    ensures store.soundCount
            == old(store.soundCount) + ScanSounds(old(store.alerts), symbols, network, market, clock, tr, toFixed)
  {
    for i := 0 to |symbols|
      invariant store.Valid()
      invariant ScanLog(store.alerts, symbols[i..], network, market, clock[i..], tr, toFixed)
                == ScanLog(old(store.alerts), symbols, network, market, clock, tr, toFixed)
      invariant store.soundCount + ScanSounds(store.alerts, symbols[i..], network, market, clock[i..], tr, toFixed)
                == old(store.soundCount) + ScanSounds(old(store.alerts), symbols, network, market, clock, tr, toFixed)
    {
      ScanStep(store.alerts, symbols, i, network, market, clock, tr, toFixed);
      ScanSymbol(store, symbols[i], market, network, clock[i], tr, toFixed);
    }
  }

  /** The scanner's work on one symbol: fetch its candles and offer any anomaly they show. */
  method ScanSymbol(store: AlertStore, symbol: string, market: MarketType, network: KlinesRequest -> Json<Row>,
                    now: int, tr: Translation, toFixed: (real, nat) -> string)
    requires store.Valid() && Scannable(network, market, symbol)
    modifies store
    ensures store.Valid()
    ensures var c := Candidate(symbol, network, market, now, tr, toFixed);
            store.alerts == (if c.Some? then Offered(old(store.alerts), c.value, now) else old(store.alerts))
            && store.soundCount
               == old(store.soundCount) + (if c.Some? && !IsDuplicate(old(store.alerts), c.value, now) then 1 else 0)
  {
    var candles := DecodeKlines(network(ScanRequest(symbol, market)));
    if |candles| >= 2 {
      var anomaly := CheckAnomaly(Some(candles[|candles| - 1]), Some(candles[|candles| - 2]));
      if anomaly.Some? {
        var accepted := store.Offer(AlertFor(symbol, anomaly.value, now, tr, toFixed), now);
      }
    }
  }
}
