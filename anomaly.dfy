/**
 * The anomaly rule of the market scanner (services/binanceService.ts,
 * `checkAnomaly`): compare the latest candle with the one before it.
 * A volume spike takes precedence; otherwise a close-to-close move beyond
 * plus or minus ten percent is a surge or a dump.
 */
module Anomaly {
  import opened Wrappers
  import opened Types

  datatype AnomalyKind = Volume | Surge | Dump

  /** The kind of anomaly and its size in percent (signed for price moves). */
  datatype Anomaly = Anomaly(kind: AnomalyKind, diff: real)

  /** Volume must exceed the previous candle's by this factor. */
  const SpikeFactor: real := 1.3
  /** Close-to-close move, in percent, beyond which the price is anomalous. */
  const MoveThreshold: real := 10.0

  predicate IsVolumeSpike(current: Kline, previous: Kline) {
    current.volume > previous.volume * SpikeFactor
  }

  /** Change from `from` to `to`, in percent of `from`. */
  function PercentChange(from: real, to: real): (r: real)
    requires from != 0.0
    ensures r * from == (to - from) * 100.0
  {
    (to - from) / from * 100.0
  }

  /**
   * The divisions on the branch `CheckAnomaly` takes have a non-zero divisor:
   * the previous volume when the volume spikes, the previous close otherwise.
   * (The source divides by zero there and gets an infinite or NaN percentage.)
   */
  predicate Evaluable(current: Option<Kline>, previous: Option<Kline>) {
    current.Some? && previous.Some? ==>
      if IsVolumeSpike(current.value, previous.value) then previous.value.volume != 0.0
      else previous.value.close != 0.0
  }

  /** `checkAnomaly(current, previous)`, with a missing candle as `None`. */
  function CheckAnomaly(current: Option<Kline>, previous: Option<Kline>): (r: Option<Anomaly>)
    requires Evaluable(current, previous)
    ensures current.None? || previous.None? ==> r.None?
    ensures current.Some? && previous.Some? ==>
              (r.Some? && r.value.kind == Volume <==> IsVolumeSpike(current.value, previous.value))
    ensures r.Some? && r.value.kind == Volume ==>
              r.value.diff * previous.value.volume == (current.value.volume - previous.value.volume) * 100.0
    ensures r.Some? && r.value.kind != Volume ==>
              r.value.diff * previous.value.close == (current.value.close - previous.value.close) * 100.0
    ensures r.Some? && r.value.kind == Surge ==> r.value.diff > MoveThreshold
    ensures r.Some? && r.value.kind == Dump ==> r.value.diff < -MoveThreshold
  {
    if current.None? || previous.None? then None
    else
      var cur, prev := current.value, previous.value;
      if IsVolumeSpike(cur, prev) then
        Some(Anomaly(Volume, PercentChange(prev.volume, cur.volume)))
      else
        var change := PercentChange(prev.close, cur.close);
        if change > MoveThreshold then Some(Anomaly(Surge, change))
        else if change < -MoveThreshold then Some(Anomaly(Dump, change))
        else None
  }

  /**
   * The rule stated on the candles themselves, for positive previous volume
   * and close: a spike iff volume grew by more than 30% (and then the reported
   * percentage exceeds 30), else a surge iff the close rose above 110% of the
   * previous close, a dump iff it fell below 90% of it, and nothing otherwise,
   * so a move of exactly 10% either way is not an anomaly.
   */
  lemma {:induction false} CheckAnomalyByRatios(cur: Kline, prev: Kline)
    requires prev.volume > 0.0 && prev.close > 0.0
    ensures Evaluable(Some(cur), Some(prev))
    ensures var r := CheckAnomaly(Some(cur), Some(prev));
      && (r.Some? && r.value.kind == Volume <==> cur.volume > prev.volume * 1.3)
      && (r.Some? && r.value.kind == Volume ==> r.value.diff > 30.0)
      && (r.Some? && r.value.kind == Surge <==> cur.volume <= prev.volume * 1.3 && cur.close > prev.close * 1.1)
      && (r.Some? && r.value.kind == Dump <==> cur.volume <= prev.volume * 1.3 && cur.close < prev.close * 0.9)
      && (r.None? <==> cur.volume <= prev.volume * 1.3 && prev.close * 0.9 <= cur.close <= prev.close * 1.1)
  {
    var r := CheckAnomaly(Some(cur), Some(prev));
    var vc := PercentChange(prev.volume, cur.volume);
    var pc := PercentChange(prev.close, cur.close);
    assert vc * prev.volume == (cur.volume - prev.volume) * 100.0;
    assert pc * prev.close == (cur.close - prev.close) * 100.0;
    PercentAbove(prev.volume, cur.volume, 30.0, 1.3);
    PercentAbove(prev.close, cur.close, 10.0, 1.1);
    PercentBelow(prev.close, cur.close, -10.0, 0.9);
  }

  /** For a positive base, the change exceeds `t` percent iff `to > from * f`, where `f = 1 + t/100`. */
  lemma PercentAbove(from: real, to: real, t: real, f: real)
    requires from > 0.0 && f == 1.0 + t / 100.0
    ensures PercentChange(from, to) > t <==> to > from * f
  {
    var c := PercentChange(from, to);
    assert c == (to - from) * 100.0 / from;
    assert c > t <==> (to - from) * 100.0 > t * from;
  }

  /** For a positive base, the change is below `t` percent iff `to < from * f`, where `f = 1 + t/100`. */
  lemma PercentBelow(from: real, to: real, t: real, f: real)
    requires from > 0.0 && f == 1.0 + t / 100.0
    ensures PercentChange(from, to) < t <==> to < from * f
  {
    var c := PercentChange(from, to);
    assert c == (to - from) * 100.0 / from;
    assert c < t <==> (to - from) * 100.0 < t * from;
  }

  /** A 40% volume rise wins over a simultaneous 15% price rise. */
  lemma VolumeTakesPrecedence()
    ensures CheckAnomaly(Some(Kline(1, 100.0, 115.0, 100.0, 115.0, 140.0)),
                         Some(Kline(0, 100.0, 100.0, 100.0, 100.0, 100.0)))
            == Some(Anomaly(Volume, 40.0))
  {
  }

  /** Exactly 1.3 times the volume and exactly +10% are below both thresholds. */
  lemma ThresholdsAreStrict()
    ensures CheckAnomaly(Some(Kline(1, 100.0, 110.0, 100.0, 110.0, 130.0)),
                         Some(Kline(0, 100.0, 100.0, 100.0, 100.0, 100.0))) == None
  {
  }
}
