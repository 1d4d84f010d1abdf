/**
 * The fear and greed page (components/FearGreedIndex.tsx): the five bands of
 * the index with their colours, and the view built from the fetched
 * readings, which arrive newest first.
 */
module FearGreedView {
  import opened Wrappers
  import opened Types
  import opened Seqs

  datatype Band = ExtremeFear | Fear | Neutral | Greed | ExtremeGreed

  /** The band of an index value, by the page's if/else chain. */
  function BandOf(value: int): Band {
    if value < 25 then ExtremeFear
    else if value < 50 then Fear
    else if value == 50 then Neutral
    else if value < 75 then Greed
    else ExtremeGreed
  }

  /** The accent colour of a band. */
  function BandColour(b: Band): string {
    match b
    case ExtremeFear => "#ef4444"
    case Fear => "#f97316"
    case Neutral => "#eab308"
    case Greed => "#84cc16"
    case ExtremeGreed => "#22c55e"
  }

  /** The position of a band on the scale from fear to greed. */
  function Rank(b: Band): nat {
    match b
    case ExtremeFear => 0
    case Fear => 1
    case Neutral => 2
    case Greed => 3
    case ExtremeGreed => 4
  }

  /** Each band is exactly an interval of values; 50 alone is neutral. */
  lemma BandBoundaries(value: int)
    ensures BandOf(value) == ExtremeFear <==> value < 25
    ensures BandOf(value) == Fear <==> 25 <= value < 50
    ensures BandOf(value) == Neutral <==> value == 50
    ensures BandOf(value) == Greed <==> 50 < value < 75
    ensures BandOf(value) == ExtremeGreed <==> 75 <= value
  {
  }

  /** A higher value never lands in a more fearful band. */
  lemma BandMonotone(v: int, w: int)
    requires v <= w
    ensures Rank(BandOf(v)) <= Rank(BandOf(w))
  {
  }

  /** Distinct bands have distinct colours. */
  lemma ColoursDistinct(b1: Band, b2: Band)
    ensures BandColour(b1) == BandColour(b2) <==> b1 == b2
  {
    if b1 != b2 {
      assert BandColour(b1)[1] != BandColour(b2)[1] || BandColour(b1)[2] != BandColour(b2)[2];
    }
  }

  /** One point of the history chart: the reading's time (in seconds) and its value. */
  datatype ChartPoint = ChartPoint(timestamp: int, value: int)

  function Point(d: FearGreedData): ChartPoint {
    ChartPoint(d.timestamp, d.value)
  }

  /** The chart series: the readings reversed, so the oldest comes first. */
  function Series(data: seq<FearGreedData>): (r: seq<ChartPoint>)
    ensures |r| == |data|
    ensures forall i :: 0 <= i < |data| ==> r[i] == Point(data[|data| - 1 - i])
  {
    var rev := Reverse(data);
    seq(|rev|, i requires 0 <= i < |rev| => Point(rev[i]))
  }

  /** Readings delivered newest first give a chart whose time runs left to right. */
  lemma SeriesIsChronological(data: seq<FearGreedData>)
    requires forall i, j :: 0 <= i < j < |data| ==> data[i].timestamp > data[j].timestamp
    ensures forall i, j :: 0 <= i < j < |data| ==> Series(data)[i].timestamp < Series(data)[j].timestamp
  {
    var s := Series(data);
    forall i, j | 0 <= i < j < |data|
      ensures s[i].timestamp < s[j].timestamp
    {
      assert s[i] == Point(data[|data| - 1 - i]);
      assert s[j] == Point(data[|data| - 1 - j]);
    }
  }

  /** What the page shows. */
  datatype View =
    | Loading
    | Retry
    | Loaded(current: FearGreedData, band: Band, yesterday: Option<int>, lastWeek: Option<int>,
             series: seq<ChartPoint>, nextUpdateMinutes: Option<int>)

  /** A reading `k` days back, when the list goes that far. */
  function ValueAt(data: seq<FearGreedData>, k: nat): Option<int> {
    if k < |data| then Some(data[k].value) else None
  }

  /** The view of the fetched readings while the fetch is (or is not) in flight. */
  function ViewOf(data: seq<FearGreedData>, loading: bool): (r: View)
    ensures data == [] ==> r == (if loading then Loading else Retry)
    ensures data != [] ==> r.Loaded? && r.current == data[0] && r.band == BandOf(data[0].value)
  {
    if data == [] then (if loading then Loading else Retry)
    else
      var current := data[0];
      Loaded(current, BandOf(current.value), ValueAt(data, 1), ValueAt(data, 7), Series(data),
             match current.timeUntilUpdate
             case None => None
             case Some(secs) => Some(secs / 60))
  }

  /**
   * The loaded view shows the newest reading, the one before it as
   * "yesterday" and the eighth as "last week" (each only when the list
   * reaches it), the whole history oldest first, and the minutes to the next
   * update rounded down.
   */
  lemma LoadedViewSelects(data: seq<FearGreedData>, loading: bool)
    requires data != []
    ensures ViewOf(data, loading).yesterday.Some? <==> |data| > 1
    ensures |data| > 1 ==> ViewOf(data, loading).yesterday.value == data[1].value
    ensures ViewOf(data, loading).lastWeek.Some? <==> |data| > 7
    ensures |data| > 7 ==> ViewOf(data, loading).lastWeek.value == data[7].value
    ensures ViewOf(data, loading).series == Series(data)
    ensures ViewOf(data, loading).series[|data| - 1] == Point(data[0])
    ensures ViewOf(data, loading).nextUpdateMinutes.Some? <==> data[0].timeUntilUpdate.Some?
    ensures data[0].timeUntilUpdate.Some? && data[0].timeUntilUpdate.value >= 0 ==>
      var secs := data[0].timeUntilUpdate.value;
      var m := ViewOf(data, loading).nextUpdateMinutes.value;
      0 <= m && m * 60 <= secs < (m + 1) * 60
  {
  }
}
