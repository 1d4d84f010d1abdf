/**
 * The funding-rate dashboard (components/ArbitrageDashboard.tsx): the rows
 * split into a positive-rate table (highest first) and a negative-rate table
 * (most negative first), 50 rows each, and the countdown to the next funding
 * settlement.
 */
module ArbitrageView {
  import opened Types
  import opened Seqs
  import opened Sorting
  import opened Strings

  /** Rows per table. */
  const TableSize: nat := 50

  function RateOf(d: ArbitrageData): real { d.fundingRate }
  function NegRateOf(d: ArbitrageData): real { -d.fundingRate }
  predicate PositiveRate(d: ArbitrageData) { d.fundingRate > 0.0 }
  predicate NegativeRate(d: ArbitrageData) { d.fundingRate < 0.0 }

  /** `[...data].filter(rate > 0).sort(rate descending).slice(0, 50)`. */
  function PositiveRates(data: seq<ArbitrageData>): seq<ArbitrageData> {
    TopN(Filter(data, PositiveRate), RateOf, TableSize)
  }

  /** `[...data].filter(rate < 0).sort(rate ascending).slice(0, 50)`. */
  function NegativeRates(data: seq<ArbitrageData>): seq<ArbitrageData> {
    TopN(Filter(data, NegativeRate), NegRateOf, TableSize)
  }

  /**
   * The positive table holds only rows of `data` with a positive rate, at
   * most 50, highest rate first; it holds every such row when there are at
   * most 50, and otherwise no row left out has a higher rate than one shown.
   */
  lemma PositiveRatesSelect(data: seq<ArbitrageData>)
    ensures |PositiveRates(data)| == Min(|Filter(data, PositiveRate)|, TableSize)
    ensures forall i :: 0 <= i < |PositiveRates(data)| ==> PositiveRates(data)[i].fundingRate > 0.0
    ensures SortedDesc(PositiveRates(data), RateOf)
    ensures multiset(PositiveRates(data)) <= multiset(data)
    ensures |Filter(data, PositiveRate)| <= TableSize ==> multiset(PositiveRates(data)) == multiset(Filter(data, PositiveRate))
    ensures forall i, j :: 0 <= i < |PositiveRates(data)| <= j < |Filter(data, PositiveRate)| ==>
              RateOf(PositiveRates(data)[i]) >= RateOf(SortDesc(Filter(data, PositiveRate), RateOf)[j])
  {
    TopOfFiltered(data, PositiveRate, RateOf, TableSize);
  }

  /**
   * The negative table likewise: only rows with a negative rate, at most 50,
   * most negative first (descending on the negated rate), all of them when
   * there are at most 50.
   */
  lemma NegativeRatesSelect(data: seq<ArbitrageData>)
    ensures |NegativeRates(data)| == Min(|Filter(data, NegativeRate)|, TableSize)
    ensures forall i :: 0 <= i < |NegativeRates(data)| ==> NegativeRates(data)[i].fundingRate < 0.0
    ensures SortedDesc(NegativeRates(data), NegRateOf)
    ensures multiset(NegativeRates(data)) <= multiset(data)
    ensures |Filter(data, NegativeRate)| <= TableSize ==> multiset(NegativeRates(data)) == multiset(Filter(data, NegativeRate))
    ensures forall i, j :: 0 <= i < |NegativeRates(data)| <= j < |Filter(data, NegativeRate)| ==>
              NegRateOf(NegativeRates(data)[i]) >= NegRateOf(SortDesc(Filter(data, NegativeRate), NegRateOf)[j])
  {
    TopOfFiltered(data, NegativeRate, NegRateOf, TableSize);
  }

  /**
   * With at most 50 positive rates the positive table is complete: it holds
   * each row of `data` with a positive rate as often as `data` does, and
   * nothing else.
   */
  lemma PositiveRatesComplete(data: seq<ArbitrageData>)
    requires |Filter(data, PositiveRate)| <= TableSize
    ensures forall d :: multiset(PositiveRates(data))[d] == if PositiveRate(d) then multiset(data)[d] else 0
  {
    TopOfFilteredComplete(data, PositiveRate, RateOf, TableSize);
  }

  /** The negative table likewise, with at most 50 negative rates. */
  lemma NegativeRatesComplete(data: seq<ArbitrageData>)
    requires |Filter(data, NegativeRate)| <= TableSize
    ensures forall d :: multiset(NegativeRates(data))[d] == if NegativeRate(d) then multiset(data)[d] else 0
  {
    TopOfFilteredComplete(data, NegativeRate, NegRateOf, TableSize);
  }

  /** No row is in both tables, and a zero-rate row is in neither. */
  lemma TablesDisjoint(data: seq<ArbitrageData>, d: ArbitrageData)
    ensures !(d in PositiveRates(data) && d in NegativeRates(data))
    ensures d.fundingRate == 0.0 ==> d !in PositiveRates(data) && d !in NegativeRates(data)
  {
    PositiveRatesSelect(data);
    NegativeRatesSelect(data);
  }

  /** What the next-settlement cell shows. */
  datatype Countdown = Settled | Remaining(hours: int, minutes: int)

  const MsPerHour: int := 1000 * 60 * 60
  const MsPerMinute: int := 1000 * 60

  /**
   * The time left until `nextFundingTime` at `now`: settled when it has passed,
   * otherwise whole hours and the whole minutes left over.
   */
  function CountdownOf(nextFundingTime: int, now: int): (c: Countdown)
    ensures c.Settled? <==> nextFundingTime - now < 0
    ensures c.Remaining? ==>
      && 0 <= c.hours && 0 <= c.minutes < 60
      && c.hours * MsPerHour + c.minutes * MsPerMinute <= nextFundingTime - now
      < c.hours * MsPerHour + (c.minutes + 1) * MsPerMinute
  {
    var diff := nextFundingTime - now;
    if diff < 0 then Settled
    else
      var hours, minutes := diff / MsPerHour, (diff % MsPerHour) / MsPerMinute;
      assert diff == hours * MsPerHour + diff % MsPerHour;
      assert diff % MsPerHour == minutes * MsPerMinute + (diff % MsPerHour) % MsPerMinute;
      Remaining(hours, minutes)
  }

  /** The text of the cell: `00:00:00`, or `<hours>h <minutes>m`. */
  function CountdownText(c: Countdown): string {
    match c
    case Settled => "00:00:00"
    case Remaining(h, m) => IntToString(h) + "h " + IntToString(m) + "m"
  }

  /** The cell reads `00:00:00` exactly when the settlement time has passed; at the instant itself it reads `0h 0m`. */
  lemma CountdownTextSettled(nextFundingTime: int, now: int)
    ensures CountdownText(CountdownOf(nextFundingTime, now)) == "00:00:00" <==> nextFundingTime < now
    ensures CountdownText(CountdownOf(now, now)) == "0h 0m"
  {
    var c := CountdownOf(nextFundingTime, now);
    if c.Remaining? {
      var t := CountdownText(c);
      assert t[|IntToString(c.hours)|] == 'h';
      assert 'h' !in "00:00:00";
    }
  }

  /** The token column of a row. */
  function Token(d: ArbitrageData): string {
    BaseAsset(d.symbol)
  }
}
