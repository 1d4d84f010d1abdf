/**
 * The simulated cross-exchange comparison (getCrossChainData in
 * services/binanceService.ts): for each target pair found in the spot price
 * list, two simulated venue prices are derived from the spot price, the most
 * profitable of four transfer paths is chosen, and rows whose spread exceeds
 * 0.1% are kept, widest spread first.
 */
module CrossChain {
  import opened Wrappers
  import opened Types
  import opened Sorting

  /** The pairs compared, in the order they are examined. */
  const TargetSymbols: seq<string> :=
    ["BTCUSDT", "ETHUSDT", "SOLUSDT", "BNBUSDT", "ADAUSDT", "DOGEUSDT", "XRPUSDT", "DOTUSDT", "AVAXUSDT", "MATICUSDT"]

  /** The smallest spread, in percent, for which a row is kept. */
  const MinSpread: real := 0.1

  /**
   * `(num / den) * 100`. The denominator is zero only when a price is zero, in
   * which case the numerator is zero too and the quotient is NaN, here `None`.
   */
  function Percent(num: real, den: real): (r: Option<real>)
    ensures r.Some? <==> den != 0.0
    ensures r.Some? ==> r.value * den == num * 100.0
  {
    if den == 0.0 then None else Some(num / den * 100.0)
  }

  /** One transfer path: its name, its spread in percent (`None` for NaN) and its profit per unit. */
  datatype Path = Path(name: string, spread: Option<real>, profit: real)

  /** The four paths between the spot price and the two simulated venue prices. */
  function Paths(binance: real, aster: real, hype: real): (r: seq<Path>)
    ensures |r| == 4
    ensures forall j, k :: 0 <= j < k < |r| ==> r[j].name != r[k].name
    ensures forall k :: 0 <= k < |r| ==> r[k].name != NoRoute.name
  {
    [ Path("Binance → Aster", Percent(aster - binance, binance), aster - binance),
      Path("Aster → Binance", Percent(binance - aster, aster), binance - aster),
      Path("Binance → Hype", Percent(hype - binance, binance), hype - binance),
      Path("Hype → Binance", Percent(binance - hype, hype), binance - hype) ]
  }

  /**
   * `p` buys at `buy` and sells at `sell`: its profit is the difference, and
   * its spread is defined, is that profit as a percentage of the buying
   * price, and is positive exactly when selling beats buying.
   */
  ghost predicate Transfer(p: Path, buy: real, sell: real) {
    && p.profit == sell - buy
    && p.spread.Some?
    && p.spread.value * buy == p.profit * 100.0
    && (p.spread.value > 0.0 <==> sell > buy)
  }

  /**
   * With positive prices each path is a transfer between two venues, and the
   * two directions between the same venues have opposite profits.
   */
  lemma PathsAreTransfers(binance: real, aster: real, hype: real)
    requires binance > 0.0 && aster > 0.0 && hype > 0.0
    ensures var r := Paths(binance, aster, hype);
      && Transfer(r[0], binance, aster) && Transfer(r[1], aster, binance)
      && Transfer(r[2], binance, hype) && Transfer(r[3], hype, binance)
      && r[1].profit == -r[0].profit && r[3].profit == -r[2].profit
  {
    var r := Paths(binance, aster, hype);
    PathIsTransfer(r[0], binance, aster);
    PathIsTransfer(r[1], aster, binance);
    PathIsTransfer(r[2], binance, hype);
    PathIsTransfer(r[3], hype, binance);
  }

  /** A path priced as `Paths` prices it is a transfer. */
  lemma PathIsTransfer(p: Path, buy: real, sell: real)
    requires buy > 0.0 && p.spread == Percent(sell - buy, buy) && p.profit == sell - buy
    ensures Transfer(p, buy, sell)
  {
    var x := p.spread.value;
    if x > 0.0 {
      assert x * buy > 0.0;
    } else {
      assert x * buy <= 0.0;
    }
  }

  /** The running choice: route name, best spread so far and its profit. */
  datatype Route = Route(name: string, spread: real, profit: real)

  /** The choice before any path is examined. */
  const NoRoute: Route := Route("None", 0.0, 0.0)

  function RouteOf(p: Path): Route
    requires p.spread.Some?
  {
    Route(p.name, p.spread.value, p.profit)
  }

  /** `p` beats a choice whose spread is `best`; a NaN spread never does. */
  predicate Beats(p: Path, best: real) {
    p.spread.Some? && p.spread.value > best
  }

  /**
   * The choice after examining `paths` in order starting from `cur`: a path
   * replaces the choice only when its spread is strictly greater.
   */
  function BestFrom(paths: seq<Path>, cur: Route): (r: Route)
    ensures r.spread >= cur.spread
    decreases |paths|
  {
    if paths == [] then cur
    else BestFrom(paths[1..], if Beats(paths[0], cur.spread) then RouteOf(paths[0]) else cur)
  }

  /**
   * The choice is never beaten by any path, and it is either `cur` (when no
   * path beats `cur`) or a path beating `cur` whose spread every earlier
   * path falls strictly short of: the first path with the greatest spread.
   */
  lemma {:induction false} BestFromIsFirstMaximum(paths: seq<Path>, cur: Route)
    ensures var r := BestFrom(paths, cur);
      && (forall j :: 0 <= j < |paths| ==> !Beats(paths[j], r.spread))
      && ((forall j :: 0 <= j < |paths| ==> !Beats(paths[j], cur.spread)) ==> r == cur)
      && (r == cur || exists k :: 0 <= k < |paths| && Beats(paths[k], cur.spread) && r == RouteOf(paths[k])
                                  && AheadOfEarlier(paths, k))
    decreases |paths|
  {
    if paths != [] {
      var next := if Beats(paths[0], cur.spread) then RouteOf(paths[0]) else cur;
      var tail := paths[1..];
      BestFromIsFirstMaximum(tail, next);
      var r := BestFrom(paths, cur);
      assert r == BestFrom(tail, next);
      assert forall j :: 1 <= j < |paths| ==> paths[j] == tail[j - 1];
      if r != cur && r != next {
        var k :| 0 <= k < |tail| && Beats(tail[k], next.spread) && r == RouteOf(tail[k])
                 && AheadOfEarlier(tail, k);
        assert Beats(paths[k + 1], cur.spread) && r == RouteOf(paths[k + 1]);
        AheadOfEarlierCons(paths, cur, k);
      }
    }
  }

  /** Path `k` has a spread, and every path before it has a strictly smaller one or none. */
  predicate AheadOfEarlier(paths: seq<Path>, k: nat)
    requires k < |paths|
  {
    paths[k].spread.Some?
    && forall j :: 0 <= j < k ==> paths[j].spread.None? || paths[j].spread.value < paths[k].spread.value
  }

  /**
   * If path `k` of the tail is ahead of the tail's earlier paths and beats
   * the choice made after the head, it is ahead of the head too.
   */
  lemma AheadOfEarlierCons(paths: seq<Path>, cur: Route, k: nat)
    requires k + 1 < |paths| && AheadOfEarlier(paths[1..], k)
    requires Beats(paths[k + 1], (if Beats(paths[0], cur.spread) then RouteOf(paths[0]) else cur).spread)
    requires Beats(paths[k + 1], cur.spread)
    ensures AheadOfEarlier(paths, k + 1)
  {
    forall j | 1 <= j < k + 1
      ensures paths[j].spread.None? || paths[j].spread.value < paths[k + 1].spread.value
    {
      assert paths[j] == paths[1..][j - 1];
    }
  }

  /** The route chosen among `paths`: the first with the greatest spread above 0, else "None". */
  function BestRoute(paths: seq<Path>): Route {
    BestFrom(paths, NoRoute)
  }

  /** The loop over the paths with its running maximum, route name and profit. */
  method ChooseRoute(paths: seq<Path>) returns (best: Route)
    ensures best == BestRoute(paths)
  {
    var maxSpread := 0.0;
    var bestRoute := "None";
    var profit := 0.0;
    for i := 0 to |paths|
      invariant BestFrom(paths[i..], Route(bestRoute, maxSpread, profit)) == BestRoute(paths)
    {
      assert paths[i..][1..] == paths[i + 1..];
      var p := paths[i];
      if p.spread.Some? && p.spread.value > maxSpread {
        maxSpread := p.spread.value;
        bestRoute := p.name;
        profit := p.profit;
      }
    }
    best := Route(bestRoute, maxSpread, profit);
  }

  /** The first record for `symbol` in the spot price list (`find`), if any. */
  function FirstPrice(spot: seq<SpotPrice>, symbol: string): (r: Option<real>)
    ensures r.None? <==> forall j :: 0 <= j < |spot| ==> spot[j].symbol != symbol
    ensures r.Some? ==> exists k :: 0 <= k < |spot| && spot[k] == SpotPrice(symbol, r.value)
                                    && forall j :: 0 <= j < k ==> spot[j].symbol != symbol
  {
    if spot == [] then None
    else if spot[0].symbol == symbol then Some(spot[0].price)
    else
      var r := FirstPrice(spot[1..], symbol);
      assert forall j :: 1 <= j < |spot| ==> spot[j] == spot[1..][j - 1];
      r
  }

  /** The variations a random draw can produce: in [0.98, 1.02) for one venue and [0.97, 1.03) for the other. */
  predicate Variations(asterVar: seq<real>, hypeVar: seq<real>) {
    |asterVar| == |TargetSymbols| && |hypeVar| == |TargetSymbols|
    && (forall i :: 0 <= i < |asterVar| ==> 0.98 <= asterVar[i] < 1.02)
    && (forall i :: 0 <= i < |hypeVar| ==> 0.97 <= hypeVar[i] < 1.03)
  }

  /** A venue price simulated from the spot price and a random variation. */
  function Simulated(price: real, variation: real): real { price * variation }

  /** The row for one pair at the three prices, kept only above the minimum spread. */
  function Entry(symbol: string, binance: real, aster: real, hype: real): (r: Option<CrossChainData>)
    ensures r.Some? ==> r.value.symbol == symbol && r.value.spreadPercent > MinSpread
  {
    var best := BestRoute(Paths(binance, aster, hype));
    if best.spread > MinSpread then Some(CrossChainData(symbol, binance, aster, hype, best.name, best.spread, best.profit))
    else None
  }

  /**
   * A kept row names one of the four paths, carries that path's spread and
   * profit, every earlier path has a strictly narrower spread (or none), and
   * no path has a wider spread: it is the first path with the widest spread.
   */
  lemma EntryIsBestPath(symbol: string, binance: real, aster: real, hype: real)
    ensures var r := Entry(symbol, binance, aster, hype);
      var paths := Paths(binance, aster, hype);
      r.Some? ==>
        && r.value.bestRoute != NoRoute.name
        && (exists k :: 0 <= k < |paths| && paths[k].name == r.value.bestRoute
                        && paths[k].spread == Some(r.value.spreadPercent) && paths[k].profit == r.value.profitPerUnit
                        && forall j :: 0 <= j < k ==> paths[j].spread.None? || paths[j].spread.value < r.value.spreadPercent)
        && forall j :: 0 <= j < |paths| ==> !Beats(paths[j], r.value.spreadPercent)
  {
    var paths := Paths(binance, aster, hype);
    BestFromIsFirstMaximum(paths, NoRoute);
    assert forall k :: 0 <= k < |paths| ==> paths[k].name != NoRoute.name;
  }

  /** The rows of the first `n` target pairs, in target order. */
  function Rows(spot: seq<SpotPrice>, asterVar: seq<real>, hypeVar: seq<real>, n: nat): (r: seq<CrossChainData>)
    requires Variations(asterVar, hypeVar) && n <= |TargetSymbols|
    ensures |r| <= n
  {
    if n == 0 then []
    else
      var prev := Rows(spot, asterVar, hypeVar, n - 1);
      var i := n - 1;
      var price := FirstPrice(spot, TargetSymbols[i]);
      if price.None? then prev
      else match Entry(TargetSymbols[i], price.value, Simulated(price.value, asterVar[i]), Simulated(price.value, hypeVar[i]))
        case None => prev
        case Some(e) => prev + [e]
  }

  /** One more target pair: its row, if kept, goes after the rows before it. */
  lemma RowsStep(spot: seq<SpotPrice>, asterVar: seq<real>, hypeVar: seq<real>, i: nat,
                 binance: real, aster: real, hype: real, best: Route)
    requires Variations(asterVar, hypeVar) && i < |TargetSymbols|
    requires FirstPrice(spot, TargetSymbols[i]) == Some(binance)
    requires aster == Simulated(binance, asterVar[i]) && hype == Simulated(binance, hypeVar[i])
    requires best == BestRoute(Paths(binance, aster, hype))
    ensures Rows(spot, asterVar, hypeVar, i + 1)
            == Rows(spot, asterVar, hypeVar, i)
               + if best.spread > MinSpread
                 then [CrossChainData(TargetSymbols[i], binance, aster, hype, best.name, best.spread, best.profit)]
                 else []
  {
    var prev := Rows(spot, asterVar, hypeVar, i);
    var e := Entry(TargetSymbols[i], binance, aster, hype);
    assert Rows(spot, asterVar, hypeVar, i + 1) == if e.Some? then prev + [e.value] else prev;
    if e.None? {
      assert prev + [] == prev;
    }
  }

  /** A row above the minimum spread, for a target pair found in the spot list. */
  predicate SoundRow(d: CrossChainData, spot: seq<SpotPrice>) {
    d.spreadPercent > MinSpread && d.symbol in TargetSymbols && FirstPrice(spot, d.symbol).Some?
  }

  /** Every row is above the minimum spread and belongs to a target pair found in the spot list. */
  lemma {:induction false} RowsSound(spot: seq<SpotPrice>, asterVar: seq<real>, hypeVar: seq<real>, n: nat)
    requires Variations(asterVar, hypeVar) && n <= |TargetSymbols|
    ensures forall k :: 0 <= k < |Rows(spot, asterVar, hypeVar, n)| ==> SoundRow(Rows(spot, asterVar, hypeVar, n)[k], spot)
  {
    if n > 0 {
      RowsSound(spot, asterVar, hypeVar, n - 1);
      var prev, r := Rows(spot, asterVar, hypeVar, n - 1), Rows(spot, asterVar, hypeVar, n);
      var symbol := TargetSymbols[n - 1];
      forall k | 0 <= k < |r|
        ensures SoundRow(r[k], spot)
      {
        if k < |prev| {
          assert r[k] == prev[k];
          assert SoundRow(prev[k], spot);
        } else {
          var price := FirstPrice(spot, symbol);
          assert price.Some?;
          var e := Entry(symbol, price.value, Simulated(price.value, asterVar[n - 1]), Simulated(price.value, hypeVar[n - 1]));
          assert e.Some? && r == prev + [e.value];
          assert r[k] == e.value && e.value.symbol == symbol;
        }
      }
    }
  }

  /** The ten target pairs are different pairs. */
  lemma TargetsDistinct()
    ensures forall i, j :: 0 <= i < j < |TargetSymbols| ==> TargetSymbols[i] != TargetSymbols[j]
  {
  }

  /** Every row's symbol is one of `pairs`, and no two rows share a symbol. */
  predicate OnePerPair(rows: seq<CrossChainData>, pairs: seq<string>) {
    && (forall k :: 0 <= k < |rows| ==> rows[k].symbol in pairs)
    && (forall j, k :: 0 <= j < k < |rows| ==> rows[j].symbol != rows[k].symbol)
  }

  /** Adding a row for a pair not yet among `pairs` keeps one row per pair. */
  lemma OnePerPairAppend(rows: seq<CrossChainData>, pairs: seq<string>, d: CrossChainData)
    requires OnePerPair(rows, pairs) && d.symbol !in pairs
    ensures OnePerPair(rows + [d], pairs + [d.symbol])
  {
  }

  /** Examining pair `n - 1` adds at most one row, and that row is for the pair. */
  lemma RowsGrowth(spot: seq<SpotPrice>, asterVar: seq<real>, hypeVar: seq<real>, n: nat)
    requires Variations(asterVar, hypeVar) && 0 < n <= |TargetSymbols|
    ensures var prev, r := Rows(spot, asterVar, hypeVar, n - 1), Rows(spot, asterVar, hypeVar, n);
      r == prev || (|r| == |prev| + 1 && r == prev + [r[|prev|]] && r[|prev|].symbol == TargetSymbols[n - 1])
  {
  }

  /**
   * The rows of the first `n` target pairs belong to those pairs, one row
   * per pair at most: no two rows share a symbol.
   */
  lemma {:induction false} RowsDistinct(spot: seq<SpotPrice>, asterVar: seq<real>, hypeVar: seq<real>, n: nat)
    requires Variations(asterVar, hypeVar) && n <= |TargetSymbols|
    ensures OnePerPair(Rows(spot, asterVar, hypeVar, n), TargetSymbols[..n])
  {
    if n > 0 {
      RowsDistinct(spot, asterVar, hypeVar, n - 1);
      RowsGrowth(spot, asterVar, hypeVar, n);
      TargetsDistinct();
      var prev, r := Rows(spot, asterVar, hypeVar, n - 1), Rows(spot, asterVar, hypeVar, n);
      var front := TargetSymbols[..n - 1];
      assert TargetSymbols[..n] == front + [TargetSymbols[n - 1]];
      assert TargetSymbols[n - 1] !in front;
      if r != prev {
        OnePerPairAppend(prev, front, r[|prev|]);
      }
    }
  }

  function SpreadOf(d: CrossChainData): real { d.spreadPercent }

  /** The table: the rows of all target pairs, sorted by spread, widest first, ties in target order. */
  function CrossChainTable(spot: seq<SpotPrice>, asterVar: seq<real>, hypeVar: seq<real>): seq<CrossChainData>
    requires Variations(asterVar, hypeVar)
  {
    SortDesc(Rows(spot, asterVar, hypeVar, |TargetSymbols|), SpreadOf)
  }

  /**
   * The table holds at most one row per target pair found in the spot list,
   * every one above the minimum spread with a real route, widest first, and
   * it is a rearrangement of the rows in target order.
   */
  lemma CrossChainTableProperties(spot: seq<SpotPrice>, asterVar: seq<real>, hypeVar: seq<real>)
    requires Variations(asterVar, hypeVar)
    ensures var t := CrossChainTable(spot, asterVar, hypeVar);
      && |t| <= |TargetSymbols|
      && SortedDesc(t, SpreadOf)
      && multiset(t) == multiset(Rows(spot, asterVar, hypeVar, |TargetSymbols|))
      && (forall k :: 0 <= k < |t| ==> t[k].spreadPercent > MinSpread && t[k].symbol in TargetSymbols
                                       && FirstPrice(spot, t[k].symbol).Some?)
      && forall j, k :: 0 <= j < k < |t| ==> t[j].symbol != t[k].symbol
  {
    var rows := Rows(spot, asterVar, hypeVar, |TargetSymbols|);
    var t := CrossChainTable(spot, asterVar, hypeVar);
    RowsSound(spot, asterVar, hypeVar, |TargetSymbols|);
    SortDescKeepsAll(rows, SpreadOf, (d: CrossChainData) => SoundRow(d, spot));
    TableDistinct(spot, asterVar, hypeVar);
  }

  /** Sorting the rows keeps them one per pair. */
  lemma TableDistinct(spot: seq<SpotPrice>, asterVar: seq<real>, hypeVar: seq<real>)
    requires Variations(asterVar, hypeVar)
    ensures var t := CrossChainTable(spot, asterVar, hypeVar);
      forall j, k :: 0 <= j < k < |t| ==> t[j].symbol != t[k].symbol
  {
    var rows := Rows(spot, asterVar, hypeVar, |TargetSymbols|);
    var ne := (a: CrossChainData, b: CrossChainData) => a.symbol != b.symbol;
    RowsDistinct(spot, asterVar, hypeVar, |TargetSymbols|);
    assert Pairwise(rows, ne) by {
      forall i, j | 0 <= i < j < |rows| ensures ne(rows[i], rows[j]) { }
    }
    SortDescKeepsPairwise(rows, SpreadOf, ne);
    var t := CrossChainTable(spot, asterVar, hypeVar);
    forall j, k | 0 <= j < k < |t| ensures t[j].symbol != t[k].symbol {
      assert ne(t[j], t[k]);
    }
  }

  /**
   * A falsy payload (a failed request's `null`) yields an empty table. Only
   * falsiness is checked for, so a truthy payload that is not an array
   * reaches `find` and the call rejects (`None`). Otherwise each target pair found in the spot list
   * (first record) is priced with its variations and kept above the minimum
   * spread, and the rows are sorted.
   */
  method GetCrossChainData(spot: Json<SpotPrice>, asterVar: seq<real>, hypeVar: seq<real>)
    returns (result: Option<seq<CrossChainData>>)
    requires Variations(asterVar, hypeVar)
    ensures spot.JFalsy? ==> result == Some([])
    ensures spot.JOther? ==> result.None?
    ensures spot.JArray? ==> result == Some(CrossChainTable(spot.items, asterVar, hypeVar))
  {
    if spot.JFalsy? {
      return Some([]);
    }
    if spot.JOther? {
      return None;
    }
    var rows := [];
    for i := 0 to |TargetSymbols|
      invariant rows == Rows(spot.items, asterVar, hypeVar, i)
    {
      var symbol := TargetSymbols[i];
      var found := FirstPrice(spot.items, symbol);
      if found.None? {
        assert Rows(spot.items, asterVar, hypeVar, i + 1) == rows;
        continue;
      }
      var binancePrice := found.value;
      var asterPrice := Simulated(binancePrice, asterVar[i]);
      var hypePrice := Simulated(binancePrice, hypeVar[i]);
      var best := ChooseRoute(Paths(binancePrice, asterPrice, hypePrice));
      RowsStep(spot.items, asterVar, hypeVar, i, binancePrice, asterPrice, hypePrice, best);
      if best.spread > MinSpread {
        rows := rows + [CrossChainData(symbol, binancePrice, asterPrice, hypePrice, best.name, best.spread, best.profit)];
      }
    }
    return Some(SortDesc(rows, SpreadOf));
  }
}
