/**
 * The ticker table of the market view (App.tsx): the all-market mini-ticker
 * frames are filtered to USDT pairs, merged into an insertion-ordered table
 * that never drops a symbol, ranked for the scanner, and filtered, sorted and
 * truncated for display.
 */
module TickerTable {
  import opened Wrappers
  import opened Types
  import opened Seqs
  import opened Sorting
  import opened Strings

  /** One record of a mini-ticker frame: symbol, open, close and quote volume. */
  datatype RawTicker = RawTicker(s: string, o: real, c: real, q: real)

  /** The change from open to close in percent, or 0 when the open is 0. */
  function ChangePercent(open: real, close: real): (r: real)
    ensures open == 0.0 ==> r == 0.0
    ensures open != 0.0 ==> r * open == (close - open) * 100.0
    ensures open > 0.0 ==> (r > 0.0 <==> close > open) && (r < 0.0 <==> close < open)
  {
    if open == 0.0 then 0.0 else (close - open) / open * 100.0
  }

  function ToTicker(raw: RawTicker): Ticker {
    Ticker(raw.s, raw.c, ChangePercent(raw.o, raw.c), raw.q)
  }

  predicate IsUsdtPair(raw: RawTicker) {
    EndsWith(raw.s, QuoteSuffix)
  }

  /** The frame's USDT records as tickers, in frame order. */
  function Relevant(frame: seq<RawTicker>): seq<Ticker> {
    var kept := Filter(frame, IsUsdtPair);
    seq(|kept|, i requires 0 <= i < |kept| => ToTicker(kept[i]))
  }

  /**
   * Only USDT pairs survive, each USDT record of the frame yields its ticker,
   * and the ticker carries the record's symbol, close and volume.
   */
  lemma RelevantIsUsdtOnly(frame: seq<RawTicker>)
    ensures forall t :: t in Relevant(frame) ==> EndsWith(t.symbol, QuoteSuffix)
    ensures forall i :: 0 <= i < |frame| && IsUsdtPair(frame[i]) ==> ToTicker(frame[i]) in Relevant(frame)
  {
    var kept := Filter(frame, IsUsdtPair);
    forall i | 0 <= i < |frame| && IsUsdtPair(frame[i]) ensures ToTicker(frame[i]) in Relevant(frame) {
      var k :| 0 <= k < |kept| && kept[k] == frame[i];
      assert Relevant(frame)[k] == ToTicker(frame[i]);
    }
  }

  /** The tickers come out in frame order: those of `a + b` are those of `a`, then those of `b`. */
  lemma RelevantInFrameOrder(a: seq<RawTicker>, b: seq<RawTicker>)
    ensures Relevant(a + b) == Relevant(a) + Relevant(b)
  {
    FilterAppend(a, b, IsUsdtPair);
    var ka, kb := Filter(a, IsUsdtPair), Filter(b, IsUsdtPair);
    var whole, left, right := Relevant(a + b), Relevant(a), Relevant(b);
    assert |whole| == |ka| + |kb| == |left + right|;
    forall i | 0 <= i < |whole| ensures whole[i] == (left + right)[i] {
      if i < |ka| {
        assert (ka + kb)[i] == ka[i];
      } else {
        assert (ka + kb)[i] == kb[i - |ka|];
      }
    }
  }

  function Symbols(table: seq<Ticker>): seq<string> {
    seq(|table|, i requires 0 <= i < |table| => table[i].symbol)
  }

  predicate DifferentSymbol(a: Ticker, b: Ticker) {
    a.symbol != b.symbol
  }

  /** One entry per symbol. */
  ghost predicate DistinctSymbols(table: seq<Ticker>) {
    Pairwise(table, DifferentSymbol)
  }

  /** The position of the entry for `sym`, if any. */
  function SymbolIndex(table: seq<Ticker>, sym: string): (r: Option<nat>)
    ensures r.Some? ==> r.value < |table| && table[r.value].symbol == sym
                        && forall j :: 0 <= j < r.value ==> table[j].symbol != sym
    ensures r.None? ==> forall j :: 0 <= j < |table| ==> table[j].symbol != sym
    decreases |table|
  {
    if table == [] then None
    else if table[|table| - 1].symbol == sym && SymbolIndex(table[..|table| - 1], sym).None? then Some(|table| - 1)
    else SymbolIndex(table[..|table| - 1], sym)
  }

  /** The entry for `sym`, if any (`map.get(sym)`). */
  function Lookup(table: seq<Ticker>, sym: string): Option<Ticker> {
    match SymbolIndex(table, sym)
    case None => None
    case Some(i) => Some(table[i])
  }

  /** `map.set(t.symbol, t)`: overwrite in place, or append a new key. */
  function Upsert(table: seq<Ticker>, t: Ticker): seq<Ticker> {
    match SymbolIndex(table, t.symbol)
    case Some(i) => table[i := t]
    case None => table + [t]
  }

  /** Setting every ticker of a frame in turn. */
  function MergeFrame(table: seq<Ticker>, frame: seq<Ticker>): seq<Ticker>
    decreases |frame|
  {
    if frame == [] then table else MergeFrame(Upsert(table, frame[0]), frame[1..])
  }

  /** The last ticker of `frame` for `sym`: the one whose `set` wins. */
  function LastFor(frame: seq<Ticker>, sym: string): Option<Ticker>
    decreases |frame|
  {
    if frame == [] then None
    else match LastFor(frame[1..], sym)
      case Some(t) => Some(t)
      case None => if frame[0].symbol == sym then Some(frame[0]) else None
  }

  lemma LookupUpsert(table: seq<Ticker>, t: Ticker, sym: string)
    ensures Lookup(Upsert(table, t), sym) == if t.symbol == sym then Some(t) else Lookup(table, sym)
  {
    var u := Upsert(table, t);
    var at := SymbolIndex(table, t.symbol);
    var i, k := SymbolIndex(table, sym), SymbolIndex(u, sym);
    assert |table| <= |u|;
    assert forall j :: 0 <= j < |table| && (at.None? || j != at.value) ==> u[j] == table[j];
    if t.symbol == sym {
      if at.Some? {
        assert u[at.value] == t;
        assert k.Some? && k.value == at.value;
      } else {
        assert u[|table|] == t;
        assert k.Some? && k.value == |table|;
      }
    } else {
      if i.Some? {
        assert u[i.value] == table[i.value];
        assert k.Some? && k.value == i.value;
      } else {
        assert k.None?;
      }
    }
  }

  /**
   * After a merge, a symbol the frame mentions has the frame's last ticker for
   * it; any other symbol keeps the entry it had, or stays absent.
   */
  lemma {:induction false} LookupAfterMerge(table: seq<Ticker>, frame: seq<Ticker>, sym: string)
    ensures Lookup(MergeFrame(table, frame), sym)
            == if LastFor(frame, sym).Some? then LastFor(frame, sym) else Lookup(table, sym)
    decreases |frame|
  {
    if frame != [] {
      LookupAfterMerge(Upsert(table, frame[0]), frame[1..], sym);
      LookupUpsert(table, frame[0], sym);
    }
  }

  /**
   * The symbols of `syms` not in `known`, each once, in order of first
   * appearance: the keys a merge appends.
   */
  function Fresh(syms: seq<string>, known: seq<string>): seq<string>
    decreases |syms|
  {
    if syms == [] then []
    else if syms[0] in known then Fresh(syms[1..], known)
    else [syms[0]] + Fresh(syms[1..], known + [syms[0]])
  }

  lemma {:induction false} FreshIsNew(syms: seq<string>, known: seq<string>)
    ensures forall i :: 0 <= i < |Fresh(syms, known)| ==> Fresh(syms, known)[i] !in known && Fresh(syms, known)[i] in syms
    ensures forall i, j :: 0 <= i < j < |Fresh(syms, known)| ==> Fresh(syms, known)[i] != Fresh(syms, known)[j]
    ensures forall s :: s in syms && s !in known ==> s in Fresh(syms, known)
    decreases |syms|
  {
    if syms != [] {
      FreshIsNew(syms[1..], known);
      FreshIsNew(syms[1..], known + [syms[0]]);
    }
  }

  lemma SymbolsUpsert(table: seq<Ticker>, t: Ticker)
    ensures Symbols(Upsert(table, t))
            == Symbols(table) + (if t.symbol in Symbols(table) then [] else [t.symbol])
  {
    var syms, u := Symbols(table), Upsert(table, t);
    match SymbolIndex(table, t.symbol)
    case Some(i) =>
      assert syms[i] == t.symbol;
      forall k | 0 <= k < |u| ensures Symbols(u)[k] == syms[k] {
      }
    case None =>
      assert t.symbol !in syms by {
        forall k | 0 <= k < |syms| ensures syms[k] != t.symbol {
          assert syms[k] == table[k].symbol;
        }
      }
      forall k | 0 <= k < |u| ensures Symbols(u)[k] == (syms + [t.symbol])[k] {
      }
  }

  /**
   * The symbols after a merge are the old symbols, each at its old position,
   * followed by the frame's new symbols in order of first appearance: no symbol
   * is ever removed and no known symbol moves.
   */
  lemma {:induction false} SymbolsAfterMerge(table: seq<Ticker>, frame: seq<Ticker>)
    ensures Symbols(MergeFrame(table, frame))
            == Symbols(table) + Fresh(Symbols(frame), Symbols(table))
    decreases |frame|
  {
    if frame != [] {
      var t, rest := frame[0], frame[1..];
      var known := Symbols(table);
      SymbolsAfterMerge(Upsert(table, t), rest);
      SymbolsUpsert(table, t);
      SymbolsCons(frame);
      FreshCons(t.symbol, Symbols(rest), known);
      if t.symbol in known {
        assert known + [] == known;
      } else {
        AppendAssoc(known, t.symbol, Fresh(Symbols(rest), known + [t.symbol]));
      }
    }
  }

  lemma SymbolsCons(frame: seq<Ticker>)
    requires frame != []
    ensures Symbols(frame) == [frame[0].symbol] + Symbols(frame[1..])
  {
  }

  lemma AppendAssoc(known: seq<string>, x: string, later: seq<string>)
    ensures (known + [x]) + later == known + ([x] + later)
  {
  }

  lemma FreshCons(x: string, rest: seq<string>, known: seq<string>)
    ensures Fresh([x] + rest, known)
            == if x in known then Fresh(rest, known) else [x] + Fresh(rest, known + [x])
  {
    assert ([x] + rest)[1..] == rest;
  }

  /** A merge keeps the table at one entry per symbol. */
  lemma MergeKeepsDistinct(table: seq<Ticker>, frame: seq<Ticker>)
    requires DistinctSymbols(table)
    ensures DistinctSymbols(MergeFrame(table, frame))
  {
    var known := Symbols(table);
    var added := Fresh(Symbols(frame), known);
    var m := MergeFrame(table, frame);
    SymbolsAfterMerge(table, frame);
    FreshIsNew(Symbols(frame), known);
    var ms := Symbols(m);
    forall i, j | 0 <= i < j < |m| ensures DifferentSymbol(m[i], m[j]) {
      assert ms[i] == m[i].symbol && ms[j] == m[j].symbol;
      if j < |table| {
        assert DifferentSymbol(table[i], table[j]);
      } else if i < |table| {
        assert ms[j] == added[j - |table|];
        assert ms[i] in known;
      } else {
        assert ms[i] == added[i - |table|] && ms[j] == added[j - |table|];
      }
    }
  }

  /** One step of a merge: set `frame[i]`, then the rest. */
  lemma MergeStep(table: seq<Ticker>, frame: seq<Ticker>, i: nat)
    requires i < |frame|
    ensures MergeFrame(table, frame[i..]) == MergeFrame(Upsert(table, frame[i]), frame[i + 1..])
    ensures DistinctSymbols(table) ==> DistinctSymbols(Upsert(table, frame[i]))
  {
    assert frame[i..][1..] == frame[i + 1..];
    if DistinctSymbols(table) {
      MergeKeepsDistinct(table, [frame[i]]);
      assert MergeFrame(table, [frame[i]]) == MergeFrame(Upsert(table, frame[i]), []);
    }
  }

  /** A first-match search result for `sym` is the symbol's index. */
  lemma FoundIsSymbolIndex(table: seq<Ticker>, sym: string, found: Option<nat>)
    requires found.Some? ==> found.value < |table| && table[found.value].symbol == sym
                             && forall j :: 0 <= j < found.value ==> table[j].symbol != sym
    requires found.None? ==> forall j :: 0 <= j < |table| ==> table[j].symbol != sym
    ensures found == SymbolIndex(table, sym)
  {
  }

  function VolumeOf(t: Ticker): real { t.volume }
  function ChangeOf(t: Ticker): real { t.changePercent }
  function NegChangeOf(t: Ticker): real { -t.changePercent }

  /** How many symbols the scanner examines per cycle. */
  const ScanWidth: nat := 20

  /** `[...tickers].sort(by volume, descending).slice(0, 20)`. */
  function TopByVolume(tickers: seq<Ticker>): seq<Ticker> {
    TopN(tickers, VolumeOf, ScanWidth)
  }

  /** The symbols the scanner examines, busiest first. */
  function TopSymbols(tickers: seq<Ticker>): seq<string> {
    Symbols(TopByVolume(tickers))
  }

  /**
   * The scanner picks min(20, n) tickers of the table in non-increasing volume
   * order; every ticker it leaves out has no more volume than any it picks;
   * and among tickers of equal volume it picks a prefix of them in table order.
   */
  lemma TopByVolumeSelects(tickers: seq<Ticker>, v: real)
    ensures |TopByVolume(tickers)| == Min(|tickers|, ScanWidth)
    ensures forall i, j :: 0 <= i < j < |TopByVolume(tickers)| ==> TopByVolume(tickers)[i].volume >= TopByVolume(tickers)[j].volume
    ensures multiset(TopByVolume(tickers)) + multiset(SortDesc(tickers, VolumeOf)[|TopByVolume(tickers)|..]) == multiset(tickers)
    ensures forall i, j :: 0 <= i < |TopByVolume(tickers)| <= j < |tickers| ==>
              TopByVolume(tickers)[i].volume >= SortDesc(tickers, VolumeOf)[j].volume
    ensures WithKey(TopByVolume(tickers), VolumeOf, v) <= WithKey(tickers, VolumeOf, v)
  {
    TopNSelects(tickers, VolumeOf, ScanWidth, v);
    var top, sorted := TopByVolume(tickers), SortDesc(tickers, VolumeOf);
    forall i, j | 0 <= i < |top| <= j < |tickers| ensures top[i].volume >= sorted[j].volume {
      assert VolumeOf(top[i]) >= VolumeOf(sorted[j]);
    }
    forall i, j | 0 <= i < j < |top| ensures top[i].volume >= top[j].volume {
      assert VolumeOf(top[i]) >= VolumeOf(top[j]);
    }
  }

  /** The three orderings of the market list. */
  datatype SortType = ByVolume | Gainers | Losers

  /** The key each ordering sorts on, descending (losers: the most negative change first). */
  function SortKey(sort: SortType): Ticker -> real {
    match sort
    case ByVolume => VolumeOf
    case Gainers => ChangeOf
    case Losers => NegChangeOf
  }

  /** How many rows the unfiltered list shows. */
  const ListLength: nat := 50

  /** The ticker table of the market view. */
  class TickerFeed {
    var tickers: seq<Ticker>

    ghost predicate Valid()
      reads this
    {
      DistinctSymbols(tickers)
    }

    constructor ()
      ensures Valid() && tickers == []
    {
      tickers := [];
    }

    /**
     * Entering the market view, or switching market while in it, clears the
     * table before the new feed delivers anything; the other views leave the
     * table as it is.
     */
    method SwitchContext(marketView: bool)
      requires Valid()
      modifies this
      ensures Valid()
      ensures tickers == if marketView then [] else old(tickers)
    {
      if marketView {
        tickers := [];
      }
    }

    /**
     * Sets one ticker: it replaces the row with its symbol, or is appended
     * when the symbol is new.
     */
    method Set(t: Ticker)
      requires Valid()
      modifies this
      ensures Valid()
      ensures tickers == Upsert(old(tickers), t)
      ensures |tickers| == |old(tickers)| + (if t.symbol in Symbols(old(tickers)) then 0 else 1)
    {
      MergeStep(tickers, [t], 0);
      SymbolsUpsert(tickers, t);
      var found := FindFirst(tickers, (x: Ticker) => x.symbol == t.symbol);
      FoundIsSymbolIndex(tickers, t.symbol, found);
      if found.Some? {
        tickers := tickers[found.value := t];
      } else {
        tickers := tickers + [t];
      }
    }

    /**
     * A mini-ticker frame: anything but an array is dropped; otherwise the
     * frame's USDT tickers are set one by one into the table.
     */
    method Ingest(frame: Json<RawTicker>)
      requires Valid()
      modifies this
      ensures Valid()
      ensures !frame.JArray? ==> tickers == old(tickers)
      ensures frame.JArray? ==> tickers == MergeFrame(old(tickers), Relevant(frame.items))
    {
      if frame.JArray? {
        var relevant := Relevant(frame.items);
        MergeKeepsDistinct(tickers, relevant);
        var i := 0;
        while i < |relevant|
          invariant 0 <= i <= |relevant|
          invariant MergeFrame(tickers, relevant[i..]) == MergeFrame(old(tickers), relevant)
          invariant DistinctSymbols(tickers)
        {
          MergeStep(tickers, relevant, i);
          Set(relevant[i]);
          i := i + 1;
        }
      }
    }

    /**
     * `displayedTickers`. With a search term the matching tickers are copied,
     * sorted and all shown. Without one the table itself is sorted in place
     * (the source sorts the state array it was handed) and the first 50 shown.
     */
    method Displayed(search: string, sort: SortType) returns (shown: seq<Ticker>)
      requires Valid()
      modifies this
      ensures Valid()
      ensures search != [] ==>
        (tickers == old(tickers)
         && shown == SortDesc(Filter(old(tickers), (t: Ticker) => Includes(t.symbol, ToUpper(search))), SortKey(sort)))
      ensures search == [] ==>
        (tickers == SortDesc(old(tickers), SortKey(sort)) && shown == Take(tickers, ListLength))
    {
      if search != [] {
        var needle := ToUpper(search);
        shown := SortDesc(Filter(tickers, (t: Ticker) => Includes(t.symbol, needle)), SortKey(sort));
      } else {
        SortDescKeepsPairwise(tickers, SortKey(sort), DifferentSymbol);
        tickers := SortDesc(tickers, SortKey(sort));
        shown := Take(tickers, ListLength);
      }
    }
  }
}
