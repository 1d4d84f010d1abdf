/**
 * The order book panel (components/OrderBook.tsx): the fifteen best levels of
 * each side, asks drawn upside down, and depth bars scaled to the largest
 * amount on display.
 */
module OrderBookView {
  import opened Wrappers
  import opened Types
  import opened Seqs

  /** Levels shown per side. */
  const Depth := 15

  /**
   * The asks as drawn, top to bottom: the best fifteen in reverse, so the
   * lowest ask sits at the bottom next to the spread line.
   */
  function DisplayAsks(asks: seq<OrderBookItem>): (r: seq<OrderBookItem>)
    ensures |r| == Min(|asks|, Depth)
    ensures forall i :: 0 <= i < |r| ==> r[i] == asks[|r| - 1 - i]
  {
    Reverse(Take(asks, Depth))
  }

  /** The bids as drawn, top to bottom: the best fifteen in book order. */
  function DisplayBids(bids: seq<OrderBookItem>): (r: seq<OrderBookItem>)
    ensures |r| == Min(|bids|, Depth)
    ensures forall i :: 0 <= i < |r| ==> r[i] == bids[i]
  {
    Take(bids, Depth)
  }

  /** The best ask and the best bid are the rows either side of the spread line. */
  lemma BestLevelsMeetAtSpread(asks: seq<OrderBookItem>, bids: seq<OrderBookItem>)
    ensures |asks| > 0 ==> DisplayAsks(asks)[|DisplayAsks(asks)| - 1] == asks[0]
    ensures |bids| > 0 ==> DisplayBids(bids)[0] == bids[0]
  {
  }

  /** Every row shown is a level of the book, and each side shows at most fifteen. */
  lemma DisplayedRowsComeFromBook(asks: seq<OrderBookItem>, bids: seq<OrderBookItem>)
    ensures |DisplayAsks(asks)| <= Depth && |DisplayBids(bids)| <= Depth
    ensures multiset(DisplayAsks(asks)) == multiset(asks[..Min(|asks|, Depth)])
    ensures multiset(DisplayBids(bids)) == multiset(bids[..Min(|bids|, Depth)])
  {
    var n := Min(|asks|, Depth);
    ReverseMultiset(asks[..n]);
    assert Take(asks, Depth) == asks[..n];
    assert Take(bids, Depth) == bids[..Min(|bids|, Depth)];
  }

  /** The amount column of a list of rows. */
  function Amounts(rows: seq<OrderBookItem>): (r: seq<real>)
    ensures |r| == |rows|
    ensures forall i :: 0 <= i < |rows| ==> r[i] == rows[i].amount
  {
    if rows == [] then [] else [rows[0].amount] + Amounts(rows[1..])
  }

  /** `Math.max` of a non-empty list: an upper bound that is one of its elements. */
  function MaxOf(xs: seq<real>): (m: real)
    requires |xs| > 0
    ensures forall i :: 0 <= i < |xs| ==> xs[i] <= m
    ensures exists i :: 0 <= i < |xs| && xs[i] == m
  {
    if |xs| == 1 then xs[0]
    else
      var rest := MaxOf(xs[1..]);
      assert forall i :: 1 <= i < |xs| ==> xs[i] == xs[1..][i - 1];
      if xs[0] >= rest then xs[0] else rest
  }

  /**
   * The scale of the depth bars: the largest displayed amount, or 1 when
   * that is 0. With no rows at all there is no scale (`Math.max()` of
   * nothing is minus infinity, which no row ever uses).
   */
  function Scale(asks: seq<OrderBookItem>, bids: seq<OrderBookItem>): (r: Option<real>)
    ensures r.None? <==> asks == [] && bids == []
    ensures r.Some? ==> r.value != 0.0
    ensures r.Some? ==> forall row :: row in DisplayAsks(asks) + DisplayBids(bids) ==> row.amount <= r.value
    ensures r.Some? ==> var shown := DisplayAsks(asks) + DisplayBids(bids);
      || (exists row :: row in shown && row.amount == r.value)
      || (r.value == 1.0 && (exists row :: row in shown && row.amount == 0.0)
          && forall row :: row in shown ==> row.amount <= 0.0)
  {
    var shown := DisplayAsks(asks) + DisplayBids(bids);
    if shown == [] then None
    else
      var amounts := Amounts(shown);
      var m := MaxOf(amounts);
      assert forall row :: row in shown ==> row.amount <= m by {
        forall row | row in shown ensures row.amount <= m {
          var i :| 0 <= i < |shown| && shown[i] == row;
          assert amounts[i] == row.amount;
        }
      }
      var i :| 0 <= i < |amounts| && amounts[i] == m;
      assert shown[i] in shown && shown[i].amount == m;
      if m == 0.0 then Some(1.0) else Some(m)
  }

  /** `Math.min(amount / scale * 100, 100)`: the width of a depth bar in percent. */
  function BarWidth(amount: real, scale: real): real
    requires scale != 0.0
  {
    var w := amount / scale * 100.0;
    if w < 100.0 then w else 100.0
  }

  /**
   * The bars never overflow the row; under the positive scale of a book with
   * non-negative amounts they are never negative, and the largest level of a
   * book with some volume fills the row.
   */
  lemma BarWidthBounds(amount: real, scale: real)
    requires scale != 0.0
    ensures BarWidth(amount, scale) <= 100.0
    ensures 0.0 <= amount && 0.0 < scale ==> 0.0 <= BarWidth(amount, scale)
    ensures amount == scale ==> BarWidth(amount, scale) == 100.0
  {
    if 0.0 <= amount && 0.0 < scale {
      assert 0.0 <= amount / scale;
    }
  }

  /** A share of a positive whole, as a fraction: between 0 and 1, and 1 for the whole itself. */
  lemma Fraction(part: real, whole: real)
    requires 0.0 <= part <= whole && 0.0 < whole
    ensures 0.0 <= part / whole <= 1.0
    ensures part == whole ==> part / whole == 1.0
  {
    assert part / whole * whole == part;
  }

  /**
   * The depth bars of a book whose amounts are not negative: the scale is
   * positive, no bar is ever cut off at 100%, and so each bar is its row's
   * amount as a share of the largest one. When some level has volume, a
   * largest level fills its row; when none has, every bar is empty.
   */
  lemma WidestBarIsLargestLevel(asks: seq<OrderBookItem>, bids: seq<OrderBookItem>)
    requires asks != [] || bids != []
    requires forall row :: row in DisplayAsks(asks) + DisplayBids(bids) ==> 0.0 <= row.amount
    ensures Scale(asks, bids).Some? && Scale(asks, bids).value > 0.0
    ensures var shown, scale := DisplayAsks(asks) + DisplayBids(bids), Scale(asks, bids).value;
      forall row :: row in shown ==>
        BarWidth(row.amount, scale) == row.amount / scale * 100.0 && 0.0 <= BarWidth(row.amount, scale) <= 100.0
    ensures var shown, scale := DisplayAsks(asks) + DisplayBids(bids), Scale(asks, bids).value;
      (exists row :: row in shown && row.amount > 0.0) ==>
        exists row :: row in shown && row.amount == scale && BarWidth(row.amount, scale) == 100.0
    ensures var shown, scale := DisplayAsks(asks) + DisplayBids(bids), Scale(asks, bids).value;
      (forall row :: row in shown ==> row.amount == 0.0) ==>
        scale == 1.0 && forall row :: row in shown ==> BarWidth(row.amount, scale) == 0.0
  {
    var shown, sc := DisplayAsks(asks) + DisplayBids(bids), Scale(asks, bids);
    assert shown != [] by {
      if asks != [] { assert |DisplayAsks(asks)| > 0; } else { assert |DisplayBids(bids)| > 0; }
    }
    var scale := sc.value;
    assert 0.0 < scale;
    forall row | row in shown
      ensures BarWidth(row.amount, scale) == row.amount / scale * 100.0 && 0.0 <= BarWidth(row.amount, scale) <= 100.0
    {
      Fraction(row.amount, scale);
    }
    if exists row :: row in shown && row.amount > 0.0 {
      var row :| row in shown && row.amount == scale;
      Fraction(row.amount, scale);
    }
  }
}
