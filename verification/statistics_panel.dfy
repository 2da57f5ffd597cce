/**
 * The global statistics shown above the trade table
 * (components/StatisticsPanel.tsx): how many trades, how many of each side,
 * and the notional volume of the buys. They are recomputed from the whole
 * list each time; the lemmas show that this agrees with a one-trade-at-a-time
 * update and does not depend on the order of the list.
 */
module StatisticsPanel {
  import opened Types
  import opened Tally

  /** The `stats` memo. */
  function ComputeStats(trades: seq<Trade>): (r: TradeStats)
    ensures r.totalTrades == |trades|
    ensures r.buyCount + r.sellCount == r.totalTrades
    ensures trades == [] ==> r == TradeStats(0, 0.0, 0, 0)
  {
    BuySellPartition(trades);
    var buyTrades := OfSide(trades, Buy);
    var sellTrades := OfSide(trades, Sell);
    TradeStats(|trades|, SumNotional(buyTrades), |sellTrades|, |buyTrades|)
  }

  /** The side of every trade, in order. */
  function Sides(s: seq<Trade>): (r: seq<Side>)
    ensures |r| == |s| && forall i :: 0 <= i < |s| ==> r[i] == s[i].side
  {
    seq(|s|, i requires 0 <= i < |s| => s[i].side)
  }

  lemma {:induction false} OfSideCounts(s: seq<Trade>, side: Side)
    ensures |OfSide(s, side)| == multiset(Sides(s))[side]
    decreases |s|
  {
    if s != [] {
      OfSideCounts(s[1..], side);
      assert Sides(s) == [s[0].side] + Sides(s[1..]);
    }
  }

  /** `buyCount` and `sellCount` count the trades of each side. */
  lemma StatsCountSides(trades: seq<Trade>)
    ensures ComputeStats(trades).buyCount == multiset(Sides(trades))[Buy]
    ensures ComputeStats(trades).sellCount == multiset(Sides(trades))[Sell]
  {
    OfSideCounts(trades, Buy);
    OfSideCounts(trades, Sell);
  }

  /** What one more trade adds to the statistics. */
  function AddTrade(st: TradeStats, t: Trade): TradeStats {
    TradeStats(
      st.totalTrades + 1,
      st.buyVolume + (if t.side == Buy then Notional(t) else 0.0),
      st.sellCount + (if t.side == Sell then 1 else 0),
      st.buyCount + (if t.side == Buy then 1 else 0))
  }

  /**
   * Recomputing over the list with one more trade equals updating the old
   * statistics by that trade alone; a sell trade adds nothing to `buyVolume`.
   */
  lemma StatsIncremental(trades: seq<Trade>, t: Trade)
    ensures ComputeStats(trades + [t]) == AddTrade(ComputeStats(trades), t)
  {
    OfSideAppend(trades, [t], Buy);
    OfSideAppend(trades, [t], Sell);
    assert OfSide([t], Buy) == (if t.side == Buy then [t] else []);
    SumNotionalAppend(OfSide(trades, Buy), OfSide([t], Buy));
    assert SumNotional([t]) == Notional(t) by {
      assert [t][..0] == [];
    }
  }

  /** The statistics do not depend on the order of the trades. */
  lemma StatsOrderIndependent(a: seq<Trade>, b: seq<Trade>)
    requires multiset(a) == multiset(b)
    ensures ComputeStats(a) == ComputeStats(b)
  {
    assert |a| == |multiset(a)| == |b|;
    OfSideCountPermutation(a, b, Buy);
    OfSideCountPermutation(a, b, Sell);
    OfSideVolumePermutation(a, b, Buy);
  }
}
