/**
 * Per-symbol statistics (components/SymbolPerformance.tsx): one pass over the
 * trades that keeps a map from symbol to its running statistics, updated in
 * place, followed by a stable sort on total volume, largest first, and the
 * first ten entries.
 *
 * `StatsFor` gives each symbol's statistics in closed form (sums, counts,
 * the arithmetic mean of the prices) and `TopSymbols` the ranked list built
 * from them; the method `ComputeSymbolStats` runs the source's loop, with
 * its running-mean update, and is proved to return exactly `TopSymbols`.
 */
module SymbolPerformance {
  import opened Types
  import opened Order
  import opened StableSort
  import opened Tally

  /** The panel shows at most this many symbols. */
  const TopCount: nat := 10

  function Symbols(s: seq<Trade>): (r: seq<string>)
    ensures |r| == |s| && forall i :: 0 <= i < |s| ==> r[i] == s[i].symbol
  {
    seq(|s|, i requires 0 <= i < |s| => s[i].symbol)
  }

  /** The distinct values of `xs` in order of first appearance (a `Set`'s or `Map`'s key order). */
  function Dedup(xs: seq<string>): (r: seq<string>)
    ensures Distinct(r)
    ensures forall x :: x in r <==> x in xs
  {
    if xs == [] then []
    else
      var r := Dedup(xs[..|xs| - 1]);
      assert forall x :: x in xs <==> x in xs[..|xs| - 1] || x == xs[|xs| - 1];
      if xs[|xs| - 1] in r then r else r + [xs[|xs| - 1]]
  }

  /** The arithmetic mean of the prices; 0 for no trades. */
  function MeanPrice(s: seq<Trade>): real {
    if s == [] then 0.0 else SumPrice(s) / (|s| as real)
  }

  /** The statistics of `sym` computed from `of`, the list of its trades. */
  function Summarize(sym: string, of: seq<Trade>): SymbolStats {
    var buys := |OfSide(of, Buy)|;
    SymbolStats(
      sym,
      SumNotional(of),
      |of|,
      MeanPrice(of),
      buys,
      |OfSide(of, Sell)|,
      if of == [] then 0.0 else (buys as real) / (|of| as real))
  }

  /** A symbol's statistics: the summary of its trades. */
  function StatsFor(trades: seq<Trade>, sym: string): SymbolStats {
    Summarize(sym, OfSymbol(trades, sym))
  }

  /** `StatsFor` each symbol of `syms`, in that order. */
  function StatsList(trades: seq<Trade>, syms: seq<string>): (r: seq<SymbolStats>)
    ensures |r| == |syms|
    ensures forall i :: 0 <= i < |syms| ==> r[i] == StatsFor(trades, syms[i])
  {
    seq(|syms|, i requires 0 <= i < |syms| => StatsFor(trades, syms[i]))
  }

  lemma StatsListSnoc(trades: seq<Trade>, syms: seq<string>, k: nat)
    requires k < |syms|
    ensures StatsList(trades, syms[..k + 1]) == StatsList(trades, syms[..k]) + [StatsFor(trades, syms[k])]
  {
    var a, b := StatsList(trades, syms[..k + 1]), StatsList(trades, syms[..k]);
    forall i | 0 <= i < k ensures a[i] == b[i] {
      assert syms[..k + 1][i] == syms[..k][i];
    }
    SnocPointwise(a, b, StatsFor(trades, syms[k]));
  }

  lemma SnocPointwise<T>(a: seq<T>, b: seq<T>, x: T)
    requires |a| == |b| + 1 && a[|b|] == x
    requires forall i :: 0 <= i < |b| ==> a[i] == b[i]
    ensures a == b + [x]
  {
  }

  /** The comparator `(a, b) => b.totalVolume - a.totalVolume` ranks by this key, descending. */
  function VolumeKey(e: SymbolStats): Key {
    Num(e.totalVolume)
  }

  /** The map's values: every symbol's entry, in order of the symbol's first trade. */
  function Entries(trades: seq<Trade>): seq<SymbolStats> {
    StatsList(trades, Dedup(Symbols(trades)))
  }

  /** The entries sorted by volume, largest first. */
  function Ranked(trades: seq<Trade>): seq<SymbolStats> {
    Sort(Entries(trades), VolumeKey, true)
  }

  /** The panel's list: the first ten ranked entries. */
  function TopSymbols(trades: seq<Trade>): seq<SymbolStats> {
    Take(Ranked(trades), TopCount)
  }

  /** The running-mean update `(avg * (n - 1) + price) / n`. */
  function RunningMean(avg: real, n: nat, price: real): real
    requires n > 0
  {
    (avg * ((n - 1) as real) + price) / (n as real)
  }

  /** The prices of a list of trades folded through the running-mean update, started at the first. */
  function FoldMean(s: seq<Trade>): real
    requires s != []
  {
    if |s| == 1 then s[0].price
    else RunningMean(FoldMean(s[..|s| - 1]), |s|, s[|s| - 1].price)
  }

  /** One running-mean step from the mean of `s` gives the mean of `s` with one more price. */
  lemma {:induction false} RunningMeanStep(s: seq<Trade>, t: Trade)
    ensures RunningMean(MeanPrice(s), |s| + 1, t.price) == MeanPrice(s + [t])
  {
    var n := |s| as real;
    var total := SumPrice(s);
    SumPriceAppend(s, [t]);
    assert SumPrice([t]) == t.price by { assert [t][..0] == []; }
    if s != [] {
      assert MeanPrice(s) * n == total;
    }
  }

  /** The running mean started at the first price is the arithmetic mean of all of them. */
  lemma {:induction false} FoldMeanIsMean(s: seq<Trade>)
    requires s != []
    ensures FoldMean(s) == SumPrice(s) / (|s| as real)
    decreases |s|
  {
    if |s| == 1 {
      assert s[..0] == [];
    } else {
      var init := s[..|s| - 1];
      FoldMeanIsMean(init);
      RunningMeanStep(init, s[|s| - 1]);
      assert init + [s[|s| - 1]] == s;
    }
  }

  /** The entry a symbol's first trade creates. */
  function FirstEntry(t: Trade): (r: SymbolStats)
    ensures r.symbol == t.symbol && r.tradeCount == 1
    ensures r.buyCount + r.sellCount == r.tradeCount
    ensures r.buyRatio == (r.buyCount as real) / (r.tradeCount as real)
  {
    SymbolStats(
      t.symbol,
      t.price * t.size,
      1,
      t.price,
      if t.side == Buy then 1 else 0,
      if t.side == Sell then 1 else 0,
      if t.side == Buy then 1.0 else 0.0)
  }

  /** The in-place update of an existing entry by one more trade. */
  function UpdateEntry(e: SymbolStats, t: Trade): (r: SymbolStats)
    ensures r.symbol == e.symbol && r.tradeCount == e.tradeCount + 1
    ensures e.buyCount + e.sellCount == e.tradeCount ==> r.buyCount + r.sellCount == r.tradeCount
    ensures r.buyRatio == (r.buyCount as real) / (r.tradeCount as real)
  {
    var n := e.tradeCount + 1;
    var buys := e.buyCount + (if t.side == Buy then 1 else 0);
    SymbolStats(
      e.symbol,
      e.totalVolume + t.price * t.size,
      n,
      RunningMean(e.averagePrice, n, t.price),
      buys,
      e.sellCount + (if t.side == Buy then 0 else 1),
      (buys as real) / (n as real))
  }

  lemma {:induction false} SingleTrade(t: Trade)
    ensures SumNotional([t]) == Notional(t) && SumPrice([t]) == t.price
  {
    assert [t][..0] == [];
  }

  /** The entry built from a single trade is the one its first trade creates. */
  lemma {:induction false} SummarizeFirst(t: Trade)
    ensures Summarize(t.symbol, [t]) == FirstEntry(t)
  {
    SingleTrade(t);
    var e, f := Summarize(t.symbol, [t]), FirstEntry(t);
    assert |OfSide([t], Buy)| == (if t.side == Buy then 1 else 0);
    assert |OfSide([t], Sell)| == (if t.side == Sell then 1 else 0);
    assert e.totalVolume == f.totalVolume;
    assert e.averagePrice == f.averagePrice;
    assert e.buyRatio == f.buyRatio;
  }

  /** The trades of `t`'s symbol once `t` is appended. */
  lemma {:induction false} OfSymbolSnoc(s: seq<Trade>, t: Trade)
    ensures OfSymbol(s + [t], t.symbol) == OfSymbol(s, t.symbol) + [t]
  {
    OfSymbolAppend(s, [t], t.symbol);
    assert OfSymbol([t], t.symbol) == [t];
  }

  lemma {:induction false} SummarizeCounts(sym: string, of: seq<Trade>, t: Trade)
    ensures var e, e' := Summarize(sym, of), Summarize(sym, of + [t]);
            && e'.tradeCount == e.tradeCount + 1
            && e'.buyCount == e.buyCount + (if t.side == Buy then 1 else 0)
            && e'.sellCount == e.sellCount + (if t.side == Buy then 0 else 1)
  {
    OfSideAppend(of, [t], Buy);
    OfSideAppend(of, [t], Sell);
  }

  lemma {:induction false} SummarizeMean(sym: string, of: seq<Trade>, t: Trade)
    ensures Summarize(sym, of + [t]).averagePrice
         == RunningMean(Summarize(sym, of).averagePrice, Summarize(sym, of).tradeCount + 1, t.price)
  {
    RunningMeanStep(of, t);
    assert Summarize(sym, of).averagePrice == MeanPrice(of);
    assert Summarize(sym, of).tradeCount == |of|;
    assert Summarize(sym, of + [t]).averagePrice == MeanPrice(of + [t]);
  }

  /** One more trade changes the summary of a non-empty list as the loop body's update does. */
  lemma {:induction false} SummarizeUpdate(of: seq<Trade>, t: Trade)
    ensures Summarize(t.symbol, of + [t]) == UpdateEntry(Summarize(t.symbol, of), t)
  {
    var e, e' := Summarize(t.symbol, of), Summarize(t.symbol, of + [t]);
    SummarizeCounts(t.symbol, of, t);
    SumNotionalSnoc(of, t);
    SummarizeMean(t.symbol, of, t);
    var u := UpdateEntry(e, t);
    assert e'.symbol == u.symbol;
    assert e'.totalVolume == u.totalVolume;
    assert e'.tradeCount == u.tradeCount;
    assert e'.averagePrice == u.averagePrice;
    assert e'.buyCount == u.buyCount;
    assert e'.sellCount == u.sellCount;
    assert e'.buyRatio == u.buyRatio;
  }

  /** The first trade of a symbol creates its entry. */
  lemma {:induction false} StatsForFirst(s: seq<Trade>, t: Trade)
    requires OfSymbol(s, t.symbol) == []
    ensures StatsFor(s + [t], t.symbol) == FirstEntry(t)
  {
    OfSymbolSnoc(s, t);
    assert OfSymbol(s + [t], t.symbol) == [t];
    SummarizeFirst(t);
  }

  /** A later trade of a symbol updates its entry as the loop body does. */
  lemma {:induction false} StatsForUpdate(s: seq<Trade>, t: Trade)
    ensures StatsFor(s + [t], t.symbol) == UpdateEntry(StatsFor(s, t.symbol), t)
  {
    OfSymbolSnoc(s, t);
    SummarizeUpdate(OfSymbol(s, t.symbol), t);
  }

  /** A trade of another symbol leaves a symbol's statistics as they were. */
  lemma {:induction false} StatsForOther(s: seq<Trade>, t: Trade, sym: string)
    requires t.symbol != sym
    ensures StatsFor(s + [t], sym) == StatsFor(s, sym)
  {
    OfSymbolAppend(s, [t], sym);
    assert OfSymbol(s + [t], sym) == OfSymbol(s, sym);
  }

  /** A symbol has trades exactly when it occurs among the trades' symbols. */
  lemma {:induction false} OfSymbolEmpty(s: seq<Trade>, sym: string)
    ensures OfSymbol(s, sym) == [] <==> sym !in Symbols(s)
    decreases |s|
  {
    if s != [] {
      OfSymbolEmpty(s[1..], sym);
      assert Symbols(s) == [s[0].symbol] + Symbols(s[1..]);
    }
  }

  lemma {:induction false} DedupSnoc(xs: seq<string>, x: string)
    ensures Dedup(xs + [x]) == if x in Dedup(xs) then Dedup(xs) else Dedup(xs) + [x]
  {
    assert (xs + [x])[..|xs|] == xs;
  }

  lemma PrefixSnoc<T>(s: seq<T>, i: nat)
    requires i < |s|
    ensures s[..i + 1] == s[..i] + [s[i]]
  {
  }

  /** The entry one more trade leaves in the map under its symbol. */
  function NextEntry(m: map<string, SymbolStats>, t: Trade): SymbolStats {
    if t.symbol in m then UpdateEntry(m[t.symbol], t) else FirstEntry(t)
  }

  /** One turn of the accumulation loop keeps `order` the map's insertion order. */
  lemma {:induction false} AccumulateOrder(done: seq<Trade>, t: Trade, m: map<string, SymbolStats>, order: seq<string>)
    requires order == Dedup(Symbols(done))
    requires forall sym :: sym in m <==> sym in order
    ensures var order' := if t.symbol in m then order else order + [t.symbol];
            && order' == Dedup(Symbols(done + [t]))
            && (forall sym :: sym in m[t.symbol := NextEntry(m, t)] <==> sym in order')
  {
    assert Symbols(done + [t]) == Symbols(done) + [t.symbol];
    DedupSnoc(Symbols(done), t.symbol);
  }

  /** The entry the loop body leaves under the trade's symbol. */
  lemma {:induction false} NextEntryIsStats(done: seq<Trade>, t: Trade, m: map<string, SymbolStats>)
    requires t.symbol in m ==> m[t.symbol] == StatsFor(done, t.symbol)
    requires t.symbol !in m ==> OfSymbol(done, t.symbol) == []
    ensures NextEntry(m, t) == StatsFor(done + [t], t.symbol)
  {
    if t.symbol in m {
      StatsForUpdate(done, t);
    } else {
      StatsForFirst(done, t);
    }
  }

  /** One turn of the accumulation loop keeps every entry equal to its closed form. */
  lemma {:induction false} AccumulateEntries(done: seq<Trade>, t: Trade, m: map<string, SymbolStats>, order: seq<string>)
    requires order == Dedup(Symbols(done))
    requires forall sym :: sym in m <==> sym in order
    requires forall sym :: sym in m ==> m[sym] == StatsFor(done, sym)
    ensures forall sym :: sym in m[t.symbol := NextEntry(m, t)] ==>
              m[t.symbol := NextEntry(m, t)][sym] == StatsFor(done + [t], sym)
  {
    assert t.symbol !in m ==> OfSymbol(done, t.symbol) == [] by {
      OfSymbolEmpty(done, t.symbol);
    }
    NextEntryIsStats(done, t, m);
    var m' := m[t.symbol := NextEntry(m, t)];
    forall sym | sym in m' ensures m'[sym] == StatsFor(done + [t], sym) {
      if sym != t.symbol {
        StatsForOther(done, t, sym);
      }
    }
  }

  /**
   * The `forEach` over the trades: `m` is the performance map, `order` the
   * order in which its keys were first set.
   */
  method Accumulate(trades: seq<Trade>) returns (m: map<string, SymbolStats>, order: seq<string>)
    ensures order == Dedup(Symbols(trades))
    ensures forall sym :: sym in m <==> sym in order
    ensures forall sym :: sym in m ==> m[sym] == StatsFor(trades, sym)
  {
    m, order := map[], [];
    var i := 0;
    while i < |trades|
      invariant 0 <= i <= |trades|
      invariant order == Dedup(Symbols(trades[..i]))
      invariant forall sym :: sym in m <==> sym in order
      invariant forall sym :: sym in m ==> m[sym] == StatsFor(trades[..i], sym)
    {
      var t := trades[i];
      PrefixSnoc(trades, i);
      AccumulateOrder(trades[..i], t, m, order);
      AccumulateEntries(trades[..i], t, m, order);
      if t.symbol in m {
        m := m[t.symbol := UpdateEntry(m[t.symbol], t)];
      } else {
        m := m[t.symbol := FirstEntry(t)];
        order := order + [t.symbol];
      }
      i := i + 1;
    }
    assert trades[..i] == trades;
  }

  /**
   * The `symbolStats` memo: the accumulation loop, then the map's values in
   * insertion order (`Array.from(performanceMap.values())`), sorted by
   * volume, largest first, and cut to ten.
   */
  method ComputeSymbolStats(trades: seq<Trade>) returns (top: seq<SymbolStats>)
    ensures top == TopSymbols(trades)
  {
    var m, order := Accumulate(trades);
    var values: seq<SymbolStats> := [];
    var k := 0;
    while k < |order|
      invariant 0 <= k <= |order|
      invariant values == StatsList(trades, order[..k])
    {
      StatsListSnoc(trades, order, k);
      values := values + [m[order[k]]];
      k := k + 1;
    }
    assert order[..k] == order;
    top := Take(Sort(values, VolumeKey, true), TopCount);
  }

  /** A symbol's trade count is how often it occurs among the trades. */
  lemma {:induction false} OfSymbolCount(s: seq<Trade>, sym: string)
    ensures |OfSymbol(s, sym)| == multiset(Symbols(s))[sym]
    decreases |s|
  {
    if s != [] {
      OfSymbolCount(s[1..], sym);
      assert Symbols(s) == [s[0].symbol] + Symbols(s[1..]);
    }
  }

  /** `n` copies of `x` added up: the product `n * x` built by addition alone. */
  function Times(n: nat, x: real): real {
    if n == 0 then 0.0 else Times(n - 1, x) + x
  }

  lemma {:induction false} TimesIsProduct(n: nat, x: real)
    ensures Times(n, x) == (n as real) * x
  {
    if n > 0 {
      TimesIsProduct(n - 1, x);
      assert (n as real) * x == ((n - 1) as real) * x + x;
    }
  }

  lemma {:induction false} SumPriceBounds(s: seq<Trade>, lo: real, hi: real)
    requires forall t :: t in s ==> lo <= t.price <= hi
    ensures Times(|s|, lo) <= SumPrice(s) <= Times(|s|, hi)
    decreases |s|
  {
    if s != [] {
      var init := s[..|s| - 1];
      assert forall t :: t in init ==> t in s;
      assert s[|s| - 1] in s;
      SumPriceBounds(init, lo, hi);
    }
  }

  /** A sum between `n * lo` and `n * hi` has its mean between `lo` and `hi`. */
  lemma QuotientBounds(sum: real, n: real, lo: real, hi: real)
    requires n > 0.0 && n * lo <= sum <= n * hi
    ensures lo <= sum / n <= hi
  {
    var q := sum / n;
    assert n * (q - lo) == sum - n * lo;
    assert n * (hi - q) == n * hi - sum;
    NonNegativeFactor(n, q - lo);
    NonNegativeFactor(n, hi - q);
  }

  lemma NonNegativeFactor(n: real, d: real)
    requires n > 0.0 && n * d >= 0.0
    ensures d >= 0.0
  {
  }

  /** The mean of prices that all lie in [lo, hi] lies in [lo, hi]. */
  lemma {:induction false} MeanPriceBounds(s: seq<Trade>, lo: real, hi: real)
    requires s != []
    requires forall t :: t in s ==> lo <= t.price <= hi
    ensures lo <= MeanPrice(s) <= hi
  {
    SumPriceBounds(s, lo, hi);
    TimesIsProduct(|s|, lo);
    TimesIsProduct(|s|, hi);
    QuotientBounds(SumPrice(s), |s| as real, lo, hi);
  }

  lemma {:induction false} RatioBounds(b: nat, n: nat)
    requires b <= n && n > 0
    ensures 0.0 <= (b as real) / (n as real) <= 1.0
  {
    var q := (b as real) / (n as real);
    assert q * (n as real) == b as real;
  }

  /**
   * What the panel shows for a symbol that has trades: its own name, its
   * number of trades, split into buys and sells, and the notional volume of
   * its trades.
   */
  lemma {:induction false} StatsForCounts(trades: seq<Trade>, sym: string)
    requires sym in Symbols(trades)
    ensures var e := StatsFor(trades, sym);
            && e.symbol == sym
            && e.tradeCount == multiset(Symbols(trades))[sym] > 0
            && e.buyCount + e.sellCount == e.tradeCount
            && e.totalVolume == SumNotional(OfSymbol(trades, sym))
  {
    OfSymbolCount(trades, sym);
    OfSymbolEmpty(trades, sym);
    BuySellPartition(OfSymbol(trades, sym));
  }

  /** The buy ratio is the share of buys among the symbol's trades, so it lies in [0, 1]. */
  lemma {:induction false} StatsForBuyRatio(trades: seq<Trade>, sym: string)
    requires sym in Symbols(trades)
    ensures var e := StatsFor(trades, sym);
            && e.tradeCount > 0
            && e.buyRatio == (e.buyCount as real) / (e.tradeCount as real)
            && 0.0 <= e.buyRatio <= 1.0
  {
    var of := OfSymbol(trades, sym);
    OfSymbolEmpty(trades, sym);
    RatioBounds(|OfSide(of, Buy)|, |of|);
  }

  /** The average price lies between the lowest and the highest price of the symbol's trades. */
  lemma {:induction false} AveragePriceBounds(trades: seq<Trade>, sym: string, lo: real, hi: real)
    requires sym in Symbols(trades)
    requires forall t :: t in trades && t.symbol == sym ==> lo <= t.price <= hi
    ensures lo <= StatsFor(trades, sym).averagePrice <= hi
  {
    OfSymbolEmpty(trades, sym);
    MeanPriceBounds(OfSymbol(trades, sym), lo, hi);
  }

  /** The running mean the loop keeps is the arithmetic mean of the symbol's prices. */
  lemma {:induction false} AveragePriceIsRunningMean(trades: seq<Trade>, sym: string)
    requires sym in Symbols(trades)
    ensures OfSymbol(trades, sym) != []
    ensures StatsFor(trades, sym).averagePrice == FoldMean(OfSymbol(trades, sym))
  {
    OfSymbolEmpty(trades, sym);
    FoldMeanIsMean(OfSymbol(trades, sym));
  }

  lemma {:induction false} EntriesAt(trades: seq<Trade>, i: nat)
    requires i < |Entries(trades)|
    ensures Entries(trades)[i] == StatsFor(trades, Entries(trades)[i].symbol)
    ensures Entries(trades)[i].symbol in Symbols(trades)
  {
    var syms := Dedup(Symbols(trades));
    assert syms[i] in syms;
  }

  /** Every entry of the ranked list is the statistics of a symbol that has trades. */
  lemma {:induction false} RankedEntry(trades: seq<Trade>, i: nat)
    requires i < |Ranked(trades)|
    ensures Ranked(trades)[i] == StatsFor(trades, Ranked(trades)[i].symbol)
    ensures Ranked(trades)[i].symbol in Symbols(trades)
  {
    var es := Entries(trades);
    var e := Ranked(trades)[i];
    assert e in multiset(Ranked(trades));
    assert e in es;
    var j :| 0 <= j < |es| && es[j] == e;
    EntriesAt(trades, j);
  }

  /** Every symbol that has trades has its entry in the ranked list. */
  lemma {:induction false} RankedComplete(trades: seq<Trade>, sym: string)
    requires sym in Symbols(trades)
    ensures StatsFor(trades, sym) in Ranked(trades)
  {
    var syms := Dedup(Symbols(trades));
    var j :| 0 <= j < |syms| && syms[j] == sym;
    assert Entries(trades)[j] == StatsFor(trades, sym);
    assert StatsFor(trades, sym) in multiset(Entries(trades));
  }

  lemma {:induction false} EntriesDistinct(trades: seq<Trade>)
    ensures Distinct(Entries(trades))
  {
    var syms := Dedup(Symbols(trades));
    forall i, j | 0 <= i < j < |syms| ensures Entries(trades)[i] != Entries(trades)[j] {
      assert Entries(trades)[i].symbol == syms[i];
    }
  }

  /** No symbol appears twice in the ranked list. */
  lemma {:induction false} RankedDistinct(trades: seq<Trade>)
    ensures forall i, j :: 0 <= i < j < |Ranked(trades)| ==> Ranked(trades)[i].symbol != Ranked(trades)[j].symbol
  {
    var r := Ranked(trades);
    EntriesDistinct(trades);
    SortDistinct(Entries(trades), VolumeKey, true);
    forall i, j | 0 <= i < j < |r| ensures r[i].symbol != r[j].symbol {
      RankedEntry(trades, i);
      RankedEntry(trades, j);
    }
  }

  /** The ranked list's volumes never increase. */
  lemma {:induction false} RankedOrdered(trades: seq<Trade>)
    ensures forall i, j :: 0 <= i < j < |Ranked(trades)| ==> Ranked(trades)[i].totalVolume >= Ranked(trades)[j].totalVolume
  {
    SortOrdered(Entries(trades), VolumeKey, true);
  }

  /**
   * Entries of equal volume keep the order of their symbols' first trades:
   * the comparator's 0 leaves them as the map's insertion order had them.
   */
  lemma {:induction false} RankedStable(trades: seq<Trade>, volume: real)
    ensures WithKey(Ranked(trades), VolumeKey, Num(volume)) == WithKey(Entries(trades), VolumeKey, Num(volume))
  {
    SortStable(Entries(trades), VolumeKey, true, Num(volume));
  }

  /** At most ten entries, ten whenever there are ten symbols, none for no trades. */
  lemma {:induction false} TopSymbolsSize(trades: seq<Trade>)
    ensures var n := |Dedup(Symbols(trades))|;
            |TopSymbols(trades)| == if n <= TopCount then n else TopCount
    ensures TopSymbols(trades) == [] <==> trades == []
  {
    if trades != [] {
      assert trades[0].symbol in Symbols(trades);
      assert trades[0].symbol in Dedup(Symbols(trades));
    }
  }

  /** Each shown entry is its symbol's statistics, no symbol is shown twice, largest volume first. */
  lemma {:induction false} TopSymbolsEntries(trades: seq<Trade>)
    ensures forall i :: 0 <= i < |TopSymbols(trades)| ==>
              && TopSymbols(trades)[i] == StatsFor(trades, TopSymbols(trades)[i].symbol)
              && TopSymbols(trades)[i].symbol in Symbols(trades)
    ensures forall i, j :: 0 <= i < j < |TopSymbols(trades)| ==>
              && TopSymbols(trades)[i].symbol != TopSymbols(trades)[j].symbol
              && TopSymbols(trades)[i].totalVolume >= TopSymbols(trades)[j].totalVolume
  {
    var top := TopSymbols(trades);
    RankedDistinct(trades);
    RankedOrdered(trades);
    forall i | 0 <= i < |top|
      ensures top[i] == StatsFor(trades, top[i].symbol) && top[i].symbol in Symbols(trades)
    {
      RankedEntry(trades, i);
    }
  }

  /**
   * The cut keeps the largest: a symbol with trades that is not shown means
   * ten symbols are shown, each with at least its volume.
   */
  lemma {:induction false} TopSymbolsKeepsLargest(trades: seq<Trade>, sym: string)
    requires sym in Symbols(trades)
    requires forall i :: 0 <= i < |TopSymbols(trades)| ==> TopSymbols(trades)[i].symbol != sym
    ensures |TopSymbols(trades)| == TopCount
    ensures forall i :: 0 <= i < TopCount ==> TopSymbols(trades)[i].totalVolume >= StatsFor(trades, sym).totalVolume
  {
    var r := Ranked(trades);
    RankedComplete(trades, sym);
    var p :| 0 <= p < |r| && r[p] == StatsFor(trades, sym);
    assert StatsFor(trades, sym).symbol == sym;
    RankedOrdered(trades);
  }
}
