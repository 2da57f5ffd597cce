/**
 * The dashboard page (app/page.tsx): the option lists offered by the
 * filter controls, and the one view of the feed every panel is given,
 * namely the buffered trades narrowed by the filters and sorted by the
 * chosen field and direction.
 *
 * As written, the page sorts the filtered array in place. With no filter
 * set, that array is the feed hook's own buffer, so the buffer itself is
 * reordered and stops being newest-first (`RenderInPlace`,
 * `AliasSortBreaksFeed`). The corrected render, `RenderCopy`, sorts a copy
 * and shows the same rows; `CopySortKeepsFeed` shows that the buffer then
 * stays the newest trades in arrival order.
 */
module Dashboard {
  import opened Types
  import opened Order
  import opened StableSort
  import opened WebSocketHook
  import opened StatisticsPanel
  import SymbolPerformance

  // ---------------------------------------------------------------- options

  /** The string order the default `sort()` uses. */
  function StrKey(s: string): Key {
    Str(s)
  }

  /** `Array.from(new Set(xs)).sort()`: each value once, in ascending string order. */
  function DistinctSorted(xs: seq<string>): seq<string> {
    Sort(SymbolPerformance.Dedup(xs), StrKey, false)
  }

  /** The `symbols` memo: each symbol of the feed once, in ascending string order. */
  function SymbolOptions(trades: seq<Trade>): (r: seq<string>)
    ensures forall x :: x in r <==> x in SymbolPerformance.Symbols(trades)
    ensures forall i, j :: 0 <= i < j < |r| ==> LexLess(r[i], r[j])
  {
    DistinctSortedSpec(SymbolPerformance.Symbols(trades));
    DistinctSorted(SymbolPerformance.Symbols(trades))
  }

  /** The exchange of every trade, in order. */
  function Exchanges(s: seq<Trade>): (r: seq<string>)
    ensures |r| == |s| && forall i :: 0 <= i < |s| ==> r[i] == s[i].exchange
  {
    seq(|s|, i requires 0 <= i < |s| => s[i].exchange)
  }

  /** The `exchanges` memo: each exchange of the feed once, in ascending string order. */
  function ExchangeOptions(trades: seq<Trade>): (r: seq<string>)
    ensures forall x :: x in r <==> x in Exchanges(trades)
    ensures forall i, j :: 0 <= i < j < |r| ==> LexLess(r[i], r[j])
  {
    DistinctSortedSpec(Exchanges(trades));
    DistinctSorted(Exchanges(trades))
  }

  /**
   * The option list holds exactly the values that occur, each once, in
   * strictly ascending string order.
   */
  lemma {:induction false} DistinctSortedSpec(xs: seq<string>)
    ensures forall x :: x in DistinctSorted(xs) <==> x in xs
    ensures forall i, j :: 0 <= i < j < |DistinctSorted(xs)| ==> LexLess(DistinctSorted(xs)[i], DistinctSorted(xs)[j])
  {
    var d := SymbolPerformance.Dedup(xs);
    var r := DistinctSorted(xs);
    forall x ensures x in r <==> x in xs {
      assert x in r <==> x in multiset(r);
      assert x in d <==> x in multiset(d);
    }
    SortOrdered(d, StrKey, false);
    SortDistinct(d, StrKey, false);
    forall i, j | 0 <= i < j < |r| ensures LexLess(r[i], r[j]) {
      LexLessTotal(r[i], r[j]);
    }
  }

  /** Every trade's symbol and exchange is offered. */
  lemma OptionsComplete(trades: seq<Trade>, t: Trade)
    requires t in trades
    ensures t.symbol in SymbolOptions(trades)
    ensures t.exchange in ExchangeOptions(trades)
  {
    var i :| 0 <= i < |trades| && trades[i] == t;
    assert SymbolPerformance.Symbols(trades)[i] == t.symbol;
    assert Exchanges(trades)[i] == t.exchange;
  }

  // ---------------------------------------------------------------- filters

  /** A filter value JavaScript treats as true: present and not the empty string. */
  predicate Truthy(o: Option<string>) {
    o.Some? && o.value != ""
  }

  /** The filters narrow nothing. */
  predicate NoFilter(f: FilterOptions) {
    !Truthy(f.symbol) && !Truthy(f.side) && !Truthy(f.exchange)
  }

  /** A trade passes every filter that is set. */
  predicate Matches(t: Trade, f: FilterOptions) {
    && (Truthy(f.symbol) ==> t.symbol == f.symbol.value)
    && (Truthy(f.side) ==> SideName(t.side) == f.side.value)
    && (Truthy(f.exchange) ==> t.exchange == f.exchange.value)
  }

  /** `s.filter(keep)` */
  function Keep(s: seq<Trade>, keep: Trade -> bool): (r: seq<Trade>)
    ensures |r| <= |s|
  {
    if s == [] then []
    else (if keep(s[0]) then [s[0]] else []) + Keep(s[1..], keep)
  }

  function SymbolIs(v: string): Trade -> bool {
    (t: Trade) => t.symbol == v
  }

  function SideIs(v: string): Trade -> bool {
    (t: Trade) => SideName(t.side) == v
  }

  function ExchangeIs(v: string): Trade -> bool {
    (t: Trade) => t.exchange == v
  }

  /** `if (on) s = s.filter(keep)` */
  function KeepIf(s: seq<Trade>, on: bool, keep: Trade -> bool): seq<Trade> {
    if on then Keep(s, keep) else s
  }

  /** The value of a filter that is set; never read when it is not. */
  function ValueOf(o: Option<string>): string {
    if o.Some? then o.value else ""
  }

  /** The three filter passes, each applied only when its value is truthy. */
  function ApplyFilters(trades: seq<Trade>, f: FilterOptions): (r: seq<Trade>)
    ensures |r| <= |trades|
    ensures NoFilter(f) ==> r == trades
  {
    var bySymbol := KeepIf(trades, Truthy(f.symbol), SymbolIs(ValueOf(f.symbol)));
    var bySide := KeepIf(bySymbol, Truthy(f.side), SideIs(ValueOf(f.side)));
    KeepIf(bySide, Truthy(f.exchange), ExchangeIs(ValueOf(f.exchange)))
  }

  /** One pass keeping the trades that pass every filter, in feed order. */
  function Matching(trades: seq<Trade>, f: FilterOptions): (r: seq<Trade>)
    ensures forall t :: t in r <==> t in trades && Matches(t, f)
  {
    if trades == [] then []
    else
      assert forall t :: t in trades <==> t == trades[0] || t in trades[1..];
      (if Matches(trades[0], f) then [trades[0]] else []) + Matching(trades[1..], f)
  }

  lemma KeepIfCons(x: Trade, s: seq<Trade>, on: bool, keep: Trade -> bool)
    ensures KeepIf([x] + s, on, keep) == (if !on || keep(x) then [x] else []) + KeepIf(s, on, keep)
  {
    assert ([x] + s)[1..] == s;
  }

  lemma ApplyFiltersCons(x: Trade, s: seq<Trade>, f: FilterOptions)
    ensures ApplyFilters([x] + s, f) == (if Matches(x, f) then [x] else []) + ApplyFilters(s, f)
  {
    var on1, k1 := Truthy(f.symbol), SymbolIs(ValueOf(f.symbol));
    var on2, k2 := Truthy(f.side), SideIs(ValueOf(f.side));
    var on3, k3 := Truthy(f.exchange), ExchangeIs(ValueOf(f.exchange));
    var s1 := KeepIf(s, on1, k1);
    var s2 := KeepIf(s1, on2, k2);
    assert k1(x) == (x.symbol == ValueOf(f.symbol));
    assert k2(x) == (SideName(x.side) == ValueOf(f.side));
    assert k3(x) == (x.exchange == ValueOf(f.exchange));
    assert Matches(x, f) == ((!on1 || k1(x)) && (!on2 || k2(x)) && (!on3 || k3(x)));
    assert ApplyFilters([x] + s, f) == KeepIf(KeepIf(KeepIf([x] + s, on1, k1), on2, k2), on3, k3);
    assert ApplyFilters(s, f) == KeepIf(s2, on3, k3);
    KeepIfCons(x, s, on1, k1);
    if !on1 || k1(x) {
      KeepIfCons(x, s1, on2, k2);
      if !on2 || k2(x) {
        KeepIfCons(x, s2, on3, k3);
      } else {
        assert [] + s2 == s2;
      }
    } else {
      assert [] + s1 == s1;
    }
  }

  /**
   * The chain of filter passes keeps exactly the trades that pass every
   * filter that is set, in feed order; with no filter set it keeps all.
   */
  lemma {:induction false} ApplyFiltersIsMatching(trades: seq<Trade>, f: FilterOptions)
    ensures ApplyFilters(trades, f) == Matching(trades, f)
    ensures NoFilter(f) ==> ApplyFilters(trades, f) == trades
    decreases |trades|
  {
    if trades != [] {
      ApplyFiltersIsMatching(trades[1..], f);
      assert trades == [trades[0]] + trades[1..];
      ApplyFiltersCons(trades[0], trades[1..], f);
    }
    if NoFilter(f) {
      assert KeepIf(trades, Truthy(f.symbol), SymbolIs(ValueOf(f.symbol))) == trades;
    }
  }

  // ---------------------------------------------------------------- sorting

  function LowerChar(c: char): char {
    if 'A' <= c <= 'Z' then (c as int + 32) as char else c
  }

  /** `toLowerCase()` on the ASCII letters. */
  function Lower(s: string): (r: string)
    ensures |r| == |s|
    ensures forall i :: 0 <= i < |s| ==> !('A' <= r[i] <= 'Z')
    ensures forall i :: 0 <= i < |s| && 'A' <= s[i] <= 'Z' ==> r[i] == (s[i] as int + 32) as char
    ensures forall i :: 0 <= i < |s| && !('A' <= s[i] <= 'Z') ==> r[i] == s[i]
  {
    seq(|s|, i requires 0 <= i < |s| => LowerChar(s[i]))
  }

  /** `a[sort.field]`, with strings lower-cased before they are compared. */
  function SortKey(t: Trade, field: SortField): Key {
    match field
    case Price => Num(t.price)
    case Timestamp => Num(t.timestamp as real)
    case Size => Num(t.size)
    case Symbol => Str(Lower(t.symbol))
  }

  function KeyOf(field: SortField): Trade -> Key {
    t => SortKey(t, field)
  }

  /** The page's comparator: -1 puts `a` first, 1 puts `b` first, 0 keeps their order. */
  function Compare(a: Trade, b: Trade, sort: SortOptions): (r: int)
    ensures r == -1 <==> Before(a, b, KeyOf(sort.field), sort.direction == Desc)
    ensures r == 1 <==> Before(b, a, KeyOf(sort.field), sort.direction == Desc)
    ensures r == 0 <==> SortKey(a, sort.field) == SortKey(b, sort.field)
  {
    var x, y := SortKey(a, sort.field), SortKey(b, sort.field);
    assert KeyOf(sort.field)(a) == x && KeyOf(sort.field)(b) == y;
    KeyLessTotal(x, y);
    KeyLessIrreflexive(x);
    KeyLessAsymmetric(x, y);
    var desc := sort.direction == Desc;
    assert Before(a, b, KeyOf(sort.field), desc) == if desc then KeyLess(y, x) else KeyLess(x, y);
    assert Before(b, a, KeyOf(sort.field), desc) == if desc then KeyLess(x, y) else KeyLess(y, x);
    if sort.direction == Asc then
      if KeyLess(x, y) then -1 else if KeyLess(y, x) then 1 else 0
    else
      if KeyLess(y, x) then -1 else if KeyLess(x, y) then 1 else 0
  }

  /** The rows of the `filteredAndSortedTrades` memo: the filtered trades, sorted. */
  function View(trades: seq<Trade>, f: FilterOptions, sort: SortOptions): (r: seq<Trade>)
    ensures multiset(r) == multiset(ApplyFilters(trades, f))
  {
    Sort(ApplyFilters(trades, f), KeyOf(sort.field), sort.direction == Desc)
  }

  /** The view holds exactly the trades that pass the filters, each as often as in the feed. */
  lemma ViewContents(trades: seq<Trade>, f: FilterOptions, sort: SortOptions)
    ensures multiset(View(trades, f, sort)) == multiset(Matching(trades, f))
    ensures forall t :: t in View(trades, f, sort) <==> t in trades && Matches(t, f)
  {
    ApplyFiltersIsMatching(trades, f);
    var v := View(trades, f, sort);
    forall t ensures t in v <==> t in Matching(trades, f) {
      assert t in v <==> t in multiset(v);
    }
  }

  /** No trade of the view is put after one the comparator says goes after it. */
  lemma ViewOrdered(trades: seq<Trade>, f: FilterOptions, sort: SortOptions)
    ensures forall i, j :: 0 <= i < j < |View(trades, f, sort)| ==>
              Compare(View(trades, f, sort)[i], View(trades, f, sort)[j], sort) <= 0
  {
    SortOrdered(ApplyFilters(trades, f), KeyOf(sort.field), sort.direction == Desc);
  }

  /** Trades the comparator calls equal keep their feed order (newest first). */
  lemma ViewStable(trades: seq<Trade>, f: FilterOptions, sort: SortOptions, k: Key)
    ensures WithKey(View(trades, f, sort), KeyOf(sort.field), k) == WithKey(Matching(trades, f), KeyOf(sort.field), k)
  {
    ApplyFiltersIsMatching(trades, f);
    SortStable(ApplyFilters(trades, f), KeyOf(sort.field), sort.direction == Desc, k);
  }

  /** Two characters are equal, or are the capital and small form of one ASCII letter. */
  predicate CaseVariants(c: char, d: char) {
    || c == d
    || ('A' <= c <= 'Z' && d as int == c as int + 32)
    || ('A' <= d <= 'Z' && c as int == d as int + 32)
  }

  /** By symbol, two trades compare equal exactly when their symbols differ at most in ASCII letter case. */
  lemma SymbolSortIgnoresCase(a: Trade, b: Trade, dir: SortDirection)
    ensures Compare(a, b, SortOptions(Symbol, dir)) == 0
        <==> |a.symbol| == |b.symbol| && forall i :: 0 <= i < |a.symbol| ==> CaseVariants(a.symbol[i], b.symbol[i])
  {
    var x, y := Lower(a.symbol), Lower(b.symbol);
    if |a.symbol| == |b.symbol| && forall i :: 0 <= i < |a.symbol| ==> CaseVariants(a.symbol[i], b.symbol[i]) {
      forall i | 0 <= i < |x| ensures x[i] == y[i] {
        assert CaseVariants(a.symbol[i], b.symbol[i]);
      }
      assert x == y;
    }
    if x == y {
      forall i | 0 <= i < |a.symbol| ensures CaseVariants(a.symbol[i], b.symbol[i]) {
        assert x[i] == y[i];
      }
    }
  }

  /** The statistics panel, given the view, counts the filtered trades whatever the sort. */
  lemma StatsOfView(trades: seq<Trade>, f: FilterOptions, sort: SortOptions)
    ensures ComputeStats(View(trades, f, sort)) == ComputeStats(Matching(trades, f))
  {
    ViewContents(trades, f, sort);
    StatsOrderIndependent(View(trades, f, sort), Matching(trades, f));
  }

  /** No filter and newest trade first when the page opens. */
  const InitialFilters: FilterOptions := FilterOptions(None, None, None)
  const InitialSort: SortOptions := SortOptions(Timestamp, Desc)

  lemma InitialViewShowsAll(trades: seq<Trade>)
    ensures multiset(View(trades, InitialFilters, InitialSort)) == multiset(trades)
    ensures forall i, j :: 0 <= i < j < |View(trades, InitialFilters, InitialSort)| ==>
              View(trades, InitialFilters, InitialSort)[i].timestamp >= View(trades, InitialFilters, InitialSort)[j].timestamp
  {
    ApplyFiltersIsMatching(trades, InitialFilters);
    SortOrdered(trades, KeyOf(Timestamp), true);
  }

  // ---------------------------------------------------------------- the in-place sort

  /**
   * The buffer after the page renders, as written: with no filter set the
   * sort runs on the buffer itself.
   */
  function BufferAfterRender(buffer: seq<Trade>, f: FilterOptions, sort: SortOptions): (r: seq<Trade>)
    ensures multiset(r) == multiset(buffer)
    ensures !NoFilter(f) ==> r == buffer
    ensures NoFilter(f) ==> r == View(buffer, f, sort)
    ensures NoFilter(f) ==> forall i, j :: 0 <= i < j < |r| ==> Compare(r[i], r[j], sort) <= 0
  {
    if NoFilter(f) then
      ViewOrdered(buffer, f, sort);
      View(buffer, f, sort)
    else buffer
  }

  /**
   * The page's render as written: the memo filters, then sorts in place the
   * array it ends up holding. With no filter set that array is the feed's own
   * buffer, which the sort reorders behind the hook's back.
   */
  method RenderInPlace(feed: TradeFeed<Trade>, f: FilterOptions, sort: SortOptions) returns (view: seq<Trade>)
    requires feed.Valid()
    modifies feed
    ensures feed.Valid()
    ensures view == View(old(feed.trades), f, sort)
    ensures feed.trades == BufferAfterRender(old(feed.trades), f, sort)
    ensures feed.received == old(feed.received)
    ensures feed.state == old(feed.state) && feed.wsRef == old(feed.wsRef) && feed.sockets == old(feed.sockets)
  {
    var filtered := ApplyFilters(feed.trades, f);
    view := Sort(filtered, KeyOf(sort.field), sort.direction == Desc);
    if NoFilter(f) {
      feed.Reorder(view);
    }
  }

  /** Corrected render: the memo sorts a copy of the filtered array and leaves the feed alone. */
  method RenderCopy(feed: TradeFeed<Trade>, f: FilterOptions, sort: SortOptions) returns (view: seq<Trade>)
    ensures view == View(feed.trades, f, sort)
    ensures multiset(view) == multiset(Matching(feed.trades, f))
  {
    var filtered := ApplyFilters(feed.trades, f);
    view := Sort(filtered, KeyOf(sort.field), sort.direction == Desc);
    ViewContents(feed.trades, f, sort);
  }

  /** Of two permutations of each other, all but the last position decide the whole. */
  lemma PermutationByInit<T>(a: seq<T>, b: seq<T>)
    requires multiset(a) == multiset(b) && |a| > 0
    ensures |a| == |b|
    ensures (forall i :: 0 <= i < |a| - 1 ==> a[i] == b[i]) ==> a == b
  {
    var n := |a|;
    assert |b| == |multiset(b)| == n;
    if forall i :: 0 <= i < n - 1 ==> a[i] == b[i] {
      var init := a[..n - 1];
      assert b[..n - 1] == init;
      assert a == init + [a[n - 1]];
      assert b == init + [b[n - 1]];
      assert multiset(a) == multiset(init) + multiset{a[n - 1]};
      assert multiset(b) == multiset(init) + multiset{b[n - 1]};
      assert multiset(b)[a[n - 1]] == multiset(a)[a[n - 1]];
    }
  }

  /**
   * As written: once a render has reordered the buffer, the next frame no
   * longer leaves the newest trades newest-first, and at capacity the trade
   * dropped is the one the sort put last, not the oldest.
   */
  lemma AliasSortBreaksFeed(received: seq<Trade>, x: Trade, f: FilterOptions, sort: SortOptions)
    requires NoFilter(f)
    requires BufferAfterRender(Newest(received), f, sort) != Newest(received)
    ensures Prepend(BufferAfterRender(Newest(received), f, sort), x) != Newest(received + [x])
  {
    var a, b := BufferAfterRender(Newest(received), f, sort), Newest(received);
    assert |a| == |multiset(a)| == |b|;
    PrependKeepsNewest(received, x);
    if |a| > 0 {
      PermutationByInit(a, b);
    }
  }

  /** Two trades that arrived in rising price order, then a third. */
  const Older: Trade := Trade("1", 1, "BTC", 1.0, 1.0, Buy, "X")
  const Newer: Trade := Trade("2", 2, "BTC", 2.0, 1.0, Buy, "X")
  const Third: Trade := Trade("3", 3, "BTC", 3.0, 1.0, Buy, "X")

  /**
   * The input that shows it: sorting by price ascending puts the older trade
   * in front of the buffer, and the next frame leaves it second.
   */
  lemma AliasSortExample()
    ensures Newest([Older, Newer]) == [Newer, Older]
    ensures BufferAfterRender([Newer, Older], InitialFilters, SortOptions(Price, Asc)) == [Older, Newer]
    ensures Prepend([Older, Newer], Third) == [Third, Older, Newer]
    ensures Newest([Older, Newer, Third]) == [Third, Newer, Older]
  {
    NewestExample();
    RenderExample();
  }

  lemma NewestExample()
    ensures Newest([Older, Newer]) == [Newer, Older]
    ensures Newest([Older, Newer, Third]) == [Third, Newer, Older]
  {
    assert Reverse([Older]) == [Older] by {
      assert [Older][..0] == [];
    }
    assert Reverse([Older, Newer]) == [Newer, Older] by {
      assert [Older, Newer][..1] == [Older];
    }
    assert Reverse([Older, Newer, Third]) == [Third, Newer, Older] by {
      assert [Older, Newer, Third][..2] == [Older, Newer];
    }
  }

  lemma RenderExample()
    ensures BufferAfterRender([Newer, Older], InitialFilters, SortOptions(Price, Asc)) == [Older, Newer]
  {
    ApplyFiltersIsMatching([Newer, Older], InitialFilters);
    var key := KeyOf(Price);
    assert Sort([Older], key, false) == [Older] by {
      assert [Older][1..] == [];
    }
    assert Before(Older, Newer, key, false);
    assert Insert(Newer, [Older], key, false) == [Older, Newer] by {
      assert [Older][1..] == [];
    }
    assert [Newer, Older][1..] == [Older];
    assert Sort([Newer, Older], key, false) == [Older, Newer];
  }

  /** The buffer after the frames `xs` arrive, with nothing else touching it. */
  function Frames(buffer: seq<Trade>, xs: seq<Trade>): seq<Trade>
    decreases |xs|
  {
    if xs == [] then buffer else Frames(Prepend(buffer, xs[0]), xs[1..])
  }

  /** Frames prepended to the newest arrivals leave the newest arrivals of the longer history. */
  lemma {:induction false} FramesKeepNewest(received: seq<Trade>, xs: seq<Trade>)
    ensures Frames(Newest(received), xs) == Newest(received + xs)
    decreases |xs|
  {
    if xs == [] {
      assert received + xs == received;
    } else {
      PrependKeepsNewest(received, xs[0]);
      FramesKeepNewest(received + [xs[0]], xs[1..]);
      assert received + [xs[0]] + xs[1..] == received + xs;
    }
  }

  /**
   * Corrected: with the view sorted on a copy, renders leave the buffer
   * alone, so after any further frames it is the newest trades, newest first,
   * and the view shows exactly the matching ones among them.
   */
  lemma CopySortKeepsFeed(received: seq<Trade>, xs: seq<Trade>, f: FilterOptions, sort: SortOptions)
    ensures Frames(Newest(received), xs) == Newest(received + xs)
    ensures multiset(View(Frames(Newest(received), xs), f, sort)) == multiset(Matching(Newest(received + xs), f))
  {
    FramesKeepNewest(received, xs);
    ViewContents(Newest(received + xs), f, sort);
  }

  /**
   * Corrected, as a sequence of operations: a render on a copy and then a
   * frame leave the buffer the newest arrivals.
   */
  method CopyRenderThenFrame(feed: TradeFeed<Trade>, f: FilterOptions, sort: SortOptions, i: nat, x: Trade)
    returns (view: seq<Trade>)
    requires feed.Valid() && feed.InArrivalOrder() && i < |feed.sockets|
    modifies feed
    ensures feed.Valid() && feed.InArrivalOrder()
    ensures feed.trades == Newest(old(feed.received) + [x])
    ensures view == View(old(feed.trades), f, sort)
  {
    view := RenderCopy(feed, f, sort);
    feed.HandleMessage(i, Some(x));
  }

  /**
   * As written, as a sequence of operations: the same rows are shown, but a
   * render that reorders the buffer and then a frame leave it out of arrival
   * order.
   */
  method InPlaceRenderThenFrame(feed: TradeFeed<Trade>, f: FilterOptions, sort: SortOptions, i: nat, x: Trade)
    returns (view: seq<Trade>)
    requires feed.Valid() && feed.InArrivalOrder() && i < |feed.sockets|
    requires NoFilter(f) && BufferAfterRender(feed.trades, f, sort) != feed.trades
    modifies feed
    ensures feed.Valid() && !feed.InArrivalOrder()
    ensures view == View(old(feed.trades), f, sort)
  {
    ghost var received := feed.received;
    view := RenderInPlace(feed, f, sort);
    feed.HandleMessage(i, Some(x));
    AliasSortBreaksFeed(received, x, f, sort);
  }
}
