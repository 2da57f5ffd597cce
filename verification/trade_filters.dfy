/**
 * The filter and sort controls (components/TradeFilters.tsx). Choosing an
 * option of a select replaces that one filter, the empty "All" option
 * removing it; clicking a sort button selects that field, newest-style
 * descending first, and a second click on the same field flips the
 * direction.
 */
module TradeFilters {
  import opened Types
  import opened Dashboard

  datatype FilterKey = SymbolKey | SideKey | ExchangeKey

  /** `filters[key]` */
  function Get(f: FilterOptions, key: FilterKey): Option<string> {
    match key
    case SymbolKey => f.symbol
    case SideKey => f.side
    case ExchangeKey => f.exchange
  }

  /** The value the filter compares a trade's field with. */
  function FieldOf(t: Trade, key: FilterKey): string {
    match key
    case SymbolKey => t.symbol
    case SideKey => SideName(t.side)
    case ExchangeKey => t.exchange
  }

  /** `handleFilterChange(key, value)`: `{...filters, [key]: value === '' ? undefined : value}` */
  function HandleFilterChange(f: FilterOptions, key: FilterKey, value: string): (r: FilterOptions)
    ensures Get(r, key) == if value == "" then None else Some(value)
    ensures forall k :: k != key ==> Get(r, k) == Get(f, k)
  {
    var v := if value == "" then None else Some(value);
    match key
    case SymbolKey => f.(symbol := v)
    case SideKey => f.(side := v)
    case ExchangeKey => f.(exchange := v)
  }

  /** The trade passes the filter stored under `key`. */
  predicate Passes(t: Trade, key: FilterKey, o: Option<string>) {
    Truthy(o) ==> FieldOf(t, key) == o.value
  }

  /** A trade matches the filters when it passes each of the three. */
  lemma MatchesEachKey(t: Trade, f: FilterOptions)
    ensures Matches(t, f) <==> forall k :: Passes(t, k, Get(f, k))
  {
    if !Matches(t, f) {
      if !Passes(t, SymbolKey, Get(f, SymbolKey)) {
      } else if !Passes(t, SideKey, Get(f, SideKey)) {
      } else {
        assert !Passes(t, ExchangeKey, Get(f, ExchangeKey));
      }
    }
  }

  /**
   * After choosing `value` under `key`, a trade is shown exactly when its
   * field equals the value (any trade, for the "All" option) and it passes
   * the other two filters as before.
   */
  lemma FilterChangeEffect(t: Trade, f: FilterOptions, key: FilterKey, value: string)
    ensures Matches(t, HandleFilterChange(f, key, value))
        <==> (value == "" || FieldOf(t, key) == value) && forall k :: k != key ==> Passes(t, k, Get(f, k))
  {
    var r := HandleFilterChange(f, key, value);
    MatchesEachKey(t, r);
    if (value == "" || FieldOf(t, key) == value) && forall k :: k != key ==> Passes(t, k, Get(f, k)) {
      forall k ensures Passes(t, k, Get(r, k)) {
        if k != key {
          assert Passes(t, k, Get(f, k));
        }
      }
    }
  }

  /** The last choice under a key wins: choosing twice is choosing the second value. */
  lemma FilterChangeOverwrites(f: FilterOptions, key: FilterKey, v1: string, v2: string)
    ensures HandleFilterChange(HandleFilterChange(f, key, v1), key, v2) == HandleFilterChange(f, key, v2)
  {
  }

  /** `filters[key] || ''`: the option a select displays. */
  function Displayed(f: FilterOptions, key: FilterKey): (r: string)
    ensures r == "" <==> !Truthy(Get(f, key))
  {
    var o := Get(f, key);
    if o.Some? then o.value else ""
  }

  /** Re-choosing the option a select displays leaves the shown trades as they were. */
  lemma ReselectKeepsView(trades: seq<Trade>, f: FilterOptions, key: FilterKey, sort: SortOptions)
    ensures View(trades, HandleFilterChange(f, key, Displayed(f, key)), sort) == View(trades, f, sort)
  {
    var r := HandleFilterChange(f, key, Displayed(f, key));
    forall k ensures Truthy(Get(r, k)) == Truthy(Get(f, k)) && (Truthy(Get(f, k)) ==> Get(r, k) == Get(f, k)) {
    }
    assert Truthy(r.symbol) == Truthy(f.symbol) && Truthy(r.side) == Truthy(f.side) && Truthy(r.exchange) == Truthy(f.exchange)
      by {
        assert Get(r, SymbolKey) == r.symbol && Get(r, SideKey) == r.side && Get(r, ExchangeKey) == r.exchange;
      }
    assert ApplyFilters(trades, r) == ApplyFilters(trades, f) by {
      assert ValueOf(r.symbol) == ValueOf(f.symbol) || !Truthy(f.symbol);
      assert ValueOf(r.side) == ValueOf(f.side) || !Truthy(f.side);
      assert ValueOf(r.exchange) == ValueOf(f.exchange) || !Truthy(f.exchange);
    }
  }

  /** `handleSortChange(field)` */
  function HandleSortChange(sort: SortOptions, field: SortField): (r: SortOptions)
    ensures r.field == field
    ensures r.direction == Asc <==> sort.field == field && sort.direction == Desc
  {
    var newDirection := if sort.field == field && sort.direction == Desc then Asc else Desc;
    SortOptions(field, newDirection)
  }

  /** Two clicks on the sorted field restore the sort; a click on another field sorts it descending. */
  lemma SortChangeToggles(sort: SortOptions, field: SortField)
    ensures sort.field == field ==> HandleSortChange(HandleSortChange(sort, field), field) == sort
    ensures sort.field != field ==> HandleSortChange(sort, field) == SortOptions(field, Desc)
  {
  }
}
