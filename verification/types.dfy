/**
 * The records exchanged between the feed hook, the aggregators and the views
 * (types/trade.ts). Prices and sizes are exact reals, so the aggregate
 * identities hold exactly instead of up to floating-point rounding.
 */
module Types {

  datatype Option<+T> = None | Some(value: T)

  /** `side: 'buy' | 'sell'` */
  datatype Side = Buy | Sell

  /** The string a trade's side carries on the wire and in a filter. */
  function SideName(s: Side): (r: string)
    ensures r == "buy" <==> s == Buy
    ensures r == "sell" <==> s == Sell
  {
    match s
    case Buy => "buy"
    case Sell => "sell"
  }

  datatype Trade = Trade(
    id: string,
    timestamp: int,
    symbol: string,
    price: real,
    size: real,
    side: Side,
    exchange: string)

  datatype SymbolStats = SymbolStats(
    symbol: string,
    totalVolume: real,
    tradeCount: nat,
    averagePrice: real,
    buyCount: nat,
    sellCount: nat,
    buyRatio: real)

  datatype TradeStats = TradeStats(
    totalTrades: nat,
    buyVolume: real,
    sellCount: nat,
    buyCount: nat)

  /**
   * Every filter key is optional; an absent key and an empty string both
   * impose no constraint. The side filter holds the side's name ("buy",
   * "sell") or the empty string, as the select element produces it.
   */
  datatype FilterOptions = FilterOptions(
    symbol: Option<string>,
    side: Option<string>,
    exchange: Option<string>)

  datatype SortField = Price | Timestamp | Size | Symbol

  datatype SortDirection = Asc | Desc

  datatype SortOptions = SortOptions(field: SortField, direction: SortDirection)

  /** The connection record the hook exposes; `error: string | null`. */
  datatype WebSocketState = WebSocketState(
    isConnected: bool,
    url: string,
    error: Option<string>)
}
