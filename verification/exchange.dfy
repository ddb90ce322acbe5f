/**
 * The futures exchange as the core sees it: the requests it sends, and a client object that
 * records every request in order and answers each one as the exchange would. Whether the
 * exchange accepts a request is fixed up front by the set `refused`; what it lists as
 * instruments is `symbols`.
 */
module Exchange {
  import opened Text
  import opened Numeric
  import opened Types
  import opened Wrappers

  datatype Side = Buy | Sell

  datatype OrderType = Limit | TakeProfitMarket | StopMarket

  /** A new order: `price` is the limit price of a LIMIT order and the trigger (`stopPrice`) of the others. All are GTC. */
  datatype Order = Order(symbol: string, side: Side, orderType: OrderType, quantity: Num, price: Num)

  datatype Request =
    | SetLeverage(symbol: string, leverage: nat)
    | GetExchangeInfo
    | SubmitNewOrder(order: Order)
    | ModifyOrder(symbol: string, side: Side, origClientOrderId: nat, price: Num, quantity: Num)
    | CancelAllOpenOrders(symbol: string)

  /** An instrument's entry in the exchange information. */
  datatype SymbolInfo = SymbolInfo(symbol: string, pricePrecision: nat, quantityPrecision: nat)

  /** The side that opens a position in `direction`: BUY exactly for a (case-insensitive) LONG. */
  function EntrySide(direction: string): (s: Side)
    ensures s == Buy <==> Upper(direction) == "LONG"
  {
    if Upper(direction) == "LONG" then Buy else Sell
  }

  function Opposite(s: Side): (r: Side)
    ensures r != s
  {
    if s == Buy then Sell else Buy
  }

  /** The first entry for `symbol` in the exchange information (`symbols.find(...)`). */
  function FindSymbol(symbols: seq<SymbolInfo>, symbol: string): (r: Option<SymbolInfo>)
    ensures r.None? <==> forall k :: 0 <= k < |symbols| ==> symbols[k].symbol != symbol
    ensures r.Some? ==> exists k :: 0 <= k < |symbols| && symbols[k] == r.value && symbol == r.value.symbol &&
                          forall j :: 0 <= j < k ==> symbols[j].symbol != symbol
  {
    if symbols == [] then None
    else if symbols[0].symbol == symbol then Some(symbols[0])
    else
      var r := FindSymbol(symbols[1..], symbol);
      assert r.Some? ==> exists k :: 0 <= k < |symbols| - 1 && symbols[1..][k] == r.value &&
                           forall j :: 0 <= j < k ==> symbols[1..][j].symbol != symbol;
      r
  }

  /** The exchange client: every request is appended to `log`; a request in `refused` fails. */
  class Client {
    var log: seq<Request>
    const symbols: seq<SymbolInfo>
    const refused: set<Request>

    constructor (symbols: seq<SymbolInfo>, refused: set<Request>)
      ensures this.symbols == symbols && this.refused == refused && log == []
    {
      this.symbols := symbols;
      this.refused := refused;
      log := [];
    }

    /** Sends a request that has no reply the core uses; tells whether it succeeded. */
    method Send(request: Request) returns (ok: bool)
      modifies this
      ensures log == old(log) + [request]
      ensures ok <==> request !in refused
    {
      log := log + [request];
      ok := request !in refused;
    }

    /**
     * Submits a new order. The reply carries the order's client id, which is its position in
     * the log, and the quantity the order was placed with.
     */
    method SubmitNewOrder(order: Order) returns (r: Option<OrderResponse>)
      modifies this
      ensures log == old(log) + [Request.SubmitNewOrder(order)]
      ensures r == if Request.SubmitNewOrder(order) in refused then None
                   else Some(OrderResponse(|old(log)|, order.quantity))
    {
      var id := |log|;
      var ok := Send(Request.SubmitNewOrder(order));
      r := if ok then Some(OrderResponse(id, order.quantity)) else None;
    }
  }
}
