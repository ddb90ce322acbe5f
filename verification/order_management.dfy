/**
 * The bracket-order builder: from a trade signal it sets the leverage, looks the instrument up
 * in the exchange information, and submits a LIMIT entry, a TAKE_PROFIT_MARKET at the last
 * target and a STOP_MARKET at the stop loss, in that order, returning the stop-loss reply.
 * Any failure on the way is handed back to the caller, and nothing after it is sent.
 */
module OrderManagement {
  import opened Wrappers
  import opened Text
  import opened Numeric
  import opened Types
  import opened Exchange

  /** The position's value in USD, before leverage. */
  const Balance: real := 7.0

  /** `toFixed` takes 0 to 100 digits and throws a RangeError for more. */
  const MaxFractionDigits: nat := 100

  /** Why `placeOrder` threw. */
  datatype Failure =
    | Rejected(request: Request)
    | SymbolNotFound(symbol: string)
    | PrecisionOutOfRange(digits: nat)
    | NoTargets

  /** `BALANCE / x`: dividing by zero gives Infinity; by Infinity, zero. */
  function BalanceOver(x: Num): Num {
    match x
    case Finite(v) => if v == 0.0 then PosInfinity else Finite(Balance / v)
    case PosInfinity => Finite(0.0)
    case NaN => NaN
  }

  /** `x * k` for a leverage k: Infinity times zero is NaN. */
  function Times(x: Num, k: nat): Num {
    match x
    case Finite(v) => Finite(v * k as real)
    case PosInfinity => if k == 0 then NaN else PosInfinity
    case NaN => NaN
  }

  /** The limit price of the entry leg: the entry rounded to the instrument's price precision. */
  function EntryPrice(signal: TradeSignal, info: SymbolInfo): Num {
    RoundTo(signal.entry, info.pricePrecision)
  }

  /**
   * The quantity of every leg: `BALANCE / entryPrice * leverage`, rounded to d places. A positive
   * entry price gives a finite quantity of at least zero; an entry price of zero gives Infinity
   * (NaN at leverage 0), and a NaN entry price gives NaN.
   */
  function Quantity(entryPrice: Num, leverage: nat, d: nat): (r: Num)
    ensures entryPrice.Finite? && entryPrice.value > 0.0 ==> r.Finite? && r.value >= 0.0
    ensures r.PosInfinity? <==> entryPrice == Finite(0.0) && leverage > 0
    ensures r.NaN? <==> entryPrice.NaN? || (entryPrice == Finite(0.0) && leverage == 0)
  {
    RoundTo(Times(BalanceOver(entryPrice), leverage), d)
  }

  /**
   * The three legs, in the order they are submitted: all on the upper-cased pair and for the
   * same quantity, the two protective legs on the side opposite to the entry.
   */
  function Legs(signal: TradeSignal, info: SymbolInfo): (legs: seq<Order>)
    requires |signal.targets| > 0
    ensures |legs| == 3
    ensures forall k :: 0 <= k < 3 ==> legs[k].symbol == Upper(signal.pair) && legs[k].quantity == legs[0].quantity
    ensures legs[1].side == legs[2].side != legs[0].side
  {
    var symbol := Upper(signal.pair);
    var side := EntrySide(signal.direction);
    var quantity := Quantity(EntryPrice(signal, info), signal.leverage, info.quantityPrecision);
    var target := Finite(signal.targets[|signal.targets| - 1]);
    [ Order(symbol, side, Limit, quantity, EntryPrice(signal, info)),
      Order(symbol, Opposite(side), TakeProfitMarket, quantity, RoundTo(target, info.pricePrecision)),
      Order(symbol, Opposite(side), StopMarket, quantity, RoundTo(signal.stopLoss, info.pricePrecision)) ]
  }

  /** What `placeOrder` sends, in order, and what it returns or throws. */
  datatype Outcome = Outcome(calls: seq<Request>, result: Result<OrderResponse, Failure>)

  /**
   * The legs from the n-th on, submitted one by one until the exchange refuses one; ids start at
   * `id`. At least one and at most all of them are sent, and all of them when the last is accepted.
   */
  function SubmitFrom(legs: seq<Order>, n: nat, refused: set<Request>, id: nat): (o: Outcome)
    requires n < |legs|
    decreases |legs| - n
    ensures 1 <= |o.calls| <= |legs| - n
    ensures o.result.Ok? ==> |o.calls| == |legs| - n
  {
    var request := Request.SubmitNewOrder(legs[n]);
    if request in refused then Outcome([request], Err(Rejected(request)))
    else if n == |legs| - 1 then Outcome([request], Ok(OrderResponse(id, legs[n].quantity)))
    else
      var rest := SubmitFrom(legs, n + 1, refused, id + 1);
      Outcome([request] + rest.calls, rest.result)
  }

  /**
   * `placeOrder` against an exchange listing `symbols` and refusing the requests in `refused`,
   * with `base` requests already in the client's log.
   */
  function Plan(signal: TradeSignal, symbols: seq<SymbolInfo>, refused: set<Request>, base: nat): (o: Outcome)
    ensures 1 <= |o.calls| <= 5 && o.calls[0] == SetLeverage(Upper(signal.pair), signal.leverage)
    ensures o.result.Ok? ==> |o.calls| == 5
  {
    var symbol := Upper(signal.pair);
    var setLeverage := SetLeverage(symbol, signal.leverage);
    var prefix := [setLeverage, GetExchangeInfo];
    if setLeverage in refused then Outcome([setLeverage], Err(Rejected(setLeverage)))
    else if GetExchangeInfo in refused then Outcome(prefix, Err(Rejected(GetExchangeInfo)))
    else match FindSymbol(symbols, symbol)
      case None => Outcome(prefix, Err(SymbolNotFound(symbol)))
      case Some(info) =>
        if info.pricePrecision > MaxFractionDigits then Outcome(prefix, Err(PrecisionOutOfRange(info.pricePrecision)))
        else if info.quantityPrecision > MaxFractionDigits then Outcome(prefix, Err(PrecisionOutOfRange(info.quantityPrecision)))
        else if signal.targets == [] then Outcome(prefix, Err(NoTargets))
        else
          var submitted := SubmitFrom(Legs(signal, info), 0, refused, base + 2);
          Outcome(prefix + submitted.calls, submitted.result)
  }

  /**
   * Places the bracket order for `signal` through `client`: the requests it sends are appended to
   * the client's log, and the result is the stop-loss reply or the failure that stopped it.
   */
  method PlaceOrder(signal: TradeSignal, client: Client) returns (r: Result<OrderResponse, Failure>)
    modifies client
    ensures var plan := Plan(signal, client.symbols, client.refused, |old(client.log)|);
            client.log == old(client.log) + plan.calls && r == plan.result
  {
    var symbol := Upper(signal.pair);
    var side := EntrySide(signal.direction);
    var ok := client.Send(SetLeverage(symbol, signal.leverage));
    if !ok {
      return Err(Rejected(SetLeverage(symbol, signal.leverage)));
    }
    ok := client.Send(GetExchangeInfo);
    if !ok {
      return Err(Rejected(GetExchangeInfo));
    }
    var symbolInfo := FindSymbol(client.symbols, symbol);
    if symbolInfo.None? {
      return Err(SymbolNotFound(symbol));
    }
    var info := symbolInfo.value;
    if info.pricePrecision > MaxFractionDigits {
      return Err(PrecisionOutOfRange(info.pricePrecision));
    }
    var entryPrice := RoundTo(signal.entry, info.pricePrecision);
    if info.quantityPrecision > MaxFractionDigits {
      return Err(PrecisionOutOfRange(info.quantityPrecision));
    }
    var quantity := RoundTo(Times(BalanceOver(entryPrice), signal.leverage), info.quantityPrecision);
    if |signal.targets| == 0 {
      return Err(NoTargets);
    }
    var targetPrice := RoundTo(Finite(signal.targets[|signal.targets| - 1]), info.pricePrecision);
    var stopPrice := RoundTo(signal.stopLoss, info.pricePrecision);
    ghost var base := |old(client.log)|;
    ghost var prefix := [SetLeverage(symbol, signal.leverage), GetExchangeInfo];
    ghost var legs := Legs(signal, info);
    assert client.log == old(client.log) + prefix;
    assert Plan(signal, client.symbols, client.refused, base) ==
           var o := SubmitFrom(legs, 0, client.refused, base + 2); Outcome(prefix + o.calls, o.result);

    var entryOrder := Order(symbol, side, Limit, quantity, entryPrice);
    assert entryOrder == legs[0];
    var orderResponse := client.SubmitNewOrder(entryOrder);
    if orderResponse.None? {
      return Err(Rejected(Request.SubmitNewOrder(entryOrder)));
    }
    var takeProfitOrder := Order(symbol, Opposite(side), TakeProfitMarket, quantity, targetPrice);
    assert takeProfitOrder == legs[1];
    var takeProfitResponse := client.SubmitNewOrder(takeProfitOrder);
    assert SubmitFrom(legs, 1, client.refused, base + 3).calls[0] == Request.SubmitNewOrder(takeProfitOrder);
    if takeProfitResponse.None? {
      return Err(Rejected(Request.SubmitNewOrder(takeProfitOrder)));
    }
    var stopLossOrder := Order(symbol, Opposite(side), StopMarket, quantity, stopPrice);
    assert stopLossOrder == legs[2];
    var stopLossResponse := client.SubmitNewOrder(stopLossOrder);
    assert SubmitFrom(legs, 2, client.refused, base + 4).calls == [Request.SubmitNewOrder(stopLossOrder)];
    if stopLossResponse.None? {
      return Err(Rejected(Request.SubmitNewOrder(stopLossOrder)));
    }
    return Ok(stopLossResponse.value);
  }

  // ---------------------------------------------------------------------------------------------
  // Properties of placeOrder

  /** Every step before the first submission succeeds: both calls are accepted and nothing throws. */
  predicate ReachesOrders(signal: TradeSignal, symbols: seq<SymbolInfo>, refused: set<Request>) {
    var symbol := Upper(signal.pair);
    var found := FindSymbol(symbols, symbol);
    SetLeverage(symbol, signal.leverage) !in refused && GetExchangeInfo !in refused &&
    found.Some? && found.value.pricePrecision <= MaxFractionDigits &&
    found.value.quantityPrecision <= MaxFractionDigits && |signal.targets| > 0
  }

  /**
   * A pair the exchange information does not list makes `placeOrder` throw after setting the
   * leverage and fetching the information, and before any order is submitted.
   */
  lemma UnknownSymbolSubmitsNothing(signal: TradeSignal, symbols: seq<SymbolInfo>, refused: set<Request>, base: nat)
    requires SetLeverage(Upper(signal.pair), signal.leverage) !in refused && GetExchangeInfo !in refused
    requires forall k :: 0 <= k < |symbols| ==> symbols[k].symbol != Upper(signal.pair)
    ensures Plan(signal, symbols, refused, base) ==
            Outcome([SetLeverage(Upper(signal.pair), signal.leverage), GetExchangeInfo], Err(SymbolNotFound(Upper(signal.pair))))
  {
  }

  /** SubmitFrom sends the legs from the n-th on in order, each accepted but the last it sends. */
  lemma {:induction false} SubmitFromInOrder(legs: seq<Order>, n: nat, refused: set<Request>, id: nat)
    requires n < |legs|
    decreases |legs| - n
    ensures var o := SubmitFrom(legs, n, refused, id);
            var m := |o.calls|;
            1 <= m <= |legs| - n &&
            (forall k :: 0 <= k < m ==> o.calls[k] == Request.SubmitNewOrder(legs[n + k])) &&
            (forall k :: 0 <= k < m - 1 ==> o.calls[k] !in refused) &&
            (o.result.Ok? <==> m == |legs| - n && o.calls[m - 1] !in refused) &&
            (o.result.Ok? ==> o.result.value == OrderResponse(id + m - 1, legs[|legs| - 1].quantity)) &&
            (o.result.Err? ==> o.result.error == Rejected(o.calls[m - 1]) && o.calls[m - 1] in refused)
  {
    var request := Request.SubmitNewOrder(legs[n]);
    if request !in refused && n < |legs| - 1 {
      SubmitFromInOrder(legs, n + 1, refused, id + 1);
      var rest := SubmitFrom(legs, n + 1, refused, id + 1);
      var o := SubmitFrom(legs, n, refused, id);
      assert o.calls == [request] + rest.calls;
      forall k | 1 <= k < |o.calls|
        ensures o.calls[k] == Request.SubmitNewOrder(legs[n + k])
      {
        assert o.calls[k] == rest.calls[k - 1];
      }
    }
  }

  /**
   * Orders are submitted only when every earlier step succeeded, and then they are the legs in
   * order (LIMIT entry, TAKE_PROFIT_MARKET, STOP_MARKET), up to and including the first one the
   * exchange refuses.
   */
  lemma {:induction false} OrdersFollowLegs(signal: TradeSignal, symbols: seq<SymbolInfo>, refused: set<Request>, base: nat)
    ensures var calls := Plan(signal, symbols, refused, base).calls;
            (ReachesOrders(signal, symbols, refused) <==> exists k :: 0 <= k < |calls| && calls[k].SubmitNewOrder?) &&
            (ReachesOrders(signal, symbols, refused) ==>
               var legs := Legs(signal, FindSymbol(symbols, Upper(signal.pair)).value);
               3 <= |calls| <= 5 && calls[..2] == [SetLeverage(Upper(signal.pair), signal.leverage), GetExchangeInfo] &&
               forall k :: 2 <= k < |calls| ==> calls[k] == Request.SubmitNewOrder(legs[k - 2]))
  {
    var plan := Plan(signal, symbols, refused, base);
    if ReachesOrders(signal, symbols, refused) {
      var legs := Legs(signal, FindSymbol(symbols, Upper(signal.pair)).value);
      SubmitFromInOrder(legs, 0, refused, base + 2);
      var o := SubmitFrom(legs, 0, refused, base + 2);
      assert plan.calls == [SetLeverage(Upper(signal.pair), signal.leverage), GetExchangeInfo] + o.calls;
      assert plan.calls[2] == o.calls[0];
    } else {
      assert |plan.calls| <= 2 && forall k :: 0 <= k < |plan.calls| ==> !plan.calls[k].SubmitNewOrder?;
    }
  }

  /**
   * `placeOrder` returns normally exactly when every request it sends is accepted and it reaches
   * the orders; it then returns the stop-loss order's reply, the fifth request it sent.
   */
  lemma {:induction false} SuccessReturnsStopLoss(signal: TradeSignal, symbols: seq<SymbolInfo>, refused: set<Request>, base: nat)
    ensures var plan := Plan(signal, symbols, refused, base);
            (plan.result.Ok? <==>
               ReachesOrders(signal, symbols, refused) && forall k :: 0 <= k < |plan.calls| ==> plan.calls[k] !in refused) &&
            (plan.result.Ok? ==>
               var info := FindSymbol(symbols, Upper(signal.pair)).value;
               |plan.calls| == 5 && plan.calls[4] == Request.SubmitNewOrder(Legs(signal, info)[2]) &&
               Legs(signal, info)[2].orderType == StopMarket &&
               plan.result.value == OrderResponse(base + 4, Legs(signal, info)[2].quantity))
  {
    var plan := Plan(signal, symbols, refused, base);
    if ReachesOrders(signal, symbols, refused) {
      var legs := Legs(signal, FindSymbol(symbols, Upper(signal.pair)).value);
      SubmitFromInOrder(legs, 0, refused, base + 2);
      var o := SubmitFrom(legs, 0, refused, base + 2);
      assert plan.calls == [SetLeverage(Upper(signal.pair), signal.leverage), GetExchangeInfo] + o.calls;
      if o.result.Ok? {
        assert forall k :: 0 <= k < |plan.calls| ==> plan.calls[k] !in refused by {
          forall k | 2 <= k < |plan.calls| ensures plan.calls[k] !in refused {
            assert plan.calls[k] == o.calls[k - 2];
          }
        }
      } else {
        assert plan.calls[|plan.calls| - 1] == o.calls[|o.calls| - 1];
      }
    }
  }

  /**
   * Every failure reaches the caller: a refused request ends `placeOrder` with that request as
   * the error, and it is the last request sent; every other failure happens before any order.
   */
  lemma {:induction false} FailureIsRethrown(signal: TradeSignal, symbols: seq<SymbolInfo>, refused: set<Request>, base: nat)
    ensures var plan := Plan(signal, symbols, refused, base);
            (forall k :: 0 <= k < |plan.calls| - 1 ==> plan.calls[k] !in refused) &&
            (plan.result.Err? && plan.result.error.Rejected? ==>
               plan.result.error.request == plan.calls[|plan.calls| - 1] && plan.result.error.request in refused) &&
            (plan.result.Err? && !plan.result.error.Rejected? ==>
               plan.calls == [SetLeverage(Upper(signal.pair), signal.leverage), GetExchangeInfo])
  {
    var plan := Plan(signal, symbols, refused, base);
    if ReachesOrders(signal, symbols, refused) {
      var legs := Legs(signal, FindSymbol(symbols, Upper(signal.pair)).value);
      SubmitFromInOrder(legs, 0, refused, base + 2);
      var o := SubmitFrom(legs, 0, refused, base + 2);
      assert plan.calls == [SetLeverage(Upper(signal.pair), signal.leverage), GetExchangeInfo] + o.calls;
      forall k | 2 <= k < |plan.calls| - 1 ensures plan.calls[k] !in refused {
        assert plan.calls[k] == o.calls[k - 2];
      }
      assert plan.calls[|plan.calls| - 1] == o.calls[|o.calls| - 1];
    }
  }

  /**
   * The entry leg buys exactly for a LONG signal (in any letter case), and both protective legs
   * take the other side.
   */
  lemma LegSides(signal: TradeSignal, info: SymbolInfo)
    requires |signal.targets| > 0
    ensures var legs := Legs(signal, info);
            (legs[0].side == Buy <==> Upper(signal.direction) == "LONG") &&
            legs[1].side != legs[0].side && legs[2].side != legs[0].side
  {
  }

  /**
   * The legs are, in order, a LIMIT, a TAKE_PROFIT_MARKET and a STOP_MARKET on the upper-cased
   * pair, all for the same quantity; the limit price is the entry and the two triggers are the
   * last target and the stop loss, each rounded to the instrument's price precision, so each
   * lies within half a price tick of the signal's value.
   */
  lemma {:induction false} LegPrices(signal: TradeSignal, info: SymbolInfo)
    requires |signal.targets| > 0
    ensures var legs := Legs(signal, info);
            var target := signal.targets[|signal.targets| - 1];
            var tick := 1.0 / (2.0 * Unit(info.pricePrecision));
            [legs[0].orderType, legs[1].orderType, legs[2].orderType] == [Limit, TakeProfitMarket, StopMarket] &&
            (forall k :: 0 <= k < 3 ==> legs[k].symbol == Upper(signal.pair) && legs[k].quantity == Quantity(EntryPrice(signal, info), signal.leverage, info.quantityPrecision)) &&
            (signal.entry.Finite? && -FixedLimit < signal.entry.value < FixedLimit ==>
               legs[0].price.Finite? && signal.entry.value - tick <= legs[0].price.value <= signal.entry.value + tick) &&
            (-FixedLimit < target < FixedLimit ==>
               legs[1].price.Finite? && target - tick <= legs[1].price.value <= target + tick) &&
            (signal.stopLoss.Finite? && -FixedLimit < signal.stopLoss.value < FixedLimit ==>
               legs[2].price.Finite? && signal.stopLoss.value - tick <= legs[2].price.value <= signal.stopLoss.value + tick)
  {
    var legs := Legs(signal, info);
    if signal.entry.Finite? && -FixedLimit < signal.entry.value < FixedLimit {
      RoundToError(signal.entry.value, info.pricePrecision);
    }
    var target := signal.targets[|signal.targets| - 1];
    if -FixedLimit < target < FixedLimit {
      RoundToError(target, info.pricePrecision);
    }
    if signal.stopLoss.Finite? && -FixedLimit < signal.stopLoss.value < FixedLimit {
      RoundToError(signal.stopLoss.value, info.pricePrecision);
    }
  }

  /**
   * The position is worth BALANCE times the leverage at the entry price, up to the rounding of
   * the quantity: within half a quantity step times the price.
   */
  lemma {:induction false} QuantityNotional(price: real, leverage: nat, d: nat)
    requires price > 0.0 && Balance * leverage as real < FixedLimit * price
    ensures var q := Quantity(Finite(price), leverage, d);
            var slack := price / (2.0 * Unit(d));
            q.Finite? && Balance * leverage as real - slack <= q.value * price <= Balance * leverage as real + slack
  {
    var exact := Balance / price * leverage as real;
    assert Times(BalanceOver(Finite(price)), leverage) == Finite(exact);
    Quotient(Balance, price, leverage as real, FixedLimit);
    RoundedNotional(exact, d, price, Balance * leverage as real, Quantity(Finite(price), leverage, d));
  }

  /** x rounded to d places, at price p, is worth x * p up to half a step times p. */
  lemma RoundedNotional(x: real, d: nat, p: real, t: real, q: Num)
    requires 0.0 <= x < FixedLimit && p > 0.0 && x * p == t && q == RoundTo(Finite(x), d)
    ensures q.Finite? && t - p / (2.0 * Unit(d)) <= q.value * p <= t + p / (2.0 * Unit(d))
  {
    RoundToError(x, d);
    Notional(x, q.value, Unit(d), p, t);
  }

  /** An amount within half a step of x, at price p, is worth x * p up to half a step times p. */
  lemma Notional(x: real, q: real, u: real, p: real, t: real)
    requires u >= 1.0 && p > 0.0 && x * p == t
    requires x - 1.0 / (2.0 * u) <= q <= x + 1.0 / (2.0 * u)
    ensures t - p / (2.0 * u) <= q * p <= t + p / (2.0 * u)
  {
    var h := 1.0 / (2.0 * u);
    MulBounds(x, h, q, p);
    assert h * p == p / (2.0 * u);
  }

  /** x = b / p * l is the amount worth b * l at price p, and it stays below F when b * l < F * p. */
  lemma Quotient(b: real, p: real, l: real, f: real)
    requires b >= 0.0 && p > 0.0 && l >= 0.0
    ensures var x := b / p * l; x >= 0.0 && x * p == b * l && (b * l < f * p ==> x < f)
  {
    var y := b / p;
    assert y * p == b;
    assert (y * l) * p == (y * p) * l;
    if b * l < f * p && y * l >= f {
      assert (y * l) * p >= f * p;
    }
  }

  lemma MulBounds(x: real, h: real, q: real, p: real)
    requires x - h <= q <= x + h && p > 0.0
    ensures x * p - h * p <= q * p <= x * p + h * p
  {
  }
}
