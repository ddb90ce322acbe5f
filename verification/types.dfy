/** The records the modules pass to each other: a parsed trade signal and the exchange's reply to an order. */
module Types {
  import opened Numeric

  /**
   * A trade signal as the parser returns it. `direction` is the word the signal gives ("LONG",
   * "short", ...), compared case-insensitively downstream. `entry` and `stopLoss` are what
   * `parseFloat` gave (possibly NaN); the targets are never NaN.
   */
  datatype TradeSignal = TradeSignal(
    pair: string,
    direction: string,
    marginType: string,
    leverage: nat,
    entry: Num,
    stopLoss: Num,
    targets: seq<real>)

  /** The part of an order reply the core reads: the order's client id and its quantity. */
  datatype OrderResponse = OrderResponse(clientOrderId: nat, origQty: Num)
}
