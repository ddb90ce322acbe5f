/**
 * The trailing-stop engine and the registry of tracked pairs. The registry maps a pair (as the
 * signal wrote it) to a record holding the signal, the stop-loss order id and the index of the
 * last target reached (-1 before the first). A new signal is tracked unless its upper-cased pair
 * is already a key; closing a pair's price stream drops its record. Each mark-price tick moves
 * the index to the first target past it that the price has crossed, trails the stop loss to the
 * target before (the entry for the first target), and cancels all orders when the price crosses
 * the last target. The exchange calls a tick makes are returned, in order, as requests.
 */
module Websocket {
  import opened Wrappers
  import opened Text
  import opened Numeric
  import opened Types
  import opened Exchange
  import OrderManagement

  /** What the registry keeps per pair. */
  datatype Record = Record(tradeSignal: TradeSignal, stopLossOrderId: nat, currentTargetIndex: int)

  /** The stop loss is trailed to two decimals. */
  const StopDecimals: nat := 2

  /**
   * Whether the price has reached a target: at or above it for a LONG, at or below it for a
   * SHORT. Infinity is above every target; NaN reaches none.
   */
  predicate Crossed(long: bool, price: Num, target: real) {
    match price
    case Finite(v) => if long then v >= target else v <= target
    case PosInfinity => long
    case NaN => false
  }

  /** The first index from `from` on that lies past `current` and whose target the price has crossed. */
  function FirstCrossing(long: bool, targets: seq<real>, current: int, price: Num, from: nat): (r: Option<nat>)
    requires from <= |targets|
    decreases |targets| - from
    ensures r.Some? ==> from <= r.value < |targets| && current < r.value && Crossed(long, price, targets[r.value])
    ensures r.Some? ==> forall j :: from <= j < r.value && current < j ==> !Crossed(long, price, targets[j])
    ensures r.None? ==> forall j :: from <= j < |targets| && current < j ==> !Crossed(long, price, targets[j])
  {
    if from == |targets| then None
    else if current < from && Crossed(long, price, targets[from]) then Some(from)
    else FirstCrossing(long, targets, current, price, from + 1)
  }

  /** What one tick does: the new index of the last target reached, and the exchange calls, in order. */
  datatype Tick = Tick(index: int, actions: seq<Request>)

  /** The stop loss trailed to on reaching target i: the entry for the first, else the target before. */
  function NewStop(signal: TradeSignal, i: nat): Num
    requires i < |signal.targets|
  {
    if i == 0 then signal.entry else Finite(signal.targets[i - 1])
  }

  /** Whether the price has crossed the last target while an earlier one was the last reached. */
  predicate ReachesFinal(long: bool, targets: seq<real>, index: int, price: Num) {
    |targets| > 0 && index < |targets| - 1 && Crossed(long, price, targets[|targets| - 1])
  }

  /**
   * `handleTrailingStop` for a pair whose record holds `index`, with the signal and the order
   * reply its price stream was opened with, on a tick at `price`.
   */
  function TrailingStop(signal: TradeSignal, response: OrderResponse, index: int, price: Num): (t: Tick)
    ensures |t.actions| <= 2
    ensures forall k :: 0 <= k < |t.actions| ==> t.actions[k].CancelAllOpenOrders? || t.actions[k].ModifyOrder?
    ensures t.actions != [] ==> Known(signal)
  {
    var direction := Upper(signal.direction);
    if direction != "LONG" && direction != "SHORT" then Tick(index, [])
    else
      var long := direction == "LONG";
      var symbol := Upper(signal.pair);
      var cancel := if ReachesFinal(long, signal.targets, index, price) then [CancelAllOpenOrders(symbol)] else [];
      match FirstCrossing(long, signal.targets, index, price, 0)
      case None => Tick(index, cancel)
      case Some(i) =>
        var amend := ModifyOrder(symbol, EntrySide(signal.direction), response.clientOrderId,
                                  RoundTo(NewStop(signal, i), StopDecimals), response.origQty);
        Tick(i, cancel + [amend])
  }

  /** The registry after a new signal: skipped if its upper-cased pair is a key, else keyed by the pair as written. */
  function AfterNewSignal(pairs: map<string, Record>, signal: TradeSignal, response: OrderResponse): (after: map<string, Record>)
    ensures Upper(signal.pair) in pairs ==> after == pairs
    ensures Upper(signal.pair) !in pairs ==>
              after.Keys == pairs.Keys + {signal.pair} && after[signal.pair] == Record(signal, response.clientOrderId, -1)
    ensures forall p :: p in pairs && p != signal.pair ==> p in after && after[p] == pairs[p]
  {
    if Upper(signal.pair) in pairs then pairs
    else pairs[signal.pair := Record(signal, response.clientOrderId, -1)]
  }

  /** The registry of tracked pairs. */
  class Registry {
    var activePairs: map<string, Record>

    /**
     * No record's index is below -1. Nothing stronger holds: a stream opened for an earlier
     * signal of a pair not in upper case keeps updating the record that replaced it, and it
     * does so using its own signal's targets, so an index need not lie within the stored
     * signal's targets.
     */
    ghost predicate Valid()
      reads this
    {
      forall p :: p in activePairs ==> activePairs[p].currentTargetIndex >= -1
    }

    constructor ()
      ensures Valid() && activePairs == map[]
    {
      activePairs := map[];
    }

    /**
     * The `newTradeSignal` handler: returns whether a price stream is opened for the signal,
     * which happens exactly when its record is created.
     */
    method OnNewSignal(signal: TradeSignal, response: OrderResponse) returns (created: bool)
      requires Valid()
      modifies this
      ensures Valid()
      ensures created <==> Upper(signal.pair) !in old(activePairs)
      ensures activePairs == AfterNewSignal(old(activePairs), signal, response)
    {
      var pair := Upper(signal.pair);
      if pair in activePairs {
        return false;
      }
      activePairs := activePairs[signal.pair := Record(signal, response.clientOrderId, -1)];
      return true;
    }

    /** The stream of `signal`'s pair closed: its record goes. */
    method OnClose(signal: TradeSignal)
      requires Valid()
      modifies this
      ensures Valid()
      ensures activePairs == old(activePairs) - {signal.pair}
    {
      activePairs := activePairs - {signal.pair};
    }

    /**
     * A mark-price tick on the stream opened for `signal` and `response`: updates the pair's
     * record and returns the exchange calls it makes, in order. A pair without a record is left
     * alone.
     */
    method OnTick(signal: TradeSignal, response: OrderResponse, price: Num) returns (actions: seq<Request>)
      requires Valid()
      modifies this
      ensures Valid()
      ensures signal.pair !in old(activePairs) ==> activePairs == old(activePairs) && actions == []
      ensures signal.pair in old(activePairs) ==>
                var record := old(activePairs)[signal.pair];
                var tick := TrailingStop(signal, response, record.currentTargetIndex, price);
                actions == tick.actions &&
                activePairs == old(activePairs)[signal.pair := record.(currentTargetIndex := tick.index)]
    {
      var symbol := Upper(signal.pair);
      var side := EntrySide(signal.direction);
      if signal.pair !in activePairs {
        return [];
      }
      var targets := signal.targets;
      var currentTargetIndex := activePairs[signal.pair].currentTargetIndex;
      var newStopLoss: Option<Num> := None;
      actions := [];
      var direction := Upper(signal.direction);
      if direction == "LONG" || direction == "SHORT" {
        var long := direction == "LONG";
        var i := 0;
        while i < |targets|
          invariant 0 <= i <= |targets|
          invariant newStopLoss.None? && activePairs == old(activePairs)
          invariant FirstCrossing(long, targets, currentTargetIndex, price, i) ==
                    FirstCrossing(long, targets, currentTargetIndex, price, 0)
        {
          if Crossed(long, price, targets[i]) && i > currentTargetIndex {
            newStopLoss := Some(NewStop(signal, i));
            activePairs := activePairs[signal.pair := activePairs[signal.pair].(currentTargetIndex := i)];
            break;
          }
          i := i + 1;
        }
        if |targets| > 0 && currentTargetIndex < |targets| - 1 && Crossed(long, price, targets[|targets| - 1]) {
          actions := actions + [CancelAllOpenOrders(symbol)];
        }
      }
      if newStopLoss.Some? {
        actions := actions + [ModifyOrder(symbol, side, response.clientOrderId, RoundTo(newStopLoss.value, StopDecimals), response.origQty)];
      }
    }
  }

  // ---------------------------------------------------------------------------------------------
  // Properties of a tick

  /** Whether the direction is one the engine acts on, and whether it is LONG. */
  predicate Known(signal: TradeSignal) {
    Upper(signal.direction) == "LONG" || Upper(signal.direction) == "SHORT"
  }

  predicate IsLong(signal: TradeSignal) {
    Upper(signal.direction) == "LONG"
  }

  /**
   * A tick leaves the index alone or moves it forward to an index of a target, never further:
   * the index does not decrease and does not pass the last target.
   */
  lemma TickIndexBounds(signal: TradeSignal, response: OrderResponse, index: int, price: Num)
    ensures var t := TrailingStop(signal, response, index, price);
            t.index == index || index < t.index < |signal.targets|
  {
  }

  /**
   * The index moves exactly when the direction is known and some target past it has been
   * crossed, and it moves to the lowest such target.
   */
  lemma TickTakesLowestCrossing(signal: TradeSignal, response: OrderResponse, index: int, price: Num)
    ensures var t := TrailingStop(signal, response, index, price);
            (t.index != index <==>
               Known(signal) && exists i :: 0 <= i < |signal.targets| && index < i && Crossed(IsLong(signal), price, signal.targets[i])) &&
            (t.index != index ==>
               Crossed(IsLong(signal), price, signal.targets[t.index]) &&
               forall j :: 0 <= j < t.index && index < j ==> !Crossed(IsLong(signal), price, signal.targets[j]))
  {
    var t := TrailingStop(signal, response, index, price);
    if Known(signal) {
      var first := FirstCrossing(IsLong(signal), signal.targets, index, price, 0);
      if first.Some? {
        assert t.index == first.value;
      }
    }
  }

  /**
   * A tick amends the stop-loss order exactly when the index moves, once, as its last call: on
   * the upper-cased pair, on the entry side (BUY for a LONG), for the stop-loss order's client id
   * and quantity, at the entry (first target) or the target before, rounded to two decimals.
   */
  lemma AmendIffTransition(signal: TradeSignal, response: OrderResponse, index: int, price: Num)
    ensures var t := TrailingStop(signal, response, index, price);
            ((exists k :: 0 <= k < |t.actions| && t.actions[k].ModifyOrder?) <==> t.index != index) &&
            (forall j, k :: 0 <= j < k < |t.actions| ==> !(t.actions[j].ModifyOrder? && t.actions[k].ModifyOrder?)) &&
            (t.index != index ==>
               0 <= t.index < |signal.targets| &&
               t.actions[|t.actions| - 1] ==
                 ModifyOrder(Upper(signal.pair), if IsLong(signal) then Buy else Sell, response.clientOrderId,
                             RoundTo(if t.index == 0 then signal.entry else Finite(signal.targets[t.index - 1]), 2),
                             response.origQty))
  {
    var t := TrailingStop(signal, response, index, price);
    if Known(signal) {
      var first := FirstCrossing(IsLong(signal), signal.targets, index, price, 0);
      if first.Some? {
        assert t.actions[|t.actions| - 1].ModifyOrder?;
      }
    }
  }

  /**
   * A tick cancels all orders of the upper-cased pair exactly when the direction is known and
   * the price has crossed the last target while the index, read before the scan, was below it;
   * the cancel then comes first.
   */
  lemma CancelIffFinalCrossed(signal: TradeSignal, response: OrderResponse, index: int, price: Num)
    ensures var t := TrailingStop(signal, response, index, price);
            var n := |signal.targets|;
            ((exists k :: 0 <= k < |t.actions| && t.actions[k].CancelAllOpenOrders?) <==>
               Known(signal) && n > 0 && index < n - 1 && Crossed(IsLong(signal), price, signal.targets[n - 1])) &&
            (forall k :: 0 <= k < |t.actions| && t.actions[k].CancelAllOpenOrders? ==>
               k == 0 && t.actions[k] == CancelAllOpenOrders(Upper(signal.pair)))
  {
    var t := TrailingStop(signal, response, index, price);
    if Known(signal) && ReachesFinal(IsLong(signal), signal.targets, index, price) {
      assert t.actions[0].CancelAllOpenOrders?;
    }
  }

  /** With a direction other than LONG or SHORT (in any letter case), a tick changes nothing and calls nothing. */
  lemma UnknownDirectionIsInert(signal: TradeSignal, response: OrderResponse, index: int, price: Num)
    requires !Known(signal)
    ensures TrailingStop(signal, response, index, price) == Tick(index, [])
  {
  }

  /** Once the last target is reached, no tick does anything. */
  lemma LastTargetIsFinal(signal: TradeSignal, response: OrderResponse, price: Num)
    requires |signal.targets| > 0
    ensures var index := |signal.targets| - 1;
            TrailingStop(signal, response, index, price) == Tick(index, [])
  {
    var index := |signal.targets| - 1;
    if Known(signal) {
      var first := FirstCrossing(IsLong(signal), signal.targets, index, price, 0);
      assert first.None?;
    }
  }

  /**
   * A price beyond every target moves the index one target per tick, not to the last target
   * at once, and every such tick before the last also cancels all orders.
   */
  lemma {:induction false} OneTargetPerTick(signal: TradeSignal, response: OrderResponse, index: int, price: Num)
    requires Known(signal) && -1 <= index < |signal.targets| - 1
    requires forall j :: 0 <= j < |signal.targets| ==> Crossed(IsLong(signal), price, signal.targets[j])
    ensures var t := TrailingStop(signal, response, index, price);
            t.index == index + 1 && |t.actions| == 2 && t.actions[0] == CancelAllOpenOrders(Upper(signal.pair))
  {
    var first := FirstCrossing(IsLong(signal), signal.targets, index, price, 0);
    assert Crossed(IsLong(signal), price, signal.targets[index + 1]);
    assert first.Some?;
    assert Crossed(IsLong(signal), price, signal.targets[|signal.targets| - 1]);
  }

  /** The index after a run of ticks at the given prices, starting from `index`. */
  function AfterTicks(signal: TradeSignal, response: OrderResponse, index: int, prices: seq<Num>): int
    decreases |prices|
  {
    if prices == [] then index
    else TrailingStop(signal, response, AfterTicks(signal, response, index, prices[..|prices| - 1]), prices[|prices| - 1]).index
  }

  /**
   * Over any run of ticks the index never decreases, and it never passes the last target unless
   * it started there.
   */
  lemma {:induction false} TicksMonotone(signal: TradeSignal, response: OrderResponse, index: int, prices: seq<Num>)
    decreases |prices|
    ensures var after := AfterTicks(signal, response, index, prices);
            index <= after && (after == index || after < |signal.targets|)
  {
    if prices != [] {
      var before := AfterTicks(signal, response, index, prices[..|prices| - 1]);
      TicksMonotone(signal, response, index, prices[..|prices| - 1]);
      TickIndexBounds(signal, response, before, prices[|prices| - 1]);
    }
  }

  /** The protective stop-loss leg is on the side opposite to the one the trailing amendment uses. */
  lemma AmendSideOpposesStopLeg(signal: TradeSignal, response: OrderResponse, index: int, price: Num, info: SymbolInfo)
    requires |signal.targets| > 0
    ensures var t := TrailingStop(signal, response, index, price);
            t.index != index ==>
              t.actions[|t.actions| - 1].ModifyOrder? &&
              t.actions[|t.actions| - 1].side == OrderManagement.Legs(signal, info)[0].side &&
              t.actions[|t.actions| - 1].side != OrderManagement.Legs(signal, info)[2].side
  {
    AmendIffTransition(signal, response, index, price);
  }

  // ---------------------------------------------------------------------------------------------
  // Scenarios

  const Long := TradeSignal("BTCUSDT", "LONG", "ISOLATED", 10, Finite(100.0), Finite(90.0), [110.0, 120.0, 130.0])
  const Short := TradeSignal("ETHUSDT", "short", "CROSS", 5, Finite(50.0), Finite(55.0), [45.0, 40.0, 35.0])
  const Reply := OrderResponse(4, Finite(0.7))

  lemma ScenarioNames()
    ensures Upper("LONG") == "LONG" && Upper("short") == "SHORT"
    ensures Upper("BTCUSDT") == "BTCUSDT" && Upper("ETHUSDT") == "ETHUSDT"
  {
    assert Upper("LONG") == "LONG";
    assert Upper("short") == "SHORT";
    assert Upper("BTCUSDT") == "BTCUSDT";
    assert Upper("ETHUSDT") == "ETHUSDT";
  }

  /** A LONG at 100 with targets 110, 120, 130: reaching 110 trails the stop to the entry. */
  lemma LongScenarioFirst()
    ensures TrailingStop(Long, Reply, -1, Finite(110.0)) ==
            Tick(0, [ModifyOrder("BTCUSDT", Buy, 4, Finite(100.0), Finite(0.7))])
  {
    ScenarioNames();
    RoundWhole(100, 2);
  }

  /** Continuing: reaching 120 trails the stop to the first target, 110. */
  lemma LongScenarioSecond()
    ensures TrailingStop(Long, Reply, 0, Finite(120.0)) ==
            Tick(1, [ModifyOrder("BTCUSDT", Buy, 4, Finite(110.0), Finite(0.7))])
  {
    ScenarioNames();
    RoundWhole(110, 2);
  }

  /** Continuing: reaching 130 trails the stop to 120 and cancels all orders of the pair. */
  lemma LongScenarioThird()
    ensures TrailingStop(Long, Reply, 1, Finite(130.0)) ==
            Tick(2, [CancelAllOpenOrders("BTCUSDT"), ModifyOrder("BTCUSDT", Buy, 4, Finite(120.0), Finite(0.7))])
  {
    ScenarioNames();
    RoundWhole(120, 2);
  }

  /** A SHORT at 50 with targets 45, 40, 35 trails its stop to the entry when the price falls to 44. */
  lemma ShortScenario()
    ensures TrailingStop(Short, Reply, -1, Finite(44.0)) ==
            Tick(0, [ModifyOrder("ETHUSDT", Sell, 4, Finite(50.0), Finite(0.7))])
  {
    ScenarioNames();
    RoundWhole(50, 2);
  }

  // ---------------------------------------------------------------------------------------------
  // Properties of the registry

  /**
   * A pair written in upper case is tracked once: a second signal for the same pair (in any
   * letter case) leaves the registry as the first left it.
   */
  lemma UpperCasePairTrackedOnce(pairs: map<string, Record>, first: TradeSignal, r1: OrderResponse, second: TradeSignal, r2: OrderResponse)
    requires Upper(first.pair) == first.pair && Upper(second.pair) == first.pair
    ensures AfterNewSignal(AfterNewSignal(pairs, first, r1), second, r2) == AfterNewSignal(pairs, first, r1)
  {
  }

  /**
   * A pair not written in upper case is never found by the duplicate check, which looks for the
   * upper-cased pair: a second signal for it replaces the first one's record, with the index
   * back at -1.
   */
  lemma LowerCasePairReplaced(pairs: map<string, Record>, first: TradeSignal, r1: OrderResponse, second: TradeSignal, r2: OrderResponse)
    requires first.pair == second.pair && Upper(first.pair) != first.pair && Upper(first.pair) !in pairs
    ensures var after := AfterNewSignal(AfterNewSignal(pairs, first, r1), second, r2);
            first.pair in after && after[first.pair] == Record(second, r2.clientOrderId, -1)
  {
  }
}
