/**
 * The backtest daemon: orders received from the strategies wait in a bounded FIFO queue, the
 * processing side takes them one at a time and runs them through the execution engine, and
 * the shutdown report summarises the trade table. The two threads are modelled as steps a
 * scheduler interleaves.
 */
module BacktesterCore {
  import opened Wrappers
  import opened OrderMessage
  import opened Execution
  import Metrics

  /** `Queue(maxsize=MAX_QUEUE_SIZE)`. */
  const MaxQueueSize: nat := 1000

  /** The line the receive loop logs for a parsed order. */
  datatype ReceiveLog = OrderQueued(queueSize: nat) | QueueFullDroppingOrder

  /** What the shutdown block prints: the metrics, or None for "No trades completed", and the
      number of positions still open. */
  datatype ShutdownReport = ShutdownReport(metrics: Option<Metrics.MetricsSnapshot>, openPositions: nat)

  /**
   * The receive loop's log line as written: the confirmation subscripts `order_type` and
   * `symbol` after the put, inside the same `try`, so when the order has no such keys the
   * `except` branch reports a full queue although the order was queued.
   */
  function ReceiveLogAsWritten(queued: bool, order: Json, queueSize: nat): ReceiveLog {
    if queued && order.JObject? && "order_type" in order.fields && "symbol" in order.fields
    then OrderQueued(queueSize)
    else QueueFullDroppingOrder
  }

  /** An order without an `order_type` or `symbol` key is accepted into the queue and still
      reported as dropped. */
  lemma QueuedOrderReportedDropped(order: Json, queueSize: nat)
    requires !order.JObject? || "order_type" !in order.fields || "symbol" !in order.fields
    ensures ReceiveLogAsWritten(true, order, queueSize) == QueueFullDroppingOrder
  {
  }

  /** The daemon's state: the module globals of the source. */
  class Backtester {
    var orderQueue: seq<Json>
    var currentPositions: map<Key, Position>
    var trades: seq<TradeRecord>
    var totalTradesCount: int
    /** Every order ever put into the queue, and every order taken out, in order. */
    ghost var accepted: seq<Json>
    ghost var dequeued: seq<Json>

    function State(): Ledger
      reads this
    {
      Ledger(currentPositions, trades, totalTradesCount)
    }

    /** The queue holds at most 1000 orders and is first in, first out: what was taken out
        followed by what is waiting is exactly what was put in. The engine's state is valid. */
    ghost predicate Valid()
      reads this
    {
      && |orderQueue| <= MaxQueueSize
      && dequeued + orderQueue == accepted
      && Execution.Valid(State())
    }

    constructor()
      ensures Valid()
      ensures orderQueue == [] && State() == EmptyLedger()
      ensures accepted == [] && dequeued == []
    {
      orderQueue := [];
      currentPositions := map[];
      trades := [];
      totalTradesCount := 0;
      accepted := [];
      dequeued := [];
    }

    /** `simulate_execution(order_data)` at time `now`: the engine's step on the globals. */
    method SimulateExecution(order: Json, now: real) returns (outcome: Outcome)
      requires Valid()
      modifies this
      ensures Valid()
      ensures (State(), outcome) == Execute(old(State()), order, now)
      ensures orderQueue == old(orderQueue) && accepted == old(accepted) && dequeued == old(dequeued)
    {
      ExecutePreservesValid(State(), order, now);
      if !order.JObject? {
        return Failed(NotAnObject);
      }
      var f := order.fields;
      if "order_type" !in f {
        return Failed(MissingKey("order_type"));
      }
      if "symbol" !in f {
        return Failed(MissingKey("symbol"));
      }
      if "price" !in f {
        return Failed(MissingKey("price"));
      }
      var orderType, symbol := f["order_type"], f["symbol"];
      var strategyName := StrategyName(f);
      var price: real;
      match AsNumber(f["price"]) {
        case None => return Failed(PriceNotANumber);
        case Some(p) => price := p;
      }
      if price == 0.0 {
        return Failed(ZeroDivision);
      }
      var amount := TestTradeSizeUsd / price;
      if orderType == JStr("BUY") {
        match HashKey(symbol) {
          case None => outcome := Failed(UnhashableSymbol);
          case Some(k) =>
            var pos := Position(price, amount, strategyName, now);
            currentPositions := currentPositions[k := pos];
            outcome := Opened(k, pos);
        }
      } else if orderType == JStr("SELL") {
        match HashKey(symbol) {
          case None => outcome := Failed(UnhashableSymbol);
          case Some(k) =>
            if k !in currentPositions {
              outcome := NoPositionToClose(k);
            } else {
              var pos := currentPositions[k];
              if pos.entryPrice == 0.0 {
                return Failed(ZeroDivision);
              }
              var pnlPct := PnlPct(pos.entryPrice, price);
              var pnlUsd := PnlUsd(pos.entryPrice, price, pos.amount);
              var rec := TradeRecord(now, strategyName, symbol, "CLOSE_LONG", pos.entryPrice, pos.amount,
                                     price, now, pnlPct, pnlUsd);
              trades := trades + [rec];
              totalTradesCount := totalTradesCount + 1;
              currentPositions := currentPositions - {k};
              outcome := Closed(rec);
            }
        }
      } else {
        outcome := IgnoredOrderType;
      }
    }

    /** `order_queue.put(order, timeout=1)` with no consumer running meanwhile: a full queue
        refuses the order and is left as it was. */
    method Put(order: Json) returns (queued: bool)
      requires Valid()
      modifies this
      ensures Valid()
      ensures queued <==> |old(orderQueue)| < MaxQueueSize
      ensures queued ==> orderQueue == old(orderQueue) + [order] && accepted == old(accepted) + [order]
      ensures !queued ==> orderQueue == old(orderQueue) && accepted == old(accepted)
      ensures dequeued == old(dequeued) && State() == old(State())
    {
      if |orderQueue| < MaxQueueSize {
        orderQueue := orderQueue + [order];
        accepted := accepted + [order];
        queued := true;
      } else {
        queued := false;
      }
    }

    /** `order_queue.get(timeout=1)` with no producer running meanwhile: the oldest waiting
        order, or None when the queue is empty. */
    method Get() returns (order: Option<Json>)
      requires Valid()
      modifies this
      ensures Valid()
      ensures order.None? <==> old(orderQueue) == []
      ensures order.None? ==> orderQueue == old(orderQueue) && dequeued == old(dequeued)
      ensures order.Some? ==>
                && order.value == old(orderQueue)[0]
                && orderQueue == old(orderQueue)[1..]
                && dequeued == old(dequeued) + [order.value]
      ensures accepted == old(accepted) && State() == old(State())
    {
      if orderQueue == [] {
        order := None;
      } else {
        order := Some(orderQueue[0]);
        dequeued := dequeued + [orderQueue[0]];
        orderQueue := orderQueue[1..];
      }
    }

    /**
     * One pass of the receive loop. `msg` is the parsed order, or None when nothing arrived
     * within the receive timeout or the text was not JSON; both leave everything as it was.
     * The log line reports a dropped order exactly when the order was not queued.
     */
    method ReceiveStep(msg: Option<Json>) returns (log: Option<ReceiveLog>)
      requires Valid()
      modifies this
      ensures Valid()
      ensures log.Some? <==> msg.Some?
      ensures msg.None? ==> orderQueue == old(orderQueue) && accepted == old(accepted)
      ensures msg.Some? ==>
                (log.value.QueueFullDroppingOrder? <==> accepted == old(accepted))
      ensures msg.Some? && log.value.OrderQueued? ==>
                && accepted == old(accepted) + [msg.value]
                && orderQueue == old(orderQueue) + [msg.value]
                && log.value.queueSize == |orderQueue|
      ensures dequeued == old(dequeued) && State() == old(State())
    {
      match msg {
        case None => log := None;
        case Some(order) =>
          var queued := Put(order);
          log := Some(if queued then OrderQueued(|orderQueue|) else QueueFullDroppingOrder);
      }
    }

    /** One pass of the processing loop: take the oldest order, if any, and execute it. */
    method ProcessStep(now: real) returns (outcome: Option<Outcome>)
      requires Valid()
      modifies this
      ensures Valid()
      ensures outcome.None? <==> old(orderQueue) == []
      ensures outcome.None? ==> orderQueue == old(orderQueue) && State() == old(State())
      ensures outcome.Some? ==>
                && (State(), outcome.value) == Execute(old(State()), old(orderQueue)[0], now)
                && orderQueue == old(orderQueue)[1..]
                && dequeued == old(dequeued) + [old(orderQueue)[0]]
      ensures accepted == old(accepted)
    {
      var order := Get();
      match order {
        case None => outcome := None;
        case Some(o) =>
          var r := SimulateExecution(o, now);
          outcome := Some(r);
      }
    }

    /** The figures the shutdown block prints. */
    function Report(): ShutdownReport
      reads this
    {
      ShutdownReport(Metrics.Compute(trades), |currentPositions|)
    }

    /** On a valid daemon the report counts every closed trade, and its total P&L is a tenth of
        the summed percentage returns. */
    lemma ReportAgreesWithCounter()
      requires Valid()
      ensures Report().metrics.None? <==> totalTradesCount == 0
      ensures Report().metrics.Some? ==>
                && Report().metrics.value.totalTrades == totalTradesCount
                && Report().metrics.value.totalPnlUsd == Metrics.SumPct(trades) / 10.0
    {
      if trades != [] {
        Metrics.TotalPnlOfLedger(trades);
      }
    }
  }
}
