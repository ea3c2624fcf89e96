/**
 * The backtest execution engine: a per-symbol FLAT -> OPEN -> FLAT machine over a map of open
 * long positions, and the ledger of closed trades it appends to.
 */
module Execution {
  import opened Wrappers
  import opened OrderMessage

  /** Every simulated trade is worth ten US dollars at entry. */
  const TestTradeSizeUsd: real := 10.0

  /** An open long position of one symbol. `strategy` is the opening order's strategy name. */
  datatype Position = Position(entryPrice: real, amount: real, strategy: Json, entryTime: real)

  /** One row of the trade table. `strategyName` and `symbol` are the closing order's values. */
  datatype TradeRecord = TradeRecord(
    timestamp: real, strategyName: Json, symbol: Json, orderType: string,
    entryPrice: real, amount: real, exitPrice: real, exitTime: real,
    pnlPct: real, pnlUsd: real)

  /** The engine's state: open positions by symbol, the trade table and the trade counter. */
  datatype Ledger = Ledger(positions: map<Key, Position>, trades: seq<TradeRecord>, totalTradesCount: int)

  /** The exception `simulate_execution` catches, reported and otherwise ignored. */
  datatype ExecError =
    | NotAnObject        // the order is not a dict, so subscripting it raises TypeError
    | MissingKey(name: string)
    | PriceNotANumber    // `10 / price` raises TypeError
    | ZeroDivision
    | UnhashableSymbol   // a list or dict symbol cannot be looked up or stored

  /** What one order did. */
  datatype Outcome =
    | Opened(key: Key, position: Position)
    | Closed(record: TradeRecord)
    | NoPositionToClose(key: Key)
    | IgnoredOrderType
    | Failed(error: ExecError)

  function EmptyLedger(): Ledger {
    Ledger(map[], [], 0)
  }

  /** Percentage return of a long position closed at `exit`. */
  function PnlPct(entry: real, exit: real): (r: real)
    requires entry != 0.0
    ensures entry > 0.0 ==> (r > 0.0 <==> exit > entry) && (r < 0.0 <==> exit < entry)
  {
    (exit - entry) / entry * 100.0
  }

  /** Dollar return of a long position of `amount` units closed at `exit`. */
  function PnlUsd(entry: real, exit: real, amount: real): (r: real)
    ensures amount > 0.0 ==> (r > 0.0 <==> exit > entry) && (r < 0.0 <==> exit < entry)
  {
    (exit - entry) * amount
  }

  /** `order_data.get('strategy_name', 'unknown')`. */
  function StrategyName(fields: map<string, Json>): Json {
    if "strategy_name" in fields then fields["strategy_name"] else JStr("unknown")
  }

  /**
   * `simulate_execution(order_data)` at time `now`: the new ledger and what happened. The
   * checks run in the order Python evaluates them: the three subscripts, the division by the
   * price, then the order type, then the use of the symbol as a key.
   */
  function Execute(l: Ledger, order: Json, now: real): (r: (Ledger, Outcome))
    ensures !r.1.Opened? && !r.1.Closed? ==> r.0 == l
    ensures r.1.Opened? ==> r.0.trades == l.trades && r.0.totalTradesCount == l.totalTradesCount
    ensures r.1.Closed? ==> r.0.trades == l.trades + [r.1.record] && r.0.totalTradesCount == l.totalTradesCount + 1
  {
    if !order.JObject? then (l, Failed(NotAnObject))
    else
      var f := order.fields;
      if "order_type" !in f then (l, Failed(MissingKey("order_type")))
      else if "symbol" !in f then (l, Failed(MissingKey("symbol")))
      else if "price" !in f then (l, Failed(MissingKey("price")))
      else
        var orderType, symbol := f["order_type"], f["symbol"];
        match AsNumber(f["price"])
        case None => (l, Failed(PriceNotANumber))
        case Some(price) =>
          if price == 0.0 then (l, Failed(ZeroDivision))
          else
            var amount := TestTradeSizeUsd / price;
            if orderType == JStr("BUY") then
              match HashKey(symbol)
              case None => (l, Failed(UnhashableSymbol))
              case Some(k) =>
                var pos := Position(price, amount, StrategyName(f), now);
                (l.(positions := l.positions[k := pos]), Opened(k, pos))
            else if orderType == JStr("SELL") then
              match HashKey(symbol)
              case None => (l, Failed(UnhashableSymbol))
              case Some(k) =>
                if k !in l.positions then (l, NoPositionToClose(k))
                else
                  var pos := l.positions[k];
                  if pos.entryPrice == 0.0 then (l, Failed(ZeroDivision))
                  else
                    var rec := TradeRecord(now, StrategyName(f), symbol, "CLOSE_LONG",
                                           pos.entryPrice, pos.amount, price, now,
                                           PnlPct(pos.entryPrice, price), PnlUsd(pos.entryPrice, price, pos.amount));
                    (Ledger(l.positions - {k}, l.trades + [rec], l.totalTradesCount + 1), Closed(rec))
            else (l, IgnoredOrderType)
  }

  /** An open position bought ten dollars' worth at a non-zero price. */
  ghost predicate PositionSized(p: Position) {
    p.entryPrice != 0.0 && p.amount * p.entryPrice == TestTradeSizeUsd
  }

  /** A closed trade as the engine writes it: a ten-dollar long closed at `exitPrice`. */
  ghost predicate RecordConsistent(t: TradeRecord) {
    && t.orderType == "CLOSE_LONG"
    && t.entryPrice != 0.0
    && t.amount * t.entryPrice == TestTradeSizeUsd
    && t.pnlPct == PnlPct(t.entryPrice, t.exitPrice)
    && t.pnlUsd == PnlUsd(t.entryPrice, t.exitPrice, t.amount)
    && t.exitTime == t.timestamp
  }

  /** The engine's invariant: the counter counts the records, and every position and record is
      a ten-dollar trade. */
  ghost predicate Valid(l: Ledger) {
    && l.totalTradesCount == |l.trades|
    && (forall k :: k in l.positions ==> PositionSized(l.positions[k]))
    && (forall i :: 0 <= i < |l.trades| ==> RecordConsistent(l.trades[i]))
  }

  lemma EmptyLedgerValid()
    ensures Valid(EmptyLedger())
  {
  }

  lemma TenDollarAmount(price: real)
    requires price != 0.0
    ensures (TestTradeSizeUsd / price) * price == TestTradeSizeUsd
  {
  }

  /** Every order, whatever it holds, keeps the invariant. */
  lemma ExecutePreservesValid(l: Ledger, order: Json, now: real)
    requires Valid(l)
    ensures Valid(Execute(l, order, now).0)
  {
    var (l', out) := Execute(l, order, now);
    if out.Opened? {
      var f := order.fields;
      var price := AsNumber(f["price"]).value;
      TenDollarAmount(price);
      assert PositionSized(out.position);
      assert l'.positions == l.positions[out.key := out.position];
    } else if out.Closed? {
      var k := HashKey(order.fields["symbol"]).value;
      assert PositionSized(l.positions[k]);
      assert RecordConsistent(out.record);
      assert l'.positions == l.positions - {k};
    }
  }

  /** A BUY with a usable price and symbol opens a ten-dollar position at that price, replacing
      any position of that symbol, and touches nothing else. */
  lemma BuyReplacesPosition(l: Ledger, f: map<string, Json>, now: real)
    requires "order_type" in f && f["order_type"] == JStr("BUY")
    requires "symbol" in f && HashKey(f["symbol"]).Some?
    requires "price" in f && AsNumber(f["price"]).Some? && AsNumber(f["price"]).value != 0.0
    ensures var price, k := AsNumber(f["price"]).value, HashKey(f["symbol"]).value;
            var r := Execute(l, JObject(f), now);
            && r.1 == Opened(k, Position(price, TestTradeSizeUsd / price, StrategyName(f), now))
            && r.0.positions == l.positions[k := r.1.position]
            && r.0.positions[k].amount * r.0.positions[k].entryPrice == TestTradeSizeUsd
            && (forall k' :: k' != k ==> (k' in r.0.positions <==> k' in l.positions))
            && r.0.trades == l.trades && r.0.totalTradesCount == l.totalTradesCount
  {
    TenDollarAmount(AsNumber(f["price"]).value);
  }

  /** A SELL of a symbol with no open position changes nothing. */
  lemma SellWithoutPositionIsNoOp(l: Ledger, f: map<string, Json>, now: real)
    requires "order_type" in f && f["order_type"] == JStr("SELL")
    requires "symbol" in f && HashKey(f["symbol"]).Some? && HashKey(f["symbol"]).value !in l.positions
    requires "price" in f && AsNumber(f["price"]).Some? && AsNumber(f["price"]).value != 0.0
    ensures Execute(l, JObject(f), now) == (l, NoPositionToClose(HashKey(f["symbol"]).value))
  {
  }

  /** A SELL of a symbol with an open position appends exactly one CLOSE_LONG record with the
      closed-form returns, removes only that symbol and bumps the counter. */
  lemma SellClosesPosition(l: Ledger, f: map<string, Json>, now: real)
    requires Valid(l)
    requires "order_type" in f && f["order_type"] == JStr("SELL")
    requires "symbol" in f && HashKey(f["symbol"]).Some? && HashKey(f["symbol"]).value in l.positions
    requires "price" in f && AsNumber(f["price"]).Some? && AsNumber(f["price"]).value != 0.0
    ensures var price, k := AsNumber(f["price"]).value, HashKey(f["symbol"]).value;
            var pos := l.positions[k];
            var r := Execute(l, JObject(f), now);
            && r.1.Closed?
            && r.0.trades == l.trades + [r.1.record]
            && r.1.record.orderType == "CLOSE_LONG"
            && r.1.record.entryPrice == pos.entryPrice && r.1.record.amount == pos.amount
            && r.1.record.exitPrice == price
            && r.1.record.pnlPct == (price - pos.entryPrice) / pos.entryPrice * 100.0
            && r.1.record.pnlUsd == (price - pos.entryPrice) * pos.amount
            && k !in r.0.positions
            && (forall k' :: k' != k ==> (k' in r.0.positions <==> k' in l.positions))
            && (forall k' :: k' != k && k' in l.positions ==> r.0.positions[k'] == l.positions[k'])
            && r.0.totalTradesCount == l.totalTradesCount + 1
  {
    assert PositionSized(l.positions[HashKey(f["symbol"]).value]);
  }

  /** A zero price raises at the division before the order type is looked at, so even a SELL of
      an open position changes nothing. */
  lemma ZeroPriceRejected(l: Ledger, f: map<string, Json>, now: real)
    requires "order_type" in f && "symbol" in f && "price" in f
    requires AsNumber(f["price"]) == Some(0.0)
    ensures Execute(l, JObject(f), now) == (l, Failed(ZeroDivision))
  {
  }

  /** An order missing any of `order_type`, `symbol` or `price` changes nothing. */
  lemma MissingKeyRejected(l: Ledger, f: map<string, Json>, now: real)
    requires "order_type" !in f || "symbol" !in f || "price" !in f
    ensures Execute(l, JObject(f), now).0 == l
    ensures Execute(l, JObject(f), now).1.Failed? && Execute(l, JObject(f), now).1.error.MissingKey?
  {
  }

  /** An order type other than BUY and SELL changes nothing. */
  lemma OtherOrderTypeIgnored(l: Ledger, f: map<string, Json>, now: real)
    requires "order_type" in f && f["order_type"] != JStr("BUY") && f["order_type"] != JStr("SELL")
    ensures Execute(l, JObject(f), now).0 == l
    ensures !Execute(l, JObject(f), now).1.Opened? && !Execute(l, JObject(f), now).1.Closed?
  {
  }

  /** Since every position is worth ten dollars at entry, the dollar return of every record is a
      tenth of its percentage return. */
  lemma PnlUsdIsTenthOfPct(t: TradeRecord)
    requires RecordConsistent(t)
    ensures t.pnlUsd == t.pnlPct / 10.0
  {
    var d := t.exitPrice - t.entryPrice;
    calc {
      t.pnlUsd;
      d * t.amount;
      { assert t.amount == TestTradeSizeUsd / t.entryPrice; }
      d * (10.0 / t.entryPrice);
      d / t.entryPrice * 100.0 / 10.0;
      t.pnlPct / 10.0;
    }
  }

  /** A long closed ten percent up at 110 from 100 with one unit gains ten dollars, and one
      closed ten percent down at 90 with two units loses twenty. */
  lemma PnlExamples()
    ensures PnlPct(100.0, 110.0) == 10.0 && PnlUsd(100.0, 110.0, 1.0) == 10.0
    ensures PnlPct(100.0, 90.0) == -10.0 && PnlUsd(100.0, 90.0, 2.0) == -20.0
  {
  }
}
