/**
 * The BTC/ETH statistical-arbitrage strategy: it keeps a bounded history of mid prices per
 * symbol, and at most once a minute, once warmed up, it turns the spread's z-score into a
 * position in {-1, 0, 1} and a pair of orders.
 */
module StatArb {
  import opened Bytes
  import opened Wrappers
  import opened OrderMessage
  import Execution
  import QuoteWire
  import Window

  const Symbol1: string := "BTCUSDT"
  const Symbol2: string := "ETHUSDT"
  const Lookback: nat := 100
  const EntryZ: real := 2.0
  const ExitZ: real := 0.5
  const TimePeriod: real := 60.0
  const MaxPricesSize: nat := 200
  const StrategyName: string := "stat_arb_btc_eth"

  /** The latest quote of one symbol, as kept in `current_data`. */
  datatype CurrentQuote = CurrentQuote(bid: real, ask: real, mid: real)

  /** The order dict `send_order` builds: exactly these five fields. */
  datatype OrderIntent = OrderIntent(orderType: string, symbol: string, price: real, strategyName: string, timestamp: real)

  /** The loop's locals. `position` is 0 when flat, 1 long the spread, -1 short the spread. */
  datatype State = State(
    prices1: seq<real>,
    prices2: seq<real>,
    current: map<string, CurrentQuote>,
    position: int,
    lastUpdate: Option<real>)

  function Initial(): State {
    State([], [], map[Symbol1 := CurrentQuote(0.0, 0.0, 0.0), Symbol2 := CurrentQuote(0.0, 0.0, 0.0)], 0, None)
  }

  /** What every reachable state satisfies. */
  ghost predicate Valid(s: State) {
    && |s.prices1| <= MaxPricesSize && |s.prices2| <= MaxPricesSize
    && Symbol1 in s.current && Symbol2 in s.current
    && -1 <= s.position <= 1
  }

  lemma InitialValid()
    ensures Valid(Initial())
  {
  }

  /** `send_order(order_type, symbol, price, STRATEGY_NAME)` at time `now`. */
  function MakeOrder(orderType: string, symbol: string, price: real, now: real): OrderIntent {
    OrderIntent(orderType, symbol, price, StrategyName, now)
  }

  /** `send_pair_orders`: the two orders, first leg first. */
  function PairOrders(action1: string, price1: real, action2: string, price2: real, now: real): seq<OrderIntent> {
    [MakeOrder(action1, Symbol1, price1, now), MakeOrder(action2, Symbol2, price2, now)]
  }

  /** Short the spread: sell BTC at its bid, buy ETH at its ask. */
  function ShortSpreadOrders(c1: CurrentQuote, c2: CurrentQuote, now: real): seq<OrderIntent> {
    PairOrders("SELL", c1.bid, "BUY", c2.ask, now)
  }

  /** Long the spread: buy BTC at its ask, sell ETH at its bid. */
  function LongSpreadOrders(c1: CurrentQuote, c2: CurrentQuote, now: real): seq<OrderIntent> {
    PairOrders("BUY", c1.ask, "SELL", c2.bid, now)
  }

  function Abs(x: real): real {
    if x < 0.0 then -x else x
  }

  /** The position machine: the new position and the orders sent, for z-score `z`. */
  function Transition(position: int, z: real, c1: CurrentQuote, c2: CurrentQuote, now: real): (r: (int, seq<OrderIntent>))
    ensures -1 <= position <= 1 ==> -1 <= r.0 <= 1
    ensures -1 <= position <= 1 ==> (r.1 != [] <==> r.0 != position)
    ensures r.1 == [] || |r.1| == 2
  {
    if z > EntryZ && position != -1 then (-1, ShortSpreadOrders(c1, c2, now))
    else if z < -EntryZ && position != 1 then (1, LongSpreadOrders(c1, c2, now))
    else if Abs(z) < ExitZ && position != 0 then
      (0, if position == 1 then ShortSpreadOrders(c1, c2, now)
          else if position == -1 then LongSpreadOrders(c1, c2, now)
          else [])
    else (position, [])
  }

  /**
   * A statistics update: the z-score of the current spread against the last 100 mids of each
   * history, then the position machine. `zscore` is the hedge-ratio regression and
   * standardisation, which this model takes as given.
   */
  function Update(s: State, zscore: (seq<real>, seq<real>, real, real) -> real, now: real): (r: (State, seq<OrderIntent>))
    requires Symbol1 in s.current && Symbol2 in s.current
    ensures r.0 == s.(position := r.0.position)
  {
    var c1, c2 := s.current[Symbol1], s.current[Symbol2];
    var z := zscore(Window.Last(s.prices1, Lookback), Window.Last(s.prices2, Lookback), c1.mid, c2.mid);
    var (position, orders) := Transition(s.position, z, c1, c2, now);
    (s.(position := position), orders)
  }

  /**
   * One pass of the receive loop on frame `msg`: the new state and the orders sent. A frame
   * that does not decode raises before anything changes. `binary64` reads a `d` field as the
   * real it denotes; `now` is the wall clock stamped on orders.
   */
  function Step(s: State, msg: seq<byte>, binary64: u64 -> real,
                zscore: (seq<real>, seq<real>, real, real) -> real, now: real): (r: (State, seq<OrderIntent>))
    requires Valid(s)
    ensures Valid(r.0)
  {
    match QuoteWire.DecodeTimedQuote(msg)
    case Err(_) => (s, [])
    case Ok(q) => OnQuote(s, q, binary64, zscore, now)
  }

  /** The loop body after a successful decode. */
  function OnQuote(s: State, q: QuoteWire.TimedQuote, binary64: u64 -> real,
                   zscore: (seq<real>, seq<real>, real, real) -> real, now: real): (r: (State, seq<OrderIntent>))
    requires Valid(s)
    ensures Valid(r.0)
  {
    if q.symbol != Symbol1 && q.symbol != Symbol2 then (s, [])
    else
      var bid, ask, ts := binary64(q.bid), binary64(q.ask), binary64(q.ts);
      var s1 := Record(s, q.symbol, bid, ask);
      if UpdateDue(s.lastUpdate, |s1.prices1|, |s1.prices2|, ts) then Update(s1.(lastUpdate := Some(ts)), zscore, now)
      else (s1, [])
  }

  /** Storing an accepted quote: its bid, ask and mid, and the mid appended to its history. */
  function Record(s: State, symbol: string, bid: real, ask: real): (s': State)
    requires Valid(s) && (symbol == Symbol1 || symbol == Symbol2)
    ensures Valid(s')
    ensures s'.position == s.position && s'.lastUpdate == s.lastUpdate
  {
    SymbolsDistinct();
    var mid := (bid + ask) / 2.0;
    s.(current := s.current[symbol := CurrentQuote(bid, ask, mid)],
       prices1 := if symbol == Symbol1 then Window.Append(s.prices1, mid, MaxPricesSize) else s.prices1,
       prices2 := if symbol == Symbol2 then Window.Append(s.prices2, mid, MaxPricesSize) else s.prices2)
  }

  lemma SymbolsDistinct()
    ensures Symbol1 != Symbol2
  {
    assert Symbol1[0] != Symbol2[0];
  }

  /** A frame that does not decode changes nothing and sends nothing. */
  lemma UndecodableFrameIgnored(s: State, msg: seq<byte>, binary64: u64 -> real,
                                zscore: (seq<real>, seq<real>, real, real) -> real, now: real)
    requires Valid(s) && QuoteWire.DecodeTimedQuote(msg).Err?
    ensures Step(s, msg, binary64, zscore, now) == (s, [])
  {
  }

  /** Only 40-octet frames are decoded. */
  lemma WrongLengthIgnored(s: State, msg: seq<byte>, binary64: u64 -> real,
                           zscore: (seq<real>, seq<real>, real, real) -> real, now: real)
    requires Valid(s) && |msg| != QuoteWire.TimedQuoteFrameSize
    ensures Step(s, msg, binary64, zscore, now) == (s, [])
  {
  }

  /** A quote for any other symbol changes nothing and sends nothing. */
  lemma OtherSymbolIgnored(s: State, msg: seq<byte>, binary64: u64 -> real,
                           zscore: (seq<real>, seq<real>, real, real) -> real, now: real)
    requires Valid(s) && QuoteWire.DecodeTimedQuote(msg).Ok?
    requires QuoteWire.DecodeTimedQuote(msg).value.symbol !in {Symbol1, Symbol2}
    ensures Step(s, msg, binary64, zscore, now) == (s, [])
  {
  }

  /** An accepted quote records its bid, ask and mid, and appends the mid to its own symbol's
      history, which stays at most 200 long, keeps its newest mid last and evicts its oldest;
      the other history is untouched. */
  lemma QuoteRecorded(s: State, q: QuoteWire.TimedQuote, binary64: u64 -> real,
                      zscore: (seq<real>, seq<real>, real, real) -> real, now: real)
    requires Valid(s) && q.symbol in {Symbol1, Symbol2}
    ensures var mid := (binary64(q.bid) + binary64(q.ask)) / 2.0;
            var s' := OnQuote(s, q, binary64, zscore, now).0;
            && s'.current[q.symbol] == CurrentQuote(binary64(q.bid), binary64(q.ask), mid)
            && (q.symbol == Symbol1 ==>
                  s'.prices1 == Window.Last(s.prices1 + [mid], MaxPricesSize) && s'.prices2 == s.prices2)
            && (q.symbol == Symbol2 ==>
                  s'.prices2 == Window.Last(s.prices2 + [mid], MaxPricesSize) && s'.prices1 == s.prices1)
  {
    OnQuoteRecords(s, q, binary64, zscore, now);
    RecordStoresQuote(s, q.symbol, binary64(q.bid), binary64(q.ask));
  }

  /** After a tracked quote, the stores and histories are those recording it left, whether or
      not a statistics update followed. */
  lemma OnQuoteRecords(s: State, q: QuoteWire.TimedQuote, binary64: u64 -> real,
                       zscore: (seq<real>, seq<real>, real, real) -> real, now: real)
    requires Valid(s) && (q.symbol == Symbol1 || q.symbol == Symbol2)
    ensures var s1 := Record(s, q.symbol, binary64(q.bid), binary64(q.ask));
            var s' := OnQuote(s, q, binary64, zscore, now).0;
            s'.current == s1.current && s'.prices1 == s1.prices1 && s'.prices2 == s1.prices2
  {
  }

  lemma RecordStoresQuote(s: State, symbol: string, bid: real, ask: real)
    requires Valid(s) && (symbol == Symbol1 || symbol == Symbol2)
    ensures var mid := (bid + ask) / 2.0;
            var s' := Record(s, symbol, bid, ask);
            && s'.current[symbol] == CurrentQuote(bid, ask, mid)
            && (symbol == Symbol1 ==> s'.prices1 == Window.Last(s.prices1 + [mid], MaxPricesSize) && s'.prices2 == s.prices2)
            && (symbol == Symbol2 ==> s'.prices2 == Window.Last(s.prices2 + [mid], MaxPricesSize) && s'.prices1 == s.prices1)
  {
    SymbolsDistinct();
    var mid := (bid + ask) / 2.0;
    Window.AppendIsLast(s.prices1, mid, MaxPricesSize);
    Window.AppendIsLast(s.prices2, mid, MaxPricesSize);
  }

  /** Whether this frame triggers a statistics update. */
  predicate UpdateDue(lastUpdate: Option<real>, len1: nat, len2: nat, ts: real) {
    match lastUpdate
    case None => len1 >= Lookback && len2 >= Lookback
    case Some(last) => ts - last >= TimePeriod
  }

  /** The first statistics update waits until both histories hold 100 mids, later ones come at
      least 60 seconds of quote time apart, and each records its quote's timestamp. Without an
      update the position stays and nothing is sent. */
  lemma UpdateGating(s: State, q: QuoteWire.TimedQuote, binary64: u64 -> real,
                     zscore: (seq<real>, seq<real>, real, real) -> real, now: real)
    requires Valid(s) && q.symbol in {Symbol1, Symbol2}
    ensures var ts := binary64(q.ts);
            var r := OnQuote(s, q, binary64, zscore, now);
            var due := UpdateDue(s.lastUpdate, |r.0.prices1|, |r.0.prices2|, ts);
            && (due ==> r.0.lastUpdate == Some(ts))
            && (!due ==> r.0.lastUpdate == s.lastUpdate && r.0.position == s.position && r.1 == [])
  {
  }

  /** The position stays in {-1, 0, 1}, and orders are sent exactly when it changes. */
  lemma OrdersIffPositionChanges(s: State, msg: seq<byte>, binary64: u64 -> real,
                                 zscore: (seq<real>, seq<real>, real, real) -> real, now: real)
    requires Valid(s)
    ensures var r := Step(s, msg, binary64, zscore, now);
            && -1 <= r.0.position <= 1
            && (r.1 != [] <==> r.0.position != s.position)
            && (r.1 == [] || |r.1| == 2)
  {
    var d := QuoteWire.DecodeTimedQuote(msg);
    if d.Ok? {
      QuoteOrdersIffPositionChanges(s, d.value, binary64, zscore, now);
    }
  }

  lemma QuoteOrdersIffPositionChanges(s: State, q: QuoteWire.TimedQuote, binary64: u64 -> real,
                                      zscore: (seq<real>, seq<real>, real, real) -> real, now: real)
    requires Valid(s)
    ensures var r := OnQuote(s, q, binary64, zscore, now);
            && -1 <= r.0.position <= 1
            && (r.1 != [] <==> r.0.position != s.position)
            && (r.1 == [] || |r.1| == 2)
  {
    if q.symbol == Symbol1 || q.symbol == Symbol2 {
      var s1 := Record(s, q.symbol, binary64(q.bid), binary64(q.ask));
      assert s1.position == s.position;
    }
  }

  /** Above +2 the strategy shorts the spread unless already short; below -2 it goes long unless
      already long. */
  lemma EntryTransitions(position: int, z: real, c1: CurrentQuote, c2: CurrentQuote, now: real)
    ensures z > EntryZ && position != -1 ==>
              Transition(position, z, c1, c2, now)
              == (-1, [OrderIntent("SELL", Symbol1, c1.bid, StrategyName, now), OrderIntent("BUY", Symbol2, c2.ask, StrategyName, now)])
    ensures z < -EntryZ && position != 1 ==>
              Transition(position, z, c1, c2, now)
              == (1, [OrderIntent("BUY", Symbol1, c1.ask, StrategyName, now), OrderIntent("SELL", Symbol2, c2.bid, StrategyName, now)])
  {
  }

  /** Inside the exit band an open position is closed with the pair that reverses it: the
      orders of entering the opposite side. */
  lemma ExitReversesOpenSide(position: int, z: real, c1: CurrentQuote, c2: CurrentQuote, now: real)
    requires position == 1 || position == -1
    requires Abs(z) < ExitZ
    ensures Transition(position, z, c1, c2, now).0 == 0
    ensures Transition(position, z, c1, c2, now).1 == Transition(0, position as real * 3.0, c1, c2, now).1
  {
  }

  /** Between the bands, and wherever the position already is where the signal points, nothing
      happens. */
  lemma NoSignalHoldsPosition(position: int, z: real, c1: CurrentQuote, c2: CurrentQuote, now: real)
    requires -1 <= position <= 1
    requires !(z > EntryZ && position != -1) && !(z < -EntryZ && position != 1)
    requires !(Abs(z) < ExitZ && position != 0)
    ensures Transition(position, z, c1, c2, now) == (position, [])
  {
  }

  /** The JSON object `json.dumps` sends for an order. */
  function ToJson(o: OrderIntent): Json {
    JObject(map["order_type" := JStr(o.orderType), "symbol" := JStr(o.symbol), "price" := JNum(o.price),
                "strategy_name" := JStr(o.strategyName), "timestamp" := JNum(o.timestamp)])
  }

  /** An order carries exactly the five fields, and the backtest engine books it: a BUY opens a
      position under its symbol, a SELL closes one or finds none, with this strategy's name. */
  lemma OrderBookedByBacktester(o: OrderIntent, l: Execution.Ledger, now: real)
    requires o.orderType in {"BUY", "SELL"} && o.price != 0.0
    requires Execution.Valid(l)
    ensures ToJson(o).fields.Keys == {"order_type", "symbol", "price", "strategy_name", "timestamp"}
    ensures var r := Execution.Execute(l, ToJson(o), now);
            && (o.orderType == "BUY" ==> r.1.Opened? && r.1.key == KStr(o.symbol) && r.1.position.strategy == JStr(o.strategyName))
            && (o.orderType == "SELL" ==> (r.1.Closed? && r.1.record.strategyName == JStr(o.strategyName))
                                          || r.1 == Execution.NoPositionToClose(KStr(o.symbol)))
  {
    var j := ToJson(o);
    assert j.fields["order_type"] == JStr(o.orderType);
    assert j.fields["price"] == JNum(o.price);
    assert "strategy_name" in j.fields && j.fields["strategy_name"] == JStr(o.strategyName);
    if KStr(o.symbol) in l.positions {
      assert Execution.PositionSized(l.positions[KStr(o.symbol)]);
    }
  }

  /** The strategy as its loop runs: the locals of `run_strategy`. */
  class StatArbStrategy {
    var prices1: seq<real>
    var prices2: seq<real>
    var currentData: map<string, CurrentQuote>
    var position: int
    var lastUpdateTime: Option<real>

    function Snapshot(): State
      reads this
    {
      State(prices1, prices2, currentData, position, lastUpdateTime)
    }

    constructor()
      ensures Snapshot() == Initial() && Valid(Snapshot())
    {
      prices1 := [];
      prices2 := [];
      currentData := map[Symbol1 := CurrentQuote(0.0, 0.0, 0.0), Symbol2 := CurrentQuote(0.0, 0.0, 0.0)];
      position := 0;
      lastUpdateTime := None;
    }

    /**
     * One message. `delivered1` and `delivered2` say whether each send went through; they
     * decide only what `send_pair_orders` returns, never the state.
     */
    method OnMessage(msg: seq<byte>, binary64: u64 -> real, zscore: (seq<real>, seq<real>, real, real) -> real,
                     now: real, delivered1: bool, delivered2: bool)
      returns (orders: seq<OrderIntent>, pairSent: Option<bool>)
      requires Valid(Snapshot())
      modifies this
      ensures Valid(Snapshot())
      ensures (Snapshot(), orders) == Step(old(Snapshot()), msg, binary64, zscore, now)
      ensures pairSent.Some? <==> orders != []
      ensures pairSent.Some? ==> pairSent.value == (delivered1 && delivered2)
    {
      var decoded := QuoteWire.DecodeTimedQuote(msg);
      if decoded.Err? {
        return [], None;
      }
      orders, pairSent := ProcessQuote(decoded.value, binary64, zscore, now, delivered1, delivered2);
    }

    /** The loop body once the frame has decoded. */
    method ProcessQuote(q: QuoteWire.TimedQuote, binary64: u64 -> real,
                        zscore: (seq<real>, seq<real>, real, real) -> real,
                        now: real, delivered1: bool, delivered2: bool)
      returns (orders: seq<OrderIntent>, pairSent: Option<bool>)
      requires Valid(Snapshot())
      modifies this
      ensures Valid(Snapshot())
      ensures (Snapshot(), orders) == OnQuote(old(Snapshot()), q, binary64, zscore, now)
      ensures pairSent.Some? <==> orders != []
      ensures pairSent.Some? ==> pairSent.value == (delivered1 && delivered2)
    {
      orders, pairSent := [], None;
      if q.symbol != Symbol1 && q.symbol != Symbol2 {
        return;
      }
      var bid, ask, ts := binary64(q.bid), binary64(q.ask), binary64(q.ts);
      RecordQuote(q.symbol, bid, ask);
      var shouldUpdate := false;
      if lastUpdateTime.None? {
        if |prices1| >= Lookback && |prices2| >= Lookback {
          shouldUpdate := true;
        } else {
          return;
        }
      } else if ts - lastUpdateTime.value >= TimePeriod {
        shouldUpdate := true;
      }
      if shouldUpdate {
        lastUpdateTime := Some(ts);
        orders := UpdateStatistics(zscore, now);
        if orders != [] {
          pairSent := Some(delivered1 && delivered2);
        }
      }
    }

    /** Storing the quote's bid, ask and mid, and appending the mid to its symbol's history. */
    method RecordQuote(symbol: string, bid: real, ask: real)
      requires Valid(Snapshot()) && (symbol == Symbol1 || symbol == Symbol2)
      modifies this
      ensures Snapshot() == Record(old(Snapshot()), symbol, bid, ask)
    {
      SymbolsDistinct();
      var price := (bid + ask) / 2.0;
      currentData := currentData[symbol := CurrentQuote(bid, ask, price)];
      if symbol == Symbol1 {
        prices1 := Window.Append(prices1, price, MaxPricesSize);
      } else {
        prices2 := Window.Append(prices2, price, MaxPricesSize);
      }
    }

    /** The z-score of the current spread, then the position machine. */
    method UpdateStatistics(zscore: (seq<real>, seq<real>, real, real) -> real, now: real)
      returns (orders: seq<OrderIntent>)
      requires Symbol1 in currentData && Symbol2 in currentData
      modifies this
      ensures (Snapshot(), orders) == Update(old(Snapshot()), zscore, now)
    {
      var c1, c2 := currentData[Symbol1], currentData[Symbol2];
      var z := zscore(Window.Last(prices1, Lookback), Window.Last(prices2, Lookback), c1.mid, c2.mid);
      ghost var t := Transition(position, z, c1, c2, now);
      orders := [];
      if z > EntryZ && position != -1 {
        orders := ShortSpreadOrders(c1, c2, now);
        position := -1;
      } else if z < -EntryZ && position != 1 {
        orders := LongSpreadOrders(c1, c2, now);
        position := 1;
      } else if Abs(z) < ExitZ && position != 0 {
        if position == 1 {
          orders := ShortSpreadOrders(c1, c2, now);
        } else if position == -1 {
          orders := LongSpreadOrders(c1, c2, now);
        }
        position := 0;
      }
      assert (position, orders) == t;
    }
  }
}
