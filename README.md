# trading_bot core, modelled in Dafny

This project models the sequential logic inside the socket loops of the `trading_bot`
repository, and proves properties of that model:

- **The backtest daemon** (`backtesting/sample-test/backtester_core.py`). Orders arrive as
  JSON objects. They wait in a FIFO queue of at most 1000 orders, then go through
  `simulate_execution`. That function keeps at most one open long position per symbol and
  closes it into a trade table with closed-form P&L. At shutdown the daemon prints win rate,
  averages, profit factor and total P&L computed from that table.
- **The quote frame codec** shared by publishers and consumers. It covers `struct` with the
  big-endian `!` prefix:
  - `!dd16s` is a 32-octet frame: bid, ask and symbol.
  - `!ddd16s` is a 40-octet frame: bid, ask, timestamp and symbol.
  - The symbol is read back in two ways. The strategies split at the first NUL, decode the
    text and strip it. The subscriber tool decodes all 16 octets and strips only trailing NULs.
- **Three strategies**, each with a signal state machine:
  - the BTC/ETH statistical-arbitrage pair trader (positions in {-1, 0, 1}, order pairs);
  - the XRP/USDT dual-EMA crossover;
  - the four-exchange arbitrage detector.
- **The replay feeder** (`data_prep.py`). It turns candles into synthetic bid/ask quotes and
  packs each one into a 40-octet frame.
- **The Crypto.com publisher** and **the subscriber tool**.

How the model is built:

- Prices are reals.
- Each `d` wire field is an opaque 64-bit pattern written as 8 big-endian octets.
- The reading of a pattern as a number is a parameter `binary64` of each strategy.
- The z-score of the stat-arb strategy is a parameter.
- Decoding a symbol is strict UTF-8, as Python's `bytes.decode()` is.
- A parsed order is a JSON value datatype. Python's dict-key equality (`True` is `1`) and its
  refusal of list or dict keys are modelled.

Where the module globals or loop locals of the source are updated in place, a class holds them:

- `BacktesterCore.Backtester`, `StatArb.StatArbStrategy` and `DualEma.DualEmaStrategy`.
- Each method is proved equal to a pure step function (`Execution.Execute`, `StatArb.Step`,
  `DualEma.Step`).
- The properties are proved about those step functions.

Facts about the code that the model keeps:

- The two frame shapes are 32 and 40 octets (8 + 8 + 16 and 8 + 8 + 8 + 16).
- Each consumer accepts exactly its own shape.
- The subscriber tool keeps interior NULs and whitespace in the symbol; only trailing NULs go.
- The engine rejects an order that is not a JSON object, that lacks `order_type`, `symbol` or
  `price`, whose price cannot divide 10 or is zero, or whose symbol is a list or a dict. No
  other field is type-checked, so a negative price is booked.
- The backtest engine calls no exchange.

## Model

| member | source | states |
|---|---|---|
| Bytes.FromToBigEndian | quoting/btc-usdt/quote_cryptocoms_btc-usd.py:39 | reading back the n big-endian octets of a number below 256^n gives the number |
| Bytes.ToFromBigEndian | tools/quote_subscriber.py:38 | writing back the number read from a run of octets gives the same octets |
| Bytes.UnpackPackDouble | quoting/btc-usdt/quote_cryptocoms_btc-usd.py:39 | a `d` field read back from its 8 octets is the pattern written |
| Bytes.PackUnpackDouble | tools/quote_subscriber.py:38 | every 8-octet field is the packing of the pattern it unpacks to |
| Bytes.PackDouble | quoting/btc-usdt/quote_cryptocoms_btc-usd.py:39 | `struct.pack('!d')` of a bit pattern is 8 octets |
| Bytes.UnpackDouble | tools/quote_subscriber.py:38 | `struct.unpack('!d')` reads 8 big-endian octets back to a 64-bit pattern (no contract of its own; its round trips are UnpackPackDouble and PackUnpackDouble) |
| Utf8.DecodeEncode | quoting/btc-usdt/quote_cryptocoms_btc-usd.py:39 | `.decode()` of `.encode()` gives back the text |
| Utf8.EncodeHasNoZero | quoting/btc-usdt/quote_cryptocoms_btc-usd.py:39 | text without NUL characters encodes to octets without a zero octet |
| Utf8.EncodeAscii | quoting/btc-usdt/quote_cryptocoms_btc-usd.py:8 | ASCII text encodes octet for octet |
| Utf8.Encode | quoting/btc-usdt/quote_cryptocoms_btc-usd.py:39 | `str.encode()`: each character takes one to four octets |
| Utf8.DecodeFirst | strategies/strategy_stat_arb.py:86 | strict decoding of the first character consumes one to four octets, never more than there are; overlong forms, surrogates and values above U+10FFFF are refused |
| Utf8.Decode | strategies/strategy_stat_arb.py:86 | strict `bytes.decode()`, None for the error it raises; decoded text has no more characters than there were octets |
| Utf8.EncodeAppend | quoting/btc-usdt/quote_cryptocoms_btc-usd.py:39 | `.encode()` works character by character: the encoding of a concatenation is the concatenation of the encodings |
| Utf8.EncodeNuls | tools/quote_subscriber.py:39 | a run of n NUL characters encodes to n zero octets, the padding the subscriber strips |
| Utf8.DecodeFirstOfEncodeChar | strategies/strategy_stat_arb.py:86 | decoding octets that start with one character's encoding gives that character and the encoding's length, whatever follows |
| Utf8.DecodeFirstOfTwo | strategies/strategy_stat_arb.py:86 | the same for a character of two octets (U+0080 to U+07FF) |
| Utf8.DecodeFirstOfThree | strategies/strategy_stat_arb.py:86 | the same for a character of three octets (U+0800 to U+FFFF) |
| Utf8.DecodeFirstOfFour | strategies/strategy_stat_arb.py:86 | the same for a character of four octets (from U+10000) |
| Utf8.DecodeFailsAfterAscii | tools/quote_subscriber.py:39 | octets that are invalid after an ASCII prefix make the whole decode fail |
| PyStr.LStrip | strategies/strategy_stat_arb.py:86 | the result is a suffix; everything removed is whitespace; it does not start with whitespace |
| PyStr.RStrip | strategies/strategy_stat_arb.py:86 | the result is a prefix; everything removed is whitespace; it does not end with whitespace |
| PyStr.IsSpace | strategies/strategy_stat_arb.py:86 | `str.isspace()` for one character: the ASCII and Unicode whitespace characters Python 3 strips (no contract of its own; used by the strip contracts) |
| PyStr.Strip | strategies/strategy_stat_arb.py:86 | `strip()` never lengthens, and what it returns neither starts nor ends with whitespace |
| PyStr.RStripNul | tools/quote_subscriber.py:39 | the result is a prefix; everything removed is NUL; it does not end with NUL |
| PyStr.BeforeFirstNul | strategies/strategy_stat_arb.py:86 | the result is the prefix without NUL octets, ending at the first NUL if there is one |
| PyStr.StripUnpadded | strategies/strategy_stat_arb.py:86 | a string with no leading or trailing whitespace is its own `strip()` |
| PyStr.StripIsTrimmedInfix | strategies/strategy_dual_ema.py:44 | `strip()` returns the infix that starts where `lstrip()` stops, with only whitespace on either side of it |
| PyStr.TrimmedInfix | strategies/strategy_dual_ema.py:44 | a prefix of a suffix of a string, with only whitespace cut off on either side, is the infix between those two whitespace runs |
| PyStr.RStripNulOfPadded | tools/quote_subscriber.py:39 | NULs appended to a string that does not end in NUL are exactly what `rstrip('\0')` removes |
| QuoteWire.LJustNul | quoting/btc-usdt/quote_cryptocoms_btc-usd.py:39 | `ljust(16, b'\0')` keeps the octets and pads with zeros up to 16, never shortening |
| QuoteWire.PackString16 | quoting/btc-usdt/quote_cryptocoms_btc-usd.py:39 | `16s` writes 16 octets: the first 16 of a longer argument, or the argument NUL-padded |
| QuoteWire.SymbolSplitStrip | strategies/strategy_stat_arb.py:86 | the strategies' reading of the symbol field fails only with a decode error, and a symbol it reads has no surrounding whitespace |
| QuoteWire.SymbolRStripNul | tools/quote_subscriber.py:39 | the subscriber's reading fails only with a decode error, and a symbol it reads does not end in NUL |
| QuoteWire.SymbolField | quoting/btc-usdt/quote_cryptocoms_btc-usd.py:39 | the symbol field is 16 octets: the UTF-8 symbol cut to 16 or padded with zeros |
| QuoteWire.PackQuote | quoting/btc-usdt/quote_cryptocoms_btc-usd.py:39 | a `!dd16s` frame is 32 octets: bid, then ask, each big-endian, then the 16-octet symbol |
| QuoteWire.UnpackQuote | tools/quote_subscriber.py:38 | a frame unpacks exactly when it is 32 octets long, giving a 16-octet symbol field |
| QuoteWire.PackTimedQuote | backtesting/sample-test/data_prep.py:63-69 | a `!ddd16s` frame is 40 octets: bid, ask, timestamp, then the 16-octet symbol |
| QuoteWire.UnpackTimedQuote | strategies/strategy_stat_arb.py:85 | a frame unpacks exactly when it is 40 octets long |
| QuoteWire.UnpackPackQuote | quoting/btc-usdt/quote_cryptocoms_btc-usd.py:39 | unpacking a packed 32-octet frame gives back bid, ask and the symbol field |
| QuoteWire.PackUnpackQuote | tools/quote_subscriber.py:38 | every 32-octet frame is the packing of its unpacked fields |
| QuoteWire.UnpackPackTimedQuote | backtesting/sample-test/data_prep.py:63-69 | unpacking a packed 40-octet frame gives back bid, ask, timestamp and the symbol field |
| QuoteWire.PackUnpackTimedQuote | strategies/strategy_stat_arb.py:85 | every 40-octet frame is the packing of its unpacked fields |
| QuoteWire.BeforeFirstNulOfPadded | strategies/strategy_stat_arb.py:86 | splitting a NUL-free encoding followed by zeros at the first NUL gives back the encoding |
| QuoteWire.SplitStripRoundTrip | strategies/strategy_stat_arb.py:86 | a symbol of at most 16 octets with no NUL and no surrounding whitespace is read back unchanged |
| QuoteWire.RStripNulRoundTrip | tools/quote_subscriber.py:39 | a symbol of at most 16 octets not ending in NUL is read back unchanged by the subscriber's reading |
| QuoteWire.DecodeQuote | strategies/strategy_dual_ema.py:43-44 | a frame decodes exactly when it is 32 octets and its symbol field, split at the first NUL, is valid UTF-8; any other length fails with a length error; a decoded quote holds the frame's bid, ask and split-and-stripped symbol |
| QuoteWire.DecodeTimedQuote | strategies/strategy_stat_arb.py:85-86 | a frame decodes exactly when it is 40 octets and its symbol field, split at the first NUL, is valid UTF-8; any other length fails with a length error; a decoded quote holds bid, ask, timestamp and the split-and-stripped symbol |
| QuoteWire.DecodeQuoteOfPacked | quoting/btc-usdt/quote_cryptocoms_btc-usd.py:39 | the frame a publisher sends decodes in a strategy to the bid, ask and symbol sent |
| QuoteWire.DecodeTimedQuoteOfPacked | backtesting/sample-test/data_prep.py:63-69 | a 40-octet frame decodes to the bid, ask, timestamp and symbol sent |
| QuotePublisher.EncodeQuote | quoting/btc-usdt/quote_cryptocoms_btc-usd.py:39 | the published frame is 32 octets: bid, ask, then the symbol field |
| QuotePublisher.PublishIteration | quoting/btc-usdt/quote_cryptocoms_btc-usd.py:29-43 | a frame is sent exactly when the fetch succeeded with a bid and an ask, and it unpacks to them and to 'BTC/USDT' |
| QuotePublisher.LastAndTimestampNotSent | quoting/btc-usdt/quote_cryptocoms_btc-usd.py:31-39 | the last price and the local time do not affect the frame |
| QuotePublisher.SymbolFieldOfBtcUsdt | quoting/btc-usdt/quote_cryptocoms_btc-usd.py:8 | 'BTC/USDT' is sent as its 8 ASCII octets followed by 8 NULs |
| QuotePublisher.SymbolOctets | quoting/btc-usdt/quote_cryptocoms_btc-usd.py:8 | 'BTC/USDT' encodes to its 8 ASCII octets |
| QuotePublisher.SymbolReadsBack | quoting/btc-usdt/quote_cryptocoms_btc-usd.py:8 | 'BTC/USDT' fits the 16-octet field, holds no NUL and neither starts nor ends with whitespace |
| QuotePublisher.LongSymbolTruncated | quoting/btc-usdt/quote_cryptocoms_btc-usd.py:39 | a symbol of more than 16 octets is cut to its first 16 |
| QuotePublisher.TruncationCanBreakUtf8 | quoting/btc-usdt/quote_cryptocoms_btc-usd.py:39 | a cut through a two-octet character makes the frame undecodable by the strategies |
| QuotePublisher.TruncatedField | quoting/btc-usdt/quote_cryptocoms_btc-usd.py:39 | fifteen ASCII characters and a two-octet character leave in the field the fifteen ASCII octets and only the leading octet of that character |
| QuotePublisher.LoneLeadOctetFails | strategies/strategy_dual_ema.py:44 | such a field is not UTF-8, so the strategies' reading of the symbol fails |
| QuotePublisher.PublishedQuoteDecodes | quoting/btc-usdt/quote_cryptocoms_btc-usd.py:39 | what is published decodes to the ticker's bid and ask and 'BTC/USDT' |
| QuoteSubscriber.DecodeQuote | tools/quote_subscriber.py:38-39 | decoding succeeds exactly for 32-octet frames whose symbol field is valid UTF-8; bid and ask are octets 0-7 and 8-15; the symbol loses only trailing NULs |
| QuoteSubscriber.DecodeOfPacked | tools/quote_subscriber.py:38-39 | a symbol of at most 16 octets not ending in NUL is read back exactly |
| QuoteSubscriber.InteriorNulKept | tools/quote_subscriber.py:39 | an interior NUL is kept here, and ends the symbol in the strategies' reading |
| QuoteSubscriber.InvalidTailRejected | tools/quote_subscriber.py:39 | invalid octets after a NUL fail here, while the strategies' reading ignores them |
| QuoteSubscriber.WhitespaceKept | tools/quote_subscriber.py:39 | surrounding whitespace is kept here and stripped by the strategies |
| DataPrep.ClipSpread | backtesting/sample-test/data_prep.py:39-43 | the clipped spread is never negative and leaves a non-negative sample as it is |
| DataPrep.Mid | backtesting/sample-test/data_prep.py:37 | (open + close) / 2 (no contract of its own; used by SynthesizedAroundMid and BidNotAboveAsk) |
| DataPrep.HalfSpread | backtesting/sample-test/data_prep.py:46 | half the spread is never negative for a non-negative mid |
| DataPrep.RoundHalfEven | backtesting/sample-test/data_prep.py:48-49 | the rounded integer is within one half of the value |
| DataPrep.Round2 | backtesting/sample-test/data_prep.py:48-49 | rounding to cents moves a price by at most half a cent |
| DataPrep.RoundHalfEvenMonotone | backtesting/sample-test/data_prep.py:48-49 | rounding to an integer keeps the order of two values |
| DataPrep.Round2Monotone | backtesting/sample-test/data_prep.py:48-49 | rounding to cents keeps the order of two prices |
| DataPrep.Synthesize | backtesting/sample-test/data_prep.py:37-49 | the rounded bid and ask of one row (no contract of its own; SynthesizedAroundMid and BidNotAboveAsk state its properties) |
| DataPrep.SynthesizedAroundMid | backtesting/sample-test/data_prep.py:37-49 | the bid and ask are within half a cent of mid minus and plus half the clipped spread, and their mean within half a cent of (open+close)/2 |
| DataPrep.BidNotAboveAsk | backtesting/sample-test/data_prep.py:45-49 | for a non-negative mid the half spread is non-negative and the rounded bid does not exceed the rounded ask |
| DataPrep.TimestampSeconds | backtesting/sample-test/data_prep.py:60 | the row's millisecond timestamp in seconds, as `idx.timestamp()` gives it (no contract of its own; ReplayFrameLayout states what is sent) |
| DataPrep.ReplayFrame | backtesting/sample-test/data_prep.py:57-69 | the frame of one row (no contract of its own; ReplayFrameLayout states its layout and decoding) |
| DataPrep.ReplayFrameLayout | backtesting/sample-test/data_prep.py:57-69 | each row's frame is 40 octets, unpacks to bid, ask, seconds timestamp and the symbol field, and decodes with symbol "BTC/USD" |
| DataPrep.PackedReplayQuote | backtesting/sample-test/data_prep.py:63-69 | a frame packed with the replay symbol unpacks and decodes to its fields |
| DataPrep.ReplaySymbolEncoding | backtesting/sample-test/data_prep.py:52 | "BTC/USD" is 7 ASCII octets; with 9 NULs it is the symbol field |
| DataPrep.ReplaySymbolOctets | backtesting/sample-test/data_prep.py:52 | "BTC/USD" encodes to its 7 ASCII octets |
| DataPrep.Replay | backtesting/sample-test/data_prep.py:56-70 | exactly one 40-octet frame is sent per row, in row order, each the row's frame |
| OrderMessage.HashKey | backtesting/sample-test/backtester_core.py:59 | a value can key the position dict exactly when it is not a list or a dict |
| OrderMessage.AsNumber | backtesting/sample-test/backtester_core.py:53 | a value can be divided by exactly when it is a number or a bool |
| Execution.Execute | backtesting/sample-test/backtester_core.py:43-102 | an order that neither opens nor closes leaves the ledger as it was; opening leaves the trades and counter; closing appends exactly its record and adds one to the counter |
| Execution.EmptyLedgerValid | backtesting/sample-test/backtester_core.py:27-33 | the empty ledger satisfies the engine invariant |
| Execution.TenDollarAmount | backtesting/sample-test/backtester_core.py:53 | the amount bought is worth ten dollars at the entry price |
| Execution.PnlPct | backtesting/sample-test/backtester_core.py:75 | for a positive entry price the percentage return is positive exactly when the exit is above the entry, and negative exactly when below |
| Execution.PnlUsd | backtesting/sample-test/backtester_core.py:76 | for a positive amount the dollar return is positive exactly when the exit is above the entry, and negative exactly when below |
| Execution.StrategyName | backtesting/sample-test/backtester_core.py:51 | `order_data.get('strategy_name', 'unknown')` (no contract of its own; OrderBookedByBacktester shows the name carried into positions and records) |
| Execution.ExecutePreservesValid | backtesting/sample-test/backtester_core.py:53-94 | every order keeps the invariant: counter equals the number of records; every position is worth $10 at a non-zero entry; every record is a consistent CLOSE_LONG |
| Execution.BuyReplacesPosition | backtesting/sample-test/backtester_core.py:57-65 | a BUY stores entry price and amount 10/price under its symbol, replacing any old entry; other symbols, trades and counter are unchanged |
| Execution.SellWithoutPositionIsNoOp | backtesting/sample-test/backtester_core.py:67-97 | a SELL of a symbol without a position changes nothing |
| Execution.SellClosesPosition | backtesting/sample-test/backtester_core.py:69-94 | a SELL of an open symbol appends one CLOSE_LONG record with the P&L formulas, removes only that symbol and adds one to the counter |
| Execution.ZeroPriceRejected | backtesting/sample-test/backtester_core.py:53 | a zero price changes nothing, even for a SELL |
| Execution.MissingKeyRejected | backtesting/sample-test/backtester_core.py:48-50 | an order missing order_type, symbol or price changes nothing |
| Execution.OtherOrderTypeIgnored | backtesting/sample-test/backtester_core.py:57-67 | an order type other than BUY and SELL changes nothing |
| Execution.PnlUsdIsTenthOfPct | backtesting/sample-test/backtester_core.py:75-76 | every record's dollar P&L is a tenth of its percentage P&L |
| Execution.PnlExamples | backtesting/sample-test/backtester_core.py:75-76 | worked values of both P&L formulas |
| Metrics.CountWinners | backtesting/sample-test/backtester_core.py:149 | the winner count is at most the trade count |
| Metrics.WinnersCounted | backtesting/sample-test/backtester_core.py:149 | the winner count is 0 exactly when no trade won, and the trade count exactly when every trade won |
| Metrics.CountLosers | backtesting/sample-test/backtester_core.py:156 | the loser count is at most the trade count |
| Metrics.Compute | backtesting/sample-test/backtester_core.py:147-173 | there are figures exactly when the table is non-empty, with the table's size as total trades |
| Metrics.WinRate | backtesting/sample-test/backtester_core.py:153 | winners over trades times 100 (no contract of its own; WinRateBounds states its range) |
| Metrics.AvgProfit | backtesting/sample-test/backtester_core.py:154 | the mean percentage return (no contract of its own; ProfitTotal and AverageDecomposes state its properties) |
| Metrics.AvgWinner | backtesting/sample-test/backtester_core.py:155 | the winners' mean, 0 without winners (no contract of its own; AverageSigns and WinnerTotal state its properties) |
| Metrics.AvgLoser | backtesting/sample-test/backtester_core.py:156 | the others' mean, 0 without them (no contract of its own; AverageSigns and LoserTotal state its properties) |
| Metrics.ProfitFactor | backtesting/sample-test/backtester_core.py:169 | abs(avg winner / avg loser) when both are non-zero (no contract of its own; ProfitFactorShown states when it is shown and its sign) |
| Metrics.CountsPartition | backtesting/sample-test/backtester_core.py:149-156 | winners and losers, breakevens included, add up to all trades |
| Metrics.WinRateBounds | backtesting/sample-test/backtester_core.py:153 | the win rate lies in [0, 100]; it is 100 exactly when all won and 0 exactly when none did |
| Metrics.PercentageBounds | backtesting/sample-test/backtester_core.py:153 | a share w/n·100 with w ≤ n lies in [0, 100], reaching the ends exactly at w = n and w = 0 |
| Metrics.SumSplits | backtesting/sample-test/backtester_core.py:154-156 | the total return is the winners' plus the others' |
| Metrics.WinnerSumPositive | backtesting/sample-test/backtester_core.py:155 | the winners' total is non-negative, and positive exactly when some trade won |
| Metrics.LoserSumNonPositive | backtesting/sample-test/backtester_core.py:156 | the others' total is non-positive, zero when there are none, negative exactly when some trade lost |
| Metrics.AverageSigns | backtesting/sample-test/backtester_core.py:155-156 | the average winner is non-negative and positive exactly when some trade won; the average loser is non-positive and negative exactly when some trade lost |
| Metrics.MeanSign | backtesting/sample-test/backtester_core.py:154-156 | a mean has the sign of its sum |
| Metrics.ProfitFactorShown | backtesting/sample-test/backtester_core.py:169 | the profit factor is shown exactly when some trade won and some lost, and is then positive |
| Metrics.MeanTimesCount | backtesting/sample-test/backtester_core.py:154-156 | a mean times its count is the sum |
| Metrics.WinnerTotal | backtesting/sample-test/backtester_core.py:155 | winners times average winner is the winners' total |
| Metrics.LoserTotal | backtesting/sample-test/backtester_core.py:156 | losers times average loser is the losers' total |
| Metrics.ProfitTotal | backtesting/sample-test/backtester_core.py:154 | trades times average P&L is the total return |
| Metrics.AverageDecomposes | backtesting/sample-test/backtester_core.py:154-156 | the average P&L is the count-weighted mix of the average winner and average loser |
| Metrics.SumUsdOfConsistent | backtesting/sample-test/backtester_core.py:162 | over records the engine wrote, the dollar total is a tenth of the percentage total |
| Metrics.TotalPnlOfLedger | backtesting/sample-test/backtester_core.py:162 | the printed total P&L is the sum of dollar returns, a tenth of trades times average P&L |
| Metrics.ThreeTradeScenario | backtesting/sample-test/backtester_core.py:147-169 | +5 %, -2 %, +3 %: win rate 200/3, average 2, winner 4, loser -2, profit factor 2 |
| BacktesterCore.QueuedOrderReportedDropped | backtesting/sample-test/backtester_core.py:127-132 | as written, an order without order_type or symbol is queued and still logged as dropped |
| BacktesterCore.ReceiveLogAsWritten | backtesting/sample-test/backtester_core.py:127-132 | the log line as written: "Order queued" only when the put succeeded and the order has both keys, else "Queue full" (no contract of its own; QueuedOrderReportedDropped exhibits the discrepancy) |
| BacktesterCore.Backtester.constructor | backtesting/sample-test/backtester_core.py:27-41 | the daemon starts with an empty queue, no positions, no trades, counter 0 |
| BacktesterCore.Backtester.SimulateExecution | backtesting/sample-test/backtester_core.py:43-102 | the globals change exactly as the engine step says; the queue does not change |
| BacktesterCore.Backtester.Put | backtesting/sample-test/backtester_core.py:128-132 | a put succeeds exactly when fewer than 1000 orders wait; it appends the order, or leaves the queue unchanged when full |
| BacktesterCore.Backtester.Get | backtesting/sample-test/backtester_core.py:108 | a get on an empty queue yields nothing; otherwise it yields the oldest order and removes it, so orders leave in the order they entered |
| BacktesterCore.Backtester.ReceiveStep | backtesting/sample-test/backtester_core.py:124-132 | a received order is reported dropped exactly when it was not queued; a queued one is logged with the new queue size |
| BacktesterCore.Backtester.ProcessStep | backtesting/sample-test/backtester_core.py:104-112 | the oldest waiting order is removed and executed; with none waiting nothing changes |
| BacktesterCore.Backtester.Report | backtesting/sample-test/backtester_core.py:147-175 | the shutdown figures and the open-position count (no contract of its own; ReportAgreesWithCounter states what they agree with) |
| BacktesterCore.Backtester.ReportAgreesWithCounter | backtesting/sample-test/backtester_core.py:147-175 | figures are printed exactly when the counter is non-zero, with the counter as total trades and total P&L a tenth of the summed returns |
| Window.Last | strategies/strategy_stat_arb.py:122-123 | for a positive n, `list(q)[-n:]` is the suffix of length min(len, n) |
| Window.Append | strategies/strategy_stat_arb.py:98-101 | appending to a deque of at most maxlen items ends with the new item and has min(len+1, maxlen) items |
| Window.AppendIsLast | strategies/strategy_stat_arb.py:40-41 | a bounded append keeps the last maxlen items of the extended history |
| Window.LastOfLast | strategies/strategy_dual_ema.py:53-55 | truncating before or after appending leaves the same last n items |
| Window.LastOfSuffix | strategies/strategy_dual_ema.py:53-55 | the last n items of a history do not depend on anything before its last n items |
| StatArb.InitialValid | strategies/strategy_stat_arb.py:40-47 | the initial locals satisfy the strategy invariant |
| StatArb.SymbolsDistinct | strategies/strategy_stat_arb.py:12-13 | the two symbols differ |
| StatArb.MakeOrder | strategies/strategy_stat_arb.py:49-57 | the order `send_order` builds (no contract of its own; OrderBookedByBacktester states how the engine books it) |
| StatArb.PairOrders | strategies/strategy_stat_arb.py:68-72 | the two orders of `send_pair_orders`, first leg first (no contract of its own; EntryTransitions and ExitReversesOpenSide state their legs) |
| StatArb.Transition | strategies/strategy_stat_arb.py:142-170 | the position stays in {-1, 0, 1}; orders are sent exactly when it changes; there are none or two |
| StatArb.Update | strategies/strategy_stat_arb.py:122-170 | a statistics update changes only the position |
| StatArb.Record | strategies/strategy_stat_arb.py:91-101 | recording a quote keeps the invariant and leaves position and last update time unchanged |
| StatArb.UpdateDue | strategies/strategy_stat_arb.py:104-115 | the gate: the first update needs 100 mids for each symbol, later ones 60 s of quote time (no contract of its own; UpdateGating states its effect) |
| StatArb.OnQuote | strategies/strategy_stat_arb.py:88-170 | a decoded quote keeps the invariant |
| StatArb.Step | strategies/strategy_stat_arb.py:85-170 | every frame keeps the invariant |
| StatArb.UndecodableFrameIgnored | strategies/strategy_stat_arb.py:183-185 | a frame that does not decode changes nothing and sends nothing |
| StatArb.WrongLengthIgnored | strategies/strategy_stat_arb.py:85 | a frame that is not 40 octets changes nothing |
| StatArb.OtherSymbolIgnored | strategies/strategy_stat_arb.py:88-89 | a quote of another symbol changes nothing and sends nothing |
| StatArb.QuoteRecorded | strategies/strategy_stat_arb.py:91-101 | bid, ask and mid (bid+ask)/2 are stored; the mid joins its own history, which keeps its last 200; the other history is untouched |
| StatArb.RecordStoresQuote | strategies/strategy_stat_arb.py:91-101 | recording stores bid, ask and mid for the quote's symbol and appends the mid to that symbol's history only |
| StatArb.OnQuoteRecords | strategies/strategy_stat_arb.py:91-115 | after a tracked quote the stores and histories are those recording it left, whether or not a statistics update followed |
| StatArb.UpdateGating | strategies/strategy_stat_arb.py:104-115 | the first update waits for 100 mids each, later ones for 60 s of quote time; an update records the timestamp; without one nothing is sent and the position stays |
| StatArb.OrdersIffPositionChanges | strategies/strategy_stat_arb.py:142-170 | after any frame the position is in {-1, 0, 1}, and orders, always two, are sent exactly when it changed |
| StatArb.QuoteOrdersIffPositionChanges | strategies/strategy_stat_arb.py:142-170 | for a decoded quote, the position stays in {-1, 0, 1}, and two orders are sent exactly when it changed |
| StatArb.EntryTransitions | strategies/strategy_stat_arb.py:142-156 | above +2 it shorts the spread (SELL BTC at bid, BUY ETH at ask) unless short; below -2 it goes long (BUY BTC at ask, SELL ETH at bid) unless long |
| StatArb.ExitReversesOpenSide | strategies/strategy_stat_arb.py:158-170 | inside the exit band an open position goes flat with the pair that enters the opposite side |
| StatArb.NoSignalHoldsPosition | strategies/strategy_stat_arb.py:142-170 | with no entry or exit condition met, nothing is sent and the position stays |
| StatArb.OrderBookedByBacktester | strategies/strategy_stat_arb.py:49-57 | an order has exactly the five fields; the backtest engine opens a BUY under its symbol and closes a SELL or finds nothing to close |
| StatArb.ToJson | strategies/strategy_stat_arb.py:51-59 | the JSON object sent for an order (no contract of its own; OrderBookedByBacktester states its five keys and how the engine books it) |
| StatArb.StatArbStrategy.constructor | strategies/strategy_stat_arb.py:39-47 | the locals start as the initial state |
| StatArb.StatArbStrategy.OnMessage | strategies/strategy_stat_arb.py:81-115 | the locals and the orders are those of the step function; the pair result is sent with the orders and is true exactly when both sends went through |
| StatArb.StatArbStrategy.ProcessQuote | strategies/strategy_stat_arb.py:88-170 | a decoded quote changes the locals and sends orders as the quote step says |
| StatArb.StatArbStrategy.RecordQuote | strategies/strategy_stat_arb.py:91-101 | the stores and appends match the recording function |
| StatArb.StatArbStrategy.UpdateStatistics | strategies/strategy_stat_arb.py:122-170 | the position and orders match the statistics update |
| DualEma.InitialValid | strategies/strategy_dual_ema.py:25-28 | the initial globals satisfy the strategy invariant |
| DualEma.UpdateEma | strategies/strategy_dual_ema.py:30-34 | with no previous value the average is the price; otherwise it lies between the previous average and the price |
| DualEma.Blend | strategies/strategy_dual_ema.py:34 | a weighted mean of two values lies between them |
| DualEma.WeightInRange | strategies/strategy_dual_ema.py:33 | the weight 2/(period+1) lies in (0, 1] |
| DualEma.Crossover | strategies/strategy_dual_ema.py:69-77 | a signal fires exactly when the position changes, to 1 for BUY and -1 for SELL; equal averages change nothing |
| DualEma.Live | strategies/strategy_dual_ema.py:65-77 | a live tick sets both averages and changes the position exactly by its signal |
| DualEma.OnQuote | strategies/strategy_dual_ema.py:46-77 | a decoded quote keeps the invariant and changes the position exactly by its signal |
| DualEma.Step | strategies/strategy_dual_ema.py:43-77 | every frame keeps the invariant and changes the position exactly by its signal |
| DualEma.WrongLengthIgnored | strategies/strategy_dual_ema.py:43 | a frame that is not 32 octets changes nothing |
| DualEma.OtherSymbolIgnored | strategies/strategy_dual_ema.py:46-48 | a quote of another symbol changes nothing |
| DualEma.AcceptedMid | strategies/strategy_dual_ema.py:46-50 | the mid (bid + ask) / 2 of a quote of the traded symbol, none otherwise (no contract of its own; QuoteWindow and WindowHoldsMostRecent state its use) |
| DualEma.WarmUpHoldsAverages | strategies/strategy_dual_ema.py:58-60 | while the window holds fewer than 25 mids only the window grows |
| DualEma.FirstLiveTickNoSignal | strategies/strategy_dual_ema.py:65-77 | on the first live tick both averages equal the price and no signal fires |
| DualEma.UndecodableFrameIgnored | strategies/strategy_dual_ema.py:89-91 | a frame that does not decode changes nothing |
| DualEma.QuoteWindow | strategies/strategy_dual_ema.py:50-55 | a quote changes the window exactly by a bounded append of its accepted mid |
| DualEma.Run | strategies/strategy_dual_ema.py:39-79 | a run of quotes keeps the invariant |
| DualEma.WindowHoldsMostRecent | strategies/strategy_dual_ema.py:50-55 | after any run the window holds the last 25 accepted mids in arrival order |
| DualEma.AppendToLast | strategies/strategy_dual_ema.py:53-55 | a bounded append to the last 25 mids gives the last 25 of the history extended by the new mid |
| DualEma.SignalsAlternate | strategies/strategy_dual_ema.py:69-77 | no two consecutive signals are alike, and the position is the side of the last one |
| DualEma.NeverFlatAgain | strategies/strategy_dual_ema.py:69-77 | once the position has left 0 it never returns to it |
| DualEma.DualEmaStrategy.constructor | strategies/strategy_dual_ema.py:25-28 | the globals start as the initial state |
| DualEma.DualEmaStrategy.OnMessage | strategies/strategy_dual_ema.py:40-79 | the globals and the signal are those of the step function |
| DualEma.DualEmaStrategy.ProcessQuote | strategies/strategy_dual_ema.py:46-77 | append then popleft beyond 25 is the bounded append; the globals and signal match the quote step |
| Arb.FirstMinIndex | strategies/strategy_arb.py:113 | the chosen ask is at most every other ask, and every earlier one is strictly higher |
| Arb.FirstMaxIndex | strategies/strategy_arb.py:114 | the chosen bid is at least every other bid, and every earlier one is strictly lower |
| Arb.Detect | strategies/strategy_arb.py:113-125 | an opportunity is reported exactly when some exchange's bid exceeds some exchange's ask; it then buys on the first exchange with the lowest ask at that ask and sells on the first with the highest bid at that bid |
| Arb.DecodeEach | strategies/strategy_arb.py:76-90 | each frame is decoded as a 32-octet quote, in exchange order |
| Arb.Collect | strategies/strategy_arb.py:74-90 | either all frames decoded, or the first failure is reported with every earlier frame decoded |
| Arb.CollectStopsAtFirstError | strategies/strategy_arb.py:74-90 | when every result before position k is good and the one at k failed, collecting reports k and that error |
| Arb.Asks | strategies/strategy_arb.py:100-105 | the ask of each exchange, in order |
| Arb.Bids | strategies/strategy_arb.py:106-111 | the bid of each exchange, in order |
| Arb.Iteration | strategies/strategy_arb.py:73-127 | a pass aborts exactly when some frame does not decode |
| Arb.FirstBadFrameAborts | strategies/strategy_arb.py:126-127 | the first undecodable frame names the exchange the pass aborts on |
| Arb.DecodedPassCompares | strategies/strategy_arb.py:98-125 | when every frame decodes, the report is the comparison of their prices |
| Arb.TieAndCrossedBook | strategies/strategy_arb.py:113-119 | on ties the earlier exchange is chosen; one exchange can be both sides |

## Left out

- Sockets and transport: zmq setup, `RCVTIMEO`, `NOBLOCK`, `SNDTIMEO`, blocking receives and sleeps.
  - A message arrives as a parameter.
  - A send is a parameter that says whether it went through.
- JSON encoding and decoding. The backtest daemon receives an already-parsed value, or nothing
  when nothing arrived or the text was not JSON.
- Clocks: `time.time()` is a parameter `now`. Printing and `time.strftime` are not modelled.
- StatArb.PairOrders: gives both orders of a pair the one time `now`, while each `send_order`
  call reads the clock itself (strategy_stat_arb.py:56), so the two timestamps may differ.
- The two threads of the backtest daemon. The receive and processing loops are steps that any
  scheduler may interleave, each step atomic. A put that finds the queue full is modelled as
  failing at once, although during its 1 s timeout the processing thread could free a slot
  (backtester_core.py:104-112); a get on an empty queue likewise yields nothing at once.
- The Sharpe ratio (backtester_core.py:159-160). It uses a standard deviation and a square root
  over floats.
- IEEE-754 floating point. Prices are reals, so NaN, infinities and rounding are not modelled.
  - Reading a `d` field as a number is a parameter `binary64`.
  - Writing a real as a `d` field is a parameter `toBinary64`.
  - `DataPrep.Round2` rounds a real to cents; numpy's rounding of the binary value can differ
    by one cent.
- The stat-arb z-score (strategy_stat_arb.py:122-137). `polyfit`, `mean` and `std` are numpy
  numerics. The z-score is a parameter taking the two 100-mid histories and the two current mids.
- Random spread sampling, CSV loading and datetime parsing in data_prep.py (27-43). The spread
  sample of each row is a parameter, and a row is its millisecond timestamp, open and close.
- The status lines the strategies print every five seconds (strategy_stat_arb.py:173-175,
  strategy_dual_ema.py:81-84).
- `send_order` of strategy_arb.py (23-40). Its only call sites are commented out, so an arbitrage
  pass sends no orders and its report carries none. It would build the same five-field record as
  the stat-arb `send_order`, which `StatArb.ToJson` models.
- Arb.Iteration: takes the four frames of one pass. After an aborted pass, the frames still
  queued on the later sockets are read in the next pass; that interleaving is not modelled.
- The other files of the repository: the historical-data downloader, the exchange wrappers in
  trade.py, the database and order-book tools, and `strategy.py`.
  - quoting/quote.py is also left out. It packs a third, 24-octet `!ddd` shape with no symbol,
    which the 32-octet decoders on the same port would reject.
  - trading/trade.py and tools/subscriber.py decode exactly as tools/quote_subscriber.py does
    and are covered by `QuoteSubscriber.DecodeQuote`.

## Findings

| source | as written | input that shows it | evidently intended | confidence | as-written member | corrected member |
|---|---|---|---|---|---|---|
| backtesting/sample-test/backtester_core.py:127-132 | after a successful put, the confirmation line subscripts `order_type` and `symbol` inside the same `try`; a `KeyError` there lands in the `except` that logs "Queue full - dropping order" | the JSON text `{}` or `{"price": 1}`, received with room in the queue: it is queued (and later rejected by the engine) but logged as dropped | log "Queue full" only when the put itself failed | not executed | BacktesterCore.QueuedOrderReportedDropped | BacktesterCore.Backtester.ReceiveStep |
