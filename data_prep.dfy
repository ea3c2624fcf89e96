/**
 * Backtest replay data: each one-minute candle gets a synthetic bid and ask placed
 * symmetrically around its mid price, and is sent as one `!ddd16s` frame.
 */
module DataPrep {
  import opened Bytes
  import opened Wrappers
  import Utf8
  import PyStr
  import QuoteWire

  const ReplaySymbol: string := "BTC/USD"

  /** One row of the candle file: its millisecond timestamp and its open and close prices. */
  datatype Candle = Candle(timestampMs: int, open: real, close: real)

  /** The synthetic quote of one row, rounded to cents. */
  datatype SynthQuote = SynthQuote(bid: real, ask: real)

  function Mid(c: Candle): real {
    (c.open + c.close) / 2.0
  }

  /** `np.clip(sample, 0, None)`: a negative spread sample becomes zero. */
  function ClipSpread(sample: real): (r: real)
    ensures r >= 0.0
    ensures sample >= 0.0 ==> r == sample
  {
    if sample < 0.0 then 0.0 else sample
  }

  /** Half the spread: the mid times the clipped spread fraction, halved. It is never negative
      for a non-negative mid. */
  function HalfSpread(mid: real, spreadSample: real): (h: real)
    ensures mid >= 0.0 ==> h >= 0.0
  {
    mid * ClipSpread(spreadSample) / 2.0
  }

  /** The integer nearest to `y`, ties to the even one (numpy's `rint`). */
  function RoundHalfEven(y: real): (n: int)
    ensures n as real - 0.5 <= y <= n as real + 0.5
  {
    var f := y.Floor;
    var d := y - f as real;
    if d < 0.5 then f
    else if d > 0.5 then f + 1
    else if f % 2 == 0 then f else f + 1
  }

  /** `Series.round(2)`, over the reals: to the nearest cent, ties to the even cent. */
  function Round2(x: real): (r: real)
    ensures x - 0.005 <= r <= x + 0.005
  {
    RoundHalfEven(x * 100.0) as real / 100.0
  }

  lemma RoundHalfEvenMonotone(x: real, y: real)
    requires x <= y
    ensures RoundHalfEven(x) <= RoundHalfEven(y)
  {
    var fx, fy := x.Floor, y.Floor;
    assert fx <= fy;
    if fx < fy {
      assert RoundHalfEven(x) <= fx + 1 <= fy <= RoundHalfEven(y);
    }
  }

  /** Rounding to cents never reverses the order of two prices. */
  lemma Round2Monotone(x: real, y: real)
    requires x <= y
    ensures Round2(x) <= Round2(y)
  {
    RoundHalfEvenMonotone(x * 100.0, y * 100.0);
  }

  /** The bid and ask of one row: mid minus and plus half the clipped spread, rounded. */
  function Synthesize(c: Candle, spreadSample: real): SynthQuote {
    var mid := Mid(c);
    var half := HalfSpread(mid, spreadSample);
    SynthQuote(Round2(mid - half), Round2(mid + half))
  }

  /** The bid and ask are within half a cent of the mid minus and plus half the clipped spread,
      so their mean is within half a cent of the mid. */
  lemma SynthesizedAroundMid(c: Candle, spreadSample: real)
    ensures var half := Mid(c) * ClipSpread(spreadSample) / 2.0;
            var q := Synthesize(c, spreadSample);
            && Mid(c) - half - 0.005 <= q.bid <= Mid(c) - half + 0.005
            && Mid(c) + half - 0.005 <= q.ask <= Mid(c) + half + 0.005
    ensures var q := Synthesize(c, spreadSample); Mid(c) - 0.005 <= (q.bid + q.ask) / 2.0 <= Mid(c) + 0.005
  {
  }

  /** For a non-negative mid the half spread is non-negative, so the bid never exceeds the ask,
      before rounding and after. */
  lemma BidNotAboveAsk(c: Candle, spreadSample: real)
    requires Mid(c) >= 0.0
    ensures HalfSpread(Mid(c), spreadSample) >= 0.0
    ensures Synthesize(c, spreadSample).bid <= Synthesize(c, spreadSample).ask
  {
    var mid := Mid(c);
    var half := HalfSpread(mid, spreadSample);
    Round2Monotone(mid - half, mid + half);
  }

  /** `idx.timestamp()` of the row index built with `pd.to_datetime(…, unit="ms")`: seconds. */
  function TimestampSeconds(c: Candle): real {
    c.timestampMs as real / 1000.0
  }

  /** The frame sent for one row. `toBinary64` is the rounding of a real to the bit pattern of
      the nearest double, which the model leaves abstract. */
  function ReplayFrame(c: Candle, spreadSample: real, toBinary64: real -> u64): seq<byte> {
    var q := Synthesize(c, spreadSample);
    QuoteWire.PackTimedQuote(toBinary64(q.bid), toBinary64(q.ask), toBinary64(TimestampSeconds(c)),
                             QuoteWire.LJustNul(Utf8.Encode(ReplaySymbol), QuoteWire.SymbolWidth))
  }

  /** Every replayed frame is 40 octets laid out bid, ask, timestamp, and "BTC/USD" followed by
      nine NULs; the statistical-arbitrage decoder reads it back as sent. */
  lemma ReplayFrameLayout(c: Candle, spreadSample: real, toBinary64: real -> u64)
    ensures var q := Synthesize(c, spreadSample);
            var bid, ask, ts := toBinary64(q.bid), toBinary64(q.ask), toBinary64(TimestampSeconds(c));
            && |ReplayFrame(c, spreadSample, toBinary64)| == QuoteWire.TimedQuoteFrameSize
            && QuoteWire.UnpackTimedQuote(ReplayFrame(c, spreadSample, toBinary64))
               == Ok(QuoteWire.RawTimedQuote(bid, ask, ts, ReplaySymbolField()))
            && QuoteWire.DecodeTimedQuote(ReplayFrame(c, spreadSample, toBinary64))
               == Ok(QuoteWire.TimedQuote(bid, ask, ts, ReplaySymbol))
  {
    var q := Synthesize(c, spreadSample);
    PackedReplayQuote(toBinary64(q.bid), toBinary64(q.ask), toBinary64(TimestampSeconds(c)));
  }

  /** "BTC/USD" and nine NUL octets. */
  function ReplaySymbolField(): seq<byte> {
    [0x42, 0x54, 0x43, 0x2F, 0x55, 0x53, 0x44] + Zeros(9)
  }

  lemma PackedReplayQuote(bid: u64, ask: u64, ts: u64)
    ensures var msg := QuoteWire.PackTimedQuote(bid, ask, ts,
                         QuoteWire.LJustNul(Utf8.Encode(ReplaySymbol), QuoteWire.SymbolWidth));
            && QuoteWire.UnpackTimedQuote(msg) == Ok(QuoteWire.RawTimedQuote(bid, ask, ts, ReplaySymbolField()))
            && QuoteWire.DecodeTimedQuote(msg) == Ok(QuoteWire.TimedQuote(bid, ask, ts, ReplaySymbol))
  {
    var e := Utf8.Encode(ReplaySymbol);
    ReplaySymbolEncoding();
    assert QuoteWire.PackString16(ReplaySymbolField()) == ReplaySymbolField()[..16] == ReplaySymbolField();
    QuoteWire.UnpackPackTimedQuote(bid, ask, ts, QuoteWire.LJustNul(e, QuoteWire.SymbolWidth));
    QuoteWire.DecodeTimedQuoteOfPacked(bid, ask, ts, ReplaySymbol);
  }

  lemma ReplaySymbolEncoding()
    ensures Utf8.Encode(ReplaySymbol) == [0x42, 0x54, 0x43, 0x2F, 0x55, 0x53, 0x44]
    ensures QuoteWire.LJustNul(Utf8.Encode(ReplaySymbol), QuoteWire.SymbolWidth) == ReplaySymbolField()
    ensures QuoteWire.NoNul(ReplaySymbol)
    ensures !PyStr.IsSpace(ReplaySymbol[0]) && !PyStr.IsSpace(ReplaySymbol[|ReplaySymbol| - 1])
  {
    ReplaySymbolOctets();
    var e := Utf8.Encode(ReplaySymbol);
    assert QuoteWire.LJustNul(e, QuoteWire.SymbolWidth) == e + Zeros(9);
  }

  /** "BTC/USD" is ASCII, one octet per character. */
  lemma ReplaySymbolOctets()
    ensures Utf8.Encode(ReplaySymbol) == [0x42, 0x54, 0x43, 0x2F, 0x55, 0x53, 0x44]
  {
    Utf8.EncodeAscii(ReplaySymbol);
  }

  /**
   * The replay loop: one frame per row, in row order. `spreadSamples` are the values drawn
   * from the normal distribution, one per row.
   */
  method Replay(rows: seq<Candle>, spreadSamples: seq<real>, toBinary64: real -> u64)
    returns (sent: seq<seq<byte>>)
    requires |spreadSamples| == |rows|
    ensures |sent| == |rows|
    ensures forall i :: 0 <= i < |rows| ==> sent[i] == ReplayFrame(rows[i], spreadSamples[i], toBinary64)
    ensures forall i :: 0 <= i < |rows| ==> |sent[i]| == QuoteWire.TimedQuoteFrameSize
  {
    sent := [];
    for i := 0 to |rows|
      invariant |sent| == i
      invariant forall j :: 0 <= j < i ==> sent[j] == ReplayFrame(rows[j], spreadSamples[j], toBinary64)
    {
      var q := Synthesize(rows[i], spreadSamples[i]);
      var bid := toBinary64(q.bid);
      var ask := toBinary64(q.ask);
      var ts := toBinary64(TimestampSeconds(rows[i]));
      var msg := QuoteWire.PackTimedQuote(bid, ask, ts,
                   QuoteWire.LJustNul(Utf8.Encode(ReplaySymbol), QuoteWire.SymbolWidth));
      sent := sent + [msg];
    }
  }
}
