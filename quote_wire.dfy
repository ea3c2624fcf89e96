/**
 * The two binary quote frames of the pipeline, both in network (big-endian) order:
 *   `!dd16s`  — bid, ask, symbol               (32 octets)
 *   `!ddd16s` — bid, ask, timestamp, symbol    (40 octets)
 * and the two ways consumers turn the 16-octet symbol field back into text.
 */
module QuoteWire {
  import opened Bytes
  import opened Wrappers
  import Utf8
  import PyStr

  const SymbolWidth: nat := 16
  const QuoteFrameSize: nat := 32
  const TimedQuoteFrameSize: nat := 40

  /** `struct.error` for a frame of the wrong size, `UnicodeDecodeError` for the symbol. */
  datatype DecodeError = WrongLength(expected: nat, actual: nat) | BadUtf8

  /** The fields `struct.unpack('!dd16s', …)` yields. */
  datatype RawQuote = RawQuote(bid: u64, ask: u64, symbol: seq<byte>)

  /** The fields `struct.unpack('!ddd16s', …)` yields. */
  datatype RawTimedQuote = RawTimedQuote(bid: u64, ask: u64, ts: u64, symbol: seq<byte>)

  /** `b.ljust(width, b'\0')`: pads with NULs, never shortens. */
  function LJustNul(b: seq<byte>, width: nat): (r: seq<byte>)
    ensures |r| == if |b| >= width then |b| else width
    ensures r[..|b|] == b
    ensures forall i :: |b| <= i < |r| ==> r[i] == 0
  {
    if |b| >= width then b else b + Zeros(width - |b|)
  }

  /** What the `16s` format writes for a bytes argument: the first 16 octets, NUL-padded
      when there are fewer. */
  function PackString16(b: seq<byte>): (r: seq<byte>)
    ensures |r| == SymbolWidth
    ensures |b| >= SymbolWidth ==> r == b[..SymbolWidth]
    ensures |b| < SymbolWidth ==> r[..|b|] == b && forall i :: |b| <= i < SymbolWidth ==> r[i] == 0
  {
    if |b| >= SymbolWidth then b[..SymbolWidth] else b + Zeros(SymbolWidth - |b|)
  }

  /** The symbol field every publisher writes: `symbol.encode().ljust(16, b'\0')` packed as `16s`.
      A symbol of at most 16 UTF-8 octets is NUL-padded; a longer one is cut to 16 octets. */
  function SymbolField(symbol: string): (r: seq<byte>)
    ensures |r| == SymbolWidth
    ensures var e := Utf8.Encode(symbol);
            if |e| <= SymbolWidth then r == e + Zeros(SymbolWidth - |e|) else r == e[..SymbolWidth]
  {
    var e := Utf8.Encode(symbol);
    var padded := LJustNul(e, SymbolWidth);
    assert |e| <= SymbolWidth ==> padded == e + Zeros(SymbolWidth - |e|);
    PackString16(padded)
  }

  /** `struct.pack('!dd16s', bid, ask, symbol)`. */
  function PackQuote(bid: u64, ask: u64, symbol: seq<byte>): (r: seq<byte>)
    ensures |r| == QuoteFrameSize
    ensures r[..8] == PackDouble(bid) && r[8..16] == PackDouble(ask) && r[16..] == PackString16(symbol)
  {
    PackDouble(bid) + PackDouble(ask) + PackString16(symbol)
  }

  /** `struct.unpack('!dd16s', msg)`: only a frame of exactly 32 octets unpacks. */
  function UnpackQuote(msg: seq<byte>): (r: Result<RawQuote, DecodeError>)
    ensures r.Ok? <==> |msg| == QuoteFrameSize
    ensures r.Ok? ==> |r.value.symbol| == SymbolWidth
  {
    if |msg| != QuoteFrameSize then Err(WrongLength(QuoteFrameSize, |msg|))
    else Ok(RawQuote(UnpackDouble(msg[..8]), UnpackDouble(msg[8..16]), msg[16..]))
  }

  /** `struct.pack('!ddd16s', bid, ask, ts, symbol)`. */
  function PackTimedQuote(bid: u64, ask: u64, ts: u64, symbol: seq<byte>): (r: seq<byte>)
    ensures |r| == TimedQuoteFrameSize
    ensures r[..8] == PackDouble(bid) && r[8..16] == PackDouble(ask) && r[16..24] == PackDouble(ts)
    ensures r[24..] == PackString16(symbol)
  {
    PackDouble(bid) + PackDouble(ask) + PackDouble(ts) + PackString16(symbol)
  }

  /** `struct.unpack('!ddd16s', msg)`: only a frame of exactly 40 octets unpacks. */
  function UnpackTimedQuote(msg: seq<byte>): (r: Result<RawTimedQuote, DecodeError>)
    ensures r.Ok? <==> |msg| == TimedQuoteFrameSize
    ensures r.Ok? ==> |r.value.symbol| == SymbolWidth
  {
    if |msg| != TimedQuoteFrameSize then Err(WrongLength(TimedQuoteFrameSize, |msg|))
    else Ok(RawTimedQuote(UnpackDouble(msg[..8]), UnpackDouble(msg[8..16]), UnpackDouble(msg[16..24]), msg[24..]))
  }

  lemma UnpackPackQuote(bid: u64, ask: u64, symbol: seq<byte>)
    ensures UnpackQuote(PackQuote(bid, ask, symbol)) == Ok(RawQuote(bid, ask, PackString16(symbol)))
  {
    UnpackPackDouble(bid);
    UnpackPackDouble(ask);
  }

  /** Every 32-octet frame is the packing of what it unpacks to: the layout loses nothing. */
  lemma PackUnpackQuote(msg: seq<byte>)
    requires |msg| == QuoteFrameSize
    ensures var q := UnpackQuote(msg).value; PackQuote(q.bid, q.ask, q.symbol) == msg
  {
    PackUnpackDouble(msg[..8]);
    PackUnpackDouble(msg[8..16]);
    assert msg == msg[..8] + msg[8..16] + msg[16..];
  }

  lemma UnpackPackTimedQuote(bid: u64, ask: u64, ts: u64, symbol: seq<byte>)
    ensures UnpackTimedQuote(PackTimedQuote(bid, ask, ts, symbol))
         == Ok(RawTimedQuote(bid, ask, ts, PackString16(symbol)))
  {
    UnpackPackDouble(bid);
    UnpackPackDouble(ask);
    UnpackPackDouble(ts);
  }

  lemma PackUnpackTimedQuote(msg: seq<byte>)
    requires |msg| == TimedQuoteFrameSize
    ensures var q := UnpackTimedQuote(msg).value; PackTimedQuote(q.bid, q.ask, q.ts, q.symbol) == msg
  {
    PackUnpackDouble(msg[..8]);
    PackUnpackDouble(msg[8..16]);
    PackUnpackDouble(msg[16..24]);
    assert msg == msg[..8] + msg[8..16] + msg[16..24] + msg[24..];
  }

  /** `field.split(b'\0', 1)[0].decode().strip()`, the strategies' reading of the symbol:
      octets after the first NUL are ignored, even ones that are not UTF-8. */
  function SymbolSplitStrip(field: seq<byte>): (r: Result<string, DecodeError>)
    ensures r.Err? ==> r.error == BadUtf8
    ensures r.Ok? ==> r.value == [] || (!PyStr.IsSpace(r.value[0]) && !PyStr.IsSpace(r.value[|r.value| - 1]))
  {
    match Utf8.Decode(PyStr.BeforeFirstNul(field))
    case None => Err(BadUtf8)
    case Some(s) => Ok(PyStr.Strip(s))
  }

  /** `field.decode().rstrip('\0')`, the subscriber tool's reading of the symbol: all 16 octets
      must be UTF-8, and only trailing NULs are removed. */
  function SymbolRStripNul(field: seq<byte>): (r: Result<string, DecodeError>)
    ensures r.Err? ==> r.error == BadUtf8
    ensures r.Ok? ==> r.value == [] || r.value[|r.value| - 1] != '\0'
  {
    match Utf8.Decode(field)
    case None => Err(BadUtf8)
    case Some(s) => Ok(PyStr.RStripNul(s))
  }

  predicate NoNul(s: string) {
    forall i :: 0 <= i < |s| ==> s[i] != '\0'
  }

  lemma {:induction false} BeforeFirstNulOfPadded(e: seq<byte>, k: nat)
    requires forall i :: 0 <= i < |e| ==> e[i] != 0
    ensures PyStr.BeforeFirstNul(e + Zeros(k)) == e
  {
    if e == [] {
      assert e + Zeros(k) == Zeros(k);
    } else {
      assert (e + Zeros(k))[1..] == e[1..] + Zeros(k);
      BeforeFirstNulOfPadded(e[1..], k);
    }
  }

  /** A symbol of at most 16 UTF-8 octets, with no NUL and no surrounding whitespace, comes
      back unchanged from the split-at-NUL reading of the field a publisher writes. */
  lemma SplitStripRoundTrip(symbol: string)
    requires |Utf8.Encode(symbol)| <= SymbolWidth
    requires NoNul(symbol)
    requires symbol == [] || (!PyStr.IsSpace(symbol[0]) && !PyStr.IsSpace(symbol[|symbol| - 1]))
    ensures SymbolSplitStrip(SymbolField(symbol)) == Ok(symbol)
  {
    var e := Utf8.Encode(symbol);
    var field := SymbolField(symbol);
    assert PyStr.BeforeFirstNul(field) == e by {
      Utf8.EncodeHasNoZero(symbol);
      BeforeFirstNulOfPadded(e, SymbolWidth - |e|);
    }
    assert Utf8.Decode(e) == Some(symbol) by {
      Utf8.DecodeEncode(symbol);
    }
    PyStr.StripUnpadded(symbol);
  }

  /** A symbol of at most 16 UTF-8 octets that does not end in NUL comes back unchanged from
      the rstrip reading; interior NULs and whitespace survive. */
  lemma RStripNulRoundTrip(symbol: string)
    requires |Utf8.Encode(symbol)| <= SymbolWidth
    requires symbol == [] || symbol[|symbol| - 1] != '\0'
    ensures SymbolRStripNul(SymbolField(symbol)) == Ok(symbol)
  {
    var e := Utf8.Encode(symbol);
    var n := SymbolWidth - |e|;
    var nuls := seq(n, _ => '\0');
    var field := SymbolField(symbol);
    assert field == Utf8.Encode(symbol + nuls) by {
      Utf8.EncodeNuls(n);
      Utf8.EncodeAppend(symbol, nuls);
    }
    assert Utf8.Decode(field) == Some(symbol + nuls) by {
      Utf8.DecodeEncode(symbol + nuls);
    }
    PyStr.RStripNulOfPadded(symbol, n);
  }

  /** A 32-octet quote with its symbol read back as text. */
  datatype Quote = Quote(bid: u64, ask: u64, symbol: string)

  /** A 40-octet quote with its symbol read back as text. */
  datatype TimedQuote = TimedQuote(bid: u64, ask: u64, ts: u64, symbol: string)

  /** `struct.unpack('!dd16s', msg)` followed by the split-at-NUL reading of the symbol, as the
      dual-EMA and cross-exchange strategies decode every quote. */
  function DecodeQuote(msg: seq<byte>): (r: Result<Quote, DecodeError>)
    ensures |msg| != QuoteFrameSize ==> r == Err(WrongLength(QuoteFrameSize, |msg|))
    ensures r.Ok? <==> |msg| == QuoteFrameSize && SymbolSplitStrip(msg[16..]).Ok?
    ensures r.Ok? ==> var raw := UnpackQuote(msg).value;
                      r.value.bid == raw.bid && r.value.ask == raw.ask
                      && Ok(r.value.symbol) == SymbolSplitStrip(raw.symbol)
  {
    match UnpackQuote(msg)
    case Err(e) => Err(e)
    case Ok(raw) =>
      match SymbolSplitStrip(raw.symbol)
      case Err(e) => Err(e)
      case Ok(symbol) => Ok(Quote(raw.bid, raw.ask, symbol))
  }

  /** `struct.unpack('!ddd16s', msg)` followed by the split-at-NUL reading of the symbol, as the
      statistical-arbitrage strategy decodes every quote. */
  function DecodeTimedQuote(msg: seq<byte>): (r: Result<TimedQuote, DecodeError>)
    ensures |msg| != TimedQuoteFrameSize ==> r == Err(WrongLength(TimedQuoteFrameSize, |msg|))
    ensures r.Ok? <==> |msg| == TimedQuoteFrameSize && SymbolSplitStrip(msg[24..]).Ok?
    ensures r.Ok? ==> var raw := UnpackTimedQuote(msg).value;
                      r.value.bid == raw.bid && r.value.ask == raw.ask && r.value.ts == raw.ts
                      && Ok(r.value.symbol) == SymbolSplitStrip(raw.symbol)
  {
    match UnpackTimedQuote(msg)
    case Err(e) => Err(e)
    case Ok(raw) =>
      match SymbolSplitStrip(raw.symbol)
      case Err(e) => Err(e)
      case Ok(symbol) => Ok(TimedQuote(raw.bid, raw.ask, raw.ts, symbol))
  }

  /** The frame a publisher sends decodes, in a strategy, to what was published. */
  lemma DecodeQuoteOfPacked(bid: u64, ask: u64, symbol: string)
    requires |Utf8.Encode(symbol)| <= SymbolWidth && NoNul(symbol)
    requires symbol == [] || (!PyStr.IsSpace(symbol[0]) && !PyStr.IsSpace(symbol[|symbol| - 1]))
    ensures DecodeQuote(PackQuote(bid, ask, LJustNul(Utf8.Encode(symbol), SymbolWidth)))
         == Ok(Quote(bid, ask, symbol))
  {
    UnpackPackQuote(bid, ask, LJustNul(Utf8.Encode(symbol), SymbolWidth));
    SplitStripRoundTrip(symbol);
  }

  lemma DecodeTimedQuoteOfPacked(bid: u64, ask: u64, ts: u64, symbol: string)
    requires |Utf8.Encode(symbol)| <= SymbolWidth && NoNul(symbol)
    requires symbol == [] || (!PyStr.IsSpace(symbol[0]) && !PyStr.IsSpace(symbol[|symbol| - 1]))
    ensures DecodeTimedQuote(PackTimedQuote(bid, ask, ts, LJustNul(Utf8.Encode(symbol), SymbolWidth)))
         == Ok(TimedQuote(bid, ask, ts, symbol))
  {
    UnpackPackTimedQuote(bid, ask, ts, LJustNul(Utf8.Encode(symbol), SymbolWidth));
    SplitStripRoundTrip(symbol);
  }
}
