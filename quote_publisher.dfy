/** The Crypto.com BTC/USDT quote publisher: one ticker poll becomes one `!dd16s` frame. */
module QuotePublisher {
  import opened Bytes
  import opened Wrappers
  import Utf8
  import QuoteWire
  import PyStr

  const Symbol: string := "BTC/USDT"

  /** The part of `fetch_ticker`'s answer the publisher reads. A price the exchange did not
      report is None; a reported price is the bit pattern of its float. */
  datatype Ticker = Ticker(bid: Option<u64>, ask: Option<u64>, last: Option<u64>)

  /** `struct.pack('!dd16s', bid, ask, symbol.encode().ljust(16, b'\0'))`. */
  function EncodeQuote(bid: u64, ask: u64, symbol: string): (msg: seq<byte>)
    ensures |msg| == QuoteWire.QuoteFrameSize
    ensures msg[..8] == PackDouble(bid) && msg[8..16] == PackDouble(ask)
    ensures msg[16..] == QuoteWire.SymbolField(symbol)
  {
    QuoteWire.PackQuote(bid, ask, QuoteWire.LJustNul(Utf8.Encode(symbol), QuoteWire.SymbolWidth))
  }

  /**
   * One pass of the publishing loop: the frame handed to the socket, or None when the poll
   * raised (`fetched` is None) or packing raised because a price was missing. `now` is the
   * `time.time()` the loop records and never sends.
   */
  function PublishIteration(fetched: Option<Ticker>, now: real): (msg: Option<seq<byte>>)
    ensures msg.Some? <==> fetched.Some? && fetched.value.bid.Some? && fetched.value.ask.Some?
    ensures msg.Some? ==>
              QuoteWire.UnpackQuote(msg.value)
              == Ok(QuoteWire.RawQuote(fetched.value.bid.value, fetched.value.ask.value, QuoteWire.SymbolField(Symbol)))
  {
    match fetched
    case None => None
    case Some(t) =>
      if t.bid.None? || t.ask.None? then None
      else
        var msg := EncodeQuote(t.bid.value, t.ask.value, Symbol);
        QuoteWire.UnpackPackQuote(t.bid.value, t.ask.value, QuoteWire.LJustNul(Utf8.Encode(Symbol), QuoteWire.SymbolWidth));
        Some(msg)
  }

  /** The last trade price and the local timestamp are gathered but never transmitted. */
  lemma LastAndTimestampNotSent(t1: Ticker, t2: Ticker, now1: real, now2: real)
    requires t1.bid == t2.bid && t1.ask == t2.ask
    ensures PublishIteration(Some(t1), now1) == PublishIteration(Some(t2), now2)
  {
  }

  /** 'BTC/USDT' is eight ASCII octets followed by eight NULs in the frame. */
  lemma SymbolFieldOfBtcUsdt()
    ensures QuoteWire.SymbolField(Symbol) == [0x42, 0x54, 0x43, 0x2F, 0x55, 0x53, 0x44, 0x54] + Zeros(8)
  {
    SymbolOctets();
  }

  /** 'BTC/USDT' is ASCII, one octet per character. */
  lemma SymbolOctets()
    ensures Utf8.Encode(Symbol) == [0x42, 0x54, 0x43, 0x2F, 0x55, 0x53, 0x44, 0x54]
  {
    Utf8.EncodeAscii(Symbol);
  }

  /** A symbol longer than 16 UTF-8 octets is cut to its first 16 octets. */
  lemma LongSymbolTruncated(bid: u64, ask: u64, symbol: string)
    requires |Utf8.Encode(symbol)| > QuoteWire.SymbolWidth
    ensures EncodeQuote(bid, ask, symbol)[16..] == Utf8.Encode(symbol)[..16]
  {
  }

  /** Cutting at 16 octets can split a multi-octet character, and the strategies' decoder then
      rejects the frame: fifteen ASCII characters followed by any two-octet character
      (such as 'é') do not survive. */
  lemma TruncationCanBreakUtf8(bid: u64, ask: u64, prefix: string, c: char)
    requires |prefix| == 15 && forall i :: 0 <= i < 15 ==> 0 < prefix[i] as int < 0x80
    requires 0x80 <= c as int < 0x800
    ensures QuoteWire.DecodeQuote(EncodeQuote(bid, ask, prefix + [c])).Err?
  {
    var s := prefix + [c];
    var field := QuoteWire.SymbolField(s);
    TruncatedField(prefix, c);
    LoneLeadOctetFails(field);
    QuoteWire.UnpackPackQuote(bid, ask, QuoteWire.LJustNul(Utf8.Encode(s), QuoteWire.SymbolWidth));
  }

  /** The field written for fifteen ASCII characters and a two-octet character holds the fifteen
      ASCII octets and then only the leading octet of that character. */
  lemma {:induction false} TruncatedField(prefix: string, c: char)
    requires |prefix| == 15 && forall i :: 0 <= i < 15 ==> 0 < prefix[i] as int < 0x80
    requires 0x80 <= c as int < 0x800
    ensures var field := QuoteWire.SymbolField(prefix + [c]);
            && (forall i :: 0 <= i < 15 ==> 0 < field[i] < 0x80)
            && 0xC0 <= field[15] < 0xE0
  {
    var s := prefix + [c];
    Utf8.EncodeAscii(prefix);
    Utf8.EncodeAppend(prefix, [c]);
    var e := Utf8.Encode(s);
    assert e == Utf8.Encode(prefix) + Utf8.EncodeChar(c);
    var field := QuoteWire.SymbolField(s);
    assert field == e[..16];
    assert forall i :: 0 <= i < 15 ==> field[i] == prefix[i] as int;
  }

  /** Fifteen non-NUL ASCII octets followed by a lone leading octet of a two-octet sequence are
      not UTF-8, so the split-and-strip reading rejects the field. */
  lemma LoneLeadOctetFails(field: seq<byte>)
    requires |field| == QuoteWire.SymbolWidth
    requires forall i :: 0 <= i < 15 ==> 0 < field[i] < 0x80
    requires 0xC0 <= field[15] < 0xE0
    ensures QuoteWire.SymbolSplitStrip(field).Err?
  {
    assert field + Zeros(0) == field;
    QuoteWire.BeforeFirstNulOfPadded(field, 0);
    assert field[15..] == [field[15]];
    Utf8.DecodeFailsAfterAscii(field, 15);
  }

  /** What the publisher sends, the strategies read back: bid, ask and 'BTC/USDT'. */
  lemma PublishedQuoteDecodes(t: Ticker, now: real)
    requires t.bid.Some? && t.ask.Some?
    ensures QuoteWire.DecodeQuote(PublishIteration(Some(t), now).value)
         == Ok(QuoteWire.Quote(t.bid.value, t.ask.value, Symbol))
  {
    SymbolReadsBack();
    var msg := QuoteWire.PackQuote(t.bid.value, t.ask.value, QuoteWire.LJustNul(Utf8.Encode(Symbol), QuoteWire.SymbolWidth));
    assert PublishIteration(Some(t), now).value == msg;
    QuoteWire.DecodeQuoteOfPacked(t.bid.value, t.ask.value, Symbol);
  }

  /** 'BTC/USDT' fits the field, holds no NUL and has no surrounding whitespace, so the
      strategies' reading gives it back. */
  lemma SymbolReadsBack()
    ensures |Utf8.Encode(Symbol)| <= QuoteWire.SymbolWidth && QuoteWire.NoNul(Symbol)
    ensures !PyStr.IsSpace(Symbol[0]) && !PyStr.IsSpace(Symbol[|Symbol| - 1])
  {
    SymbolOctets();
  }
}
