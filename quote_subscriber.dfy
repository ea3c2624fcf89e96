/** The quote subscriber tool: decodes `!dd16s` frames and keeps the symbol's interior bytes. */
module QuoteSubscriber {
  import opened Bytes
  import opened Wrappers
  import Utf8
  import PyStr
  import QuoteWire

  /** `struct.unpack('!dd16s', msg)` then `symbol_bytes.decode().rstrip('\0')`. An error is the
      exception the receive loop catches before it goes on with the next frame. */
  function DecodeQuote(msg: seq<byte>): (r: Result<QuoteWire.Quote, QuoteWire.DecodeError>)
    ensures r.Ok? ==> |msg| == QuoteWire.QuoteFrameSize
    ensures r.Ok? ==> r.value.bid == UnpackDouble(msg[..8]) && r.value.ask == UnpackDouble(msg[8..16])
    ensures r.Ok? <==> |msg| == QuoteWire.QuoteFrameSize && Utf8.Decode(msg[16..]).Some?
    ensures r.Ok? ==> r.value.symbol == PyStr.RStripNul(Utf8.Decode(msg[16..]).value)
  {
    match QuoteWire.UnpackQuote(msg)
    case Err(e) => Err(e)
    case Ok(raw) =>
      match QuoteWire.SymbolRStripNul(raw.symbol)
      case Err(e) => Err(e)
      case Ok(symbol) => Ok(QuoteWire.Quote(raw.bid, raw.ask, symbol))
  }

  /** A symbol of at most 16 UTF-8 octets that does not end in NUL comes back exactly as the
      publisher packed it, bid and ask included. */
  lemma DecodeOfPacked(bid: u64, ask: u64, symbol: string)
    requires |Utf8.Encode(symbol)| <= QuoteWire.SymbolWidth
    requires symbol == [] || symbol[|symbol| - 1] != '\0'
    ensures DecodeQuote(QuoteWire.PackQuote(bid, ask, QuoteWire.LJustNul(Utf8.Encode(symbol), QuoteWire.SymbolWidth)))
         == Ok(QuoteWire.Quote(bid, ask, symbol))
  {
    QuoteWire.UnpackPackQuote(bid, ask, QuoteWire.LJustNul(Utf8.Encode(symbol), QuoteWire.SymbolWidth));
    QuoteWire.RStripNulRoundTrip(symbol);
  }

  /** The two symbol readings part ways on the same field: an interior NUL ends the symbol for
      the strategies, while this tool keeps it and what follows. */
  lemma InteriorNulKept()
    ensures QuoteWire.SymbolRStripNul([0x41, 0, 0x42] + Zeros(13)) == Ok("A\0B")
    ensures QuoteWire.SymbolSplitStrip([0x41, 0, 0x42] + Zeros(13)) == Ok("A")
  {
    var s := "A\0B";
    var f := [0x41, 0, 0x42] + Zeros(13);
    assert QuoteWire.SymbolRStripNul(f) == Ok(s) by {
      assert Utf8.Encode(s) == [0x41, 0, 0x42];
      QuoteWire.RStripNulRoundTrip(s);
      assert QuoteWire.SymbolField(s) == f;
    }
    assert PyStr.BeforeFirstNul(f) == [0x41];
    assert Utf8.Decode([0x41]) == Some("A") by {
      assert Utf8.Encode("A") == [0x41];
      Utf8.DecodeEncode("A");
    }
  }

  /** Octets after the first NUL must still be UTF-8 here, unlike in the strategies' reading. */
  lemma InvalidTailRejected()
    ensures QuoteWire.SymbolRStripNul([0x41, 0, 0xFF] + Zeros(13)).Err?
    ensures QuoteWire.SymbolSplitStrip([0x41, 0, 0xFF] + Zeros(13)) == Ok("A")
  {
    var f := [0x41, 0, 0xFF] + Zeros(13);
    assert Utf8.Decode(f[2..]) == None;
    Utf8.DecodeFailsAfterAscii(f, 2);
    assert PyStr.BeforeFirstNul(f) == [0x41];
    assert Utf8.Encode("A") == [0x41];
    Utf8.DecodeEncode("A");
  }

  /** Surrounding whitespace survives here, while the strategies strip it. */
  lemma WhitespaceKept()
    ensures QuoteWire.SymbolRStripNul([0x20, 0x41] + Zeros(14)) == Ok(" A")
    ensures QuoteWire.SymbolSplitStrip([0x20, 0x41] + Zeros(14)) == Ok("A")
  {
    var s := " A";
    var f := [0x20, 0x41] + Zeros(14);
    assert Utf8.Encode(s) == [0x20, 0x41];
    assert QuoteWire.SymbolRStripNul(f) == Ok(s) by {
      QuoteWire.RStripNulRoundTrip(s);
      assert QuoteWire.SymbolField(s) == f;
    }
    assert Utf8.Decode(PyStr.BeforeFirstNul(f)) == Some(s) by {
      QuoteWire.BeforeFirstNulOfPadded([0x20, 0x41], 14);
      Utf8.DecodeEncode(s);
    }
    assert PyStr.IsSpace(s[0]) && s[1..] == "A";
    assert !PyStr.IsSpace('A');
  }
}
