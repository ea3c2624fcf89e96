/**
 * The cross-exchange arbitrage detector: each pass reads one BTC/USD quote from each of four
 * exchanges, picks the exchange with the lowest ask and the one with the highest bid, and
 * reports an opportunity when that bid exceeds that ask. It sends no orders.
 */
module Arb {
  import opened Bytes
  import opened Wrappers
  import QuoteWire

  datatype Exchange = Binance | Cryptocoms | Kraken | Kucoin

  /** The order the quotes are received in, which is also the order of the `asks` and `bids`
      dicts. */
  const Exchanges: seq<Exchange> := [Binance, Cryptocoms, Kraken, Kucoin]

  /** What one pass prints: an opportunity, none, or the error that aborted the pass at the
      frame of `exchange`. */
  datatype Report =
    | Opportunity(buyOn: Exchange, ask: real, sellOn: Exchange, bid: real)
    | NoOpportunity
    | Aborted(exchange: Exchange, error: QuoteWire.DecodeError)

  /** `min(d, key=d.get)`: the position of the smallest value, the first one on a tie. */
  function FirstMinIndex(xs: seq<real>): (i: nat)
    requires xs != []
    ensures i < |xs|
    ensures forall j :: 0 <= j < |xs| ==> xs[i] <= xs[j]
    ensures forall j :: 0 <= j < i ==> xs[j] > xs[i]
    decreases |xs|
  {
    if |xs| == 1 then 0
    else
      var i := FirstMinIndex(xs[..|xs| - 1]);
      if xs[|xs| - 1] < xs[i] then |xs| - 1 else i
  }

  /** `max(d, key=d.get)`: the position of the largest value, the first one on a tie. */
  function FirstMaxIndex(xs: seq<real>): (i: nat)
    requires xs != []
    ensures i < |xs|
    ensures forall j :: 0 <= j < |xs| ==> xs[i] >= xs[j]
    ensures forall j :: 0 <= j < i ==> xs[j] < xs[i]
    decreases |xs|
  {
    if |xs| == 1 then 0
    else
      var i := FirstMaxIndex(xs[..|xs| - 1]);
      if xs[|xs| - 1] > xs[i] then |xs| - 1 else i
  }

  /** The comparison: buy where the ask is lowest, sell where the bid is highest, when that bid
      is above that ask. An opportunity exists exactly when some exchange bids above what some
      exchange asks. */
  function Detect(bids: seq<real>, asks: seq<real>): (r: Report)
    requires |bids| == |asks| == |Exchanges|
    ensures !r.Aborted?
    ensures r.Opportunity? <==> exists i, j :: 0 <= i < |bids| && 0 <= j < |asks| && bids[i] > asks[j]
    ensures r.Opportunity? ==>
              && r.bid > r.ask
              && (forall j :: 0 <= j < |asks| ==> r.ask <= asks[j])
              && (forall i :: 0 <= i < |bids| ==> r.bid >= bids[i])
    ensures r.Opportunity? ==>
              && r.buyOn == Exchanges[FirstMinIndex(asks)] && r.ask == asks[FirstMinIndex(asks)]
              && r.sellOn == Exchanges[FirstMaxIndex(bids)] && r.bid == bids[FirstMaxIndex(bids)]
  {
    var a := FirstMinIndex(asks);
    var b := FirstMaxIndex(bids);
    if bids[b] > asks[a] then Opportunity(Exchanges[a], asks[a], Exchanges[b], bids[b])
    else NoOpportunity
  }

  /** Each frame decoded as `struct.unpack('!dd16s', …)` and the split-and-strip symbol
      reading. */
  function DecodeEach(frames: seq<seq<byte>>): (r: seq<Result<QuoteWire.Quote, QuoteWire.DecodeError>>)
    ensures |r| == |frames| && forall i :: 0 <= i < |frames| ==> r[i] == QuoteWire.DecodeQuote(frames[i])
  {
    seq(|frames|, i requires 0 <= i < |frames| => QuoteWire.DecodeQuote(frames[i]))
  }

  /** Taking the decoded frames in order; the first that failed stops the pass, giving its
      position and error. */
  function Collect(rs: seq<Result<QuoteWire.Quote, QuoteWire.DecodeError>>)
    : (r: Result<seq<QuoteWire.Quote>, (nat, QuoteWire.DecodeError)>)
    ensures r.Ok? ==> |r.value| == |rs| && forall i :: 0 <= i < |rs| ==> rs[i] == Ok(r.value[i])
    ensures r.Err? ==> r.error.0 < |rs| && rs[r.error.0] == Err(r.error.1)
    ensures r.Err? ==> forall i :: 0 <= i < r.error.0 ==> rs[i].Ok?
    decreases |rs|
  {
    if rs == [] then Ok([])
    else
      match rs[0]
      case Err(e) => Err((0, e))
      case Ok(q) =>
        match Collect(rs[1..])
        case Err((i, e)) => Err((i + 1, e))
        case Ok(qs) => Ok([q] + qs)
  }

  function Asks(qs: seq<QuoteWire.Quote>, binary64: u64 -> real): (r: seq<real>)
    ensures |r| == |qs| && forall i :: 0 <= i < |qs| ==> r[i] == binary64(qs[i].ask)
  {
    seq(|qs|, i requires 0 <= i < |qs| => binary64(qs[i].ask))
  }

  function Bids(qs: seq<QuoteWire.Quote>, binary64: u64 -> real): (r: seq<real>)
    ensures |r| == |qs| && forall i :: 0 <= i < |qs| ==> r[i] == binary64(qs[i].bid)
  {
    seq(|qs|, i requires 0 <= i < |qs| => binary64(qs[i].bid))
  }

  /**
   * One pass of the loop on the frames received from Binance, Crypto.com, Kraken and KuCoin, in
   * that order. The symbols are decoded but never compared.
   */
  function Iteration(frames: seq<seq<byte>>, binary64: u64 -> real): (r: Report)
    requires |frames| == |Exchanges|
    ensures r.Aborted? <==> exists i :: 0 <= i < |frames| && QuoteWire.DecodeQuote(frames[i]).Err?
  {
    match Collect(DecodeEach(frames))
    case Err((i, e)) => Aborted(Exchanges[i], e)
    case Ok(qs) => Detect(Bids(qs, binary64), Asks(qs, binary64))
  }

  /** A pass with a frame that does not decode reports the first such exchange, before any
      price is compared. */
  lemma FirstBadFrameAborts(frames: seq<seq<byte>>, binary64: u64 -> real, k: nat)
    requires |frames| == |Exchanges| && k < |frames|
    requires QuoteWire.DecodeQuote(frames[k]).Err?
    requires forall i :: 0 <= i < k ==> QuoteWire.DecodeQuote(frames[i]).Ok?
    ensures Iteration(frames, binary64) == Aborted(Exchanges[k], QuoteWire.DecodeQuote(frames[k]).error)
  {
    var rs := DecodeEach(frames);
    CollectStopsAtFirstError(rs, k);
  }

  /** Collecting stops at the first failure: its position and error are what is reported. */
  lemma {:induction false} CollectStopsAtFirstError(rs: seq<Result<QuoteWire.Quote, QuoteWire.DecodeError>>, k: nat)
    requires k < |rs| && rs[k].Err?
    requires forall i :: 0 <= i < k ==> rs[i].Ok?
    ensures Collect(rs) == Err((k, rs[k].error))
    decreases k
  {
    if k > 0 {
      CollectStopsAtFirstError(rs[1..], k - 1);
    }
  }

  /** When every frame decodes, the report is the comparison of the decoded prices. */
  lemma DecodedPassCompares(frames: seq<seq<byte>>, binary64: u64 -> real, qs: seq<QuoteWire.Quote>)
    requires |frames| == |qs| == |Exchanges|
    requires forall i :: 0 <= i < |frames| ==> QuoteWire.DecodeQuote(frames[i]) == Ok(qs[i])
    ensures Iteration(frames, binary64) == Detect(Bids(qs, binary64), Asks(qs, binary64))
  {
    var r := Collect(DecodeEach(frames));
    assert r.value == qs;
  }

  /** Of two equal lowest asks the earlier exchange is chosen, and so is the earlier of two equal
      highest bids; a single exchange whose own bid is above its own ask is then both the buy and
      the sell side. Four equal asks choose Binance. */
  lemma TieAndCrossedBook()
    ensures FirstMinIndex([10.0, 10.0, 10.0, 10.0]) == 0
    ensures Detect([8.0, 9.5, 8.0, 9.5], [10.0, 9.0, 9.0, 11.0]) == Opportunity(Cryptocoms, 9.0, Cryptocoms, 9.5)
    ensures Detect([9.0, 9.0, 9.0, 9.0], [10.0, 10.0, 10.0, 10.0]) == NoOpportunity
  {
    var asks := [10.0, 9.0, 9.0, 11.0];
    var bids := [8.0, 9.5, 8.0, 9.5];
    assert FirstMinIndex(asks[..2]) == 1;
    assert FirstMinIndex(asks[..3]) == 1;
    assert FirstMaxIndex(bids[..2]) == 1;
    assert FirstMaxIndex(bids[..3]) == 1;
  }
}
