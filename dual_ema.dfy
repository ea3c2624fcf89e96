/**
 * The XRP/USDT dual-EMA crossover strategy: it keeps the last 25 mids, and once the window is
 * full it updates a 9-period and a 25-period exponential moving average on every tick and
 * signals a long when the fast one is above the slow one, a short when it is below.
 */
module DualEma {
  import opened Bytes
  import opened Wrappers
  import QuoteWire
  import Window

  const Symbol: string := "XRP/USDT"
  const EmaFast: nat := 9
  const EmaSlow: nat := 25

  /** The signal the crossover prints; orders are not placed. */
  datatype Signal = Buy | Sell

  /** The position a signal leaves: 1 long, -1 short. */
  function Side(sig: Signal): int {
    if sig == Buy then 1 else -1
  }

  /** The script's globals. */
  datatype State = State(prices: seq<real>, ema9: Option<real>, ema25: Option<real>, position: int)

  function Initial(): State {
    State([], None, None, 0)
  }

  /** What every reachable state satisfies: the EMAs start together, only once the window is
      full, and the position stays flat until they have. */
  ghost predicate Valid(s: State) {
    && |s.prices| <= EmaSlow
    && -1 <= s.position <= 1
    && (s.ema9.Some? <==> s.ema25.Some?)
    && (s.ema9.Some? ==> |s.prices| == EmaSlow)
    && (s.ema9.None? ==> s.position == 0)
  }

  lemma InitialValid()
    ensures Valid(Initial())
  {
  }

  function Min(a: real, b: real): real {
    if a <= b then a else b
  }

  function Max(a: real, b: real): real {
    if a <= b then b else a
  }

  /** `update_ema`: the first value is the price itself; after that the price is blended in with
      weight 2/(period+1), so the new average lies between the old one and the price. */
  function UpdateEma(price: real, prev: Option<real>, period: nat): (r: real)
    ensures prev.None? ==> r == price
    ensures prev.Some? && period >= 1 ==> Min(prev.value, price) <= r <= Max(prev.value, price)
  {
    match prev
    case None => price
    case Some(p) =>
      var k := 2.0 / (period as real + 1.0);
      var r := price * k + p * (1.0 - k);
      assert period >= 1 ==> Min(p, price) <= r <= Max(p, price) by {
        if period >= 1 {
          WeightInRange(period);
          Blend(price, p, k);
        }
      }
      r
  }

  /** A weighted mean of two values lies between them. */
  lemma Blend(x: real, y: real, k: real)
    requires 0.0 <= k <= 1.0
    ensures Min(y, x) <= x * k + y * (1.0 - k) <= Max(y, x)
  {
    var r, d := x * k + y * (1.0 - k), x - y;
    assert r - y == k * d;
    assert x - r == (1.0 - k) * d;
    if d <= 0.0 {
      assert k * -d >= 0.0;
      assert (1.0 - k) * -d >= 0.0;
    } else {
      assert k * d >= 0.0;
      assert (1.0 - k) * d >= 0.0;
    }
  }

  /** The blending weight of a period of at least one lies in (0, 1]. */
  lemma WeightInRange(period: nat)
    requires period >= 1
    ensures 0.0 < 2.0 / (period as real + 1.0) <= 1.0
  {
  }

  /** The crossover: the new position and the signal printed. */
  function Crossover(fast: real, slow: real, position: int): (r: (int, Option<Signal>))
    requires -1 <= position <= 1
    ensures -1 <= r.0 <= 1
    ensures r.1.None? ==> r.0 == position
    ensures r.1.Some? ==> r.0 == Side(r.1.value) && r.0 != position
    ensures fast == slow ==> r == (position, None)
  {
    if fast > slow && position <= 0 then (1, Some(Buy))
    else if fast < slow && position >= 0 then (-1, Some(Sell))
    else (position, None)
  }

  /** A live tick: both averages take in the price, then the crossover. */
  function Live(s: State, price: real): (r: (State, Option<Signal>))
    requires -1 <= s.position <= 1
    ensures r.0.prices == s.prices && r.0.ema9.Some? && r.0.ema25.Some?
    ensures r.1.None? ==> r.0.position == s.position
    ensures r.1.Some? ==> r.0.position == Side(r.1.value) && r.0.position != s.position
  {
    var ema9 := UpdateEma(price, s.ema9, EmaFast);
    var ema25 := UpdateEma(price, s.ema25, EmaSlow);
    var (position, signal) := Crossover(ema9, ema25, s.position);
    (s.(ema9 := Some(ema9), ema25 := Some(ema25), position := position), signal)
  }

  /** The loop body after a successful decode. */
  function OnQuote(s: State, q: QuoteWire.Quote, binary64: u64 -> real): (r: (State, Option<Signal>))
    requires Valid(s)
    ensures Valid(r.0)
    ensures r.1.None? ==> r.0.position == s.position
    ensures r.1.Some? ==> r.0.position == Side(r.1.value) && r.0.position != s.position
  {
    if q.symbol != Symbol then (s, None)
    else
      var price := (binary64(q.bid) + binary64(q.ask)) / 2.0;
      var prices := Window.Append(s.prices, price, EmaSlow);
      if |prices| < EmaSlow then (s.(prices := prices), None)
      else Live(s.(prices := prices), price)
  }

  /**
   * One pass of the loop on frame `msg`: the new state and the signal, if any. A frame that
   * does not decode raises before anything changes.
   */
  function Step(s: State, msg: seq<byte>, binary64: u64 -> real): (r: (State, Option<Signal>))
    requires Valid(s)
    ensures Valid(r.0)
    ensures r.1.None? ==> r.0.position == s.position
    ensures r.1.Some? ==> r.0.position == Side(r.1.value) && r.0.position != s.position
  {
    match QuoteWire.DecodeQuote(msg)
    case Err(_) => (s, None)
    case Ok(q) => OnQuote(s, q, binary64)
  }

  /** Only 32-octet frames are decoded. */
  lemma WrongLengthIgnored(s: State, msg: seq<byte>, binary64: u64 -> real)
    requires Valid(s) && |msg| != QuoteWire.QuoteFrameSize
    ensures Step(s, msg, binary64) == (s, None)
  {
  }

  /** A quote for any other symbol is skipped. */
  lemma OtherSymbolIgnored(s: State, q: QuoteWire.Quote, binary64: u64 -> real)
    requires Valid(s) && q.symbol != Symbol
    ensures OnQuote(s, q, binary64) == (s, None)
  {
  }

  /** While the window has fewer than 25 mids, only the window changes. */
  lemma WarmUpHoldsAverages(s: State, q: QuoteWire.Quote, binary64: u64 -> real)
    requires Valid(s) && q.symbol == Symbol && |s.prices| < EmaSlow - 1
    ensures var r := OnQuote(s, q, binary64);
            && r == (s.(prices := r.0.prices), None)
            && r.0.prices == s.prices + [(binary64(q.bid) + binary64(q.ask)) / 2.0]
  {
  }

  /** On the first live tick both averages are the price itself, so no signal fires. */
  lemma FirstLiveTickNoSignal(s: State, price: real)
    requires Valid(s) && s.ema9.None?
    ensures Live(s, price) == (s.(ema9 := Some(price), ema25 := Some(price)), None)
  {
  }

  /** A frame that does not decode changes nothing, so a run of frames acts as the run of the
      quotes that decoded, in order. */
  lemma UndecodableFrameIgnored(s: State, msg: seq<byte>, binary64: u64 -> real)
    requires Valid(s) && QuoteWire.DecodeQuote(msg).Err?
    ensures Step(s, msg, binary64) == (s, None)
  {
  }

  /** The mid a decoded quote contributes to the window, if it is accepted. */
  function AcceptedMid(q: QuoteWire.Quote, binary64: u64 -> real): Option<real> {
    if q.symbol == Symbol then Some((binary64(q.bid) + binary64(q.ask)) / 2.0) else None
  }

  /** A quote changes the window exactly by appending its accepted mid. */
  lemma QuoteWindow(s: State, q: QuoteWire.Quote, binary64: u64 -> real)
    requires Valid(s)
    ensures OnQuote(s, q, binary64).0.prices
            == match AcceptedMid(q, binary64)
               case None => s.prices
               case Some(m) => Window.Append(s.prices, m, EmaSlow)
  {
  }

  /** The signals a run of decoded quotes prints, in order, and the state it leaves. */
  function Run(s: State, qs: seq<QuoteWire.Quote>, binary64: u64 -> real): (r: (State, seq<Signal>))
    requires Valid(s)
    ensures Valid(r.0)
    decreases |qs|
  {
    if qs == [] then (s, [])
    else
      var (s1, sigs) := Run(s, qs[..|qs| - 1], binary64);
      var (s2, sig) := OnQuote(s1, qs[|qs| - 1], binary64);
      (s2, if sig.Some? then sigs + [sig.value] else sigs)
  }

  /** Every accepted mid of a run of quotes, in arrival order. */
  function AcceptedMids(qs: seq<QuoteWire.Quote>, binary64: u64 -> real): seq<real>
    decreases |qs|
  {
    if qs == [] then []
    else
      var mids := AcceptedMids(qs[..|qs| - 1], binary64);
      match AcceptedMid(qs[|qs| - 1], binary64)
      case None => mids
      case Some(m) => mids + [m]
  }

  /** After any run the window holds the most recent 25 accepted mids, in arrival order. */
  lemma {:induction false} WindowHoldsMostRecent(s: State, qs: seq<QuoteWire.Quote>, binary64: u64 -> real)
    requires Valid(s)
    ensures Run(s, qs, binary64).0.prices == Window.Last(s.prices + AcceptedMids(qs, binary64), EmaSlow)
    decreases |qs|
  {
    if qs == [] {
      assert s.prices + [] == s.prices;
    } else {
      var init, q := qs[..|qs| - 1], qs[|qs| - 1];
      var s1 := Run(s, init, binary64).0;
      var mids := AcceptedMids(init, binary64);
      WindowHoldsMostRecent(s, init, binary64);
      QuoteWindow(s1, q, binary64);
      match AcceptedMid(q, binary64)
      case None =>
      case Some(x) =>
        assert Run(s, qs, binary64).0.prices == Window.Append(s1.prices, x, EmaSlow);
        assert AcceptedMids(qs, binary64) == mids + [x];
        AppendToLast(s.prices, mids, x);
    }
  }

  /** Appending to the window of the last 25 mids gives the last 25 of the extended history. */
  lemma AppendToLast(prices: seq<real>, mids: seq<real>, x: real)
    ensures Window.Append(Window.Last(prices + mids, EmaSlow), x, EmaSlow)
         == Window.Last(prices + (mids + [x]), EmaSlow)
  {
    Window.AppendIsLast(Window.Last(prices + mids, EmaSlow), x, EmaSlow);
    Window.LastOfLast(prices + mids, [x], EmaSlow);
    assert prices + mids + [x] == prices + (mids + [x]);
  }

  /** No two consecutive signals are alike. */
  predicate Alternating(sigs: seq<Signal>) {
    forall i :: 0 <= i < |sigs| - 1 ==> sigs[i] != sigs[i + 1]
  }

  /** Signals strictly alternate, and the position is the side of the last one. */
  lemma {:induction false} SignalsAlternate(s: State, qs: seq<QuoteWire.Quote>, binary64: u64 -> real)
    requires Valid(s)
    ensures var r := Run(s, qs, binary64);
            && Alternating(r.1)
            && (r.1 == [] ==> r.0.position == s.position)
            && (r.1 != [] ==> r.0.position == Side(r.1[|r.1| - 1]))
    decreases |qs|
  {
    if qs != [] {
      var init := qs[..|qs| - 1];
      SignalsAlternate(s, init, binary64);
      var (s1, sigs) := Run(s, init, binary64);
      var (s2, sig) := OnQuote(s1, qs[|qs| - 1], binary64);
      if sig.Some? {
        var sigs' := sigs + [sig.value];
        forall i | 0 <= i < |sigs'| - 1
          ensures sigs'[i] != sigs'[i + 1]
        {
          if i == |sigs| - 1 {
            assert Side(sigs[i]) == s1.position != Side(sig.value);
          } else {
            assert sigs'[i] == sigs[i] && sigs'[i + 1] == sigs[i + 1];
          }
        }
      }
    }
  }

  /** Once the position has left flat it never returns to it. */
  lemma {:induction false} NeverFlatAgain(s: State, qs: seq<QuoteWire.Quote>, binary64: u64 -> real)
    requires Valid(s) && s.position != 0
    ensures Run(s, qs, binary64).0.position != 0
    decreases |qs|
  {
    if qs != [] {
      NeverFlatAgain(s, qs[..|qs| - 1], binary64);
    }
  }

  /** The strategy as its loop runs: the script's globals. */
  class DualEmaStrategy {
    var prices: seq<real>
    var ema9: Option<real>
    var ema25: Option<real>
    var position: int

    function Snapshot(): State
      reads this
    {
      State(prices, ema9, ema25, position)
    }

    constructor()
      ensures Snapshot() == Initial() && Valid(Snapshot())
    {
      prices := [];
      ema9 := None;
      ema25 := None;
      position := 0;
    }

    /** One message. */
    method OnMessage(msg: seq<byte>, binary64: u64 -> real) returns (signal: Option<Signal>)
      requires Valid(Snapshot())
      modifies this
      ensures Valid(Snapshot())
      ensures (Snapshot(), signal) == Step(old(Snapshot()), msg, binary64)
    {
      var decoded := QuoteWire.DecodeQuote(msg);
      if decoded.Err? {
        return None;
      }
      signal := ProcessQuote(decoded.value, binary64);
    }

    /** The loop body once the frame has decoded. */
    method ProcessQuote(q: QuoteWire.Quote, binary64: u64 -> real) returns (signal: Option<Signal>)
      requires Valid(Snapshot())
      modifies this
      ensures Valid(Snapshot())
      ensures (Snapshot(), signal) == OnQuote(old(Snapshot()), q, binary64)
    {
      signal := None;
      if q.symbol != Symbol {
        return;
      }
      var price := (binary64(q.bid) + binary64(q.ask)) / 2.0;
      ghost var window := Window.Append(prices, price, EmaSlow);
      prices := prices + [price];
      if |prices| > EmaSlow {
        prices := prices[1..];
      }
      assert prices == window;
      if |prices| < EmaSlow {
        return;
      }
      var fast := UpdateEma(price, ema9, EmaFast);
      var slow := UpdateEma(price, ema25, EmaSlow);
      ema9, ema25 := Some(fast), Some(slow);
      if fast > slow && position <= 0 {
        position := 1;
        signal := Some(Buy);
      } else if fast < slow && position >= 0 {
        position := -1;
        signal := Some(Sell);
      }
    }
  }
}
