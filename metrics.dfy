/** The aggregates the backtest daemon reports over its trade table on shutdown. */
module Metrics {
  import opened Wrappers
  import opened Execution

  /** The figures printed under BACKTEST RESULTS. The Sharpe ratio is not part of this model. */
  datatype MetricsSnapshot = MetricsSnapshot(
    totalTrades: nat,
    winRate: real,
    avgProfitPerTrade: real,
    avgWinner: real,
    avgLoser: real,
    profitFactor: Option<real>,
    totalPnlUsd: real)

  /** A winning trade has a strictly positive return; breakevens count with the losers. */
  predicate IsWinner(t: TradeRecord) {
    t.pnlPct > 0.0
  }

  function CountWinners(ts: seq<TradeRecord>): (n: nat)
    ensures n <= |ts|
  {
    if ts == [] then 0 else (if IsWinner(ts[0]) then 1 else 0) + CountWinners(ts[1..])
  }

  function CountLosers(ts: seq<TradeRecord>): (n: nat)
    ensures n <= |ts|
  {
    if ts == [] then 0 else (if IsWinner(ts[0]) then 0 else 1) + CountLosers(ts[1..])
  }

  function SumPct(ts: seq<TradeRecord>): real {
    if ts == [] then 0.0 else ts[0].pnlPct + SumPct(ts[1..])
  }

  function SumWinnerPct(ts: seq<TradeRecord>): real {
    if ts == [] then 0.0 else (if IsWinner(ts[0]) then ts[0].pnlPct else 0.0) + SumWinnerPct(ts[1..])
  }

  function SumLoserPct(ts: seq<TradeRecord>): real {
    if ts == [] then 0.0 else (if IsWinner(ts[0]) then 0.0 else ts[0].pnlPct) + SumLoserPct(ts[1..])
  }

  function SumUsd(ts: seq<TradeRecord>): real {
    if ts == [] then 0.0 else ts[0].pnlUsd + SumUsd(ts[1..])
  }

  /** pandas' `mean` of a selection, and the `else 0` the source substitutes for an empty one. */
  function MeanOr0(sum: real, count: nat): real {
    if count == 0 then 0.0 else sum / count as real
  }

  /** The shutdown report's figures, or None where it prints "No trades completed". */
  function Compute(ts: seq<TradeRecord>): (m: Option<MetricsSnapshot>)
    ensures m.None? <==> ts == []
    ensures m.Some? ==> m.value.totalTrades == |ts|
  {
    if ts == [] then None
    else
      Some(MetricsSnapshot(|ts|, WinRate(ts), AvgProfit(ts), AvgWinner(ts), AvgLoser(ts),
                           ProfitFactor(ts), SumUsd(ts)))
  }

  function WinRate(ts: seq<TradeRecord>): real
    requires ts != []
  {
    CountWinners(ts) as real / |ts| as real * 100.0
  }

  function AvgProfit(ts: seq<TradeRecord>): real
    requires ts != []
  {
    SumPct(ts) / |ts| as real
  }

  function AvgWinner(ts: seq<TradeRecord>): real {
    MeanOr0(SumWinnerPct(ts), CountWinners(ts))
  }

  function AvgLoser(ts: seq<TradeRecord>): real {
    MeanOr0(SumLoserPct(ts), CountLosers(ts))
  }

  /** Printed only when both averages are non-zero. */
  function ProfitFactor(ts: seq<TradeRecord>): Option<real> {
    if AvgWinner(ts) != 0.0 && AvgLoser(ts) != 0.0 then Some(Abs(AvgWinner(ts) / AvgLoser(ts))) else None
  }

  function Abs(x: real): real {
    if x < 0.0 then -x else x
  }

  /** Every trade is either a winner or one of the others. */
  lemma {:induction false} CountsPartition(ts: seq<TradeRecord>)
    ensures CountWinners(ts) + CountLosers(ts) == |ts|
  {
    if ts != [] {
      CountsPartition(ts[1..]);
    }
  }

  /** No trade won exactly when the winner count is zero, and all won exactly when it is the
      number of trades. */
  lemma {:induction false} WinnersCounted(ts: seq<TradeRecord>)
    ensures CountWinners(ts) == 0 <==> forall i :: 0 <= i < |ts| ==> !IsWinner(ts[i])
    ensures CountWinners(ts) == |ts| <==> forall i :: 0 <= i < |ts| ==> IsWinner(ts[i])
  {
    if ts != [] {
      WinnersCounted(ts[1..]);
      assert forall i :: 1 <= i < |ts| ==> ts[i] == ts[1..][i - 1];
    }
  }

  /** The win rate is the percentage of trades with a positive return. */
  lemma {:induction false} WinRateBounds(ts: seq<TradeRecord>)
    requires ts != []
    ensures 0.0 <= Compute(ts).value.winRate <= 100.0
    ensures Compute(ts).value.winRate == 100.0 <==> forall i :: 0 <= i < |ts| ==> IsWinner(ts[i])
    ensures Compute(ts).value.winRate == 0.0 <==> forall i :: 0 <= i < |ts| ==> !IsWinner(ts[i])
  {
    WinnersCounted(ts);
    PercentageBounds(CountWinners(ts), |ts|);
  }

  lemma PercentageBounds(w: nat, n: nat)
    requires 0 < n && w <= n
    ensures 0.0 <= w as real / n as real * 100.0 <= 100.0
    ensures w as real / n as real * 100.0 == 100.0 <==> w == n
    ensures w as real / n as real * 100.0 == 0.0 <==> w == 0
  {
    var r := w as real / n as real;
    assert r * n as real == w as real;
    if w < n {
      assert r < 1.0;
    }
  }

  /** The whole return splits into the winners' and the other trades' returns. */
  lemma {:induction false} SumSplits(ts: seq<TradeRecord>)
    ensures SumPct(ts) == SumWinnerPct(ts) + SumLoserPct(ts)
  {
    if ts != [] {
      SumSplits(ts[1..]);
    }
  }

  lemma {:induction false} WinnerSumPositive(ts: seq<TradeRecord>)
    ensures SumWinnerPct(ts) >= 0.0
    ensures SumWinnerPct(ts) > 0.0 <==> CountWinners(ts) > 0
  {
    if ts != [] {
      WinnerSumPositive(ts[1..]);
    }
  }

  lemma {:induction false} LoserSumNonPositive(ts: seq<TradeRecord>)
    ensures SumLoserPct(ts) <= 0.0
    ensures CountLosers(ts) == 0 ==> SumLoserPct(ts) == 0.0
    ensures SumLoserPct(ts) < 0.0 <==> exists i :: 0 <= i < |ts| && ts[i].pnlPct < 0.0
  {
    if ts != [] {
      LoserSumNonPositive(ts[1..]);
      if ts[0].pnlPct < 0.0 {
        assert ts[0].pnlPct < 0.0;
      } else if exists i :: 0 <= i < |ts[1..]| && ts[1..][i].pnlPct < 0.0 {
        var i :| 0 <= i < |ts[1..]| && ts[1..][i].pnlPct < 0.0;
        assert ts[i + 1].pnlPct < 0.0;
      } else {
        forall i | 0 <= i < |ts|
          ensures ts[i].pnlPct >= 0.0
        {
          if i > 0 {
            assert ts[i] == ts[1..][i - 1];
          }
        }
      }
    }
  }

  /** The average winner is positive exactly when some trade won; the average loser is never
      positive, and negative exactly when some trade lost money. */
  lemma {:induction false} AverageSigns(ts: seq<TradeRecord>)
    requires ts != []
    ensures Compute(ts).value.avgWinner >= 0.0
    ensures Compute(ts).value.avgWinner > 0.0 <==> exists i :: 0 <= i < |ts| && ts[i].pnlPct > 0.0
    ensures Compute(ts).value.avgLoser <= 0.0
    ensures Compute(ts).value.avgLoser < 0.0 <==> exists i :: 0 <= i < |ts| && ts[i].pnlPct < 0.0
  {
    WinnersCounted(ts);
    WinnerSumPositive(ts);
    LoserSumNonPositive(ts);
    MeanSign(SumWinnerPct(ts), CountWinners(ts));
    MeanSign(SumLoserPct(ts), CountLosers(ts));
    if exists i :: 0 <= i < |ts| && ts[i].pnlPct > 0.0 {
      var i :| 0 <= i < |ts| && ts[i].pnlPct > 0.0;
      assert IsWinner(ts[i]);
    }
  }

  /** A mean has the sign of its sum. */
  lemma MeanSign(sum: real, count: nat)
    requires count == 0 ==> sum == 0.0
    ensures MeanOr0(sum, count) > 0.0 <==> sum > 0.0
    ensures MeanOr0(sum, count) < 0.0 <==> sum < 0.0
  {
  }

  /** The profit factor is printed exactly when some trade won and some trade lost money, and
      then it is the positive ratio of the average winner to the average loser. */
  lemma {:induction false} ProfitFactorShown(ts: seq<TradeRecord>)
    requires ts != []
    ensures Compute(ts).value.profitFactor.Some?
        <==> (exists i :: 0 <= i < |ts| && ts[i].pnlPct > 0.0) && (exists i :: 0 <= i < |ts| && ts[i].pnlPct < 0.0)
    ensures Compute(ts).value.profitFactor.Some? ==>
              Compute(ts).value.profitFactor.value
              == -(Compute(ts).value.avgWinner / Compute(ts).value.avgLoser) > 0.0
  {
    AverageSigns(ts);
    var m := Compute(ts).value;
    if m.profitFactor.Some? {
      assert m.avgWinner > 0.0 && m.avgLoser < 0.0;
      assert m.avgWinner / m.avgLoser < 0.0;
    }
  }

  /** Multiplying a mean back by its count gives the sum, when the sum of nothing is zero. */
  lemma MeanTimesCount(sum: real, count: nat)
    requires count == 0 ==> sum == 0.0
    ensures count as real * MeanOr0(sum, count) == sum
  {
  }

  lemma {:induction false} WinnerTotal(ts: seq<TradeRecord>)
    ensures CountWinners(ts) as real * AvgWinner(ts) == SumWinnerPct(ts)
  {
    var sum, count := SumWinnerPct(ts), CountWinners(ts);
    WinnerSumPositive(ts);
    assert count == 0 ==> sum == 0.0;
    MeanTimesCount(sum, count);
    assert AvgWinner(ts) == MeanOr0(sum, count);
  }

  lemma {:induction false} LoserTotal(ts: seq<TradeRecord>)
    ensures CountLosers(ts) as real * AvgLoser(ts) == SumLoserPct(ts)
  {
    var sum, count := SumLoserPct(ts), CountLosers(ts);
    LoserSumNonPositive(ts);
    assert count == 0 ==> sum == 0.0;
    MeanTimesCount(sum, count);
    assert AvgLoser(ts) == MeanOr0(sum, count);
  }

  lemma {:induction false} ProfitTotal(ts: seq<TradeRecord>)
    requires ts != []
    ensures |ts| as real * AvgProfit(ts) == SumPct(ts)
  {
    MeanTimesCount(SumPct(ts), |ts|);
  }

  /** The average return is the trade-weighted mix of the average winner and the average of the
      other trades. */
  lemma {:induction false} AverageDecomposes(ts: seq<TradeRecord>)
    requires ts != []
    ensures |ts| as real * AvgProfit(ts)
         == CountWinners(ts) as real * AvgWinner(ts) + CountLosers(ts) as real * AvgLoser(ts)
    ensures CountWinners(ts) + CountLosers(ts) == |ts|
  {
    SumSplits(ts);
    CountsPartition(ts);
    WinnerTotal(ts);
    LoserTotal(ts);
    ProfitTotal(ts);
  }

  lemma {:induction false} SumUsdOfConsistent(ts: seq<TradeRecord>)
    requires forall i :: 0 <= i < |ts| ==> RecordConsistent(ts[i])
    ensures SumUsd(ts) == SumPct(ts) / 10.0
  {
    if ts != [] {
      PnlUsdIsTenthOfPct(ts[0]);
      assert forall i :: 0 <= i < |ts[1..]| ==> ts[1..][i] == ts[i + 1];
      SumUsdOfConsistent(ts[1..]);
    }
  }

  /** For a table the engine wrote, the total dollar return is the sum of the dollar returns,
      which is a tenth of the summed percentage returns. */
  lemma {:induction false} TotalPnlOfLedger(ts: seq<TradeRecord>)
    requires ts != []
    requires forall i :: 0 <= i < |ts| ==> RecordConsistent(ts[i])
    ensures Compute(ts).value.totalPnlUsd == SumUsd(ts) == SumPct(ts) / 10.0
    ensures SumUsd(ts) == |ts| as real * AvgProfit(ts) / 10.0
  {
    SumUsdOfConsistent(ts);
    ProfitTotal(ts);
  }

  /** A record of the engine's shape with the given percentage return. */
  function WithReturn(t: TradeRecord, pct: real): TradeRecord {
    t.(pnlPct := pct)
  }

  /** Three trades returning +5 %, -2 % and +3 %: two thirds win, the average is 2 %, the
      average winner 4 %, the average loser -2 %, and the profit factor 2. */
  lemma {:induction false} ThreeTradeScenario(t: TradeRecord)
    ensures var ts := [WithReturn(t, 5.0), WithReturn(t, -2.0), WithReturn(t, 3.0)];
            var m := Compute(ts).value;
            && m.totalTrades == 3 && m.winRate == 200.0 / 3.0 && m.avgProfitPerTrade == 2.0
            && m.avgWinner == 4.0 && m.avgLoser == -2.0 && m.profitFactor == Some(2.0)
  {
    var ts := [WithReturn(t, 5.0), WithReturn(t, -2.0), WithReturn(t, 3.0)];
    assert ts[1..] == [WithReturn(t, -2.0), WithReturn(t, 3.0)];
    assert ts[1..][1..] == [WithReturn(t, 3.0)];
    assert ts[1..][1..][1..] == [];
    var t3 := ts[1..][1..];
    assert SumPct(t3) == 3.0 && SumWinnerPct(t3) == 3.0 && SumLoserPct(t3) == 0.0 && CountWinners(t3) == 1 && CountLosers(t3) == 0;
    var t2 := ts[1..];
    assert SumPct(t2) == 1.0 && SumWinnerPct(t2) == 3.0 && SumLoserPct(t2) == -2.0 && CountWinners(t2) == 1 && CountLosers(t2) == 1;
    assert SumPct(ts) == 6.0 && SumWinnerPct(ts) == 8.0 && SumLoserPct(ts) == -2.0 && CountWinners(ts) == 2 && CountLosers(ts) == 1;
    assert MeanOr0(8.0, 2) == 4.0 && MeanOr0(-2.0, 1) == -2.0;
  }
}
