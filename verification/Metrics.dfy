/** Summaries of a journal of round trips. */
module Metrics {
  import opened Decimals
  import opened Trades
  import opened Wrappers

  // ---------------------------------------------------------------- totals

  /** The totals of a summary that add up over a split of the journal. */
  datatype Tally = Tally(
    trades: int, wins: int, losses: int, breakeven: int,
    grossProfit: real, grossLoss: real, fees: real, net: real)

  const NOTHING: Tally := Tally(0, 0, 0, 0, 0.0, 0.0, 0.0, 0.0)

  function Add(a: Tally, b: Tally): Tally {
    Tally(a.trades + b.trades, a.wins + b.wins, a.losses + b.losses, a.breakeven + b.breakeven,
          a.grossProfit + b.grossProfit, a.grossLoss + b.grossLoss, a.fees + b.fees, a.net + b.net)
  }

  function TallyOne(trade: RoundTrip): Tally {
    var x := trade.netPnL;
    Tally(1, if x > 0.0 then 1 else 0, if x < 0.0 then 1 else 0, if x == 0.0 then 1 else 0,
          if x > 0.0 then x else 0.0, if x < 0.0 then -x else 0.0, trade.fees, x)
  }

  function TallyAll(trades: seq<RoundTrip>): Tally {
    if trades == [] then NOTHING
    else Add(TallyAll(trades[..|trades| - 1]), TallyOne(trades[|trades| - 1]))
  }

  // ---------------------------------------------------------------- equity curve

  function EquityAt(initial: real, trades: seq<RoundTrip>, j: int): real
    requires 0 <= j <= |trades|
    decreases j
  {
    if j == 0 then initial else EquityAt(initial, trades, j - 1) + trades[j - 1].netPnL
  }

  function MaxReal(x: real, y: real): real {
    if x < y then y else x
  }

  /** The highest equity up to j. */
  function PeakAt(initial: real, trades: seq<RoundTrip>, j: int): (peak: real)
    requires 0 <= j <= |trades|
    ensures initial <= peak && EquityAt(initial, trades, j) <= peak
    decreases j
  {
    if j == 0 then initial else MaxReal(PeakAt(initial, trades, j - 1), EquityAt(initial, trades, j))
  }

  function DrawdownAt(initial: real, trades: seq<RoundTrip>, j: int): real
    requires 0.0 < initial && 0 <= j <= |trades|
  {
    var peak := PeakAt(initial, trades, j);
    Quo(peak - EquityAt(initial, trades, j), peak)
  }

  function MaxDrawdownAt(initial: real, trades: seq<RoundTrip>, j: int): real
    requires 0.0 < initial && 0 <= j <= |trades|
    decreases j
  {
    if j == 0 then 0.0 else MaxReal(MaxDrawdownAt(initial, trades, j - 1), DrawdownAt(initial, trades, j))
  }

  // ---------------------------------------------------------------- summary

  datatype Summary = Summary(
    trades: int, wins: int, losses: int, breakeven: int,
    grossProfit: real, grossLoss: real, totalFees: real, netPnL: real, expectancy: real,
    profitFactor: real, profitFactorDefined: bool, winRate: real, maxDrawdown: real,
    initialEquity: real, finalEquity: real)

  datatype SummaryError =
    | BadEquity | NoSplitTime | NoWindowStart | NoWindowEnd | EmptyWindow | TooFewFolds
    | BadTrade(index: int) | OutsideWindow(index: int)

  function SummaryOf(initial: real, trades: seq<RoundTrip>): Summary
    requires 0.0 < initial
  {
    var t := TallyAll(trades);
    var n := |trades| as real;
    Summary(|trades|, t.wins, t.losses, t.breakeven, t.grossProfit, t.grossLoss, t.fees, t.net,
            if trades == [] then 0.0 else Quo(t.net, n),
            if t.grossLoss > 0.0 then Quo(t.grossProfit, t.grossLoss) else 0.0, t.grossLoss > 0.0,
            if trades == [] then 0.0 else Quo(t.wins as real, n),
            MaxDrawdownAt(initial, trades, |trades|), initial, EquityAt(initial, trades, |trades|))
  }

  /** The first trade a journal does not accept, or the length. */
  function FirstInvalid(trades: seq<RoundTrip>): (n: int)
    ensures 0 <= n <= |trades|
    ensures forall i | 0 <= i < n :: ValidRoundTrip(trades[i])
    ensures n < |trades| ==> !ValidRoundTrip(trades[n])
  {
    if trades == [] || !ValidRoundTrip(trades[0]) then 0 else 1 + FirstInvalid(trades[1..])
  }

  function SummaryOutcome(initial: real, trades: seq<RoundTrip>): Result<Summary, SummaryError> {
    if initial <= 0.0 then Err(BadEquity)
    else if FirstInvalid(trades) < |trades| then Err(BadTrade(FirstInvalid(trades)))
    else Ok(SummaryOf(initial, trades))
  }

  lemma TallyStep(trades: seq<RoundTrip>, j: int)
    requires 0 <= j < |trades|
    ensures TallyAll(trades[..j + 1]) == Add(TallyAll(trades[..j]), TallyOne(trades[j]))
  {
    assert trades[..j + 1][..j] == trades[..j];
  }

  /** What the loop variables hold when trade n is next. */
  ghost predicate JournalLoop(initial: real, trades: seq<RoundTrip>, n: int,
                              tally: Tally, equity: real, peak: real, maxDrawdown: real)
    requires 0.0 < initial && 0 <= n <= |trades|
  {
    && tally == TallyAll(trades[..n])
    && equity == EquityAt(initial, trades, n) && peak == PeakAt(initial, trades, n)
    && maxDrawdown == MaxDrawdownAt(initial, trades, n)
  }

  lemma JournalStep(initial: real, trades: seq<RoundTrip>, n: int,
                    tally: Tally, equity: real, peak: real, maxDrawdown: real)
    requires 0.0 < initial && 0 <= n < |trades| && JournalLoop(initial, trades, n, tally, equity, peak, maxDrawdown)
    ensures var equity' := equity + trades[n].netPnL;
      var peak' := MaxReal(peak, equity');
      && 0.0 < peak'
      && JournalLoop(initial, trades, n + 1, Add(tally, TallyOne(trades[n])), equity', peak',
                     MaxReal(maxDrawdown, Quo(peak' - equity', peak')))
  {
    hide Quo, TallyOne, Add;
    TallyStep(trades, n);
  }

  lemma FinalState(initial: real, trades: seq<RoundTrip>, tally: Tally, equity: real, peak: real, maxDrawdown: real)
    requires 0.0 < initial && JournalLoop(initial, trades, |trades|, tally, equity, peak, maxDrawdown)
    ensures tally == TallyAll(trades) && equity == EquityAt(initial, trades, |trades|)
    ensures maxDrawdown == MaxDrawdownAt(initial, trades, |trades|)
  {
    assert trades[..|trades|] == trades;
  }

  method SummarizeRoundTrips(initial: real, trades: seq<RoundTrip>) returns (r: Result<Summary, SummaryError>)
    ensures r == SummaryOutcome(initial, trades)
  {
    if initial <= 0.0 {
      return Err(BadEquity);
    }
    var wins, losses, breakeven := 0, 0, 0;
    var grossProfit, grossLoss, totalFees, netPnL := 0.0, 0.0, 0.0, 0.0;
    var maxDrawdown, finalEquity, peak := 0.0, initial, initial;
    assert trades[..0] == [];
    assert JournalLoop(initial, trades, 0, NOTHING, finalEquity, peak, maxDrawdown);
    hide ValidRoundTrip, Quo, JournalLoop;
    for index := 0 to |trades|
      invariant JournalLoop(initial, trades, index,
        Tally(index, wins, losses, breakeven, grossProfit, grossLoss, totalFees, netPnL),
        finalEquity, peak, maxDrawdown)
      invariant forall i | 0 <= i < index :: ValidRoundTrip(trades[i])
    {
      var trade := trades[index];
      if !ValidRoundTrip(trade) {
        return Err(BadTrade(index));
      }
      JournalStep(initial, trades, index,
        Tally(index, wins, losses, breakeven, grossProfit, grossLoss, totalFees, netPnL),
        finalEquity, peak, maxDrawdown);
      totalFees := totalFees + trade.fees;
      netPnL := netPnL + trade.netPnL;
      if trade.netPnL > 0.0 {
        wins := wins + 1;
        grossProfit := grossProfit + trade.netPnL;
      } else if trade.netPnL < 0.0 {
        losses := losses + 1;
        grossLoss := grossLoss + AbsReal(trade.netPnL);
      } else {
        breakeven := breakeven + 1;
      }
      finalEquity := finalEquity + trade.netPnL;
      if finalEquity > peak {
        peak := finalEquity;
      }
      if peak > 0.0 {
        var drawdown := Quo(peak - finalEquity, peak);
        if drawdown > maxDrawdown {
          maxDrawdown := drawdown;
        }
      }
    }
    FinalState(initial, trades, Tally(|trades|, wins, losses, breakeven, grossProfit, grossLoss, totalFees, netPnL),
               finalEquity, peak, maxDrawdown);
    hide TallyAll, EquityAt, PeakAt, MaxDrawdownAt;
    var expectancy, winRate, profitFactor := 0.0, 0.0, 0.0;
    if |trades| > 0 {
      var tradeCount := |trades| as real;
      expectancy := Quo(netPnL, tradeCount);
      winRate := Quo(wins as real, tradeCount);
    }
    if grossLoss > 0.0 {
      profitFactor := Quo(grossProfit, grossLoss);
    }
    return Ok(Summary(|trades|, wins, losses, breakeven, grossProfit, grossLoss, totalFees, netPnL, expectancy,
                      profitFactor, grossLoss > 0.0, winRate, maxDrawdown, initial, finalEquity));
  }
}

/** What the numbers of a summary mean. */
module MetricsLaws {
  import opened Decimals
  import opened Metrics
  import opened Trades

  // ---------------------------------------------------------------- drawdown

  /** The peak is an equity of the past, and the highest one. */
  lemma {:induction false} PeakIsHighest(initial: real, trades: seq<RoundTrip>, j: int)
    requires 0 <= j <= |trades|
    ensures forall i | 0 <= i <= j :: EquityAt(initial, trades, i) <= PeakAt(initial, trades, j)
    ensures exists i :: 0 <= i <= j && EquityAt(initial, trades, i) == PeakAt(initial, trades, j)
    decreases j
  {
    if j == 0 {
      assert EquityAt(initial, trades, 0) == PeakAt(initial, trades, 0);
    } else {
      PeakIsHighest(initial, trades, j - 1);
      if PeakAt(initial, trades, j) != EquityAt(initial, trades, j) {
        var i :| 0 <= i <= j - 1 && EquityAt(initial, trades, i) == PeakAt(initial, trades, j - 1);
        assert EquityAt(initial, trades, i) == PeakAt(initial, trades, j);
      }
    }
  }

  lemma NoDrawdownAtFirst(initial: real, trades: seq<RoundTrip>)
    requires 0.0 < initial
    ensures DrawdownAt(initial, trades, 0) == 0.0
  {
    Round16Fixes(0);
  }

  /** The online maximum is the largest drawdown from the running peak. */
  lemma {:induction false} MaxDrawdownIsWorst(initial: real, trades: seq<RoundTrip>, n: int)
    requires 0.0 < initial && 0 <= n <= |trades|
    ensures forall j | 0 <= j <= n :: DrawdownAt(initial, trades, j) <= MaxDrawdownAt(initial, trades, n)
    ensures exists j :: 0 <= j <= n && DrawdownAt(initial, trades, j) == MaxDrawdownAt(initial, trades, n)
    decreases n
  {
    hide DrawdownAt;
    if n == 0 {
      NoDrawdownAtFirst(initial, trades);
    } else {
      MaxDrawdownIsWorst(initial, trades, n - 1);
      if MaxDrawdownAt(initial, trades, n) != DrawdownAt(initial, trades, n) {
        var j :| 0 <= j <= n - 1 && DrawdownAt(initial, trades, j) == MaxDrawdownAt(initial, trades, n - 1);
        assert DrawdownAt(initial, trades, j) == MaxDrawdownAt(initial, trades, n);
      }
    }
  }

  /** The fall from the equity after i trades to the one after j, as a fraction. */
  function Fall(initial: real, trades: seq<RoundTrip>, i: int, j: int): real
    requires 0 <= i <= |trades| && 0 <= j <= |trades| && EquityAt(initial, trades, i) > 0.0
  {
    Quo(EquityAt(initial, trades, i) - EquityAt(initial, trades, j), EquityAt(initial, trades, i))
  }

  lemma OneMinusRatio(x: real, d: real)
    requires d > 0.0
    ensures (d - x) / d == 1.0 - x / d
  {
    RatioIs(d - x, d, 1.0 - x / d);
  }

  lemma FallFromHigher(low: real, high: real, equity: real)
    requires 0.0 < low <= high && 0.0 <= equity
    ensures Quo(low - equity, low) <= Quo(high - equity, high)
  {
    OneMinusRatio(equity, low);
    OneMinusRatio(equity, high);
    assert equity / high <= equity / low by {
      var x := equity / low;
      assert x * low == equity && 0.0 <= x by {
        RatioMono(0.0, equity, low);
      }
      assert equity <= x * high;
      RatioMono(equity, x * high, high);
      RatioIs(x * high, high, x);
    }
    Round16Mono((low - equity) / low, (high - equity) / high);
  }

  predicate NeverNegative(initial: real, trades: seq<RoundTrip>) {
    forall j | 0 <= j <= |trades| :: 0.0 <= EquityAt(initial, trades, j)
  }

  lemma FallAtMostDrawdown(initial: real, trades: seq<RoundTrip>, i: int, j: int)
    requires 0.0 < initial && 0 <= i <= j <= |trades|
    requires EquityAt(initial, trades, i) > 0.0 && EquityAt(initial, trades, j) >= 0.0
    ensures Fall(initial, trades, i, j) <= DrawdownAt(initial, trades, j)
  {
    PeakIsHighest(initial, trades, j);
    hide Quo, PeakAt;
    FallFromHigher(EquityAt(initial, trades, i), PeakAt(initial, trades, j), EquityAt(initial, trades, j));
  }

  /** The lowest positive equity up to j. */
  function LowestAt(initial: real, trades: seq<RoundTrip>, j: int): (low: real)
    requires 0.0 < initial && 0 <= j <= |trades|
    ensures 0.0 < low
    decreases j
  {
    if j == 0 then initial
    else
      var (low, equity) := (LowestAt(initial, trades, j - 1), EquityAt(initial, trades, j));
      if 0.0 < equity < low then equity else low
  }

  lemma {:induction false} LowestIsLowest(initial: real, trades: seq<RoundTrip>, j: int)
    requires 0.0 < initial && 0 <= j <= |trades|
    ensures forall i | 0 <= i <= j && EquityAt(initial, trades, i) > 0.0 ::
      LowestAt(initial, trades, j) <= EquityAt(initial, trades, i)
    ensures exists i :: 0 <= i <= j && EquityAt(initial, trades, i) == LowestAt(initial, trades, j)
    decreases j
  {
    if j == 0 {
      assert EquityAt(initial, trades, 0) == LowestAt(initial, trades, 0);
    } else {
      LowestIsLowest(initial, trades, j - 1);
      if LowestAt(initial, trades, j) == LowestAt(initial, trades, j - 1) {
        var i :| 0 <= i <= j - 1 && EquityAt(initial, trades, i) == LowestAt(initial, trades, j - 1);
        assert EquityAt(initial, trades, i) == LowestAt(initial, trades, j);
      } else {
        assert EquityAt(initial, trades, j) == LowestAt(initial, trades, j);
      }
    }
  }

  /** A fall to a debt is the steeper the lower it starts. */
  lemma DebtFromLower(low: real, high: real, equity: real)
    requires 0.0 < low <= high && equity < 0.0
    ensures Quo(high - equity, high) <= Quo(low - equity, low)
  {
    OneMinusRatio(equity, low);
    OneMinusRatio(equity, high);
    assert equity / low <= equity / high by {
      var x := equity / high;
      assert x * high == equity && x <= 0.0 by {
        RatioMono(equity, 0.0, high);
      }
      assert equity <= x * low by {
        if low < high && x < 0.0 {
          RealMulMono(low, high, -x);
        }
      }
      RatioMono(equity, x * low, low);
      RatioIs(x * low, low, x);
    }
    Round16Mono((high - equity) / high, (low - equity) / low);
  }

  /** The reported drawdown is the largest fall between two points of the curve, in this order. */
  ghost predicate ReportsWorstFall(initial: real, trades: seq<RoundTrip>)
    requires 0.0 < initial
  {
    var worst := MaxDrawdownAt(initial, trades, |trades|);
    && (forall i, j | 0 <= i <= j <= |trades| && EquityAt(initial, trades, i) > 0.0 ::
          Fall(initial, trades, i, j) <= worst)
    && (exists i, j :: 0 <= i <= j <= |trades| && EquityAt(initial, trades, i) > 0.0
          && Fall(initial, trades, i, j) == worst)
  }

  /** Every debt, seen from the lowest positive equity before it, is covered by the drawdown from the peak at
      some point of the curve. */
  ghost predicate DebtsCovered(initial: real, trades: seq<RoundTrip>)
    requires 0.0 < initial
  {
    forall j | 0 <= j <= |trades| && EquityAt(initial, trades, j) < 0.0 ::
      exists n :: 0 <= n <= |trades|
        && DebtFall(initial, trades, j) <= DrawdownAt(initial, trades, n)
  }

  function DebtFall(initial: real, trades: seq<RoundTrip>, j: int): real
    requires 0.0 < initial && 0 <= j <= |trades|
  {
    var low := LowestAt(initial, trades, j);
    Quo(low - EquityAt(initial, trades, j), low)
  }

  lemma FallAtMostDebt(initial: real, trades: seq<RoundTrip>, i: int, j: int)
    requires 0.0 < initial && 0 <= i <= j <= |trades|
    requires EquityAt(initial, trades, i) > 0.0 && EquityAt(initial, trades, j) < 0.0
    ensures Fall(initial, trades, i, j) <= DebtFall(initial, trades, j)
  {
    LowestIsLowest(initial, trades, j);
    hide Quo, LowestAt;
    DebtFromLower(LowestAt(initial, trades, j), EquityAt(initial, trades, i), EquityAt(initial, trades, j));
  }

  lemma FallIsCovered(initial: real, trades: seq<RoundTrip>, i: int, j: int)
    requires 0.0 < initial && 0 <= i <= j <= |trades| && EquityAt(initial, trades, i) > 0.0
    requires DebtsCovered(initial, trades)
    ensures Fall(initial, trades, i, j) <= MaxDrawdownAt(initial, trades, |trades|)
  {
    hide Fall, DebtFall, DrawdownAt, MaxDrawdownAt, EquityAt;
    MaxDrawdownIsWorst(initial, trades, |trades|);
    if EquityAt(initial, trades, j) < 0.0 {
      FallAtMostDebt(initial, trades, i, j);
    } else {
      FallAtMostDrawdown(initial, trades, i, j);
    }
  }

  lemma DebtIsAFall(initial: real, trades: seq<RoundTrip>, j: int)
    requires 0.0 < initial && 0 <= j <= |trades| && ReportsWorstFall(initial, trades)
    ensures DebtFall(initial, trades, j) <= MaxDrawdownAt(initial, trades, |trades|)
  {
    LowestIsLowest(initial, trades, j);
    hide LowestAt, MaxDrawdownAt, EquityAt, Quo;
    var i :| 0 <= i <= j && EquityAt(initial, trades, i) == LowestAt(initial, trades, j);
    assert DebtFall(initial, trades, j) == Fall(initial, trades, i, j);
  }

  lemma WorstFallExists(initial: real, trades: seq<RoundTrip>)
    requires 0.0 < initial
    ensures var worst := MaxDrawdownAt(initial, trades, |trades|);
      exists i, j :: (0 <= i <= j <= |trades| && EquityAt(initial, trades, i) > 0.0
                      && Fall(initial, trades, i, j) == worst)
  {
    MaxDrawdownIsWorst(initial, trades, |trades|);
    hide MaxDrawdownAt, Quo;
    var j :| 0 <= j <= |trades| && DrawdownAt(initial, trades, j) == MaxDrawdownAt(initial, trades, |trades|);
    PeakIsHighest(initial, trades, j);
    var i :| 0 <= i <= j && EquityAt(initial, trades, i) == PeakAt(initial, trades, j);
    assert Fall(initial, trades, i, j) == MaxDrawdownAt(initial, trades, |trades|);
  }

  /** For every journal: the reported drawdown is the largest fall of the curve exactly when every debt, seen
      from the lowest positive equity before it, is covered by some drawdown from the peak. */
  lemma ReportsWorstFallIff(initial: real, trades: seq<RoundTrip>)
    requires 0.0 < initial
    ensures ReportsWorstFall(initial, trades) <==> DebtsCovered(initial, trades)
  {
    hide Fall, MaxDrawdownAt, EquityAt;
    if DebtsCovered(initial, trades) {
      hide DebtsCovered;
      forall i, j | 0 <= i <= j <= |trades| && EquityAt(initial, trades, i) > 0.0
        ensures Fall(initial, trades, i, j) <= MaxDrawdownAt(initial, trades, |trades|)
      {
        FallIsCovered(initial, trades, i, j);
      }
      WorstFallExists(initial, trades);
    }
    if ReportsWorstFall(initial, trades) {
      hide ReportsWorstFall, DebtFall, DrawdownAt;
      MaxDrawdownIsWorst(initial, trades, |trades|);
      forall j | 0 <= j <= |trades| && EquityAt(initial, trades, j) < 0.0
        ensures exists n :: 0 <= n <= |trades| && DebtFall(initial, trades, j) <= DrawdownAt(initial, trades, n)
      {
        DebtIsAFall(initial, trades, j);
      }
    }
  }

  /** While equity never goes negative, the one-pass maximum is the largest fall between any two points of the
      curve, in this order, and lies in [0, 1]. */
  lemma MaxDrawdownIsWorstFall(initial: real, trades: seq<RoundTrip>)
    requires 0.0 < initial && NeverNegative(initial, trades)
    ensures ReportsWorstFall(initial, trades) && 0.0 <= MaxDrawdownAt(initial, trades, |trades|) <= 1.0
  {
    hide MaxDrawdownAt, EquityAt, Quo, PeakAt;
    ReportsWorstFallIff(initial, trades);
    MaxDrawdownIsWorst(initial, trades, |trades|);
    var j :| 0 <= j <= |trades| && DrawdownAt(initial, trades, j) == MaxDrawdownAt(initial, trades, |trades|);
    DrawdownRange(PeakAt(initial, trades, j), EquityAt(initial, trades, j));
  }

  lemma DrawdownRange(peak: real, equity: real)
    requires 0.0 < peak && 0.0 <= equity <= peak
    ensures 0.0 <= Quo(peak - equity, peak) <= 1.0
  {
    RatioMono(0.0, peak - equity, peak);
    RatioMono(peak - equity, peak, peak);
    Round16Range((peak - equity) / peak);
  }

  function Netting(net: real): RoundTrip {
    var fill := Fill(1, 1.0, 1.0, 1.0, 1.0, 0.0, 0.0, 0.0, 0.0);
    RoundTrip(Long, fill, fill, net, 0.0, net, 0.0)
  }

  lemma RoundedFalls()
    ensures Quo(0.0, 200.0) == 0.0 && Quo(250.0, 200.0) == 1.25 && Quo(150.0, 100.0) == 1.5
  {
    Round16Fixes(0);
    Round16Fixes(12_500_000_000_000_000);
    Round16Fixes(15_000_000_000_000_000);
  }

  function UpAndDown(): (r: seq<RoundTrip>)
    ensures |r| == 2
  {
    [Netting(100.0), Netting(-250.0)]
  }

  lemma UpAndDownCurve()
    ensures EquityAt(100.0, UpAndDown(), 0) == 100.0 && EquityAt(100.0, UpAndDown(), 2) == -50.0
    ensures EquityAt(100.0, UpAndDown(), 1) == PeakAt(100.0, UpAndDown(), 1) == PeakAt(100.0, UpAndDown(), 2) == 200.0
  {
    var trades := UpAndDown();
    assert EquityAt(100.0, trades, 1) == 200.0 && EquityAt(100.0, trades, 2) == -50.0;
  }

  /** Once equity is negative a fall from a point below the peak can be the larger one: from 100 up to 200 and
      down to -50, the reported drawdown is 1.25 and the fall from the start is 1.5. */
  lemma NegativeEquityHidesAFall()
    ensures forall trade | trade in UpAndDown() :: ValidRoundTrip(trade)
    ensures MaxDrawdownAt(100.0, UpAndDown(), 2) == 1.25
    ensures EquityAt(100.0, UpAndDown(), 0) > 0.0 && Fall(100.0, UpAndDown(), 0, 2) == 1.5
  {
    UpAndDownCurve();
    RoundedFalls();
    hide Quo, EquityAt, PeakAt;
    var trades := UpAndDown();
    assert DrawdownAt(100.0, trades, 1) == 0.0 && DrawdownAt(100.0, trades, 2) == 1.25;
    assert MaxDrawdownAt(100.0, trades, 1) == 0.0;
  }

  // ---------------------------------------------------------------- totals

  /** The positions of the winning, the losing and the other trades. */
  ghost function Winning(trades: seq<RoundTrip>): set<int> {
    set i | 0 <= i < |trades| && trades[i].netPnL > 0.0
  }

  ghost function Losing(trades: seq<RoundTrip>): set<int> {
    set i | 0 <= i < |trades| && trades[i].netPnL < 0.0
  }

  ghost function Even(trades: seq<RoundTrip>): set<int> {
    set i | 0 <= i < |trades| && trades[i].netPnL == 0.0
  }

  /** The net profit of the first n trades at the picked positions. */
  ghost function NetOver(trades: seq<RoundTrip>, picked: set<int>, n: int): real
    requires 0 <= n <= |trades|
    decreases n
  {
    if n == 0 then 0.0 else NetOver(trades, picked, n - 1) + if n - 1 in picked then trades[n - 1].netPnL else 0.0
  }

  ghost function NetUpTo(trades: seq<RoundTrip>, n: int): real
    requires 0 <= n <= |trades|
    decreases n
  {
    if n == 0 then 0.0 else NetUpTo(trades, n - 1) + trades[n - 1].netPnL
  }

  ghost function FeesOver(trades: seq<RoundTrip>, n: int): real
    requires 0 <= n <= |trades|
    decreases n
  {
    if n == 0 then 0.0 else FeesOver(trades, n - 1) + trades[n - 1].fees
  }

  lemma {:induction false} SameNetOver(a: seq<RoundTrip>, p: set<int>, b: seq<RoundTrip>, q: set<int>, n: int)
    requires 0 <= n <= |a| && n <= |b| && forall i | 0 <= i < n :: a[i] == b[i] && (i in p <==> i in q)
    ensures NetOver(a, p, n) == NetOver(b, q, n)
    ensures FeesOver(a, n) == FeesOver(b, n) && NetUpTo(a, n) == NetUpTo(b, n)
    decreases n
  {
    if n == 0 {
    } else {
      SameNetOver(a, p, b, q, n - 1);
    }
  }

  lemma PositionsGrow(trades: seq<RoundTrip>)
    requires trades != []
    ensures var (n, x) := (|trades| - 1, trades[|trades| - 1].netPnL);
      && |Winning(trades)| == |Winning(trades[..n])| + (if x > 0.0 then 1 else 0)
      && |Losing(trades)| == |Losing(trades[..n])| + (if x < 0.0 then 1 else 0)
      && |Even(trades)| == |Even(trades[..n])| + (if x == 0.0 then 1 else 0)
  {
    var n := |trades| - 1;
    var x := trades[n].netPnL;
    assert Winning(trades) == if x > 0.0 then Winning(trades[..n]) + {n} else Winning(trades[..n]);
    assert Losing(trades) == if x < 0.0 then Losing(trades[..n]) + {n} else Losing(trades[..n]);
    assert Even(trades) == if x == 0.0 then Even(trades[..n]) + {n} else Even(trades[..n]);
    hide Winning, Losing, Even;
  }

  lemma {:induction false} CountsByTrades(trades: seq<RoundTrip>)
    ensures var t := TallyAll(trades);
      t.wins == |Winning(trades)| && t.losses == |Losing(trades)| && t.breakeven == |Even(trades)|
  {
    if trades == [] {
    } else {
      CountsByTrades(trades[..|trades| - 1]);
      PositionsGrow(trades);
      hide Winning, Losing, Even;
    }
  }

  lemma {:induction false} AmountsByTrades(trades: seq<RoundTrip>)
    ensures var (t, n) := (TallyAll(trades), |trades|);
      && t.grossProfit == NetOver(trades, Winning(trades), n) && t.grossLoss == -NetOver(trades, Losing(trades), n)
      && t.fees == FeesOver(trades, n) && t.net == NetUpTo(trades, n)
  {
    var n := |trades|;
    if trades == [] {
    } else {
      var before := trades[..n - 1];
      AmountsByTrades(before);
      SameNetOver(trades, Winning(trades), before, Winning(before), n - 1);
      SameNetOver(trades, Losing(trades), before, Losing(before), n - 1);
    }
  }

  lemma Round16Near(z: real)
    ensures -(0.5 / UNITS) <= Round16(z) - z <= 0.5 / UNITS
  {
    var n := RoundReal(z * UNITS) as real;
    assert -0.5 <= n - z * UNITS <= 0.5;
    assert (Round16(z) - z) * UNITS == n - z * UNITS;
  }

  /** Taken n times, the rate is the total, within half a unit of 10^-16 for each time. */
  predicate RateOf(rate: real, n: real, total: real) {
    AbsReal(rate * n - total) <= n * (0.5 / UNITS)
  }

  lemma QuoNear(x: real, d: real)
    requires 0.0 < d
    ensures RateOf(Quo(x, d), d, x)
  {
    var z := x / d;
    assert Quo(x, d) == Round16(z);
    hide Quo, Round16;
    assert z * d == x;
    Round16Near(z);
    ErrorTimes(Quo(x, d), z, d, 0.5 / UNITS);
  }

  lemma ErrorTimes(q: real, z: real, d: real, bound: real)
    requires 0.0 < d && -bound <= q - z <= bound
    ensures AbsReal(q * d - z * d) <= d * bound
  {
    RealMulMono(q - z, bound, d);
    RealMulMono(-bound, q - z, d);
    assert (q - z) * d == q * d - z * d && -bound * d == -(d * bound);
  }

  /** What every field of a summary is, by the trades themselves: how many win, lose and do neither, what the
      winners and the losers make, and rates that are right within half a unit of 10^-16. */
  lemma SummaryByTrades(initial: real, trades: seq<RoundTrip>)
    requires 0.0 < initial
    ensures var (s, n) := (SummaryOf(initial, trades), |trades|);
      && s.trades == n && s.wins == |Winning(trades)| && s.losses == |Losing(trades)| && s.breakeven == |Even(trades)|
      && s.grossProfit == NetOver(trades, Winning(trades), n)
      && s.grossLoss == -NetOver(trades, Losing(trades), n)
      && s.totalFees == FeesOver(trades, n)
      && s.netPnL == NetUpTo(trades, n)
      && s.initialEquity == initial && s.finalEquity == initial + s.netPnL
      && (n == 0 ==> s.winRate == 0.0 && s.expectancy == 0.0)
      && RateOf(s.winRate, n as real, s.wins as real)
      && RateOf(s.expectancy, n as real, s.netPnL)
      && (s.profitFactorDefined <==> Losing(trades) != {})
      && (if s.profitFactorDefined then RateOf(s.profitFactor, s.grossLoss, s.grossProfit) else s.profitFactor == 0.0)
  {
    hide Quo, TallyAll, EquityAt, MaxDrawdownAt, NetOver, NetUpTo, FeesOver, Winning, Losing, Even, RateOf;
    var n := |trades|;
    CountsByTrades(trades);
    AmountsByTrades(trades);
    EquityIsInitialPlusNet(initial, trades, n);
    assert trades[..n] == trades;
    LossIffLosing(trades);
    RatesByTrades(initial, trades);
  }

  lemma RatesByTrades(initial: real, trades: seq<RoundTrip>)
    requires 0.0 < initial
    ensures var (s, n) := (SummaryOf(initial, trades), |trades|);
      && RateOf(s.winRate, n as real, s.wins as real)
      && RateOf(s.expectancy, n as real, s.netPnL)
      && (s.profitFactorDefined ==> RateOf(s.profitFactor, s.grossLoss, s.grossProfit))
  {
    hide Quo, TallyAll, EquityAt, MaxDrawdownAt, RateOf;
    var (t, n) := (TallyAll(trades), |trades|);
    if n > 0 {
      QuoNear(t.wins as real, n as real);
      QuoNear(t.net, n as real);
    } else {
      NoRates(initial, trades);
    }
    if t.grossLoss > 0.0 {
      QuoNear(t.grossProfit, t.grossLoss);
    }
  }

  lemma NoRates(initial: real, trades: seq<RoundTrip>)
    requires 0.0 < initial && trades == []
    ensures var (s, n) := (SummaryOf(initial, trades), |trades|);
      && RateOf(s.winRate, n as real, s.wins as real)
      && RateOf(s.expectancy, n as real, s.netPnL)
  {
    hide Quo, EquityAt, MaxDrawdownAt;
  }

  lemma {:induction false} LossIffLosing(trades: seq<RoundTrip>)
    ensures TallyAll(trades).grossLoss >= 0.0 && (TallyAll(trades).grossLoss > 0.0 <==> Losing(trades) != {})
  {
    if trades == [] {
    } else {
      var n := |trades| - 1;
      LossIffLosing(trades[..n]);
      assert Losing(trades) == if trades[n].netPnL < 0.0 then Losing(trades[..n]) + {n} else Losing(trades[..n]);
    }
  }

  /** A trade with a direction, positive prices, one positive quantity, fees, and a net profit that is the gross one
      less the fees. */
  predicate TradeSound(t: RoundTrip) {
    && (t.direction == Long || t.direction == Short)
    && t.entry.executedPrice > 0.0 && t.exit.executedPrice > 0.0
    && t.entry.quantity > 0.0 && t.exit.quantity == t.entry.quantity
    && t.fees >= 0.0 && t.netPnL + t.fees == t.grossPnL
  }

  /** Trade k is the first that is not sound. */
  predicate FirstUnsound(trades: seq<RoundTrip>, k: int) {
    0 <= k < |trades| && !TradeSound(trades[k]) && forall i | 0 <= i < k :: TradeSound(trades[i])
  }

  lemma TradeSoundIff(t: RoundTrip)
    ensures ValidRoundTrip(t) <==> TradeSound(t)
  {
  }

  lemma FirstInvalidIs(trades: seq<RoundTrip>)
    ensures var k := FirstInvalid(trades);
      if k < |trades| then FirstUnsound(trades, k) else forall t | t in trades :: TradeSound(t)
  {
    forall i | 0 <= i < |trades| ensures ValidRoundTrip(trades[i]) <==> TradeSound(trades[i]) {
      TradeSoundIff(trades[i]);
    }
    hide ValidRoundTrip, TradeSound;
  }

  /** A journal is accepted exactly when the initial equity is positive and every trade is sound. If not, the error
      is the equity, or the first trade that is not. */
  lemma JournalAcceptedIff(initial: real, trades: seq<RoundTrip>)
    ensures SummaryOutcome(initial, trades).Ok? <==> 0.0 < initial && forall t | t in trades :: TradeSound(t)
    ensures SummaryOutcome(initial, trades).Err? ==>
      match SummaryOutcome(initial, trades).error
      case BadEquity => initial <= 0.0
      case BadTrade(k) => 0.0 < initial && FirstUnsound(trades, k)
      case _ => false
  {
    FirstInvalidIs(trades);
    hide SummaryOf, TradeSound, ValidRoundTrip, FirstInvalid;
    if FirstInvalid(trades) < |trades| {
      assert trades[FirstInvalid(trades)] in trades;
    }
  }

  lemma {:induction false} TallyAddsUp(trades: seq<RoundTrip>)
    ensures var t := TallyAll(trades);
      && t.trades == t.wins + t.losses + t.breakeven == |trades|
      && 0 <= t.wins && 0 <= t.losses && 0 <= t.breakeven
      && t.net == t.grossProfit - t.grossLoss && 0.0 <= t.grossProfit && 0.0 <= t.grossLoss
  {
    if trades == [] {
    } else {
      TallyAddsUp(trades[..|trades| - 1]);
    }
  }

  lemma {:induction false} EquityIsInitialPlusNet(initial: real, trades: seq<RoundTrip>, j: int)
    requires 0 <= j <= |trades|
    ensures EquityAt(initial, trades, j) == initial + TallyAll(trades[..j]).net
    decreases j
  {
    if j == 0 {
    } else {
      EquityIsInitialPlusNet(initial, trades, j - 1);
      TallyStep(trades, j - 1);
    }
  }

  lemma {:induction false} MaxDrawdownNonNegative(initial: real, trades: seq<RoundTrip>, j: int)
    requires 0.0 < initial && 0 <= j <= |trades|
    ensures 0.0 <= MaxDrawdownAt(initial, trades, j)
    decreases j
  {
    hide DrawdownAt;
    if j == 0 {
    } else {
      MaxDrawdownNonNegative(initial, trades, j - 1);
    }
  }

  /** The fields of one summary agree: every trade is a win, a loss or neither, the net profit is what the
      equity moved by and the difference of gross profit and loss, the win rate is a fraction, and the profit
      factor is on the same side of one as the net profit is of zero. */
  lemma SummaryIsConsistent(initial: real, trades: seq<RoundTrip>)
    requires 0.0 < initial
    ensures var s := SummaryOf(initial, trades);
      && s.trades == s.wins + s.losses + s.breakeven
      && s.netPnL == s.grossProfit - s.grossLoss == s.finalEquity - s.initialEquity
      && 0.0 <= s.winRate <= 1.0 && 0.0 <= s.maxDrawdown
      && (s.profitFactorDefined && 0.0 <= s.netPnL ==> 1.0 <= s.profitFactor)
      && (s.profitFactorDefined && s.netPnL <= 0.0 ==> s.profitFactor <= 1.0)
  {
    hide Quo, TallyAll, MaxDrawdownAt, EquityAt;
    TallyAddsUp(trades);
    EquityIsInitialPlusNet(initial, trades, |trades|);
    assert trades[..|trades|] == trades;
    MaxDrawdownNonNegative(initial, trades, |trades|);
    var t := TallyAll(trades);
    if trades != [] {
      WinRateRange(t.wins, |trades|);
    }
    if t.grossLoss > 0.0 {
      ProfitFactorSide(t.grossProfit, t.grossLoss);
    }
  }

  lemma WinRateRange(wins: int, n: int)
    requires 0 <= wins <= n && 0 < n
    ensures 0.0 <= Quo(wins as real, n as real) <= 1.0
  {
    RatioMono(0.0, wins as real, n as real);
    RatioMono(wins as real, n as real, n as real);
    Round16Range(wins as real / n as real);
  }

  lemma ProfitFactorSide(profit: real, loss: real)
    requires 0.0 < loss
    ensures loss <= profit ==> 1.0 <= Quo(profit, loss)
    ensures profit <= loss ==> Quo(profit, loss) <= 1.0
  {
    Round16Fixes(SCALE);
    assert loss / loss == 1.0;
    if loss <= profit {
      QuoMono(loss, profit, loss);
    }
    if profit <= loss {
      QuoMono(profit, loss, loss);
    }
  }
}
