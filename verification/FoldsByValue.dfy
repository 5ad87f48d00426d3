/** What a split and a walk-forward summary accept, and what each part of them holds. */
module FoldsByValue {
  import opened Metrics
  import opened MetricsLaws
  import opened Trades
  import opened WalkForward
  import opened WalkForwardLaws
  import opened Wrappers

  /** The trades at the picked positions among the first n, in journal order. */
  ghost function Kept(trades: seq<RoundTrip>, picked: set<int>, n: int): seq<RoundTrip>
    requires 0 <= n <= |trades|
    decreases n
  {
    if n == 0 then [] else Kept(trades, picked, n - 1) + if n - 1 in picked then [trades[n - 1]] else []
  }

  lemma {:induction false} PartIsKept(trades: seq<RoundTrip>, keys: seq<int>, k: int, picked: set<int>, n: int)
    requires |keys| == |trades| && 0 <= n <= |trades|
    requires forall i | 0 <= i < n :: i in picked <==> keys[i] == k
    ensures Part(trades[..n], keys[..n], k) == Kept(trades, picked, n)
    decreases n
  {
    if n == 0 {
    } else {
      PartIsKept(trades, keys, k, picked, n - 1);
      PartStep(trades, keys, k, n - 1);
      hide Part;
    }
  }

  lemma WholePart(trades: seq<RoundTrip>, keys: seq<int>, k: int, picked: set<int>)
    requires |keys| == |trades| && forall i | 0 <= i < |trades| :: i in picked <==> keys[i] == k
    ensures Part(trades, keys, k) == Kept(trades, picked, |trades|)
  {
    PartIsKept(trades, keys, k, picked, |trades|);
    assert trades[..|trades|] == trades && keys[..|keys|] == keys;
  }

  // ---------------------------------------------------------------- one split

  ghost function EnteredBefore(trades: seq<RoundTrip>, time: int): set<int> {
    set i | 0 <= i < |trades| && trades[i].entry.time < time
  }

  ghost function EnteredFrom(trades: seq<RoundTrip>, time: int): set<int> {
    set i | 0 <= i < |trades| && trades[i].entry.time >= time
  }

  /** A split needs a time and what a summary needs, and reports the first of them that is missing; its parts are
      the trades entered before the time and from it on. */
  lemma SplitByTime(initial: real, trades: seq<RoundTrip>, splitTime: int)
    ensures var r := SplitOutcome(initial, trades, splitTime);
      && (r.Ok? <==> splitTime != 0 && SummaryOutcome(initial, trades).Ok?)
      && (splitTime == 0 ==> r == Err(NoSplitTime))
      && (splitTime != 0 && r.Err? ==> r.error == SummaryOutcome(initial, trades).error)
      && (r.Ok? ==>
            && 0.0 < initial && r.value.splitTime == splitTime
            && r.value.inSample == SummaryOf(initial, Kept(trades, EnteredBefore(trades, splitTime), |trades|))
            && r.value.outOfSample == SummaryOf(initial, Kept(trades, EnteredFrom(trades, splitTime), |trades|)))
  {
    hide SummaryOf, Part, Kept, ValidRoundTrip;
    WholePart(trades, SplitKeys(trades, splitTime), IN_SAMPLE, EnteredBefore(trades, splitTime));
    WholePart(trades, SplitKeys(trades, splitTime), OUT_OF_SAMPLE, EnteredFrom(trades, splitTime));
  }

  // ---------------------------------------------------------------- walk-forward folds

  /** A walk-forward summary is made exactly for a positive equity, a set and ordered window, two folds or more, and
      trades that are each valid and entered in the window. */
  lemma WalkForwardAcceptedIff(initial: real, trades: seq<RoundTrip>, cfg: WalkForwardConfig)
    ensures WalkForwardOutcome(initial, trades, cfg).Ok? <==>
      && cfg.windowStart != 0 && cfg.windowEnd != 0 && cfg.windowStart < cfg.windowEnd && cfg.folds >= 2
      && SummaryOutcome(initial, trades).Ok?
      && forall t | t in trades :: cfg.windowStart <= t.entry.time && t.entry.time < cfg.windowEnd
  {
    hide ValidRoundTrip, FoldsOf, SummaryOf;
    if FirstRefused(trades, cfg) == |trades| {
      forall t | t in trades ensures ValidRoundTrip(t) && InWindow(t, cfg) {
        var i :| 0 <= i < |trades| && trades[i] == t;
      }
    } else {
      var n := FirstRefused(trades, cfg);
      assert trades[n] in trades;
    }
    if FirstInvalid(trades) == |trades| {
      forall t | t in trades ensures ValidRoundTrip(t) {
        var i :| 0 <= i < |trades| && trades[i] == t;
      }
    } else {
      assert trades[FirstInvalid(trades)] in trades;
    }
  }

  /** Entered before the window ends and not before it starts. */
  predicate EnteredInside(t: RoundTrip, cfg: WalkForwardConfig) {
    cfg.windowStart <= t.entry.time && t.entry.time < cfg.windowEnd
  }

  /** Trade k is the first that is not sound or not entered in the window. */
  predicate FirstOut(trades: seq<RoundTrip>, cfg: WalkForwardConfig, k: int) {
    && 0 <= k < |trades| && (forall i | 0 <= i < k :: TradeSound(trades[i]) && EnteredInside(trades[i], cfg))
    && !(TradeSound(trades[k]) && EnteredInside(trades[k], cfg))
  }

  /** Why a walk-forward summary is refused: the first thing wrong with the equity and the configuration, and then
      the first trade that is not sound or not in the window. */
  lemma WalkForwardRefusedBy(initial: real, trades: seq<RoundTrip>, cfg: WalkForwardConfig)
    requires WalkForwardOutcome(initial, trades, cfg).Err?
    ensures var error := WalkForwardOutcome(initial, trades, cfg).error;
      if initial <= 0.0 then error == BadEquity
      else if cfg.windowStart == 0 then error == NoWindowStart
      else if cfg.windowEnd == 0 then error == NoWindowEnd
      else if cfg.windowEnd <= cfg.windowStart then error == EmptyWindow
      else if cfg.folds <= 1 then error == TooFewFolds
      else
        match error
        case BadTrade(k) => FirstOut(trades, cfg, k) && !TradeSound(trades[k])
        case OutsideWindow(k) => FirstOut(trades, cfg, k) && TradeSound(trades[k])
        case _ => false
  {
    hide FoldsOf;
    forall i | 0 <= i < |trades| ensures ValidRoundTrip(trades[i]) <==> TradeSound(trades[i]) {
      TradeSoundIff(trades[i]);
    }
    hide ValidRoundTrip, TradeSound;
  }

  /** The positions of the trades whose offset, as a fraction of the window, falls into fold i. */
  ghost function EnteredIn(trades: seq<RoundTrip>, cfg: WalkForwardConfig, i: int): set<int>
    requires cfg.windowStart < cfg.windowEnd
  {
    set j | 0 <= j < |trades|
      && (trades[j].entry.time - cfg.windowStart) * cfg.folds / (cfg.windowEnd - cfg.windowStart) == i
  }

  /** Where fold i is cut, as a fraction of the window. */
  function CutAt(cfg: WalkForwardConfig, i: int): int
    requires cfg.folds >= 1
  {
    cfg.windowStart + (cfg.windowEnd - cfg.windowStart) * i / cfg.folds
  }

  lemma KeyIsFold(trade: RoundTrip, cfg: WalkForwardConfig)
    requires Window(cfg.windowStart, cfg.windowEnd, cfg.folds) && InWindow(trade, cfg)
    requires EntriesFit(cfg.windowStart, cfg.windowEnd, cfg.folds)
    ensures KeyOf(trade, cfg)
         == (trade.entry.time - cfg.windowStart) * cfg.folds / (cfg.windowEnd - cfg.windowStart)
  {
    hide FoldIndex;
    EntryFits(trade.entry.time - cfg.windowStart, cfg.windowStart, cfg.windowEnd, cfg.folds);
    FoldIndexExactIff(trade.entry.time, cfg.windowStart, cfg.windowEnd, cfg.folds);
  }

  lemma FoldMembers(trades: seq<RoundTrip>, cfg: WalkForwardConfig, i: int)
    requires Window(cfg.windowStart, cfg.windowEnd, cfg.folds)
    requires EntriesFit(cfg.windowStart, cfg.windowEnd, cfg.folds)
    requires forall j | 0 <= j < |trades| :: InWindow(trades[j], cfg)
    ensures Part(trades, FoldKeys(trades, cfg), i) == Kept(trades, EnteredIn(trades, cfg, i), |trades|)
  {
    hide KeyOf, Part, Kept, InWindow, EntriesFit;
    forall j | 0 <= j < |trades|
      ensures KeyOf(trades[j], cfg)
           == (trades[j].entry.time - cfg.windowStart) * cfg.folds / (cfg.windowEnd - cfg.windowStart)
    {
      assert InWindow(trades[j], cfg);
      KeyIsFold(trades[j], cfg);
    }
    WholePart(trades, FoldKeys(trades, cfg), i, EnteredIn(trades, cfg, i));
  }

  /** Where no product wraps around, fold i of an accepted journal has the number i + 1, runs from its cut to the
      next one, and sums up the trades entered in it. */
  lemma FoldByValue(initial: real, trades: seq<RoundTrip>, cfg: WalkForwardConfig, i: int)
    requires WalkForwardOutcome(initial, trades, cfg).Ok?
    requires Window(cfg.windowStart, cfg.windowEnd, cfg.folds) && 0 <= i < cfg.folds
    requires EntriesFit(cfg.windowStart, cfg.windowEnd, cfg.folds)
    requires BoundsFit(cfg.windowStart, cfg.windowEnd, cfg.folds, i)
    ensures 0.0 < initial && |WalkForwardOutcome(initial, trades, cfg).value| == cfg.folds
    ensures WalkForwardOutcome(initial, trades, cfg).value[i]
         == Fold(i + 1, CutAt(cfg, i), CutAt(cfg, i + 1),
                 SummaryOf(initial, Kept(trades, EnteredIn(trades, cfg, i), |trades|)))
  {
    AcceptedInWindow(initial, trades, cfg);
    FoldMembers(trades, cfg, i);
    BoundsAreCuts(cfg.windowStart, cfg.windowEnd, cfg.folds, i);
    hide FoldBounds, Part, Kept, SummaryOf, FoldKeys, EnteredIn, FirstRefused;
  }
}
