/** Splitting a journal at one time, and into the folds of a window. Times are nanoseconds, and products of
    durations wrap around like 64-bit integers do. */
module WalkForward {
  import opened Metrics
  import opened Times
  import opened Trades
  import opened Wrappers

  /** The 64-bit integer an exact result wraps around to. */
  function Wrap64(x: int): int {
    (x + TWO63) % TWO64 - TWO63
  }

  /** Integer division as the program does it, toward zero. */
  function TruncDiv(x: int, d: int): int
    requires d > 0
  {
    if x >= 0 then x / d else -((-x) / d)
  }

  function FoldIndex(entry: int, start: int, end: int, folds: int): int
    requires start < end
  {
    var duration := TimeSub(end, start);
    var index := TruncDiv(Wrap64(TimeSub(entry, start) * folds), duration);
    if index < 0 then 0 else if index >= folds then folds - 1 else index
  }

  function FoldBounds(start: int, end: int, folds: int, index: int): (int, int)
    requires start < end && 1 <= folds
  {
    var duration := TimeSub(end, start);
    (start + TruncDiv(Wrap64(duration * index), folds),
     if index == folds - 1 then end else start + TruncDiv(Wrap64(duration * (index + 1)), folds))
  }

  // ---------------------------------------------------------------- parts of a journal

  /** The trades with key k, in journal order. */
  function Part(trades: seq<RoundTrip>, keys: seq<int>, k: int): seq<RoundTrip>
    requires |keys| == |trades|
  {
    if trades == [] then []
    else
      var n := |trades| - 1;
      Part(trades[..n], keys[..n], k) + if keys[n] == k then [trades[n]] else []
  }

  lemma PartStep(trades: seq<RoundTrip>, keys: seq<int>, k: int, n: int)
    requires |keys| == |trades| && 0 <= n < |trades|
    ensures Part(trades[..n + 1], keys[..n + 1], k)
         == Part(trades[..n], keys[..n], k) + if keys[n] == k then [trades[n]] else []
  {
    assert trades[..n + 1][..n] == trades[..n] && keys[..n + 1][..n] == keys[..n];
  }

  lemma {:induction false} PartValid(trades: seq<RoundTrip>, keys: seq<int>, k: int)
    requires |keys| == |trades| && FirstInvalid(trades) == |trades|
    ensures FirstInvalid(Part(trades, keys, k)) == |Part(trades, keys, k)|
    ensures forall i | 0 <= i < |Part(trades, keys, k)| :: ValidRoundTrip(Part(trades, keys, k)[i])
  {
    hide ValidRoundTrip;
    if trades == [] {
    } else {
      var n := |trades| - 1;
      PartValid(trades[..n], keys[..n], k);
    }
  }

  // ---------------------------------------------------------------- one split

  datatype SplitSummary = SplitSummary(splitTime: int, inSample: Summary, outOfSample: Summary)

  const IN_SAMPLE: int := 0
  const OUT_OF_SAMPLE: int := 1

  function SplitKeys(trades: seq<RoundTrip>, splitTime: int): (keys: seq<int>)
    ensures |keys| == |trades|
  {
    seq(|trades|, i requires 0 <= i < |trades| =>
      if trades[i].entry.time < splitTime then IN_SAMPLE else OUT_OF_SAMPLE)
  }

  function SplitOutcome(initial: real, trades: seq<RoundTrip>, splitTime: int): Result<SplitSummary, SummaryError> {
    var keys := SplitKeys(trades, splitTime);
    if splitTime == 0 then Err(NoSplitTime)
    else if initial <= 0.0 then Err(BadEquity)
    else if FirstInvalid(trades) < |trades| then Err(BadTrade(FirstInvalid(trades)))
    else Ok(SplitSummary(splitTime, SummaryOf(initial, Part(trades, keys, IN_SAMPLE)),
                         SummaryOf(initial, Part(trades, keys, OUT_OF_SAMPLE))))
  }

  method SummarizeRoundTripsBySplit(initial: real, trades: seq<RoundTrip>, splitTime: int)
    returns (r: Result<SplitSummary, SummaryError>)
    ensures r == SplitOutcome(initial, trades, splitTime)
  {
    hide ValidRoundTrip, SummaryOf;
    if splitTime == 0 {
      return Err(NoSplitTime);
    }
    if initial <= 0.0 {
      return Err(BadEquity);
    }
    ghost var keys := SplitKeys(trades, splitTime);
    var inSample: seq<RoundTrip> := [];
    var outOfSample: seq<RoundTrip> := [];
    for index := 0 to |trades|
      invariant inSample == Part(trades[..index], keys[..index], IN_SAMPLE)
      invariant outOfSample == Part(trades[..index], keys[..index], OUT_OF_SAMPLE)
      invariant forall i | 0 <= i < index :: ValidRoundTrip(trades[i])
    {
      var trade := trades[index];
      if !ValidRoundTrip(trade) {
        return Err(BadTrade(index));
      }
      PartStep(trades, keys, IN_SAMPLE, index);
      PartStep(trades, keys, OUT_OF_SAMPLE, index);
      hide Part;
      if trade.entry.time < splitTime {
        inSample := inSample + [trade];
        continue;
      }
      outOfSample := outOfSample + [trade];
    }
    assert trades[..|trades|] == trades && keys[..|trades|] == keys;
    PartValid(trades, keys, IN_SAMPLE);
    PartValid(trades, keys, OUT_OF_SAMPLE);
    hide Part;
    var inSummary := SummarizeRoundTrips(initial, inSample);
    // A part of a valid journal is valid: the error return here is never taken.
    assert inSummary.Ok?;
    var outSummary := SummarizeRoundTrips(initial, outOfSample);
    // A part of a valid journal is valid: the error return here is never taken.
    assert outSummary.Ok?;
    return Ok(SplitSummary(splitTime, inSummary.value, outSummary.value));
  }

  // ---------------------------------------------------------------- walk-forward folds

  datatype WalkForwardConfig = WalkForwardConfig(windowStart: int, windowEnd: int, folds: int)

  datatype Fold = Fold(index: int, start: int, end: int, summary: Summary)

  function ConfigProblem(initial: real, cfg: WalkForwardConfig): Option<SummaryError> {
    if initial <= 0.0 then Some(BadEquity)
    else if cfg.windowStart == 0 then Some(NoWindowStart)
    else if cfg.windowEnd == 0 then Some(NoWindowEnd)
    else if cfg.windowEnd <= cfg.windowStart then Some(EmptyWindow)
    else if cfg.folds < 2 then Some(TooFewFolds)
    else None
  }

  predicate InWindow(trade: RoundTrip, cfg: WalkForwardConfig) {
    cfg.windowStart <= trade.entry.time < cfg.windowEnd
  }

  /** The first trade that is invalid or outside the window, or the length. */
  function FirstRefused(trades: seq<RoundTrip>, cfg: WalkForwardConfig): (n: int)
    ensures 0 <= n <= |trades|
    ensures forall i | 0 <= i < n :: ValidRoundTrip(trades[i]) && InWindow(trades[i], cfg)
    ensures n < |trades| ==> !ValidRoundTrip(trades[n]) || !InWindow(trades[n], cfg)
  {
    if trades == [] || !ValidRoundTrip(trades[0]) || !InWindow(trades[0], cfg) then 0
    else 1 + FirstRefused(trades[1..], cfg)
  }

  function Problem(initial: real, trades: seq<RoundTrip>, cfg: WalkForwardConfig): Option<SummaryError> {
    var n := FirstRefused(trades, cfg);
    if ConfigProblem(initial, cfg).Some? then ConfigProblem(initial, cfg)
    else if n == |trades| then None
    else if !ValidRoundTrip(trades[n]) then Some(BadTrade(n))
    else Some(OutsideWindow(n))
  }

  function KeyOf(trade: RoundTrip, cfg: WalkForwardConfig): int
    requires cfg.windowStart < cfg.windowEnd
  {
    FoldIndex(trade.entry.time, cfg.windowStart, cfg.windowEnd, cfg.folds)
  }

  function FoldKeys(trades: seq<RoundTrip>, cfg: WalkForwardConfig): (keys: seq<int>)
    requires cfg.windowStart < cfg.windowEnd
    ensures |keys| == |trades|
  {
    seq(|trades|, i requires 0 <= i < |trades| => KeyOf(trades[i], cfg))
  }

  function FoldAt(initial: real, trades: seq<RoundTrip>, cfg: WalkForwardConfig, i: int): Fold
    requires ConfigProblem(initial, cfg).None?
  {
    var bounds := FoldBounds(cfg.windowStart, cfg.windowEnd, cfg.folds, i);
    Fold(i + 1, bounds.0, bounds.1, SummaryOf(initial, Part(trades, FoldKeys(trades, cfg), i)))
  }

  function FoldsOf(initial: real, trades: seq<RoundTrip>, cfg: WalkForwardConfig): seq<Fold>
    requires ConfigProblem(initial, cfg).None?
  {
    seq(cfg.folds, i requires 0 <= i < cfg.folds => FoldAt(initial, trades, cfg, i))
  }

  function WalkForwardOutcome(initial: real, trades: seq<RoundTrip>, cfg: WalkForwardConfig)
    : Result<seq<Fold>, SummaryError>
  {
    match Problem(initial, trades, cfg)
    case Some(e) => Err(e)
    case None => Ok(FoldsOf(initial, trades, cfg))
  }

  lemma AcceptedAreValid(trades: seq<RoundTrip>, cfg: WalkForwardConfig)
    requires FirstRefused(trades, cfg) == |trades|
    ensures FirstInvalid(trades) == |trades|
  {
    hide ValidRoundTrip;
  }

  lemma IndexInRange(entry: int, start: int, end: int, folds: int)
    requires start < end && 1 <= folds
    ensures 0 <= FoldIndex(entry, start, end, folds) < folds
  {
    hide TruncDiv, Wrap64, TimeSub;
  }

  method AssignFolds(initial: real, trades: seq<RoundTrip>, cfg: WalkForwardConfig, foldTrades: array<seq<RoundTrip>>)
    returns (problem: Option<SummaryError>)
    requires ConfigProblem(initial, cfg).None? && foldTrades.Length == cfg.folds
    requires forall k | 0 <= k < foldTrades.Length :: foldTrades[k] == []
    modifies foldTrades
    ensures problem == Problem(initial, trades, cfg)
    ensures problem.None? ==>
      forall k | 0 <= k < cfg.folds :: foldTrades[k] == Part(trades, FoldKeys(trades, cfg), k)
  {
    hide ValidRoundTrip, FoldIndex;
    ghost var keys := FoldKeys(trades, cfg);
    for index := 0 to |trades|
      invariant forall i | 0 <= i < index :: ValidRoundTrip(trades[i]) && InWindow(trades[i], cfg)
      invariant forall k | 0 <= k < cfg.folds :: foldTrades[k] == Part(trades[..index], keys[..index], k)
    {
      var trade := trades[index];
      if !ValidRoundTrip(trade) {
        return Some(BadTrade(index));
      }
      if trade.entry.time < cfg.windowStart || cfg.windowEnd <= trade.entry.time {
        return Some(OutsideWindow(index));
      }
      forall k
        ensures Part(trades[..index + 1], keys[..index + 1], k)
             == Part(trades[..index], keys[..index], k) + if keys[index] == k then [trade] else []
      {
        PartStep(trades, keys, k, index);
      }
      hide Part;
      IndexInRange(trade.entry.time, cfg.windowStart, cfg.windowEnd, cfg.folds);
      var foldIndex := FoldIndex(trade.entry.time, cfg.windowStart, cfg.windowEnd, cfg.folds);
      foldTrades[foldIndex] := foldTrades[foldIndex] + [trade];
    }
    assert trades[..|trades|] == trades && keys[..|trades|] == keys;
    return None;
  }

  method SummarizeRoundTripsByWalkForward(initial: real, trades: seq<RoundTrip>, cfg: WalkForwardConfig)
    returns (r: Result<seq<Fold>, SummaryError>)
    ensures r == WalkForwardOutcome(initial, trades, cfg)
  {
    hide ValidRoundTrip, FoldIndex, FoldBounds, SummaryOf, Part;
    var configProblem := ConfigProblem(initial, cfg);
    if configProblem.Some? {
      return Err(configProblem.value);
    }
    var foldTrades := new seq<RoundTrip>[cfg.folds](_ => []);
    var problem := AssignFolds(initial, trades, cfg, foldTrades);
    if problem.Some? {
      return Err(problem.value);
    }
    AcceptedAreValid(trades, cfg);
    var folds: seq<Fold> := [];
    for index := 0 to cfg.folds
      modifies {}
      invariant |folds| == index
      invariant forall i | 0 <= i < index :: folds[i] == FoldAt(initial, trades, cfg, i)
    {
      var bounds := FoldBounds(cfg.windowStart, cfg.windowEnd, cfg.folds, index);
      PartValid(trades, FoldKeys(trades, cfg), index);
      var summary := SummarizeRoundTrips(initial, foldTrades[index]);
      // A part of a valid journal is valid: the error return here is never taken.
      assert summary.Ok?;
      folds := folds + [Fold(index + 1, bounds.0, bounds.1, summary.value)];
    }
    assert folds == FoldsOf(initial, trades, cfg);
    return Ok(folds);
  }
}
