/** Gaps in a candle series and the data-quality row built from them. */
module DataQuality {
  import opened Candles
  import opened Decimals
  import opened Text
  import opened Times
  import opened Wrappers

  /** A candle may follow another at any positive multiple of the interval. */
  predicate Aligned(previous: Candle, current: Candle)
    requires IntervalDuration(current.series.interval).Some?
  {
    var duration := IntervalDuration(current.series.interval).value;
    previous.openTime < current.openTime && TimeSub(current.openTime, previous.openTime) % duration == 0
  }

  predicate Acceptable(cs: seq<Candle>) {
    && (forall i | 0 <= i < |cs| :: ValidCandle(cs[i]) && cs[i].series == cs[0].series)
    && (forall i | 0 < i < |cs| :: Aligned(cs[i - 1], cs[i]))
  }

  method ValidateCandles(cs: seq<Candle>) returns (ok: bool)
    ensures ok <==> Acceptable(cs)
  {
    for index := 0 to |cs|
      invariant forall i | 0 <= i < index :: ValidCandle(cs[i])
    {
      if !ValidCandle(cs[index]) {
        return false;
      }
    }
    var problems := 0;
    for index := 0 to |cs|
      invariant problems >= 0
      invariant problems == 0 <==>
        && (forall i | 0 <= i < index :: cs[i].series == cs[0].series)
        && (forall i | 0 < i < index :: Aligned(cs[i - 1], cs[i]))
    {
      var candle := cs[index];
      if candle.series != cs[0].series {
        problems := problems + 1;
      }
      if index == 0 {
        continue;
      }
      var previous := cs[index - 1];
      if candle.openTime <= previous.openTime {
        problems := problems + 1;
        assert !Aligned(cs[index - 1], cs[index]);
        continue;
      }
      var duration := IntervalDuration(candle.series.interval).value;
      if TimeSub(candle.openTime, previous.openTime) % duration != 0 {
        problems := problems + 1;
      }
      assert Aligned(cs[index - 1], cs[index]) <==> TimeSub(candle.openTime, previous.openTime) % duration == 0;
    }
    return problems == 0;
  }

  /** The candles missing between two neighbours. */
  function Missing(previous: Candle, current: Candle, duration: int): int
    requires duration > 0
  {
    var delta := TimeSub(current.openTime, previous.openTime);
    if delta <= duration then 0 else delta / duration - 1
  }

  function MissingUpTo(cs: seq<Candle>, duration: int, n: int): int
    requires duration > 0 && 1 <= n <= |cs|
    decreases n
  {
    if n == 1 then 0 else MissingUpTo(cs, duration, n - 1) + Missing(cs[n - 2], cs[n - 1], duration)
  }

  function MissingCount(cs: seq<Candle>): int {
    if |cs| < 2 then 0
    else
      match IntervalDuration(cs[0].series.interval)
      case None => 0
      case Some(duration) => if duration > 0 then MissingUpTo(cs, duration, |cs|) else 0
  }

  lemma DurationsArePositive(interval: string)
    ensures IntervalDuration(interval).Some? ==> IntervalDuration(interval).value > 0
  {
  }

  method CountMissingCandles(cs: seq<Candle>) returns (missing: int)
    ensures missing == MissingCount(cs)
  {
    if |cs| < 2 {
      return 0;
    }
    DurationsArePositive(cs[0].series.interval);
    hide IntervalDuration;
    var interval := IntervalDuration(cs[0].series.interval);
    if interval.None? {
      return 0;
    }
    var duration := interval.value;
    missing := 0;
    for index := 1 to |cs|
      invariant missing == MissingUpTo(cs, duration, index)
    {
      var delta := TimeSub(cs[index].openTime, cs[index - 1].openTime);
      if delta <= duration {
        continue;
      }
      missing := missing + (delta / duration - 1);
    }
  }

  // ---------------------------------------------------------------- the row

  datatype FeatureSet = FeatureSet(name: string, complete: bool, reasons: seq<string>)

  datatype Input = Input(
    candles: seq<Candle>, observedAt: int, connected: bool, orderbookValid: bool, sets: seq<FeatureSet>)

  datatype Row = Row(
    latestDataTime: int, freshnessMS: int, missingCandles: int, score: real, complete: bool, missing: seq<string>)

  datatype QualityError = BadStaleness | NoObservedAt | UnnamedSet | BadCandles

  function CompleteSets(sets: seq<FeatureSet>): (n: int)
    ensures 0 <= n <= |sets|
  {
    if sets == [] then 0
    else CompleteSets(sets[..|sets| - 1]) + if sets[|sets| - 1].complete then 1 else 0
  }

  function Score(sets: seq<FeatureSet>): real {
    if sets == [] then 0.0 else Quo(CompleteSets(sets) as real, |sets| as real)
  }

  method FeatureCompletenessScore(sets: seq<FeatureSet>) returns (score: real)
    ensures score == Score(sets)
  {
    if |sets| == 0 {
      return 0.0;
    }
    var complete := 0;
    for k := 0 to |sets|
      invariant complete == CompleteSets(sets[..k])
    {
      assert sets[..k + 1][..k] == sets[..k];
      if sets[k].complete {
        complete := complete + 1;
      }
    }
    assert sets[..|sets|] == sets;
    return Quo(complete as real, |sets| as real);
  }

  function Prefixed(name: string, reasons: seq<string>): (r: seq<string>)
    ensures |r| == |reasons|
  {
    seq(|reasons|, i requires 0 <= i < |reasons| => "feature_set:" + name + ":" + reasons[i])
  }

  function SetReasons(features: FeatureSet): seq<string> {
    if features.complete then []
    else Prefixed(features.name, if features.reasons == [] then ["incomplete"] else features.reasons)
  }

  function AllSetReasons(sets: seq<FeatureSet>): seq<string> {
    if sets == [] then [] else AllSetReasons(sets[..|sets| - 1]) + SetReasons(sets[|sets| - 1])
  }

  function Freshness(input: Input): int
    requires input.candles != []
  {
    var age := TimeSub(input.observedAt, input.candles[|input.candles| - 1].closeTime);
    if age < 0 then 0 else age
  }

  function If(condition: bool, reason: string): seq<string> {
    if condition then [reason] else []
  }

  function DataReasons(input: Input, staleness: int): seq<string> {
    If(input.candles == [], "candles")
    + If(input.candles != [] && Freshness(input) > staleness, "stale_data")
    + If(MissingCount(input.candles) > 0, "missing_candles")
  }

  function Reasons(input: Input, staleness: int): seq<string> {
    DataReasons(input, staleness)
    + If(!input.connected, "websocket_disconnected") + If(!input.orderbookValid, "orderbook_invalid")
    + If(input.sets == [], "feature_sets") + AllSetReasons(input.sets)
  }

  function RowOf(input: Input, staleness: int): Row {
    var missing := Reasons(input, staleness);
    Row(if input.candles == [] then 0 else input.candles[|input.candles| - 1].closeTime,
        if input.candles == [] then 0 else Freshness(input) / 1_000_000,
        MissingCount(input.candles), Score(input.sets), |missing| == 0, missing)
  }

  predicate AllNamed(sets: seq<FeatureSet>) {
    forall k | 0 <= k < |sets| :: !Blank(sets[k].name)
  }

  /** Zero asks for the default of one minute. */
  function Outcome(input: Input, maxStaleness: int): Result<Row, QualityError> {
    if maxStaleness < 0 then Err(BadStaleness)
    else if input.observedAt == 0 then Err(NoObservedAt)
    else if !AllNamed(input.sets) then Err(UnnamedSet)
    else if !Acceptable(input.candles) then Err(BadCandles)
    else Ok(RowOf(input, if maxStaleness == 0 then MINUTE else maxStaleness))
  }

  method CollectSetReasons(sets: seq<FeatureSet>) returns (missing: seq<string>)
    ensures missing == AllSetReasons(sets)
  {
    missing := [];
    for k := 0 to |sets|
      invariant missing == AllSetReasons(sets[..k])
    {
      assert sets[..k + 1][..k] == sets[..k];
      var next := sets[k];
      if next.complete {
        continue;
      }
      if |next.reasons| == 0 {
        assert Prefixed(next.name, ["incomplete"]) == ["feature_set:" + next.name + ":" + "incomplete"];
        missing := missing + ["feature_set:" + next.name + ":" + "incomplete"];
        continue;
      }
      var added: seq<string> := [];
      for j := 0 to |next.reasons|
        invariant added == Prefixed(next.name, next.reasons[..j])
      {
        assert Prefixed(next.name, next.reasons[..j + 1])
            == Prefixed(next.name, next.reasons[..j]) + ["feature_set:" + next.name + ":" + next.reasons[j]];
        added := added + ["feature_set:" + next.name + ":" + next.reasons[j]];
      }
      assert next.reasons[..|next.reasons|] == next.reasons;
      missing := missing + added;
    }
    assert sets[..|sets|] == sets;
  }

  method ComputeDataQualityFeatures(input: Input, maxStaleness: int) returns (r: Result<Row, QualityError>)
    ensures r == Outcome(input, maxStaleness)
  {
    hide Acceptable, MissingCount, Score, AllSetReasons, Blank, TimeSub;
    var staleness := if maxStaleness == 0 then MINUTE else maxStaleness;
    if staleness <= 0 {
      return Err(BadStaleness);
    }
    if input.observedAt == 0 {
      return Err(NoObservedAt);
    }
    for k := 0 to |input.sets|
      invariant forall j | 0 <= j < k :: !Blank(input.sets[j].name)
    {
      if Blank(input.sets[k].name) {
        return Err(UnnamedSet);
      }
    }
    var accepted := ValidateCandles(input.candles);
    if !accepted {
      return Err(BadCandles);
    }
    var missingCandles := CountMissingCandles(input.candles);
    var score := FeatureCompletenessScore(input.sets);
    var missing: seq<string> := [];
    var latestDataTime, freshnessMS := 0, 0;
    if |input.candles| == 0 {
      missing := missing + ["candles"];
    } else {
      latestDataTime := input.candles[|input.candles| - 1].closeTime;
      var freshness := TimeSub(input.observedAt, latestDataTime);
      if freshness < 0 {
        freshness := 0;
      }
      freshnessMS := freshness / 1_000_000;
      if freshness > staleness {
        missing := missing + ["stale_data"];
      }
    }
    if missingCandles > 0 {
      missing := missing + ["missing_candles"];
    }
    assert missing == DataReasons(input, staleness);
    hide DataReasons, If;
    missing := missing + If(!input.connected, "websocket_disconnected");
    missing := missing + If(!input.orderbookValid, "orderbook_invalid");
    missing := missing + If(|input.sets| == 0, "feature_sets");
    var reasons := CollectSetReasons(input.sets);
    missing := missing + reasons;
    return Ok(Row(latestDataTime, freshnessMS, missingCandles, score, |missing| == 0, missing));
  }
}

/** What gap counts and scores mean. */
module DataQualityLaws {
  import opened Candles
  import opened DataQuality
  import opened Decimals
  import opened Times
  import opened Wrappers

  /** Every interval is a whole number of minutes. */
  lemma IntervalsAreWhole(interval: string) returns (minutes: int)
    requires IntervalDuration(interval).Some?
    ensures 1 <= minutes && IntervalDuration(interval).value == minutes * MINUTE
  {
    minutes := IntervalDuration(interval).value / MINUTE;
  }

  /** Neighbours that are accepted are their true distance apart. */
  lemma AlignedIsTrue(previous: Candle, current: Candle)
    requires IntervalDuration(current.series.interval).Some? && Aligned(previous, current)
    ensures TimeSub(current.openTime, previous.openTime) == current.openTime - previous.openTime
  {
    var minutes := IntervalsAreWhole(current.series.interval);
    hide IntervalDuration;
    WholeMinutesAreTrue(current.openTime, previous.openTime, minutes);
  }

  lemma StepsBetween(previous: Candle, current: Candle, duration: int)
    requires duration > 0 && previous.openTime < current.openTime
    requires TimeSub(current.openTime, previous.openTime) == current.openTime - previous.openTime
    requires (current.openTime - previous.openTime) % duration == 0
    ensures current.openTime - previous.openTime == (Missing(previous, current, duration) + 1) * duration
    ensures 0 <= Missing(previous, current, duration)
    ensures Missing(previous, current, duration) == 0 <==> current.openTime == previous.openTime + duration
  {
    var delta := current.openTime - previous.openTime;
    var steps := delta / duration;
    QuotientBounds(delta, duration);
    assert delta == steps * duration;
    if steps <= 0 {
      MulMono(steps, 0, duration);
    }
    if delta <= duration {
      if steps >= 2 {
        MulMono(2, steps, duration);
      }
    }
  }

  /** Telescoping: the span of the first n candles is the missing ones and the n - 1 steps together. */
  lemma {:induction false} SpanIsSteps(cs: seq<Candle>, duration: int, n: int)
    requires Acceptable(cs) && 1 <= n <= |cs| && duration > 0
    requires IntervalDuration(cs[0].series.interval) == Some(duration)
    ensures cs[n - 1].openTime - cs[0].openTime == (MissingUpTo(cs, duration, n) + n - 1) * duration
    ensures 0 <= MissingUpTo(cs, duration, n)
    ensures MissingUpTo(cs, duration, n) == 0 <==>
      forall i | 0 < i < n :: cs[i].openTime == cs[i - 1].openTime + duration
    decreases n
  {
    hide IntervalDuration, Missing, ValidCandle;
    if n == 1 {
    } else {
      SpanIsSteps(cs, duration, n - 1);
      assert Aligned(cs[n - 2], cs[n - 1]) && cs[n - 1].series == cs[0].series;
      AlignedIsTrue(cs[n - 2], cs[n - 1]);
      StepsBetween(cs[n - 2], cs[n - 1], duration);
      var before, gap := MissingUpTo(cs, duration, n - 1) + n - 2, Missing(cs[n - 2], cs[n - 1], duration);
      assert (before + gap + 1) * duration == before * duration + (gap + 1) * duration;
    }
  }

  /** For accepted candles the missing and the present ones fill the span: missing + length is the number of
      intervals from the first open to the last, plus one. */
  lemma MissingFillsTheSpan(cs: seq<Candle>)
    requires Acceptable(cs) && cs != []
    ensures IntervalDuration(cs[0].series.interval).Some?
    ensures var duration := IntervalDuration(cs[0].series.interval).value;
      duration > 0 && MissingCount(cs) + |cs| == (cs[|cs| - 1].openTime - cs[0].openTime) / duration + 1
  {
    hide IntervalDuration, MissingUpTo;
    assert ValidCandle(cs[0]);
    DurationsArePositive(cs[0].series.interval);
    var duration := IntervalDuration(cs[0].series.interval).value;
    hide ValidCandle, Acceptable;
    SpanIsSteps(cs, duration, |cs|);
    if |cs| == 1 {
      SpanOfOne(cs, duration);
    }
    var steps := MissingUpTo(cs, duration, |cs|) + |cs| - 1;
    assert duration * steps == steps * duration;
    QuotientUnique(cs[|cs| - 1].openTime - cs[0].openTime, duration, steps);
  }

  lemma SpanOfOne(cs: seq<Candle>, duration: int)
    requires |cs| == 1 && duration > 0
    ensures MissingUpTo(cs, duration, 1) == 0
  {
  }

  /** Nothing is missing exactly when each candle opens where the one before closes, so that closed candles are
      the contiguous ones every feature calculation accepts. */
  lemma NothingMissingIffContiguous(cs: seq<Candle>)
    requires Acceptable(cs) && forall i | 0 <= i < |cs| :: cs[i].closed
    ensures MissingCount(cs) == 0 <==> Contiguous(cs)
  {
    if cs != [] {
      assert ValidCandle(cs[0]);
      DurationsArePositive(cs[0].series.interval);
      var duration := IntervalDuration(cs[0].series.interval).value;
      SpanIsSteps(cs, duration, |cs|);
      forall i | 0 < i < |cs|
        ensures Follows(cs[i - 1], cs[i]) <==> cs[i].openTime == cs[i - 1].openTime + duration
      {
        assert ValidCandle(cs[i - 1]) && cs[i - 1].series == cs[0].series;
        assert Aligned(cs[i - 1], cs[i]);
        hide IntervalDuration;
      }
      hide IntervalDuration, ValidCandle, Follows;
    }
  }

  lemma {:induction false} NoReasonsIffComplete(sets: seq<FeatureSet>)
    ensures AllSetReasons(sets) == [] <==> CompleteSets(sets) == |sets|
  {
    if sets == [] {
    } else {
      NoReasonsIffComplete(sets[..|sets| - 1]);
    }
  }

  lemma ScoreOfComplete(sets: seq<FeatureSet>)
    requires sets != [] && CompleteSets(sets) == |sets|
    ensures Score(sets) == 1.0
  {
    QuoSelf(|sets| as real);
  }

  /** A complete row has fresh data without a gap, a live connection, a valid book and a full score, and it is
      complete for nothing less. */
  lemma CompleteRowMeans(input: Input, maxStaleness: int)
    requires Outcome(input, maxStaleness).Ok?
    ensures var row := Outcome(input, maxStaleness).value;
      var staleness := if maxStaleness == 0 then MINUTE else maxStaleness;
      && (row.complete <==>
            && input.candles != [] && Freshness(input) <= staleness && MissingCount(input.candles) <= 0
            && input.connected && input.orderbookValid && input.sets != [] && CompleteSets(input.sets) == |input.sets|)
      && (row.complete ==> row.score == 1.0 && row.missingCandles == 0 && 0 <= row.freshnessMS)
  {
    NoReasonsIffComplete(input.sets);
    hide AllSetReasons, Score, CompleteSets;
    if input.candles != [] {
      MissingFillsTheSpan(input.candles);
      NonNegativeCount(input.candles);
    }
    if input.sets != [] && CompleteSets(input.sets) == |input.sets| {
      ScoreOfComplete(input.sets);
    }
    hide MissingCount, Acceptable, IntervalDuration;
  }

  lemma NonNegativeCount(cs: seq<Candle>)
    requires Acceptable(cs) && cs != []
    ensures 0 <= MissingCount(cs)
  {
    hide IntervalDuration;
    assert ValidCandle(cs[0]);
    DurationsArePositive(cs[0].series.interval);
    SpanIsSteps(cs, IntervalDuration(cs[0].series.interval).value, |cs|);
  }
}
