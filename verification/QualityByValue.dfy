/** What the data-quality calculation accepts, and what each field of its row holds. */
module QualityByValue {
  import opened Candles
  import opened DataQuality
  import opened DataQualityLaws
  import opened Decimals
  import opened RowsByValue
  import opened TextLaws
  import opened Times

  // ---------------------------------------------------------------- accepted input

  /** The later candle opens a positive whole number of intervals after the earlier one, within 292 years. */
  predicate Spaced(previous: Candle, current: Candle)
    requires current.series.interval in MINUTES_OF
  {
    var (gap, step) := (current.openTime - previous.openTime, MINUTES_OF[current.series.interval] * 60_000_000_000);
    0 < gap < TWO63 && gap % step == 0
  }

  lemma SpacedIff(previous: Candle, current: Candle)
    requires IntervalDuration(current.series.interval).Some?
    ensures current.series.interval in MINUTES_OF
    ensures Aligned(previous, current) <==> Spaced(previous, current)
  {
    IntervalTable(current.series.interval);
    if Aligned(previous, current) {
      AlignedIsTrue(previous, current);
      TrueIsShort(current.openTime, previous.openTime);
    }
    hide IntervalDuration;
  }

  lemma TrueIsShort(a: int, b: int)
    requires TimeSub(a, b) == a - b
    ensures a - b < TWO63
  {
  }

  /** A row is computed exactly for a staleness that is not negative, a set time, feature sets with a name, and
      sound candles of one series that open whole intervals apart. */
  lemma QualityAcceptedIff(input: Input, maxStaleness: int)
    ensures (forall i | 0 <= i < |input.candles| && SoundCandle(input.candles[i]) ::
               input.candles[i].series.interval in MINUTES_OF)
    ensures Outcome(input, maxStaleness).Ok? <==>
      && maxStaleness >= 0 && input.observedAt != 0
      && (forall k | 0 <= k < |input.sets| :: !AllSpace(input.sets[k].name))
      && (forall i | 0 <= i < |input.candles| ::
            SoundCandle(input.candles[i]) && input.candles[i].series == input.candles[0].series)
      && (forall i | 0 < i < |input.candles| :: Spaced(input.candles[i - 1], input.candles[i]))
  {
    forall k | 0 <= k < |input.sets| ensures Text.Blank(input.sets[k].name) <==> AllSpace(input.sets[k].name) {
      BlankIff(input.sets[k].name);
    }
    var cs := input.candles;
    forall i | 0 <= i < |cs| ensures ValidCandle(cs[i]) <==> SoundCandle(cs[i]) {
      SoundCandleIff(cs[i]);
    }
    forall i | 0 < i < |cs| && ValidCandle(cs[i]) ensures Aligned(cs[i - 1], cs[i]) <==> Spaced(cs[i - 1], cs[i]) {
      SpacedIff(cs[i - 1], cs[i]);
    }
    hide ValidCandle, Spaced, Text.Blank, AllSpace, RowOf;
  }

  /** Why an input is refused: the first thing that is wrong. */
  lemma QualityRefusedBy(input: Input, maxStaleness: int)
    requires Outcome(input, maxStaleness).Err?
    ensures var error := Outcome(input, maxStaleness).error;
      if maxStaleness < 0 then error == BadStaleness
      else if input.observedAt == 0 then error == NoObservedAt
      else if exists k :: 0 <= k < |input.sets| && AllSpace(input.sets[k].name) then error == UnnamedSet
      else error == BadCandles
  {
    forall k | 0 <= k < |input.sets| ensures Text.Blank(input.sets[k].name) <==> AllSpace(input.sets[k].name) {
      BlankIff(input.sets[k].name);
    }
    hide Text.Blank, AllSpace, Acceptable, RowOf;
  }

  // ---------------------------------------------------------------- the row

  /** How long before the observation the last candle closed: never less than nothing, and at most as long as a
      duration can be. */
  function Age(input: Input): int
    requires input.candles != []
  {
    var age := input.observedAt - input.candles[|input.candles| - 1].closeTime;
    if age <= 0 then 0 else if age < TWO63 then age else TWO63 - 1
  }

  /** The feature sets that are complete. */
  ghost function CompleteAt(sets: seq<FeatureSet>): set<int> {
    set k | 0 <= k < |sets| && sets[k].complete
  }

  lemma {:induction false} CompleteByCount(sets: seq<FeatureSet>)
    ensures CompleteSets(sets) == |CompleteAt(sets)|
  {
    if sets == [] {
    } else {
      var n := |sets| - 1;
      CompleteByCount(sets[..n]);
      assert CompleteAt(sets) == if sets[n].complete then CompleteAt(sets[..n]) + {n} else CompleteAt(sets[..n]);
    }
  }

  /** What one feature set is missing: nothing if it is complete, and "incomplete" if it does not say. */
  function SetMissing(f: FeatureSet): seq<string> {
    if f.complete then []
    else if f.reasons == [] then ["feature_set:" + f.name + ":incomplete"]
    else seq(|f.reasons|, i requires 0 <= i < |f.reasons| => "feature_set:" + f.name + ":" + f.reasons[i])
  }

  /** What the first n feature sets are missing. */
  ghost function SetsMissing(sets: seq<FeatureSet>, n: int): seq<string>
    requires 0 <= n <= |sets|
    decreases n
  {
    if n == 0 then [] else SetsMissing(sets, n - 1) + SetMissing(sets[n - 1])
  }

  lemma SetMissingIs(f: FeatureSet)
    ensures SetReasons(f) == SetMissing(f)
  {
    if !f.complete && f.reasons == [] {
      assert "feature_set:" + f.name + ":" + "incomplete" == "feature_set:" + f.name + ":incomplete";
    }
  }

  lemma {:induction false} SetsMissingIs(sets: seq<FeatureSet>, n: int)
    requires 0 <= n <= |sets|
    ensures AllSetReasons(sets[..n]) == SetsMissing(sets, n)
    decreases n
  {
    if n == 0 {
    } else {
      SetsMissingIs(sets, n - 1);
      SetMissingIs(sets[n - 1]);
      assert sets[..n][..n - 1] == sets[..n - 1];
      hide SetReasons, SetMissing;
    }
  }

  /** What the data itself, the feed and the book are missing, in order, before the feature sets. */
  function DataMissing(input: Input, staleness: int, gaps: int): seq<string> {
    Absent(input.candles == [], "candles")
    + Absent(input.candles != [] && Age(input) > staleness, "stale_data")
    + Absent(gaps > 0, "missing_candles")
    + Absent(!input.connected, "websocket_disconnected")
    + Absent(!input.orderbookValid, "orderbook_invalid")
    + Absent(input.sets == [], "feature_sets")
  }

  lemma AgeIs(input: Input)
    requires input.candles != []
    ensures Freshness(input) == Age(input)
  {
  }

  /** Every field of a row: the last close and its age, the candles missing between the first and the last open,
      the share of complete feature sets, and everything that is missing, in order. */
  lemma QualityRowByValue(input: Input, maxStaleness: int)
    requires Outcome(input, maxStaleness).Ok?
    ensures var (row, cs) := (Outcome(input, maxStaleness).value, input.candles);
      var staleness := if maxStaleness == 0 then 60_000_000_000 else maxStaleness;
      && (cs == [] ==> row.latestDataTime == 0 && row.freshnessMS == 0 && row.missingCandles == 0)
      && (cs != [] ==>
            && row.latestDataTime == cs[|cs| - 1].closeTime && row.freshnessMS == Age(input) / 1_000_000
            && cs[0].series.interval in MINUTES_OF && MINUTES_OF[cs[0].series.interval] > 0
            && row.missingCandles + |cs| - 1
                 == (cs[|cs| - 1].openTime - cs[0].openTime) / (MINUTES_OF[cs[0].series.interval] * 60_000_000_000))
      && row.score == (if input.sets == [] then 0.0
                       else Quo(|CompleteAt(input.sets)| as real, |input.sets| as real))
      && row.missing == DataMissing(input, staleness, row.missingCandles) + SetsMissing(input.sets, |input.sets|)
      && (row.complete <==> row.missing == [])
  {
    CompleteByCount(input.sets);
    SetsMissingIs(input.sets, |input.sets|);
    assert input.sets[..|input.sets|] == input.sets;
    hide CompleteSets, CompleteAt, AllSetReasons, SetsMissing, Quo, Age, Freshness;
    if input.candles != [] {
      AgeIs(input);
      MissingFillsTheSpan(input.candles);
      IntervalTable(input.candles[0].series.interval);
    }
    hide IntervalDuration, Acceptable;
  }
}
