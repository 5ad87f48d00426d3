/** Downloading the hourly candles of an experiment page by page. */
module Download {
  import opened Candles
  import opened Times
  import opened Wrappers

  const PAGE: int := 1000
  const MILLISECOND: int := 1_000_000

  /** The windows of a plan. The other plan fields do not steer the download. */
  datatype Plan = Plan(series: Series, dataStart: int, developmentStart: int, validationStart: int, validationEnd: int)

  predicate OnHour(t: int) {
    t != 0 && t % HOUR == 0
  }

  predicate ValidPlan(p: Plan) {
    && p.series == Series("bybit", "spot", "BTCUSDT", "60")
    && p.dataStart < p.developmentStart < p.validationStart < p.validationEnd
    && OnHour(p.dataStart) && OnHour(p.developmentStart) && OnHour(p.validationStart) && OnHour(p.validationEnd)
    && TimeSub(p.validationEnd, p.validationStart) % (4 * HOUR) == 0
  }

  datatype Request = Request(start: int, end: int, limit: int)

  /** The exchange answers the n-th request with rows or an error. Cancellation is asked for by page. */
  datatype Exchange = Exchange(answer: (nat, Request) -> Option<seq<Candle>>, cancelled: nat -> bool)

  datatype DownloadError = BadPlan | Cancelled | RequestFailed | IncompletePage | UnorderedPage | BadCandles

  /** What an experiment accepts: the whole window, hour by hour, valid, closed and of one series. */
  predicate ValidExperimentCandles(p: Plan, cs: seq<Candle>) {
    && |cs| == TimeSub(p.validationEnd, p.dataStart) / HOUR
    && forall i | 0 <= i < |cs| ::
      ValidCandle(cs[i]) && cs[i].closed && cs[i].series == p.series && cs[i].openTime == p.dataStart + i * HOUR
  }

  /** Candle i opens i hours after the start. */
  predicate HourByHour(cs: seq<Candle>, start: int) {
    forall i | 0 <= i < |cs| :: cs[i].openTime == start + i * HOUR
  }

  /** The requests so far are pages of at most a thousand hours that meet end to start and cover the time from
      the start to the cursor. */
  ghost predicate Tiles(requests: seq<Request>, start: int, cursor: int) {
    if requests == [] then cursor == start
    else
      var last := requests[|requests| - 1];
      && last.limit == PAGE
      && last.end == cursor - MILLISECOND
      && (cursor - last.start) % HOUR == 0 && 0 < cursor - last.start <= PAGE * HOUR
      && Tiles(requests[..|requests| - 1], start, last.start)
  }

  /** The requests cover the window up to the cursor. */
  ghost predicate TilesWindow(requests: seq<Request>, p: Plan, cursor: int) {
    && Tiles(requests, p.dataStart, cursor) && p.dataStart <= cursor
    && (ValidPlan(p) ==> cursor <= p.validationEnd)
  }

  lemma TileOneMore(requests: seq<Request>, start: int, cursor: int, end: int)
    requires Tiles(requests, start, cursor) && (end - cursor) % HOUR == 0 && 0 < end - cursor <= PAGE * HOUR
    ensures Tiles(requests + [Request(cursor, end - MILLISECOND, PAGE)], start, end)
  {
    assert (requests + [Request(cursor, end - MILLISECOND, PAGE)])[..|requests|] == requests;
  }

  lemma PageEnd(cursor: int, validationEnd: int)
    requires cursor < validationEnd && cursor % HOUR == 0 && validationEnd % HOUR == 0
    ensures var end := if cursor + PAGE * HOUR > validationEnd then validationEnd else cursor + PAGE * HOUR;
      && end % HOUR == 0 && (end - cursor) % HOUR == 0 && 0 < end - cursor <= PAGE * HOUR && end <= validationEnd
  {
  }

  lemma HoursAddUp(start: int, cursor: int, end: int)
    requires start % HOUR == 0 && cursor % HOUR == 0 && end % HOUR == 0 && start <= cursor <= end
    ensures cursor == start + (cursor - start) / HOUR * HOUR
    ensures (end - start) / HOUR == (cursor - start) / HOUR + (end - cursor) / HOUR
  {
  }

  lemma AppendPage(cs: seq<Candle>, rows: seq<Candle>, start: int, cursor: int, end: int)
    requires HourByHour(cs, start) && HourByHour(rows, cursor)
    requires start % HOUR == 0 && cursor % HOUR == 0 && end % HOUR == 0 && start <= cursor <= end
    requires |cs| == (cursor - start) / HOUR && |rows| == (end - cursor) / HOUR
    ensures HourByHour(cs + rows, start) && |cs + rows| == (end - start) / HOUR
  {
    HoursAddUp(start, cursor, end);
    forall i | 0 <= i < |cs + rows| ensures (cs + rows)[i].openTime == start + i * HOUR {
      if |cs| <= i {
        assert (cs + rows)[i] == rows[i - |cs|];
      }
    }
  }

  method ValidateExperimentCandles(p: Plan, cs: seq<Candle>) returns (ok: bool)
    requires ValidPlan(p)
    ensures ok <==> ValidExperimentCandles(p, cs)
  {
    if |cs| != TimeSub(p.validationEnd, p.dataStart) / HOUR {
      return false;
    }
    hide ValidCandle;
    for i := 0 to |cs|
      invariant forall k | 0 <= k < i ::
        ValidCandle(cs[k]) && cs[k].closed && cs[k].series == p.series && cs[k].openTime == p.dataStart + k * HOUR
    {
      if !ValidCandle(cs[i]) {
        return false;
      }
      if !cs[i].closed || cs[i].series != p.series || cs[i].openTime != p.dataStart + i * HOUR {
        return false;
      }
    }
    return true;
  }

  /** Checks that the rows of a page open hour by hour from the cursor. */
  method CheckOrder(rows: seq<Candle>, cursor: int) returns (ok: bool)
    ensures ok <==> HourByHour(rows, cursor)
  {
    for i := 0 to |rows|
      invariant forall k | 0 <= k < i :: rows[k].openTime == cursor + k * HOUR
    {
      if rows[i].openTime != cursor + i * HOUR {
        return false;
      }
    }
    return true;
  }

  // ---------------------------------------------------------------- what a download is, page by page

  /** Page n starts n thousand hours after the start of the data. */
  function PageStart(p: Plan, n: int): int {
    p.dataStart + n * (1000 * HOUR)
  }

  /** It stops where the next one starts, or with the window. */
  function PageStop(p: Plan, n: int): int {
    if PageStart(p, n + 1) < p.validationEnd then PageStart(p, n + 1) else p.validationEnd
  }

  function PageRequest(p: Plan, n: int): Request {
    Request(PageStart(p, n), PageStop(p, n) - 1_000_000, 1000)
  }

  function PageRows(exchange: Exchange, p: Plan, n: nat): Option<seq<Candle>> {
    exchange.answer(n, PageRequest(p, n))
  }

  predicate WholePage(p: Plan, n: int, rows: seq<Candle>) {
    |rows| * HOUR == PageStop(p, n) - PageStart(p, n)
  }

  predicate OrderedPage(p: Plan, n: int, rows: seq<Candle>) {
    forall i | 0 <= i < |rows| :: rows[i].openTime == PageStart(p, n) + i * HOUR
  }

  /** Nobody cancelled before page n, and it was answered with every hour of the page in order. */
  predicate GoodPage(exchange: Exchange, p: Plan, n: nat) {
    && !exchange.cancelled(n)
    && PageRows(exchange, p, n).Some?
    && WholePage(p, n, PageRows(exchange, p, n).value)
    && OrderedPage(p, n, PageRows(exchange, p, n).value)
  }

  /** The rows of the first n pages, one after the other. */
  function FirstPages(exchange: Exchange, p: Plan, n: nat): seq<Candle> {
    if n == 0 then []
    else
      FirstPages(exchange, p, n - 1)
      + match PageRows(exchange, p, n - 1) case Some(rows) => rows case None => []
  }

  /** The plan is of the one supported market, its windows are ordered and on the hour, and the validation splits
      into blocks of four hours. */
  predicate PlanAccepted(p: Plan) {
    && p.series.exchange == "bybit" && p.series.category == "spot"
    && p.series.symbol == "BTCUSDT" && p.series.interval == "60"
    && p.dataStart < p.developmentStart < p.validationStart < p.validationEnd
    && (forall t | t in {p.dataStart, p.developmentStart, p.validationStart, p.validationEnd} ::
          t != 0 && t % HOUR == 0)
    && (p.validationEnd - p.validationStart) % (4 * HOUR) == 0 && p.validationEnd - p.validationStart < TWO63
  }

  lemma PlanAcceptedIff(p: Plan)
    ensures ValidPlan(p) <==> PlanAccepted(p)
  {
    if p.validationStart < p.validationEnd && TimeSub(p.validationEnd, p.validationStart) % (4 * HOUR) == 0 {
      WholeMinutesAreTrue(p.validationEnd, p.validationStart, 4 * 60);
    }
  }

  /** The joined pages are the candles of an experiment: the window is a 64-bit duration, and every candle is
      valid, closed and of the plan's series. */
  predicate CandlesAccepted(p: Plan, cs: seq<Candle>) {
    && p.validationEnd - p.dataStart < TWO63
    && forall c | c in cs :: ValidCandle(c) && c.closed && c.series == p.series
  }

  /** Every page of the window is good and their candles are accepted. */
  ghost predicate Succeeds(exchange: Exchange, p: Plan) {
    && PlanAccepted(p)
    && (forall n: nat | PageStart(p, n) < p.validationEnd :: GoodPage(exchange, p, n))
    && forall n: nat | PageStart(p, n) < p.validationEnd <= PageStart(p, n + 1) ::
      CandlesAccepted(p, FirstPages(exchange, p, n + 1))
  }

  /** The first n pages were asked for, one after the other, and all of them are good but perhaps the last. */
  predicate Asked(exchange: Exchange, p: Plan, requests: seq<Request>, good: int) {
    && (forall n | 0 <= n < |requests| :: PageStart(p, n) < p.validationEnd && requests[n] == PageRequest(p, n))
    && |requests| - 1 <= good <= |requests|
    && forall n | 0 <= n < good :: GoodPage(exchange, p, n)
  }

  /** The outcome and its cause, at the page after the requests made or at the last of them. */
  predicate Caused(exchange: Exchange, p: Plan, r: Result<seq<Candle>, DownloadError>, requests: seq<Request>) {
    var n := |requests|;
    match r
    case Err(BadPlan) => !PlanAccepted(p) && requests == []
    case Err(Cancelled) =>
      Asked(exchange, p, requests, n) && PageStart(p, n) < p.validationEnd && exchange.cancelled(n)
    case Err(RequestFailed) =>
      Asked(exchange, p, requests, n - 1) && 1 <= n && PageRows(exchange, p, n - 1).None?
    case Err(IncompletePage) =>
      Asked(exchange, p, requests, n - 1) && 1 <= n && PageRows(exchange, p, n - 1).Some?
      && !WholePage(p, n - 1, PageRows(exchange, p, n - 1).value)
    case Err(UnorderedPage) =>
      Asked(exchange, p, requests, n - 1) && 1 <= n && PageRows(exchange, p, n - 1).Some?
      && WholePage(p, n - 1, PageRows(exchange, p, n - 1).value)
      && !OrderedPage(p, n - 1, PageRows(exchange, p, n - 1).value)
    case Err(BadCandles) =>
      Asked(exchange, p, requests, n) && PageStart(p, n) >= p.validationEnd
      && !CandlesAccepted(p, FirstPages(exchange, p, n))
    case Ok(cs) =>
      Asked(exchange, p, requests, n) && PageStart(p, n) >= p.validationEnd
      && cs == FirstPages(exchange, p, n) && CandlesAccepted(p, cs)
  }

  /** What the loop has done when it is about to make the next request. */
  ghost predicate Progress(exchange: Exchange, p: Plan, requests: seq<Request>, cursor: int, result: seq<Candle>) {
    var n := |requests|;
    && Asked(exchange, p, requests, n) && result == FirstPages(exchange, p, n)
    && cursor == if PageStart(p, n) < p.validationEnd then PageStart(p, n) else p.validationEnd
  }

  lemma NextPage(p: Plan, n: nat, cursor: int, end: int)
    requires PageStart(p, n) == cursor < p.validationEnd
    requires end == if cursor + PAGE * HOUR > p.validationEnd then p.validationEnd else cursor + PAGE * HOUR
    ensures PageRequest(p, n) == Request(cursor, end - MILLISECOND, PAGE) && PageStop(p, n) == end
    ensures end == if PageStart(p, n + 1) < p.validationEnd then PageStart(p, n + 1) else p.validationEnd
  {
  }

  lemma PageCounts(p: Plan, n: nat, cursor: int, end: int, rows: seq<Candle>)
    requires PageStart(p, n) == cursor && PageStop(p, n) == end && (end - cursor) % HOUR == 0
    ensures WholePage(p, n, rows) <==> |rows| == (end - cursor) / HOUR
    ensures OrderedPage(p, n, rows) <==> HourByHour(rows, cursor)
  {
  }

  /** The final check sees only what is not known yet of hours that were joined in order. */
  lemma FinalCheck(p: Plan, cs: seq<Candle>)
    requires PlanAccepted(p) && HourByHour(cs, p.dataStart) && |cs| == (p.validationEnd - p.dataStart) / HOUR
    ensures ValidExperimentCandles(p, cs) <==> CandlesAccepted(p, cs)
  {
    var span := p.validationEnd - p.dataStart;
    var hours := {p.dataStart, p.developmentStart, p.validationStart, p.validationEnd};
    assert p.dataStart in hours && p.validationEnd in hours;
    WholeHours(p.dataStart, p.validationEnd);
    hide ValidCandle;
    if span >= TWO63 {
      LongSpan(span);
    }
    if ValidExperimentCandles(p, cs) {
      forall c | c in cs ensures ValidCandle(c) && c.closed && c.series == p.series {
        var i :| 0 <= i < |cs| && cs[i] == c;
      }
    }
  }

  lemma WholeHours(a: int, b: int)
    requires a % HOUR == 0 && b % HOUR == 0
    ensures (b - a) % HOUR == 0
  {
  }

  /** A saturated span counts fewer hours than there are. */
  lemma LongSpan(span: int)
    requires span >= TWO63 && span % HOUR == 0
    ensures (TWO63 - 1) / HOUR != span / HOUR
  {
  }

  lemma OutcomeDecides(exchange: Exchange, p: Plan, r: Result<seq<Candle>, DownloadError>, requests: seq<Request>)
    requires Caused(exchange, p, r, requests) && (PlanAccepted(p) || r == Err(BadPlan))
    ensures r.Ok? <==> Succeeds(exchange, p)
  {
    if r.Ok? || r == Err(BadCandles) {
      AllPagesDecide(exchange, p, r, requests);
    } else {
      hide PageStart, PageRows, WholePage, OrderedPage, CandlesAccepted, FirstPages, PlanAccepted;
    }
  }

  lemma AllPagesDecide(exchange: Exchange, p: Plan, r: Result<seq<Candle>, DownloadError>, requests: seq<Request>)
    requires Caused(exchange, p, r, requests) && PlanAccepted(p) && (r.Ok? || r == Err(BadCandles))
    ensures r.Ok? <==> Succeeds(exchange, p)
  {
    var n := |requests|;
    assert PageStart(p, 0) == p.dataStart;
    assert n > 0;
    LastPage(p, n);
    hide PageStart, GoodPage, PageRequest, CandlesAccepted, FirstPages, PlanAccepted;
    forall k: nat | PageStart(p, k) < p.validationEnd ensures GoodPage(exchange, p, k) {
      assert k < n;
    }
    assert PageStart(p, n - 1) < p.validationEnd <= PageStart(p, n - 1 + 1);
  }

  lemma LastPage(p: Plan, n: nat)
    requires p.validationEnd <= PageStart(p, n) && 0 < n && PageStart(p, n - 1) < p.validationEnd
    ensures forall k: nat | PageStart(p, k) < p.validationEnd :: k < n
    ensures forall k: nat | PageStart(p, k) < p.validationEnd <= PageStart(p, k + 1) :: k == n - 1
  {
  }

  lemma NothingYet(exchange: Exchange, p: Plan)
    requires PlanAccepted(p)
    ensures Progress(exchange, p, [], p.dataStart, [])
  {
  }

  /** One round of the loop: each way out has its cause, and a good page makes progress. */
  lemma PageOutcome(exchange: Exchange, p: Plan, requests: seq<Request>, cursor: int, result: seq<Candle>, end: int)
    requires Progress(exchange, p, requests, cursor, result) && cursor < p.validationEnd
    requires end == if cursor + PAGE * HOUR > p.validationEnd then p.validationEnd else cursor + PAGE * HOUR
    requires (end - cursor) % HOUR == 0
    ensures exchange.cancelled(|requests|) ==> Caused(exchange, p, Err(Cancelled), requests)
    ensures !exchange.cancelled(|requests|) ==>
      var request := Request(cursor, end - MILLISECOND, PAGE);
      var (rows, after) := (exchange.answer(|requests|, request), requests + [request]);
      if rows.None? then Caused(exchange, p, Err(RequestFailed), after)
      else if |rows.value| != (end - cursor) / HOUR then Caused(exchange, p, Err(IncompletePage), after)
      else if !HourByHour(rows.value, cursor) then Caused(exchange, p, Err(UnorderedPage), after)
      else Progress(exchange, p, after, end, result + rows.value)
  {
    var n := |requests|;
    NextPage(p, n, cursor, end);
    var request := Request(cursor, end - MILLISECOND, PAGE);
    var rows := exchange.answer(n, request);
    if rows.Some? {
      PageCounts(p, n, cursor, end, rows.value);
    }
    hide PageStart, PageStop, PageRequest, WholePage, OrderedPage, CandlesAccepted, HourByHour;
  }

  lemma EndOutcome(exchange: Exchange, p: Plan, requests: seq<Request>, cursor: int, result: seq<Candle>)
    requires Progress(exchange, p, requests, cursor, result) && cursor >= p.validationEnd
    ensures Caused(exchange, p, if CandlesAccepted(p, result) then Ok(result) else Err(BadCandles), requests)
  {
    hide CandlesAccepted, GoodPage, PageRequest, FirstPages;
  }

  /** A download succeeds exactly when the plan is accepted, every page of the window is good and the candles are
      accepted, and every error has its cause. The requests made are the first pages of the window, and tile it up
      to where they stop. */
  method DownloadCandles(exchange: Exchange, p: Plan)
    returns (r: Result<seq<Candle>, DownloadError>, requests: seq<Request>)
    ensures r.Ok? <==> Succeeds(exchange, p)
    ensures Caused(exchange, p, r, requests) && (r == Err(BadPlan) <==> !PlanAccepted(p))
    ensures r.Ok? ==> |r.value| == (p.validationEnd - p.dataStart) / HOUR && HourByHour(r.value, p.dataStart)
    ensures r.Ok? ==> ValidPlan(p) && ValidExperimentCandles(p, r.value)
    ensures exists cursor :: TilesWindow(requests, p, cursor)
    ensures r.Ok? || r == Err(BadCandles) ==> Tiles(requests, p.dataStart, p.validationEnd)
  {
    requests := [];
    PlanAcceptedIff(p);
    hide Progress, Caused, Succeeds, PlanAccepted, CandlesAccepted;
    assert TilesWindow(requests, p, p.dataStart);
    if !ValidPlan(p) {
      r := Err(BadPlan);
      PlanRefused(exchange, p);
      return;
    }
    var result: seq<Candle> := [];
    var cursor := p.dataStart;
    NothingYet(exchange, p);
    while cursor < p.validationEnd
      invariant p.dataStart <= cursor <= p.validationEnd && cursor % HOUR == 0
      invariant |result| == (cursor - p.dataStart) / HOUR && HourByHour(result, p.dataStart)
      invariant TilesWindow(requests, p, cursor)
      invariant Progress(exchange, p, requests, cursor, result)
      decreases p.validationEnd - cursor
    {
      var end := cursor + PAGE * HOUR;
      if end > p.validationEnd {
        end := p.validationEnd;
      }
      PageEnd(cursor, p.validationEnd);
      PageOutcome(exchange, p, requests, cursor, result, end);
      if exchange.cancelled(|requests|) {
        r := Err(Cancelled);
        OutcomeDecides(exchange, p, r, requests);
        return;
      }
      TileOneMore(requests, p.dataStart, cursor, end);
      assert TilesWindow(requests + [Request(cursor, end - MILLISECOND, PAGE)], p, end);
      hide Tiles, HourByHour, ValidPlan, TilesWindow;
      var request := Request(cursor, end - MILLISECOND, PAGE);
      var rows := exchange.answer(|requests|, request);
      requests := requests + [request];
      if rows.None? {
        r := Err(RequestFailed);
        OutcomeDecides(exchange, p, r, requests);
        return;
      }
      if |rows.value| != (end - cursor) / HOUR {
        r := Err(IncompletePage);
        OutcomeDecides(exchange, p, r, requests);
        return;
      }
      var ordered := CheckOrder(rows.value, cursor);
      if !ordered {
        r := Err(UnorderedPage);
        OutcomeDecides(exchange, p, r, requests);
        return;
      }
      AppendPage(result, rows.value, p.dataStart, cursor, end);
      result := result + rows.value;
      cursor := end;
    }
    FinalCheck(p, result);
    EndOutcome(exchange, p, requests, cursor, result);
    var valid := ValidateExperimentCandles(p, result);
    r := if valid then Ok(result) else Err(BadCandles);
    OutcomeDecides(exchange, p, r, requests);
  }

  lemma PlanRefused(exchange: Exchange, p: Plan)
    requires !PlanAccepted(p)
    ensures Caused(exchange, p, Err(BadPlan), []) && !Succeeds(exchange, p)
  {
    hide PlanAccepted;
  }

  // ---------------------------------------------------------------- what tiling means

  /** Any two different pages are disjoint in time, and each lies within the window. */
  lemma {:induction false} PagesAreDisjoint(requests: seq<Request>, start: int, cursor: int)
    requires Tiles(requests, start, cursor)
    ensures start <= cursor
    ensures forall i | 0 <= i < |requests| :: start <= requests[i].start <= requests[i].end < cursor
    ensures forall i, j | 0 <= i < j < |requests| :: requests[i].end < requests[j].start
  {
    if requests == [] {
    } else {
      var n := |requests| - 1;
      PagesAreDisjoint(requests[..n], start, requests[n].start);
      assert forall i | 0 <= i < n :: requests[..n][i] == requests[i];
    }
  }

  predicate Asks(request: Request, hour: int) {
    request.start <= hour <= request.end
  }

  predicate WholeHour(t: int) {
    t % HOUR == 0
  }

  lemma LastPageAsks(last: Request, cursor: int, hour: int)
    requires last.end == cursor - MILLISECOND && (cursor - last.start) % HOUR == 0
    requires WholeHour(cursor) && WholeHour(hour) && hour < cursor
    ensures WholeHour(last.start) && hour <= last.end
  {
  }

  lemma {:induction false} EveryHourAsked(requests: seq<Request>, start: int, cursor: int, hour: int)
    requires Tiles(requests, start, cursor) && WholeHour(cursor) && WholeHour(hour) && start <= hour < cursor
    ensures exists i :: 0 <= i < |requests| && Asks(requests[i], hour)
  {
    var n := |requests| - 1;
    var last := requests[n];
    LastPageAsks(last, cursor, hour);
    hide WholeHour;
    if hour < last.start {
      EveryHourAsked(requests[..n], start, last.start, hour);
      var i :| 0 <= i < n && Asks(requests[..n][i], hour);
      assert Asks(requests[i], hour);
    } else {
      assert Asks(requests[n], hour);
    }
  }

  /** Every hour of the window is asked for by exactly one page. */
  lemma EveryHourAskedOnce(requests: seq<Request>, start: int, cursor: int, hour: int)
    requires Tiles(requests, start, cursor) && start % HOUR == 0 && cursor % HOUR == 0
    requires start <= hour < cursor && hour % HOUR == 0
    ensures exists i :: 0 <= i < |requests| && Asks(requests[i], hour)
    ensures forall i, j | 0 <= i < j < |requests| :: !(Asks(requests[i], hour) && Asks(requests[j], hour))
  {
    EveryHourAsked(requests, start, cursor, hour);
    PagesAreDisjoint(requests, start, cursor);
    hide Tiles;
  }

  /** A candle series that is complete hour by hour, valid and of one series is what every feature calculation
      accepts. */
  lemma DownloadedCandlesAreContiguous(p: Plan, cs: seq<Candle>)
    requires ValidPlan(p) && ValidExperimentCandles(p, cs)
    ensures Contiguous(cs)
  {
    forall i | 0 < i < |cs| ensures Follows(cs[i - 1], cs[i]) {
      assert cs[i].openTime == p.dataStart + i * HOUR && cs[i - 1].openTime == p.dataStart + (i - 1) * HOUR;
      assert ValidCandle(cs[i - 1]);
    }
  }
}
