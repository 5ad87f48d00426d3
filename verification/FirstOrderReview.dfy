/** The review of a first live order: a planned order against five journals. Times are nanoseconds, zero is the
    unset time. A decimal kept as text is blank, malformed, or the number it parses to. */
module FirstOrderReview {
  import opened Text
  import opened Wrappers

  datatype DecimalText = NoText | Malformed | Parsed(value: real)

  predicate PositiveText(t: DecimalText) {
    t.Parsed? && t.value > 0.0
  }

  // ---------------------------------------------------------------- journals

  const SCHEMA_VERSION := "inquisitor.live_order_plan.v1"
  const DECISION_ID := "decision-id"
  const SELECT_PENDING := "select-pending"

  datatype Side = LongSide | ShortSide | NoSide | OtherSide
  datatype RiskMode = LiveMode | OtherMode
  datatype AckStatus = Accepted | Rejected | UnknownAck
  datatype OrderState = NoState | Filled | OtherKnown | UnknownState
  datatype PositionState = NoPositionState | Normal | OtherPosition | UnknownPosition
  datatype RunStatus = Running | Completed | FailedRun | UnknownRun
  datatype Action = NoAction | Submitted | Stop | UnknownAction

  datatype Plan = Plan(
    schemaVersion: string, source: string, pendingSymbol: string,
    runID: string, decisionID: string, submissionID: string, clientOrderID: string,
    exchange: string, category: string, symbol: string, side: Side, orderType: string, timeInForce: string,
    limitPrice: DecimalText, quantity: DecimalText, entryPrice: DecimalText, notional: DecimalText,
    maxLoss: DecimalText, stopLoss: DecimalText, takeProfit: DecimalText, leverage: DecimalText, confidence: int,
    decisionCreatedAt: int, recordedAt: int, submissionCreatedAt: int,
    reserved: bool, exchangeContacted: bool, orderSubmitted: bool)

  datatype Iteration = Iteration(
    runID: string, runStartedAt: int, number: int, action: Action, requestStop: bool, reason: string,
    decisionID: string, submissionID: string, clientOrderID: string,
    exchangeSubmitted: bool, alreadySubmitted: bool, startedAt: int, finishedAt: int)

  datatype RunAudit = RunAudit(
    runID: string, startedAt: int, maxIterations: int, maxRuntime: int, iterationTimeout: int,
    status: RunStatus, finishedAt: int, preflightChecked: bool, preflightReady: bool,
    attempted: int, succeeded: int, stopReason: string, error: string,
    completedWithinBounds: bool, iterations: seq<Iteration>)

  datatype Submission = Submission(
    submissionID: string, clientOrderID: string, decisionID: string, decisionApproved: bool, intentID: string,
    riskMode: RiskMode, exchange: string, category: string, symbol: string,
    side: Side, orderType: string, timeInForce: string, reduceOnly: bool,
    quantity: real, referencePrice: real, limitPrice: real, stopLoss: real, takeProfit: real, leverage: real,
    maxLoss: real, notional: real, confidence: int, reason: string, createdAt: int)

  datatype Acknowledgement = Acknowledgement(
    submissionID: string, clientOrderID: string, exchange: string, exchangeOrderID: string,
    status: AckStatus, rejectReason: string, receivedAt: int)

  datatype StatusSnapshot = StatusSnapshot(
    clientOrderID: string, exchangeOrderID: string, exchange: string, category: string, symbol: string,
    side: Side, orderType: string, timeInForce: string, state: OrderState, rejectReason: string, reduceOnly: bool,
    quantity: real, price: real, averagePrice: real, leaves: real, executed: real, executedValue: real, fee: real,
    exchangeCreatedAt: int, exchangeUpdatedAt: int, observedAt: int)

  datatype PositionSnapshot = PositionSnapshot(
    exchange: string, category: string, symbol: string, open: bool, side: Side, size: real,
    averagePrice: real, positionValue: real, markPrice: real, liquidationPrice: real, leverage: real, index: int,
    state: PositionState, exchangeReduceOnly: bool,
    exchangeCreatedAt: int, exchangeUpdatedAt: int, observedAt: int)

  datatype Evidence = Evidence(
    plan: Plan, runs: seq<RunAudit>, submissions: seq<Submission>, acks: seq<Acknowledgement>,
    statuses: seq<StatusSnapshot>, positions: seq<PositionSnapshot>)

  // ---------------------------------------------------------------- row validators

  predicate KnownSide(side: Side) {
    side.LongSide? || side.ShortSide?
  }

  predicate KnownInstructions(side: Side, orderType: string, timeInForce: string) {
    && KnownSide(side) && (orderType == "MARKET" || orderType == "LIMIT")
    && timeInForce in {"GTC", "IOC", "FOK", "POST_ONLY"}
  }

  predicate ImmediateOnly(timeInForce: string) {
    timeInForce == "IOC" || timeInForce == "FOK"
  }

  predicate ValidPlanSource(p: Plan) {
    && p.schemaVersion == SCHEMA_VERSION
    && (Trim(p.source) == DECISION_ID || Trim(p.source) == SELECT_PENDING) && RequiredTrimmed(p.source)
    && p.pendingSymbol == Upper(Trim(p.pendingSymbol))
    && (p.source == DECISION_ID ==> p.pendingSymbol == "")
    && (p.source == SELECT_PENDING && p.pendingSymbol != "" ==> p.pendingSymbol == p.symbol)
  }

  predicate ValidPlanNumbers(p: Plan) {
    && p.limitPrice.Parsed? && PositiveText(p.quantity) && PositiveText(p.entryPrice) && PositiveText(p.notional)
    && PositiveText(p.maxLoss) && PositiveText(p.stopLoss) && PositiveText(p.leverage) && !p.takeProfit.Malformed?
    && (p.orderType == "MARKET" ==> p.limitPrice.value == 0.0 && ImmediateOnly(p.timeInForce))
    && (p.orderType == "LIMIT" ==> p.limitPrice.value > 0.0)
    && 0 <= p.confidence <= 100
  }

  predicate ValidPlan(p: Plan) {
    && ValidPlanSource(p)
    && RequiredTrimmed(p.runID) && RequiredTrimmed(p.decisionID) && RequiredTrimmed(p.submissionID)
    && RequiredTrimmed(p.clientOrderID) && RequiredTrimmed(p.exchange) && RequiredTrimmed(p.category)
    && RequiredTrimmed(p.symbol)
    && LowerTrimmed(p.exchange) && LowerTrimmed(p.category) && UpperTrimmed(p.symbol)
    && KnownInstructions(p.side, p.orderType, p.timeInForce) && ValidPlanNumbers(p)
    && p.decisionCreatedAt != 0 && p.recordedAt != 0 && p.submissionCreatedAt != 0
    && !p.reserved && !p.exchangeContacted && !p.orderSubmitted
  }

  predicate ValidIteration(i: Iteration) {
    && RequiredTrimmed(i.runID) && i.runStartedAt != 0 && 0 < i.number && !i.action.UnknownAction?
    && i.startedAt != 0 && i.finishedAt != 0 && i.startedAt <= i.finishedAt
    && (i.requestStop ==> !Blank(i.reason)) && i.reason == Trim(i.reason)
    && i.decisionID == Trim(i.decisionID) && i.submissionID == Trim(i.submissionID)
    && i.clientOrderID == Trim(i.clientOrderID)
    && (i.action.Submitted? ==> !Blank(i.decisionID) && !Blank(i.submissionID) && !Blank(i.clientOrderID))
    && (i.exchangeSubmitted ==> !Blank(i.clientOrderID))
  }

  predicate ValidRun(r: RunAudit) {
    && RequiredTrimmed(r.runID) && r.startedAt != 0 && 0 < r.maxIterations && !r.status.UnknownRun?
    && 0 < r.maxRuntime && 0 < r.iterationTimeout <= r.maxRuntime && r.stopReason == Trim(r.stopReason)
    && (if r.status.Running? then r.finishedAt == 0 && !r.completedWithinBounds
        else r.finishedAt != 0 && r.startedAt <= r.finishedAt)
    && (r.status.Completed? ==> r.completedWithinBounds)
    && (r.status.FailedRun? ==> !Blank(r.error)) && r.error == Trim(r.error)
    && 0 <= r.succeeded <= r.attempted
    && forall k | 0 <= k < |r.iterations| ::
      && ValidIteration(r.iterations[k]) && r.iterations[k].runID == r.runID
      && r.iterations[k].runStartedAt == r.startedAt
  }

  function Distance(x: real, y: real): real {
    if x < y then y - x else x - y
  }

  predicate ValidInstructions(s: Submission) {
    && 0.0 < s.quantity && 0.0 < s.referencePrice && 0.0 < s.notional
    && s.notional == s.referencePrice * s.quantity
    && (s.orderType == "MARKET" ==> s.limitPrice == 0.0 && ImmediateOnly(s.timeInForce))
    && (s.orderType == "LIMIT" ==> 0.0 < s.limitPrice)
    && !(s.orderType == "LIMIT" && s.timeInForce == "POST_ONLY" && s.reduceOnly)
    && 0.0 < s.leverage
  }

  /** The stop lies on the losing side of the reference price and a target on the winning side, and the
      largest loss is the quantity times the distance to the stop. */
  predicate ValidRisk(s: Submission) {
    && 0 <= s.confidence <= 100 && RequiredTrimmed(s.reason)
    && if s.reduceOnly then s.stopLoss == 0.0 && s.takeProfit == 0.0 && s.maxLoss == 0.0
       else
         && 0.0 < s.stopLoss && 0.0 <= s.takeProfit && 0.0 < s.maxLoss
         && (s.side.LongSide? ==>
               s.stopLoss < s.referencePrice && (0.0 < s.takeProfit ==> s.referencePrice < s.takeProfit))
         && (s.side.ShortSide? ==>
               s.referencePrice < s.stopLoss && (0.0 < s.takeProfit ==> s.takeProfit < s.referencePrice))
         && s.maxLoss == s.quantity * Distance(s.referencePrice, s.stopLoss)
  }

  predicate ValidSubmission(s: Submission) {
    && RequiredTrimmed(s.submissionID) && RequiredTrimmed(s.clientOrderID) && RequiredTrimmed(s.decisionID)
    && RequiredTrimmed(s.intentID) && s.riskMode.LiveMode? && s.decisionApproved
    && LowerTrimmed(s.exchange) && LowerTrimmed(s.category) && UpperTrimmed(s.symbol)
    && KnownInstructions(s.side, s.orderType, s.timeInForce) && ValidInstructions(s) && ValidRisk(s)
    && s.createdAt != 0
  }

  predicate ValidAck(a: Acknowledgement) {
    && RequiredTrimmed(a.submissionID) && RequiredTrimmed(a.clientOrderID) && LowerTrimmed(a.exchange)
    && !a.status.UnknownAck?
    && (a.status.Accepted? ==> !Blank(a.exchangeOrderID) && Blank(a.rejectReason))
    && (a.status.Rejected? ==> Blank(a.exchangeOrderID) && RequiredTrimmed(a.rejectReason))
    && a.receivedAt != 0
  }

  predicate ValidStatus(s: StatusSnapshot) {
    && RequiredTrimmed(s.clientOrderID) && !Blank(s.exchangeOrderID)
    && LowerTrimmed(s.exchange) && LowerTrimmed(s.category) && UpperTrimmed(s.symbol)
    && KnownInstructions(s.side, s.orderType, s.timeInForce) && (s.state.Filled? || s.state.OtherKnown?)
    && 0.0 < s.quantity && 0.0 <= s.price && 0.0 <= s.averagePrice && 0.0 <= s.executedValue && 0.0 <= s.fee
    && 0.0 <= s.leaves <= s.quantity && 0.0 <= s.executed <= s.quantity
    && s.exchangeCreatedAt != 0 && s.exchangeUpdatedAt != 0 && s.exchangeCreatedAt <= s.exchangeUpdatedAt
    && s.observedAt != 0
  }

  predicate ValidPosition(p: PositionSnapshot) {
    && LowerTrimmed(p.exchange) && LowerTrimmed(p.category) && UpperTrimmed(p.symbol)
    && 0.0 <= p.size && (p.open <==> 0.0 < p.size)
    && (if p.open then
          && KnownSide(p.side) && (p.state.Normal? || p.state.OtherPosition?)
          && 0.0 < p.averagePrice && 0.0 < p.positionValue
          && p.exchangeCreatedAt != 0 && p.exchangeUpdatedAt != 0
        else p.side.NoSide? && !p.state.UnknownPosition?)
    && 0.0 <= p.markPrice && 0.0 <= p.liquidationPrice && 0.0 <= p.leverage && 0 <= p.index
    && (p.exchangeCreatedAt != 0 && p.exchangeUpdatedAt != 0 ==> p.exchangeCreatedAt <= p.exchangeUpdatedAt)
    && p.observedAt != 0
  }

  // ---------------------------------------------------------------- latest snapshots

  /** The index a scan for a later time ends on. */
  function LatestIndex(times: seq<int>): (k: int)
    requires times != []
    ensures 0 <= k < |times|
  {
    var n := |times| - 1;
    if n == 0 then 0
    else
      var k := LatestIndex(times[..n]);
      if times[n] > times[k] then n else k
  }

  function StatusTimes(snapshots: seq<StatusSnapshot>): (times: seq<int>)
    ensures |times| == |snapshots|
  {
    seq(|snapshots|, i requires 0 <= i < |snapshots| => snapshots[i].observedAt)
  }

  function PositionTimes(snapshots: seq<PositionSnapshot>): (times: seq<int>)
    ensures |times| == |snapshots|
  {
    seq(|snapshots|, i requires 0 <= i < |snapshots| => snapshots[i].observedAt)
  }

  function LatestStatus(snapshots: seq<StatusSnapshot>): StatusSnapshot
    requires snapshots != []
  {
    snapshots[LatestIndex(StatusTimes(snapshots))]
  }

  function LatestPosition(snapshots: seq<PositionSnapshot>): PositionSnapshot
    requires snapshots != []
  {
    snapshots[LatestIndex(PositionTimes(snapshots))]
  }

  method LatestStatusSnapshot(snapshots: seq<StatusSnapshot>) returns (latest: Option<StatusSnapshot>)
    ensures latest == if snapshots == [] then None else Some(LatestStatus(snapshots))
  {
    if |snapshots| == 0 {
      return None;
    }
    var best := snapshots[0];
    ghost var times := StatusTimes(snapshots);
    for k := 1 to |snapshots|
      invariant best == snapshots[LatestIndex(times[..k])]
    {
      assert times[..k + 1][..k] == times[..k];
      if snapshots[k].observedAt > best.observedAt {
        best := snapshots[k];
      }
    }
    assert times[..|snapshots|] == times;
    return Some(best);
  }

  method LatestPositionSnapshot(snapshots: seq<PositionSnapshot>) returns (latest: Option<PositionSnapshot>)
    ensures latest == if snapshots == [] then None else Some(LatestPosition(snapshots))
  {
    if |snapshots| == 0 {
      return None;
    }
    var best := snapshots[0];
    ghost var times := PositionTimes(snapshots);
    for k := 1 to |snapshots|
      invariant best == snapshots[LatestIndex(times[..k])]
    {
      assert times[..k + 1][..k] == times[..k];
      if snapshots[k].observedAt > best.observedAt {
        best := snapshots[k];
      }
    }
    assert times[..|snapshots|] == times;
    return Some(best);
  }

  // ---------------------------------------------------------------- the seven checks

  predicate PlanPasses(e: Evidence) {
    ValidPlan(e.plan) && !e.plan.reserved && !e.plan.exchangeContacted && !e.plan.orderSubmitted
  }

  predicate RunPasses(e: Evidence) {
    && |e.runs| == 1
    && var run := e.runs[0];
       && ValidRun(run)
       && (Blank(e.plan.runID) || run.runID == Trim(e.plan.runID))
       && run.status.Completed? && run.preflightChecked && run.preflightReady && run.completedWithinBounds
       && run.maxIterations == 1 && run.attempted == 1 && run.succeeded == 1 && Blank(run.error)
  }

  predicate IterationPasses(e: Evidence) {
    && |e.runs| == 1 && |e.runs[0].iterations| == 1
    && var i := e.runs[0].iterations[0];
       && ValidIteration(i)
       && i.action.Submitted? && i.requestStop && i.reason == "live_order_submitted"
       && i.exchangeSubmitted && !i.alreadySubmitted
       && i.decisionID == e.plan.decisionID && i.submissionID == e.plan.submissionID
       && i.clientOrderID == e.plan.clientOrderID
  }

  /** The journal row of the submission against the plan, field by field. */
  predicate MatchesPlan(p: Plan, s: Submission) {
    && ValidPlan(p) && ValidSubmission(s)
    && p.decisionID == s.decisionID && p.submissionID == s.submissionID && p.clientOrderID == s.clientOrderID
    && p.exchange == s.exchange && p.category == s.category && p.symbol == s.symbol && p.side == s.side
    && p.orderType == s.orderType && p.timeInForce == s.timeInForce && SameNumbers(p, s)
  }

  predicate SameNumbers(p: Plan, s: Submission) {
    && p.limitPrice == Parsed(s.limitPrice) && p.quantity == Parsed(s.quantity)
    && p.entryPrice == Parsed(s.referencePrice) && p.notional == Parsed(s.notional)
    && p.maxLoss == Parsed(s.maxLoss) && p.stopLoss == Parsed(s.stopLoss) && p.takeProfit == Parsed(s.takeProfit)
    && p.leverage == Parsed(s.leverage) && p.confidence == s.confidence
  }

  predicate SubmissionPasses(e: Evidence) {
    && |e.submissions| == 1
    && var s := e.submissions[0];
       && MatchesPlan(e.plan, s) && !s.reduceOnly
       && (e.plan.submissionCreatedAt == 0 || e.plan.submissionCreatedAt <= s.createdAt)
  }

  predicate AckPasses(e: Evidence) {
    && |e.acks| == 1
    && var a := e.acks[0];
       && ValidAck(a)
       && a.submissionID == e.plan.submissionID && a.clientOrderID == e.plan.clientOrderID
       && a.exchange == e.plan.exchange && a.status.Accepted?
       && (|e.submissions| == 1 && a.receivedAt != 0 ==> e.submissions[0].createdAt <= a.receivedAt)
  }

  predicate RejectReasonClear(reason: string) {
    Trim(reason) == "" || Trim(reason) == "EC_NoError"
  }

  predicate StatusMatchesSubmission(s: Submission, t: StatusSnapshot) {
    && t.clientOrderID == s.clientOrderID && t.exchange == s.exchange && t.category == s.category
    && t.symbol == s.symbol && t.side == s.side && t.orderType == s.orderType && t.timeInForce == s.timeInForce
    && t.reduceOnly == s.reduceOnly && t.quantity == s.quantity
  }

  /** No acknowledgement problem: another exchange order id is one, and only otherwise an earlier time. */
  predicate StatusFollowsAck(a: Acknowledgement, t: StatusSnapshot) {
    if a.exchangeOrderID != "" && t.exchangeOrderID != a.exchangeOrderID then false
    else a.receivedAt == 0 || a.receivedAt <= t.observedAt
  }

  predicate StatusPasses(e: Evidence) {
    && e.statuses != [] && (forall k | 0 <= k < |e.statuses| :: ValidStatus(e.statuses[k]))
    && var t := LatestStatus(e.statuses);
       && |e.submissions| == 1 && StatusMatchesSubmission(e.submissions[0], t)
       && e.submissions[0].createdAt <= t.observedAt
       && |e.acks| == 1 && StatusFollowsAck(e.acks[0], t)
       && t.state.Filled? && t.leaves == 0.0 && t.executed == e.submissions[0].quantity
       && RejectReasonClear(t.rejectReason) && 0.0 < t.averagePrice
  }

  predicate PositionPasses(e: Evidence) {
    && e.positions != [] && (forall k | 0 <= k < |e.positions| :: ValidPosition(e.positions[k]))
    && var p := LatestPosition(e.positions);
       && |e.submissions| == 1
       && (var s := e.submissions[0];
           p.exchange == s.exchange && p.category == s.category && p.symbol == s.symbol && p.side == s.side
           && s.createdAt <= p.observedAt)
       && e.statuses != []
       && (var t := LatestStatus(e.statuses);
           t.state.Filled? && t.observedAt <= p.observedAt && p.size == t.executed)
       && p.open && p.state.Normal? && !p.exchangeReduceOnly
  }

  // ---------------------------------------------------------------- report

  datatype CheckStatus = Pass | Warn | Fail | UnknownStatus

  datatype Check = Check(name: string, status: CheckStatus)

  datatype Tally = Tally(total: int, passed: int, warned: int, failed: int)

  datatype Report = Report(
    ready: bool, summary: Tally, checks: seq<Check>, runID: string, decisionID: string, submissionID: string,
    clientOrderID: string, exchangeOrderID: string, latestState: OrderState, positionOpen: bool,
    positionSize: Option<real>)

  function CheckOf(name: string, passes: bool): Check {
    Check(name, if passes then Pass else Fail)
  }

  function Checks(e: Evidence): seq<Check> {
    [CheckOf("first_order_plan", PlanPasses(e)), CheckOf("live_loop_run", RunPasses(e)),
     CheckOf("live_loop_iteration", IterationPasses(e)), CheckOf("live_order_submission", SubmissionPasses(e)),
     CheckOf("live_order_acknowledgement", AckPasses(e)), CheckOf("live_order_status", StatusPasses(e)),
     CheckOf("live_position_snapshot", PositionPasses(e))]
  }

  function Summarize(checks: seq<Check>): Tally {
    if checks == [] then Tally(0, 0, 0, 0)
    else
      var t := Summarize(checks[..|checks| - 1]);
      match checks[|checks| - 1].status
      case Pass => t.(total := t.total + 1, passed := t.passed + 1)
      case Warn => t.(total := t.total + 1, warned := t.warned + 1)
      case Fail => t.(total := t.total + 1, failed := t.failed + 1)
      case UnknownStatus => t.(total := t.total + 1)
  }

  predicate ReadyChecks(checks: seq<Check>) {
    checks != [] && Summarize(checks).failed == 0
  }

  predicate ValidChecks(checks: seq<Check>) {
    checks != [] && forall k | 0 <= k < |checks| :: RequiredTrimmed(checks[k].name) && !checks[k].status.UnknownStatus?
  }

  function ReportOf(e: Evidence): Report {
    var checks := Checks(e);
    Report(ReadyChecks(checks), Summarize(checks), checks,
           Trim(e.plan.runID), Trim(e.plan.decisionID), Trim(e.plan.submissionID), Trim(e.plan.clientOrderID),
           if e.statuses != [] then LatestStatus(e.statuses).exchangeOrderID
           else if |e.acks| == 1 then e.acks[0].exchangeOrderID else "",
           if e.statuses != [] then LatestStatus(e.statuses).state else NoState,
           e.positions != [] && LatestPosition(e.positions).open,
           if e.positions != [] then Some(LatestPosition(e.positions).size) else None)
  }

  method BuildReport(e: Evidence) returns (report: Report)
    ensures report == ReportOf(e)
  {
    hide LatestStatus, LatestPosition, Trim, Checks, Summarize;
    var latestStatus := LatestStatusSnapshot(e.statuses);
    var latestPosition := LatestPositionSnapshot(e.positions);
    var exchangeOrderID, state := "", NoState;
    if |e.acks| == 1 {
      exchangeOrderID := e.acks[0].exchangeOrderID;
    }
    if latestStatus.Some? {
      exchangeOrderID := latestStatus.value.exchangeOrderID;
      state := latestStatus.value.state;
    }
    var size: Option<real> := None;
    if latestPosition.Some? {
      size := Some(latestPosition.value.size);
    }
    var checks := Checks(e);
    report := Report(ReadyChecks(checks), Summarize(checks), checks,
                     Trim(e.plan.runID), Trim(e.plan.decisionID), Trim(e.plan.submissionID), Trim(e.plan.clientOrderID),
                     exchangeOrderID, state, latestPosition.Some? && latestPosition.value.open, size);
  }

  /** What a stored report has to satisfy. */
  predicate ValidReport(r: Report) {
    && ValidChecks(r.checks) && r.summary == Summarize(r.checks) && (r.ready <==> ReadyChecks(r.checks))
    && RequiredTrimmed(r.runID) && RequiredTrimmed(r.decisionID) && RequiredTrimmed(r.submissionID)
    && RequiredTrimmed(r.clientOrderID)
    && (r.ready ==> !Blank(r.exchangeOrderID) && r.latestState.Filled? && r.positionOpen && r.positionSize.Some?)
  }
}

/** What a ready review certifies. */
module ReviewLaws {
  import opened FirstOrderReview
  import opened Text

  // ---------------------------------------------------------------- latest snapshots

  /** The scan ends on the first of the greatest times: no other time is later, and no earlier row ties. */
  lemma {:induction false} LatestIsFirstGreatest(times: seq<int>)
    requires times != []
    ensures var k := LatestIndex(times);
      && (forall j | 0 <= j < |times| :: times[j] <= times[k])
      && (forall j | 0 <= j < k :: times[j] < times[k])
  {
    var n := |times| - 1;
    if n == 0 {
    } else {
      LatestIsFirstGreatest(times[..n]);
      assert forall j | 0 <= j < n :: times[..n][j] == times[j];
    }
  }

  // ---------------------------------------------------------------- the whole chain

  /** Every row that counts is valid on its own. */
  predicate RowsValid(e: Evidence) {
    && ValidPlan(e.plan)
    && (forall k | 0 <= k < |e.runs| :: ValidRun(e.runs[k]))
    && (forall k | 0 <= k < |e.submissions| :: ValidSubmission(e.submissions[k]))
    && (forall k | 0 <= k < |e.acks| :: ValidAck(e.acks[k]))
    && (forall k | 0 <= k < |e.statuses| :: ValidStatus(e.statuses[k]))
    && (forall k | 0 <= k < |e.positions| :: ValidPosition(e.positions[k]))
  }

  /** One run with one iteration, one submission, one acknowledgement, and something to look at afterwards. */
  predicate OneOfEach(e: Evidence) {
    && |e.runs| == 1 && |e.runs[0].iterations| == 1 && |e.submissions| == 1 && |e.acks| == 1
    && e.statuses != [] && e.positions != []
  }

  /** The rows speak of one order. */
  predicate OneOrder(e: Evidence)
    requires OneOfEach(e)
  {
    var (p, r, i, s, a) := (e.plan, e.runs[0], e.runs[0].iterations[0], e.submissions[0], e.acks[0]);
    var (t, q) := (LatestStatus(e.statuses), LatestPosition(e.positions));
    && p.runID == r.runID == i.runID
    && p.decisionID == i.decisionID == s.decisionID
    && p.submissionID == i.submissionID == s.submissionID == a.submissionID
    && p.clientOrderID == i.clientOrderID == s.clientOrderID == a.clientOrderID == t.clientOrderID
    && a.exchangeOrderID == t.exchangeOrderID
    && p.exchange == s.exchange == a.exchange == t.exchange == q.exchange
    && p.category == s.category == t.category == q.category
    && p.symbol == s.symbol == t.symbol == q.symbol
    && p.side == s.side == t.side == q.side
    && p.orderType == s.orderType == t.orderType && p.timeInForce == s.timeInForce == t.timeInForce
    && !s.reduceOnly && !t.reduceOnly && !q.exchangeReduceOnly
  }

  /** The planned numbers are the submitted ones, and the quantity is the executed one and the size of the
      position. */
  predicate OneQuantity(e: Evidence)
    requires OneOfEach(e)
  {
    var (s, t, q) := (e.submissions[0], LatestStatus(e.statuses), LatestPosition(e.positions));
    && SameNumbers(e.plan, s) && e.plan.quantity == Parsed(s.quantity)
    && s.quantity == t.quantity == t.executed == q.size && t.leaves == 0.0
  }

  predicate InOrder(e: Evidence)
    requires OneOfEach(e)
  {
    e.plan.submissionCreatedAt <= e.submissions[0].createdAt <= e.acks[0].receivedAt
      <= LatestStatus(e.statuses).observedAt <= LatestPosition(e.positions).observedAt
  }

  /** The run was clean, the order accepted and filled, the position open and normal. */
  predicate CleanOutcome(e: Evidence)
    requires OneOfEach(e)
  {
    var (r, i, t, q) := (e.runs[0], e.runs[0].iterations[0], LatestStatus(e.statuses), LatestPosition(e.positions));
    && r.status.Completed? && r.preflightChecked && r.preflightReady && r.error == ""
    && r.maxIterations == r.attempted == r.succeeded == 1
    && i.action.Submitted? && i.requestStop && i.reason == "live_order_submitted"
    && i.exchangeSubmitted && !i.alreadySubmitted
    && e.acks[0].status.Accepted?
    && t.state.Filled? && RejectReasonClear(t.rejectReason) && 0.0 < t.averagePrice
    && q.open && q.state.Normal?
  }

  predicate Certified(e: Evidence) {
    RowsValid(e) && OneOfEach(e) && OneOrder(e) && OneQuantity(e) && InOrder(e) && CleanOutcome(e)
  }

  predicate AllPass(e: Evidence) {
    && PlanPasses(e) && RunPasses(e) && IterationPasses(e) && SubmissionPasses(e)
    && AckPasses(e) && StatusPasses(e) && PositionPasses(e)
  }

  lemma {:induction false} NoFailures(checks: seq<Check>)
    ensures 0 <= Summarize(checks).failed
    ensures Summarize(checks).failed == 0 <==> forall k | 0 <= k < |checks| :: !checks[k].status.Fail?
  {
    if checks == [] {
    } else {
      var n := |checks| - 1;
      NoFailures(checks[..n]);
      assert (forall k | 0 <= k < |checks| :: !checks[k].status.Fail?)
        <==> (forall k | 0 <= k < n :: !checks[..n][k].status.Fail?) && !checks[n].status.Fail?;
    }
  }

  lemma ReadyMeansAllPass(e: Evidence)
    ensures ReportOf(e).ready <==> AllPass(e)
  {
    hide PlanPasses, RunPasses, IterationPasses, SubmissionPasses, AckPasses, StatusPasses, PositionPasses;
    hide Summarize, Trim;
    NoFailures(Checks(e));
    var c := Checks(e);
    assert |c| == 7;
    assert AllPass(e) <==> !c[0].status.Fail? && !c[1].status.Fail? && !c[2].status.Fail? && !c[3].status.Fail?
                           && !c[4].status.Fail? && !c[5].status.Fail? && !c[6].status.Fail?;
  }

  lemma PassingIsCertified(e: Evidence)
    requires AllPass(e)
    ensures Certified(e)
  {
    hide Trim, LatestStatus, LatestPosition;
    var r := e.runs[0];
    assert ValidIteration(r.iterations[0]) && r.iterations[0].runID == r.runID;
    assert r.error == "";
    assert e.acks[0].exchangeOrderID != "" by {
      EmptyIsBlank();
    }
  }

  lemma CertifiedPasses(e: Evidence)
    requires Certified(e)
    ensures AllPass(e)
  {
    hide Trim, LatestStatus, LatestPosition;
    EmptyIsBlank();
    var r := e.runs[0];
    assert ValidIteration(r.iterations[0]);
  }

  /** A review is ready exactly when the plan, the run, the submission, the acknowledgement, the latest order
      status and the latest position speak of one order, one quantity and one course of time. */
  lemma ReadyIffCertified(e: Evidence)
    ensures ReportOf(e).ready <==> Certified(e)
  {
    ReadyMeansAllPass(e);
    hide AllPass, Certified;
    if AllPass(e) {
      PassingIsCertified(e);
    }
    if Certified(e) {
      CertifiedPasses(e);
    }
  }

  // ---------------------------------------------------------------- a chain that is certified

  function SampleEvidence(): Evidence {
    var plan := Plan(SCHEMA_VERSION, DECISION_ID, "", "run", "decision", "submission", "order", "bybit", "linear",
                     "BTCUSDT", LongSide, "MARKET", "IOC", Parsed(0.0), Parsed(1.0), Parsed(100.0), Parsed(100.0),
                     Parsed(5.0), Parsed(95.0), Parsed(0.0), Parsed(1.0), 80, 1, 1, 1, false, false, false);
    var iteration := Iteration("run", 2, 1, Submitted, true, "live_order_submitted", "decision", "submission", "order",
                               true, false, 2, 3);
    var run := RunAudit("run", 2, 1, 10, 5, Completed, 4, true, true, 1, 1, "", "", true, [iteration]);
    var submission := Submission("submission", "order", "decision", true, "intent", LiveMode, "bybit", "linear",
                                 "BTCUSDT", LongSide, "MARKET", "IOC", false, 1.0, 100.0, 0.0, 95.0, 0.0, 1.0, 5.0,
                                 100.0, 80, "reason", 2);
    var ack := Acknowledgement("submission", "order", "bybit", "exchange", Accepted, "", 3);
    var status := StatusSnapshot("order", "exchange", "bybit", "linear", "BTCUSDT", LongSide, "MARKET", "IOC", Filled,
                                 "", false, 1.0, 0.0, 100.0, 0.0, 1.0, 100.0, 0.0, 3, 3, 4);
    var position := PositionSnapshot("bybit", "linear", "BTCUSDT", true, LongSide, 1.0, 100.0, 100.0, 100.0, 50.0, 1.0,
                                     0, Normal, false, 3, 3, 5);
    Evidence(plan, [run], [submission], [ack], [status], [position])
  }

  lemma SampleRowsAreValid()
    ensures RowsValid(SampleEvidence())
  {
    SampleNames();
    EmptyIsBlank();
    hide Trim, Blank, RequiredTrimmed, LowerTrimmed, UpperTrimmed, Upper;
    var e := SampleEvidence();
    assert ValidPlan(e.plan);
    assert ValidIteration(e.runs[0].iterations[0]);
    assert ValidRun(e.runs[0]);
    assert ValidSubmission(e.submissions[0]);
    assert ValidAck(e.acks[0]);
    assert ValidStatus(e.statuses[0]);
    assert ValidPosition(e.positions[0]);
    hide ValidPlan, ValidRun, ValidSubmission, ValidAck, ValidStatus, ValidPosition;
  }

  lemma LatestOfOne(e: Evidence)
    requires |e.statuses| == 1 && |e.positions| == 1
    ensures LatestStatus(e.statuses) == e.statuses[0] && LatestPosition(e.positions) == e.positions[0]
  {
  }

  /** There is such a chain: a review can be ready. */
  lemma SampleIsCertified()
    ensures Certified(SampleEvidence()) && ReportOf(SampleEvidence()).ready
  {
    hide RowsValid, Trim, RequiredTrimmed, LatestStatus, LatestPosition, ReportOf;
    SampleRowsAreValid();
    SampleNames();
    var e := SampleEvidence();
    LatestOfOne(e);
    assert OneOfEach(e);
    assert OneOrder(e);
    assert OneQuantity(e);
    assert InOrder(e);
    assert CleanOutcome(e);
    hide OneOfEach, OneOrder, OneQuantity, InOrder, CleanOutcome, SampleEvidence;
    ReadyIffCertified(e);
  }

  predicate Named(name: string) {
    RequiredTrimmed(name) && Trim(name) == name && !Blank(name)
  }

  lemma SampleNames()
    ensures Named(DECISION_ID) && Named("run") && Named("decision") && Named("submission") && Named("order")
    ensures Named("intent") && Named("reason") && Named("exchange") && Named("live_order_submitted")
    ensures Named("bybit") && Named("linear") && Named("BTCUSDT")
    ensures LowerTrimmed("bybit") && LowerTrimmed("linear") && UpperTrimmed("BTCUSDT")
    ensures Trim("") == "" && Upper("") == "" && RejectReasonClear("")
  {
    PlainName(DECISION_ID);
    PlainName("run");
    PlainName("decision");
    PlainName("submission");
    PlainName("order");
    PlainName("intent");
    PlainName("reason");
    PlainName("exchange");
    PlainName("live_order_submitted");
    PlainName("BTCUSDT");
    PlainLower("bybit");
    PlainLower("linear");
    PlainUpper("BTCUSDT");
    assert Upper("") == "";
    hide TrimLeft, TrimRight;
  }

  // ---------------------------------------------------------------- stored reports

  lemma CheckNames(e: Evidence)
    ensures ValidChecks(Checks(e))
  {
    PlainName("first_order_plan");
    PlainName("live_loop_run");
    PlainName("live_loop_iteration");
    PlainName("live_order_submission");
    PlainName("live_order_acknowledgement");
    PlainName("live_order_status");
    PlainName("live_position_snapshot");
    hide PlanPasses, RunPasses, IterationPasses, SubmissionPasses, AckPasses, StatusPasses, PositionPasses;
    hide RequiredTrimmed;
    assert |Checks(e)| == 7;
  }

  /** A built report passes its own validation exactly when the plan names a run, a decision, a submission and a
      client order. A ready report always does. */
  lemma ReportPassesIff(e: Evidence)
    ensures ValidReport(ReportOf(e)) <==>
      !Blank(e.plan.runID) && !Blank(e.plan.decisionID) && !Blank(e.plan.submissionID) && !Blank(e.plan.clientOrderID)
    ensures ReportOf(e).ready ==> ValidReport(ReportOf(e))
  {
    CheckNames(e);
    TrimIsIdempotent(e.plan.runID);
    TrimIsIdempotent(e.plan.decisionID);
    TrimIsIdempotent(e.plan.submissionID);
    TrimIsIdempotent(e.plan.clientOrderID);
    ReadyIffCertified(e);
    hide Trim, Checks, Summarize, LatestIndex;
  }
}
