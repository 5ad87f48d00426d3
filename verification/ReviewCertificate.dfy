/** What a ready review certifies, written out field by field and letter by letter. */
module ReviewCertificate {
  import opened FirstOrderReview
  import opened ReviewLaws
  import opened Text
  import opened TextLaws
  import opened Wrappers

  // ---------------------------------------------------------------- rows, field by field

  predicate Amount(t: DecimalText) {
    t.Parsed? && t.value > 0.0
  }

  /** An order at the market is immediate and has no limit, an order with a limit has a positive one. */
  predicate OrderFine(orderType: string, timeInForce: string, limit: real) {
    || (orderType == "MARKET" && timeInForce in {"IOC", "FOK"} && limit == 0.0)
    || (orderType == "LIMIT" && timeInForce in {"GTC", "IOC", "FOK", "POST_ONLY"} && limit > 0.0)
  }

  predicate PlanFine(p: Plan) {
    && p.schemaVersion == "inquisitor.live_order_plan.v1"
    && (p.source == "decision-id" || p.source == "select-pending")
    && (p.pendingSymbol == "" || (p.source == "select-pending" && p.pendingSymbol == p.symbol))
    && Clean(p.runID) && Clean(p.decisionID) && Clean(p.submissionID) && Clean(p.clientOrderID)
    && CleanLower(p.exchange) && CleanLower(p.category) && CleanUpper(p.symbol)
    && (p.side == LongSide || p.side == ShortSide)
    && p.limitPrice.Parsed? && OrderFine(p.orderType, p.timeInForce, p.limitPrice.value)
    && Amount(p.quantity) && Amount(p.entryPrice) && Amount(p.notional)
    && Amount(p.maxLoss) && Amount(p.stopLoss) && Amount(p.leverage) && p.takeProfit != Malformed
    && 0 <= p.confidence <= 100
    && p.decisionCreatedAt != 0 && p.recordedAt != 0 && p.submissionCreatedAt != 0
    && !p.reserved && !p.exchangeContacted && !p.orderSubmitted
  }

  predicate IterationFine(i: Iteration) {
    && Clean(i.runID) && i.runStartedAt != 0 && i.number >= 1
    && i.action in {NoAction, Submitted, Stop}
    && i.startedAt != 0 && i.finishedAt != 0 && i.startedAt <= i.finishedAt
    && (forall text | text in {i.reason, i.decisionID, i.submissionID, i.clientOrderID} :: text == "" || Clean(text))
    && (i.requestStop ==> i.reason != "")
    && (i.action == Submitted ==> i.decisionID != "" && i.submissionID != "" && i.clientOrderID != "")
    && (i.exchangeSubmitted ==> i.clientOrderID != "")
  }

  predicate RunFine(r: RunAudit) {
    && Clean(r.runID) && r.startedAt != 0 && r.maxIterations >= 1
    && 1 <= r.iterationTimeout <= r.maxRuntime
    && (r.stopReason == "" || Clean(r.stopReason)) && (r.error == "" || Clean(r.error))
    && (r.status == Running ==> r.finishedAt == 0 && !r.completedWithinBounds)
    && (r.status != Running ==> r.finishedAt != 0 && r.startedAt <= r.finishedAt)
    && (r.status == Completed ==> r.completedWithinBounds)
    && (r.status == FailedRun ==> r.error != "") && r.status != UnknownRun
    && 0 <= r.succeeded <= r.attempted
    && forall k | 0 <= k < |r.iterations| ::
      IterationFine(r.iterations[k]) && r.iterations[k].runID == r.runID && r.iterations[k].runStartedAt == r.startedAt
  }

  /** The price at which the loss is cut is below the entry of a long order and above that of a short one, a target
      is on the other side, and the largest loss is what the way to the stop costs. */
  predicate RiskFine(s: Submission) {
    if s.reduceOnly then s.stopLoss == 0.0 && s.takeProfit == 0.0 && s.maxLoss == 0.0
    else
      && s.stopLoss > 0.0 && s.takeProfit >= 0.0 && s.maxLoss > 0.0
      && if s.side == LongSide then
           && s.stopLoss < s.referencePrice && (s.takeProfit == 0.0 || s.takeProfit > s.referencePrice)
           && s.maxLoss == s.quantity * (s.referencePrice - s.stopLoss)
         else
           && s.stopLoss > s.referencePrice && (s.takeProfit == 0.0 || s.takeProfit < s.referencePrice)
           && s.maxLoss == s.quantity * (s.stopLoss - s.referencePrice)
  }

  predicate SubmissionFine(s: Submission) {
    && Clean(s.submissionID) && Clean(s.clientOrderID) && Clean(s.decisionID) && Clean(s.intentID)
    && s.riskMode == LiveMode && s.decisionApproved
    && CleanLower(s.exchange) && CleanLower(s.category) && CleanUpper(s.symbol)
    && (s.side == LongSide || s.side == ShortSide)
    && OrderFine(s.orderType, s.timeInForce, s.limitPrice)
    && !(s.timeInForce == "POST_ONLY" && s.reduceOnly)
    && s.quantity > 0.0 && s.referencePrice > 0.0 && s.leverage > 0.0
    && s.notional > 0.0 && s.notional == s.referencePrice * s.quantity
    && 0 <= s.confidence <= 100 && Clean(s.reason) && RiskFine(s) && s.createdAt != 0
  }

  predicate AckFine(a: Acknowledgement) {
    && Clean(a.submissionID) && Clean(a.clientOrderID) && CleanLower(a.exchange) && a.receivedAt != 0
    && match a.status
       case Accepted => !AllSpace(a.exchangeOrderID) && AllSpace(a.rejectReason)
       case Rejected => AllSpace(a.exchangeOrderID) && Clean(a.rejectReason)
       case UnknownAck => false
  }

  predicate StatusFine(t: StatusSnapshot) {
    && Clean(t.clientOrderID) && !AllSpace(t.exchangeOrderID)
    && CleanLower(t.exchange) && CleanLower(t.category) && CleanUpper(t.symbol)
    && (t.side == LongSide || t.side == ShortSide)
    && t.orderType in {"MARKET", "LIMIT"} && t.timeInForce in {"GTC", "IOC", "FOK", "POST_ONLY"}
    && t.state in {Filled, OtherKnown}
    && t.quantity > 0.0 && 0.0 <= t.leaves <= t.quantity && 0.0 <= t.executed <= t.quantity
    && t.price >= 0.0 && t.averagePrice >= 0.0 && t.executedValue >= 0.0 && t.fee >= 0.0
    && t.exchangeCreatedAt != 0 && t.exchangeUpdatedAt != 0 && t.exchangeCreatedAt <= t.exchangeUpdatedAt
    && t.observedAt != 0
  }

  predicate PositionFine(q: PositionSnapshot) {
    && CleanLower(q.exchange) && CleanLower(q.category) && CleanUpper(q.symbol)
    && q.markPrice >= 0.0 && q.liquidationPrice >= 0.0 && q.leverage >= 0.0 && q.index >= 0 && q.observedAt != 0
    && (q.exchangeCreatedAt == 0 || q.exchangeUpdatedAt == 0 || q.exchangeCreatedAt <= q.exchangeUpdatedAt)
    && if q.open then
         && q.size > 0.0 && (q.side == LongSide || q.side == ShortSide) && q.state in {Normal, OtherPosition}
         && q.averagePrice > 0.0 && q.positionValue > 0.0 && q.exchangeCreatedAt != 0 && q.exchangeUpdatedAt != 0
       else q.size == 0.0 && q.side == NoSide && q.state in {NoPositionState, Normal, OtherPosition}
  }

  lemma SourceFineIff(p: Plan)
    requires p.symbol == Upper(Trim(p.symbol))
    ensures ValidPlanSource(p) <==>
      && p.schemaVersion == "inquisitor.live_order_plan.v1"
      && (p.source == "decision-id" || p.source == "select-pending")
      && (p.pendingSymbol == "" || (p.source == "select-pending" && p.pendingSymbol == p.symbol))
  {
    TrimmedIff(p.source);
    assert Clean("decision-id") && Clean("select-pending");
    TrimmedIff("");
    UpperIs("");
    hide Trim, Blank, RequiredTrimmed, Clean, Upper;
  }

  lemma NumbersFineIff(p: Plan)
    ensures KnownInstructions(p.side, p.orderType, p.timeInForce) && ValidPlanNumbers(p) <==>
      && (p.side == LongSide || p.side == ShortSide)
      && p.limitPrice.Parsed? && OrderFine(p.orderType, p.timeInForce, p.limitPrice.value)
      && Amount(p.quantity) && Amount(p.entryPrice) && Amount(p.notional)
      && Amount(p.maxLoss) && Amount(p.stopLoss) && Amount(p.leverage) && p.takeProfit != Malformed
      && 0 <= p.confidence <= 100
  {
  }

  lemma PlanFineIff(p: Plan)
    ensures ValidPlan(p) <==> PlanFine(p)
  {
    TrimmedIff(p.runID);
    TrimmedIff(p.decisionID);
    TrimmedIff(p.submissionID);
    TrimmedIff(p.clientOrderID);
    TrimmedIff(p.exchange);
    TrimmedIff(p.category);
    TrimmedIff(p.symbol);
    CaseIff(p.exchange);
    CaseIff(p.category);
    CaseIff(p.symbol);
    NumbersFineIff(p);
    if UpperTrimmed(p.symbol) {
      SourceFineIff(p);
    }
    hide Trim, Blank, RequiredTrimmed, LowerTrimmed, UpperTrimmed, Clean, Upper;
    hide ValidPlanSource, ValidPlanNumbers, KnownInstructions, OrderFine, Amount;
  }

  lemma IterationFineIff(i: Iteration)
    ensures ValidIteration(i) <==> IterationFine(i)
  {
    TrimmedIff(i.runID);
    TrimmedIff(i.reason);
    TrimmedIff(i.decisionID);
    TrimmedIff(i.submissionID);
    TrimmedIff(i.clientOrderID);
    EmptyIsBlank();
    hide Trim, Clean;
  }

  lemma RunFineIff(r: RunAudit)
    ensures ValidRun(r) <==> RunFine(r)
  {
    TrimmedIff(r.runID);
    TrimmedIff(r.stopReason);
    TrimmedIff(r.error);
    EmptyIsBlank();
    forall k | 0 <= k < |r.iterations| ensures ValidIteration(r.iterations[k]) <==> IterationFine(r.iterations[k]) {
      IterationFineIff(r.iterations[k]);
    }
    hide Trim, Clean, ValidIteration, IterationFine;
  }

  lemma SubmissionFineIff(s: Submission)
    ensures ValidSubmission(s) <==> SubmissionFine(s)
  {
    TrimmedIff(s.submissionID);
    TrimmedIff(s.clientOrderID);
    TrimmedIff(s.decisionID);
    TrimmedIff(s.intentID);
    TrimmedIff(s.reason);
    CaseIff(s.exchange);
    CaseIff(s.category);
    CaseIff(s.symbol);
    hide Trim, RequiredTrimmed, LowerTrimmed, UpperTrimmed, Clean, CleanLower, CleanUpper;
  }

  lemma AckFineIff(a: Acknowledgement)
    ensures ValidAck(a) <==> AckFine(a)
  {
    TrimmedIff(a.submissionID);
    TrimmedIff(a.clientOrderID);
    TrimmedIff(a.rejectReason);
    CaseIff(a.exchange);
    BlankIff(a.exchangeOrderID);
    BlankIff(a.rejectReason);
    hide Trim, Blank, AllSpace, RequiredTrimmed, LowerTrimmed, Clean, CleanLower;
  }

  lemma StatusFineIff(t: StatusSnapshot)
    ensures ValidStatus(t) <==> StatusFine(t)
  {
    TrimmedIff(t.clientOrderID);
    BlankIff(t.exchangeOrderID);
    CaseIff(t.exchange);
    CaseIff(t.category);
    CaseIff(t.symbol);
    hide Trim, Blank, AllSpace, RequiredTrimmed, LowerTrimmed, UpperTrimmed, Clean, CleanLower, CleanUpper;
  }

  lemma PositionFineIff(q: PositionSnapshot)
    ensures ValidPosition(q) <==> PositionFine(q)
  {
    CaseIff(q.exchange);
    CaseIff(q.category);
    CaseIff(q.symbol);
    hide LowerTrimmed, UpperTrimmed, CleanLower, CleanUpper;
  }

  // ---------------------------------------------------------------- the certificate

  /** Snapshot a is the first of those observed last. */
  predicate LatestObserved(times: seq<int>, a: int) {
    && 0 <= a < |times|
    && (forall j | 0 <= j < |times| :: times[j] <= times[a])
    && forall j | 0 <= j < a :: times[j] < times[a]
  }

  function ObservedStatuses(e: Evidence): (times: seq<int>)
    ensures |times| == |e.statuses| && forall k | 0 <= k < |times| :: times[k] == e.statuses[k].observedAt
  {
    seq(|e.statuses|, k requires 0 <= k < |e.statuses| => e.statuses[k].observedAt)
  }

  function ObservedPositions(e: Evidence): (times: seq<int>)
    ensures |times| == |e.positions| && forall k | 0 <= k < |times| :: times[k] == e.positions[k].observedAt
  {
    seq(|e.positions|, k requires 0 <= k < |e.positions| => e.positions[k].observedAt)
  }

  /** Plan, run, iteration, submission and acknowledgement are one each. */
  predicate OneChain(e: Evidence) {
    |e.runs| == 1 && |e.runs[0].iterations| == 1 && |e.submissions| == 1 && |e.acks| == 1
  }

  predicate RowsFine(e: Evidence)
    requires OneChain(e)
  {
    && PlanFine(e.plan) && RunFine(e.runs[0]) && SubmissionFine(e.submissions[0]) && AckFine(e.acks[0])
    && (forall k | 0 <= k < |e.statuses| :: StatusFine(e.statuses[k]))
    && (forall k | 0 <= k < |e.positions| :: PositionFine(e.positions[k]))
  }

  /** Every planned number is the submitted one. */
  predicate NumbersAgree(p: Plan, s: Submission) {
    && p.limitPrice == Parsed(s.limitPrice) && p.quantity == Parsed(s.quantity)
    && p.entryPrice == Parsed(s.referencePrice) && p.notional == Parsed(s.notional)
    && p.maxLoss == Parsed(s.maxLoss) && p.stopLoss == Parsed(s.stopLoss)
    && p.takeProfit == Parsed(s.takeProfit) && p.leverage == Parsed(s.leverage)
    && p.confidence == s.confidence
  }

  /** With t the latest status and q the latest position: one order, its numbers, its quantity and its times, and
      nothing went wrong. */
  ghost predicate Certifies(e: Evidence, t: StatusSnapshot, q: PositionSnapshot)
    requires OneChain(e)
  {
    var (p, r, i, s, a) := (e.plan, e.runs[0], e.runs[0].iterations[0], e.submissions[0], e.acks[0]);
    && p.runID == r.runID == i.runID
    && p.decisionID == i.decisionID == s.decisionID
    && p.submissionID == i.submissionID == s.submissionID == a.submissionID
    && p.clientOrderID == i.clientOrderID == s.clientOrderID == a.clientOrderID == t.clientOrderID
    && a.exchangeOrderID == t.exchangeOrderID
    && p.exchange == s.exchange == a.exchange == t.exchange == q.exchange
    && p.category == s.category == t.category == q.category && p.symbol == s.symbol == t.symbol == q.symbol
    && p.side == s.side == t.side == q.side
    && p.orderType == s.orderType == t.orderType && p.timeInForce == s.timeInForce == t.timeInForce
    && NumbersAgree(p, s)
    && s.quantity == t.quantity == t.executed == q.size && t.leaves == 0.0
    && p.submissionCreatedAt <= s.createdAt <= a.receivedAt <= t.observedAt <= q.observedAt
    && r.status == Completed && r.preflightChecked && r.preflightReady && r.error == ""
    && r.maxIterations == 1 && r.attempted == 1 && r.succeeded == 1
    && i.action == Submitted && i.requestStop && i.reason == "live_order_submitted"
    && i.exchangeSubmitted && !i.alreadySubmitted
    && !s.reduceOnly && !t.reduceOnly && !q.exchangeReduceOnly
    && a.status == Accepted && t.state == Filled && t.averagePrice > 0.0 && q.open && q.state == Normal
    && (AllSpace(t.rejectReason) || Between(t.rejectReason, "EC_NoError"))
  }

  ghost predicate Framed(text: string, word: string, m: int, n: int) {
    0 <= m <= n <= |text| && text[m..n] == word && forall i | 0 <= i < m || n <= i < |text| :: Space(text[i])
  }

  /** Nothing but the word and space around it. */
  ghost predicate Between(text: string, word: string) {
    exists m, n :: Framed(text, word, m, n)
  }

  ghost predicate Certificate(e: Evidence) {
    && OneChain(e) && RowsFine(e)
    && exists a, b ::
      && LatestObserved(ObservedStatuses(e), a) && LatestObserved(ObservedPositions(e), b)
      && Certifies(e, e.statuses[a], e.positions[b])
  }

  lemma CutIsUnique(text: string, m: int, n: int, k: int, l: int)
    requires 0 <= m <= n <= |text| && 0 <= k < l <= |text|
    requires forall i | 0 <= i < m || n <= i < |text| :: Space(text[i])
    requires m == n ==> AllSpace(text)
    requires m < n ==> !Space(text[m]) && !Space(text[n - 1])
    requires forall i | 0 <= i < k || l <= i < |text| :: Space(text[i])
    requires !Space(text[k]) && !Space(text[l - 1])
    ensures m == k && n == l
  {
  }

  lemma TrimIsBetween(text: string, word: string)
    requires Clean(word)
    ensures Trim(text) == word <==> Between(text, word)
  {
    hide Trim;
    var m, n := TrimCuts(text);
    if Trim(text) == word {
      assert Framed(text, word, m, n);
    }
    if Between(text, word) {
      var k, l :| Framed(text, word, k, l);
      FramedEnds(text, word, k, l);
      CutIsUnique(text, m, n, k, l);
    }
  }

  lemma FramedEnds(text: string, word: string, k: int, l: int)
    requires Framed(text, word, k, l) && Clean(word)
    ensures k < l && !Space(text[k]) && !Space(text[l - 1])
  {
    assert word[0] == text[k] && word[|word| - 1] == text[l - 1];
  }

  lemma ClearIff(reason: string)
    ensures RejectReasonClear(reason) <==> AllSpace(reason) || Between(reason, "EC_NoError")
  {
    BlankIff(reason);
    TrimIsBetween(reason, "EC_NoError");
    hide Trim, AllSpace, Between;
  }

  lemma LatestIs(times: seq<int>, a: int)
    requires times != []
    ensures LatestObserved(times, a) <==> a == LatestIndex(times)
  {
    LatestIsFirstGreatest(times);
    var k := LatestIndex(times);
    hide LatestIndex;
    if LatestObserved(times, a) {
      assert times[a] <= times[k] && times[k] <= times[a];
    }
  }

  lemma LatestSnapshots(e: Evidence, a: int, b: int)
    ensures LatestObserved(ObservedStatuses(e), a) <==> e.statuses != [] && a == LatestIndex(StatusTimes(e.statuses))
    ensures LatestObserved(ObservedPositions(e), b)
       <==> e.positions != [] && b == LatestIndex(PositionTimes(e.positions))
  {
    assert StatusTimes(e.statuses) == ObservedStatuses(e);
    assert PositionTimes(e.positions) == ObservedPositions(e);
    if e.statuses != [] {
      LatestIs(ObservedStatuses(e), a);
    }
    if e.positions != [] {
      LatestIs(ObservedPositions(e), b);
    }
    hide LatestIndex;
  }

  lemma RowsFineIff(e: Evidence)
    requires OneChain(e)
    ensures RowsValid(e) <==> RowsFine(e)
  {
    hide ValidPlan, ValidRun, ValidSubmission, ValidAck, ValidStatus, ValidPosition;
    hide PlanFine, RunFine, SubmissionFine, AckFine, StatusFine, PositionFine;
    PlanFineIff(e.plan);
    RunFineIff(e.runs[0]);
    SubmissionFineIff(e.submissions[0]);
    AckFineIff(e.acks[0]);
    forall k | 0 <= k < |e.statuses| ensures ValidStatus(e.statuses[k]) <==> StatusFine(e.statuses[k]) {
      StatusFineIff(e.statuses[k]);
    }
    forall k | 0 <= k < |e.positions| ensures ValidPosition(e.positions[k]) <==> PositionFine(e.positions[k]) {
      PositionFineIff(e.positions[k]);
    }
  }

  lemma CertifiesIff(e: Evidence)
    requires OneOfEach(e)
    ensures OneOrder(e) && OneQuantity(e) && InOrder(e) && CleanOutcome(e)
       <==> Certifies(e, LatestStatus(e.statuses), LatestPosition(e.positions))
  {
    ClearIff(LatestStatus(e.statuses).rejectReason);
    hide LatestStatus, LatestPosition, RejectReasonClear, AllSpace, Between;
  }

  lemma LatestPair(e: Evidence)
    requires OneOfEach(e) && OneChain(e)
    ensures Certifies(e, LatestStatus(e.statuses), LatestPosition(e.positions))
       <==> exists a, b ::
         (LatestObserved(ObservedStatuses(e), a) && LatestObserved(ObservedPositions(e), b)
          && Certifies(e, e.statuses[a], e.positions[b]))
  {
    hide Certifies, LatestIndex;
    var k, l := LatestIndex(StatusTimes(e.statuses)), LatestIndex(PositionTimes(e.positions));
    LatestSnapshots(e, k, l);
    forall a, b | LatestObserved(ObservedStatuses(e), a) && LatestObserved(ObservedPositions(e), b)
      ensures a == k && b == l
    {
      LatestSnapshots(e, a, b);
    }
  }

  /** A review is ready exactly when the evidence holds the certificate. */
  lemma ReadyIffCertificate(e: Evidence)
    ensures ReportOf(e).ready <==> Certificate(e)
  {
    hide RowsValid, RowsFine, Certifies, OneOrder, OneQuantity, InOrder, CleanOutcome, ReportOf;
    hide LatestStatus, LatestPosition, LatestObserved;
    ReadyIffCertified(e);
    if OneChain(e) {
      RowsFineIff(e);
    }
    if OneOfEach(e) {
      CertifiesIff(e);
      LatestPair(e);
    } else {
      NothingLatest(e);
    }
  }

  lemma NothingLatest(e: Evidence)
    requires !OneOfEach(e)
    ensures !Certificate(e)
  {
    hide RowsFine, Certifies;
  }

  // ---------------------------------------------------------------- the report

  /** The run check: the one run is sound, is the planned one, and completed its one iteration after a ready
      preflight. */
  predicate RunCheck(e: Evidence) {
    && |e.runs| == 1
    && var r := e.runs[0];
       && RunFine(r) && (AllSpace(e.plan.runID) || r.runID == Trim(e.plan.runID))
       && r.status == Completed && r.preflightChecked && r.preflightReady && r.completedWithinBounds
       && r.maxIterations == 1 && r.attempted == 1 && r.succeeded == 1 && r.error == ""
  }

  /** The iteration check: the one iteration submitted the planned order and asked to stop. */
  predicate IterationCheck(e: Evidence) {
    && |e.runs| == 1 && |e.runs[0].iterations| == 1
    && var (i, p) := (e.runs[0].iterations[0], e.plan);
       && IterationFine(i) && i.action == Submitted && i.requestStop && i.reason == "live_order_submitted"
       && i.exchangeSubmitted && !i.alreadySubmitted
       && i.decisionID == p.decisionID && i.submissionID == p.submissionID && i.clientOrderID == p.clientOrderID
  }

  /** The submission check: the one submission is the plan, number by number, and no older. */
  predicate SubmissionCheck(e: Evidence) {
    && |e.submissions| == 1
    && var (s, p) := (e.submissions[0], e.plan);
       && PlanFine(p) && SubmissionFine(s) && NumbersAgree(p, s)
       && p.decisionID == s.decisionID && p.submissionID == s.submissionID && p.clientOrderID == s.clientOrderID
       && p.exchange == s.exchange && p.category == s.category && p.symbol == s.symbol && p.side == s.side
       && p.orderType == s.orderType && p.timeInForce == s.timeInForce
       && !s.reduceOnly && p.submissionCreatedAt <= s.createdAt
  }

  /** The acknowledgement check: the one acknowledgement accepts the planned order after the submission. */
  predicate AckCheck(e: Evidence) {
    && |e.acks| == 1
    && var (a, p) := (e.acks[0], e.plan);
       && AckFine(a) && a.status == Accepted
       && a.submissionID == p.submissionID && a.clientOrderID == p.clientOrderID && a.exchange == p.exchange
       && (|e.submissions| == 1 ==> e.submissions[0].createdAt <= a.receivedAt)
  }

  /** The status check: all statuses are sound, and the latest is the submitted order, filled without a rest, after
      the submission and the acknowledgement. */
  ghost predicate StatusCheck(e: Evidence) {
    && (forall k | 0 <= k < |e.statuses| :: StatusFine(e.statuses[k]))
    && |e.submissions| == 1 && |e.acks| == 1
    && exists a :: LatestObserved(ObservedStatuses(e), a) && StatusHolds(e.submissions[0], e.acks[0], e.statuses[a])
  }

  ghost predicate StatusHolds(s: Submission, a: Acknowledgement, t: StatusSnapshot) {
    && t.clientOrderID == s.clientOrderID && t.exchange == s.exchange && t.category == s.category
    && t.symbol == s.symbol && t.side == s.side && t.orderType == s.orderType && t.timeInForce == s.timeInForce
    && t.reduceOnly == s.reduceOnly && t.quantity == s.quantity
    && s.createdAt <= t.observedAt && (a.receivedAt == 0 || a.receivedAt <= t.observedAt)
    && (a.exchangeOrderID == "" || t.exchangeOrderID == a.exchangeOrderID)
    && t.state == Filled && t.leaves == 0.0 && t.executed == s.quantity && t.averagePrice > 0.0
    && (AllSpace(t.rejectReason) || Between(t.rejectReason, "EC_NoError"))
  }

  /** The position check: all positions are sound, and the latest is open and normal, of the submitted market and
      side, and of the executed size, after the submission and the latest status, which is filled. */
  ghost predicate PositionCheck(e: Evidence) {
    && (forall k | 0 <= k < |e.positions| :: PositionFine(e.positions[k]))
    && |e.submissions| == 1
    && exists a, b ::
      && LatestObserved(ObservedStatuses(e), a) && LatestObserved(ObservedPositions(e), b)
      && PositionHolds(e.submissions[0], e.statuses[a], e.positions[b])
  }

  predicate PositionHolds(s: Submission, t: StatusSnapshot, q: PositionSnapshot) {
    && q.exchange == s.exchange && q.category == s.category && q.symbol == s.symbol && q.side == s.side
    && s.createdAt <= q.observedAt && t.observedAt <= q.observedAt
    && t.state == Filled && q.size == t.executed && q.open && q.state == Normal && !q.exchangeReduceOnly
  }

  lemma EarlyChecks(e: Evidence)
    ensures PlanPasses(e) <==> PlanFine(e.plan)
    ensures RunPasses(e) <==> RunCheck(e)
    ensures IterationPasses(e) <==> IterationCheck(e)
  {
    PlanFineIff(e.plan);
    BlankIff(e.plan.runID);
    if |e.runs| == 1 {
      RunFineIff(e.runs[0]);
      TrimmedIff(e.runs[0].error);
      BlankIff(e.runs[0].error);
      if |e.runs[0].iterations| == 1 {
        IterationFineIff(e.runs[0].iterations[0]);
      }
      CleanIsNotSpace(e.runs[0].error);
    }
    hide ValidPlan, PlanFine, ValidRun, ValidIteration, IterationFine, Trim, AllSpace, Blank, Clean;
  }

  lemma CleanIsNotSpace(s: string)
    ensures s == "" ==> AllSpace(s)
    ensures Clean(s) ==> !AllSpace(s)
  {
  }

  lemma OrderChecks(e: Evidence)
    ensures SubmissionPasses(e) <==> SubmissionCheck(e)
    ensures AckPasses(e) <==> AckCheck(e)
  {
    hide ValidPlan, PlanFine, ValidSubmission, SubmissionFine, ValidAck;
    PlanFineIff(e.plan);
    PlanIsDated(e.plan);
    if |e.submissions| == 1 {
      SubmissionFineIff(e.submissions[0]);
    }
    if |e.acks| == 1 {
      AckFineIff(e.acks[0]);
    }
    hide LowerTrimmed, CleanLower, Clean, AllSpace;
  }

  lemma PlanIsDated(p: Plan)
    ensures PlanFine(p) ==> p.submissionCreatedAt != 0
  {
  }

  lemma StatusCheckIff(e: Evidence)
    ensures StatusPasses(e) <==> StatusCheck(e)
  {
    hide LatestIndex, Between, AllSpace, RejectReasonClear, ValidStatus, StatusFine;
    forall k | 0 <= k < |e.statuses| ensures ValidStatus(e.statuses[k]) <==> StatusFine(e.statuses[k]) {
      StatusFineIff(e.statuses[k]);
    }
    if e.statuses != [] {
      var t := LatestStatus(e.statuses);
      ClearIff(t.rejectReason);
      LatestSnapshots(e, LatestIndex(StatusTimes(e.statuses)), 0);
    }
    forall a | LatestObserved(ObservedStatuses(e), a)
      ensures e.statuses != [] && LatestStatus(e.statuses) == e.statuses[a]
    {
      LatestSnapshots(e, a, 0);
    }
    hide LatestStatus;
  }

  lemma PositionCheckIff(e: Evidence)
    ensures PositionPasses(e) <==> PositionCheck(e)
  {
    hide LatestIndex, ValidPosition, PositionFine;
    forall k | 0 <= k < |e.positions| ensures ValidPosition(e.positions[k]) <==> PositionFine(e.positions[k]) {
      PositionFineIff(e.positions[k]);
    }
    if e.statuses != [] && e.positions != [] {
      LatestSnapshots(e, LatestIndex(StatusTimes(e.statuses)), LatestIndex(PositionTimes(e.positions)));
    }
    forall a, b | LatestObserved(ObservedStatuses(e), a) && LatestObserved(ObservedPositions(e), b)
      ensures e.statuses != [] && LatestStatus(e.statuses) == e.statuses[a]
      ensures e.positions != [] && LatestPosition(e.positions) == e.positions[b]
    {
      LatestSnapshots(e, a, b);
    }
    hide LatestStatus, LatestPosition;
  }

  function Verdict(passes: bool): CheckStatus {
    if passes then Pass else Fail
  }

  /** The seven checks, in order, and how many of them pass and fail. */
  lemma ReportChecks(e: Evidence)
    ensures var r := ReportOf(e);
      && r.checks == [
           Check("first_order_plan", Verdict(PlanFine(e.plan))),
           Check("live_loop_run", Verdict(RunCheck(e))),
           Check("live_loop_iteration", Verdict(IterationCheck(e))),
           Check("live_order_submission", Verdict(SubmissionCheck(e))),
           Check("live_order_acknowledgement", Verdict(AckCheck(e))),
           Check("live_order_status", Verdict(StatusCheck(e))),
           Check("live_position_snapshot", Verdict(PositionCheck(e)))]
      && r.summary == Tally(7, |With(r.checks, Pass)|, 0, |With(r.checks, Fail)|)
      && (r.ready <==> With(r.checks, Fail) == {})
  {
    hide PlanPasses, RunPasses, IterationPasses, SubmissionPasses, AckPasses, StatusPasses, PositionPasses;
    hide PlanFine, RunCheck, IterationCheck, SubmissionCheck, AckCheck, StatusCheck, PositionCheck;
    hide LatestStatus, LatestPosition, Trim, Summarize;
    EarlyChecks(e);
    OrderChecks(e);
    StatusCheckIff(e);
    PositionCheckIff(e);
    SummaryCounts(Checks(e));
    assert |Checks(e)| == 7 && With(Checks(e), Warn) == {};
    hide With;
  }

  /** The positions of the checks of one status. */
  ghost function With(checks: seq<Check>, status: CheckStatus): set<int> {
    set k | 0 <= k < |checks| && checks[k].status == status
  }

  lemma WithGrows(checks: seq<Check>, status: CheckStatus)
    requires checks != []
    ensures var n := |checks| - 1;
      |With(checks, status)| == |With(checks[..n], status)| + (if checks[n].status == status then 1 else 0)
  {
    var n := |checks| - 1;
    var before := With(checks[..n], status);
    assert With(checks, status) == if checks[n].status == status then before + {n} else before;
  }

  lemma {:induction false} SummaryCounts(checks: seq<Check>)
    ensures var t := Summarize(checks);
      && t.total == |checks| && t.passed == |With(checks, Pass)|
      && t.warned == |With(checks, Warn)| && t.failed == |With(checks, Fail)|
  {
    if checks == [] {
    } else {
      SummaryCounts(checks[..|checks| - 1]);
      WithGrows(checks, Pass);
      WithGrows(checks, Warn);
      WithGrows(checks, Fail);
      hide With;
    }
  }

  /** What else a report tells: the names of the plan, the exchange's name of the order from the latest status or
      else from the one acknowledgement, and the latest state and position. */
  lemma ReportTells(e: Evidence)
    ensures var r := ReportOf(e);
      && r.runID == Trim(e.plan.runID) && r.decisionID == Trim(e.plan.decisionID)
      && r.submissionID == Trim(e.plan.submissionID) && r.clientOrderID == Trim(e.plan.clientOrderID)
      && (forall a | LatestObserved(ObservedStatuses(e), a) ::
            r.exchangeOrderID == e.statuses[a].exchangeOrderID && r.latestState == e.statuses[a].state)
      && (e.statuses == [] ==>
            && r.latestState == NoState
            && r.exchangeOrderID == if |e.acks| == 1 then e.acks[0].exchangeOrderID else "")
      && (forall b | LatestObserved(ObservedPositions(e), b) ::
            r.positionOpen == e.positions[b].open && r.positionSize == Some(e.positions[b].size))
      && (e.positions == [] ==> !r.positionOpen && r.positionSize == None)
  {
    hide Trim, Checks, Summarize, LatestIndex;
    forall a | LatestObserved(ObservedStatuses(e), a)
      ensures e.statuses != [] && LatestStatus(e.statuses) == e.statuses[a]
    {
      LatestSnapshots(e, a, 0);
    }
    forall b | LatestObserved(ObservedPositions(e), b)
      ensures e.positions != [] && LatestPosition(e.positions) == e.positions[b]
    {
      LatestSnapshots(e, 0, b);
    }
    hide LatestStatus, LatestPosition;
  }

  /** A stored report is valid exactly with a check or more, each named and with a known status, a summary that
      counts them, a readiness that means no failure, names of plan and order, and, if it is ready, an order that is
      filled and a position that is open and has a size. */
  lemma ValidReportIff(r: Report)
    ensures ValidReport(r) <==>
      && r.checks != []
      && (forall k | 0 <= k < |r.checks| :: Clean(r.checks[k].name) && r.checks[k].status in {Pass, Warn, Fail})
      && r.summary == Tally(|r.checks|, |With(r.checks, Pass)|, |With(r.checks, Warn)|, |With(r.checks, Fail)|)
      && (r.ready <==> r.summary.failed == 0)
      && Clean(r.runID) && Clean(r.decisionID) && Clean(r.submissionID) && Clean(r.clientOrderID)
      && (r.ready ==>
            !AllSpace(r.exchangeOrderID) && r.latestState == Filled && r.positionOpen && r.positionSize != None)
  {
    SummaryCounts(r.checks);
    TrimmedIff(r.runID);
    TrimmedIff(r.decisionID);
    TrimmedIff(r.submissionID);
    TrimmedIff(r.clientOrderID);
    BlankIff(r.exchangeOrderID);
    forall k | 0 <= k < |r.checks| ensures RequiredTrimmed(r.checks[k].name) <==> Clean(r.checks[k].name) {
      TrimmedIff(r.checks[k].name);
    }
    hide Trim, Blank, RequiredTrimmed, Clean, AllSpace, With, Summarize;
  }
}
