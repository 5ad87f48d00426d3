/** What holds of every run of the collector, in every environment. */
module CollectorLaws {
  import opened Collector

  lemma FollowLast(c: Config, trace: seq<Event>)
    requires trace != [] && Follow(c, trace).Some?
    ensures Follow(c, trace[..|trace| - 1]).Some?
    ensures Follow(c, trace) == Next(c, Follow(c, trace[..|trace| - 1]).value, trace[|trace| - 1])
  {
    hide Next;
  }

  // ---------------------------------------------------------------- sessions

  /** An event that leaves a session as usable as it was. */
  predicate Undisturbed(e: Event) {
    match e
    case Ping(ok) => ok
    case Read(ok) => ok
    case Handle(_) => true
    case Now(_) => true
    case _ => false
  }

  /** Before event i the latest connect and subscribe both succeeded, one right after the other, and since then
      nothing was closed, slept, dialed or subscribed, and no ping or read has failed. */
  ghost predicate InSession(trace: seq<Event>, i: int)
    requires 0 <= i <= |trace|
  {
    exists j {:trigger trace[j]} :: 1 <= j < i && trace[j - 1] == Connect(true) && trace[j] == Subscribe(true)
      && forall k | j < k < i :: Undisturbed(trace[k])
  }

  predicate Troubled(e: Event) {
    e == Ping(false) || e == Read(false) || e == Handle(true)
  }

  ghost predicate SafeAt(trace: seq<Event>, i: int)
    requires 0 <= i < |trace|
  {
    match trace[i]
    case Read(_) => InSession(trace, i)
    case Ping(_) => InSession(trace, i)
    case Handle(_) => 1 <= i && trace[i - 1] == Read(true)
    case Connect(_) => i == 0 || (2 <= i && trace[i - 1] == Sleep(true) && trace[i - 2] == Close)
    case Close => 1 <= i && Troubled(trace[i - 1])
    case _ => true
  }

  /** Every read and ping happens inside a live session, every payload handled was just read, every later dial
      follows a close and a completed wait, and a session is closed only for a failure or a resync. */
  ghost predicate Safe(trace: seq<Event>) {
    forall i | 0 <= i < |trace| :: SafeAt(trace, i)
  }

  ghost predicate SessionLink(s: State, trace: seq<Event>) {
    var n := |trace|;
    match s.at
    case Dialing(_) => n == 0 || (2 <= n && trace[n - 1] == Sleep(true) && trace[n - 2] == Close)
    case Linked(_) => 1 <= n && trace[n - 1] == Connect(true)
    case Closing(_) => 1 <= n && Troubled(trace[n - 1])
    case Waiting(_) => 1 <= n && trace[n - 1] == Close
    case Handling => 1 <= n && trace[n - 1] == Read(true) && InSession(trace, n)
    case Done => true
    case Failed(_) => true
    case _ => InSession(trace, n)
  }

  lemma SessionGoesOn(trace: seq<Event>, e: Event)
    ensures InSession(trace, |trace|) && Undisturbed(e) ==> InSession(trace + [e], |trace| + 1)
    ensures trace != [] && trace[|trace| - 1] == Connect(true) && e == Subscribe(true) ==>
      InSession(trace + [e], |trace| + 1)
  {
    var all := trace + [e];
    if InSession(trace, |trace|) && Undisturbed(e) {
      var j :| 1 <= j < |trace| && trace[j - 1] == Connect(true) && trace[j] == Subscribe(true)
        && forall k | j < k < |trace| :: Undisturbed(trace[k]);
      assert all[j] == Subscribe(true) && all[j - 1] == Connect(true);
    }
    if trace != [] && trace[|trace| - 1] == Connect(true) && e == Subscribe(true) {
      assert all[|trace|] == Subscribe(true);
    }
  }

  lemma SafeExtends(trace: seq<Event>, e: Event)
    requires Safe(trace) && SafeAt(trace + [e], |trace|)
    ensures Safe(trace + [e])
  {
    var all := trace + [e];
    forall i | 0 <= i < |trace| ensures SafeAt(all, i) {
      assert SafeAt(trace, i);
      assert all[i] == trace[i];
      if trace[i].Read? || trace[i].Ping? {
        SessionKept(trace, e, i);
      }
      hide InSession;
    }
  }

  lemma SessionKept(trace: seq<Event>, e: Event, i: int)
    requires 0 <= i <= |trace|
    ensures InSession(trace, i) ==> InSession(trace + [e], i)
  {
    var all := trace + [e];
    if InSession(trace, i) {
      var j :| 1 <= j < i && trace[j - 1] == Connect(true) && trace[j] == Subscribe(true)
        && forall k | j < k < i :: Undisturbed(trace[k]);
      assert all[j] == Subscribe(true) && all[j - 1] == Connect(true);
    }
  }

  lemma SessionStep(c: Config, s: State, trace: seq<Event>, e: Event)
    requires SessionLink(s, trace) && Next(c, s, e).Some?
    ensures SafeAt(trace + [e], |trace|)
    ensures SessionLink(Next(c, s, e).value, trace + [e])
  {
    hide InSession;
    SessionGoesOn(trace, e);
    SessionKept(trace, e, |trace|);
  }

  lemma {:induction false} SessionInvariant(c: Config, trace: seq<Event>)
    requires Follow(c, trace).Some?
    ensures Safe(trace) && SessionLink(Follow(c, trace).value, trace)
  {
    hide SessionLink, Next, SafeAt, Safe;
    if trace == [] {
      EmptyIsSafe();
    } else {
      var before, e := trace[..|trace| - 1], trace[|trace| - 1];
      FollowLast(c, trace);
      SessionInvariant(c, before);
      SessionStep(c, Follow(c, before).value, before, e);
      assert before + [e] == trace;
      SafeExtends(before, e);
    }
  }

  lemma EmptyIsSafe()
    ensures Safe([]) && SessionLink(START, [])
  {
  }

  /** Session safety, for every allowed trace. */
  lemma SessionSafety(c: Config, trace: seq<Event>)
    requires Follow(c, trace).Some?
    ensures Safe(trace)
  {
    SessionInvariant(c, trace);
  }

  // ---------------------------------------------------------------- budget

  predicate Exhausted(error: RunError) {
    error.PingExhausted? || error.ReadExhausted? || error.ResyncExhausted?
  }

  /** Whether the run has pinged in this round and not read yet. */
  predicate OwesRead(at: Point) {
    match at
    case Dialing(toRead) => toRead
    case Linked(toRead) => toRead
    case Stamping(toRead) => toRead
    case Closing(toRead) => toRead
    case Waiting(toRead) => toRead
    case Reading => true
    case Failed(_) => true
    case _ => false
  }

  predicate BudgetLink(c: Config, s: State, connects: int, fetches: int, pings: int, handles: int, closes: int) {
    && handles == s.read
    && (if s.at.Dialing? || s.at.Closing? || s.at.Waiting? then connects <= s.used else connects <= s.used + 1)
    && closes == (if s.at.Closing? then s.used - 1 else s.used)
    && fetches <= s.read + s.used + (if s.at.Handling? || s.at == Failed(ReadExhausted) then 1 else 0)
    && pings <= fetches + (if OwesRead(s.at) then 1 else 0)
    && (s.at.Failed? && Exhausted(s.at.error) ==> s.used == c.reconnectAttempts)
    && (s.at.Failed? && !Exhausted(s.at.error) ==> s.at.error in {WaitFailed, ConnectFailed, SubscribeFailed})
  }

  ghost predicate Budgeted(c: Config, s: State, trace: seq<Event>) {
    BudgetLink(c, s, Count(Connects, trace), Count(Reads, trace), Count(Pings, trace), Count(Handles, trace),
               Count(Closes, trace))
  }

  lemma BudgetStep(c: Config, s: State, e: Event, connects: int, fetches: int, pings: int, handles: int, closes: int)
    requires ValidConfig(c) && Next(c, s, e).Some? && s.used <= c.reconnectAttempts
    requires BudgetLink(c, s, connects, fetches, pings, handles, closes)
    ensures BudgetLink(c, Next(c, s, e).value,
      connects + (if e.Connect? then 1 else 0), fetches + (if e.Read? then 1 else 0),
      pings + (if e.Ping? then 1 else 0),
      handles + (if e.Handle? then 1 else 0), closes + (if e.Close? then 1 else 0))
  {
  }

  lemma {:induction false} BudgetInvariant(c: Config, trace: seq<Event>)
    requires ValidConfig(c) && Follow(c, trace).Some?
    ensures Budgeted(c, Follow(c, trace).value, trace)
  {
    hide Next, BudgetLink;
    if trace == [] {
      NothingSpent(c);
    } else {
      var before, e := trace[..|trace| - 1], trace[|trace| - 1];
      FollowLast(c, trace);
      UsedWithinBudget(c, before);
      BudgetInvariant(c, before);
      BudgetStep(c, Follow(c, before).value, e, Count(Connects, before), Count(Reads, before), Count(Pings, before),
                 Count(Handles, before), Count(Closes, before));
    }
  }

  lemma NothingSpent(c: Config)
    ensures BudgetLink(c, START, 0, 0, 0, 0, 0)
  {
  }

  /** One budget for all three failure paths: whatever the environment does, at any time there are at most
      messages + attempts reads, 1 + attempts dials and one ping more than reads, and every close is one
      reconnect spent. */
  lemma SharedBudget(c: Config, trace: seq<Event>)
    requires ValidConfig(c) && Follow(c, trace).Some?
    ensures Count(Reads, trace) <= c.messages + c.reconnectAttempts
    ensures Count(Connects, trace) <= 1 + c.reconnectAttempts
    ensures Count(Closes, trace) <= c.reconnectAttempts
    ensures Count(Pings, trace) <= Count(Reads, trace) + 1
    ensures Count(Handles, trace) == Follow(c, trace).value.read <= c.messages
  {
    BudgetInvariant(c, trace);
    UsedWithinBudget(c, trace);
  }

  /** A whole run ends without an error exactly when all messages were handled. It reports an exhausted budget
      only when every reconnect was spent, and any other error only for a failed wait, dial or subscribe. */
  lemma HowRunsEnd(c: Config, env: Env, trace: seq<Event>)
    requires ValidConfig(c) && WholeRun(c, env, trace)
    ensures Follow(c, trace).value.at.Done? <==> Count(Handles, trace) == c.messages
    ensures Count(Handles, trace) == Follow(c, trace).value.read
    ensures var at := Follow(c, trace).value.at;
      at.Failed? ==>
        if Exhausted(at.error) then Count(Closes, trace) == c.reconnectAttempts
        else trace != [] && trace[|trace| - 1] in {Sleep(false), Connect(false), Subscribe(false)}
  {
    BudgetInvariant(c, trace);
    UsedWithinBudget(c, trace);
    FollowLast(c, trace);
    hide Conforms, Count;
  }

  // ---------------------------------------------------------------- pings

  ghost predicate MonotoneClock(trace: seq<Event>) {
    forall i, j | 0 <= i < j < |trace| && trace[i].Now? && trace[j].Now? :: trace[i].time <= trace[j].time
  }

  /** Every ping so far was preceded by a look at the clock no later than t. */
  ghost predicate PingsUntil(trace: seq<Event>, t: int) {
    forall i | 0 <= i < |trace| && trace[i].Ping? :: 1 <= i && trace[i - 1].Now? && trace[i - 1].time <= t
  }

  ghost predicate PingsTimed(trace: seq<Event>) {
    forall i | 0 <= i < |trace| && trace[i].Ping? :: 1 <= i && trace[i - 1].Now?
  }

  /** Any two pings are at least the ping interval apart, by the clock reading each was decided on. */
  ghost predicate PingsSpaced(c: Config, trace: seq<Event>) {
    && PingsTimed(trace)
    && forall i, j | 0 <= i < j < |trace| && trace[i].Ping? && trace[j].Ping? ::
      trace[i - 1].time + c.pingInterval <= trace[j - 1].time
  }

  ghost predicate PingLink(c: Config, s: State, trace: seq<Event>) {
    match s.at
    case Round => PingsUntil(trace, s.lastPing)
    case Reading => PingsUntil(trace, s.lastPing)
    case Handling => PingsUntil(trace, s.lastPing)
    case PingDue =>
      PingsUntil(trace, s.lastPing) && trace != [] && trace[|trace| - 1].Now?
      && s.lastPing + c.pingInterval <= trace[|trace| - 1].time
    case _ => true
  }

  lemma NewReadingCoversPings(trace: seq<Event>, t: int)
    requires PingsTimed(trace) && MonotoneClock(trace + [Now(t)])
    ensures PingsUntil(trace + [Now(t)], t)
  {
    var all := trace + [Now(t)];
    forall i | 0 <= i < |all| && all[i].Ping? ensures 1 <= i && all[i - 1].Now? && all[i - 1].time <= t {
      assert trace[i].Ping? && all[i - 1] == trace[i - 1];
      assert all[|trace|].Now?;
    }
  }

  lemma SpacedExtends(c: Config, trace: seq<Event>, e: Event, lastPing: int)
    requires PingsSpaced(c, trace)
    requires e.Ping? ==> PingsUntil(trace, lastPing)
    requires e.Ping? ==> trace != [] && trace[|trace| - 1].Now?
    requires e.Ping? ==> lastPing + c.pingInterval <= trace[|trace| - 1].time
    ensures PingsSpaced(c, trace + [e])
  {
    var all := trace + [e];
    forall i | 0 <= i < |all| && all[i].Ping? ensures 1 <= i && all[i - 1].Now? {
      if i < |trace| {
        assert trace[i].Ping? && all[i - 1] == trace[i - 1];
      }
    }
    forall i, j | 0 <= i < j < |all| && all[i].Ping? && all[j].Ping?
      ensures all[i - 1].time + c.pingInterval <= all[j - 1].time
    {
      assert trace[i].Ping? && all[i - 1] == trace[i - 1];
      if j < |trace| {
        assert trace[j].Ping? && all[j - 1] == trace[j - 1];
      }
    }
  }

  lemma OtherEventKeepsPings(trace: seq<Event>, e: Event, t: int)
    requires PingsUntil(trace, t) && !e.Ping?
    ensures PingsUntil(trace + [e], t)
  {
    forall i | 0 <= i < |trace + [e]| && (trace + [e])[i].Ping?
      ensures 1 <= i && (trace + [e])[i - 1].Now? && (trace + [e])[i - 1].time <= t
    {
      assert trace[i].Ping? && (trace + [e])[i - 1] == trace[i - 1];
    }
  }

  lemma PingStep(c: Config, s: State, trace: seq<Event>, e: Event)
    requires PingLink(c, s, trace) && PingsSpaced(c, trace) && Next(c, s, e).Some? && MonotoneClock(trace + [e])
    ensures PingsSpaced(c, trace + [e]) && PingLink(c, Next(c, s, e).value, trace + [e])
  {
    assert PingsTimed(trace);
    hide PingsSpaced, MonotoneClock, PingsUntil, PingsTimed;
    SpacedExtends(c, trace, e, s.lastPing);
    if e.Now? {
      NewReadingCoversPings(trace, e.time);
    }
    if !e.Ping? && (s.at.Round? || s.at.Reading? || s.at.Handling?) {
      OtherEventKeepsPings(trace, e, s.lastPing);
    }
  }

  lemma {:induction false} PingInvariant(c: Config, trace: seq<Event>)
    requires Follow(c, trace).Some? && MonotoneClock(trace)
    ensures PingsSpaced(c, trace) && PingLink(c, Follow(c, trace).value, trace)
  {
    hide Next;
    if trace == [] {
    } else {
      var before, e := trace[..|trace| - 1], trace[|trace| - 1];
      FollowLast(c, trace);
      assert before + [e] == trace;
      assert MonotoneClock(before);
      hide MonotoneClock, PingLink, PingsSpaced;
      PingInvariant(c, before);
      PingStep(c, Follow(c, before).value, before, e);
    }
  }

  /** With a clock that never runs backward, any two pings of a run are at least the ping interval apart, across
      reconnects as well. */
  lemma PingsKeepTheirDistance(c: Config, trace: seq<Event>)
    requires Follow(c, trace).Some? && MonotoneClock(trace)
    ensures PingsSpaced(c, trace)
  {
    PingInvariant(c, trace);
  }

  // ---------------------------------------------------------------- determinacy

  lemma {:induction false} FollowPrefix(c: Config, trace: seq<Event>, n: int)
    requires Follow(c, trace).Some? && 0 <= n <= |trace|
    ensures Follow(c, trace[..n]).Some?
    ensures n < |trace| ==> Next(c, Follow(c, trace[..n]).value, trace[n]).Some?
  {
    hide Next;
    if n == |trace| {
      assert trace[..n] == trace;
    } else {
      var before := trace[..|trace| - 1];
      FollowLast(c, trace);
      if n < |before| {
        FollowPrefix(c, before, n);
        assert before[..n] == trace[..n];
      }
    }
  }

  lemma OneNextEvent(c: Config, env: Env, s: State, n: nat, d: Event, e: Event)
    requires Next(c, s, d).Some? && Next(c, s, e).Some? && Outcome(env, n, d) && Outcome(env, n, e)
    ensures d == e
  {
  }

  lemma {:induction false} CommonPrefix(c: Config, env: Env, a: seq<Event>, b: seq<Event>, n: int)
    requires Conforms(env, a) && Conforms(env, b) && Follow(c, a).Some? && Follow(c, b).Some?
    requires 0 <= n <= |a| && n <= |b|
    ensures a[..n] == b[..n]
    decreases n
  {
    hide Next, Outcome;
    if n == 0 {
    } else {
      CommonPrefix(c, env, a, b, n - 1);
      FollowPrefix(c, a, n - 1);
      FollowPrefix(c, b, n - 1);
      assert Outcome(env, n - 1, a[n - 1]) && Outcome(env, n - 1, b[n - 1]);
      OneNextEvent(c, env, Follow(c, a[..n - 1]).value, n - 1, a[n - 1], b[n - 1]);
      assert a[..n] == a[..n - 1] + [a[n - 1]] && b[..n] == b[..n - 1] + [b[n - 1]];
    }
  }

  lemma ShorterIsWhole(c: Config, env: Env, a: seq<Event>, b: seq<Event>)
    requires WholeRun(c, env, a) && WholeRun(c, env, b) && |a| <= |b|
    ensures a == b
  {
    hide Conforms, Next;
    CommonPrefix(c, env, a, b, |a|);
    assert a[..|a|] == a;
    if |a| < |b| {
      FollowPrefix(c, b, |a|);
      EndedIsEnd(c, Follow(c, a).value, b[|a|]);
      assert false;
    }
    assert b[..|b|] == b;
  }

  lemma EndedIsEnd(c: Config, s: State, e: Event)
    requires Ended(s)
    ensures Next(c, s, e).None?
  {
  }

  /** A configuration and an environment have one whole run at most: the protocol never leaves a choice. */
  lemma RunIsDetermined(c: Config, env: Env, a: seq<Event>, b: seq<Event>)
    requires WholeRun(c, env, a) && WholeRun(c, env, b)
    ensures a == b
  {
    hide WholeRun;
    if |a| <= |b| {
      ShorterIsWhole(c, env, a, b);
    } else {
      ShorterIsWhole(c, env, b, a);
    }
  }
}
