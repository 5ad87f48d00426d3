/** The collector's protocol once more, told from what has happened: which event may follow a trace, without a
    state, and which traces are whole runs. */
module CollectorHistory {
  import opened Collector
  import opened CollectorLaws

  /** The event k places before the end of the trace, if there are as many. */
  predicate Ago(trace: seq<Event>, k: int, e: Event)
    requires 1 <= k
  {
    k <= |trace| && trace[|trace| - k] == e
  }

  /** A clock reading right after a ping or a subscribe. */
  predicate StampAt(trace: seq<Event>, i: int)
    requires 0 <= i < |trace|
  {
    trace[i].Now? && 1 <= i && (trace[i - 1].Ping? || trace[i - 1].Subscribe?)
  }

  /** The time of the latest stamp, zero before there is one. */
  function LatestStamp(trace: seq<Event>): int {
    if trace == [] then 0
    else if StampAt(trace, |trace| - 1) then trace[|trace| - 1].time
    else LatestStamp(trace[..|trace| - 1])
  }

  /** A new round asks for the time if pings are wanted, and reads at once if they are not. */
  predicate StartsRound(c: Config, e: Event) {
    if c.pingInterval > 0 then e.Now? else e.Read?
  }

  /** A failure is followed by a close, if fewer reconnects were spent than are allowed. */
  predicate Recovers(c: Config, trace: seq<Event>, e: Event) {
    e.Close? && Count(Closes, trace) < c.reconnectAttempts
  }

  /** The session was set up because a ping failed: the read of that round is still to come. */
  predicate ReadOwed(trace: seq<Event>) {
    Ago(trace, 6, Ping(false))
  }

  /** The event may follow the trace. */
  predicate Lawful(c: Config, trace: seq<Event>, e: Event) {
    if trace == [] then e.Connect?
    else
      match trace[|trace| - 1]
      case Connect(ok) => ok && e.Subscribe?
      case Subscribe(ok) => ok && e.Now?
      case Ping(ok) => if ok then e.Now? else Recovers(c, trace, e)
      case Read(ok) => if ok then e.Handle? else Recovers(c, trace, e)
      case Handle(resync) =>
        Count(Handles, trace) < c.messages && if resync then Recovers(c, trace, e) else StartsRound(c, e)
      case Close => e.Sleep?
      case Sleep(ok) => ok && e.Connect?
      case Now(t) =>
        if Ago(trace, 2, Ping(true)) then e.Read?
        else if Ago(trace, 2, Subscribe(true)) then if ReadOwed(trace) then e.Read? else StartsRound(c, e)
        else if t >= LatestStamp(trace) + c.pingInterval then e.Ping?
        else e.Read?
  }

  /** Every event may follow the events before it. */
  ghost predicate LawfulTrace(c: Config, trace: seq<Event>) {
    forall i | 0 <= i < |trace| :: Lawful(c, trace[..i], trace[i])
  }

  // ---------------------------------------------------------------- the states behind a trace

  predicate AfterTrouble(trace: seq<Event>, toRead: bool, k: int)
    requires 1 <= k
  {
    && k <= |trace| && Troubled(trace[|trace| - k])
    && (toRead <==> trace[|trace| - k] == Ping(false))
  }

  /** The point of a state, by the last events. */
  predicate PointLink(c: Config, s: State, trace: seq<Event>) {
    match s.at
    case Dialing(r) =>
      (trace == [] && !r) || (Ago(trace, 1, Sleep(true)) && Ago(trace, 2, Close) && AfterTrouble(trace, r, 3))
    case Linked(r) =>
      Ago(trace, 1, Connect(true))
      && ((|trace| == 1 && !r) || (Ago(trace, 2, Sleep(true)) && Ago(trace, 3, Close) && AfterTrouble(trace, r, 4)))
    case Stamping(r) =>
      if Ago(trace, 1, Ping(true)) then r
      else
        Ago(trace, 1, Subscribe(true)) && ((|trace| == 2 && !r) || AfterTrouble(trace, r, 5))
    case Round => RoundStarts(c, trace) && c.pingInterval > 0
    case PingDue => RoundReading(trace) && trace[|trace| - 1].time >= LatestStamp(trace) + c.pingInterval
    case Reading =>
      || (RoundStarts(c, trace) && c.pingInterval <= 0)
      || (RoundReading(trace) && trace[|trace| - 1].time < LatestStamp(trace) + c.pingInterval)
      || (1 <= |trace| && trace[|trace| - 1].Now? && Ago(trace, 2, Ping(true)))
      || (1 <= |trace| && trace[|trace| - 1].Now? && Ago(trace, 2, Subscribe(true)) && ReadOwed(trace))
    case Handling => Ago(trace, 1, Read(true))
    case Closing(r) => AfterTrouble(trace, r, 1)
    case Waiting(r) => Ago(trace, 1, Close) && AfterTrouble(trace, r, 2)
    case Done => 1 <= |trace| && trace[|trace| - 1].Handle? && s.read >= c.messages
    case Failed(error) => EndedBy(error, trace) && Count(Handles, trace) < c.messages
  }

  /** The trace ends where a round starts. */
  predicate RoundStarts(c: Config, trace: seq<Event>) {
    || (Ago(trace, 1, Handle(false)) && Count(Handles, trace) < c.messages)
    || (1 <= |trace| && trace[|trace| - 1].Now? && Ago(trace, 2, Subscribe(true)) && !ReadOwed(trace))
  }

  /** The trace ends with the clock reading of a round. */
  predicate RoundReading(trace: seq<Event>) {
    2 <= |trace| && trace[|trace| - 1].Now? && !trace[|trace| - 2].Ping? && !trace[|trace| - 2].Subscribe?
  }

  /** The last event is the failure that an error names. */
  predicate EndedBy(error: RunError, trace: seq<Event>) {
    match error
    case WaitFailed => Ago(trace, 1, Sleep(false))
    case ConnectFailed => Ago(trace, 1, Connect(false))
    case SubscribeFailed => Ago(trace, 1, Subscribe(false))
    case PingExhausted => Ago(trace, 1, Ping(false))
    case ReadExhausted => Ago(trace, 1, Read(false))
    case ResyncExhausted => Ago(trace, 1, Handle(true))
    case _ => false
  }

  predicate HistoryLink(c: Config, s: State, trace: seq<Event>) {
    && PointLink(c, s, trace)
    && s.read == Count(Handles, trace)
    && s.used == Count(Closes, trace) + (if s.at.Closing? then 1 else 0)
    && (s.read < c.messages <==> !s.at.Done?)
    && s.used <= c.reconnectAttempts
    && (s.at.Failed? && Exhausted(s.at.error) ==> Count(Closes, trace) == c.reconnectAttempts)
    && s.lastPing == LatestStamp(trace)
  }

  // ---------------------------------------------------------------- one more event

  lemma CountsGrow(trace: seq<Event>, e: Event)
    ensures forall kind: Kind ::
      Count(kind, trace + [e]) == Count(kind, trace) + (if Is(kind, e) then 1 else 0)
  {
    assert (trace + [e])[..|trace|] == trace;
  }

  lemma StampGrows(trace: seq<Event>, e: Event)
    ensures LatestStamp(trace + [e])
         == if e.Now? && trace != [] && (trace[|trace| - 1].Ping? || trace[|trace| - 1].Subscribe?) then e.time
            else LatestStamp(trace)
  {
    assert (trace + [e])[..|trace|] == trace;
  }

  lemma PlacesShift(trace: seq<Event>, e: Event)
    ensures Ago(trace + [e], 1, e)
    ensures forall k, x | 1 <= k :: Ago(trace + [e], k + 1, x) <==> Ago(trace, k, x)
    ensures forall k, r | 1 <= k :: AfterTrouble(trace + [e], r, k + 1) <==> AfterTrouble(trace, r, k)
  {
  }

  /** The protocol has a step for exactly the lawful events. */
  lemma LawfulStep(c: Config, s: State, trace: seq<Event>, e: Event)
    requires ValidConfig(c) && HistoryLink(c, s, trace)
    ensures Next(c, s, e).Some? <==> Lawful(c, trace, e)
  {
    hide Count, LatestStamp;
  }

  lemma LinkStep(c: Config, s: State, trace: seq<Event>, e: Event)
    requires ValidConfig(c) && HistoryLink(c, s, trace) && Next(c, s, e).Some?
    ensures HistoryLink(c, Next(c, s, e).value, trace + [e])
  {
    CountsGrow(trace, e);
    StampGrows(trace, e);
    PlacesShift(trace, e);
    hide Count, LatestStamp;
    assert Is(Handles, e) == e.Handle? && Is(Closes, e) == e.Close?;
  }

  /** The protocol allows exactly the lawful traces, and its state says what the trace shows. */
  lemma {:induction false} LawfulIff(c: Config, trace: seq<Event>)
    requires ValidConfig(c)
    ensures Follow(c, trace).Some? <==> LawfulTrace(c, trace)
    ensures Follow(c, trace).Some? ==> HistoryLink(c, Follow(c, trace).value, trace)
  {
    if trace == [] {
    } else {
      var n := |trace| - 1;
      var before, e := trace[..n], trace[n];
      LawfulIff(c, before);
      hide Next, Lawful, HistoryLink;
      LawfulShorter(c, trace);
      assert before + [e] == trace;
      if Follow(c, before).Some? {
        var s := Follow(c, before).value;
        LawfulStep(c, s, before, e);
        if Next(c, s, e).Some? {
          LinkStep(c, s, before, e);
        }
      }
    }
  }

  lemma LawfulShorter(c: Config, trace: seq<Event>)
    requires trace != []
    ensures var n := |trace| - 1;
      LawfulTrace(c, trace) <==> LawfulTrace(c, trace[..n]) && Lawful(c, trace[..n], trace[n])
  {
    hide Lawful;
    var n := |trace| - 1;
    forall i | 0 <= i < n ensures trace[..n][..i] == trace[..i] && trace[..n][i] == trace[i] {
    }
  }

  // ---------------------------------------------------------------- whole runs

  /** Something can follow every state but an ended one. */
  lemma GoesOn(c: Config, s: State)
    ensures Ended(s) <==> forall e :: Next(c, s, e).None?
  {
    if !Ended(s) {
      var e :=
        match s.at
        case Dialing(_) => Connect(true)
        case Linked(_) => Subscribe(true)
        case Stamping(_) => Now(0)
        case Round => Now(0)
        case PingDue => Ping(true)
        case Reading => Read(true)
        case Handling => Handle(true)
        case Closing(_) => Close
        case _ => Sleep(true);
      assert Next(c, s, e).Some?;
    }
  }

  /** A whole run is a trace of outcomes of the environment in which every event is lawful and after which none
      is. */
  lemma WholeRunIff(c: Config, env: Env, trace: seq<Event>)
    requires ValidConfig(c)
    ensures WholeRun(c, env, trace)
       <==> Conforms(env, trace) && LawfulTrace(c, trace) && forall e :: !Lawful(c, trace, e)
  {
    hide Conforms, LawfulTrace, Lawful, Next, HistoryLink;
    LawfulIff(c, trace);
    if Follow(c, trace).Some? {
      var s := Follow(c, trace).value;
      GoesOn(c, s);
      forall e ensures Next(c, s, e).Some? <==> Lawful(c, trace, e) {
        LawfulStep(c, s, trace, e);
      }
    }
  }

  /** A whole run is done exactly when all messages were handled. Otherwise its error names the event it ended
      with, and an error of the budget was met with every reconnect spent. */
  lemma RunEndsBy(c: Config, env: Env, trace: seq<Event>)
    requires ValidConfig(c) && WholeRun(c, env, trace)
    ensures var at := Follow(c, trace).value.at;
      && (at.Done? <==> Count(Handles, trace) == c.messages)
      && (at.Failed? ==> EndedBy(at.error, trace))
      && (at.Failed? && (Ago(trace, 1, Ping(false)) || Ago(trace, 1, Read(false)) || Ago(trace, 1, Handle(true))) ==>
            Count(Closes, trace) == c.reconnectAttempts)
  {
    LawfulIff(c, trace);
    UsedWithinBudget(c, trace);
    hide Count, Next, Conforms;
  }

  /** Where pings are wanted, each read follows a clock reading. After the clock reading of a round the next
      event is a ping if the latest stamp is a ping interval old, and the read if it is not. The stamp is the
      clock reading after the latest ping or subscribe. */
  lemma DuePingsAreSent(c: Config, trace: seq<Event>, i: int)
    requires ValidConfig(c) && Follow(c, trace).Some? && c.pingInterval > 0 && 0 < i < |trace|
    ensures trace[i].Read? ==> trace[i - 1].Now?
    ensures trace[i - 1].Now? && !StampAt(trace, i - 1) ==>
      if trace[i - 1].time >= LatestStamp(trace[..i]) + c.pingInterval then trace[i].Ping? else trace[i].Read?
    ensures trace[i - 1].Now? && StampAt(trace, i - 1) ==> LatestStamp(trace[..i]) == trace[i - 1].time
  {
    LawfulIff(c, trace);
    assert Lawful(c, trace[..i], trace[i]);
    assert Lawful(c, trace[..i - 1], trace[i - 1]);
    assert trace[..i][i - 1] == trace[i - 1];
    if i >= 2 {
      assert trace[..i][i - 2] == trace[i - 2] && trace[..i - 1][i - 2] == trace[i - 2];
    }
    hide Next, Count, HistoryLink;
  }
}
