/** The market-data collector: one websocket session at a time, and one reconnect budget shared by failed
    pings, failed reads and payloads that ask for a resync. */
module Collector {
  import opened Wrappers

  // ---------------------------------------------------------------- events and environment

  /** Everything a run does to the outside, with the outcome it met. */
  datatype Event =
    | Connect(ok: bool) | Subscribe(ok: bool) | Ping(ok: bool) | Read(ok: bool)
    | Handle(resync: bool) | Close | Sleep(ok: bool) | Now(time: int)

  /** An environment decides the outcome of every event by the event's number. */
  datatype Env = Env(succeeds: nat -> bool, resyncs: nat -> bool, clock: nat -> int)

  predicate Outcome(env: Env, n: nat, e: Event) {
    match e
    case Connect(ok) => ok == env.succeeds(n)
    case Subscribe(ok) => ok == env.succeeds(n)
    case Ping(ok) => ok == env.succeeds(n)
    case Read(ok) => ok == env.succeeds(n)
    case Sleep(ok) => ok == env.succeeds(n)
    case Handle(resync) => resync == env.resyncs(n)
    case Now(time) => time == env.clock(n)
    case Close => true
  }

  ghost predicate Conforms(env: Env, trace: seq<Event>) {
    forall i | 0 <= i < |trace| :: Outcome(env, i, trace[i])
  }

  // ---------------------------------------------------------------- the protocol

  datatype Config = Config(
    messages: int, readTimeout: int, pingInterval: int, reconnectAttempts: int, reconnectBackoff: int, reqID: string)

  predicate ValidConfig(c: Config) {
    && 0 < c.messages && c.reqID != "" && 0 < c.readTimeout && 0 <= c.pingInterval
    && 0 <= c.reconnectAttempts && 0 < c.reconnectBackoff
  }

  datatype RunError =
    | NoClient | BadConfig
    | WaitFailed | ConnectFailed | SubscribeFailed
    | PingExhausted | ReadExhausted | ResyncExhausted

  /** Where a run stands between two events. A session that is being set up remembers whether the run goes on
      with the read it was about to make or with the next round of the loop. */
  datatype Point =
    | Dialing(toRead: bool) | Linked(toRead: bool) | Stamping(toRead: bool)
    | Round | PingDue | Reading | Handling
    | Closing(toRead: bool) | Waiting(toRead: bool)
    | Done | Failed(error: RunError)

  datatype State = State(at: Point, read: int, used: int, lastPing: int)

  const START := State(Dialing(false), 0, 0, 0)

  /** The next round of the loop, which first looks at the clock if pings are wanted. */
  function NextRound(c: Config, s: State): State {
    s.(at := if s.read >= c.messages then Done else if c.pingInterval > 0 then Round else Reading)
  }

  function Resume(c: Config, s: State, toRead: bool): State {
    if toRead then s.(at := Reading) else NextRound(c, s)
  }

  /** A failure spends one reconnect, or ends the run when none is left. */
  function Spend(c: Config, s: State, toRead: bool, error: RunError): State {
    if s.used >= c.reconnectAttempts then s.(at := Failed(error)) else s.(at := Closing(toRead), used := s.used + 1)
  }

  function Next(c: Config, s: State, e: Event): Option<State> {
    match (s.at, e)
    case (Dialing(toRead), Connect(ok)) => Some(s.(at := if ok then Linked(toRead) else Failed(ConnectFailed)))
    case (Linked(toRead), Subscribe(ok)) => Some(s.(at := if ok then Stamping(toRead) else Failed(SubscribeFailed)))
    case (Stamping(toRead), Now(t)) => Some(Resume(c, s.(lastPing := t), toRead))
    case (Round, Now(t)) => Some(s.(at := if t < s.lastPing + c.pingInterval then Reading else PingDue))
    case (PingDue, Ping(ok)) => Some(if ok then s.(at := Stamping(true)) else Spend(c, s, true, PingExhausted))
    case (Reading, Read(ok)) => Some(if ok then s.(at := Handling) else Spend(c, s, false, ReadExhausted))
    case (Handling, Handle(resync)) =>
      var t := s.(read := s.read + 1);
      Some(if resync && t.read < c.messages then Spend(c, t, false, ResyncExhausted) else NextRound(c, t))
    case (Closing(toRead), Close) => Some(s.(at := Waiting(toRead)))
    case (Waiting(toRead), Sleep(ok)) => Some(s.(at := if ok then Dialing(toRead) else Failed(WaitFailed)))
    case _ => None
  }

  /** The state after a trace, if the protocol allows it. */
  function Follow(c: Config, trace: seq<Event>): Option<State> {
    if trace == [] then Some(START)
    else
      match Follow(c, trace[..|trace| - 1])
      case None => None
      case Some(s) => Next(c, s, trace[|trace| - 1])
  }

  predicate Ended(s: State) {
    s.at.Done? || s.at.Failed?
  }

  /** The trace is a whole run in the environment. */
  ghost predicate WholeRun(c: Config, env: Env, trace: seq<Event>) {
    Conforms(env, trace) && Follow(c, trace).Some? && Ended(Follow(c, trace).value)
  }

  // ---------------------------------------------------------------- counting

  datatype Kind = Connects | Reads | Pings | Handles | Closes

  predicate Is(kind: Kind, e: Event) {
    match kind
    case Connects => e.Connect?
    case Reads => e.Read?
    case Pings => e.Ping?
    case Handles => e.Handle?
    case Closes => e.Close?
  }

  function Count(kind: Kind, trace: seq<Event>): nat {
    if trace == [] then 0
    else Count(kind, trace[..|trace| - 1]) + if Is(kind, trace[|trace| - 1]) then 1 else 0
  }

  /** One more event: the protocol takes a step, and the counts of events do. */
  lemma FollowStep(c: Config, env: Env, trace: seq<Event>, e: Event)
    requires Conforms(env, trace) && Follow(c, trace).Some? && Outcome(env, |trace|, e)
    ensures Conforms(env, trace + [e])
    ensures Follow(c, trace + [e]) == Next(c, Follow(c, trace).value, e)
    ensures forall kind: Kind ::
      Count(kind, trace + [e]) == Count(kind, trace) + (if Is(kind, e) then 1 else 0)
  {
    hide Next, Outcome;
    assert (trace + [e])[..|trace|] == trace;
    assert forall i | 0 <= i < |trace| :: (trace + [e])[i] == trace[i];
  }

  // ---------------------------------------------------------------- client and runner

  /** The websocket client, with the clock, the sleeper and the payload handler of the run. */
  class Client {
    const env: Env
    var trace: seq<Event>

    constructor (env: Env)
      ensures this.env == env && trace == []
    {
      this.env := env;
      trace := [];
    }

    method Dial() returns (ok: bool)
      modifies this
      ensures trace == old(trace) + [Connect(ok)] && Outcome(env, |old(trace)|, Connect(ok))
    {
      ok := env.succeeds(|trace|);
      trace := trace + [Connect(ok)];
    }

    method SubscribeTopics() returns (ok: bool)
      modifies this
      ensures trace == old(trace) + [Subscribe(ok)] && Outcome(env, |old(trace)|, Subscribe(ok))
    {
      ok := env.succeeds(|trace|);
      trace := trace + [Subscribe(ok)];
    }

    method SendPing() returns (ok: bool)
      modifies this
      ensures trace == old(trace) + [Ping(ok)] && Outcome(env, |old(trace)|, Ping(ok))
    {
      ok := env.succeeds(|trace|);
      trace := trace + [Ping(ok)];
    }

    method ReadPayload() returns (ok: bool)
      modifies this
      ensures trace == old(trace) + [Read(ok)] && Outcome(env, |old(trace)|, Read(ok))
    {
      ok := env.succeeds(|trace|);
      trace := trace + [Read(ok)];
    }

    method HandlePayload() returns (resync: bool)
      modifies this
      ensures trace == old(trace) + [Handle(resync)] && Outcome(env, |old(trace)|, Handle(resync))
    {
      resync := env.resyncs(|trace|);
      trace := trace + [Handle(resync)];
    }

    method HangUp()
      modifies this
      ensures trace == old(trace) + [Close]
    {
      trace := trace + [Close];
    }

    method Wait() returns (ok: bool)
      modifies this
      ensures trace == old(trace) + [Sleep(ok)] && Outcome(env, |old(trace)|, Sleep(ok))
    {
      ok := env.succeeds(|trace|);
      trace := trace + [Sleep(ok)];
    }

    method Clock() returns (time: int)
      modifies this
      ensures trace == old(trace) + [Now(time)] && Outcome(env, |old(trace)|, Now(time))
    {
      time := env.clock(|trace|);
      trace := trace + [Now(time)];
    }
  }

  class CollectorRunner {
    const config: Config
    const client: Client?

    constructor (config: Config, client: Client?)
      ensures this.config == config && this.client == client
    {
      this.config := config;
      this.client := client;
    }

    /** The run so far is allowed, matches the environment and stands at s. */
    ghost predicate Stands(s: State)
      requires client != null
      reads client
    {
      Conforms(client.env, client.trace) && Follow(config, client.trace) == Some(s)
    }

    /** The reads of the run so far. */
    function ReadsMade(): nat
      requires client != null
      reads client
    {
      Count(Reads, client.trace)
    }

    method ConnectAndSubscribe(ghost s: State) returns (error: Option<RunError>)
      requires client != null && s.at.Dialing? && Stands(s)
      modifies client
      ensures error.None? ==> Stands(s.(at := Stamping(s.at.toRead)))
      ensures error.Some? ==> Stands(s.(at := Failed(error.value)))
      ensures ReadsMade() == old(ReadsMade())
    {
      hide Conforms, Follow, Outcome, Count;
      ghost var before := client.trace;
      var connected := client.Dial();
      FollowStep(config, client.env, before, Connect(connected));
      if !connected {
        return Some(ConnectFailed);
      }
      before := client.trace;
      var subscribed := client.SubscribeTopics();
      FollowStep(config, client.env, before, Subscribe(subscribed));
      if !subscribed {
        return Some(SubscribeFailed);
      }
      return None;
    }

    method Reconnect(ghost s: State) returns (error: Option<RunError>)
      requires client != null && s.at.Closing? && Stands(s)
      modifies client
      ensures error.None? ==> Stands(s.(at := Stamping(s.at.toRead)))
      ensures error.Some? ==> Stands(s.(at := Failed(error.value)))
      ensures ReadsMade() == old(ReadsMade())
    {
      hide Conforms, Follow, Count;
      ghost var before := client.trace;
      client.HangUp();
      FollowStep(config, client.env, before, Close);
      hide Outcome;
      before := client.trace;
      var waited := client.Wait();
      FollowStep(config, client.env, before, Sleep(waited));
      if !waited {
        return Some(WaitFailed);
      }
      error := ConnectAndSubscribe(s.(at := Dialing(s.at.toRead)));
    }

    /** Reads the clock for the time of the latest ping. */
    method Stamp(ghost s: State) returns (lastPing: int)
      requires client != null && s.at.Stamping? && Stands(s)
      modifies client
      ensures Stands(Resume(config, s.(lastPing := lastPing), s.at.toRead))
      ensures ReadsMade() == old(ReadsMade())
    {
      hide Conforms, Follow, Outcome, Count;
      ghost var before := client.trace;
      lastPing := client.Clock();
      FollowStep(config, client.env, before, Now(lastPing));
    }

    /** The ping at the top of a round: nothing is due, or it is sent, and its failure costs a reconnect. */
    method PingIfDue(lastPing: int, used: int, ghost s: State)
      returns (lastPing': int, used': int, error: Option<RunError>)
      requires client != null && ValidConfig(config) && Stands(s) && s.read < config.messages
      requires s.at == (if config.pingInterval > 0 then Round else Reading)
      requires s.lastPing == lastPing && s.used == used
      modifies client
      ensures error.None? ==> used <= used' && Stands(State(Reading, s.read, used', lastPing'))
      ensures error.Some? ==> used <= used' && Stands(State(Failed(error.value), s.read, used', lastPing))
      ensures ReadsMade() == old(ReadsMade())
    {
      hide Conforms, Follow, Outcome, Count;
      lastPing', used', error := lastPing, used, None;
      if config.pingInterval > 0 {
        ghost var before := client.trace;
        var now := client.Clock();
        FollowStep(config, client.env, before, Now(now));
        if now >= lastPing + config.pingInterval {
          before := client.trace;
          var ok := client.SendPing();
          FollowStep(config, client.env, before, Ping(ok));
          ghost var pinged := s.(at := Stamping(true));
          if !ok {
            if used >= config.reconnectAttempts {
              error := Some(PingExhausted);
              return;
            }
            used' := used + 1;
            error := Reconnect(s.(at := Closing(true), used := used'));
            if error.Some? {
              return;
            }
            pinged := pinged.(used := used');
          }
          lastPing' := Stamp(pinged);
        }
      }
    }

    /** One read: a payload is handled and may ask for a resync, a failure costs a reconnect. */
    method ReadAndHandle(read: int, lastPing: int, used: int, ghost s: State)
      returns (read': int, lastPing': int, used': int, error: Option<RunError>)
      requires client != null && ValidConfig(config) && Stands(s) && s == State(Reading, read, used, lastPing)
      requires read < config.messages && used <= config.reconnectAttempts
      modifies client
      ensures read <= read' && used <= used' <= config.reconnectAttempts
      ensures error.None? ==> read + used < read' + used' && read' <= config.messages
      ensures error.None? ==> Stands(NextRound(config, State(Round, read', used', lastPing')))
      ensures error.Some? ==> read' < config.messages && Stands(State(Failed(error.value), read', used', lastPing))
      ensures ReadsMade() == old(ReadsMade()) + 1
    {
      hide Conforms, Follow, Outcome, Count;
      read', lastPing', used', error := read, lastPing, used, None;
      ghost var before := client.trace;
      var ok := client.ReadPayload();
      FollowStep(config, client.env, before, Read(ok));
      var failure := ReadExhausted;
      if ok {
        before := client.trace;
        var resync := client.HandlePayload();
        FollowStep(config, client.env, before, Handle(resync));
        read' := read + 1;
        if !(resync && read' < config.messages) {
          return;
        }
        failure := ResyncExhausted;
      }
      if used >= config.reconnectAttempts {
        error := Some(failure);
        return;
      }
      used' := used + 1;
      error := Reconnect(State(Closing(false), read', used', lastPing));
      if error.Some? {
        return;
      }
      lastPing' := Stamp(State(Stamping(false), read', used', lastPing));
    }

    /** Runs until all messages are handled or a failure finds no reconnect left. The trace left behind is a
        whole run of the protocol in the environment. There is one round of the loop for each read, but for a
        last round that may end with a failed ping, and no more rounds than messages and reconnects. */
    method Run() returns (count: int, error: Option<RunError>, ghost rounds: nat)
      requires client != null ==> client.trace == []
      modifies client
      ensures client == null ==> count == 0 && error == Some(NoClient)
      ensures client != null && !ValidConfig(config) ==> count == 0 && error == Some(BadConfig) && client.trace == []
      ensures client != null ==>
        (error == Some(BadConfig) <==>
          || config.messages <= 0 || config.reqID == "" || config.readTimeout <= 0 || config.pingInterval < 0
          || config.reconnectAttempts < 0 || config.reconnectBackoff <= 0)
      ensures client != null && ValidConfig(config) ==>
        && WholeRun(config, client.env, client.trace)
        && Follow(config, client.trace).value.read == count
        && Follow(config, client.trace).value.at == if error.None? then Done else Failed(error.value)
      ensures client != null && ValidConfig(config) ==> (error.None? <==> count == config.messages)
      ensures client != null && ValidConfig(config) ==>
        && rounds <= config.messages + config.reconnectAttempts
        && ReadsMade() <= rounds <= ReadsMade() + 1 && (error.None? ==> rounds == ReadsMade())
    {
      rounds := 0;
      if client == null {
        return 0, Some(NoClient), rounds;
      }
      if !ValidConfig(config) {
        return 0, Some(BadConfig), rounds;
      }
      assert Stands(START) && ReadsMade() == 0;
      hide Conforms, Follow, Outcome, Count;
      error := ConnectAndSubscribe(START);
      if error.Some? {
        return 0, error, rounds;
      }
      var messagesRead, reconnectsUsed := 0, 0;
      var lastPing := Stamp(State(Stamping(false), 0, 0, 0));
      while messagesRead < config.messages
        invariant 0 <= messagesRead <= config.messages && 0 <= reconnectsUsed <= config.reconnectAttempts
        invariant Stands(NextRound(config, State(Round, messagesRead, reconnectsUsed, lastPing)))
        invariant rounds == ReadsMade() <= messagesRead + reconnectsUsed
        decreases (config.messages - messagesRead) + (config.reconnectAttempts - reconnectsUsed)
      {
        ghost var s := NextRound(config, State(Round, messagesRead, reconnectsUsed, lastPing));
        rounds := rounds + 1;
        lastPing, reconnectsUsed, error := PingIfDue(lastPing, reconnectsUsed, s);
        if error.Some? {
          return messagesRead, error, rounds;
        }
        s := State(Reading, messagesRead, reconnectsUsed, lastPing);
        assert reconnectsUsed <= config.reconnectAttempts by {
          UsedWithinBudget(config, client.trace);
        }
        messagesRead, lastPing, reconnectsUsed, error := ReadAndHandle(messagesRead, lastPing, reconnectsUsed, s);
        if error.Some? {
          return messagesRead, error, rounds;
        }
      }
      return messagesRead, None, rounds;
    }
  }

  /** The budget and the number of messages are never exceeded. */
  lemma {:induction false} UsedWithinBudget(c: Config, trace: seq<Event>)
    requires ValidConfig(c) && Follow(c, trace).Some?
    ensures var s := Follow(c, trace).value;
      && 0 <= s.used <= c.reconnectAttempts && 0 <= s.read <= c.messages
      && (s.read == c.messages <==> s.at.Done?)
  {
    if trace == [] {
    } else {
      UsedWithinBudget(c, trace[..|trace| - 1]);
    }
  }
}
