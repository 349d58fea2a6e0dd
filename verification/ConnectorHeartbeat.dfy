/** Whose heartbeat it is: the timer is started for a socket that opened, but its timeout tears down the current one. */
module ConnectorHeartbeat {
  import opened Outcomes
  import opened ConnectorModel
  import opened ConnectorRuns
  import opened ConnectorProgress

  /** The socket that opened last, for which a running heartbeat was started. */
  function LastConnected(notes: seq<Note>): Option<nat> {
    if notes == [] then None
    else if notes[|notes| - 1].Connected? then Some(notes[|notes| - 1].socket)
    else LastConnected(notes[..|notes| - 1])
  }

  /** A running heartbeat was started for the current socket. */
  ghost predicate HeartbeatOwned(c: Client) {
    c.heartbeat ==> c.socket.Some? && LastConnected(c.notes) == c.socket
  }

  /** A new socket is installed while a heartbeat is running. */
  ghost predicate Inherits(c: Client, event: Event) {
    c.heartbeat && c.connecting > 0 && c.started && event == ConnectContinues(Created)
  }

  lemma LastConnectedAppend(notes: seq<Note>, note: Note)
    ensures LastConnected(notes + [note]) == if note.Connected? then Some(note.socket) else LastConnected(notes)
  {
    assert (notes + [note])[..|notes|] == notes;
  }

  lemma TearDownStopsHeartbeat(c: Client, s: nat, hookThrows: bool)
    requires HeartbeatOwned(c)
    ensures HeartbeatOwned(TearDown(c, s, hookThrows))
  {
    if c.socket == Some(s) {
      assert !TearDown(c, s, hookThrows).heartbeat;
    }
  }

  lemma ScheduleKeepsOwner(c: Client, immediate: bool)
    requires HeartbeatOwned(c)
    ensures HeartbeatOwned(Schedule(c, immediate))
  {
    LastConnectedAppend(c.notes, Scheduled(if immediate then Now else Backoff(c.attempt)));
  }

  lemma ReportKeepsOwner(c: Client, s: nat, immediate: bool, hookThrows: bool)
    requires HeartbeatOwned(c)
    ensures HeartbeatOwned(Report(c, s, immediate, hookThrows))
  {
    LastConnectedAppend(c.notes, Disconnected(s));
    ScheduleKeepsOwner(Noted(c, Disconnected(s)), immediate);
  }

  lemma FinishAuthHookKeepsOwner(c: Client, s: nat, hookThrows: bool)
    requires HeartbeatOwned(c)
    ensures HeartbeatOwned(FinishAuthHook(c, s, hookThrows))
  {
    if s in c.awaiting {
      ReportKeepsOwner(c.(awaiting := c.awaiting - {s}), s, c.awaiting[s], hookThrows);
    }
  }

  lemma RejectUpgradeKeepsOwner(c: Client, s: nat, status: Option<int>, hookThrows: bool)
    requires HeartbeatOwned(c)
    ensures HeartbeatOwned(RejectUpgrade(c, s, status, hookThrows))
  {
    TearDownStopsHeartbeat(c, s, hookThrows);
  }

  lemma OpenStartsOwnHeartbeat(config: Config, c: Client, s: nat, hookThrows: bool)
    requires HeartbeatOwned(c)
    ensures HeartbeatOwned(Open(config, c, s, hookThrows))
  {
    LastConnectedAppend(c.notes, Connected(s));
  }

  lemma InstallTakesOver(config: Config, c: Client)
    requires HeartbeatOwned(c) && c.connecting > 0 && c.started
    requires c.socket.Some? ==> c.socket.value < c.created
    ensures HeartbeatOwned(ContinueConnect(config, c, Created)) <==> !c.heartbeat
  {
    if c.socket.Some? {
      LastConnectedAppend(c.notes, Replaced(c.socket.value));
    }
  }

  lemma ContinueKeepsOwner(config: Config, c: Client, result: ConnectResult)
    requires HeartbeatOwned(c) && (c.socket.Some? ==> c.socket.value < c.created)
    ensures HeartbeatOwned(ContinueConnect(config, c, result)) <==> !Inherits(c, ConnectContinues(result))
  {
    if c.connecting > 0 {
      if result.Created? && c.started {
        InstallTakesOver(config, c);
      } else {
        ScheduleKeepsOwner(c.(connecting := c.connecting - 1), false);
      }
    }
  }

  /** A step leaves a heartbeat to a socket it was not started for exactly when a new socket replaces its owner. */
  lemma {:induction false} OwnedUnlessInherited(config: Config, c: Client, event: Event)
    requires HeartbeatOwned(c) && (c.socket.Some? ==> c.socket.value < c.created)
    ensures HeartbeatOwned(Step(config, c, event)) <==> !Inherits(c, event)
  {
    match event
    case Connects =>
    case Disconnects =>
    case ReconnectFires =>
    case ConnectContinues(result) => ContinueKeepsOwner(config, c, result);
    case Opens(s, hookThrows) => OpenStartsOwnHeartbeat(config, c, s, hookThrows);
    case Closes(s, hookThrows) => TearDownStopsHeartbeat(c, s, hookThrows);
    case Errs(s, _, hookThrows) => TearDownStopsHeartbeat(c, s, hookThrows);
    case UpgradeRejected(s, status, hookThrows) => RejectUpgradeKeepsOwner(c, s, status, hookThrows);
    case AuthHookDone(s, hookThrows) => FinishAuthHookKeepsOwner(c, s, hookThrows);
    case ConnectTimesOut(hookThrows) =>
      if c.connectTimer.Some? {
        TearDownStopsHeartbeat(c, c.connectTimer.value, hookThrows);
      }
    case HeartbeatTimesOut(hookThrows) =>
      if c.socket.Some? {
        TearDownStopsHeartbeat(c, c.socket.value, hookThrows);
      }
  }

  lemma {:induction false} SocketIsCreated(config: Config, events: seq<Event>)
    ensures var c := Run(config, events); c.socket.Some? ==> c.socket.value < c.created
  {
    FatesAlwaysKept(config, events);
    var c := Run(config, events);
    if c.socket.Some? {
      assert Alive(c, None, c.socket.value);
    }
  }

  ghost predicate NeverInherits(config: Config, events: seq<Event>) {
    forall k: nat :: k < |events| ==> !Inherits(Run(config, events[..k]), events[k])
  }

  lemma {:induction false} OwnedPrefix(config: Config, events: seq<Event>, n: nat)
    requires NeverInherits(config, events) && n <= |events|
    ensures HeartbeatOwned(Run(config, events[..n]))
  {
    if n > 0 {
      OwnedPrefix(config, events, n - 1);
      RunTo(config, events, n - 1);
      SocketIsCreated(config, events[..n - 1]);
      OwnedUnlessInherited(config, Run(config, events[..n - 1]), events[n - 1]);
    }
  }

  /** Throughout a run the heartbeat is the current socket's own exactly when no socket is installed while one is running. */
  lemma {:induction false} OwnedThroughoutExactlyWhenNeverInherited(config: Config, events: seq<Event>)
    ensures (forall n: nat :: n <= |events| ==> HeartbeatOwned(Run(config, events[..n]))) <==> NeverInherits(config, events)
  {
    if NeverInherits(config, events) {
      forall n: nat | n <= |events| ensures HeartbeatOwned(Run(config, events[..n])) {
        OwnedPrefix(config, events, n);
      }
    } else {
      var k: nat :| k < |events| && Inherits(Run(config, events[..k]), events[k]);
      RunTo(config, events, k);
      SocketIsCreated(config, events[..k]);
      if HeartbeatOwned(Run(config, events[..k])) {
        OwnedUnlessInherited(config, Run(config, events[..k]), events[k]);
        assert !HeartbeatOwned(Run(config, events[..k + 1]));
      }
    }
  }

  lemma {:induction false} OneThingInheritsNothing(config: Config, c: Client, event: Event)
    requires OneThing(c) && TimersKept(config, c)
    ensures !Inherits(c, event)
  {
  }

  /** So it is in every run whose disconnects are quiet. */
  lemma {:induction false} QuietHeartbeatsAreOwned(config: Config, events: seq<Event>)
    requires QuietRun(config, events)
    ensures NeverInherits(config, events) && HeartbeatOwned(Run(config, events))
  {
    forall k: nat | k < |events| ensures !Inherits(Run(config, events[..k]), events[k]) {
      QuietPrefix(config, events, k);
      TimersAlwaysKept(config, events[..k]);
      OneThingInheritsNothing(config, Run(config, events[..k]), events[k]);
    }
    OwnedPrefix(config, events, |events|);
    assert events[..|events|] == events;
  }

  lemma {:induction false} FirstSocketBeats(config: Config, c: Client)
    requires config == Config(1000, 1000)
    requires c == Step(config, Step(config, Step(config, IDLE, Connects), Disconnects), Connects)
    ensures var d := Step(config, Step(config, c, ConnectContinues(Created)), Opens(0, false));
            d == Client(true, Some(0), None, true, false, None, 0, 1, 1, map[], [Connected(0)])
  {
  }

  lemma {:induction false} SecondSocketPays(config: Config, c: Client)
    requires config == Config(1000, 1000)
    requires c == Client(true, Some(0), None, true, false, None, 0, 1, 1, map[], [Connected(0)])
    ensures var d := Step(config, Step(config, c, ConnectContinues(Created)), HeartbeatTimesOut(false));
            d.notes == [Connected(0), Replaced(0), Disconnected(1), Scheduled(Backoff(0))]
  {
  }

  /** Two connects overlap: the heartbeat of the first socket times out and tears down the second, which never opened. */
  lemma {:induction false} HeartbeatTearsDownAnotherSocket(config: Config)
    requires config == Config(1000, 1000)
    ensures Run(config, [] + [Connects] + [Disconnects] + [Connects] + [ConnectContinues(Created)] + [Opens(0, false)]
                        + [ConnectContinues(Created)] + [HeartbeatTimesOut(false)]).notes
            == [Connected(0), Replaced(0), Disconnected(1), Scheduled(Backoff(0))]
  {
    var twice: seq<Event> := [] + [Connects] + [Disconnects] + [Connects];
    RunThree(config, [], Connects, Disconnects, Connects);
    FirstSocketBeats(config, Run(config, twice));
    RunThree(config, twice, ConnectContinues(Created), Opens(0, false), ConnectContinues(Created));
    RunAppend(config, twice + [ConnectContinues(Created)] + [Opens(0, false)] + [ConnectContinues(Created)],
              HeartbeatTimesOut(false));
    SecondSocketPays(config, Step(config, Step(config, Run(config, twice), ConnectContinues(Created)), Opens(0, false)));
  }
}
