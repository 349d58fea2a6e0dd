/** Whether a started connector client always has something under way, and only one thing. */
module ConnectorProgress {
  import opened Outcomes
  import opened ConnectorModel

  /** What a client has under way: a socket, suspended connects, a planned reconnection, awaited auth hooks. */
  ghost function Activity(c: Client): nat {
    (if c.socket.Some? then 1 else 0) + c.connecting + (if c.reconnect.Some? then 1 else 0) + |c.awaiting|
  }

  // ---------------------------------------------------------------- never stuck

  ghost predicate Stuck(c: Client) {
    c.started && Activity(c) == 0
  }

  /** The socket whose end the event reports, if it reports one. Ready state 0 is connecting, 1 is open. */
  function ReportedBy(c: Client, event: Event): Option<nat> {
    match event
    case Closes(s, _) => if c.socket == Some(s) then Some(s) else None
    case Errs(s, readyState, _) =>
      if c.socket == Some(s) && readyState != 1 && readyState != 0 then Some(s) else None
    case UpgradeRejected(s, status, _) => if c.socket == Some(s) && status != Some(401) then Some(s) else None
    case AuthHookDone(s, _) => if s in c.awaiting then Some(s) else None
    case ConnectTimesOut(_) => if c.socket.Some? && c.connectTimer == c.socket then c.socket else None
    case HeartbeatTimesOut(_) => if c.heartbeat then c.socket else None
    case _ => None
  }

  predicate DisconnectHookThrows(event: Event) {
    !event.Connects? && !event.Disconnects? && !event.ReconnectFires? && !event.ConnectContinues? && !event.Opens?
    && event.hookThrows
  }

  lemma TearDownStrands(c: Client, s: nat, hookThrows: bool)
    requires !Stuck(c) && c.socket == Some(s)
    ensures Stuck(TearDown(c, s, hookThrows)) <==> c.started && Activity(c) == 1 && hookThrows
  {
  }

  lemma RejectUpgradeStrands(c: Client, s: nat, status: Option<int>, hookThrows: bool)
    requires !Stuck(c) && c.socket == Some(s)
    ensures Stuck(RejectUpgrade(c, s, status, hookThrows))
            <==> c.started && Activity(c) == 1 && status != Some(UNAUTHORIZED) && hookThrows
  {
  }

  lemma FinishAuthHookStrands(c: Client, s: nat, hookThrows: bool)
    requires !Stuck(c) && s in c.awaiting
    ensures Stuck(FinishAuthHook(c, s, hookThrows)) <==> c.started && Activity(c) == 1 && hookThrows
  {
  }

  lemma ErrorStrands(c: Client, s: nat, readyState: int, hookThrows: bool)
    requires !Stuck(c)
    ensures Stuck(Error(c, s, readyState, hookThrows))
            <==> c.started && Activity(c) == 1 && c.socket == Some(s) && readyState != OPEN && readyState != CONNECTING
                 && hookThrows
  {
    if c.socket == Some(s) {
      TearDownStrands(c, s, hookThrows);
    }
  }

  lemma BeginningsAreNotStuck(config: Config, c: Client, event: Event)
    requires !Stuck(c) && (event.Connects? || event.Disconnects? || event.ReconnectFires? || event.Opens?)
    ensures !Stuck(Step(config, c, event))
  {
  }

  lemma {:induction false} UpgradeOrHookStrands(config: Config, c: Client, event: Event)
    requires !Stuck(c) && (event.UpgradeRejected? || event.AuthHookDone?)
    ensures Stuck(Step(config, c, event))
            <==> c.started && Activity(c) == 1 && ReportedBy(c, event).Some? && DisconnectHookThrows(event)
  {
    match event
    case AuthHookDone(s, hookThrows) =>
      if s in c.awaiting {
        FinishAuthHookStrands(c, s, hookThrows);
      }
    case UpgradeRejected(s, status, hookThrows) =>
      if c.socket == Some(s) {
        RejectUpgradeStrands(c, s, status, hookThrows);
      }
  }

  /**
   * A started client with something under way is left with nothing exactly when the event reports the end of the one
   * thing it had and the owner's hook throws.
   */
  lemma {:induction false} StuckExactlyAfterThrow(config: Config, c: Client, event: Event)
    requires !Stuck(c)
    ensures Stuck(Step(config, c, event))
            <==> c.started && Activity(c) == 1 && ReportedBy(c, event).Some? && DisconnectHookThrows(event)
  {
    match event
    case ConnectContinues(result) => ContinueIsNotStuck(config, c, result);
    case Closes(s, hookThrows) => ErrorStrands(c, s, -1, hookThrows);
    case Errs(s, readyState, hookThrows) => ErrorStrands(c, s, readyState, hookThrows);
    case ConnectTimesOut(hookThrows) => TimersStrand(c, hookThrows);
    case HeartbeatTimesOut(hookThrows) => TimersStrand(c, hookThrows);
    case UpgradeRejected(_, _, _) => UpgradeOrHookStrands(config, c, event);
    case AuthHookDone(_, _) => UpgradeOrHookStrands(config, c, event);
    case _ => BeginningsAreNotStuck(config, c, event);
  }

  lemma TimersStrand(c: Client, hookThrows: bool)
    requires !Stuck(c)
    ensures Stuck(TimeOutConnect(c, hookThrows))
            <==> c.started && Activity(c) == 1 && c.socket.Some? && c.connectTimer == c.socket && hookThrows
    ensures Stuck(TimeOutHeartbeat(c, hookThrows))
            <==> c.started && Activity(c) == 1 && c.socket.Some? && c.heartbeat && hookThrows
  {
  }

  lemma ContinueIsNotStuck(config: Config, c: Client, result: ConnectResult)
    requires !Stuck(c)
    ensures !Stuck(ContinueConnect(config, c, result))
  {
  }

  /** While the owner's hooks do not throw, a started client always has something under way. */
  lemma {:induction false} NeverStuck(config: Config, events: seq<Event>)
    requires forall k :: 0 <= k < |events| ==> !DisconnectHookThrows(events[k])
    ensures Run(config, events).started ==> Activity(Run(config, events)) >= 1
  {
    if events != [] {
      NeverStuck(config, events[..|events| - 1]);
      StuckExactlyAfterThrow(config, Run(config, events[..|events| - 1]), events[|events| - 1]);
    }
  }

  /** A stuck client ignores every event until it is disconnected. */
  lemma StuckStaysStuck(config: Config, c: Client, event: Event)
    requires Stuck(c) && c.connectTimer.None? && !event.Disconnects?
    ensures Step(config, c, event) == c
  {
  }

  lemma RunAppend(config: Config, events: seq<Event>, event: Event)
    ensures Run(config, events + [event]) == Step(config, Run(config, events), event)
  {
  }

  /** A client can get stuck: its socket closes and the owner's hook throws. */
  lemma ThrowingHookStrandsClient(config: Config)
    requires config == Config(1000, 1000)
    ensures Stuck(Run(config, [Connects] + [ConnectContinues(Created)] + [Closes(0, true)]))
  {
    RunAppend(config, [], Connects);
    assert [] + [Connects] == [Connects];
    RunAppend(config, [Connects], ConnectContinues(Created));
    RunAppend(config, [Connects] + [ConnectContinues(Created)], Closes(0, true));
  }

  // ---------------------------------------------------------------- one thing at a time

  /** Disconnecting is quiet when no connect is suspended and no auth hook is awaited. */
  ghost predicate Quiet(c: Client, event: Event) {
    event.Disconnects? ==> c.connecting == 0 && c.awaiting == map[]
  }

  ghost predicate QuietRun(config: Config, events: seq<Event>) {
    forall k: nat :: k < |events| ==> Quiet(Run(config, events[..k]), events[k])
  }

  ghost predicate NeverReplaced(notes: seq<Note>) {
    forall i :: 0 <= i < |notes| ==> !notes[i].Replaced?
  }

  ghost predicate OneThing(c: Client) {
    Activity(c) <= 1 && (!c.started ==> Activity(c) == 0) && NeverReplaced(c.notes)
  }

  lemma TearDownKeepsOne(c: Client, s: nat, hookThrows: bool)
    requires OneThing(c)
    ensures OneThing(TearDown(c, s, hookThrows))
  {
  }

  lemma RejectUpgradeKeepsOne(c: Client, s: nat, status: Option<int>, hookThrows: bool)
    requires OneThing(c)
    ensures OneThing(RejectUpgrade(c, s, status, hookThrows))
  {
  }

  lemma FinishAuthHookKeepsOne(c: Client, s: nat, hookThrows: bool)
    requires OneThing(c)
    ensures OneThing(FinishAuthHook(c, s, hookThrows))
  {
  }

  lemma DisconnectKeepsOne(c: Client)
    requires OneThing(c)
    ensures OneThing(Disconnect(c)) <==> c.connecting == 0 && c.awaiting == map[]
  {
    assert |c.awaiting| == 0 <==> c.awaiting == map[];
  }

  /** A step keeps "at most one thing under way, none while stopped" exactly when it is quiet. */
  lemma {:induction false} OneThingExactlyWhileQuiet(config: Config, c: Client, event: Event)
    requires OneThing(c)
    ensures OneThing(Step(config, c, event)) <==> Quiet(c, event)
  {
    match event
    case Connects =>
    case Disconnects => DisconnectKeepsOne(c);
    case ReconnectFires =>
    case ConnectContinues(_) =>
    case Opens(_, _) =>
    case Closes(s, hookThrows) => TearDownKeepsOne(c, s, hookThrows);
    case Errs(s, _, hookThrows) => TearDownKeepsOne(c, s, hookThrows);
    case UpgradeRejected(s, status, hookThrows) => RejectUpgradeKeepsOne(c, s, status, hookThrows);
    case AuthHookDone(s, hookThrows) => FinishAuthHookKeepsOne(c, s, hookThrows);
    case ConnectTimesOut(hookThrows) =>
      if c.connectTimer.Some? {
        TearDownKeepsOne(c, c.connectTimer.value, hookThrows);
      }
    case HeartbeatTimesOut(hookThrows) =>
      if c.socket.Some? {
        TearDownKeepsOne(c, c.socket.value, hookThrows);
      }
  }

  lemma RunTo(config: Config, events: seq<Event>, k: nat)
    requires k < |events|
    ensures Run(config, events[..k + 1]) == Step(config, Run(config, events[..k]), events[k])
  {
    assert events[..k + 1] == events[..k] + [events[k]];
    RunAppend(config, events[..k], events[k]);
  }

  lemma {:induction false} QuietPrefix(config: Config, events: seq<Event>, n: nat)
    requires QuietRun(config, events) && n <= |events|
    ensures OneThing(Run(config, events[..n]))
  {
    if n > 0 {
      QuietPrefix(config, events, n - 1);
      RunTo(config, events, n - 1);
      OneThingExactlyWhileQuiet(config, Run(config, events[..n - 1]), events[n - 1]);
    }
  }

  /**
   * A client has at most one thing under way throughout a run, none while stopped, and never replaces a socket, exactly
   * when every disconnect of the run is quiet.
   */
  lemma {:induction false} OneThingThroughoutExactlyWhenQuiet(config: Config, events: seq<Event>)
    ensures (forall n: nat :: n <= |events| ==> OneThing(Run(config, events[..n]))) <==> QuietRun(config, events)
  {
    if QuietRun(config, events) {
      forall n: nat | n <= |events| ensures OneThing(Run(config, events[..n])) {
        QuietPrefix(config, events, n);
      }
    } else {
      var k: nat :| k < |events| && !Quiet(Run(config, events[..k]), events[k]);
      RunTo(config, events, k);
      if OneThing(Run(config, events[..k])) {
        OneThingExactlyWhileQuiet(config, Run(config, events[..k]), events[k]);
        assert !OneThing(Run(config, events[..k + 1]));
      }
    }
  }

  /** With quiet disconnects and hooks that do not throw, a started client has exactly one thing under way. */
  lemma {:induction false} ExactlyOneThing(config: Config, events: seq<Event>)
    requires QuietRun(config, events)
    requires forall k :: 0 <= k < |events| ==> !DisconnectHookThrows(events[k])
    ensures Activity(Run(config, events)) == if Run(config, events).started then 1 else 0
  {
    QuietPrefix(config, events, |events|);
    assert events[..|events|] == events;
    NeverStuck(config, events);
  }

  /** Disconnecting during a connect is not quiet: both connects then finish, and the first socket is forgotten unclosed. */
  lemma OverlappingConnectsReplaceASocket(config: Config)
    requires config == Config(1000, 1000)
    ensures var c := Run(config, [Connects] + [Disconnects] + [Connects] + [ConnectContinues(Created)]
                                 + [ConnectContinues(Created)]);
            c.notes == [Replaced(0)] && c.socket == Some(1)
  {
    var e1 := [Connects];
    var e2 := e1 + [Disconnects];
    var e3 := e2 + [Connects];
    var e4 := e3 + [ConnectContinues(Created)];
    RunAppend(config, [], Connects);
    assert [] + [Connects] == e1;
    RunAppend(config, e1, Disconnects);
    RunAppend(config, e2, Connects);
    RunAppend(config, e3, ConnectContinues(Created));
    RunAppend(config, e4, ConnectContinues(Created));
  }

  lemma RunThree(config: Config, events: seq<Event>, a: Event, b: Event, c: Event)
    ensures Run(config, events + [a] + [b] + [c]) == Step(config, Step(config, Step(config, Run(config, events), a), b), c)
  {
    RunAppend(config, events, a);
    RunAppend(config, events + [a], b);
    RunAppend(config, events + [a] + [b], c);
  }

  lemma RejectedFirstConnection(config: Config, c: Client)
    requires config == Config(1000, 1000)
    requires c == Step(config, Step(config, Step(config, IDLE, Connects), ConnectContinues(Created)),
                       UpgradeRejected(0, Some(UNAUTHORIZED), false))
    ensures c == Client(true, None, None, false, true, None, 0, 1, 0, map[0 := true], [RetryGranted(0)])
  {
  }

  lemma HookEndsBesideASocket(config: Config, c: Client)
    requires config == Config(1000, 1000)
    requires c == Client(true, None, None, false, true, None, 0, 1, 0, map[0 := true], [RetryGranted(0)])
    ensures var d := Step(config, Step(config, Step(config, c, Disconnects), Connects), ConnectContinues(Created));
            Step(config, d, AuthHookDone(0, false)).socket == Some(1)
            && Step(config, d, AuthHookDone(0, false)).reconnect == Some(Now)
  {
  }

  /** Disconnecting while the auth hook is awaited is not quiet: the hook's end plans a second connection. */
  lemma LateAuthHookPlansASecondConnection(config: Config)
    requires config == Config(1000, 1000)
    ensures var c := Run(config, [] + [Connects] + [ConnectContinues(Created)]
                                 + [UpgradeRejected(0, Some(UNAUTHORIZED), false)] + [Disconnects] + [Connects]
                                 + [ConnectContinues(Created)] + [AuthHookDone(0, false)]);
            c.socket == Some(1) && c.reconnect == Some(Now)
  {
    var rejection := UpgradeRejected(0, Some(UNAUTHORIZED), false);
    var rejected: seq<Event> := [] + [Connects] + [ConnectContinues(Created)] + [rejection];
    RunThree(config, [], Connects, ConnectContinues(Created), rejection);
    RejectedFirstConnection(config, Run(config, rejected));
    RunThree(config, rejected, Disconnects, Connects, ConnectContinues(Created));
    RunAppend(config, rejected + [Disconnects] + [Connects] + [ConnectContinues(Created)], AuthHookDone(0, false));
    HookEndsBesideASocket(config, Run(config, rejected));
  }
}
