/**
 * The life of a connector's socket as a state machine. Every callback and every piece of code between two awaits is
 * one step, and steps come in any order: the socket's own events are not assumed to arrive in a sensible sequence.
 */
module ConnectorModel {
  import opened Outcomes

  datatype Config = Config(connectTimeoutMs: int, heartbeatIntervalMs: int)

  /** A planned reconnection: at once, or after the backoff for that many earlier attempts. */
  datatype Plan = Now | Backoff(attempt: nat)

  datatype Note =
    | Connected(socket: nat)
    | Disconnected(socket: nat)   // the client's owner was told
    | Dropped(socket: nat)        // closed by disconnect
    | Replaced(socket: nat)       // a newer socket took its place
    | RetryGranted(socket: nat)
    | Scheduled(plan: Plan)

  /**
   * Sockets are numbered as they are created. `connecting` counts suspended `connectSocket` calls, `awaiting` holds the
   * sockets whose rejected upgrade waits for the auth hook, with the immediate retry each was granted or refused.
   */
  datatype Client = Client(
    started: bool,
    socket: Option<nat>,
    connectTimer: Option<nat>,
    heartbeat: bool,
    retryUsed: bool,
    reconnect: Option<Plan>,
    attempt: nat,
    created: nat,
    connecting: nat,
    awaiting: map<nat, bool>,
    notes: seq<Note>)

  const IDLE := Client(false, None, None, false, false, None, 0, 0, 0, map[], [])

  const OPEN := 1
  const CONNECTING := 0
  const UNAUTHORIZED := 401

  datatype ConnectResult = HeadersFailed | FactoryThrew | Created

  datatype Event =
    | Connects
    | Disconnects
    | ReconnectFires
    | ConnectContinues(result: ConnectResult)
    | Opens(s: nat, hookThrows: bool)
    | Closes(s: nat, hookThrows: bool)
    | Errs(s: nat, readyState: int, hookThrows: bool)
    | UpgradeRejected(s: nat, status: Option<int>, hookThrows: bool)
    | AuthHookDone(s: nat, hookThrows: bool)
    | ConnectTimesOut(hookThrows: bool)
    | HeartbeatTimesOut(hookThrows: bool)

  function Noted(c: Client, note: Note): Client {
    c.(notes := c.notes + [note])
  }

  function Schedule(c: Client, immediate: bool): Client {
    if !c.started then c
    else
      var plan := if immediate then Now else Backoff(c.attempt);
      Noted(c, Scheduled(plan)).(reconnect := Some(plan), attempt := if immediate then c.attempt else c.attempt + 1)
  }

  function Detached(c: Client): Client {
    c.(socket := None, connectTimer := None, heartbeat := false)
  }

  /** Tells the owner that the socket is gone, then plans a reconnection unless the owner's hook throws. */
  function Report(c: Client, s: nat, immediate: bool, hookThrows: bool): Client {
    var told := Noted(c, Disconnected(s));
    if hookThrows then told else Schedule(told, immediate)
  }

  function TearDown(c: Client, s: nat, hookThrows: bool): Client {
    if c.socket != Some(s) then c else Report(Detached(c), s, false, hookThrows)
  }

  function RejectUpgrade(c: Client, s: nat, status: Option<int>, hookThrows: bool): Client {
    if c.socket != Some(s) || status != Some(UNAUTHORIZED) then TearDown(c, s, hookThrows)
    else
      var waiting := Detached(c).(retryUsed := true, awaiting := c.awaiting[s := !c.retryUsed]);
      if c.retryUsed then waiting else Noted(waiting, RetryGranted(s))
  }

  function FinishAuthHook(c: Client, s: nat, hookThrows: bool): Client {
    if s !in c.awaiting then c else Report(c.(awaiting := c.awaiting - {s}), s, c.awaiting[s], hookThrows)
  }

  function Open(config: Config, c: Client, s: nat, hookThrows: bool): Client {
    if c.socket != Some(s) then c
    else Noted(c, Connected(s)).(connectTimer := None, attempt := 0, heartbeat := config.heartbeatIntervalMs > 0,
                                 retryUsed := hookThrows && c.retryUsed)
  }

  function BeginConnect(c: Client): Client {
    c.(reconnect := None, connecting := c.connecting + 1)
  }

  function Connect(c: Client): Client {
    if c.started then c else BeginConnect(c.(started := true))
  }

  function FireReconnect(c: Client): Client {
    if c.reconnect.None? then c else BeginConnect(c)
  }

  function Install(config: Config, c: Client): Client {
    var noted := if c.socket.Some? then Noted(c, Replaced(c.socket.value)) else c;
    noted.(socket := Some(c.created), created := c.created + 1,
           connectTimer := if config.connectTimeoutMs > 0 then Some(c.created) else None)
  }

  function ContinueConnect(config: Config, c: Client, result: ConnectResult): Client {
    if c.connecting == 0 then c
    else
      var resumed := c.(connecting := c.connecting - 1);
      if result.HeadersFailed? then Schedule(resumed, false)
      else if !c.started then resumed
      else if result.FactoryThrew? then Schedule(resumed, false)
      else Install(config, resumed)
  }

  function Disconnect(c: Client): Client {
    var stopped := Detached(c).(started := false, reconnect := None);
    if c.socket.Some? then Noted(stopped, Dropped(c.socket.value)) else stopped
  }

  function Error(c: Client, s: nat, readyState: int, hookThrows: bool): Client {
    if readyState == OPEN || readyState == CONNECTING then c else TearDown(c, s, hookThrows)
  }

  function TimeOutConnect(c: Client, hookThrows: bool): Client {
    if c.connectTimer.None? then c else TearDown(c, c.connectTimer.value, hookThrows)
  }

  function TimeOutHeartbeat(c: Client, hookThrows: bool): Client {
    if !c.heartbeat || c.socket.None? then c else TearDown(c, c.socket.value, hookThrows)
  }

  function Step(config: Config, c: Client, event: Event): Client {
    match event
    case Connects => Connect(c)
    case Disconnects => Disconnect(c)
    case ReconnectFires => FireReconnect(c)
    case ConnectContinues(result) => ContinueConnect(config, c, result)
    case Opens(s, hookThrows) => Open(config, c, s, hookThrows)
    case Closes(s, hookThrows) => TearDown(c, s, hookThrows)
    case Errs(s, readyState, hookThrows) => Error(c, s, readyState, hookThrows)
    case UpgradeRejected(s, status, hookThrows) => RejectUpgrade(c, s, status, hookThrows)
    case AuthHookDone(s, hookThrows) => FinishAuthHook(c, s, hookThrows)
    case ConnectTimesOut(hookThrows) => TimeOutConnect(c, hookThrows)
    case HeartbeatTimesOut(hookThrows) => TimeOutHeartbeat(c, hookThrows)
  }

  function Run(config: Config, events: seq<Event>): Client {
    if events == [] then IDLE else Step(config, Run(config, events[..|events| - 1]), events[|events| - 1])
  }
}
