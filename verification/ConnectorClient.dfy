/** The connector client's methods and callbacks, each proved against its step of the state machine. */
module ConnectorClients {
  import opened Outcomes
  import opened ConnectorModel

  class ConnectorClient {
    const config: Config
    var started: bool
    var socket: Option<nat>
    var connectTimeout: Option<nat>
    var heartbeatRunning: bool
    var authUpgradeImmediateRetryUsed: bool
    var reconnectTimeout: Option<Plan>
    var attempt: nat
    // What the surrounding program holds: sockets made, suspended calls, awaited hooks, and what was reported.
    var created: nat
    var connecting: nat
    var awaiting: map<nat, bool>
    var notes: seq<Note>

    ghost function View(): Client
      reads this
    {
      Client(started, socket, connectTimeout, heartbeatRunning, authUpgradeImmediateRetryUsed, reconnectTimeout, attempt,
             created, connecting, awaiting, notes)
    }

    constructor (config: Config)
      ensures View() == IDLE && this.config == config
    {
      this.config := config;
      started, socket, connectTimeout, heartbeatRunning := false, None, None, false;
      authUpgradeImmediateRetryUsed, reconnectTimeout, attempt := false, None, 0;
      created, connecting, awaiting, notes := 0, 0, map[], [];
    }

    method Connect()
      modifies this
      ensures View() == ConnectorModel.Connect(old(View()))
    {
      if started {
        return;
      }
      started := true;
      ConnectSocket();
    }

    method Disconnect()
      modifies this
      ensures View() == ConnectorModel.Disconnect(old(View()))
    {
      started := false;
      reconnectTimeout := None;
      ClearSocketState();
      if socket.Some? {
        notes := notes + [Dropped(socket.value)];
        socket := None;
      }
    }

    /** `connectSocket` up to its first await. */
    method ConnectSocket()
      modifies this
      ensures View() == BeginConnect(old(View()))
    {
      reconnectTimeout := None;
      connecting := connecting + 1;
    }

    /** `connectSocket` after its awaits, when the headers and the socket factory give `result`. */
    method ContinueConnect(result: ConnectResult)
      requires connecting > 0
      modifies this
      ensures View() == ConnectorModel.ContinueConnect(config, old(View()), result)
    {
      connecting := connecting - 1;
      if result.HeadersFailed? {
        ScheduleReconnect(false);
        return;
      }
      if !started {
        return;
      }
      if result.FactoryThrew? {
        ScheduleReconnect(false);
        return;
      }
      if socket.Some? {
        notes := notes + [Replaced(socket.value)];
      }
      socket := Some(created);
      created := created + 1;
      StartConnectTimeout(socket.value);
    }

    method ScheduleReconnect(immediate: bool)
      modifies this
      ensures View() == Schedule(old(View()), immediate)
    {
      if !started {
        return;
      }
      var plan := if immediate then Now else Backoff(attempt);
      if !immediate {
        attempt := attempt + 1;
      }
      notes := notes + [Scheduled(plan)];
      reconnectTimeout := Some(plan);
    }

    method OnReconnectTimeout()
      requires reconnectTimeout.Some?
      modifies this
      ensures View() == FireReconnect(old(View()))
    {
      reconnectTimeout := None;
      ConnectSocket();
    }

    method StartConnectTimeout(s: nat)
      modifies this`connectTimeout
      ensures connectTimeout == if config.connectTimeoutMs > 0 then Some(s) else None
    {
      connectTimeout := None;
      if config.connectTimeoutMs <= 0 {
        return;
      }
      connectTimeout := Some(s);
    }

    method ClearSocketState()
      modifies this`connectTimeout, this`heartbeatRunning
      ensures connectTimeout == None && !heartbeatRunning
    {
      connectTimeout := None;
      heartbeatRunning := false;
    }

    method DetachSocket(s: nat) returns (detached: bool)
      modifies this
      ensures detached <==> old(socket) == Some(s)
      ensures View() == if detached then Detached(old(View())) else old(View())
    {
      if socket != Some(s) {
        return false;
      }
      socket := None;
      ClearSocketState();
      detached := true;
    }

    /** Tells the owner, then reconnects unless the owner's hook throws. */
    method OnDisconnected(s: nat, immediate: bool, hookThrows: bool)
      modifies this
      ensures View() == Report(old(View()), s, immediate, hookThrows)
    {
      notes := notes + [Disconnected(s)];
      if !hookThrows && started {
        ScheduleReconnect(immediate);
      }
    }

    method OnOpen(s: nat, hookThrows: bool)
      modifies this
      ensures View() == Open(config, old(View()), s, hookThrows)
    {
      if socket != Some(s) {
        return;
      }
      connectTimeout := None;
      attempt := 0;
      heartbeatRunning := config.heartbeatIntervalMs > 0;
      notes := notes + [Connected(s)];
      if !hookThrows {
        authUpgradeImmediateRetryUsed := false;
      }
    }

    method OnClose(s: nat, hookThrows: bool)
      modifies this
      ensures View() == TearDown(old(View()), s, hookThrows)
    {
      var detached := DetachSocket(s);
      if detached {
        OnDisconnected(s, false, hookThrows);
      }
    }

    method OnError(s: nat, readyState: int, hookThrows: bool)
      modifies this
      ensures View() == Error(old(View()), s, readyState, hookThrows)
    {
      if socket != Some(s) || readyState == OPEN || readyState == CONNECTING {
        return;
      }
      var detached := DetachSocket(s);
      if detached {
        OnDisconnected(s, false, hookThrows);
      }
    }

    /** Up to the await of the auth hook, or to the end when there is nothing to await. */
    method HandleUnexpectedResponse(s: nat, status: Option<int>, hookThrows: bool)
      modifies this
      ensures View() == RejectUpgrade(old(View()), s, status, hookThrows)
    {
      var detached := DetachSocket(s);
      if !detached {
        return;
      }
      var isAuthRejected := status == Some(UNAUTHORIZED);
      var immediateRetry := isAuthRejected && !authUpgradeImmediateRetryUsed;
      if isAuthRejected {
        authUpgradeImmediateRetryUsed := true;
        if immediateRetry {
          notes := notes + [RetryGranted(s)];
        }
        awaiting := awaiting[s := immediateRetry];
        return;
      }
      OnDisconnected(s, immediateRetry, hookThrows);
    }

    /** The rest of `handleUnexpectedResponse` once the auth hook is done. */
    method AfterAuthHook(s: nat, hookThrows: bool)
      requires s in awaiting
      modifies this
      ensures View() == FinishAuthHook(old(View()), s, hookThrows)
    {
      var immediateRetry := awaiting[s];
      awaiting := awaiting - {s};
      OnDisconnected(s, immediateRetry, hookThrows);
    }

    method OnConnectTimeout(hookThrows: bool)
      requires connectTimeout.Some?
      modifies this
      ensures View() == TimeOutConnect(old(View()), hookThrows)
    {
      var s := connectTimeout.value;
      var detached := DetachSocket(s);
      if detached {
        OnDisconnected(s, false, hookThrows);
      }
    }

    method HandleHeartbeatAckTimeout(hookThrows: bool)
      requires heartbeatRunning
      modifies this
      ensures View() == TimeOutHeartbeat(old(View()), hookThrows)
    {
      if socket.None? {
        return;
      }
      var s := socket.value;
      var detached := DetachSocket(s);
      if detached {
        OnDisconnected(s, false, hookThrows);
      }
    }
  }
}
