/** What keeps a connector moving: which timers are armed, what reconnection is planned, and which retries are granted. */
module ConnectorTimers {
  import opened Outcomes
  import opened ConnectorModel
  import opened ConnectorRuns
  import opened ConnectorProgress

  ghost predicate HasOpened(c: Client, s: nat) {
    Connected(s) in c.notes
  }

  /** The socket that must open before its connect timeout: the current one, until it has opened. */
  ghost function Watched(config: Config, c: Client): Option<nat> {
    if config.connectTimeoutMs > 0 && c.socket.Some? && !HasOpened(c, c.socket.value) then c.socket else None
  }

  ghost predicate OnlyCreatedOpened(c: Client) {
    && (forall s: nat :: HasOpened(c, s) ==> s < c.created)
    && (c.socket.Some? ==> c.socket.value < c.created)
  }

  /** The timeout is armed for the watched socket, and the heartbeat runs for a current socket that has opened. */
  ghost predicate Guarded(config: Config, c: Client) {
    && OnlyCreatedOpened(c)
    && c.connectTimer == Watched(config, c)
    && (config.heartbeatIntervalMs > 0 && c.socket.Some? && HasOpened(c, c.socket.value) ==> c.heartbeat)
  }

  lemma NotedOpens(c: Client, note: Note, s: nat)
    ensures HasOpened(Noted(c, note), s) <==> HasOpened(c, s) || note == Connected(s)
  {
  }

  lemma ScheduleOpensNothing(c: Client, immediate: bool, s: nat)
    ensures HasOpened(Schedule(c, immediate), s) <==> HasOpened(c, s)
  {
    NotedOpens(c, Scheduled(if immediate then Now else Backoff(c.attempt)), s);
  }

  lemma ReportOpensNothing(c: Client, q: nat, immediate: bool, hookThrows: bool, s: nat)
    ensures HasOpened(Report(c, q, immediate, hookThrows), s) <==> HasOpened(c, s)
  {
    NotedOpens(c, Disconnected(q), s);
    ScheduleOpensNothing(Noted(c, Disconnected(q)), immediate, s);
  }

  /** Two clients that agree on the socket, its timers and what has opened are guarded alike. */
  lemma GuardedAlike(config: Config, c: Client, d: Client)
    requires Guarded(config, c) && d.socket == c.socket && d.connectTimer == c.connectTimer && d.heartbeat == c.heartbeat
    requires d.created == c.created && forall s: nat :: HasOpened(d, s) <==> HasOpened(c, s)
    ensures Guarded(config, d)
  {
  }

  lemma ScheduleIsGuarded(config: Config, c: Client, immediate: bool)
    requires Guarded(config, c)
    ensures Guarded(config, Schedule(c, immediate))
  {
    forall s: nat ensures HasOpened(Schedule(c, immediate), s) <==> HasOpened(c, s) {
      ScheduleOpensNothing(c, immediate, s);
    }
    GuardedAlike(config, c, Schedule(c, immediate));
  }

  lemma ReportIsGuarded(config: Config, c: Client, q: nat, immediate: bool, hookThrows: bool)
    requires Guarded(config, c)
    ensures Guarded(config, Report(c, q, immediate, hookThrows))
  {
    forall s: nat ensures HasOpened(Report(c, q, immediate, hookThrows), s) <==> HasOpened(c, s) {
      ReportOpensNothing(c, q, immediate, hookThrows, s);
    }
    GuardedAlike(config, c, Report(c, q, immediate, hookThrows));
  }

  lemma DetachedIsGuarded(config: Config, c: Client)
    requires Guarded(config, c)
    ensures Guarded(config, Detached(c))
  {
    assert forall s: nat :: HasOpened(Detached(c), s) <==> HasOpened(c, s);
  }

  lemma TearDownIsGuarded(config: Config, c: Client, s: nat, hookThrows: bool)
    requires Guarded(config, c)
    ensures Guarded(config, TearDown(c, s, hookThrows))
  {
    DetachedIsGuarded(config, c);
    ReportIsGuarded(config, Detached(c), s, false, hookThrows);
  }

  lemma RejectUpgradeIsGuarded(config: Config, c: Client, s: nat, status: Option<int>, hookThrows: bool)
    requires Guarded(config, c)
    ensures Guarded(config, RejectUpgrade(c, s, status, hookThrows))
  {
    TearDownIsGuarded(config, c, s, hookThrows);
    DetachedIsGuarded(config, c);
    if c.socket == Some(s) && status == Some(UNAUTHORIZED) {
      var d := RejectUpgrade(c, s, status, hookThrows);
      forall q: nat ensures HasOpened(d, q) <==> HasOpened(Detached(c), q) {
        NotedOpens(Detached(c), RetryGranted(s), q);
      }
      GuardedAlike(config, Detached(c), d);
    }
  }

  lemma FinishAuthHookIsGuarded(config: Config, c: Client, s: nat, hookThrows: bool)
    requires Guarded(config, c)
    ensures Guarded(config, FinishAuthHook(c, s, hookThrows))
  {
    if s in c.awaiting {
      var resumed := c.(awaiting := c.awaiting - {s});
      assert forall q: nat :: HasOpened(resumed, q) <==> HasOpened(c, q);
      ReportIsGuarded(config, resumed, s, c.awaiting[s], hookThrows);
    }
  }

  lemma OpenIsGuarded(config: Config, c: Client, s: nat, hookThrows: bool)
    requires Guarded(config, c)
    ensures Guarded(config, Open(config, c, s, hookThrows))
  {
    if c.socket == Some(s) {
      var d := Open(config, c, s, hookThrows);
      forall q: nat ensures HasOpened(d, q) <==> HasOpened(c, q) || q == s {
        NotedOpens(c, Connected(s), q);
      }
    }
  }

  lemma InstallIsGuarded(config: Config, c: Client)
    requires Guarded(config, c)
    ensures Guarded(config, Install(config, c))
  {
    var d := Install(config, c);
    forall q: nat ensures HasOpened(d, q) <==> HasOpened(c, q) {
      if c.socket.Some? {
        NotedOpens(c, Replaced(c.socket.value), q);
      }
    }
    assert !HasOpened(c, c.created);
  }

  lemma ContinueIsGuarded(config: Config, c: Client, result: ConnectResult)
    requires Guarded(config, c)
    ensures Guarded(config, ContinueConnect(config, c, result))
  {
    if c.connecting > 0 {
      var resumed := c.(connecting := c.connecting - 1);
      assert forall q: nat :: HasOpened(resumed, q) <==> HasOpened(c, q);
      ScheduleIsGuarded(config, resumed, false);
      InstallIsGuarded(config, resumed);
    }
  }

  lemma BeginIsGuarded(config: Config, c: Client, started: bool)
    requires Guarded(config, c)
    ensures Guarded(config, BeginConnect(c.(started := started)))
  {
    var d := BeginConnect(c.(started := started));
    assert forall q: nat :: HasOpened(d, q) <==> HasOpened(c, q);
  }

  lemma DisconnectIsGuarded(config: Config, c: Client)
    requires Guarded(config, c)
    ensures Guarded(config, Disconnect(c))
  {
    forall q: nat ensures HasOpened(Disconnect(c), q) <==> HasOpened(c, q) {
      if c.socket.Some? {
        NotedOpens(c, Dropped(c.socket.value), q);
      }
    }
  }

  lemma {:induction false} StepIsGuarded(config: Config, c: Client, event: Event)
    requires Guarded(config, c)
    ensures Guarded(config, Step(config, c, event))
  {
    match event
    case Connects => BeginIsGuarded(config, c, true);
    case Disconnects => DisconnectIsGuarded(config, c);
    case ReconnectFires =>
      BeginIsGuarded(config, c, c.started);
      assert c.(started := c.started) == c;
    case ConnectContinues(result) => ContinueIsGuarded(config, c, result);
    case Opens(s, hookThrows) => OpenIsGuarded(config, c, s, hookThrows);
    case Closes(s, hookThrows) => TearDownIsGuarded(config, c, s, hookThrows);
    case Errs(s, _, hookThrows) => TearDownIsGuarded(config, c, s, hookThrows);
    case UpgradeRejected(s, status, hookThrows) => RejectUpgradeIsGuarded(config, c, s, status, hookThrows);
    case AuthHookDone(s, hookThrows) => FinishAuthHookIsGuarded(config, c, s, hookThrows);
    case ConnectTimesOut(hookThrows) =>
      if c.connectTimer.Some? {
        TearDownIsGuarded(config, c, c.connectTimer.value, hookThrows);
      }
    case HeartbeatTimesOut(hookThrows) =>
      if c.socket.Some? {
        TearDownIsGuarded(config, c, c.socket.value, hookThrows);
      }
  }

  lemma {:induction false} AlwaysGuarded(config: Config, events: seq<Event>)
    ensures Guarded(config, Run(config, events))
  {
    if events != [] {
      AlwaysGuarded(config, events[..|events| - 1]);
      StepIsGuarded(config, Run(config, events[..|events| - 1]), events[|events| - 1]);
    }
  }

  /**
   * In every interleaving the connect timeout is armed exactly while a timeout is configured and there is a current socket
   * that has not opened, and is that socket's; and a current socket that has opened has the heartbeat running, if one is
   * configured.
   */
  lemma {:induction false} WatchedExactlyUntilOpen(config: Config, events: seq<Event>)
    ensures var c := Run(config, events);
            && (c.connectTimer.Some? <==>
                  config.connectTimeoutMs > 0 && c.socket.Some? && Connected(c.socket.value) !in c.notes)
            && (c.connectTimer.Some? ==> c.connectTimer == c.socket)
            && (config.heartbeatIntervalMs > 0 && c.socket.Some? && Connected(c.socket.value) in c.notes ==> c.heartbeat)
  {
    AlwaysGuarded(config, events);
  }

  /**
   * With both timers configured and hooks that do not throw, a started client always has a timer armed, a reconnection
   * planned, or a connect or an auth hook under way: no silent socket is waited for without limit.
   */
  lemma {:induction false} NeverWaitsUnwatched(config: Config, events: seq<Event>)
    requires config.connectTimeoutMs > 0 && config.heartbeatIntervalMs > 0
    requires forall k :: 0 <= k < |events| ==> !DisconnectHookThrows(events[k])
    ensures var c := Run(config, events);
            c.started ==>
              c.connectTimer.Some? || c.heartbeat || c.reconnect.Some? || c.connecting > 0 || c.awaiting != map[]
  {
    NeverStuck(config, events);
    AlwaysGuarded(config, events);
  }

  // ---------------------------------------------------------------- what is planned

  function LastPlan(notes: seq<Note>): Option<Plan> {
    if notes == [] then None
    else if notes[|notes| - 1].Scheduled? then Some(notes[|notes| - 1].plan)
    else LastPlan(notes[..|notes| - 1])
  }

  /** Every delayed plan counts the delayed plans made since the last connection. */
  ghost predicate PlansCount(notes: seq<Note>) {
    forall i :: 0 <= i < |notes| && notes[i].Scheduled? && notes[i].plan.Backoff? ==>
      notes[i].plan.attempt == BackoffsSinceConnected(notes[..i])
  }

  lemma LastPlanAppend(notes: seq<Note>, note: Note)
    ensures LastPlan(notes + [note]) == if note.Scheduled? then Some(note.plan) else LastPlan(notes)
  {
    assert (notes + [note])[..|notes|] == notes;
  }

  lemma PlansCountAppend(notes: seq<Note>, note: Note)
    requires PlansCount(notes)
    requires note.Scheduled? && note.plan.Backoff? ==> note.plan.attempt == BackoffsSinceConnected(notes)
    ensures PlansCount(notes + [note])
  {
    var longer := notes + [note];
    forall i | 0 <= i < |longer| && longer[i].Scheduled? && longer[i].plan.Backoff?
      ensures longer[i].plan.attempt == BackoffsSinceConnected(longer[..i])
    {
      assert longer[..i] == notes[..i];
      assert notes[..|notes|] == notes;
    }
  }

  /** The notes and the plan that a step leaves: unchanged, or more notes without a plan, or a new plan noted last. */
  lemma NotedIsPlanned(c: Client, note: Note)
    requires PlansCount(c.notes) && (c.reconnect.Some? ==> c.reconnect == LastPlan(c.notes)) && !note.Scheduled?
    ensures PlansCount(Noted(c, note).notes)
    ensures c.reconnect.Some? ==> c.reconnect == LastPlan(Noted(c, note).notes)
  {
    LastPlanAppend(c.notes, note);
    PlansCountAppend(c.notes, note);
  }

  ghost predicate PlanNoted(c: Client) {
    PlansCount(c.notes) && (c.reconnect.Some? ==> c.reconnect == LastPlan(c.notes))
  }

  lemma ScheduleIsPlanned(c: Client, immediate: bool)
    requires PlanNoted(c) && Counts(c)
    ensures PlanNoted(Schedule(c, immediate))
  {
    var note := Scheduled(if immediate then Now else Backoff(c.attempt));
    LastPlanAppend(c.notes, note);
    PlansCountAppend(c.notes, note);
  }

  lemma ReportIsPlanned(c: Client, s: nat, immediate: bool, hookThrows: bool)
    requires PlanNoted(c) && Counts(c)
    ensures PlanNoted(Report(c, s, immediate, hookThrows))
  {
    NotedIsPlanned(c, Disconnected(s));
    NotedCounts(c, Disconnected(s));
    ScheduleIsPlanned(Noted(c, Disconnected(s)), immediate);
  }

  lemma TearDownIsPlanned(c: Client, s: nat, hookThrows: bool)
    requires PlanNoted(c) && Counts(c)
    ensures PlanNoted(TearDown(c, s, hookThrows))
  {
    assert PlanNoted(Detached(c)) && Counts(Detached(c));
    ReportIsPlanned(Detached(c), s, false, hookThrows);
  }

  lemma RejectUpgradeIsPlanned(c: Client, s: nat, status: Option<int>, hookThrows: bool)
    requires PlanNoted(c) && Counts(c)
    ensures PlanNoted(RejectUpgrade(c, s, status, hookThrows))
  {
    TearDownIsPlanned(c, s, hookThrows);
    NotedIsPlanned(c, RetryGranted(s));
  }

  lemma FinishAuthHookIsPlanned(c: Client, s: nat, hookThrows: bool)
    requires PlanNoted(c) && Counts(c)
    ensures PlanNoted(FinishAuthHook(c, s, hookThrows))
  {
    if s in c.awaiting {
      var resumed := c.(awaiting := c.awaiting - {s});
      assert PlanNoted(resumed) && Counts(resumed);
      ReportIsPlanned(resumed, s, c.awaiting[s], hookThrows);
    }
  }

  lemma ContinueIsPlanned(config: Config, c: Client, result: ConnectResult)
    requires PlanNoted(c) && Counts(c)
    ensures PlanNoted(ContinueConnect(config, c, result))
  {
    if c.connecting > 0 {
      var resumed := c.(connecting := c.connecting - 1);
      assert PlanNoted(resumed) && Counts(resumed);
      ScheduleIsPlanned(resumed, false);
      if c.socket.Some? {
        NotedIsPlanned(resumed, Replaced(c.socket.value));
      }
    }
  }

  lemma OtherStepsArePlanned(config: Config, c: Client, event: Event)
    requires PlanNoted(c)
    requires event.Connects? || event.Disconnects? || event.ReconnectFires? || event.Opens?
    ensures PlanNoted(Step(config, c, event))
  {
    if c.socket.Some? {
      NotedIsPlanned(c, Dropped(c.socket.value));
      NotedIsPlanned(c, Connected(c.socket.value));
    }
  }

  lemma {:induction false} StepIsPlanned(config: Config, c: Client, event: Event)
    requires PlanNoted(c) && Counts(c)
    ensures PlanNoted(Step(config, c, event))
  {
    match event
    case ConnectContinues(result) => ContinueIsPlanned(config, c, result);
    case Closes(s, hookThrows) => TearDownIsPlanned(c, s, hookThrows);
    case Errs(s, _, hookThrows) => TearDownIsPlanned(c, s, hookThrows);
    case UpgradeRejected(s, status, hookThrows) => RejectUpgradeIsPlanned(c, s, status, hookThrows);
    case AuthHookDone(s, hookThrows) => FinishAuthHookIsPlanned(c, s, hookThrows);
    case ConnectTimesOut(hookThrows) =>
      if c.connectTimer.Some? {
        TearDownIsPlanned(c, c.connectTimer.value, hookThrows);
      }
    case HeartbeatTimesOut(hookThrows) =>
      if c.socket.Some? {
        TearDownIsPlanned(c, c.socket.value, hookThrows);
      }
    case _ => OtherStepsArePlanned(config, c, event);
  }

  /**
   * A planned reconnection is the last one noted, and every delayed one is numbered by the delayed ones before it since
   * the last connection: 0, 1, 2 and so on.
   */
  lemma {:induction false} PlansAreNumbered(config: Config, events: seq<Event>)
    ensures var c := Run(config, events);
            && (c.reconnect.Some? ==> c.reconnect == LastPlan(c.notes))
            && forall i :: 0 <= i < |c.notes| && c.notes[i].Scheduled? && c.notes[i].plan.Backoff? ==>
                 c.notes[i].plan.attempt == BackoffsSinceConnected(c.notes[..i])
  {
    if events != [] {
      PlansAreNumbered(config, events[..|events| - 1]);
      AttemptCountsBackoffs(config, events[..|events| - 1]);
      StepIsPlanned(config, Run(config, events[..|events| - 1]), events[|events| - 1]);
    }
  }

  // ---------------------------------------------------------------- which retries are granted

  /** The upgrade of a current socket was rejected as unauthorized after the last opening whose hook did not throw. */
  function RejectedSinceOpened(config: Config, events: seq<Event>): bool {
    if events == [] then false
    else
      var before, event := events[..|events| - 1], events[|events| - 1];
      match event
      case UpgradeRejected(s, status, _) =>
        (Run(config, before).socket == Some(s) && status == Some(401)) || RejectedSinceOpened(config, before)
      case Opens(s, hookThrows) =>
        !(Run(config, before).socket == Some(s) && !hookThrows) && RejectedSinceOpened(config, before)
      case _ => RejectedSinceOpened(config, before)
  }

  lemma RetryUsedStep(config: Config, c: Client, event: Event)
    ensures Step(config, c, event).retryUsed ==
            match event
            case UpgradeRejected(s, status, _) => (c.socket == Some(s) && status == Some(401)) || c.retryUsed
            case Opens(s, hookThrows) => !(c.socket == Some(s) && !hookThrows) && c.retryUsed
            case _ => c.retryUsed
  {
  }

  lemma {:induction false} RetryUsedExactly(config: Config, events: seq<Event>)
    ensures Run(config, events).retryUsed == RejectedSinceOpened(config, events)
  {
    if events != [] {
      RetryUsedExactly(config, events[..|events| - 1]);
      RetryUsedStep(config, Run(config, events[..|events| - 1]), events[|events| - 1]);
    }
  }

  ghost predicate WasGranted(c: Client, s: nat) {
    RetryGranted(s) in c.notes
  }

  /** Grants go to sockets that are gone, and an awaited auth hook remembers whether its socket was granted a retry. */
  ghost predicate GrantsKept(c: Client) {
    && (forall s: nat :: WasGranted(c, s) ==> s < c.created && c.socket != Some(s))
    && (forall s: nat :: s in c.awaiting ==> (c.awaiting[s] <==> WasGranted(c, s)))
    && (c.socket.Some? ==> c.socket.value < c.created && c.socket.value !in c.awaiting)
    && (forall s: nat :: s in c.awaiting ==> s < c.created)
  }

  /** The sockets, the awaited hooks and the grants of `d` are those of `c`, but for a socket that is gone or new. */
  ghost predicate GrantsAlike(c: Client, d: Client) {
    && d.awaiting == c.awaiting && d.created >= c.created
    && (forall s: nat :: WasGranted(d, s) <==> WasGranted(c, s))
    && (d.socket == c.socket || d.socket == None || (d.socket == Some(c.created) && d.created > c.created))
  }

  lemma ReportGrantsNothing(c: Client, s: nat, immediate: bool, hookThrows: bool)
    ensures GrantsAlike(c, Report(c, s, immediate, hookThrows))
  {
  }

  lemma TearDownGrantsNothing(c: Client, s: nat, hookThrows: bool)
    ensures GrantsAlike(c, TearDown(c, s, hookThrows))
  {
    assert GrantsAlike(c, Detached(c));
    ReportGrantsNothing(Detached(c), s, false, hookThrows);
  }

  lemma ContinueGrantsNothing(config: Config, c: Client, result: ConnectResult)
    ensures GrantsAlike(c, ContinueConnect(config, c, result))
  {
  }

  lemma BeginningsGrantNothing(config: Config, c: Client, event: Event)
    requires event.Connects? || event.Disconnects? || event.ReconnectFires? || event.Opens?
    ensures GrantsAlike(c, Step(config, c, event))
  {
  }

  lemma TimersGrantNothing(c: Client, hookThrows: bool)
    ensures GrantsAlike(c, TimeOutConnect(c, hookThrows)) && GrantsAlike(c, TimeOutHeartbeat(c, hookThrows))
  {
    if c.connectTimer.Some? {
      TearDownGrantsNothing(c, c.connectTimer.value, hookThrows);
    }
    if c.socket.Some? {
      TearDownGrantsNothing(c, c.socket.value, hookThrows);
    }
  }

  lemma {:induction false} OtherStepsGrantNothing(config: Config, c: Client, event: Event)
    requires !event.UpgradeRejected? && !event.AuthHookDone?
    ensures GrantsAlike(c, Step(config, c, event))
  {
    match event
    case ConnectContinues(result) => ContinueGrantsNothing(config, c, result);
    case Closes(s, hookThrows) => TearDownGrantsNothing(c, s, hookThrows);
    case Errs(s, _, hookThrows) => TearDownGrantsNothing(c, s, hookThrows);
    case ConnectTimesOut(hookThrows) => TimersGrantNothing(c, hookThrows);
    case HeartbeatTimesOut(hookThrows) => TimersGrantNothing(c, hookThrows);
    case _ => BeginningsGrantNothing(config, c, event);
  }

  lemma AlikeKeepsGrants(c: Client, d: Client)
    requires GrantsKept(c) && GrantsAlike(c, d)
    ensures GrantsKept(d)
  {
  }

  lemma RejectUpgradeKeepsGrants(c: Client, s: nat, status: Option<int>, hookThrows: bool)
    requires GrantsKept(c)
    ensures GrantsKept(RejectUpgrade(c, s, status, hookThrows))
  {
    if c.socket == Some(s) && status == Some(UNAUTHORIZED) {
      var d := RejectUpgrade(c, s, status, hookThrows);
      assert !WasGranted(c, s);
      forall q: nat ensures WasGranted(d, q) <==> WasGranted(c, q) || (q == s && !c.retryUsed) {
      }
    } else {
      TearDownGrantsNothing(c, s, hookThrows);
      AlikeKeepsGrants(c, TearDown(c, s, hookThrows));
    }
  }

  lemma FinishAuthHookKeepsGrants(c: Client, s: nat, hookThrows: bool)
    requires GrantsKept(c)
    ensures GrantsKept(FinishAuthHook(c, s, hookThrows))
  {
    if s in c.awaiting {
      var resumed := c.(awaiting := c.awaiting - {s});
      assert forall q: nat :: WasGranted(resumed, q) <==> WasGranted(c, q);
      ReportGrantsNothing(resumed, s, c.awaiting[s], hookThrows);
      AlikeKeepsGrants(resumed, FinishAuthHook(c, s, hookThrows));
    }
  }

  lemma {:induction false} GrantsAlwaysKept(config: Config, events: seq<Event>)
    ensures GrantsKept(Run(config, events))
  {
    if events != [] {
      var c, event := Run(config, events[..|events| - 1]), events[|events| - 1];
      GrantsAlwaysKept(config, events[..|events| - 1]);
      match event
      case UpgradeRejected(s, status, hookThrows) => RejectUpgradeKeepsGrants(c, s, status, hookThrows);
      case AuthHookDone(s, hookThrows) => FinishAuthHookKeepsGrants(c, s, hookThrows);
      case _ =>
        OtherStepsGrantNothing(config, c, event);
        AlikeKeepsGrants(c, Step(config, c, event));
    }
  }

  /** The first unauthorized upgrade since the last clean opening is granted an immediate retry; later ones are not. */
  lemma {:induction false} FirstRejectionIsGranted(config: Config, events: seq<Event>, s: nat, hookThrows: bool)
    requires Run(config, events).socket == Some(s)
    ensures var c := Run(config, events);
            var d := Step(config, c, UpgradeRejected(s, Some(401), hookThrows));
            && s in d.awaiting && d.socket == None
            && d.notes == c.notes + if RejectedSinceOpened(config, events) then [] else [RetryGranted(s)]
  {
    RetryUsedExactly(config, events);
  }

  /**
   * When the auth hook of a rejected socket is done, and the owner's hook does not throw, a started client plans to
   * reconnect at once exactly if that socket was granted the retry, and otherwise after the backoff.
   */
  lemma {:induction false} GrantedRetriesAreImmediate(config: Config, events: seq<Event>, s: nat)
    requires s in Run(config, events).awaiting && Run(config, events).started
    ensures var c := Run(config, events);
            Step(config, c, AuthHookDone(s, false)).reconnect
            == Some(if RetryGranted(s) in c.notes then Now else Backoff(BackoffsSinceConnected(c.notes)))
  {
    GrantsAlwaysKept(config, events);
    AttemptCountsBackoffs(config, events);
    assert Run(config, events).awaiting[s] <==> WasGranted(Run(config, events), s);
  }
}
