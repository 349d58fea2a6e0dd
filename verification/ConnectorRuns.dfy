/** What holds of a connector client in every interleaving of its callbacks. */
module ConnectorRuns {
  import opened Outcomes
  import opened ConnectorModel

  // ---------------------------------------------------------------- the fate of every socket

  function EndOf(note: Note): Option<nat> {
    match note
    case Disconnected(s) => Some(s)
    case Dropped(s) => Some(s)
    case Replaced(s) => Some(s)
    case Connected(_) => None
    case RetryGranted(_) => None
    case Scheduled(_) => None
  }

  ghost predicate EndedAt(notes: seq<Note>, s: nat, i: nat) {
    i < |notes| && EndOf(notes[i]) == Some(s)
  }

  ghost predicate Ended(notes: seq<Note>, s: nat) {
    exists i :: EndedAt(notes, s, i)
  }

  ghost predicate EndsOnce(notes: seq<Note>) {
    forall s: nat, i: nat, j: nat :: EndedAt(notes, s, i) && EndedAt(notes, s, j) ==> i == j
  }

  ghost predicate Alive(c: Client, limbo: Option<nat>, s: nat) {
    c.socket == Some(s) || s in c.awaiting || limbo == Some(s)
  }

  /** A socket that code in progress has detached but not yet reported is in limbo. */
  ghost predicate FatesKept(c: Client, limbo: Option<nat>) {
    && EndsOnce(c.notes)
    && (forall s: nat :: s < c.created ==> (Alive(c, limbo, s) <==> !Ended(c.notes, s)))
    && (forall s: nat :: s >= c.created ==> !Alive(c, limbo, s) && !Ended(c.notes, s))
    && (c.socket.Some? ==> c.socket.value !in c.awaiting && c.socket != limbo)
    && (limbo.Some? ==> limbo.value !in c.awaiting)
  }

  lemma AppendedEnds(notes: seq<Note>, note: Note)
    ensures forall s: nat :: Ended(notes + [note], s) <==> Ended(notes, s) || EndOf(note) == Some(s)
    ensures EndsOnce(notes) && (EndOf(note).Some? ==> !Ended(notes, EndOf(note).value)) ==> EndsOnce(notes + [note])
  {
    var longer := notes + [note];
    forall s: nat
      ensures Ended(longer, s) <==> Ended(notes, s) || EndOf(note) == Some(s)
    {
      if i: nat :| EndedAt(notes, s, i) {
        assert EndedAt(longer, s, i);
      }
      if i: nat :| EndedAt(longer, s, i) && i < |notes| {
        assert EndedAt(notes, s, i);
      }
      if EndOf(note) == Some(s) {
        assert EndedAt(longer, s, |notes|);
      }
    }
    if EndsOnce(notes) && (EndOf(note).Some? ==> !Ended(notes, EndOf(note).value)) {
      forall s: nat, i: nat, j: nat | EndedAt(longer, s, i) && EndedAt(longer, s, j)
        ensures i == j
      {
        if i < |notes| {
          assert EndedAt(notes, s, i);
        }
        if j < |notes| {
          assert EndedAt(notes, s, j);
        }
      }
    }
  }

  lemma NeutralNote(c: Client, note: Note, limbo: Option<nat>)
    requires FatesKept(c, limbo) && EndOf(note).None?
    ensures FatesKept(Noted(c, note), limbo)
  {
    AppendedEnds(c.notes, note);
  }

  lemma EndingNote(c: Client, note: Note, s: nat)
    requires FatesKept(c, Some(s)) && EndOf(note) == Some(s)
    ensures FatesKept(Noted(c, note), None)
  {
    AppendedEnds(c.notes, note);
    assert Alive(c, Some(s), s);
  }

  lemma ScheduleKeepsFates(c: Client, immediate: bool, limbo: Option<nat>)
    requires FatesKept(c, limbo)
    ensures FatesKept(Schedule(c, immediate), limbo)
  {
    var noted, u := Noted(c, Scheduled(if immediate then Now else Backoff(c.attempt))), Schedule(c, immediate);
    NeutralNote(c, Scheduled(if immediate then Now else Backoff(c.attempt)), limbo);
    if c.started {
      assert forall s: nat :: Alive(u, limbo, s) <==> Alive(noted, limbo, s);
    }
  }

  lemma ReportKeepsFates(c: Client, s: nat, immediate: bool, hookThrows: bool)
    requires FatesKept(c, Some(s))
    ensures FatesKept(Report(c, s, immediate, hookThrows), None)
  {
    EndingNote(c, Disconnected(s), s);
    ScheduleKeepsFates(Noted(c, Disconnected(s)), immediate, None);
  }

  lemma DetachingKeepsFates(c: Client)
    requires FatesKept(c, None) && c.socket.Some?
    ensures FatesKept(Detached(c), c.socket)
  {
    forall s: nat
      ensures Alive(Detached(c), c.socket, s) <==> Alive(c, None, s)
    {
    }
  }

  lemma TearDownKeepsFates(c: Client, s: nat, hookThrows: bool)
    requires FatesKept(c, None)
    ensures FatesKept(TearDown(c, s, hookThrows), None)
  {
    if c.socket == Some(s) {
      DetachingKeepsFates(c);
      ReportKeepsFates(Detached(c), s, false, hookThrows);
    }
  }

  lemma RejectUpgradeKeepsFates(c: Client, s: nat, status: Option<int>, hookThrows: bool)
    requires FatesKept(c, None)
    ensures FatesKept(RejectUpgrade(c, s, status, hookThrows), None)
  {
    TearDownKeepsFates(c, s, hookThrows);
    if c.socket == Some(s) && status == Some(UNAUTHORIZED) {
      DetachingKeepsFates(c);
      var waiting := Detached(c).(retryUsed := true, awaiting := c.awaiting[s := !c.retryUsed]);
      forall q: nat
        ensures Alive(waiting, None, q) <==> Alive(Detached(c), Some(s), q)
      {
      }
      NeutralNote(waiting, RetryGranted(s), None);
    }
  }

  lemma FinishAuthHookKeepsFates(c: Client, s: nat, hookThrows: bool)
    requires FatesKept(c, None)
    ensures FatesKept(FinishAuthHook(c, s, hookThrows), None)
  {
    if s in c.awaiting {
      var resumed := c.(awaiting := c.awaiting - {s});
      forall q: nat
        ensures Alive(resumed, Some(s), q) <==> Alive(c, None, q)
      {
      }
      ReportKeepsFates(resumed, s, c.awaiting[s], hookThrows);
    }
  }

  lemma InstallKeepsFates(config: Config, c: Client)
    requires FatesKept(c, None)
    ensures FatesKept(Install(config, c), None)
  {
    var d := c;
    if c.socket.Some? {
      DetachingKeepsFates(c);
      d := Noted(Detached(c), Replaced(c.socket.value));
      EndingNote(Detached(c), Replaced(c.socket.value), c.socket.value);
    }
    var u := Install(config, c);
    assert !Alive(c, None, c.created);
    assert FatesKept(d, None) && d.socket.None? && d.notes == u.notes && d.awaiting == u.awaiting;
    forall q: nat
      ensures Alive(u, None, q) <==> Alive(d, None, q) || q == c.created
    {
    }
  }

  lemma DisconnectKeepsFates(c: Client)
    requires FatesKept(c, None)
    ensures FatesKept(Disconnect(c), None)
  {
    if c.socket.Some? {
      DetachingKeepsFates(c);
      EndingNote(Detached(c), Dropped(c.socket.value), c.socket.value);
      var d := Noted(Detached(c), Dropped(c.socket.value));
      assert FatesKept(d, None) && Disconnect(c).notes == d.notes;
      forall q: nat
        ensures Alive(Disconnect(c), None, q) <==> Alive(d, None, q)
      {
      }
    }
  }

  lemma ContinueKeepsFates(config: Config, c: Client, result: ConnectResult)
    requires FatesKept(c, None)
    ensures FatesKept(ContinueConnect(config, c, result), None)
  {
    if c.connecting > 0 {
      var resumed := c.(connecting := c.connecting - 1);
      assert forall q: nat :: Alive(resumed, None, q) <==> Alive(c, None, q);
      ScheduleKeepsFates(resumed, false, None);
      InstallKeepsFates(config, resumed);
    }
  }

  lemma OpenKeepsFates(config: Config, c: Client, s: nat, hookThrows: bool)
    requires FatesKept(c, None)
    ensures FatesKept(Open(config, c, s, hookThrows), None)
  {
    NeutralNote(c, Connected(s), None);
    var u, d := Open(config, c, s, hookThrows), Noted(c, Connected(s));
    if c.socket == Some(s) {
      assert forall q: nat :: Alive(u, None, q) <==> Alive(d, None, q);
    }
  }

  lemma BeginKeepsFates(c: Client, started: bool)
    requires FatesKept(c, None)
    ensures FatesKept(BeginConnect(c.(started := started)), None)
  {
    var u := BeginConnect(c.(started := started));
    assert forall q: nat :: Alive(u, None, q) <==> Alive(c, None, q);
  }

  lemma StepKeepsFates(config: Config, c: Client, event: Event)
    requires FatesKept(c, None)
    ensures FatesKept(Step(config, c, event), None)
  {
    match event
    case Connects => BeginKeepsFates(c, true);
    case Disconnects => DisconnectKeepsFates(c);
    case ReconnectFires =>
      BeginKeepsFates(c, c.started);
      assert c.(started := c.started) == c;
    case ConnectContinues(result) => ContinueKeepsFates(config, c, result);
    case Opens(s, hookThrows) => OpenKeepsFates(config, c, s, hookThrows);
    case Closes(s, hookThrows) => TearDownKeepsFates(c, s, hookThrows);
    case Errs(s, readyState, hookThrows) => TearDownKeepsFates(c, s, hookThrows);
    case UpgradeRejected(s, status, hookThrows) => RejectUpgradeKeepsFates(c, s, status, hookThrows);
    case AuthHookDone(s, hookThrows) => FinishAuthHookKeepsFates(c, s, hookThrows);
    case ConnectTimesOut(hookThrows) =>
      if c.connectTimer.Some? {
        TearDownKeepsFates(c, c.connectTimer.value, hookThrows);
      }
    case HeartbeatTimesOut(hookThrows) =>
      if c.socket.Some? {
        TearDownKeepsFates(c, c.socket.value, hookThrows);
      }
  }

  lemma {:induction false} FatesAlwaysKept(config: Config, events: seq<Event>)
    ensures FatesKept(Run(config, events), None)
  {
    if events != [] {
      FatesAlwaysKept(config, events[..|events| - 1]);
      StepKeepsFates(config, Run(config, events[..|events| - 1]), events[|events| - 1]);
    }
  }

  /** In every interleaving the owner hears of the end of one socket at most once, however many teardowns race for it. */
  lemma DisconnectionIsReportedAtMostOnce(config: Config, events: seq<Event>, i: nat, j: nat)
    requires i < |Run(config, events).notes| && j < |Run(config, events).notes|
    requires Run(config, events).notes[i].Disconnected? && Run(config, events).notes[i] == Run(config, events).notes[j]
    ensures i == j
  {
    FatesAlwaysKept(config, events);
    var notes := Run(config, events).notes;
    assert EndedAt(notes, notes[i].socket, i) && EndedAt(notes, notes[i].socket, j);
  }

  /**
   * Every socket ever created is current, waiting for the auth hook, or ended; and it ended in exactly one way:
   * reported, dropped by disconnect, or replaced by a newer socket.
   */
  lemma {:induction false} EverySocketHasOneFate(config: Config, events: seq<Event>, s: nat)
    requires s < Run(config, events).created
    ensures var c := Run(config, events);
            && (c.socket == Some(s) || s in c.awaiting <==> !Ended(c.notes, s))
            && !(c.socket == Some(s) && s in c.awaiting)
            && (forall i, j :: EndedAt(c.notes, s, i) && EndedAt(c.notes, s, j) ==> i == j)
  {
    FatesAlwaysKept(config, events);
    var c := Run(config, events);
    assert Alive(c, None, s) <==> !Ended(c.notes, s);
  }

  // ---------------------------------------------------------------- timers

  /** An armed connect timeout and a running heartbeat belong to a current socket; a stopped client keeps neither. */
  ghost predicate TimersKept(config: Config, c: Client) {
    && (c.connectTimer.Some? ==> c.socket == c.connectTimer && config.connectTimeoutMs > 0)
    && (c.heartbeat ==> c.socket.Some? && config.heartbeatIntervalMs > 0)
    && (!c.started ==> c.socket.None? && c.reconnect.None?)
  }

  lemma ReportTimers(config: Config, c: Client, s: nat, immediate: bool, hookThrows: bool)
    requires TimersKept(config, c)
    ensures TimersKept(config, Report(c, s, immediate, hookThrows))
  {
  }

  lemma TearDownTimers(config: Config, c: Client, s: nat, hookThrows: bool)
    requires TimersKept(config, c)
    ensures TimersKept(config, TearDown(c, s, hookThrows))
  {
    ReportTimers(config, Detached(c), s, false, hookThrows);
  }

  lemma RejectUpgradeTimers(config: Config, c: Client, s: nat, status: Option<int>, hookThrows: bool)
    requires TimersKept(config, c)
    ensures TimersKept(config, RejectUpgrade(c, s, status, hookThrows))
  {
    TearDownTimers(config, c, s, hookThrows);
  }

  lemma FinishAuthHookTimers(config: Config, c: Client, s: nat, hookThrows: bool)
    requires TimersKept(config, c)
    ensures TimersKept(config, FinishAuthHook(c, s, hookThrows))
  {
    if s in c.awaiting {
      ReportTimers(config, c.(awaiting := c.awaiting - {s}), s, c.awaiting[s], hookThrows);
    }
  }

  lemma ContinueTimers(config: Config, c: Client, result: ConnectResult)
    requires TimersKept(config, c)
    ensures TimersKept(config, ContinueConnect(config, c, result))
  {
  }

  lemma {:induction false} TimersStep(config: Config, c: Client, event: Event)
    requires TimersKept(config, c)
    ensures TimersKept(config, Step(config, c, event))
  {
    match event
    case Connects =>
    case Disconnects =>
    case ReconnectFires =>
    case ConnectContinues(result) => ContinueTimers(config, c, result);
    case Opens(_, _) =>
    case Closes(s, hookThrows) => TearDownTimers(config, c, s, hookThrows);
    case Errs(s, _, hookThrows) => TearDownTimers(config, c, s, hookThrows);
    case UpgradeRejected(s, status, hookThrows) => RejectUpgradeTimers(config, c, s, status, hookThrows);
    case AuthHookDone(s, hookThrows) => FinishAuthHookTimers(config, c, s, hookThrows);
    case ConnectTimesOut(hookThrows) =>
      if c.connectTimer.Some? {
        TearDownTimers(config, c, c.connectTimer.value, hookThrows);
      }
    case HeartbeatTimesOut(hookThrows) =>
      if c.socket.Some? {
        TearDownTimers(config, c, c.socket.value, hookThrows);
      }
  }

  lemma {:induction false} TimersAlwaysKept(config: Config, events: seq<Event>)
    ensures TimersKept(config, Run(config, events))
  {
    if events != [] {
      TimersAlwaysKept(config, events[..|events| - 1]);
      TimersStep(config, Run(config, events[..|events| - 1]), events[|events| - 1]);
    }
  }

  /** A connect timeout or heartbeat timeout that fires always tears down the current socket and reports it. */
  lemma {:induction false} FiringTimersReport(config: Config, events: seq<Event>, hookThrows: bool)
    ensures var c := Run(config, events);
            && (c.connectTimer.Some? ==>
                  c.socket.Some? && Disconnected(c.socket.value) in TimeOutConnect(c, hookThrows).notes
                  && TimeOutConnect(c, hookThrows).socket.None?)
            && (c.heartbeat ==>
                  c.socket.Some? && Disconnected(c.socket.value) in TimeOutHeartbeat(c, hookThrows).notes
                  && TimeOutHeartbeat(c, hookThrows).socket.None?)
  {
    TimersAlwaysKept(config, events);
    var c := Run(config, events);
    if c.socket.Some? {
      var told := c.notes + [Disconnected(c.socket.value)];
      assert told[|c.notes|] == Disconnected(c.socket.value);
      TearDownTells(c, c.socket.value, hookThrows);
    }
  }

  lemma TearDownTells(c: Client, s: nat, hookThrows: bool)
    requires c.socket == Some(s)
    ensures Disconnected(s) in TearDown(c, s, hookThrows).notes && TearDown(c, s, hookThrows).socket.None?
  {
  }

  // ---------------------------------------------------------------- immediate retries after a rejected upgrade

  function Grants(notes: seq<Note>): nat {
    if notes == [] then 0 else Grants(notes[..|notes| - 1]) + if notes[|notes| - 1].RetryGranted? then 1 else 0
  }

  function Connections(notes: seq<Note>): nat {
    if notes == [] then 0 else Connections(notes[..|notes| - 1]) + if notes[|notes| - 1].Connected? then 1 else 0
  }

  function ImmediateRetries(notes: seq<Note>): nat {
    if notes == [] then 0
    else ImmediateRetries(notes[..|notes| - 1]) + if notes[|notes| - 1] == Scheduled(Now) then 1 else 0
  }

  /** The waiting sockets that were granted an immediate retry. */
  ghost function Granted(awaiting: map<nat, bool>): set<nat> {
    set s | s in awaiting && awaiting[s]
  }

  lemma GrantedGrows(awaiting: map<nat, bool>, s: nat, granted: bool)
    requires s !in awaiting
    ensures |Granted(awaiting[s := granted])| == |Granted(awaiting)| + if granted then 1 else 0
  {
    assert Granted(awaiting[s := granted]) == if granted then Granted(awaiting) + {s} else Granted(awaiting);
  }

  lemma GrantedShrinks(awaiting: map<nat, bool>, s: nat)
    requires s in awaiting
    ensures |Granted(awaiting - {s})| == |Granted(awaiting)| - if awaiting[s] then 1 else 0
  {
    assert Granted(awaiting - {s}) == Granted(awaiting) - {s};
  }

  ghost predicate RetriesBounded(c: Client) {
    && Grants(c.notes) <= Connections(c.notes) + (if c.retryUsed then 1 else 0)
    && ImmediateRetries(c.notes) + |Granted(c.awaiting)| <= Grants(c.notes)
  }

  lemma CountsAppend(notes: seq<Note>, note: Note)
    ensures Grants(notes + [note]) == Grants(notes) + if note.RetryGranted? then 1 else 0
    ensures Connections(notes + [note]) == Connections(notes) + if note.Connected? then 1 else 0
    ensures ImmediateRetries(notes + [note]) == ImmediateRetries(notes) + if note == Scheduled(Now) then 1 else 0
  {
  }

  lemma ReportBounded(c: Client, s: nat, immediate: bool, hookThrows: bool)
    requires Grants(c.notes) <= Connections(c.notes) + (if c.retryUsed then 1 else 0)
    requires ImmediateRetries(c.notes) + |Granted(c.awaiting)| + (if immediate then 1 else 0) <= Grants(c.notes)
    ensures RetriesBounded(Report(c, s, immediate, hookThrows))
  {
  }

  lemma TearDownBounded(c: Client, s: nat, hookThrows: bool)
    requires RetriesBounded(c)
    ensures RetriesBounded(TearDown(c, s, hookThrows))
  {
  }

  lemma AuthRejectionBounded(c: Client, s: nat, hookThrows: bool)
    requires RetriesBounded(c) && c.socket == Some(s) && s !in c.awaiting
    ensures RetriesBounded(RejectUpgrade(c, s, Some(UNAUTHORIZED), hookThrows))
  {
    GrantedGrows(c.awaiting, s, !c.retryUsed);
    CountsAppend(c.notes, RetryGranted(s));
  }

  lemma {:induction false} RejectUpgradeBounded(c: Client, s: nat, status: Option<int>, hookThrows: bool)
    requires RetriesBounded(c) && FatesKept(c, None)
    ensures RetriesBounded(RejectUpgrade(c, s, status, hookThrows))
  {
    if c.socket == Some(s) && status == Some(UNAUTHORIZED) {
      AuthRejectionBounded(c, s, hookThrows);
    } else {
      TearDownBounded(c, s, hookThrows);
    }
  }

  lemma FinishAuthHookBounded(c: Client, s: nat, hookThrows: bool)
    requires RetriesBounded(c)
    ensures RetriesBounded(FinishAuthHook(c, s, hookThrows))
  {
    if s in c.awaiting {
      var resumed := c.(awaiting := c.awaiting - {s});
      GrantedShrinks(c.awaiting, s);
      ReportBounded(resumed, s, c.awaiting[s], hookThrows);
    }
  }

  lemma ContinueBounded(config: Config, c: Client, result: ConnectResult)
    requires RetriesBounded(c)
    ensures RetriesBounded(ContinueConnect(config, c, result))
  {
    CountsAppend(c.notes, Scheduled(Backoff(c.attempt)));
    if c.socket.Some? {
      CountsAppend(c.notes, Replaced(c.socket.value));
    }
  }

  lemma QuietStepsBounded(config: Config, c: Client, event: Event)
    requires RetriesBounded(c)
    requires event.Connects? || event.Disconnects? || event.ReconnectFires? || event.Opens?
    ensures RetriesBounded(Step(config, c, event))
  {
    if c.socket.Some? {
      CountsAppend(c.notes, Dropped(c.socket.value));
      CountsAppend(c.notes, Connected(c.socket.value));
    }
  }

  lemma {:induction false} RetriesStep(config: Config, c: Client, event: Event)
    requires RetriesBounded(c) && FatesKept(c, None)
    ensures RetriesBounded(Step(config, c, event))
  {
    match event
    case Connects => QuietStepsBounded(config, c, event);
    case Disconnects => QuietStepsBounded(config, c, event);
    case ReconnectFires => QuietStepsBounded(config, c, event);
    case ConnectContinues(result) => ContinueBounded(config, c, result);
    case Opens(_, _) => QuietStepsBounded(config, c, event);
    case Closes(s, hookThrows) => TearDownBounded(c, s, hookThrows);
    case Errs(s, readyState, hookThrows) => TearDownBounded(c, s, hookThrows);
    case UpgradeRejected(s, status, hookThrows) => RejectUpgradeBounded(c, s, status, hookThrows);
    case AuthHookDone(s, hookThrows) => FinishAuthHookBounded(c, s, hookThrows);
    case ConnectTimesOut(hookThrows) =>
      if c.connectTimer.Some? {
        TearDownBounded(c, c.connectTimer.value, hookThrows);
      }
    case HeartbeatTimesOut(hookThrows) =>
      if c.socket.Some? {
        TearDownBounded(c, c.socket.value, hookThrows);
      }
  }

  lemma {:induction false} RetriesAlwaysBounded(config: Config, events: seq<Event>)
    ensures RetriesBounded(Run(config, events))
  {
    if events != [] {
      RetriesAlwaysBounded(config, events[..|events| - 1]);
      FatesAlwaysKept(config, events[..|events| - 1]);
      RetriesStep(config, Run(config, events[..|events| - 1]), events[|events| - 1]);
    }
  }

  /** Reconnections without delay are at most the retries granted, and those at most one more than the connections made. */
  lemma {:induction false} ImmediateRetriesAreBounded(config: Config, events: seq<Event>)
    ensures var notes := Run(config, events).notes;
            ImmediateRetries(notes) <= Grants(notes) <= 1 + Connections(notes)
  {
    RetriesAlwaysBounded(config, events);
  }

  // ---------------------------------------------------------------- backoff

  /** Delayed reconnections planned since the last connection. */
  function BackoffsSinceConnected(notes: seq<Note>): nat {
    if notes == [] || notes[|notes| - 1].Connected? then 0
    else
      BackoffsSinceConnected(notes[..|notes| - 1])
      + match notes[|notes| - 1] case Scheduled(Backoff(_)) => 1 case _ => 0
  }

  lemma BackoffsAppend(notes: seq<Note>, note: Note)
    ensures BackoffsSinceConnected(notes + [note])
            == if note.Connected? then 0
               else BackoffsSinceConnected(notes) + match note case Scheduled(Backoff(_)) => 1 case _ => 0
  {
  }

  ghost predicate Counts(c: Client) {
    c.attempt == BackoffsSinceConnected(c.notes)
  }

  lemma NotedCounts(c: Client, note: Note)
    requires Counts(c) && !note.Connected? && !note.Scheduled?
    ensures Counts(Noted(c, note))
  {
    BackoffsAppend(c.notes, note);
  }

  lemma ScheduleCounts(c: Client, immediate: bool)
    requires Counts(c)
    ensures Counts(Schedule(c, immediate))
  {
    BackoffsAppend(c.notes, Scheduled(if immediate then Now else Backoff(c.attempt)));
  }

  lemma ReportCounts(c: Client, s: nat, immediate: bool, hookThrows: bool)
    requires Counts(c)
    ensures Counts(Report(c, s, immediate, hookThrows))
  {
    NotedCounts(c, Disconnected(s));
    ScheduleCounts(Noted(c, Disconnected(s)), immediate);
  }

  lemma TearDownCounts(c: Client, s: nat, hookThrows: bool)
    requires Counts(c)
    ensures Counts(TearDown(c, s, hookThrows))
  {
    assert Counts(Detached(c));
    ReportCounts(Detached(c), s, false, hookThrows);
  }

  lemma RejectUpgradeCounts(c: Client, s: nat, status: Option<int>, hookThrows: bool)
    requires Counts(c)
    ensures Counts(RejectUpgrade(c, s, status, hookThrows))
  {
    TearDownCounts(c, s, hookThrows);
    NotedCounts(c, RetryGranted(s));
  }

  lemma FinishAuthHookCounts(c: Client, s: nat, hookThrows: bool)
    requires Counts(c)
    ensures Counts(FinishAuthHook(c, s, hookThrows))
  {
    if s in c.awaiting {
      var resumed := c.(awaiting := c.awaiting - {s});
      assert Counts(resumed);
      ReportCounts(resumed, s, c.awaiting[s], hookThrows);
    }
  }

  lemma ContinueCounts(config: Config, c: Client, result: ConnectResult)
    requires Counts(c)
    ensures Counts(ContinueConnect(config, c, result))
  {
    if c.connecting > 0 {
      var resumed := c.(connecting := c.connecting - 1);
      assert Counts(resumed);
      ScheduleCounts(resumed, false);
      if c.socket.Some? {
        NotedCounts(resumed, Replaced(c.socket.value));
      }
    }
  }

  lemma DisconnectCounts(c: Client)
    requires Counts(c)
    ensures Counts(Disconnect(c))
  {
    if c.socket.Some? {
      NotedCounts(c, Dropped(c.socket.value));
    }
  }

  lemma OpenCounts(config: Config, c: Client, s: nat, hookThrows: bool)
    requires Counts(c)
    ensures Counts(Open(config, c, s, hookThrows))
  {
    BackoffsAppend(c.notes, Connected(s));
  }

  lemma {:induction false} AttemptStep(config: Config, c: Client, event: Event)
    requires Counts(c)
    ensures Counts(Step(config, c, event))
  {
    match event
    case Connects =>
    case ReconnectFires =>
    case Disconnects => DisconnectCounts(c);
    case Opens(s, hookThrows) => OpenCounts(config, c, s, hookThrows);
    case ConnectContinues(result) => ContinueCounts(config, c, result);
    case Closes(s, hookThrows) => TearDownCounts(c, s, hookThrows);
    case Errs(s, _, hookThrows) => TearDownCounts(c, s, hookThrows);
    case UpgradeRejected(s, status, hookThrows) => RejectUpgradeCounts(c, s, status, hookThrows);
    case ConnectTimesOut(hookThrows) =>
      if c.connectTimer.Some? {
        TearDownCounts(c, c.connectTimer.value, hookThrows);
      }
    case HeartbeatTimesOut(hookThrows) =>
      if c.socket.Some? {
        TearDownCounts(c, c.socket.value, hookThrows);
      }
    case AuthHookDone(s, hookThrows) => FinishAuthHookCounts(c, s, hookThrows);
  }

  /** The backoff exponent is always the number of delayed reconnections planned since the last connection. */
  lemma {:induction false} AttemptCountsBackoffs(config: Config, events: seq<Event>)
    ensures Run(config, events).attempt == BackoffsSinceConnected(Run(config, events).notes)
  {
    if events != [] {
      AttemptCountsBackoffs(config, events[..|events| - 1]);
      AttemptStep(config, Run(config, events[..|events| - 1]), events[|events| - 1]);
    }
  }
}
