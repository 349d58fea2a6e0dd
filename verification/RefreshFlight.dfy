/**
 * Refreshing expired credentials, with all callers of one key sharing one refresh. Every `await` of the source is
 * a point where other callers may run, so one call is many small steps here. A step that resolves a promise may
 * come at any time after the step that created it.
 */
module RefreshFlight {
  import opened Outcomes

  // ---------------------------------------------------------------- the table of shared refreshes

  /** Joins the refresh under way for the key, or starts one under the number `unused`. */
  function JoinOrStart(inFlight: map<string, nat>, key: string, unused: nat): (map<string, nat>, nat) {
    if key in inFlight then (inFlight, inFlight[key]) else (inFlight[key := unused], unused)
  }

  /** Clears the table entry when a refresh has ended, unless the entry belongs to another one. */
  function Release(inFlight: map<string, nat>, key: string, flight: nat): map<string, nat> {
    if key in inFlight && inFlight[key] == flight then inFlight - {key} else inFlight
  }

  class RefreshSingleFlights {
    var inFlight: map<string, nat>

    constructor ()
      ensures inFlight == map[]
    {
      inFlight := map[];
    }

    method RunRefreshSingleFlight(key: string, unused: nat) returns (flight: nat)
      modifies this
      ensures (inFlight, flight) == JoinOrStart(old(inFlight), key, unused)
    {
      if key in inFlight {
        return inFlight[key];
      }
      inFlight := inFlight[key := unused];
      flight := unused;
    }

    method Finally(key: string, flight: nat)
      modifies this
      ensures inFlight == Release(old(inFlight), key, flight)
      ensures key in inFlight <==> key in old(inFlight) && old(inFlight)[key] != flight
      ensures key in inFlight ==> inFlight == old(inFlight)
    {
      if key in inFlight && inFlight[key] == flight {
        inFlight := inFlight - {key};
      }
    }
  }

  // ---------------------------------------------------------------- the whole system

  datatype Outcome = Renewed(token: string) | Failed

  /** How far a shared refresh has come. `Ended` means its clean-up has run and its promise is settled. */
  datatype Phase =
    | Reading
    | Holding(token: string)
    | Refreshing(token: string)
    | Persisting(token: string, next: string)
    | Written(token: string, next: string)
    | Settled(outcome: Outcome)
    | Ended(outcome: Outcome)

  datatype Flight = Flight(key: string, phase: Phase)

  datatype CallerPhase =
    | AwaitingAuth
    | Performing
    | AwaitingFlight(flight: nat)
    | PerformingAgain(token: string)
    | Returned

  /** `performed` counts calls of the caller's action; `seen` is the shared refresh it resumed from. */
  datatype Caller = Caller(key: string, phase: CallerPhase, performed: nat, seen: Option<(nat, Outcome)>)

  /** Refresh tokens shown to the registry, and replacements written to the credential store. */
  datatype Entry = Shown(key: string, token: string) | Replaced(key: string, token: string, next: string)

  datatype System = System(
    inFlight: map<string, nat>,
    flights: seq<Flight>,
    callers: seq<Caller>,
    store: map<string, string>,
    issued: set<string>,
    log: seq<Entry>)

  datatype Step =
    | Arrives(key: string)
    | ReadsAuth(caller: nat)
    | CannotReadAuth(caller: nat)
    | ActionEnds(caller: nat)
    | ActionNeedsRefresh(caller: nat)
    | Resumes(caller: nat)
    | FlightReads(flight: nat)
    | FlightPresents(flight: nat)
    | FlightReceives(flight: nat, next: string)
    | FlightWrites(flight: nat)
    | FlightSucceeds(flight: nat)
    | FlightFails(flight: nat)
    | FlightEnds(flight: nat)

  predicate Enabled(s: System, step: Step) {
    match step
    case Arrives(key) => true
    case ReadsAuth(c) => c < |s.callers| && s.callers[c].phase.AwaitingAuth? && s.callers[c].key in s.store
    case CannotReadAuth(c) => c < |s.callers| && s.callers[c].phase.AwaitingAuth?
    case ActionEnds(c) =>
      c < |s.callers| && (s.callers[c].phase.Performing? || s.callers[c].phase.PerformingAgain?)
    case ActionNeedsRefresh(c) => c < |s.callers| && s.callers[c].phase.Performing?
    case Resumes(c) =>
      && c < |s.callers| && s.callers[c].phase.AwaitingFlight?
      && s.callers[c].phase.flight < |s.flights| && s.flights[s.callers[c].phase.flight].phase.Ended?
    case FlightReads(f) => f < |s.flights| && s.flights[f].phase.Reading? && s.flights[f].key in s.store
    case FlightPresents(f) => f < |s.flights| && s.flights[f].phase.Holding?
    case FlightReceives(f, next) => f < |s.flights| && s.flights[f].phase.Refreshing? && next !in s.issued
    case FlightWrites(f) => f < |s.flights| && s.flights[f].phase.Persisting?
    case FlightSucceeds(f) => f < |s.flights| && s.flights[f].phase.Written?
    case FlightFails(f) => f < |s.flights| && !s.flights[f].phase.Settled? && !s.flights[f].phase.Ended?
    case FlightEnds(f) => f < |s.flights| && s.flights[f].phase.Settled?
  }

  function WithCaller(s: System, c: nat, caller: Caller): System
    requires c < |s.callers|
  {
    s.(callers := s.callers[c := caller])
  }

  function WithPhase(s: System, f: nat, phase: Phase): System
    requires f < |s.flights|
  {
    s.(flights := s.flights[f := s.flights[f].(phase := phase)])
  }

  /** The retry path: join the refresh under way for the key, or start one. */
  function Join(s: System, c: nat): System
    requires c < |s.callers|
  {
    var caller := s.callers[c];
    var (inFlight, flight) := JoinOrStart(s.inFlight, caller.key, |s.flights|);
    s.(inFlight := inFlight,
       flights := if caller.key in s.inFlight then s.flights else s.flights + [Flight(caller.key, Reading)],
       callers := s.callers[c := caller.(phase := AwaitingFlight(flight))])
  }

  function Next(s: System, step: Step): System
    requires Enabled(s, step)
  {
    match step
    case Arrives(key) => s.(callers := s.callers + [Caller(key, AwaitingAuth, 0, None)])
    case ReadsAuth(c) =>
      WithCaller(s, c, s.callers[c].(phase := Performing, performed := s.callers[c].performed + 1))
    case CannotReadAuth(c) => WithCaller(s, c, s.callers[c].(phase := Returned))
    case ActionEnds(c) => WithCaller(s, c, s.callers[c].(phase := Returned))
    case ActionNeedsRefresh(c) => Join(s, c)
    case Resumes(c) =>
      var caller := s.callers[c];
      var outcome := s.flights[caller.phase.flight].phase.outcome;
      var resumed := caller.(seen := Some((caller.phase.flight, outcome)));
      WithCaller(s, c,
                 match outcome
                 case Renewed(token) => resumed.(phase := PerformingAgain(token), performed := caller.performed + 1)
                 case Failed => resumed.(phase := Returned))
    case FlightReads(f) => WithPhase(s, f, Holding(s.store[s.flights[f].key]))
    case FlightPresents(f) =>
      var token := s.flights[f].phase.token;
      WithPhase(s, f, Refreshing(token)).(log := s.log + [Shown(s.flights[f].key, token)])
    case FlightReceives(f, next) =>
      WithPhase(s, f, Persisting(s.flights[f].phase.token, next)).(issued := s.issued + {next})
    case FlightWrites(f) =>
      var key, token, next := s.flights[f].key, s.flights[f].phase.token, s.flights[f].phase.next;
      WithPhase(s, f, Written(token, next)).(store := s.store[key := next], log := s.log + [Replaced(key, token, next)])
    case FlightSucceeds(f) => WithPhase(s, f, Settled(Renewed(s.flights[f].phase.next)))
    case FlightFails(f) => WithPhase(s, f, Settled(Failed))
    case FlightEnds(f) =>
      WithPhase(s, f, Ended(s.flights[f].phase.outcome)).(inFlight := Release(s.inFlight, s.flights[f].key, f))
  }

  function Start(store: map<string, string>): System {
    System(map[], [], [], store, store.Values, [])
  }

  /** A run: every step is enabled when it is taken. */
  ghost predicate IsRun(store: map<string, string>, steps: seq<Step>)
    decreases |steps|, 0
  {
    steps == [] ||
    (IsRun(store, steps[..|steps| - 1]) && Enabled(After(store, steps[..|steps| - 1]), steps[|steps| - 1]))
  }

  ghost function After(store: map<string, string>, steps: seq<Step>): System
    requires IsRun(store, steps)
    decreases |steps|, 1
  {
    if steps == [] then Start(store) else Next(After(store, steps[..|steps| - 1]), steps[|steps| - 1])
  }

  // ---------------------------------------------------------------- invariants

  ghost predicate Running(s: System, f: nat) {
    f < |s.flights| && !s.flights[f].phase.Ended?
  }

  /** The table holds exactly the refreshes that have not ended, each under its key. */
  ghost predicate TableExact(s: System) {
    && (forall key :: key in s.inFlight ==> Running(s, s.inFlight[key]) && s.flights[s.inFlight[key]].key == key)
    && (forall f: nat :: Running(s, f) ==> s.flights[f].key in s.inFlight && s.inFlight[s.flights[f].key] == f)
  }

  ghost predicate CallerSound(s: System, caller: Caller) {
    && (caller.seen.Some? ==>
          caller.seen.value.0 < |s.flights| && s.flights[caller.seen.value.0].key == caller.key
          && s.flights[caller.seen.value.0].phase == Ended(caller.seen.value.1))
    && match caller.phase
       case AwaitingAuth => caller.performed == 0 && caller.seen.None?
       case Performing => caller.performed == 1 && caller.seen.None?
       case AwaitingFlight(f) =>
         caller.performed == 1 && caller.seen.None? && f < |s.flights| && s.flights[f].key == caller.key
       case PerformingAgain(token) => caller.performed == 2 && caller.seen.Some? && caller.seen.value.1 == Renewed(token)
       case Returned =>
         if caller.seen.None? then caller.performed <= 1
         else caller.performed == if caller.seen.value.1.Renewed? then 2 else 1
  }

  ghost predicate CallersSound(s: System) {
    forall c :: 0 <= c < |s.callers| ==> CallerSound(s, s.callers[c])
  }

  ghost predicate WasReplaced(s: System, key: string, token: string) {
    exists i :: 0 <= i < |s.log| && s.log[i].Replaced? && s.log[i].key == key && s.log[i].token == token
  }

  ghost predicate FlightFresh(s: System, flight: Flight) {
    match flight.phase
    case Holding(token) => flight.key in s.store && s.store[flight.key] == token
    case Refreshing(token) => flight.key in s.store && s.store[flight.key] == token
    case Persisting(token, next) =>
      && flight.key in s.store && s.store[flight.key] == token != next
      && next in s.issued && !WasReplaced(s, flight.key, next)
    case _ => true
  }

  ghost predicate TokensFresh(s: System) {
    && (forall key :: key in s.store ==> s.store[key] in s.issued && !WasReplaced(s, key, s.store[key]))
    && (forall i :: 0 <= i < |s.log| && s.log[i].Replaced? ==> s.log[i].token in s.issued)
    && (forall f :: 0 <= f < |s.flights| ==> FlightFresh(s, s.flights[f]))
  }

  /** No token is shown after its replacement was written. */
  ghost predicate NeverShownAgain(log: seq<Entry>) {
    forall i, j :: 0 <= i < j < |log| && log[i].Replaced? ==> log[j] != Shown(log[i].key, log[i].token)
  }

  ghost predicate Inv(s: System) {
    TableExact(s) && CallersSound(s) && TokensFresh(s) && NeverShownAgain(s.log)
  }

  lemma JoinKeepsTable(s: System, c: nat)
    requires TableExact(s) && c < |s.callers|
    ensures TableExact(Join(s, c))
  {
    var t := Join(s, c);
    forall f: nat | Running(t, f) ensures t.flights[f].key in t.inFlight && t.inFlight[t.flights[f].key] == f {
      if f < |s.flights| {
        assert Running(s, f);
      }
    }
  }

  lemma EndKeepsTable(s: System, f: nat)
    requires TableExact(s) && Enabled(s, FlightEnds(f))
    ensures TableExact(Next(s, FlightEnds(f)))
  {
    var t := Next(s, FlightEnds(f));
    assert Running(s, f);
    forall g: nat | Running(t, g) ensures t.flights[g].key in t.inFlight && t.inFlight[t.flights[g].key] == g {
      assert Running(s, g);
    }
  }

  lemma TableStep(s: System, step: Step)
    requires TableExact(s) && Enabled(s, step)
    ensures TableExact(Next(s, step))
  {
    match step
    case ActionNeedsRefresh(c) => JoinKeepsTable(s, c);
    case FlightEnds(f) => EndKeepsTable(s, f);
    case _ =>
      forall f: nat ensures Running(Next(s, step), f) <==> Running(s, f) {
      }
  }

  /** Flights never change key, never vanish, and keep their outcome once ended. */
  lemma FlightsPersist(s: System, step: Step, f: nat)
    requires Enabled(s, step) && f < |s.flights|
    ensures var t := Next(s, step);
            && f < |t.flights| && t.flights[f].key == s.flights[f].key
            && (s.flights[f].phase.Ended? ==> t.flights[f] == s.flights[f])
  {
  }

  lemma CallersStep(s: System, step: Step)
    requires TableExact(s) && CallersSound(s) && Enabled(s, step)
    ensures CallersSound(Next(s, step))
  {
    var t := Next(s, step);
    forall c | 0 <= c < |t.callers| ensures CallerSound(t, t.callers[c]) {
      if c < |s.callers| {
        assert CallerSound(s, s.callers[c]);
        if s.callers[c].seen.Some? {
          FlightsPersist(s, step, s.callers[c].seen.value.0);
        }
        if s.callers[c].phase.AwaitingFlight? {
          FlightsPersist(s, step, s.callers[c].phase.flight);
        }
      }
    }
  }

  lemma WriteKeepsTokensFresh(s: System, f: nat)
    requires TableExact(s) && TokensFresh(s) && Enabled(s, FlightWrites(f))
    ensures TokensFresh(Next(s, FlightWrites(f)))
  {
  }

  lemma PresentKeepsTokensFresh(s: System, f: nat)
    requires TokensFresh(s) && Enabled(s, FlightPresents(f))
    ensures TokensFresh(Next(s, FlightPresents(f)))
  {
  }

  /** Steps that touch neither the store nor the log. */
  lemma OtherStepsKeepTokensFresh(s: System, step: Step)
    requires TokensFresh(s) && Enabled(s, step) && !step.FlightWrites? && !step.FlightPresents?
    ensures TokensFresh(Next(s, step))
  {
    var t := Next(s, step);
    assert t.store == s.store && t.log == s.log && s.issued <= t.issued;
    forall key, token ensures WasReplaced(t, key, token) <==> WasReplaced(s, key, token) {
    }
    forall g | 0 <= g < |t.flights| ensures FlightFresh(t, t.flights[g]) {
      if g < |s.flights| {
        assert FlightFresh(s, s.flights[g]);
        if step.FlightReceives? && step.flight == g {
          assert !WasReplaced(s, s.flights[g].key, step.next);
        }
      }
    }
  }

  lemma LogStep(s: System, step: Step)
    requires TokensFresh(s) && NeverShownAgain(s.log) && Enabled(s, step)
    ensures NeverShownAgain(Next(s, step).log)
  {
  }

  lemma {:induction false} StepKeepsInv(s: System, step: Step)
    requires Inv(s) && Enabled(s, step)
    ensures Inv(Next(s, step))
  {
    TableStep(s, step);
    CallersStep(s, step);
    LogStep(s, step);
    match step
    case FlightWrites(f) => WriteKeepsTokensFresh(s, f);
    case FlightPresents(f) => PresentKeepsTokensFresh(s, f);
    case _ => OtherStepsKeepTokensFresh(s, step);
  }

  lemma {:induction false} RunKeepsInv(store: map<string, string>, steps: seq<Step>)
    requires IsRun(store, steps)
    ensures Inv(After(store, steps))
  {
    if steps != [] {
      RunKeepsInv(store, steps[..|steps| - 1]);
      StepKeepsInv(After(store, steps[..|steps| - 1]), steps[|steps| - 1]);
    }
  }

  // ---------------------------------------------------------------- guarantees over every interleaving

  /** For one key at most one sequence of reading, refreshing and persisting is under way at any time. */
  lemma OneRefreshAtATime(store: map<string, string>, steps: seq<Step>, f: nat, g: nat)
    requires IsRun(store, steps)
    requires var s := After(store, steps);
             Running(s, f) && Running(s, g) && s.flights[f].key == s.flights[g].key
    ensures f == g
  {
    RunKeepsInv(store, steps);
  }

  /** Callers that resumed from the same refresh saw the same outcome, the one the refresh ended with. */
  lemma JoinedCallersSeeOneOutcome(store: map<string, string>, steps: seq<Step>, c: nat, d: nat)
    requires IsRun(store, steps)
    requires var s := After(store, steps);
             && c < |s.callers| && d < |s.callers|
             && s.callers[c].seen.Some? && s.callers[d].seen.Some?
             && s.callers[c].seen.value.0 == s.callers[d].seen.value.0
    ensures var s := After(store, steps);
            && s.callers[c].seen == s.callers[d].seen
            && s.callers[c].key == s.callers[d].key
            && s.callers[c].seen.value.0 < |s.flights|
            && s.flights[s.callers[c].seen.value.0].phase == Ended(s.callers[c].seen.value.1)
  {
    RunKeepsInv(store, steps);
    var s := After(store, steps);
    assert CallerSound(s, s.callers[c]) && CallerSound(s, s.callers[d]);
  }

  /** Once a refresh token's replacement has been written, that token is never shown to the registry again. */
  lemma ReplacedTokensAreNeverShown(store: map<string, string>, steps: seq<Step>, i: nat, j: nat)
    requires IsRun(store, steps)
    requires var log := After(store, steps).log; i < j < |log| && log[i].Replaced?
    ensures var log := After(store, steps).log; log[j] != Shown(log[i].key, log[i].token)
  {
    RunKeepsInv(store, steps);
  }

  /** Every caller runs its action at most twice, and twice exactly when it resumed from a refresh that succeeded. */
  lemma {:induction false} ActionRunsAtMostTwice(store: map<string, string>, steps: seq<Step>, c: nat)
    requires IsRun(store, steps) && c < |After(store, steps).callers|
    ensures var caller := After(store, steps).callers[c];
            && caller.performed <= 2
            && (caller.performed == 2 <==> caller.seen.Some? && caller.seen.value.1.Renewed?)
            && (caller.phase.PerformingAgain? ==>
                  caller.seen.Some? && caller.seen.value.1 == Renewed(caller.phase.token))
  {
    RunKeepsInv(store, steps);
    assert CallerSound(After(store, steps), After(store, steps).callers[c]);
  }

  /** When a refresh ends the table entry is its own, so the identity check before clearing never fails. */
  lemma FlightsClearTheirOwnEntry(store: map<string, string>, steps: seq<Step>, f: nat)
    requires IsRun(store, steps) && Enabled(After(store, steps), FlightEnds(f))
    ensures var s := After(store, steps);
            && s.flights[f].key in s.inFlight && s.inFlight[s.flights[f].key] == f
            && s.flights[f].key !in Next(s, FlightEnds(f)).inFlight
  {
    RunKeepsInv(store, steps);
    assert Running(After(store, steps), f);
  }
}
