/** What a shared refresh hands to its callers: the token that it received and wrote, and no other. */
module RefreshOutcomes {
  import opened Outcomes
  import opened RefreshFlight

  // ---------------------------------------------------------------- the outcome of every refresh

  /** The replacement token that a refresh carries in this phase. */
  function Carried(phase: Phase): Option<string> {
    match phase
    case Persisting(_, next) => Some(next)
    case Written(_, next) => Some(next)
    case Settled(Renewed(token)) => Some(token)
    case Ended(Renewed(token)) => Some(token)
    case _ => None
  }

  function OutcomeOf(phase: Phase): Option<Outcome> {
    match phase
    case Settled(outcome) => Some(outcome)
    case Ended(outcome) => Some(outcome)
    case _ => None
  }

  predicate HasWritten(phase: Phase) {
    phase.Written? || (OutcomeOf(phase).Some? && OutcomeOf(phase).value.Renewed?)
  }

  ghost predicate WroteToken(s: System, key: string, next: string) {
    exists i :: 0 <= i < |s.log| && s.log[i].Replaced? && s.log[i].key == key && s.log[i].next == next
  }

  /** The phase of flight `f` is the one that its own steps led to. */
  ghost predicate Tells(steps: seq<Step>, f: nat, phase: Phase) {
    && (Carried(phase).Some? ==> FlightReceives(f, Carried(phase).value) in steps)
    && (forall next :: FlightReceives(f, next) in steps ==>
          Carried(phase) == Some(next) || OutcomeOf(phase) == Some(Failed))
    && (FlightSucceeds(f) in steps <==> OutcomeOf(phase).Some? && OutcomeOf(phase).value.Renewed?)
    && (FlightFails(f) in steps <==> OutcomeOf(phase) == Some(Failed))
    && (HasWritten(phase) ==> FlightWrites(f) in steps)
  }

  ghost predicate Explained(s: System, steps: seq<Step>, f: nat)
    requires f < |s.flights|
  {
    && Tells(steps, f, s.flights[f].phase)
    && (HasWritten(s.flights[f].phase) ==> WroteToken(s, s.flights[f].key, Carried(s.flights[f].phase).value))
  }

  /** The flight a step belongs to. */
  function FlightOf(step: Step): Option<nat> {
    match step
    case FlightReads(f) => Some(f)
    case FlightPresents(f) => Some(f)
    case FlightReceives(f, _) => Some(f)
    case FlightWrites(f) => Some(f)
    case FlightSucceeds(f) => Some(f)
    case FlightFails(f) => Some(f)
    case FlightEnds(f) => Some(f)
    case _ => None
  }

  ghost predicate StepsOfFlightsMade(s: System, steps: seq<Step>) {
    forall k :: 0 <= k < |steps| && FlightOf(steps[k]).Some? ==> FlightOf(steps[k]).value < |s.flights|
  }

  lemma LogOnlyGrows(s: System, step: Step, key: string, next: string)
    requires Enabled(s, step) && WroteToken(s, key, next)
    ensures WroteToken(Next(s, step), key, next)
  {
    var i :| 0 <= i < |s.log| && s.log[i].Replaced? && s.log[i].key == key && s.log[i].next == next;
    assert Next(s, step).log[i] == s.log[i];
  }

  lemma OthersLeaveFlight(s: System, step: Step, f: nat)
    requires Enabled(s, step) && f < |s.flights| && FlightOf(step) != Some(f)
    ensures f < |Next(s, step).flights| && Next(s, step).flights[f] == s.flights[f]
  {
  }

  lemma OthersTellTheSame(steps: seq<Step>, step: Step, f: nat, phase: Phase)
    requires Tells(steps, f, phase) && FlightOf(step) != Some(f)
    ensures Tells(steps + [step], f, phase)
  {
    assert forall other :: other in steps + [step] <==> other in steps || other == step;
  }

  /** The phase that flight `f` is in after its own step. */
  lemma OwnStepTells(s: System, steps: seq<Step>, step: Step, f: nat)
    requires Enabled(s, step) && f < |s.flights| && FlightOf(step) == Some(f) && Tells(steps, f, s.flights[f].phase)
    ensures Tells(steps + [step], f, Next(s, step).flights[f].phase)
  {
    var longer := steps + [step];
    assert longer[|steps|] == step;
    forall other ensures other in longer <==> other in steps || other == step {
    }
  }

  lemma OwnStepWrites(s: System, step: Step, f: nat)
    requires Enabled(s, step) && f < |s.flights| && FlightOf(step) == Some(f)
    requires HasWritten(s.flights[f].phase) ==> WroteToken(s, s.flights[f].key, Carried(s.flights[f].phase).value)
    ensures var t := Next(s, step);
            HasWritten(t.flights[f].phase) ==> WroteToken(t, t.flights[f].key, Carried(t.flights[f].phase).value)
  {
    var phase, t := s.flights[f].phase, Next(s, step);
    if HasWritten(phase) {
      LogOnlyGrows(s, step, s.flights[f].key, Carried(phase).value);
    }
    if step.FlightWrites? {
      assert t.log[|s.log|] == Replaced(s.flights[f].key, phase.token, phase.next);
    }
  }

  lemma OldFlightExplained(s: System, steps: seq<Step>, step: Step, f: nat)
    requires Enabled(s, step) && f < |s.flights| && Explained(s, steps, f)
    ensures f < |Next(s, step).flights| && Explained(Next(s, step), steps + [step], f)
  {
    if FlightOf(step) == Some(f) {
      OwnStepTells(s, steps, step, f);
      OwnStepWrites(s, step, f);
    } else {
      OthersLeaveFlight(s, step, f);
      OthersTellTheSame(steps, step, f, s.flights[f].phase);
      if HasWritten(s.flights[f].phase) {
        LogOnlyGrows(s, step, s.flights[f].key, Carried(s.flights[f].phase).value);
      }
    }
  }

  lemma NewFlightExplained(s: System, steps: seq<Step>, step: Step)
    requires Enabled(s, step) && StepsOfFlightsMade(s, steps) && |Next(s, step).flights| > |s.flights|
    ensures Explained(Next(s, step), steps + [step], |s.flights|)
  {
    forall k | 0 <= k < |steps + [step]| ensures FlightOf((steps + [step])[k]) != Some(|s.flights|) {
    }
  }

  lemma {:induction false} MadeAfterStep(s: System, steps: seq<Step>, step: Step)
    requires Enabled(s, step) && StepsOfFlightsMade(s, steps)
    ensures StepsOfFlightsMade(Next(s, step), steps + [step])
  {
  }

  lemma {:induction false} StepKeepsExplained(s: System, steps: seq<Step>, step: Step, f: nat)
    requires Enabled(s, step) && StepsOfFlightsMade(s, steps) && f < |Next(s, step).flights|
    requires f < |s.flights| ==> Explained(s, steps, f)
    ensures Explained(Next(s, step), steps + [step], f)
  {
    if f < |s.flights| {
      OldFlightExplained(s, steps, step, f);
    } else {
      NewFlightExplained(s, steps, step);
    }
  }

  lemma {:induction false} FlightsAlwaysExplained(store: map<string, string>, steps: seq<Step>)
    requires IsRun(store, steps)
    ensures var s := After(store, steps);
            StepsOfFlightsMade(s, steps) && forall f: nat :: f < |s.flights| ==> Explained(s, steps, f)
  {
    if steps != [] {
      var before, step := steps[..|steps| - 1], steps[|steps| - 1];
      var s := After(store, before);
      assert steps == before + [step];
      FlightsAlwaysExplained(store, before);
      MadeAfterStep(s, before, step);
      forall f: nat | f < |Next(s, step).flights| ensures Explained(Next(s, step), steps, f) {
        StepKeepsExplained(s, before, step, f);
      }
    }
  }

  /**
   * A refresh ends with the token t exactly when it received t and then succeeded, and fails exactly when one of its own
   * steps failed. A token it ends with has been written to the store under its key.
   */
  lemma {:induction false} OutcomeIsItsOwn(store: map<string, string>, steps: seq<Step>, f: nat, token: string)
    requires IsRun(store, steps) && f < |After(store, steps).flights| && After(store, steps).flights[f].phase.Ended?
    ensures var s := After(store, steps);
            var outcome := s.flights[f].phase.outcome;
            && (outcome == Renewed(token) <==> FlightReceives(f, token) in steps && FlightSucceeds(f) in steps)
            && (outcome == Failed <==> FlightFails(f) in steps)
            && (outcome == Renewed(token) ==> FlightWrites(f) in steps && WroteToken(s, s.flights[f].key, token))
  {
    FlightsAlwaysExplained(store, steps);
    assert Explained(After(store, steps), steps, f);
  }

  /** A caller performs its action again only with the token that the refresh it joined received and wrote under its key. */
  lemma {:induction false} RetriesUseTheWrittenToken(store: map<string, string>, steps: seq<Step>, c: nat)
    requires IsRun(store, steps) && c < |After(store, steps).callers|
    requires After(store, steps).callers[c].phase.PerformingAgain?
    ensures var s := After(store, steps);
            var caller := s.callers[c];
            && caller.seen.Some?
            && FlightReceives(caller.seen.value.0, caller.phase.token) in steps
            && FlightSucceeds(caller.seen.value.0) in steps
            && WroteToken(s, caller.key, caller.phase.token)
  {
    RunKeepsInv(store, steps);
    var s := After(store, steps);
    assert CallerSound(s, s.callers[c]);
    OutcomeIsItsOwn(store, steps, s.callers[c].seen.value.0, s.callers[c].phase.token);
  }

  // ---------------------------------------------------------------- where a caller's call ends

  ghost predicate CallerExplained(s: System, steps: seq<Step>, c: nat)
    requires c < |s.callers|
  {
    s.callers[c].phase.Returned? <==>
      || ActionEnds(c) in steps || CannotReadAuth(c) in steps
      || (s.callers[c].seen.Some? && s.callers[c].seen.value.1.Failed?)
  }

  /** The caller a step belongs to. */
  function CallerOf(step: Step): Option<nat> {
    match step
    case ReadsAuth(c) => Some(c)
    case CannotReadAuth(c) => Some(c)
    case ActionEnds(c) => Some(c)
    case ActionNeedsRefresh(c) => Some(c)
    case Resumes(c) => Some(c)
    case _ => None
  }

  ghost predicate StepsOfCallersArrived(s: System, steps: seq<Step>) {
    forall k :: 0 <= k < |steps| && CallerOf(steps[k]).Some? ==> CallerOf(steps[k]).value < |s.callers|
  }

  lemma CallerStepExplained(s: System, steps: seq<Step>, step: Step, c: nat)
    requires CallersSound(s) && Enabled(s, step) && StepsOfCallersArrived(s, steps) && c < |Next(s, step).callers|
    requires c < |s.callers| ==> CallerExplained(s, steps, c)
    ensures CallerExplained(Next(s, step), steps + [step], c)
  {
    assert forall other :: other in steps + [step] <==> other in steps || other == step;
    if c < |s.callers| {
      assert CallerSound(s, s.callers[c]);
    } else {
      forall k | 0 <= k < |steps + [step]| ensures CallerOf((steps + [step])[k]) != Some(c) {
      }
    }
  }

  lemma {:induction false} CallersAlwaysExplained(store: map<string, string>, steps: seq<Step>)
    requires IsRun(store, steps)
    ensures var s := After(store, steps);
            StepsOfCallersArrived(s, steps) && forall c: nat :: c < |s.callers| ==> CallerExplained(s, steps, c)
  {
    if steps != [] {
      var before, step := steps[..|steps| - 1], steps[|steps| - 1];
      var s, t := After(store, before), After(store, steps);
      assert steps == before + [step];
      RunKeepsInv(store, before);
      CallersAlwaysExplained(store, before);
      forall c: nat | c < |t.callers| ensures CallerExplained(t, steps, c) {
        CallerStepExplained(s, before, step, c);
      }
    }
  }

  /** A call has returned exactly when its action ended, its credentials could not be read, or its refresh failed. */
  lemma {:induction false} ReturnedExactlyWhenDone(store: map<string, string>, steps: seq<Step>, c: nat)
    requires IsRun(store, steps) && c < |After(store, steps).callers|
    ensures var caller := After(store, steps).callers[c];
            caller.phase.Returned? <==>
              || ActionEnds(c) in steps || CannotReadAuth(c) in steps
              || (caller.seen.Some? && caller.seen.value.1.Failed?)
  {
    CallersAlwaysExplained(store, steps);
    assert CallerExplained(After(store, steps), steps, c);
  }

  // ---------------------------------------------------------------- the store and the log

  /** The token under `key` after the replacements of the log. */
  function Current(store: map<string, string>, log: seq<Entry>, key: string): Option<string> {
    if log == [] then if key in store then Some(store[key]) else None
    else
      var e := log[|log| - 1];
      if e.Replaced? && e.key == key then Some(e.next) else Current(store, log[..|log| - 1], key)
  }

  /** Every entry of the log shows or replaces the token that was current when it was made. */
  ghost predicate Chained(store: map<string, string>, log: seq<Entry>) {
    forall i :: 0 <= i < |log| ==> Current(store, log[..i], log[i].key) == Some(log[i].token)
  }

  lemma ChainGrows(store: map<string, string>, log: seq<Entry>, e: Entry)
    requires Chained(store, log) && Current(store, log, e.key) == Some(e.token)
    ensures Chained(store, log + [e])
  {
    forall i | 0 <= i < |log + [e]|
      ensures Current(store, (log + [e])[..i], (log + [e])[i].key) == Some((log + [e])[i].token)
    {
      assert (log + [e])[..i] == log[..i];
      assert log[..|log|] == log;
    }
  }

  lemma CurrentGrows(store: map<string, string>, log: seq<Entry>, e: Entry, key: string)
    ensures Current(store, log + [e], key)
            == if e.Replaced? && e.key == key then Some(e.next) else Current(store, log, key)
  {
    assert (log + [e])[..|log|] == log;
  }

  ghost predicate StoreIsCurrent(store: map<string, string>, s: System) {
    forall key :: Current(store, s.log, key) == if key in s.store then Some(s.store[key]) else None
  }

  lemma LoggedStep(store: map<string, string>, s: System, step: Step)
    requires TokensFresh(s) && StoreIsCurrent(store, s) && Chained(store, s.log) && Enabled(s, step)
    ensures StoreIsCurrent(store, Next(s, step)) && Chained(store, Next(s, step).log)
  {
    var t := Next(s, step);
    if t.log != s.log {
      var e := t.log[|s.log|];
      assert t.log == s.log + [e];
      assert FlightFresh(s, s.flights[step.flight]);
      ChainGrows(store, s.log, e);
      forall key ensures Current(store, t.log, key) == if key in t.store then Some(t.store[key]) else None {
        CurrentGrows(store, s.log, e, key);
      }
    }
  }

  /**
   * The store always holds what the log of replacements says, and every token shown to the registry or replaced was the
   * stored one at that moment: replacements form a chain.
   */
  lemma {:induction false} ReplacementsFormAChain(store: map<string, string>, steps: seq<Step>)
    requires IsRun(store, steps)
    ensures StoreIsCurrent(store, After(store, steps)) && Chained(store, After(store, steps).log)
  {
    if steps != [] {
      ReplacementsFormAChain(store, steps[..|steps| - 1]);
      RunKeepsInv(store, steps[..|steps| - 1]);
      LoggedStep(store, After(store, steps[..|steps| - 1]), steps[|steps| - 1]);
    }
  }

  // ---------------------------------------------------------------- nothing is replaced unshown

  ghost predicate ShownBefore(log: seq<Entry>, n: nat, key: string, token: string) {
    exists i :: 0 <= i < n <= |log| && log[i] == Shown(key, token)
  }

  /** A refresh that waits for the registry, or for its writes, has shown its token. */
  ghost predicate ShowsItsToken(s: System, flight: Flight) {
    match flight.phase
    case Refreshing(token) => ShownBefore(s.log, |s.log|, flight.key, token)
    case Persisting(token, _) => ShownBefore(s.log, |s.log|, flight.key, token)
    case _ => true
  }

  ghost predicate ReplacesOnlyShown(log: seq<Entry>) {
    forall n :: 0 <= n < |log| && log[n].Replaced? ==> ShownBefore(log, n, log[n].key, log[n].token)
  }

  lemma ShownStays(log: seq<Entry>, longer: seq<Entry>, n: nat, m: nat, key: string, token: string)
    requires log <= longer && n <= m <= |longer| && ShownBefore(log, n, key, token)
    ensures ShownBefore(longer, m, key, token)
  {
    var i :| 0 <= i < n <= |log| && log[i] == Shown(key, token);
    assert longer[i] == log[i];
  }

  lemma FlightsShow(s: System, step: Step, f: nat)
    requires Enabled(s, step) && f < |Next(s, step).flights|
    requires f < |s.flights| ==> ShowsItsToken(s, s.flights[f])
    ensures ShowsItsToken(Next(s, step), Next(s, step).flights[f])
  {
    var t := Next(s, step);
    var flight := t.flights[f];
    if flight.phase.Refreshing? || flight.phase.Persisting? {
      if step == FlightPresents(f) {
        assert t.log[|s.log|] == Shown(flight.key, flight.phase.token);
      } else {
        ShownStays(s.log, t.log, |s.log|, |t.log|, flight.key, flight.phase.token);
      }
    }
  }

  lemma LogShows(s: System, step: Step)
    requires Enabled(s, step) && ReplacesOnlyShown(s.log)
    requires forall f: nat :: f < |s.flights| ==> ShowsItsToken(s, s.flights[f])
    ensures ReplacesOnlyShown(Next(s, step).log)
  {
    var t := Next(s, step);
    forall n | 0 <= n < |t.log| && t.log[n].Replaced? ensures ShownBefore(t.log, n, t.log[n].key, t.log[n].token) {
      if n < |s.log| {
        ShownStays(s.log, t.log, n, n, t.log[n].key, t.log[n].token);
      } else {
        assert ShowsItsToken(s, s.flights[step.flight]);
        ShownStays(s.log, t.log, |s.log|, n, t.log[n].key, t.log[n].token);
      }
    }
  }

  /** In every run a token is replaced only after it was shown to the registry under the same key. */
  lemma {:induction false} OnlyShownTokensAreReplaced(store: map<string, string>, steps: seq<Step>)
    requires IsRun(store, steps)
    ensures var s := After(store, steps);
            ReplacesOnlyShown(s.log) && forall f: nat :: f < |s.flights| ==> ShowsItsToken(s, s.flights[f])
  {
    if steps != [] {
      var s, step := After(store, steps[..|steps| - 1]), steps[|steps| - 1];
      OnlyShownTokensAreReplaced(store, steps[..|steps| - 1]);
      LogShows(s, step);
      forall f: nat | f < |Next(s, step).flights| ensures ShowsItsToken(Next(s, step), Next(s, step).flights[f]) {
        FlightsShow(s, step, f);
      }
    }
  }
}
