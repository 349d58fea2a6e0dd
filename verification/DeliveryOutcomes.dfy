/** Which event settles a delivery, and which sends are turned away. */
module DeliveryOutcomes {
  import opened DeliveryTransport

  // ---------------------------------------------------------------- settling

  /**
   * The event settles promise `p` with this outcome: its send throws, an acknowledgement names it while it is in the
   * table, its timer fires, or all deliveries in the table are dropped.
   */
  ghost predicate Settles(policy: Policy, t: Transport, event: Event, p: nat, outcome: Outcome) {
    match event
    case Sends(_, frameBytes, throws) =>
      && throws && |t.pending| < policy.maxInFlightDeliveries && frameBytes <= policy.maxFrameBytes
      && p == |t.deliveries| && outcome == SendFailed
    case Acks(ackId, accepted) =>
      && p < |t.deliveries| && t.deliveries[p].frameId == ackId && IsPending(t, p) && outcome == Resolved(accepted)
    case TimesOut(q) => q == p && Unsettled(t, p) && outcome == AckTimedOut
    case DropsAll(error) => p < |t.deliveries| && IsPending(t, p) && outcome == Dropped(error)
  }

  ghost predicate SettledAt(policy: Policy, events: seq<Event>, p: nat, k: nat, outcome: Outcome) {
    k < |events| && Settles(policy, Run(policy, events[..k]), events[k], p, outcome)
  }

  ghost predicate HasOutcome(t: Transport, p: nat, outcome: Outcome) {
    p < |t.deliveries| && t.deliveries[p].settled == [outcome]
  }

  lemma RunNext(policy: Policy, events: seq<Event>, k: nat, next: nat)
    requires k < |events| && next == k + 1
    ensures Run(policy, events[..next]) == Step(policy, Run(policy, events[..k]), events[k])
  {
    assert events[..next][..k] == events[..k];
  }

  lemma FirstOutcome(d: Delivery, outcome: Outcome)
    requires d.settled == []
    ensures Settle(d, outcome).settled == [outcome]
  {
  }

  lemma SendSettles(policy: Policy, t: Transport, e: Event, p: nat, outcome: Outcome)
    requires WellKept(t) && e.Sends? && (Unsettled(t, p) || p >= |t.deliveries|)
    ensures HasOutcome(Send(policy, t, e.frameId, e.frameBytes, e.throws).0, p, outcome)
            <==> Settles(policy, t, e, p, outcome)
  {
  }

  lemma AcknowledgeSettles(policy: Policy, t: Transport, ackId: string, accepted: bool, p: nat, outcome: Outcome)
    requires WellKept(t) && (Unsettled(t, p) || p >= |t.deliveries|)
    ensures HasOutcome(Acknowledge(t, ackId, accepted), p, outcome)
            <==> Settles(policy, t, Acks(ackId, accepted), p, outcome)
  {
    if Unsettled(t, p) {
      FirstOutcome(t.deliveries[p], Resolved(accepted));
    }
  }

  lemma TimeOutSettles(policy: Policy, t: Transport, q: nat, p: nat, outcome: Outcome)
    requires WellKept(t) && (Unsettled(t, p) || p >= |t.deliveries|)
    ensures HasOutcome(TimeOut(t, q), p, outcome) <==> Settles(policy, t, TimesOut(q), p, outcome)
  {
    if Unsettled(t, p) {
      FirstOutcome(t.deliveries[p], AckTimedOut);
    }
  }

  lemma RejectAllSettles(policy: Policy, t: Transport, error: string, p: nat, outcome: Outcome)
    requires WellKept(t) && (Unsettled(t, p) || p >= |t.deliveries|)
    ensures HasOutcome(RejectAll(t, error), p, outcome) <==> Settles(policy, t, DropsAll(error), p, outcome)
  {
    if Unsettled(t, p) {
      FirstOutcome(t.deliveries[p], Dropped(error));
    }
  }

  /** An event gives an open promise an outcome exactly when it settles it with that one. */
  lemma {:induction false} SettledByStep(policy: Policy, t: Transport, event: Event, p: nat, outcome: Outcome)
    requires WellKept(t) && (Unsettled(t, p) || p >= |t.deliveries|)
    ensures HasOutcome(Step(policy, t, event), p, outcome) <==> Settles(policy, t, event, p, outcome)
  {
    match event
    case Sends(frameId, frameBytes, throws) => SendSettles(policy, t, event, p, outcome);
    case Acks(ackId, accepted) => AcknowledgeSettles(policy, t, ackId, accepted, p, outcome);
    case TimesOut(q) => TimeOutSettles(policy, t, q, p, outcome);
    case DropsAll(error) => RejectAllSettles(policy, t, error, p, outcome);
  }

  lemma {:induction false} OnlyOpenPromisesSettle(policy: Policy, t: Transport, event: Event, p: nat, outcome: Outcome)
    requires WellKept(t) && Settles(policy, t, event, p, outcome)
    ensures Unsettled(t, p) || p >= |t.deliveries|
  {
  }

  lemma {:induction false} OutcomeStays(policy: Policy, events: seq<Event>, p: nat, n: nat, next: nat, outcome: Outcome)
    requires n < |events| && next == n + 1 && HasOutcome(Run(policy, events[..n]), p, outcome)
    ensures HasOutcome(Run(policy, events[..next]), p, outcome)
  {
    SettlesAtMostOnce(policy, events[..n]);
    RunNext(policy, events, n, next);
    OutcomesAreFinal(policy, Run(policy, events[..n]), events[n], p);
  }

  lemma {:induction false} StaysSettled(policy: Policy, events: seq<Event>, p: nat, m: nat, n: nat, outcome: Outcome)
    requires m <= n <= |events| && HasOutcome(Run(policy, events[..m]), p, outcome)
    ensures HasOutcome(Run(policy, events[..n]), p, outcome)
    decreases n
  {
    if m < n {
      StaysSettled(policy, events, p, m, n - 1, outcome);
      OutcomeStays(policy, events, p, n - 1, n, outcome);
    }
  }

  /** A promise that has an outcome after an event had it before, or got it from the event. */
  lemma {:induction false} OutcomeFromStep(policy: Policy, events: seq<Event>, p: nat, n: nat, next: nat, outcome: Outcome)
    requires n < |events| && next == n + 1 && HasOutcome(Run(policy, events[..next]), p, outcome)
    ensures HasOutcome(Run(policy, events[..n]), p, outcome) || SettledAt(policy, events, p, n, outcome)
  {
    var t := Run(policy, events[..n]);
    SettlesAtMostOnce(policy, events[..n]);
    RunNext(policy, events, n, next);
    if p < |t.deliveries| && t.deliveries[p].settled != [] {
      OutcomesAreFinal(policy, t, events[n], p);
    } else {
      SettledByStep(policy, t, events[n], p, outcome);
    }
  }

  lemma {:induction false} SettlerOf(policy: Policy, events: seq<Event>, n: nat, p: nat, outcome: Outcome)
    returns (k: nat)
    requires n <= |events| && HasOutcome(Run(policy, events[..n]), p, outcome)
    ensures k < n && SettledAt(policy, events, p, k, outcome)
    decreases n
  {
    assert n > 0;
    k := n - 1;
    OutcomeFromStep(policy, events, p, k, n, outcome);
    if !SettledAt(policy, events, p, k, outcome) {
      k := SettlerOf(policy, events, k, p, outcome);
    }
  }

  lemma {:induction false} SettlerSettles(policy: Policy, events: seq<Event>, p: nat, k: nat, next: nat, outcome: Outcome)
    requires next == k + 1 && SettledAt(policy, events, p, k, outcome)
    ensures HasOutcome(Run(policy, events[..next]), p, outcome)
  {
    SettlesAtMostOnce(policy, events[..k]);
    OnlyOpenPromisesSettle(policy, Run(policy, events[..k]), events[k], p, outcome);
    SettledByStep(policy, Run(policy, events[..k]), events[k], p, outcome);
    RunNext(policy, events, k, next);
  }

  /** In every run, whatever ids are reused, a promise has an outcome exactly when some event settled it with that one. */
  lemma {:induction false} SettledExactlyByItsEvent(policy: Policy, events: seq<Event>, p: nat, outcome: Outcome)
    ensures HasOutcome(Run(policy, events), p, outcome) <==> exists k: nat :: SettledAt(policy, events, p, k, outcome)
  {
    assert events[..|events|] == events;
    if HasOutcome(Run(policy, events), p, outcome) {
      var k := SettlerOf(policy, events, |events|, p, outcome);
    }
    if k: nat :| SettledAt(policy, events, p, k, outcome) {
      SettlerSettles(policy, events, p, k, k + 1, outcome);
      StaysSettled(policy, events, p, k + 1, |events|, outcome);
    }
  }

  // ---------------------------------------------------------------- sending

  /**
   * With fresh frame ids a send is turned away exactly when as many promises as the window allows are unsettled, or else
   * its frame is too large, and then changes nothing; otherwise it adds one promise for its frame, which is rejected at
   * once if the send throws and waits in the table if not.
   */
  lemma {:induction false} SendAnswersExactly(
    policy: Policy, events: seq<Event>, frameId: string, frameBytes: int, throws: bool)
    requires FreshIds(policy, events)
    ensures var t := Run(policy, events);
            var (u, answer) := Send(policy, t, frameId, frameBytes, throws);
            && (answer == WindowFull <==> |StillWaiting(t)| >= policy.maxInFlightDeliveries)
            && (answer == FrameTooLarge <==>
                  |StillWaiting(t)| < policy.maxInFlightDeliveries && frameBytes > policy.maxFrameBytes)
            && (!answer.Admitted? ==> u == t)
            && (answer.Admitted? ==>
                  && answer.delivery == |t.deliveries| == |u.deliveries| - 1
                  && u.deliveries[..answer.delivery] == t.deliveries
                  && u.deliveries[answer.delivery].frameId == frameId
                  && u.deliveries[answer.delivery].settled == (if throws then [SendFailed] else [])
                  && (IsPending(u, answer.delivery) <==> !throws))
  {
    PendingExactlyWhileUnsettled(policy, events);
    SettlesAtMostOnce(policy, events);
    PendingCountIsWaiting(Run(policy, events));
  }
}
