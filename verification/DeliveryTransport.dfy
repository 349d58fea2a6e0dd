/**
 * Frames sent to a connector and waiting for its acknowledgement. A send creates a promise and a timer; the promise
 * is settled by an acknowledgement, by its timer, by a failing send, or when all pending deliveries are dropped.
 */
module DeliveryTransport {

  datatype Policy = Policy(maxInFlightDeliveries: int, maxFrameBytes: int)

  datatype Outcome = Resolved(accepted: bool) | AckTimedOut | SendFailed | Dropped(error: string)

  /** One admitted send: its frame, its timer, and every call made to its promise's resolve and reject. */
  datatype Delivery = Delivery(frameId: string, timerArmed: bool, settled: seq<Outcome>)

  datatype Transport = Transport(pending: map<string, nat>, deliveries: seq<Delivery>)

  datatype SendAnswer = WindowFull | FrameTooLarge | Admitted(delivery: nat)

  const EMPTY := Transport(map[], [])

  function Settle(d: Delivery, outcome: Outcome): Delivery {
    d.(timerArmed := false, settled := d.settled + [outcome])
  }

  function SettleAt(deliveries: seq<Delivery>, p: nat, outcome: Outcome): seq<Delivery>
    requires p < |deliveries|
  {
    deliveries[p := Settle(deliveries[p], outcome)]
  }

  /** Every entry points at the delivery that carries its frame id. */
  ghost predicate Sound(t: Transport) {
    forall id :: id in t.pending ==> t.pending[id] < |t.deliveries| && t.deliveries[t.pending[id]].frameId == id
  }

  predicate IsPending(t: Transport, p: nat)
    requires p < |t.deliveries|
  {
    t.deliveries[p].frameId in t.pending && t.pending[t.deliveries[p].frameId] == p
  }

  function Send(policy: Policy, t: Transport, frameId: string, frameBytes: int, throws: bool): (Transport, SendAnswer) {
    if |t.pending| >= policy.maxInFlightDeliveries then (t, WindowFull)
    else if frameBytes > policy.maxFrameBytes then (t, FrameTooLarge)
    else if throws then
      (Transport(t.pending - {frameId}, t.deliveries + [Delivery(frameId, false, [SendFailed])]), Admitted(|t.deliveries|))
    else
      (Transport(t.pending[frameId := |t.deliveries|], t.deliveries + [Delivery(frameId, true, [])]),
       Admitted(|t.deliveries|))
  }

  function Acknowledge(t: Transport, ackId: string, accepted: bool): Transport {
    if ackId in t.pending && t.pending[ackId] < |t.deliveries|
    then Transport(t.pending - {ackId}, SettleAt(t.deliveries, t.pending[ackId], Resolved(accepted)))
    else t
  }

  /** A timer that was cleared, or has fired before, does not fire. */
  function TimeOut(t: Transport, p: nat): Transport {
    if p < |t.deliveries| && t.deliveries[p].timerArmed
    then Transport(t.pending - {t.deliveries[p].frameId}, SettleAt(t.deliveries, p, AckTimedOut))
    else t
  }

  ghost function RejectAll(t: Transport, error: string): Transport {
    Transport(map[], seq(|t.deliveries|, p requires 0 <= p < |t.deliveries| =>
      if IsPending(t, p) then Settle(t.deliveries[p], Dropped(error)) else t.deliveries[p]))
  }

  /** `t` is `before` with those of its pending deliveries dropped that are no longer in the table. */
  ghost predicate PartlyRejected(before: Transport, t: Transport, error: string) {
    && Sound(t) && |t.deliveries| == |before.deliveries|
    && t.pending.Keys <= before.pending.Keys
    && (forall id :: id in t.pending ==> t.pending[id] == before.pending[id])
    && (forall p: nat :: p < |t.deliveries| ==> t.deliveries[p].frameId == before.deliveries[p].frameId)
    && (forall p: nat :: p < |t.deliveries| ==>
          t.deliveries[p] == if IsPending(before, p) && !IsPending(t, p)
                             then Settle(before.deliveries[p], Dropped(error)) else before.deliveries[p])
  }

  lemma RejectOne(before: Transport, t: Transport, id: string, error: string)
    requires PartlyRejected(before, t, error) && id in t.pending
    ensures PartlyRejected(before, Transport(t.pending - {id}, SettleAt(t.deliveries, t.pending[id], Dropped(error))), error)
  {
  }

  class RelayDeliveryTransport {
    const policy: Policy
    var pendingDeliveries: map<string, nat>
    var deliveries: seq<Delivery>

    ghost function View(): Transport
      reads this
    {
      Transport(pendingDeliveries, deliveries)
    }

    constructor (policy: Policy)
      ensures View() == EMPTY && this.policy == policy
    {
      this.policy := policy;
      pendingDeliveries, deliveries := map[], [];
    }

    method SendDeliverFrame(frameId: string, frameBytes: int, throws: bool) returns (answer: SendAnswer)
      modifies this
      ensures (View(), answer) == Send(policy, old(View()), frameId, frameBytes, throws)
    {
      if |pendingDeliveries| >= policy.maxInFlightDeliveries {
        return WindowFull;
      }
      if frameBytes > policy.maxFrameBytes {
        return FrameTooLarge;
      }
      var promise := |deliveries|;
      deliveries := deliveries + [Delivery(frameId, true, [])];
      pendingDeliveries := pendingDeliveries[frameId := promise];
      if throws {
        deliveries := deliveries[promise := Settle(deliveries[promise], SendFailed)];
        pendingDeliveries := pendingDeliveries - {frameId};
        assert pendingDeliveries == old(pendingDeliveries) - {frameId};
        assert deliveries[promise].settled == [SendFailed];
        assert deliveries == old(deliveries) + [Delivery(frameId, false, [SendFailed])];
      }
      answer := Admitted(promise);
    }

    method ResolveDeliverAck(ackId: string, accepted: bool)
      requires Sound(View())
      modifies this
      ensures View() == Acknowledge(old(View()), ackId, accepted)
    {
      if ackId !in pendingDeliveries {
        return;
      }
      var promise := pendingDeliveries[ackId];
      pendingDeliveries := pendingDeliveries - {ackId};
      deliveries := SettleAt(deliveries, promise, Resolved(accepted));
    }

    method OnTimeout(promise: nat)
      requires promise < |deliveries| && deliveries[promise].timerArmed
      modifies this
      ensures View() == TimeOut(old(View()), promise)
    {
      pendingDeliveries := pendingDeliveries - {deliveries[promise].frameId};
      deliveries := SettleAt(deliveries, promise, AckTimedOut);
    }

    method RejectPending(error: string)
      requires Sound(View())
      modifies this
      ensures View() == RejectAll(old(View()), error)
    {
      ghost var before := View();
      while pendingDeliveries != map[]
        invariant PartlyRejected(before, View(), error)
        decreases pendingDeliveries.Keys
      {
        var id :| id in pendingDeliveries;
        RejectOne(before, View(), id, error);
        deliveries := SettleAt(deliveries, pendingDeliveries[id], Dropped(error));
        pendingDeliveries := pendingDeliveries - {id};
      }
    }
  }

  // ---------------------------------------------------------------- runs

  datatype Event =
    | Sends(frameId: string, frameBytes: int, throws: bool)
    | Acks(ackId: string, accepted: bool)
    | TimesOut(delivery: nat)
    | DropsAll(error: string)

  ghost function Step(policy: Policy, t: Transport, event: Event): Transport {
    match event
    case Sends(frameId, frameBytes, throws) => Send(policy, t, frameId, frameBytes, throws).0
    case Acks(ackId, accepted) => Acknowledge(t, ackId, accepted)
    case TimesOut(p) => TimeOut(t, p)
    case DropsAll(error) => RejectAll(t, error)
  }

  ghost function Run(policy: Policy, events: seq<Event>): Transport {
    if events == [] then EMPTY else Step(policy, Run(policy, events[..|events| - 1]), events[|events| - 1])
  }

  ghost predicate Unsettled(t: Transport, p: nat) {
    p < |t.deliveries| && t.deliveries[p].settled == []
  }

  /** Holds whatever frame ids are used: nothing settles twice, and exactly the unsettled wait with an armed timer. */
  ghost predicate WellKept(t: Transport) {
    && Sound(t)
    && (forall id :: id in t.pending ==> Unsettled(t, t.pending[id]))
    && (forall p: nat :: p < |t.deliveries| ==>
          |t.deliveries[p].settled| <= 1 && (t.deliveries[p].timerArmed <==> t.deliveries[p].settled == []))
  }

  /** The table holds exactly the deliveries whose promise is not settled. */
  ghost predicate Exact(t: Transport) {
    forall p: nat :: p < |t.deliveries| ==> (IsPending(t, p) <==> t.deliveries[p].settled == [])
  }

  lemma SendKeepsWell(policy: Policy, t: Transport, frameId: string, frameBytes: int, throws: bool)
    requires WellKept(t)
    ensures WellKept(Send(policy, t, frameId, frameBytes, throws).0)
  {
  }

  lemma SettlingKeepsWell(t: Transport, p: nat, outcome: Outcome)
    requires WellKept(t) && Unsettled(t, p)
    ensures WellKept(Transport(t.pending - {t.deliveries[p].frameId}, SettleAt(t.deliveries, p, outcome)))
  {
  }

  lemma RejectAllKeepsWell(t: Transport, error: string)
    requires WellKept(t)
    ensures WellKept(RejectAll(t, error))
  {
  }

  lemma {:induction false} StepKeepsWell(policy: Policy, t: Transport, event: Event)
    requires WellKept(t)
    ensures WellKept(Step(policy, t, event))
  {
    match event
    case Sends(frameId, frameBytes, throws) => SendKeepsWell(policy, t, frameId, frameBytes, throws);
    case Acks(ackId, accepted) =>
      if ackId in t.pending {
        SettlingKeepsWell(t, t.pending[ackId], Resolved(accepted));
      }
    case TimesOut(p) =>
      if p < |t.deliveries| && t.deliveries[p].timerArmed {
        SettlingKeepsWell(t, p, AckTimedOut);
      }
    case DropsAll(error) => RejectAllKeepsWell(t, error);
  }

  /**
   * In every run, whatever ids are reused, each promise is settled at most once and is unsettled exactly while its
   * timer is armed.
   */
  lemma {:induction false} SettlesAtMostOnce(policy: Policy, events: seq<Event>)
    ensures WellKept(Run(policy, events))
  {
    if events != [] {
      SettlesAtMostOnce(policy, events[..|events| - 1]);
      StepKeepsWell(policy, Run(policy, events[..|events| - 1]), events[|events| - 1]);
    }
  }

  ghost predicate ReusesPendingId(policy: Policy, t: Transport, event: Event) {
    && event.Sends? && event.frameId in t.pending
    && Send(policy, t, event.frameId, event.frameBytes, event.throws).1.Admitted?
  }

  /** A step loses track of an unsettled promise exactly when it admits a frame id that is still pending. */
  lemma ExactUnlessReused(policy: Policy, t: Transport, event: Event)
    requires WellKept(t) && Exact(t)
    ensures Exact(Step(policy, t, event)) <==> !ReusesPendingId(policy, t, event)
  {
    var u := Step(policy, t, event);
    if ReusesPendingId(policy, t, event) {
      var p := t.pending[event.frameId];
      assert Unsettled(t, p) && u.deliveries[p] == t.deliveries[p];
    } else {
      ExactWhenFresh(policy, t, event);
    }
  }

  lemma SendStaysExact(policy: Policy, t: Transport, frameId: string, frameBytes: int, throws: bool)
    requires WellKept(t) && Exact(t) && !ReusesPendingId(policy, t, Sends(frameId, frameBytes, throws))
    ensures Exact(Send(policy, t, frameId, frameBytes, throws).0)
  {
  }

  lemma SettlingStaysExact(t: Transport, p: nat, outcome: Outcome)
    requires WellKept(t) && Exact(t) && Unsettled(t, p)
    ensures Exact(Transport(t.pending - {t.deliveries[p].frameId}, SettleAt(t.deliveries, p, outcome)))
  {
  }

  lemma RejectAllStaysExact(t: Transport, error: string)
    requires Exact(t)
    ensures Exact(RejectAll(t, error))
  {
  }

  lemma ExactWhenFresh(policy: Policy, t: Transport, event: Event)
    requires WellKept(t) && Exact(t) && !ReusesPendingId(policy, t, event)
    ensures Exact(Step(policy, t, event))
  {
    match event
    case Sends(frameId, frameBytes, throws) => SendStaysExact(policy, t, frameId, frameBytes, throws);
    case Acks(ackId, accepted) =>
      if ackId in t.pending {
        SettlingStaysExact(t, t.pending[ackId], Resolved(accepted));
      }
    case TimesOut(p) =>
      if p < |t.deliveries| && t.deliveries[p].timerArmed {
        SettlingStaysExact(t, p, AckTimedOut);
      }
    case DropsAll(error) => RejectAllStaysExact(t, error);
  }

  ghost predicate FreshIds(policy: Policy, events: seq<Event>) {
    forall k: nat :: k < |events| ==> !ReusesPendingId(policy, Run(policy, events[..k]), events[k])
  }

  lemma {:induction false} FreshPrefix(policy: Policy, events: seq<Event>)
    requires FreshIds(policy, events) && events != []
    ensures FreshIds(policy, events[..|events| - 1])
    ensures !ReusesPendingId(policy, Run(policy, events[..|events| - 1]), events[|events| - 1])
  {
    var prefix := events[..|events| - 1];
    forall k: nat | k < |prefix|
      ensures !ReusesPendingId(policy, Run(policy, prefix[..k]), prefix[k])
    {
      assert prefix[..k] == events[..k];
    }
  }

  /** With fresh frame ids a promise is unsettled exactly while its frame id is pending, in every interleaving. */
  lemma {:induction false} PendingExactlyWhileUnsettled(policy: Policy, events: seq<Event>)
    requires FreshIds(policy, events)
    ensures Exact(Run(policy, events))
  {
    if events != [] {
      FreshPrefix(policy, events);
      PendingExactlyWhileUnsettled(policy, events[..|events| - 1]);
      SettlesAtMostOnce(policy, events[..|events| - 1]);
      ExactUnlessReused(policy, Run(policy, events[..|events| - 1]), events[|events| - 1]);
    }
  }

  // ---------------------------------------------------------------- counting

  ghost function UpTo(n: nat): (numbers: set<nat>)
    ensures |numbers| == n
    ensures forall p: nat :: p in numbers <==> p < n
  {
    if n == 0 then {} else UpTo(n - 1) + {n - 1}
  }

  ghost function Indices(t: Transport): set<nat> {
    UpTo(|t.deliveries|)
  }

  ghost function StillWaiting(t: Transport): set<nat> {
    set p | p in Indices(t) && t.deliveries[p].settled == []
  }

  ghost function ResolvedOnes(t: Transport): set<nat> {
    set p | p in Indices(t) && t.deliveries[p].settled != [] && t.deliveries[p].settled[0].Resolved?
  }

  ghost function RejectedOnes(t: Transport): set<nat> {
    set p | p in Indices(t) && t.deliveries[p].settled != [] && !t.deliveries[p].settled[0].Resolved?
  }

  lemma {:induction false} SameSize(entries: map<string, nat>, targets: set<nat>)
    requires forall id, other :: id in entries && other in entries && entries[id] == entries[other] ==> id == other
    requires targets == Pointed(entries)
    ensures |entries| == |targets|
    decreases entries.Keys
  {
    if id :| id in entries {
      var rest := entries - {id};
      PointedRest(entries, id);
      SameSize(rest, targets - {entries[id]});
      RemovedKey(entries, id);
    }
  }

  ghost function Pointed(entries: map<string, nat>): set<nat> {
    set id | id in entries :: entries[id]
  }

  lemma PointedRest(entries: map<string, nat>, id: string)
    requires id in entries && forall other :: other in entries && entries[id] == entries[other] ==> id == other
    ensures Pointed(entries - {id}) == Pointed(entries) - {entries[id]}
  {
    var rest := entries - {id};
    forall p | p in Pointed(entries) && p != entries[id] ensures p in Pointed(rest) {
      var other :| other in entries && entries[other] == p;
      assert other in rest && rest[other] == p;
    }
  }

  lemma RemovedKey(entries: map<string, nat>, id: string)
    requires id in entries
    ensures |entries| == |entries - {id}| + 1
  {
  }

  lemma PendingCountIsWaiting(t: Transport)
    requires WellKept(t) && Exact(t)
    ensures |t.pending| == |StillWaiting(t)|
  {
    forall p | p in StillWaiting(t)
      ensures p in Pointed(t.pending)
    {
      assert IsPending(t, p);
    }
    assert Pointed(t.pending) == StillWaiting(t);
    SameSize(t.pending, StillWaiting(t));
  }

  lemma {:induction false} PartsAreAll(t: Transport)
    ensures Indices(t) == StillWaiting(t) + ResolvedOnes(t) + RejectedOnes(t)
  {
  }

  lemma {:induction false} PartsAreDisjoint(t: Transport)
    ensures StillWaiting(t) !! ResolvedOnes(t) && (StillWaiting(t) + ResolvedOnes(t)) !! RejectedOnes(t)
  {
  }

  lemma {:induction false} EveryDeliveryIsCountedOnce(t: Transport)
    ensures |t.deliveries| == |StillWaiting(t)| + |ResolvedOnes(t)| + |RejectedOnes(t)|
  {
    PartsAreAll(t);
    PartsAreDisjoint(t);
    ThreeParts(Indices(t), StillWaiting(t), ResolvedOnes(t), RejectedOnes(t));
  }

  lemma ThreeParts(all: set<nat>, a: set<nat>, b: set<nat>, c: set<nat>)
    requires all == a + b + c && a !! b && (a + b) !! c
    ensures |all| == |a| + |b| + |c|
  {
    assert |a + b| == |a| + |b|;
  }

  /** With fresh frame ids every admitted send is pending, resolved or rejected, and the counts add up. */
  lemma {:induction false} AdmittedIsPendingResolvedOrRejected(policy: Policy, events: seq<Event>)
    requires FreshIds(policy, events)
    ensures var t := Run(policy, events);
            |t.deliveries| == |t.pending| + |ResolvedOnes(t)| + |RejectedOnes(t)|
  {
    var t := Run(policy, events);
    PendingExactlyWhileUnsettled(policy, events);
    SettlesAtMostOnce(policy, events);
    PendingCountIsWaiting(t);
    EveryDeliveryIsCountedOnce(t);
  }

  ghost function Window(policy: Policy): nat {
    if policy.maxInFlightDeliveries > 0 then policy.maxInFlightDeliveries else 0
  }

  lemma WindowStep(policy: Policy, t: Transport, event: Event)
    requires |t.pending| <= Window(policy)
    ensures |Step(policy, t, event).pending| <= Window(policy)
  {
  }

  /** The table never exceeds the in-flight window, in any run and with any ids. */
  lemma {:induction false} WindowIsRespected(policy: Policy, events: seq<Event>)
    ensures |Run(policy, events).pending| <= Window(policy)
  {
    if events != [] {
      WindowIsRespected(policy, events[..|events| - 1]);
      WindowStep(policy, Run(policy, events[..|events| - 1]), events[|events| - 1]);
    }
  }

  /** With fresh frame ids no more promises than the window are ever unsettled at once. */
  lemma {:induction false} UnsettledFitTheWindow(policy: Policy, events: seq<Event>)
    requires FreshIds(policy, events)
    ensures |StillWaiting(Run(policy, events))| <= Window(policy)
  {
    PendingExactlyWhileUnsettled(policy, events);
    SettlesAtMostOnce(policy, events);
    PendingCountIsWaiting(Run(policy, events));
    WindowIsRespected(policy, events);
  }

  // ---------------------------------------------------------------- outcomes

  /** A settled promise keeps its outcome for good. */
  lemma OutcomesAreFinal(policy: Policy, t: Transport, event: Event, p: nat)
    requires WellKept(t) && p < |t.deliveries| && t.deliveries[p].settled != []
    ensures p < |Step(policy, t, event).deliveries|
    ensures Step(policy, t, event).deliveries[p] == t.deliveries[p]
  {
  }

  ghost predicate AckedAt(policy: Policy, events: seq<Event>, p: nat, accepted: bool, k: nat) {
    && k < |events| && events[k].Acks? && events[k].accepted == accepted
    && var t := Run(policy, events[..k]);
       p < |t.deliveries| && t.deliveries[p].frameId == events[k].ackId && IsPending(t, p)
  }

  lemma ResolvedNow(policy: Policy, t: Transport, event: Event, p: nat)
    requires WellKept(t)
    requires p < |Step(policy, t, event).deliveries|
    requires Step(policy, t, event).deliveries[p].settled != [] && Step(policy, t, event).deliveries[p].settled[0].Resolved?
    requires Unsettled(t, p) || p >= |t.deliveries|
    ensures p < |t.deliveries| && event.Acks? && t.deliveries[p].frameId == event.ackId && IsPending(t, p)
    ensures Step(policy, t, event).deliveries[p].settled == [Resolved(event.accepted)]
  {
    match event
    case Sends(_, _, _) => assert false;
    case Acks(ackId, accepted) =>
    case TimesOut(q) => assert false;
    case DropsAll(error) => assert false;
  }

  /** A promise resolves only with the answer of an acknowledgement that named its frame while it was pending. */
  lemma {:induction false} ResolvedByItsOwnAck(policy: Policy, events: seq<Event>, p: nat) returns (k: nat)
    requires p < |Run(policy, events).deliveries|
    requires Run(policy, events).deliveries[p].settled != [] && Run(policy, events).deliveries[p].settled[0].Resolved?
    ensures AckedAt(policy, events, p, Run(policy, events).deliveries[p].settled[0].accepted, k)
  {
    var last := |events| - 1;
    var before := events[..last];
    var t := Run(policy, before);
    SettlesAtMostOnce(policy, before);
    if p < |t.deliveries| && t.deliveries[p].settled != [] {
      OutcomesAreFinal(policy, t, events[last], p);
      k := ResolvedByItsOwnAck(policy, before, p);
      assert before[..k] == events[..k];
    } else {
      ResolvedNow(policy, t, events[last], p);
      k := last;
    }
  }

  /** Reusing a pending id lets an old timer drop the newer delivery from the table, so its acknowledgement is lost. */
  lemma ReusedIdLosesAnAck(policy: Policy, id: string, one: nat)
    requires policy == Policy(2, 10) && one == 1
    ensures
      var t := Run(policy, [Sends(id, one, false), Sends(id, one, false), TimesOut(0), Acks(id, true)]);
      t == Transport(map[], [Delivery(id, false, [AckTimedOut]), Delivery(id, true, [])]) && !Exact(t)
  {
    var events := [Sends(id, one, false), Sends(id, one, false), TimesOut(0), Acks(id, true)];
    var t1 := Step(policy, EMPTY, events[0]);
    var t2 := Step(policy, t1, events[1]);
    var t3 := Step(policy, t2, events[2]);
    var t4 := Step(policy, t3, events[3]);
    RunOfFour(policy, events[0], events[1], events[2], events[3]);
    assert t1 == Transport(map[id := 0], [Delivery(id, true, [])]);
    assert t2 == Transport(map[id := 1], [Delivery(id, true, []), Delivery(id, true, [])]);
    assert t3.pending == map[];
    assert t3.deliveries[0] == Delivery(id, false, [AckTimedOut]);
    assert t3.deliveries == [Delivery(id, false, [AckTimedOut]), Delivery(id, true, [])];
    assert t4 == t3;
    assert t4.deliveries[1].settled == [] && !IsPending(t4, 1);
  }

  lemma RunOfFour(policy: Policy, a: Event, b: Event, c: Event, d: Event)
    ensures Run(policy, [a, b, c, d]) == Step(policy, Step(policy, Step(policy, Step(policy, EMPTY, a), b), c), d)
  {
    var events := [a, b, c, d];
    assert events[..3] == [a, b, c] && [a, b, c][..2] == [a, b] && [a, b][..1] == [a] && [a][..0] == [];
    assert Run(policy, [a]) == Step(policy, EMPTY, a);
    assert Run(policy, [a, b]) == Step(policy, Run(policy, [a]), b);
    assert Run(policy, [a, b, c]) == Step(policy, Run(policy, [a, b]), c);
  }
}
