/** The relay session's alarm: aimed at the next delivery attempt or heartbeat, whichever comes first. */
module RelayAlarm {
  import opened Numbers
  import opened Outcomes
  import opened RelayQueue

  const RELAY_HEARTBEAT_INTERVAL_MS := 30_000

  /** Storage may lack the operation that clears an alarm. */
  class AlarmStorage {
    const canDelete: bool
    var alarm: Option<int>

    constructor (canDelete: bool)
      ensures this.canDelete == canDelete && alarm == None
    {
      this.canDelete := canDelete;
      alarm := None;
    }
  }

  /** `alarm` is the time at which the session must wake up, or None if nothing needs it. */
  ghost predicate IsDue(deliveries: seq<Delivery>, now: int, hasActiveSockets: bool, alarm: Option<int>) {
    && (alarm.None? <==> deliveries == [] && !hasActiveSockets)
    && (alarm.Some? ==>
          && alarm.value > now
          && (forall i :: 0 <= i < |deliveries| ==> alarm.value <= Max(now + 1, deliveries[i].nextAttemptAtMs))
          && (hasActiveSockets ==> alarm.value <= now + RELAY_HEARTBEAT_INTERVAL_MS)
          && ((hasActiveSockets && alarm.value == now + RELAY_HEARTBEAT_INTERVAL_MS)
              || exists i :: 0 <= i < |deliveries| && alarm.value == Max(now + 1, deliveries[i].nextAttemptAtMs)))
  }

  /** The conditions leave no choice of alarm. */
  lemma DueIsUnique(deliveries: seq<Delivery>, now: int, hasActiveSockets: bool, a: Option<int>, b: Option<int>)
    requires IsDue(deliveries, now, hasActiveSockets, a) && IsDue(deliveries, now, hasActiveSockets, b)
    ensures a == b
  {
  }

  method Least(candidates: seq<int>) returns (least: int)
    requires candidates != []
    ensures least in candidates && forall i :: 0 <= i < |candidates| ==> least <= candidates[i]
  {
    least := candidates[0];
    for i := 1 to |candidates|
      invariant least in candidates && forall j :: 0 <= j < i ==> least <= candidates[j]
    {
      if candidates[i] < least {
        least := candidates[i];
      }
    }
  }

  method ScheduleNextRelayAlarm(storage: AlarmStorage, deliveries: seq<Delivery>, now: int, hasActiveSockets: bool)
    modifies storage`alarm
    ensures deliveries != [] || hasActiveSockets || storage.canDelete ==>
              IsDue(deliveries, now, hasActiveSockets, storage.alarm)
    ensures deliveries == [] && !hasActiveSockets && !storage.canDelete ==> storage.alarm == old(storage.alarm)
  {
    var candidates: seq<int> := [];
    var wake := FindNextQueueWakeMs(deliveries, now);
    if wake.Some? {
      candidates := candidates + [wake.value];
    }
    if hasActiveSockets {
      candidates := candidates + [now + RELAY_HEARTBEAT_INTERVAL_MS];
    }
    if |candidates| == 0 {
      if storage.canDelete {
        storage.alarm := None;
      }
      return;
    }
    var least := Least(candidates);
    storage.alarm := Some(least);
    if wake.Some? {
      assert candidates[0] == wake.value;
    }
    if hasActiveSockets {
      assert candidates[|candidates| - 1] == now + RELAY_HEARTBEAT_INTERVAL_MS;
    }
  }

  /** The alarm that is due comes no later than any delivery's attempt time, or in the next millisecond if one is overdue. */
  lemma NoAttemptIsSleptThrough(deliveries: seq<Delivery>, now: int, hasActiveSockets: bool, alarm: Option<int>, i: nat)
    requires IsDue(deliveries, now, hasActiveSockets, alarm) && i < |deliveries|
    ensures alarm.Some?
    ensures deliveries[i].nextAttemptAtMs > now ==> alarm.value <= deliveries[i].nextAttemptAtMs
    ensures deliveries[i].nextAttemptAtMs <= now ==> alarm.value == now + 1
  {
  }

  /** With sockets to keep alive the session wakes within thirty seconds, and without deliveries after exactly that. */
  lemma HeartbeatIsNotSleptThrough(deliveries: seq<Delivery>, now: int, alarm: Option<int>)
    requires IsDue(deliveries, now, true, alarm)
    ensures alarm.Some? && now < alarm.value <= now + 30_000
    ensures deliveries == [] ==> alarm.value == now + 30_000
  {
  }
}
