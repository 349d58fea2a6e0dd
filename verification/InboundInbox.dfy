/** The durable inbound inbox: two tables and a bounded event table updated in place, proved against their model. */
module InboundInbox {
  import opened Numbers
  import opened Outcomes
  import opened InboxModel

  /** The most recent `max` entries. */
  function Latest(log: seq<InboxEvent>, max: nat): (latest: seq<InboxEvent>)
    ensures |latest| == Min(|log|, max)
    ensures forall i :: 0 <= i < |latest| ==> latest[i] == log[|log| - |latest| + i]
  {
    if |log| <= max then log else log[|log| - max..]
  }

  ghost predicate Lists(ids: seq<string>, s: set<string>) {
    Distinct(ids) && forall id :: id in ids <==> id in s
  }

  class ConnectorInboundInbox {
    const caps: Caps
    const eventsMaxRows: nat
    var pending: map<string, Item>
    var dead: map<string, DeadItem>
    var events: seq<InboxEvent>
    ghost var log: seq<InboxEvent>

    ghost function View(): Inbox
      reads this
    {
      Inbox(pending, dead, log)
    }

    /** The tables are well kept, and the event table holds the latest events of the log. */
    ghost predicate Valid()
      reads this
    {
      WellKept(View()) && events == Latest(log, eventsMaxRows)
    }

    constructor (caps: Caps, eventsMaxRows: int)
      ensures Valid() && View() == EMPTY && this.caps == caps
      ensures this.eventsMaxRows == if eventsMaxRows > 1 then eventsMaxRows else 1
    {
      this.caps := caps;
      this.eventsMaxRows := if eventsMaxRows > 1 then eventsMaxRows else 1;
      pending, dead, events, log := map[], map[], [], [];
    }

    method AppendEvent(kind: Kind, requestId: string)
      requires events == Latest(log, eventsMaxRows)
      modifies this`events, this`log
      ensures log == old(log) + [InboxEvent(kind, requestId)] && events == Latest(log, eventsMaxRows)
    {
      events := events + [InboxEvent(kind, requestId)];
      log := log + [InboxEvent(kind, requestId)];
      if |events| > eventsMaxRows {
        events := events[|events| - eventsMaxRows..];
      }
    }

    /** Count and byte sum of the pending table. */
    method PendingTotals() returns (count: nat, bytes: nat)
      ensures count == |pending| && bytes == TotalBytes(pending)
    {
      count, bytes := 0, 0;
      var rest := pending;
      while rest.Keys != {}
        invariant rest.Keys <= pending.Keys
        invariant count + |rest| == |pending|
        invariant bytes + TotalBytes(rest) == TotalBytes(pending)
        decreases |rest|
      {
        var key :| key in rest.Keys;
        TotalBytesRemove(rest, key);
        count, bytes := count + 1, bytes + rest[key].payloadBytes;
        rest := rest - {key};
      }
      assert rest == map[];
    }

    method Enqueue(frame: Frame, now: string) returns (result: EnqueueResult)
      requires Valid()
      modifies this
      ensures Valid()
      ensures (View(), result) == InboxModel.Enqueue(old(View()), caps, frame, now)
    {
      var count, bytes := PendingTotals();
      if frame.id in pending || frame.id in dead {
        AppendEvent(InboundDuplicate, frame.id);
        return EnqueueResult(true, true, count, None);
      }
      var item := BuildPendingItem(frame, now);
      if count >= caps.maxMessages {
        return EnqueueResult(false, false, count, Some(MessageCapReached));
      }
      if bytes + item.payloadBytes > caps.maxBytes {
        return EnqueueResult(false, false, count, Some(ByteCapReached));
      }
      InsertPending(item);
      AppendEvent(InboundPersisted, item.requestId);
      result := EnqueueResult(true, false, count + 1, None);
    }

    /** Inserting needs the primary key to be unused; every caller guarantees it, so no transaction is rolled back. */
    method InsertPending(item: Item)
      requires item.requestId !in pending
      modifies this`pending
      ensures pending == old(pending)[item.requestId := item]
    {
      pending := pending[item.requestId := item];
    }

    method InsertDeadLetter(item: DeadItem)
      requires item.item.requestId !in dead
      modifies this`dead
      ensures dead == old(dead)[item.item.requestId := item]
    {
      dead := dead[item.item.requestId := item];
    }

    method MarkDelivered(requestId: string)
      requires Valid()
      modifies this
      ensures Valid()
      ensures View() == InboxModel.MarkDelivered(old(View()), requestId)
    {
      if requestId !in pending {
        return;
      }
      pending := pending - {requestId};
      AppendEvent(ReplaySucceeded, requestId);
    }

    method MarkReplayFailure(f: Failure, now: string) returns (movedToDeadLetter: bool)
      requires Valid()
      modifies this
      ensures Valid()
      ensures (View(), movedToDeadLetter) == InboxModel.MarkReplayFailure(old(View()), f, now)
    {
      if f.requestId !in pending {
        return false;
      }
      var entry := pending[f.requestId];
      var updated := Attempted(entry, f, now);
      if MovesToDeadLetter(entry, f) {
        pending := pending - {f.requestId};
        InsertDeadLetter(DeadItem(updated, now, f.errorMessage));
        AppendEvent(DeadLetterMoved, f.requestId);
        return true;
      }
      pending := pending[updated.requestId := updated.(nextAttemptAt := f.nextAttemptAt)];
      AppendEvent(ReplayFailed, f.requestId);
      movedToDeadLetter := false;
    }

    /** Lists the dead-letter table, each id once. */
    method DeadLetterRequestIds() returns (ids: seq<string>)
      ensures Lists(ids, dead.Keys)
    {
      ids := [];
      var rest := dead.Keys;
      while rest != {}
        invariant rest <= dead.Keys && Lists(ids, dead.Keys - rest)
        decreases rest
      {
        var id :| id in rest;
        ids, rest := ids + [id], rest - {id};
      }
    }

    /** The loop over the listed ids; ids that are not dead-lettered are skipped. */
    method ReplayListed(ids: seq<string>, now: string) returns (replayedCount: nat)
      requires Valid()
      modifies this
      ensures Valid()
      ensures View() == ReplayAll(old(View()), ids, now) && replayedCount == |log| - |old(log)|
    {
      replayedCount := 0;
      var i := 0;
      while i < |ids|
        invariant 0 <= i <= |ids| && Valid()
        invariant View() == ReplayAll(old(View()), ids[..i], now)
        invariant replayedCount == |log| - |old(log)|
      {
        assert ids[..i + 1][..i] == ids[..i];
        if ids[i] in dead {
          var item := dead[ids[i]];
          dead := dead - {ids[i]};
          InsertPending(Revived(item, now));
          replayedCount := replayedCount + 1;
          AppendEvent(DeadLetterReplayed, ids[i]);
        }
        i := i + 1;
      }
      assert ids[..i] == ids;
    }

    method ReplayDeadLetter(requestIds: Option<seq<string>>, now: string) returns (replayedCount: nat)
      requires Valid()
      modifies this
      ensures Valid()
      ensures requestIds.Some? ==>
                var ids := SanitizeRequestIds(requestIds.value);
                View() == ReplayAll(old(View()), ids, now) && replayedCount == |Targets(old(View()), ids)|
      ensures requestIds.None? ==>
                && (exists ids :: Lists(ids, old(dead.Keys)) && View() == ReplayAll(old(View()), ids, now))
                && replayedCount == |old(dead)| && dead == map[]
    {
      var ids: seq<string>;
      if requestIds.Some? {
        ids := SanitizeRequestIds(requestIds.value);
      } else {
        ids := DeadLetterRequestIds();
      }
      replayedCount := ReplayListed(ids, now);
      ReplayAllMovesTargets(old(View()), ids, now);
      if requestIds.None? {
        assert Targets(old(View()), ids) == old(dead).Keys;
        assert dead == map[];
      }
    }

    /** The loop over the listed ids; ids that are not dead-lettered are skipped. */
    method PurgeListed(ids: seq<string>) returns (purgedCount: nat)
      requires Valid()
      modifies this
      ensures Valid()
      ensures View() == PurgeAll(old(View()), ids) && purgedCount == |log| - |old(log)|
    {
      purgedCount := 0;
      var i := 0;
      while i < |ids|
        invariant 0 <= i <= |ids| && Valid()
        invariant View() == PurgeAll(old(View()), ids[..i])
        invariant purgedCount == |log| - |old(log)|
      {
        assert ids[..i + 1][..i] == ids[..i];
        if ids[i] in dead {
          dead := dead - {ids[i]};
          purgedCount := purgedCount + 1;
          AppendEvent(DeadLetterPurged, ids[i]);
        }
        i := i + 1;
      }
      assert ids[..i] == ids;
    }

    method PurgeDeadLetter(requestIds: Option<seq<string>>) returns (purgedCount: nat)
      requires Valid()
      modifies this
      ensures Valid()
      ensures requestIds.Some? ==>
                var ids := SanitizeRequestIds(requestIds.value);
                View() == PurgeAll(old(View()), ids) && purgedCount == |Targets(old(View()), ids)|
      ensures requestIds.None? ==>
                && (exists ids :: Lists(ids, old(dead.Keys)) && View() == PurgeAll(old(View()), ids))
                && purgedCount == |old(dead)| && dead == map[]
    {
      var ids: seq<string>;
      if requestIds.Some? {
        ids := SanitizeRequestIds(requestIds.value);
      } else {
        ids := DeadLetterRequestIds();
      }
      purgedCount := PurgeListed(ids);
      PurgeAllRemovesTargets(old(View()), ids);
      if requestIds.None? {
        assert Targets(old(View()), ids) == old(dead).Keys;
        assert dead == map[];
      }
    }
  }
}
