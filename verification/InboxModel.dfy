/** What each call of the durable inbound inbox does to its two tables and its event log, as functions on values. */
module InboxModel {
  import opened Outcomes
  import opened Text
  import opened Totals

  /** An inbound frame. `payloadBytes` is the byte length of the serialized payload. */
  datatype Frame = Frame(
    id: string,
    fromAgentDid: string,
    toAgentDid: string,
    groupId: Option<string>,
    payload: string,
    payloadBytes: nat,
    conversationId: Option<string>,
    replyTo: Option<string>)

  datatype Item = Item(
    requestId: string,
    fromAgentDid: string,
    toAgentDid: string,
    groupId: Option<string>,
    payload: string,
    payloadBytes: nat,
    receivedAt: string,
    nextAttemptAt: string,
    attemptCount: nat,
    conversationId: Option<string>,
    replyTo: Option<string>,
    lastError: Option<string>,
    lastAttemptAt: Option<string>)

  datatype DeadItem = DeadItem(item: Item, deadLetteredAt: string, reason: string)

  datatype Kind =
    | InboundPersisted
    | InboundDuplicate
    | ReplaySucceeded
    | ReplayFailed
    | DeadLetterMoved
    | DeadLetterReplayed
    | DeadLetterPurged

  datatype InboxEvent = InboxEvent(kind: Kind, requestId: string)

  /** The pending and dead-letter tables, keyed by request id, and every event ever appended. */
  datatype Inbox = Inbox(pending: map<string, Item>, dead: map<string, DeadItem>, log: seq<InboxEvent>)

  const EMPTY := Inbox(map[], map[], [])

  datatype Caps = Caps(maxMessages: int, maxBytes: int)

  datatype Rejection = MessageCapReached | ByteCapReached

  datatype EnqueueResult = EnqueueResult(accepted: bool, duplicate: bool, pendingCount: nat, reason: Option<Rejection>)

  datatype Failure = Failure(
    requestId: string,
    errorMessage: string,
    maxNonRetryableAttempts: int,
    nextAttemptAt: string,
    retryable: bool)

  // ---------------------------------------------------------------- totals

  function Sizes(items: map<string, Item>): map<string, nat> {
    map key | key in items :: items[key].payloadBytes
  }

  /** The sum of payload sizes over a table. */
  ghost function TotalBytes(items: map<string, Item>): nat {
    Sum(Sizes(items))
  }

  lemma TotalBytesRemove(items: map<string, Item>, key: string)
    requires key in items
    ensures TotalBytes(items) == items[key].payloadBytes + TotalBytes(items - {key})
  {
    SumRemove(Sizes(items), key);
    assert Sizes(items - {key}) == Sizes(items) - {key};
  }

  lemma TotalBytesInsert(items: map<string, Item>, key: string, item: Item)
    requires key !in items
    ensures TotalBytes(items[key := item]) == TotalBytes(items) + item.payloadBytes
  {
    SumInsert(Sizes(items), key, item.payloadBytes);
    assert Sizes(items[key := item]) == Sizes(items)[key := item.payloadBytes];
  }

  lemma TotalBytesUpdate(items: map<string, Item>, key: string, item: Item)
    requires key in items && items[key].payloadBytes == item.payloadBytes
    ensures TotalBytes(items[key := item]) == TotalBytes(items)
  {
    assert Sizes(items[key := item]) == Sizes(items);
  }

  // ---------------------------------------------------------------- calls

  function NonEmpty(field: Option<string>): Option<string> {
    if field.Some? && Trim(field.value) != "" then Some(Trim(field.value)) else None
  }

  function BuildPendingItem(frame: Frame, now: string): Item {
    Item(frame.id, frame.fromAgentDid, frame.toAgentDid, NonEmpty(frame.groupId), frame.payload, frame.payloadBytes,
         now, now, 0, NonEmpty(frame.conversationId), NonEmpty(frame.replyTo), None, None)
  }

  function Append(s: Inbox, kind: Kind, requestId: string): Inbox {
    s.(log := s.log + [InboxEvent(kind, requestId)])
  }

  ghost function Enqueue(s: Inbox, caps: Caps, frame: Frame, now: string): (Inbox, EnqueueResult) {
    var count := |s.pending|;
    if frame.id in s.pending || frame.id in s.dead then
      (Append(s, InboundDuplicate, frame.id), EnqueueResult(true, true, count, None))
    else if count >= caps.maxMessages then
      (s, EnqueueResult(false, false, count, Some(MessageCapReached)))
    else if TotalBytes(s.pending) + frame.payloadBytes > caps.maxBytes then
      (s, EnqueueResult(false, false, count, Some(ByteCapReached)))
    else
      (Accept(s, frame, now), EnqueueResult(true, false, count + 1, None))
  }

  function Accept(s: Inbox, frame: Frame, now: string): Inbox {
    Append(s.(pending := s.pending[frame.id := BuildPendingItem(frame, now)]), InboundPersisted, frame.id)
  }

  function MarkDelivered(s: Inbox, requestId: string): Inbox {
    if requestId !in s.pending then s
    else Append(s.(pending := s.pending - {requestId}), ReplaySucceeded, requestId)
  }

  function Threshold(maxNonRetryableAttempts: int): int {
    if maxNonRetryableAttempts > 1 then maxNonRetryableAttempts else 1
  }

  function Attempted(item: Item, f: Failure, now: string): Item {
    item.(attemptCount := item.attemptCount + 1, lastError := Some(f.errorMessage), lastAttemptAt := Some(now))
  }

  predicate MovesToDeadLetter(item: Item, f: Failure) {
    !f.retryable && item.attemptCount + 1 >= Threshold(f.maxNonRetryableAttempts)
  }

  /** The second result tells whether the item moved to the dead-letter table. */
  function MarkReplayFailure(s: Inbox, f: Failure, now: string): (Inbox, bool) {
    if f.requestId !in s.pending then (s, false)
    else
      var entry := s.pending[f.requestId];
      var updated := Attempted(entry, f, now);
      if MovesToDeadLetter(entry, f) then
        var dead := DeadItem(updated, now, f.errorMessage);
        (Append(s.(pending := s.pending - {f.requestId}, dead := s.dead[f.requestId := dead]),
                DeadLetterMoved, f.requestId), true)
      else
        var waiting := updated.(nextAttemptAt := f.nextAttemptAt);
        (Append(s.(pending := s.pending[f.requestId := waiting]), ReplayFailed, f.requestId), false)
  }

  function Revived(dead: DeadItem, now: string): Item {
    dead.item.(nextAttemptAt := now, lastError := Some(dead.reason))
  }

  function ReplayOne(s: Inbox, requestId: string, now: string): Inbox {
    if requestId !in s.dead then s
    else
      Append(s.(dead := s.dead - {requestId}, pending := s.pending[requestId := Revived(s.dead[requestId], now)]),
             DeadLetterReplayed, requestId)
  }

  function PurgeOne(s: Inbox, requestId: string): Inbox {
    if requestId !in s.dead then s
    else Append(s.(dead := s.dead - {requestId}), DeadLetterPurged, requestId)
  }

  function ReplayAll(s: Inbox, requestIds: seq<string>, now: string): Inbox {
    if requestIds == [] then s
    else
      var n := |requestIds| - 1;
      ReplayOne(ReplayAll(s, requestIds[..n], now), requestIds[n], now)
  }

  function PurgeAll(s: Inbox, requestIds: seq<string>): Inbox {
    if requestIds == [] then s
    else
      var n := |requestIds| - 1;
      PurgeOne(PurgeAll(s, requestIds[..n]), requestIds[n])
  }

  /** Trimmed, without empty ids, each id once at its first position. */
  function SanitizeRequestIds(requestIds: seq<string>): (ids: seq<string>) {
    if requestIds == [] then []
    else
      var n := |requestIds| - 1;
      var before, id := SanitizeRequestIds(requestIds[..n]), Trim(requestIds[n]);
      if id != "" && id !in before then before + [id] else before
  }

  ghost predicate Distinct(ids: seq<string>) {
    forall i, j :: 0 <= i < j < |ids| ==> ids[i] != ids[j]
  }

  /** The sanitized list names exactly the non-empty trimmed ids that were asked for, once each. */
  lemma {:induction false} SanitizedIdsAreTheRequestedOnes(requestIds: seq<string>, id: string)
    ensures Distinct(SanitizeRequestIds(requestIds))
    ensures id in SanitizeRequestIds(requestIds) <==>
            id != "" && exists i :: 0 <= i < |requestIds| && Trim(requestIds[i]) == id
  {
    if requestIds != [] {
      var n := |requestIds| - 1;
      SanitizedIdsAreTheRequestedOnes(requestIds[..n], id);
      if id in SanitizeRequestIds(requestIds[..n]) {
        var i :| 0 <= i < n && Trim(requestIds[..n][i]) == id;
        assert Trim(requestIds[i]) == id;
      }
      if i :| 0 <= i < |requestIds| && Trim(requestIds[i]) == id && i < n {
        assert requestIds[..n][i] == requestIds[i];
      }
    }
  }

  // ---------------------------------------------------------------- what stays true of the tables

  /** No id is in both tables, and every row is stored under its own request id. */
  ghost predicate WellKept(s: Inbox) {
    && (forall id :: id in s.pending ==> id !in s.dead)
    && (forall id :: id in s.pending ==> s.pending[id].requestId == id)
    && (forall id :: id in s.dead ==> s.dead[id].item.requestId == id)
  }

  /** The ids of a request that are dead-lettered. */
  ghost function Targets(s: Inbox, requestIds: seq<string>): set<string> {
    set id | id in requestIds && id in s.dead
  }

  /** `t` is `s` with exactly the dead-lettered ids `moved` replayed. */
  ghost predicate Moved(s: Inbox, moved: set<string>, t: Inbox, now: string)
    requires moved <= s.dead.Keys
  {
    && t.dead == s.dead - moved
    && t.pending == s.pending + (map id | id in moved :: Revived(s.dead[id], now))
    && |t.log| == |s.log| + |moved|
  }

  lemma MovedIsWellKept(s: Inbox, moved: set<string>, t: Inbox, now: string)
    requires WellKept(s) && moved <= s.dead.Keys && Moved(s, moved, t, now)
    ensures WellKept(t)
  {
  }

  lemma MoreRevived(s: Inbox, moved: set<string>, id: string, now: string)
    requires moved <= s.dead.Keys && id in s.dead
    ensures (s.pending + (map k | k in moved :: Revived(s.dead[k], now)))[id := Revived(s.dead[id], now)]
            == s.pending + (map k | k in moved + {id} :: Revived(s.dead[k], now))
  {
  }

  lemma ReplayOneMoves(s: Inbox, moved: set<string>, t: Inbox, id: string, now: string)
    requires moved <= s.dead.Keys && Moved(s, moved, t, now)
    ensures id in s.dead && id !in moved ==> Moved(s, moved + {id}, ReplayOne(t, id, now), now)
    ensures !(id in s.dead && id !in moved) ==> ReplayOne(t, id, now) == t
  {
    if id in s.dead && id !in moved {
      var u := ReplayOne(t, id, now);
      assert u.dead == s.dead - (moved + {id});
      MoreRevived(s, moved, id, now);
    }
  }

  lemma TargetsGrow(s: Inbox, requestIds: seq<string>)
    requires requestIds != []
    ensures var n := |requestIds| - 1;
            Targets(s, requestIds)
            == Targets(s, requestIds[..n]) + if requestIds[n] in s.dead then {requestIds[n]} else {}
  {
  }

  /** Replaying a list moves exactly its dead-lettered ids, whatever the order and the repetitions in the list. */
  lemma {:induction false} ReplayAllMovesTargets(s: Inbox, requestIds: seq<string>, now: string)
    requires WellKept(s)
    ensures WellKept(ReplayAll(s, requestIds, now))
    ensures Moved(s, Targets(s, requestIds), ReplayAll(s, requestIds, now), now)
  {
    if requestIds != [] {
      var n := |requestIds| - 1;
      var before := Targets(s, requestIds[..n]);
      ReplayAllMovesTargets(s, requestIds[..n], now);
      ReplayOneMoves(s, before, ReplayAll(s, requestIds[..n], now), requestIds[n], now);
      TargetsGrow(s, requestIds);
      assert requestIds[n] in before ==> before + {requestIds[n]} == before;
    }
    MovedIsWellKept(s, Targets(s, requestIds), ReplayAll(s, requestIds, now), now);
  }

  lemma {:induction false} PurgeAllRemovesTargets(s: Inbox, requestIds: seq<string>)
    ensures var t := PurgeAll(s, requestIds);
            && t.dead == s.dead - Targets(s, requestIds)
            && t.pending == s.pending
            && |t.log| == |s.log| + |Targets(s, requestIds)|
  {
    if requestIds != [] {
      var n := |requestIds| - 1;
      var id, before := requestIds[n], Targets(s, requestIds[..n]);
      PurgeAllRemovesTargets(s, requestIds[..n]);
      assert requestIds == requestIds[..n] + [id];
      if id in s.dead && id !in before {
        assert Targets(s, requestIds) == before + {id};
      } else {
        assert Targets(s, requestIds) == before;
      }
    }
  }

  // ---------------------------------------------------------------- runs

  datatype Op =
    | OpEnqueue(frame: Frame, now: string)
    | OpDelivered(requestId: string)
    | OpFailed(failure: Failure, now: string)
    | OpReplay(requestIds: seq<string>, now: string)
    | OpPurge(requestIds: seq<string>)

  ghost function Step(s: Inbox, caps: Caps, op: Op): Inbox {
    match op
    case OpEnqueue(frame, now) => Enqueue(s, caps, frame, now).0
    case OpDelivered(id) => MarkDelivered(s, id)
    case OpFailed(f, now) => MarkReplayFailure(s, f, now).0
    case OpReplay(ids, now) => ReplayAll(s, ids, now)
    case OpPurge(ids) => PurgeAll(s, ids)
  }

  ghost function RunFrom(s: Inbox, caps: Caps, ops: seq<Op>): Inbox {
    if ops == [] then s else Step(RunFrom(s, caps, ops[..|ops| - 1]), caps, ops[|ops| - 1])
  }

  /** The inbox after a run of calls from the empty inbox. */
  ghost function Run(caps: Caps, ops: seq<Op>): Inbox {
    RunFrom(EMPTY, caps, ops)
  }

  lemma StepWellKept(s: Inbox, caps: Caps, op: Op)
    requires WellKept(s)
    ensures WellKept(Step(s, caps, op))
  {
    match op
    case OpReplay(ids, now) => ReplayAllMovesTargets(s, ids, now);
    case OpPurge(ids) => PurgeAllRemovesTargets(s, ids);
    case _ =>
  }

  lemma {:induction false} RunWellKept(caps: Caps, ops: seq<Op>)
    ensures WellKept(Run(caps, ops))
  {
    if ops != [] {
      RunWellKept(caps, ops[..|ops| - 1]);
      StepWellKept(Run(caps, ops[..|ops| - 1]), caps, ops[|ops| - 1]);
    }
  }
}
