/** What every run of the inbox guarantees: the event log explains the tables, nothing is lost, and the caps hold. */
module InboxRuns {
  import opened Numbers
  import opened Outcomes
  import opened InboxModel
  import opened Totals

  // ---------------------------------------------------------------- reading the log

  /** Attempt counts of the ids in each table. */
  datatype Ledger = Ledger(pending: map<string, nat>, dead: map<string, nat>)

  function AttemptsIn(s: Inbox): Ledger {
    Ledger(map id | id in s.pending :: s.pending[id].attemptCount, map id | id in s.dead :: s.dead[id].item.attemptCount)
  }

  /** The events that can happen to a given ledger. */
  predicate Fits(l: Ledger, e: InboxEvent) {
    match e.kind
    case InboundPersisted => e.requestId !in l.pending && e.requestId !in l.dead
    case InboundDuplicate => e.requestId in l.pending || e.requestId in l.dead
    case ReplaySucceeded | ReplayFailed | DeadLetterMoved => e.requestId in l.pending && e.requestId !in l.dead
    case DeadLetterReplayed | DeadLetterPurged => e.requestId in l.dead && e.requestId !in l.pending
  }

  function Record(l: Ledger, e: InboxEvent): Ledger
    requires Fits(l, e)
  {
    var id := e.requestId;
    match e.kind
    case InboundPersisted => l.(pending := l.pending[id := 0])
    case InboundDuplicate => l
    case ReplaySucceeded => l.(pending := l.pending - {id})
    case ReplayFailed => l.(pending := l.pending[id := l.pending[id] + 1])
    case DeadLetterMoved => Ledger(l.pending - {id}, l.dead[id := l.pending[id] + 1])
    case DeadLetterReplayed => Ledger(l.pending[id := l.dead[id]], l.dead - {id})
    case DeadLetterPurged => l.(dead := l.dead - {id})
  }

  /** The ledger obtained by folding the log from empty, if every event fits when it comes. */
  function Fold(log: seq<InboxEvent>): Option<Ledger> {
    if log == [] then Some(Ledger(map[], map[]))
    else
      var before, e := Fold(log[..|log| - 1]), log[|log| - 1];
      if before.Some? && Fits(before.value, e) then Some(Record(before.value, e)) else None
  }

  /** The log alone determines which ids are in which table, with which attempt counts. */
  ghost predicate Explained(s: Inbox) {
    Fold(s.log) == Some(AttemptsIn(s))
  }

  lemma EventExplained(s: Inbox, t: Inbox, e: InboxEvent)
    requires Explained(s) && t.log == s.log + [e]
    requires Fits(AttemptsIn(s), e) && AttemptsIn(t) == Record(AttemptsIn(s), e)
    ensures Explained(t)
  {
  }

  lemma AcceptExplained(s: Inbox, frame: Frame, now: string)
    requires Explained(s) && frame.id !in s.pending && frame.id !in s.dead
    ensures Explained(Accept(s, frame, now))
  {
    var t, e := Accept(s, frame, now), InboxEvent(InboundPersisted, frame.id);
    assert AttemptsIn(t) == Record(AttemptsIn(s), e);
    EventExplained(s, t, e);
  }

  lemma DuplicateExplained(s: Inbox, id: string)
    requires Explained(s) && (id in s.pending || id in s.dead)
    ensures Explained(Append(s, InboundDuplicate, id))
  {
  }

  lemma EnqueueExplained(s: Inbox, caps: Caps, frame: Frame, now: string)
    requires Explained(s)
    ensures Explained(Enqueue(s, caps, frame, now).0)
  {
    if frame.id in s.pending || frame.id in s.dead {
      DuplicateExplained(s, frame.id);
    } else {
      AcceptExplained(s, frame, now);
    }
  }

  lemma DeliveredExplained(s: Inbox, id: string)
    requires WellKept(s) && Explained(s)
    ensures Explained(MarkDelivered(s, id))
  {
    var t := MarkDelivered(s, id);
    if t != s {
      var e := InboxEvent(ReplaySucceeded, id);
      assert AttemptsIn(t) == Record(AttemptsIn(s), e);
      EventExplained(s, t, e);
    }
  }

  lemma FailureCounts(s: Inbox, f: Failure, now: string, e: InboxEvent)
    requires WellKept(s) && f.requestId in s.pending
    requires e == InboxEvent(if MovesToDeadLetter(s.pending[f.requestId], f) then DeadLetterMoved else ReplayFailed,
                             f.requestId)
    ensures AttemptsIn(MarkReplayFailure(s, f, now).0) == Record(AttemptsIn(s), e)
  {
    var counted := Attempted(s.pending[f.requestId], f, now);
    if MovesToDeadLetter(s.pending[f.requestId], f) {
      DeadLetteringCounts(s, f.requestId, DeadItem(counted, now, f.errorMessage));
    } else {
      RetryingCounts(s, f.requestId, counted.(nextAttemptAt := f.nextAttemptAt));
    }
  }

  lemma DeadLetteringCounts(s: Inbox, id: string, dead: DeadItem)
    ensures AttemptsIn(s.(pending := s.pending - {id}, dead := s.dead[id := dead]))
            == Ledger(AttemptsIn(s).pending - {id}, AttemptsIn(s).dead[id := dead.item.attemptCount])
  {
  }

  lemma RetryingCounts(s: Inbox, id: string, item: Item)
    ensures AttemptsIn(s.(pending := s.pending[id := item]))
            == AttemptsIn(s).(pending := AttemptsIn(s).pending[id := item.attemptCount])
  {
  }

  lemma FailureExplained(s: Inbox, f: Failure, now: string)
    requires WellKept(s) && Explained(s)
    ensures Explained(MarkReplayFailure(s, f, now).0)
  {
    var t := MarkReplayFailure(s, f, now).0;
    if f.requestId in s.pending {
      var e := InboxEvent(if MovesToDeadLetter(s.pending[f.requestId], f) then DeadLetterMoved else ReplayFailed,
                          f.requestId);
      FailureCounts(s, f, now, e);
      EventExplained(s, t, e);
    }
  }

  lemma ReplayOneExplained(s: Inbox, id: string, now: string)
    requires WellKept(s) && Explained(s)
    ensures WellKept(ReplayOne(s, id, now)) && Explained(ReplayOne(s, id, now))
  {
    var t := ReplayOne(s, id, now);
    if id in s.dead {
      var e := InboxEvent(DeadLetterReplayed, id);
      assert AttemptsIn(t) == Record(AttemptsIn(s), e);
      EventExplained(s, t, e);
    }
  }

  lemma PurgeOneExplained(s: Inbox, id: string)
    requires WellKept(s) && Explained(s)
    ensures WellKept(PurgeOne(s, id)) && Explained(PurgeOne(s, id))
  {
    var t := PurgeOne(s, id);
    if id in s.dead {
      var e := InboxEvent(DeadLetterPurged, id);
      assert AttemptsIn(t) == Record(AttemptsIn(s), e);
      EventExplained(s, t, e);
    }
  }

  lemma {:induction false} ReplayAllExplained(s: Inbox, ids: seq<string>, now: string)
    requires WellKept(s) && Explained(s)
    ensures WellKept(ReplayAll(s, ids, now)) && Explained(ReplayAll(s, ids, now))
  {
    if ids != [] {
      var n := |ids| - 1;
      ReplayAllExplained(s, ids[..n], now);
      ReplayOneExplained(ReplayAll(s, ids[..n], now), ids[n], now);
    }
  }

  lemma {:induction false} PurgeAllExplained(s: Inbox, ids: seq<string>)
    requires WellKept(s) && Explained(s)
    ensures WellKept(PurgeAll(s, ids)) && Explained(PurgeAll(s, ids))
  {
    if ids != [] {
      var n := |ids| - 1;
      PurgeAllExplained(s, ids[..n]);
      PurgeOneExplained(PurgeAll(s, ids[..n]), ids[n]);
    }
  }

  /** After every run, folding the whole log from empty gives the ids in both tables and their attempt counts. */
  lemma {:induction false} LogRebuildsInbox(caps: Caps, ops: seq<Op>)
    ensures Fold(Run(caps, ops).log) == Some(AttemptsIn(Run(caps, ops)))
  {
    if ops == [] {
      assert AttemptsIn(EMPTY) == Ledger(map[], map[]);
    } else {
      var s := Run(caps, ops[..|ops| - 1]);
      RunWellKept(caps, ops[..|ops| - 1]);
      LogRebuildsInbox(caps, ops[..|ops| - 1]);
      match ops[|ops| - 1]
      case OpEnqueue(frame, now) => EnqueueExplained(s, caps, frame, now);
      case OpDelivered(id) => DeliveredExplained(s, id);
      case OpFailed(f, now) => FailureExplained(s, f, now);
      case OpReplay(ids, now) => ReplayAllExplained(s, ids, now);
      case OpPurge(ids) => PurgeAllExplained(s, ids);
    }
  }

  // ---------------------------------------------------------------- one id's story

  datatype Place = Never | Pending | Dead | Delivered | Purged

  /** Where an id's latest event leaves it; duplicates leave it where it was. */
  function PlaceOf(log: seq<InboxEvent>, id: string): Place {
    if log == [] then Never
    else
      var e := log[|log| - 1];
      if e.requestId != id then PlaceOf(log[..|log| - 1], id)
      else
        match e.kind
        case InboundDuplicate => PlaceOf(log[..|log| - 1], id)
        case InboundPersisted | ReplayFailed | DeadLetterReplayed => Pending
        case DeadLetterMoved => Dead
        case ReplaySucceeded => Delivered
        case DeadLetterPurged => Purged
  }

  /** How many failures and moves to the dead-letter table an id has seen since it was last persisted. */
  function FailuresOf(log: seq<InboxEvent>, id: string): nat {
    if log == [] then 0
    else
      var e, before := log[|log| - 1], log[..|log| - 1];
      if e.requestId != id then FailuresOf(before, id)
      else
        match e.kind
        case InboundPersisted => 0
        case ReplayFailed | DeadLetterMoved => FailuresOf(before, id) + 1
        case _ => FailuresOf(before, id)
  }

  lemma {:induction false} FoldTellsStory(log: seq<InboxEvent>, id: string)
    requires Fold(log).Some?
    ensures var l := Fold(log).value;
            && (id in l.pending <==> PlaceOf(log, id) == Pending)
            && (id in l.dead <==> PlaceOf(log, id) == Dead)
            && (id in l.pending ==> l.pending[id] == FailuresOf(log, id))
            && (id in l.dead ==> l.dead[id] == FailuresOf(log, id))
  {
    if log != [] {
      FoldTellsStory(log[..|log| - 1], id);
    }
  }

  /**
   * Every id is in exactly the place its latest event says, and each surviving item counts its failures and its
   * moves to the dead-letter table since it was last accepted.
   */
  lemma EveryIdIsWhereItsLogSays(caps: Caps, ops: seq<Op>, id: string)
    ensures var s := Run(caps, ops);
            && (id in s.pending <==> PlaceOf(s.log, id) == Pending)
            && (id in s.dead <==> PlaceOf(s.log, id) == Dead)
            && (id in s.pending ==> s.pending[id].attemptCount == FailuresOf(s.log, id))
            && (id in s.dead ==> s.dead[id].item.attemptCount == FailuresOf(s.log, id))
  {
    LogRebuildsInbox(caps, ops);
    FoldTellsStory(Run(caps, ops).log, id);
  }

  // ---------------------------------------------------------------- conservation

  function Count(log: seq<InboxEvent>, kind: Kind): nat {
    if log == [] then 0
    else Count(log[..|log| - 1], kind) + if log[|log| - 1].kind == kind then 1 else 0
  }

  lemma {:induction false} FoldConserves(log: seq<InboxEvent>)
    requires Fold(log).Some?
    ensures var l := Fold(log).value;
            Count(log, InboundPersisted)
            == |l.pending| + |l.dead| + Count(log, ReplaySucceeded) + Count(log, DeadLetterPurged)
  {
    if log != [] {
      FoldConserves(log[..|log| - 1]);
      var l, e := Fold(log[..|log| - 1]).value, log[|log| - 1];
      if e.kind == DeadLetterMoved {
        assert |l.pending - {e.requestId}| == |l.pending| - 1;
      } else if e.kind == DeadLetterReplayed || e.kind == DeadLetterPurged {
        assert |l.dead - {e.requestId}| == |l.dead| - 1;
      } else if e.kind == ReplaySucceeded {
        assert |l.pending - {e.requestId}| == |l.pending| - 1;
      }
    }
  }

  /** Accepted messages are pending, dead-lettered, delivered or purged, and none is lost or counted twice. */
  lemma MessagesAreConserved(caps: Caps, ops: seq<Op>)
    ensures var s := Run(caps, ops);
            Count(s.log, InboundPersisted)
            == |s.pending| + |s.dead| + Count(s.log, ReplaySucceeded) + Count(s.log, DeadLetterPurged)
  {
    var s := Run(caps, ops);
    LogRebuildsInbox(caps, ops);
    FoldConserves(s.log);
    assert AttemptsIn(s).pending.Keys == s.pending.Keys && AttemptsIn(s).dead.Keys == s.dead.Keys;
    assert |AttemptsIn(s).pending| == |AttemptsIn(s).pending.Keys| && |AttemptsIn(s).dead| == |AttemptsIn(s).dead.Keys|;
  }

  /** A delivery removes exactly its own pending message, and is logged only if there was one. */
  lemma DeliveryRemovesItsMessage(s: Inbox, id: string)
    ensures var t := MarkDelivered(s, id);
            && t.pending == s.pending - {id} && t.dead == s.dead
            && PlaceOf(t.log, id) == (if id in s.pending then Delivered else PlaceOf(s.log, id))
            && (id !in s.pending ==> t == s)
  {
  }

  // ---------------------------------------------------------------- caps

  ghost predicate WithinCaps(s: Inbox, caps: Caps) {
    |s.pending| <= caps.maxMessages && TotalBytes(s.pending) <= caps.maxBytes
  }

  /**
   * A message is accepted as new exactly when its id is unknown and it fits both caps, and then both caps hold; a known
   * id is a duplicate, which is only logged; and a message turned away changes nothing and is told which cap it hit.
   */
  lemma NewMessagesFitCaps(s: Inbox, caps: Caps, frame: Frame, now: string)
    ensures var (t, result) := Enqueue(s, caps, frame, now);
            var known := frame.id in s.pending || frame.id in s.dead;
            && (result.accepted && !result.duplicate <==>
                  && !known
                  && |s.pending| + 1 <= caps.maxMessages
                  && TotalBytes(s.pending) + frame.payloadBytes <= caps.maxBytes)
            && (result.accepted && !result.duplicate ==> WithinCaps(t, caps) && frame.id in t.pending)
            && (result.duplicate <==> known)
            && (known ==> result.accepted && t == s.(log := s.log + [InboxEvent(InboundDuplicate, frame.id)]))
            && (!result.accepted ==> t == s)
            && (result.reason == Some(MessageCapReached) <==> !known && |s.pending| >= caps.maxMessages)
            && (result.reason == Some(ByteCapReached) <==>
                  && !known && |s.pending| < caps.maxMessages
                  && TotalBytes(s.pending) + frame.payloadBytes > caps.maxBytes)
            && (result.reason.Some? <==> !result.accepted)
            && result.pendingCount == |t.pending|
  {
    if frame.id !in s.pending {
      TotalBytesInsert(s.pending, frame.id, BuildPendingItem(frame, now));
    }
  }

  lemma NonReplayKeepsCaps(s: Inbox, caps: Caps, op: Op)
    requires WithinCaps(s, caps) && !op.OpReplay?
    ensures WithinCaps(Step(s, caps, op), caps)
  {
    match op
    case OpEnqueue(frame, now) => NewMessagesFitCaps(s, caps, frame, now);
    case OpDelivered(id) =>
      if id in s.pending {
        TotalBytesRemove(s.pending, id);
      }
    case OpFailed(f, now) =>
      if f.requestId in s.pending {
        TotalBytesRemove(s.pending, f.requestId);
        var waiting := Attempted(s.pending[f.requestId], f, now).(nextAttemptAt := f.nextAttemptAt);
        TotalBytesUpdate(s.pending, f.requestId, waiting);
      }
    case OpPurge(ids) => PurgeAllRemovesTargets(s, ids);
  }

  lemma EmptyStaysWithinCaps(s: Inbox, caps: Caps, op: Op)
    requires s.pending == map[] && !op.OpReplay?
    ensures Step(s, caps, op).pending == map[] || WithinCaps(Step(s, caps, op), caps)
  {
    match op
    case OpEnqueue(frame, now) => NewMessagesFitCaps(s, caps, frame, now);
    case OpDelivered(id) =>
    case OpFailed(f, now) =>
    case OpPurge(ids) => PurgeAllRemovesTargets(s, ids);
  }

  /** Without dead-letter replays both caps hold after every run in which anything is pending. */
  lemma {:induction false} CapsHoldWithoutReplay(caps: Caps, ops: seq<Op>)
    requires forall i :: 0 <= i < |ops| ==> !ops[i].OpReplay?
    ensures Run(caps, ops).pending == map[] || WithinCaps(Run(caps, ops), caps)
  {
    if ops != [] {
      var before := Run(caps, ops[..|ops| - 1]);
      CapsHoldWithoutReplay(caps, ops[..|ops| - 1]);
      if WithinCaps(before, caps) {
        NonReplayKeepsCaps(before, caps, ops[|ops| - 1]);
      } else {
        EmptyStaysWithinCaps(before, caps, ops[|ops| - 1]);
      }
    }
  }

  /** The items that a replay of these ids would bring back. */
  ghost function Returning(s: Inbox, ids: set<string>): map<string, Item> {
    map id | id in ids && id in s.dead :: s.dead[id].item
  }

  lemma JoinedSizes(a: map<string, Item>, ids: set<string>, c: map<string, Item>)
    requires a.Keys !! ids && c.Keys == a.Keys + ids
    ensures |c| == |a| + |ids|
  {
  }

  lemma {:induction false} MovedKeys(s: Inbox, moved: set<string>, t: Inbox, now: string)
    requires WellKept(s) && moved <= s.dead.Keys && Moved(s, moved, t, now)
    ensures s.pending.Keys !! moved && t.pending.Keys == s.pending.Keys + moved
  {
    var returned := map id | id in moved :: Revived(s.dead[id], now);
    assert returned.Keys == moved;
    KeysOfMerge(s.pending, returned);
  }

  lemma KeysOfMerge(a: map<string, Item>, b: map<string, Item>)
    ensures (a + b).Keys == a.Keys + b.Keys
  {
  }

  lemma ReplayKeys(s: Inbox, ids: seq<string>, now: string)
    requires WellKept(s)
    ensures s.pending.Keys !! Targets(s, ids)
    ensures ReplayAll(s, ids, now).pending.Keys == s.pending.Keys + Targets(s, ids)
  {
    ReplayAllMovesTargets(s, ids, now);
    MovedKeys(s, Targets(s, ids), ReplayAll(s, ids, now), now);
  }

  lemma ReplayCount(s: Inbox, ids: seq<string>, now: string)
    requires WellKept(s)
    ensures |ReplayAll(s, ids, now).pending| == |s.pending| + |Targets(s, ids)|
  {
    ReplayKeys(s, ids, now);
    JoinedSizes(s.pending, Targets(s, ids), ReplayAll(s, ids, now).pending);
  }

  lemma ReplayBytes(s: Inbox, ids: seq<string>, now: string)
    requires WellKept(s)
    ensures TotalBytes(ReplayAll(s, ids, now).pending)
            == TotalBytes(s.pending) + TotalBytes(Returning(s, Targets(s, ids)))
  {
    ReturningJoins(s, ids, now);
    SumUnion(Sizes(s.pending), Sizes(Returning(s, Targets(s, ids))), Sizes(ReplayAll(s, ids, now).pending));
  }

  lemma ReturningJoins(s: Inbox, ids: seq<string>, now: string)
    requires WellKept(s)
    ensures Union(Sizes(s.pending), Sizes(Returning(s, Targets(s, ids))), Sizes(ReplayAll(s, ids, now).pending))
  {
    ReplayAllMovesTargets(s, ids, now);
  }

  /** A dead-letter replay checks no cap: it leaves the caps intact exactly when the returning items happen to fit. */
  lemma ReplayKeepsCapsExactlyWhenItFits(s: Inbox, caps: Caps, ids: seq<string>, now: string)
    requires WellKept(s)
    ensures WithinCaps(ReplayAll(s, ids, now), caps) <==>
            && |s.pending| + |Targets(s, ids)| <= caps.maxMessages
            && TotalBytes(s.pending) + TotalBytes(Returning(s, Targets(s, ids))) <= caps.maxBytes
  {
    ReplayCount(s, ids, now);
    ReplayBytes(s, ids, now);
  }

  lemma RunAppend(caps: Caps, ops: seq<Op>, op: Op)
    ensures Run(caps, ops + [op]) == Step(Run(caps, ops), caps, op)
  {
    assert (ops + [op])[..|ops|] == ops;
  }

  lemma {:induction false} AcceptThenDeadLetter(caps: Caps, f: Frame, failure: Failure, now: string)
    requires caps.maxMessages == 1 && f.payloadBytes <= caps.maxBytes
    requires failure.requestId == f.id && !failure.retryable && failure.maxNonRetryableAttempts == 1
    ensures var s := Enqueue(EMPTY, caps, f, now).0;
            MarkReplayFailure(s, failure, now).0.pending == map[] && MarkReplayFailure(s, failure, now).0.dead.Keys == {f.id}
  {
    NewMessagesFitCaps(EMPTY, caps, f, now);
    assert TotalBytes(EMPTY.pending) == 0;
  }

  lemma {:induction false} FillsEmptyPlace(s: Inbox, caps: Caps, g: Frame, now: string)
    requires caps.maxMessages == 1 && g.payloadBytes <= caps.maxBytes && s.pending == map[] && g.id !in s.dead
    ensures var t := Enqueue(s, caps, g, now).0; t.pending.Keys == {g.id} && t.dead == s.dead && WithinCaps(t, caps)
  {
    assert TotalBytes(s.pending) == 0;
    NewMessagesFitCaps(s, caps, g, now);
  }

  lemma {:induction false} DeadLetterThenFill(caps: Caps, f: Frame, g: Frame, failure: Failure, now: string)
    returns (s: Inbox)
    requires caps.maxMessages == 1 && f.payloadBytes <= caps.maxBytes && g.payloadBytes <= caps.maxBytes
    requires f.id != g.id && failure.requestId == f.id && !failure.retryable && failure.maxNonRetryableAttempts == 1
    ensures s == Run(caps, [OpEnqueue(f, now)] + [OpFailed(failure, now)] + [OpEnqueue(g, now)])
    ensures s.pending.Keys == {g.id} && s.dead.Keys == {f.id} && WithinCaps(s, caps)
  {
    var first := [OpEnqueue(f, now)];
    RunAppend(caps, [], OpEnqueue(f, now));
    assert [] + first == first;
    RunAppend(caps, first, OpFailed(failure, now));
    AcceptThenDeadLetter(caps, f, failure, now);
    var moved := Run(caps, first + [OpFailed(failure, now)]);
    RunAppend(caps, first + [OpFailed(failure, now)], OpEnqueue(g, now));
    FillsEmptyPlace(moved, caps, g, now);
    s := Run(caps, first + [OpFailed(failure, now)] + [OpEnqueue(g, now)]);
  }

  /** A replay does exceed the caps in some runs: the only place was taken while the item was dead-lettered. */
  lemma ReplayExceedsCaps(caps: Caps, f: Frame, g: Frame, failure: Failure, now: string)
    requires caps.maxMessages == 1 && f.payloadBytes <= caps.maxBytes && g.payloadBytes <= caps.maxBytes
    requires f.id != g.id && failure.requestId == f.id && !failure.retryable && failure.maxNonRetryableAttempts == 1
    ensures var ops := [OpEnqueue(f, now)] + [OpFailed(failure, now)] + [OpEnqueue(g, now)];
            WithinCaps(Run(caps, ops), caps) && !WithinCaps(Run(caps, ops + [OpReplay([f.id], now)]), caps)
  {
    var ops := [OpEnqueue(f, now)] + [OpFailed(failure, now)] + [OpEnqueue(g, now)];
    var s := DeadLetterThenFill(caps, f, g, failure, now);
    RunAppend(caps, ops, OpReplay([f.id], now));
    RunWellKept(caps, ops);
    ReplayCount(s, [f.id], now);
    assert Targets(s, [f.id]) == {f.id};
    assert |s.pending| == |s.pending.Keys| == 1;
  }

  // ---------------------------------------------------------------- the dead-letter threshold

  /** A retryable failure leaves the item pending, with one more attempt. */
  lemma RetryableFailureNeverDeadLetters(s: Inbox, f: Failure, now: string)
    requires f.retryable
    ensures var (t, moved) := MarkReplayFailure(s, f, now);
            && !moved && t.dead == s.dead && t.pending.Keys == s.pending.Keys
            && (f.requestId in s.pending ==>
                  t.pending[f.requestId].attemptCount == s.pending[f.requestId].attemptCount + 1)
  {
  }

  /** A failure report is told that its message was dead-lettered exactly when that is what happened. */
  lemma DeadLetteringIsReported(s: Inbox, f: Failure, now: string)
    requires WellKept(s)
    ensures var (t, moved) := MarkReplayFailure(s, f, now);
            && (moved <==> f.requestId in s.pending && f.requestId !in t.pending)
            && (moved ==> f.requestId in t.dead)
            && (f.requestId !in s.pending ==> t == s)
  {
  }

  /** `ops` is a series of non-retryable failures of one id with one threshold. */
  ghost predicate FailsRepeatedly(ops: seq<Op>, id: string, maxNonRetryableAttempts: int) {
    forall i :: 0 <= i < |ops| ==>
      && ops[i].OpFailed? && ops[i].failure.requestId == id && !ops[i].failure.retryable
      && ops[i].failure.maxNonRetryableAttempts == maxNonRetryableAttempts
  }

  /**
   * An item that has failed c times is still pending after k >= 1 further non-retryable failures exactly when
   * c + k stays below the threshold; otherwise it is dead-lettered with the count at which it crossed.
   */
  lemma {:induction false} PendingExactlyBelowThreshold(s: Inbox, caps: Caps, ops: seq<Op>, id: string, max: int)
    requires id in s.pending && id !in s.dead && FailsRepeatedly(ops, id, max) && |ops| >= 1
    ensures var t, c := RunFrom(s, caps, ops), s.pending[id].attemptCount;
            && (id in t.pending <==> c + |ops| < Max(1, max))
            && (id in t.pending ==> t.pending[id].attemptCount == c + |ops|)
            && (id in t.dead <==> id !in t.pending)
            && (id in t.dead ==> t.dead[id].item.attemptCount == Max(c + 1, Max(1, max)))
  {
    var n := |ops| - 1;
    if n == 0 {
      assert RunFrom(s, caps, ops[..0]) == s;
    } else {
      PendingExactlyBelowThreshold(s, caps, ops[..n], id, max);
    }
    assert ops[n].OpFailed? && ops[n].failure.requestId == id;
  }
}
