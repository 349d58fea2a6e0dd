/** What the rows of the inbox carry after a run: the message as it was accepted, and the last failure and plan since. */
module InboxStories {
  import opened Numbers
  import opened Outcomes
  import opened Text
  import opened InboxModel
  import opened InboxRuns

  /** The inbox before operation `n` of the run. */
  ghost function Before(caps: Caps, ops: seq<Op>, n: nat): Inbox
    requires n <= |ops|
  {
    Run(caps, ops[..n])
  }

  lemma BeforeNext(caps: Caps, ops: seq<Op>, n: nat, next: nat)
    requires n < |ops| && next == n + 1
    ensures Before(caps, ops, next) == Step(Before(caps, ops, n), caps, ops[n])
  {
    assert ops[..next] == ops[..n] + [ops[n]];
    RunAppend(caps, ops[..n], ops[n]);
  }

  // ---------------------------------------------------------------- what happened to an id

  /** Operation `k` accepts a message as new under `id`. */
  ghost predicate AcceptsAt(caps: Caps, ops: seq<Op>, k: nat, id: string) {
    && k < |ops| && ops[k].OpEnqueue? && ops[k].frame.id == id
    && var result := Enqueue(Before(caps, ops, k), caps, ops[k].frame, ops[k].now).1;
       result.accepted && !result.duplicate
  }

  /** Operation `k` reports a failure of the pending message `id`. */
  ghost predicate FailsAt(caps: Caps, ops: seq<Op>, k: nat, id: string) {
    k < |ops| && ops[k].OpFailed? && ops[k].failure.requestId == id && id in Before(caps, ops, k).pending
  }

  /** Operation `k` replays the dead-lettered message `id`. */
  ghost predicate ReplaysAt(caps: Caps, ops: seq<Op>, k: nat, id: string) {
    k < |ops| && ops[k].OpReplay? && id in ops[k].requestIds && id in Before(caps, ops, k).dead
  }

  ghost predicate PlansAt(caps: Caps, ops: seq<Op>, k: nat, id: string) {
    AcceptsAt(caps, ops, k, id) || FailsAt(caps, ops, k, id) || ReplaysAt(caps, ops, k, id)
  }

  /** The next attempt that the operation plans: at once, or when the failure report says. */
  function PlannedBy(op: Op): string
    requires op.OpEnqueue? || op.OpFailed? || op.OpReplay?
  {
    match op
    case OpEnqueue(_, now) => now
    case OpFailed(failure, _) => failure.nextAttemptAt
    case OpReplay(_, now) => now
  }

  /** An optional field is stored trimmed, and not at all if it is blank. */
  predicate Cleaned(field: Option<string>, stored: Option<string>) {
    && (stored.Some? <==> field.Some? && Trim(field.value) != "")
    && (stored.Some? ==> stored.value == Trim(field.value))
  }

  /** The row carries the message of the frame, received at `at`. */
  ghost predicate Carries(item: Item, frame: Frame, at: string) {
    && item.requestId == frame.id
    && item.fromAgentDid == frame.fromAgentDid && item.toAgentDid == frame.toAgentDid
    && item.payload == frame.payload && item.payloadBytes == frame.payloadBytes
    && item.receivedAt == at
    && Cleaned(frame.groupId, item.groupId)
    && Cleaned(frame.conversationId, item.conversationId)
    && Cleaned(frame.replyTo, item.replyTo)
  }

  // ---------------------------------------------------------------- the story of a row

  /**
   * What is known of an id: the operations that accepted it, that reported its last failure since, if any, and that
   * planned its next attempt.
   */
  datatype Story = Story(accepted: nat, failed: Option<nat>, planned: nat)

  ghost predicate IsStory(caps: Caps, ops: seq<Op>, n: nat, id: string, story: Story) {
    && story.accepted <= story.planned < n <= |ops|
    && AcceptsAt(caps, ops, story.accepted, id)
    && PlansAt(caps, ops, story.planned, id)
    && (story.failed.Some? ==> story.accepted < story.failed.value < n && FailsAt(caps, ops, story.failed.value, id))
    && NotAccepted(caps, ops, story.accepted, n, id)
    && NotFailed(caps, ops, if story.failed.Some? then story.failed.value else story.accepted, n, id)
    && NotPlanned(caps, ops, story.planned, n, id)
  }

  ghost predicate NotAccepted(caps: Caps, ops: seq<Op>, after: nat, n: nat, id: string) {
    forall m: nat :: after < m < n ==> !AcceptsAt(caps, ops, m, id)
  }

  ghost predicate NotFailed(caps: Caps, ops: seq<Op>, after: nat, n: nat, id: string) {
    forall m: nat :: after < m < n ==> !FailsAt(caps, ops, m, id)
  }

  ghost predicate NotPlanned(caps: Caps, ops: seq<Op>, after: nat, n: nat, id: string) {
    forall m: nat :: after < m < n ==> !PlansAt(caps, ops, m, id)
  }

  /** The row carries the accepted message, and the text and time of its last failure. */
  ghost predicate Tells(item: Item, ops: seq<Op>, story: Story)
    requires story.accepted < |ops| && ops[story.accepted].OpEnqueue?
    requires story.failed.Some? ==> story.failed.value < |ops| && ops[story.failed.value].OpFailed?
  {
    && Carries(item, ops[story.accepted].frame, ops[story.accepted].now)
    && item.lastError
       == (if story.failed.None? then None else Some(ops[story.failed.value].failure.errorMessage))
    && item.lastAttemptAt == (if story.failed.None? then None else Some(ops[story.failed.value].now))
  }

  ghost predicate PendingTold(caps: Caps, ops: seq<Op>, n: nat, id: string, item: Item, story: Story) {
    && IsStory(caps, ops, n, id, story) && Tells(item, ops, story)
    && item.nextAttemptAt == PlannedBy(ops[story.planned])
  }

  ghost predicate DeadTold(caps: Caps, ops: seq<Op>, n: nat, id: string, dead: DeadItem, story: Story) {
    && IsStory(caps, ops, n, id, story) && Tells(dead.item, ops, story)
    && story.failed.Some?
    && dead.deadLetteredAt == ops[story.failed.value].now
    && dead.reason == ops[story.failed.value].failure.errorMessage
  }

  // ---------------------------------------------------------------- one operation

  /** The row of an id, wherever it is. */
  datatype Row = Absent | InPending(item: Item) | InDead(dead: DeadItem)

  ghost function RowOf(s: Inbox, id: string): Row {
    if id in s.pending then InPending(s.pending[id])
    else if id in s.dead then InDead(s.dead[id])
    else Absent
  }

  lemma AcceptingRow(s: Inbox, caps: Caps, frame: Frame, now: string)
    requires var result := Enqueue(s, caps, frame, now).1; result.accepted && !result.duplicate
    ensures var row := RowOf(Enqueue(s, caps, frame, now).0, frame.id);
            && row.InPending? && Carries(row.item, frame, now) && row.item.nextAttemptAt == now
            && row.item.lastError == None && row.item.lastAttemptAt == None
  {
  }

  lemma OtherEnqueueRow(s: Inbox, caps: Caps, frame: Frame, now: string, id: string)
    requires var result := Enqueue(s, caps, frame, now).1; !result.accepted || result.duplicate || frame.id != id
    ensures RowOf(Enqueue(s, caps, frame, now).0, id) == RowOf(s, id)
  {
  }

  /** A failure keeps the message, and records its text and its time; a row that stays pending waits as the report says. */
  ghost predicate FailedRow(before: Item, after: Row, f: Failure, now: string) {
    && (after.InPending? ==>
          && after.item.nextAttemptAt == f.nextAttemptAt
          && SameMessage(before, after.item)
          && after.item.lastError == Some(f.errorMessage) && after.item.lastAttemptAt == Some(now))
    && (after.InDead? ==>
          && SameMessage(before, after.dead.item) && after.dead.deadLetteredAt == now
          && after.dead.reason == f.errorMessage
          && after.dead.item.lastError == Some(f.errorMessage) && after.dead.item.lastAttemptAt == Some(now))
    && !after.Absent?
  }

  ghost predicate SameMessage(a: Item, b: Item) {
    a == b.(nextAttemptAt := a.nextAttemptAt, attemptCount := a.attemptCount, lastError := a.lastError,
            lastAttemptAt := a.lastAttemptAt)
  }

  lemma FailingRow(s: Inbox, f: Failure, now: string)
    requires WellKept(s) && f.requestId in s.pending
    ensures FailedRow(s.pending[f.requestId], RowOf(MarkReplayFailure(s, f, now).0, f.requestId), f, now)
  {
  }

  lemma OtherFailureRow(s: Inbox, f: Failure, now: string, id: string)
    requires f.requestId != id || id !in s.pending
    ensures RowOf(MarkReplayFailure(s, f, now).0, id) == RowOf(s, id)
  {
  }

  lemma DeliveredRow(s: Inbox, requestId: string, id: string)
    ensures var row := RowOf(MarkDelivered(s, requestId), id);
            id != requestId || id !in s.pending ==> row == RowOf(s, id)
    ensures WellKept(s) && id == requestId && id in s.pending ==> RowOf(MarkDelivered(s, requestId), id) == Absent
  {
  }

  /** A replayed row is back as it was, due at once, with the reason as its last error. */
  ghost predicate ReplayedAs(dead: DeadItem, row: Row, now: string) {
    && row.InPending? && row.item.nextAttemptAt == now && SameMessage(dead.item, row.item)
    && row.item.lastError == Some(dead.reason) && row.item.lastAttemptAt == dead.item.lastAttemptAt
  }

  lemma ReplayedRow(s: Inbox, ids: seq<string>, now: string, id: string)
    requires WellKept(s)
    ensures var row := RowOf(ReplayAll(s, ids, now), id);
            if id in s.dead && id in ids then ReplayedAs(s.dead[id], row, now) else row == RowOf(s, id)
  {
    ReplayAllMovesTargets(s, ids, now);
  }

  lemma PurgedRow(s: Inbox, ids: seq<string>, id: string)
    requires WellKept(s)
    ensures RowOf(PurgeAll(s, ids), id) == if id in s.dead && id in ids then Absent else RowOf(s, id)
  {
    PurgeAllRemovesTargets(s, ids);
  }

  // ---------------------------------------------------------------- whole runs

  /** Some story accounts for the row. */
  ghost predicate Accounted(caps: Caps, ops: seq<Op>, n: nat, id: string, row: Row) {
    match row
    case Absent => true
    case InPending(item) => exists story :: PendingTold(caps, ops, n, id, item, story)
    case InDead(dead) => exists story :: DeadTold(caps, ops, n, id, dead, story)
  }

  lemma {:induction false} NotAcceptedYet(caps: Caps, ops: seq<Op>, after: nat, n: nat, next: nat, id: string)
    requires next == n + 1 && NotAccepted(caps, ops, after, n, id) && !AcceptsAt(caps, ops, n, id)
    ensures NotAccepted(caps, ops, after, next, id)
  {
    forall m: nat | after < m < next ensures !AcceptsAt(caps, ops, m, id) {
      assert m < n || m == n;
    }
  }

  lemma {:induction false} NotFailedYet(caps: Caps, ops: seq<Op>, after: nat, n: nat, next: nat, id: string)
    requires next == n + 1 && NotFailed(caps, ops, after, n, id) && !FailsAt(caps, ops, n, id)
    ensures NotFailed(caps, ops, after, next, id)
  {
    forall m: nat | after < m < next ensures !FailsAt(caps, ops, m, id) {
      assert m < n || m == n;
    }
  }

  lemma {:induction false} NotPlannedYet(caps: Caps, ops: seq<Op>, after: nat, n: nat, next: nat, id: string)
    requires next == n + 1 && NotPlanned(caps, ops, after, n, id) && !PlansAt(caps, ops, n, id)
    ensures NotPlanned(caps, ops, after, next, id)
  {
    forall m: nat | after < m < next ensures !PlansAt(caps, ops, m, id) {
      assert m < n || m == n;
    }
  }

  lemma {:induction false} JustNow(caps: Caps, ops: seq<Op>, n: nat, next: nat, id: string)
    requires next == n + 1
    ensures NotAccepted(caps, ops, n, next, id) && NotFailed(caps, ops, n, next, id) && NotPlanned(caps, ops, n, next, id)
  {
  }

  lemma {:induction false} StoryGoesOn(caps: Caps, ops: seq<Op>, n: nat, next: nat, id: string, story: Story)
    requires n < |ops| && next == n + 1 && IsStory(caps, ops, n, id, story) && !PlansAt(caps, ops, n, id)
    ensures IsStory(caps, ops, next, id, story)
  {
    NotAcceptedYet(caps, ops, story.accepted, n, next, id);
    NotFailedYet(caps, ops, if story.failed.Some? then story.failed.value else story.accepted, n, next, id);
    NotPlannedYet(caps, ops, story.planned, n, next, id);
  }

  lemma {:induction false} StoryBegins(caps: Caps, ops: seq<Op>, n: nat, next: nat, id: string)
    requires next == n + 1 && AcceptsAt(caps, ops, n, id)
    ensures IsStory(caps, ops, next, id, Story(n, None, n))
  {
    JustNow(caps, ops, n, next, id);
  }

  lemma {:induction false} StoryFails(caps: Caps, ops: seq<Op>, n: nat, next: nat, id: string, story: Story)
    requires next == n + 1 && FailsAt(caps, ops, n, id) && IsStory(caps, ops, n, id, story)
    ensures IsStory(caps, ops, next, id, Story(story.accepted, Some(n), n))
  {
    NotAcceptedYet(caps, ops, story.accepted, n, next, id);
    JustNow(caps, ops, n, next, id);
  }

  lemma {:induction false} StoryReplays(caps: Caps, ops: seq<Op>, n: nat, next: nat, id: string, story: Story)
    requires next == n + 1 && ReplaysAt(caps, ops, n, id) && IsStory(caps, ops, n, id, story)
    ensures IsStory(caps, ops, next, id, Story(story.accepted, story.failed, n))
  {
    NotAcceptedYet(caps, ops, story.accepted, n, next, id);
    NotFailedYet(caps, ops, if story.failed.Some? then story.failed.value else story.accepted, n, next, id);
    JustNow(caps, ops, n, next, id);
  }

  /** An operation that neither accepts, fails nor replays an id leaves its row alone or removes it. */
  lemma {:induction false} UntouchedRow(caps: Caps, ops: seq<Op>, n: nat, id: string)
    requires n < |ops| && WellKept(Before(caps, ops, n)) && !PlansAt(caps, ops, n, id)
    ensures var s := Before(caps, ops, n);
            var row := RowOf(Step(s, caps, ops[n]), id);
            row == RowOf(s, id) || row == Absent
  {
    var s := Before(caps, ops, n);
    match ops[n]
    case OpEnqueue(frame, now) => OtherEnqueueRow(s, caps, frame, now, id);
    case OpDelivered(requestId) => DeliveredRow(s, requestId, id);
    case OpFailed(f, now) => OtherFailureRow(s, f, now, id);
    case OpReplay(ids, now) => ReplayedRow(s, ids, now, id);
    case OpPurge(ids) => PurgedRow(s, ids, id);
  }

  lemma {:induction false} AcceptedAccounted(caps: Caps, ops: seq<Op>, n: nat, next: nat, id: string)
    requires next == n + 1 && AcceptsAt(caps, ops, n, id)
    ensures Accounted(caps, ops, next, id, RowOf(Step(Before(caps, ops, n), caps, ops[n]), id))
  {
    AcceptingRow(Before(caps, ops, n), caps, ops[n].frame, ops[n].now);
    StoryBegins(caps, ops, n, next, id);
    var row := RowOf(Step(Before(caps, ops, n), caps, ops[n]), id);
    assert PendingTold(caps, ops, next, id, row.item, Story(n, None, n));
  }

  lemma {:induction false} FailureTold(
    caps: Caps, ops: seq<Op>, n: nat, next: nat, id: string, item: Item, row: Row, story: Story)
    requires next == n + 1 && FailsAt(caps, ops, n, id) && PendingTold(caps, ops, n, id, item, story)
    requires FailedRow(item, row, ops[n].failure, ops[n].now)
    ensures Accounted(caps, ops, next, id, row)
  {
    StoryFails(caps, ops, n, next, id, story);
    var longer := Story(story.accepted, Some(n), n);
    if row.InPending? {
      assert PendingTold(caps, ops, next, id, row.item, longer);
    } else {
      assert DeadTold(caps, ops, next, id, row.dead, longer);
    }
  }

  lemma {:induction false} FailedAccounted(caps: Caps, ops: seq<Op>, n: nat, next: nat, id: string, s: Inbox)
    requires next == n + 1 && FailsAt(caps, ops, n, id) && s == Before(caps, ops, n) && WellKept(s)
    requires Accounted(caps, ops, n, id, RowOf(s, id))
    ensures Accounted(caps, ops, next, id, RowOf(MarkReplayFailure(s, ops[n].failure, ops[n].now).0, id))
  {
    var item := s.pending[id];
    assert RowOf(s, id) == InPending(item);
    var story :| PendingTold(caps, ops, n, id, item, story);
    FailingRow(s, ops[n].failure, ops[n].now);
    FailureTold(caps, ops, n, next, id, item, RowOf(MarkReplayFailure(s, ops[n].failure, ops[n].now).0, id), story);
  }

  lemma {:induction false} ReplayTold(
    caps: Caps, ops: seq<Op>, n: nat, next: nat, id: string, dead: DeadItem, row: Row, story: Story)
    requires next == n + 1 && ReplaysAt(caps, ops, n, id) && DeadTold(caps, ops, n, id, dead, story)
    requires ReplayedAs(dead, row, ops[n].now)
    ensures Accounted(caps, ops, next, id, row)
  {
    StoryReplays(caps, ops, n, next, id, story);
    assert PendingTold(caps, ops, next, id, row.item, Story(story.accepted, story.failed, n));
  }

  lemma {:induction false} ReplayedAccounted(caps: Caps, ops: seq<Op>, n: nat, next: nat, id: string, s: Inbox)
    requires next == n + 1 && ReplaysAt(caps, ops, n, id) && s == Before(caps, ops, n) && WellKept(s)
    requires Accounted(caps, ops, n, id, RowOf(s, id))
    ensures Accounted(caps, ops, next, id, RowOf(ReplayAll(s, ops[n].requestIds, ops[n].now), id))
  {
    var dead := s.dead[id];
    assert RowOf(s, id) == InDead(dead);
    var story :| DeadTold(caps, ops, n, id, dead, story);
    ReplayedRow(s, ops[n].requestIds, ops[n].now, id);
    ReplayTold(caps, ops, n, next, id, dead, RowOf(ReplayAll(s, ops[n].requestIds, ops[n].now), id), story);
  }

  lemma {:induction false} UntouchedAccounted(caps: Caps, ops: seq<Op>, n: nat, next: nat, id: string, row: Row)
    requires n < |ops| && next == n + 1 && !PlansAt(caps, ops, n, id) && Accounted(caps, ops, n, id, row)
    ensures Accounted(caps, ops, next, id, row)
  {
    match row
    case Absent =>
    case InPending(item) =>
      var story :| PendingTold(caps, ops, n, id, item, story);
      StoryGoesOn(caps, ops, n, next, id, story);
      assert PendingTold(caps, ops, next, id, item, story);
    case InDead(dead) =>
      var story :| DeadTold(caps, ops, n, id, dead, story);
      StoryGoesOn(caps, ops, n, next, id, story);
      assert DeadTold(caps, ops, next, id, dead, story);
  }

  lemma {:induction false} StepAccounted(caps: Caps, ops: seq<Op>, n: nat, next: nat, id: string)
    requires n < |ops| && next == n + 1
    requires Accounted(caps, ops, n, id, RowOf(Before(caps, ops, n), id))
    ensures Accounted(caps, ops, next, id, RowOf(Before(caps, ops, next), id))
  {
    var s := Before(caps, ops, n);
    RunWellKept(caps, ops[..n]);
    BeforeNext(caps, ops, n, next);
    if AcceptsAt(caps, ops, n, id) {
      AcceptedAccounted(caps, ops, n, next, id);
    } else if FailsAt(caps, ops, n, id) {
      FailedAccounted(caps, ops, n, next, id, s);
    } else if ReplaysAt(caps, ops, n, id) {
      ReplayedAccounted(caps, ops, n, next, id, s);
    } else {
      UntouchedRow(caps, ops, n, id);
      UntouchedAccounted(caps, ops, n, next, id, RowOf(s, id));
    }
  }

  lemma {:induction false} RowsAlwaysAccounted(caps: Caps, ops: seq<Op>, n: nat, id: string)
    requires n <= |ops|
    ensures Accounted(caps, ops, n, id, RowOf(Before(caps, ops, n), id))
  {
    if n == 0 {
      assert Before(caps, ops, 0) == EMPTY;
    } else {
      RowsAlwaysAccounted(caps, ops, n - 1, id);
      StepAccounted(caps, ops, n - 1, n, id);
    }
  }

  /**
   * Every row carries the message of the operation that last accepted its id as new, whatever failures, dead-lettering and
   * replays it has been through, with the text and time of its last failure since; a pending row is due when the last
   * operation on it planned.
   */
  lemma {:induction false} RowsTellTheirStory(caps: Caps, ops: seq<Op>, id: string)
    ensures var s := Run(caps, ops);
            && (id in s.pending ==> exists story :: PendingTold(caps, ops, |ops|, id, s.pending[id], story))
            && (id in s.dead ==> exists story :: DeadTold(caps, ops, |ops|, id, s.dead[id], story))
  {
    RunWellKept(caps, ops);
    RowsAlwaysAccounted(caps, ops, |ops|, id);
    assert ops[..|ops|] == ops;
  }
}
