/** How long a revocation lasts: over every run, an agent is revoked for thirty days after each time it was marked. */
module TrustRevocations {
  import opened Outcomes
  import opened TrustModel
  import opened TrustRuns
  import opened TrustCleanup
  import Did

  const THIRTY_DAYS_MS := 2_592_000_000

  ghost predicate Marks(events: seq<Event>, j: nat, agent: string) {
    j < |events| && events[j].call == CallMarkRevoked(agent)
  }

  /** No call but marking the agent adds or changes its marker, and no call drops a marker that has not expired. */
  lemma {:induction false} OtherCallsKeepMarker(ext: Externals, sweeps: bool, s: Store, e: Event, agent: string)
    requires e.call != CallMarkRevoked(agent)
    ensures var t := Step(ext, sweeps, s, e).0;
            && (agent in t.revoked ==> agent in s.revoked && t.revoked[agent] == s.revoked[agent])
            && (agent in s.revoked && s.revoked[agent] > e.now ==> agent in t.revoked)
  {
    match e.call
    case CallCreate(input) => CreateKeepsMarker(ext, sweeps, s, input, e.now, agent);
    case CallConfirm(input, clock) => ConfirmKeepsMarker(ext, sweeps, s, input, e.now, clock, agent);
    case CallStatus(ticket) => StatusKeepsMarker(ext, sweeps, s, ticket, e.now, agent);
    case _ =>
  }

  ghost predicate MarkerKept(s: Store, t: Store, now: int, agent: string) {
    && (agent in t.revoked ==> agent in s.revoked && t.revoked[agent] == s.revoked[agent])
    && (agent in s.revoked && s.revoked[agent] > now ==> agent in t.revoked)
  }

  lemma CleanupKeepsMarker(sweeps: bool, s: Store, now: int, skip: Option<string>, agent: string)
    ensures MarkerKept(s, MaybeCleanup(sweeps, s, now, skip), now, agent)
  {
  }

  lemma CreateKeepsMarker(ext: Externals, sweeps: bool, s: Store, input: CreateInput, now: int, agent: string)
    ensures MarkerKept(s, CreateTicket(ext, sweeps, s, input, now).0, now, agent)
  {
    CleanupKeepsMarker(sweeps, s, now, None, agent);
  }

  lemma ConfirmKeepsMarker(
    ext: Externals, sweeps: bool, s: Store, input: ConfirmInput, now: int, clock: int, agent: string)
    ensures MarkerKept(s, ConfirmTicket(ext, sweeps, s, input, now, clock).0, now, agent)
  {
    var looked := ConfirmLookup(ext, sweeps, s, input, now).0;
    assert MarkerKept(s, looked, now, agent);
  }

  lemma StatusKeepsMarker(ext: Externals, sweeps: bool, s: Store, ticket: string, now: int, agent: string)
    ensures MarkerKept(s, TicketStatus(ext, sweeps, s, ticket, now).0, now, agent)
  {
  }

  lemma MarkingWritesMarker(ext: Externals, sweeps: bool, s: Store, now: int, agent: string)
    requires Did.IsAgentDid(ext.decodes, agent)
    ensures var (t, answer) := MarkRevoked(ext, sweeps, s, agent, now);
            answer == Done && agent in t.revoked && t.revoked[agent] == now + THIRTY_DAYS_MS
  {
  }

  /** The marker in a store was written by a mark of the run. */
  lemma {:induction false} MarkerComesFromMark(ext: Externals, sweeps: bool, events: seq<Event>, n: nat, agent: string)
    returns (j: nat)
    requires n <= |events| && Did.IsAgentDid(ext.decodes, agent) && agent in Before(ext, sweeps, events, n).revoked
    ensures j < n && Marks(events, j, agent)
    ensures Before(ext, sweeps, events, n).revoked[agent] == events[j].now + THIRTY_DAYS_MS
    decreases n
  {
    assert n > 0;
    BeforeNext(ext, sweeps, events, n - 1);
    var s, e := Before(ext, sweeps, events, n - 1), events[n - 1];
    if e.call == CallMarkRevoked(agent) {
      MarkingWritesMarker(ext, sweeps, s, e.now, agent);
      j := n - 1;
    } else {
      OtherCallsKeepMarker(ext, sweeps, s, e, agent);
      j := MarkerComesFromMark(ext, sweeps, events, n - 1, agent);
    }
  }

  /** Until thirty days after a mark have passed, a marker that lasts at least as long is in the store. */
  lemma {:induction false} MarkIsRemembered(
    ext: Externals, sweeps: bool, events: seq<Event>, j: nat, n: nat, agent: string, now: int)
    requires Monotone(events) && j < n <= |events| && Marks(events, j, agent) && Did.IsAgentDid(ext.decodes, agent)
    requires events[n - 1].now <= now < events[j].now + THIRTY_DAYS_MS
    ensures var s := Before(ext, sweeps, events, n);
            agent in s.revoked && s.revoked[agent] >= events[j].now + THIRTY_DAYS_MS
    decreases n
  {
    BeforeNext(ext, sweeps, events, n - 1);
    var s, e := Before(ext, sweeps, events, n - 1), events[n - 1];
    assert events[j].now <= e.now;
    if e.call == CallMarkRevoked(agent) {
      MarkingWritesMarker(ext, sweeps, s, e.now, agent);
    } else {
      assert events[n - 2].now <= e.now;
      MarkIsRemembered(ext, sweeps, events, j, n - 1, agent, now);
      OtherCallsKeepMarker(ext, sweeps, s, e, agent);
    }
  }

  /**
   * Under a clock that never runs backwards, with or without clean-up, an agent is reported revoked exactly when it was
   * marked less than thirty days ago.
   */
  lemma {:induction false} RevokedForThirtyDays(ext: Externals, sweeps: bool, events: seq<Event>, i: nat, agent: string)
    requires Monotone(events) && i < |events| && events[i].call == CallIsRevoked(agent)
    requires Did.IsAgentDid(ext.decodes, agent)
    ensures AnswerAt(ext, sweeps, events, i)
            == Flag(exists j: nat :: j < i && Marks(events, j, agent) && events[i].now < events[j].now + THIRTY_DAYS_MS)
  {
    var s, now := Before(ext, sweeps, events, i), events[i].now;
    if agent in s.revoked {
      var j := MarkerComesFromMark(ext, sweeps, events, i, agent);
      assert Marks(events, j, agent);
    }
    forall j: nat | j < i && Marks(events, j, agent) && now < events[j].now + THIRTY_DAYS_MS
      ensures agent in s.revoked && s.revoked[agent] > now
    {
      assert events[i - 1].now <= now;
      MarkIsRemembered(ext, sweeps, events, j, i, agent, now);
    }
    CleanupKeepsMarker(sweeps, s, now, None, agent);
  }

  /** Marking and checking are refused exactly for strings that are not agent identifiers, each with its own reason. */
  lemma OnlyAgentsAreRevoked(ext: Externals, sweeps: bool, s: Store, agent: string, now: int)
    ensures var (t, answer) := MarkRevoked(ext, sweeps, s, agent, now);
            && answer == (if Did.IsAgentDid(ext.decodes, agent) then Done else Refused(RevokeInvalidBody))
            && (answer.Refused? ==> t == s)
    ensures var (t, answer) := CheckRevoked(ext, sweeps, s, agent, now);
            if Did.IsAgentDid(ext.decodes, agent) then answer.Flag?
            else answer == Refused(RevokedCheckInvalidBody) && t == s
  {
  }
}
