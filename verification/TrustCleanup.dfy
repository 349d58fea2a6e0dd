/**
 * What the lazy clean-up shows: a store that sweeps expired entries and a store that never does, asked the same calls
 * under a clock that does not run backwards, differ exactly where this module says.
 */
module TrustCleanup {
  import opened Outcomes
  import opened TrustModel
  import opened TrustRuns
  import TicketText

  // ---------------------------------------------------------------- the simulation

  /** `c` lacks nothing of `n` except entries that have expired by `now`. */
  ghost predicate Trails<V>(c: map<string, V>, n: map<string, V>, expiry: V -> int, now: int) {
    SubMap(c, n) && forall key :: key in n && key !in c ==> expiry(n[key]) <= now
  }

  /** How the swept store `c` and the unswept store `n` are related at time `now`. */
  ghost predicate Covers(c: Store, n: Store, now: int) {
    && c.pairKeys == n.pairKeys && c.peers == n.peers
    && Trails(c.pending, n.pending, PendingExpiry, now)
    && Trails(c.confirmed, n.confirmed, ConfirmedExpiry, now)
    && Trails(c.revoked, n.revoked, MarkerExpiry, now)
    && TicketsDisjoint(n)
  }

  /** The ticket text stored under `kid` decodes to that id and to the stored expiry. */
  ghost predicate Dated(ext: Externals, kid: string, ticket: string, expiresAtMs: int) {
    var parsed := ext.parse(ticket);
    parsed.Ok? && parsed.value.kid == kid && parsed.value.exp * 1000 == expiresAtMs
  }

  ghost predicate PendingDated(ext: Externals, s: Store) {
    forall kid :: kid in s.pending ==> Dated(ext, kid, s.pending[kid].ticket, s.pending[kid].expiresAtMs)
  }

  ghost predicate ConfirmedDated(ext: Externals, s: Store) {
    forall kid :: kid in s.confirmed ==> Dated(ext, kid, s.confirmed[kid].ticket, s.confirmed[kid].expiresAtMs)
  }

  lemma CleanupCovers(c: Store, n: Store, before: int, now: int, skip: Option<string>)
    requires Covers(c, n, before) && before <= now
    ensures Covers(Cleanup(c, now, skip), n, now)
  {
  }

  // ---------------------------------------------------------------- one call

  lemma CreateCovers(ext: Externals, c: Store, n: Store, before: int, input: CreateInput, now: int)
    requires Covers(c, n, before) && before <= now
    ensures var (c', a) := CreateTicket(ext, true, c, input, now);
            var (n', b) := CreateTicket(ext, false, n, input, now);
            Covers(c', n', now) && a == b
  {
    CleanupCovers(c, n, before, now, None);
  }

  /** The stores look up the same ticket, or the swept one refuses where the other will. */
  lemma {:induction false} LookupCovers(ext: Externals, c: Store, n: Store, before: int, input: ConfirmInput, now: int)
    requires Covers(c, n, before) && before <= now
    ensures var (looked, found) := ConfirmLookup(ext, true, c, input, now);
            var (looked', found') := ConfirmLookup(ext, false, n, input, now);
            && Covers(looked, n, now) && looked' == n
            && (found == found' || (found.Err? && (found'.Err? || Objection(ext, found'.value).Some?)))
            && (found.Err? && found'.Ok? ==> found'.value.payload.kid !in looked.pending)
  {
    var parsed := ext.parse(TicketText.Normalize(input.ticket));
    if parsed.Ok? {
      CleanupCovers(c, n, before, now, Some(parsed.value.kid));
    }
  }

  /** Both stores confirm, or both refuse, perhaps for different reasons. */
  lemma {:induction false} ConfirmCovers(
    ext: Externals, c: Store, n: Store, before: int, input: ConfirmInput, now: int, clock: int)
    requires Covers(c, n, before) && before <= now
    ensures var (c', a) := ConfirmTicket(ext, true, c, input, now, clock);
            var (n', b) := ConfirmTicket(ext, false, n, input, now, clock);
            Covers(c', n', now) && (a == b || (a.Refused? && b.Refused?))
  {
    LookupCovers(ext, c, n, before, input, now);
    var (looked, found) := ConfirmLookup(ext, true, c, input, now);
    var (looked', found') := ConfirmLookup(ext, false, n, input, now);
    if found.Ok? {
      CheckCovers(ext, looked, n, found.value, now, clock);
    } else if found'.Ok? {
      RefusalCovers(ext, looked, n, found'.value, now);
    }
  }

  /** The only confirmations refused for different reasons: the ticket's id was swept, pending or confirmed with its text. */
  ghost predicate RefusalDiffers(ext: Externals, c: Store, n: Store, input: ConfirmInput) {
    var ticket := TicketText.Normalize(input.ticket);
    var parsed := ext.parse(ticket);
    && parsed.Ok?
    && var kid := parsed.value.kid;
       || (kid in n.pending && kid !in c.pending)
       || (kid in n.confirmed && kid !in c.confirmed && n.confirmed[kid].ticket == ticket)
  }

  lemma {:induction false} SweptEntriesOnlyDiffer(
    ext: Externals, c: Store, n: Store, before: int, input: ConfirmInput, now: int)
    requires Covers(c, n, before) && before <= now
    ensures var found := ConfirmLookup(ext, true, c, input, now).1;
            var found' := ConfirmLookup(ext, false, n, input, now).1;
            && (!RefusalDiffers(ext, c, n, input) ==> found == found')
            && (RefusalDiffers(ext, c, n, input) ==>
                  && found == Err(TicketNotFound)
                  && (found' == Err(TicketAlreadyConfirmed) || (found'.Ok? && found'.value.stored.expiresAtMs <= now
                                                                && found'.value.now == now)))
  {
  }

  /** The stores answer a confirmation alike exactly when it does not ask for a swept ticket. */
  lemma {:induction false} ConfirmAnswersCover(
    ext: Externals, c: Store, n: Store, before: int, input: ConfirmInput, now: int, clock: int)
    requires Covers(c, n, before) && before <= now
    ensures ConfirmTicket(ext, true, c, input, now, clock).1 == ConfirmTicket(ext, false, n, input, now, clock).1
            <==> !RefusalDiffers(ext, c, n, input)
  {
    SweptEntriesOnlyDiffer(ext, c, n, before, input, now);
  }

  /** Forgetting a ticket that the swept store has already lost keeps the stores related. */
  lemma RefusalCovers(ext: Externals, c: Store, n: Store, k: Confirmation, now: int)
    requires Covers(c, n, now) && k.payload.kid !in c.pending
    ensures Covers(c, ConfirmCheck(ext, n, k).0, now)
  {
  }

  lemma RemoveTrails<V>(c: map<string, V>, n: map<string, V>, expiry: V -> int, now: int, key: string)
    requires Trails(c, n, expiry, now)
    ensures Trails(c - {key}, n - {key}, expiry, now)
  {
  }

  lemma InsertTrails<V>(c: map<string, V>, n: map<string, V>, expiry: V -> int, now: int, key: string, value: V)
    requires Trails(c, n, expiry, now)
    ensures Trails(c[key := value], n[key := value], expiry, now)
  {
  }

  lemma {:induction false} CheckCovers(ext: Externals, c: Store, n: Store, k: Confirmation, now: int, clock: int)
    requires Covers(c, n, now)
    ensures Covers(ConfirmCheck(ext, c, k).0, ConfirmCheck(ext, n, k).0, now)
    ensures Covers(ConfirmCommit(c, k, clock), ConfirmCommit(n, k, clock), now)
  {
    RemoveTrails(c.pending, n.pending, PendingExpiry, now, k.payload.kid);
    var entry := ConfirmCommit(n, k, clock).confirmed[k.payload.kid];
    InsertTrails(c.confirmed, n.confirmed, ConfirmedExpiry, now, k.payload.kid, entry);
    assert ConfirmCommit(c, k, clock).confirmed == c.confirmed[k.payload.kid := entry];
    assert ConfirmCommit(n, k, clock).confirmed == n.confirmed[k.payload.kid := entry];
  }

  /** The only status question on which the stores can differ. */
  ghost predicate StatusDiffers(ext: Externals, c: Store, n: Store, ticketInput: string, now: int) {
    var ticket := TicketText.Normalize(ticketInput);
    var parsed := ext.parse(ticket);
    && parsed.Ok?
    && parsed.value.kid in n.confirmed && parsed.value.kid !in c.confirmed
    && n.confirmed[parsed.value.kid].ticket == ticket
    && parsed.value.exp * 1000 > now
  }

  lemma {:induction false} StatusAfterCleanupCovers(
    ext: Externals, c: Store, n: Store, ticket: string, payload: Payload, now: int)
    requires Covers(c, n, now) && PendingDated(ext, n) && ext.parse(ticket) == Ok(payload)
    ensures var (c', a) := StatusAfterCleanup(c, ticket, payload, now);
            var (n', b) := StatusAfterCleanup(n, ticket, payload, now);
            && Covers(c', n', now)
            && (a == b <==> !(payload.kid in n.confirmed && payload.kid !in c.confirmed
                              && n.confirmed[payload.kid].ticket == ticket && payload.exp * 1000 > now))
  {
    RemoveTrails(c.pending, n.pending, PendingExpiry, now, payload.kid);
    RemoveTrails(c.confirmed, n.confirmed, ConfirmedExpiry, now, payload.kid);
    var kid := payload.kid;
    if kid in n.pending && n.pending[kid].ticket == ticket {
      assert Dated(ext, kid, ticket, n.pending[kid].expiresAtMs);
      assert c.pending - {kid} == c.pending || kid in c.pending;
    } else if kid in n.confirmed && n.confirmed[kid].ticket == ticket {
      assert c.confirmed - {kid} == c.confirmed || kid in c.confirmed;
    }
  }

  /**
   * The stores answer a status question alike exactly when it is not about a swept confirmation whose own ticket
   * claims to be valid still.
   */
  lemma {:induction false} StatusCovers(ext: Externals, c: Store, n: Store, before: int, ticket: string, now: int)
    requires Covers(c, n, before) && before <= now && PendingDated(ext, n)
    ensures var (c', a) := TicketStatus(ext, true, c, ticket, now);
            var (n', b) := TicketStatus(ext, false, n, ticket, now);
            Covers(c', n', now) && (a == b <==> !StatusDiffers(ext, c, n, ticket, now))
  {
    var parsed := ext.parse(TicketText.Normalize(ticket));
    if parsed.Ok? {
      var swept := Cleanup(c, now, Some(parsed.value.kid));
      CleanupCovers(c, n, before, now, Some(parsed.value.kid));
      assert parsed.value.kid in swept.confirmed <==> parsed.value.kid in c.confirmed;
      StatusAfterCleanupCovers(ext, swept, n, TicketText.Normalize(ticket), parsed.value, now);
    } else {
      CoversLater(c, n, before, now);
    }
  }

  lemma CoversLater(c: Store, n: Store, before: int, now: int)
    requires Covers(c, n, before) && before <= now
    ensures Covers(c, n, now)
  {
  }

  lemma {:induction false} RevocationCovers(ext: Externals, c: Store, n: Store, before: int, agent: string, now: int)
    requires Covers(c, n, before) && before <= now
    ensures Covers(MarkRevoked(ext, true, c, agent, now).0, MarkRevoked(ext, false, n, agent, now).0, now)
    ensures MarkRevoked(ext, true, c, agent, now).1 == MarkRevoked(ext, false, n, agent, now).1
    ensures Covers(CheckRevoked(ext, true, c, agent, now).0, CheckRevoked(ext, false, n, agent, now).0, now)
    ensures CheckRevoked(ext, true, c, agent, now).1 == CheckRevoked(ext, false, n, agent, now).1
  {
    CleanupCovers(c, n, before, now, None);
  }

  /** The calls whose answers differ. */
  ghost predicate AnswersDiffer(ext: Externals, c: Store, n: Store, e: Event) {
    match e.call
    case CallStatus(ticket) => StatusDiffers(ext, c, n, ticket, e.now)
    case CallConfirm(input, _) => RefusalDiffers(ext, c, n, input)
    case _ => false
  }

  /** Answers differ exactly on those calls, and a confirmation succeeds in both stores or in neither. */
  ghost predicate ComparedExactly(ext: Externals, c: Store, n: Store, e: Event, a: Answer, b: Answer) {
    && (a == b <==> !AnswersDiffer(ext, c, n, e))
    && (e.call.CallConfirm? ==> (a.PairConfirmed? <==> b.PairConfirmed?))
  }

  lemma GraphCallsCover(ext: Externals, c: Store, n: Store, before: int, e: Event)
    requires Covers(c, n, before) && before <= e.now
    requires e.call.CallUpsert? || e.call.CallIsKnown? || e.call.CallIsAllowed?
    ensures Covers(Step(ext, true, c, e).0, Step(ext, false, n, e).0, e.now)
    ensures Step(ext, true, c, e).1 == Step(ext, false, n, e).1
  {
  }

  lemma {:induction false} StepCovers(ext: Externals, c: Store, n: Store, before: int, e: Event)
    requires Covers(c, n, before) && before <= e.now && PendingDated(ext, n)
    ensures Covers(Step(ext, true, c, e).0, Step(ext, false, n, e).0, e.now)
    ensures ComparedExactly(ext, c, n, e, Step(ext, true, c, e).1, Step(ext, false, n, e).1)
  {
    match e.call
    case CallCreate(input) => CreateCovers(ext, c, n, before, input, e.now);
    case CallConfirm(input, clock) =>
      ConfirmCovers(ext, c, n, before, input, e.now, clock);
      ConfirmAnswersCover(ext, c, n, before, input, e.now, clock);
    case CallStatus(ticket) => StatusCovers(ext, c, n, before, ticket, e.now);
    case CallMarkRevoked(agent) => RevocationCovers(ext, c, n, before, agent, e.now);
    case CallIsRevoked(agent) => RevocationCovers(ext, c, n, before, agent, e.now);
    case _ => GraphCallsCover(ext, c, n, before, e);
  }

  // ---------------------------------------------------------------- expiry of stored tickets

  /** Under this key only tickets with this expiry verify for this id. */
  ghost predicate KeyBindsExpiry(ext: Externals, kid: string, key: string, exp: int) {
    forall p: Payload :: p.kid == kid && ext.verify(p, key) ==> p.exp == exp
  }

  ghost predicate PendingBound(ext: Externals, s: Store) {
    forall kid :: kid in s.pending ==>
      var parsed := ext.parse(s.pending[kid].ticket);
      parsed.Ok? && KeyBindsExpiry(ext, kid, s.pending[kid].publicKeyX, parsed.value.exp)
  }

  /** A create call binds its key when that key verifies no other expiry for the ticket's id. */
  ghost predicate BindsKey(ext: Externals, e: Event) {
    e.call.CallCreate? && CreatedEntry(ext, e.call.create).Ok? ==>
      var (payload, entry) := CreatedEntry(ext, e.call.create).value;
      KeyBindsExpiry(ext, payload.kid, entry.publicKeyX, payload.exp)
  }

  ghost predicate SignsOneTicketPerId(ext: Externals, key: string) {
    forall p: Payload, q: Payload :: p.kid == q.kid && ext.verify(p, key) && ext.verify(q, key) ==> p == q
  }

  /** An issuer who registers a correctly signed ticket and signs one ticket per id with the key binds the key. */
  lemma HonestIssuersBindKeys(ext: Externals, e: Event)
    requires e.call.CallCreate? && CreatedEntry(ext, e.call.create).Ok?
    requires var (payload, entry) := CreatedEntry(ext, e.call.create).value;
             ext.verify(payload, entry.publicKeyX) && SignsOneTicketPerId(ext, entry.publicKeyX)
    ensures BindsKey(ext, e)
  {
  }

  lemma {:induction false} StepDatesPending(ext: Externals, sweeps: bool, s: Store, e: Event)
    requires PendingDated(ext, s)
    ensures PendingDated(ext, Step(ext, sweeps, s, e).0)
  {
    var t := Step(ext, sweeps, s, e).0;
    forall kid | kid in t.pending ensures Dated(ext, kid, t.pending[kid].ticket, t.pending[kid].expiresAtMs) {
      if CreatedKid(ext, e) == Some(kid) {
        CreateWrites(ext, sweeps, s, e.call.create, e.now);
      } else {
        StepPending(ext, sweeps, s, e, kid);
      }
    }
  }

  lemma {:induction false} StepBindsPending(ext: Externals, sweeps: bool, s: Store, e: Event)
    requires PendingBound(ext, s) && BindsKey(ext, e)
    ensures PendingBound(ext, Step(ext, sweeps, s, e).0)
  {
    var t := Step(ext, sweeps, s, e).0;
    forall kid | kid in t.pending
      ensures var parsed := ext.parse(t.pending[kid].ticket);
              parsed.Ok? && KeyBindsExpiry(ext, kid, t.pending[kid].publicKeyX, parsed.value.exp)
    {
      if CreatedKid(ext, e) == Some(kid) {
        CreateWrites(ext, sweeps, s, e.call.create, e.now);
      } else {
        StepPending(ext, sweeps, s, e, kid);
      }
    }
  }

  lemma {:induction false} StepDatesConfirmed(ext: Externals, sweeps: bool, s: Store, e: Event)
    requires PendingDated(ext, s) && PendingBound(ext, s) && ConfirmedDated(ext, s)
    ensures ConfirmedDated(ext, Step(ext, sweeps, s, e).0)
  {
    match e.call
    case CallCreate(input) => CreateWrites(ext, sweeps, s, input, e.now);
    case CallConfirm(input, clock) =>
      ConfirmWrites(ext, sweeps, s, input, e.now, clock);
      LookupOnlyForgets(ext, sweeps, s, input, e.now);
      LookupKeepsTicketText(ext, sweeps, s, input, e.now);
    case CallUpsert(_, _) =>
    case _ => OtherCallsOnlyForget(ext, sweeps, s, e);
  }

  lemma LookupKeepsTicketText(ext: Externals, sweeps: bool, s: Store, input: ConfirmInput, now: int)
    ensures var found := ConfirmLookup(ext, sweeps, s, input, now).1;
            found.Ok? ==> found.value.ticket == TicketText.Normalize(input.ticket)
  {
  }

  // ---------------------------------------------------------------- whole runs

  ghost predicate Monotone(events: seq<Event>) {
    forall i, j :: 0 <= i < j < |events| ==> events[i].now <= events[j].now
  }

  lemma {:induction false} PendingAlwaysDated(ext: Externals, sweeps: bool, events: seq<Event>, i: nat)
    requires i <= |events|
    ensures PendingDated(ext, Before(ext, sweeps, events, i))
    decreases i
  {
    if i > 0 {
      PendingAlwaysDated(ext, sweeps, events, i - 1);
      BeforeNext(ext, sweeps, events, i - 1);
      StepDatesPending(ext, sweeps, Before(ext, sweeps, events, i - 1), events[i - 1]);
    }
  }

  /** After every monotone run the swept store lacks nothing but expired entries of the other. */
  lemma {:induction false} RunCovers(ext: Externals, events: seq<Event>, i: nat)
    requires i < |events| && Monotone(events)
    ensures Covers(Before(ext, true, events, i), Before(ext, false, events, i), events[i].now)
    decreases i
  {
    var c, n := Before(ext, true, events, i), Before(ext, false, events, i);
    if i > 0 {
      RunCovers(ext, events, i - 1);
      PendingAlwaysDated(ext, false, events, i - 1);
      BeforeNext(ext, true, events, i - 1);
      BeforeNext(ext, false, events, i - 1);
      StepCovers(ext, Before(ext, true, events, i - 1), Before(ext, false, events, i - 1), events[i - 1].now, events[i - 1]);
      CoversLater(c, n, events[i - 1].now, events[i].now);
    }
  }

  /**
   * Under a clock that never runs backwards, in every run, sweeping changes an answer exactly when the call asks for
   * the status of a swept confirmation whose ticket claims to be valid still, or asks to confirm a swept ticket; and a
   * confirmation succeeds in both stores or in neither.
   */
  lemma {:induction false} CleanupShowsExactly(ext: Externals, events: seq<Event>, i: nat)
    requires i < |events| && Monotone(events)
    ensures ComparedExactly(ext, Before(ext, true, events, i), Before(ext, false, events, i), events[i],
                            AnswerAt(ext, true, events, i), AnswerAt(ext, false, events, i))
  {
    RunCovers(ext, events, i);
    PendingAlwaysDated(ext, false, events, i);
    StepCovers(ext, Before(ext, true, events, i), Before(ext, false, events, i), events[i].now, events[i]);
  }

  lemma {:induction false} UnsweptIsDated(ext: Externals, events: seq<Event>, i: nat)
    requires i <= |events|
    requires forall j :: 0 <= j < i ==> BindsKey(ext, events[j])
    ensures var n := Before(ext, false, events, i);
            PendingBound(ext, n) && ConfirmedDated(ext, n)
    decreases i
  {
    if i > 0 {
      UnsweptIsDated(ext, events, i - 1);
      PendingAlwaysDated(ext, false, events, i - 1);
      BeforeNext(ext, false, events, i - 1);
      BoundStep(ext, Before(ext, false, events, i - 1), events[i - 1]);
    }
  }

  lemma {:induction false} BoundStep(ext: Externals, n: Store, e: Event)
    requires PendingDated(ext, n) && PendingBound(ext, n) && ConfirmedDated(ext, n) && BindsKey(ext, e)
    ensures PendingBound(ext, Step(ext, false, n, e).0) && ConfirmedDated(ext, Step(ext, false, n, e).0)
  {
    StepBindsPending(ext, false, n, e);
    StepDatesConfirmed(ext, false, n, e);
  }

  lemma DatedStatusAgrees(ext: Externals, c: Store, n: Store, ticket: string, now: int)
    requires Covers(c, n, now) && ConfirmedDated(ext, n)
    ensures !StatusDiffers(ext, c, n, ticket, now)
  {
  }

  /** When the earlier create calls bind their keys, only the reason of a refused confirmation can show the clean-up. */
  lemma {:induction false} CleanupIsInvisible(ext: Externals, events: seq<Event>, i: nat)
    requires i < |events| && Monotone(events)
    requires forall j :: 0 <= j < i ==> BindsKey(ext, events[j])
    ensures var a, b := AnswerAt(ext, true, events, i), AnswerAt(ext, false, events, i);
            a == b || (events[i].call.CallConfirm? && a.Refused? && b.Refused?)
  {
    CleanupShowsExactly(ext, events, i);
    RunCovers(ext, events, i);
    UnsweptIsDated(ext, events, i);
    var c, n, e := Before(ext, true, events, i), Before(ext, false, events, i), events[i];
    match e.call
    case CallStatus(ticket) => DatedStatusAgrees(ext, c, n, ticket, e.now);
    case CallConfirm(input, clock) => ConfirmCovers(ext, c, n, e.now, input, e.now, clock);
    case _ =>
  }

  // ---------------------------------------------------------------- the two qualifications are needed

  function SampleParse(ticket: string): Result<Payload, Code> {
    match ticket
    case "A" => Ok(Payload("", "k", "", 1, "", ""))
    case "B" => Ok(Payload("", "k", "", 100, "", ""))
    case "C" => Ok(Payload("", "other", "", 1, "", ""))
    case _ => Err(TicketInvalidFormat)
  }

  /** Tickets "A" and "B" share an id but not an expiry, and every signature verifies. */
  function SampleExternals(): Externals {
    Externals(SampleParse, (p, key) => true, s => true)
  }

  function SampleCreate(): CreateInput {
    CreateInput("i", NOBODY, "", "A", "x", None, 1000)
  }

  lemma SampleCreated(sweeps: bool) returns (s: Store)
    ensures s == Step(SampleExternals(), sweeps, EMPTY, Event(0, CallCreate(SampleCreate()))).0
    ensures s == EMPTY.(pending := map["k" := PendingTicket("A", 1000, "i", NOBODY, "", "x", None)])
  {
    TicketText.OneLetterTicket('A');
    TicketText.OneLetterTicket('x');
    s := Step(SampleExternals(), sweeps, EMPTY, Event(0, CallCreate(SampleCreate()))).0;
    assert MaybeCleanup(sweeps, EMPTY, 0, None) == EMPTY;
    var entry := PendingTicket("A", 1000, "i", NOBODY, "", "x", None);
    assert CreatedEntry(SampleExternals(), SampleCreate()) == Ok((Payload("", "k", "", 1, "", ""), entry));
  }

  /** Asking about an unrelated ticket at time 2000 sweeps everything that expired at 1000. */
  lemma SampleStatusSweeps(s: Store)
    requires (forall kid :: kid in s.pending ==> kid == "k" && s.pending[kid].expiresAtMs == 1000)
    requires (forall kid :: kid in s.confirmed ==> kid == "k" && s.confirmed[kid].expiresAtMs == 1000)
    requires s.revoked == map[]
    ensures Step(SampleExternals(), true, s, Event(2000, CallStatus("C"))).0 == s.(pending := map[], confirmed := map[])
    ensures Step(SampleExternals(), false, s, Event(2000, CallStatus("C"))).0 == s
  {
    TicketText.OneLetterTicket('C');
    assert Cleanup(s, 2000, Some("other")) == s.(pending := map[], confirmed := map[]);
  }

  /** Without the clean-up an expired ticket is refused as expired, with it as unknown. */
  lemma RefusalReasonsCanDiffer()
    ensures var events := [Event(0, CallCreate(SampleCreate())), Event(2000, CallStatus("C")),
                           Event(2000, CallConfirm(ConfirmInput("A", "r", NOBODY), 2000))];
            && Monotone(events)
            && AnswerAt(SampleExternals(), true, events, 2) == Refused(TicketNotFound)
            && AnswerAt(SampleExternals(), false, events, 2) == Refused(TicketExpired)
  {
    var ext := SampleExternals();
    var events := [Event(0, CallCreate(SampleCreate())), Event(2000, CallStatus("C")),
                   Event(2000, CallConfirm(ConfirmInput("A", "r", NOBODY), 2000))];
    TicketText.OneLetterTicket('A');
    forall sweeps: bool ensures Before(ext, sweeps, events, 2).confirmed == map[]
      ensures sweeps ==> Before(ext, sweeps, events, 2).pending == map[]
      ensures !sweeps ==>
                Before(ext, sweeps, events, 2).pending == map["k" := PendingTicket("A", 1000, "i", NOBODY, "", "x", None)]
    {
      var s := SampleCreated(sweeps);
      assert events[..0] == [];
      BeforeNext(ext, sweeps, events, 0);
      BeforeNext(ext, sweeps, events, 1);
      SampleStatusSweeps(s);
    }
  }

  const SAMPLE_CONFIRMED := ConfirmedTicket("B", 1000, "i", NOBODY, "r", NOBODY, "", 0)

  /** Ticket "B" confirms the entry created for ticket "A". */
  lemma SampleConfirmed(sweeps: bool, s: Store) returns (t: Store)
    requires s == EMPTY.(pending := map["k" := PendingTicket("A", 1000, "i", NOBODY, "", "x", None)])
    ensures t == Step(SampleExternals(), sweeps, s, Event(0, CallConfirm(ConfirmInput("B", "r", NOBODY), 0))).0
    ensures t.pending == map[] && t.confirmed == map["k" := SAMPLE_CONFIRMED] && t.revoked == map[]
  {
    TicketText.OneLetterTicket('B');
    assert MaybeCleanup(sweeps, s, 0, Some("k")) == s;
    t := Step(SampleExternals(), sweeps, s, Event(0, CallConfirm(ConfirmInput("B", "r", NOBODY), 0))).0;
    var c := Confirmation("B", Payload("", "k", "", 100, "", ""), s.pending["k"], "r", NOBODY, 0);
    assert ConfirmLookup(SampleExternals(), sweeps, s, ConfirmInput("B", "r", NOBODY), 0) == (s, Ok(c));
    assert t == ConfirmCommit(s, c, 0);
  }

  lemma SampleAnswer(sweeps: bool, s: Store)
    requires s.pending == map[]
    requires s.confirmed == if sweeps then map[] else map["k" := SAMPLE_CONFIRMED]
    ensures Step(SampleExternals(), sweeps, s, Event(2000, CallStatus("B"))).1
            == Refused(if sweeps then TicketNotFound else TicketExpired)
  {
    TicketText.OneLetterTicket('B');
  }

  /** A key that verifies two expiries for one id lets a caller notice the clean-up. */
  lemma {:induction false} UnboundKeyExposesCleanup(events: seq<Event>)
    requires |events| == 4 && events[0] == Event(0, CallCreate(SampleCreate()))
    requires events[1] == Event(0, CallConfirm(ConfirmInput("B", "r", NOBODY), 0))
    requires events[2] == Event(2000, CallStatus("C")) && events[3] == Event(2000, CallStatus("B"))
    ensures Monotone(events) && !BindsKey(SampleExternals(), events[0])
    ensures AnswerAt(SampleExternals(), true, events, 3) == Refused(TicketNotFound)
    ensures AnswerAt(SampleExternals(), false, events, 3) == Refused(TicketExpired)
  {
    SampleAnswers(events, true);
    SampleAnswers(events, false);
    SampleKeyIsUnbound();
    SampleIsMonotone(events);
  }

  lemma {:induction false} SampleIsMonotone(events: seq<Event>)
    requires |events| == 4 && events[0].now == 0 && events[1].now == 0 && events[2].now == 2000 && events[3].now == 2000
    ensures Monotone(events)
  {
  }

  lemma SampleKeyIsUnbound()
    ensures !BindsKey(SampleExternals(), Event(0, CallCreate(SampleCreate())))
  {
    TicketText.OneLetterTicket('A');
    TicketText.OneLetterTicket('x');
    var forged := Payload("", "k", "", 100, "", "");
    assert SampleExternals().verify(forged, "x");
  }

  lemma {:induction false} SampleAnswers(events: seq<Event>, sweeps: bool)
    requires |events| == 4 && events[0] == Event(0, CallCreate(SampleCreate()))
    requires events[1] == Event(0, CallConfirm(ConfirmInput("B", "r", NOBODY), 0))
    requires events[2] == Event(2000, CallStatus("C")) && events[3] == Event(2000, CallStatus("B"))
    ensures AnswerAt(SampleExternals(), sweeps, events, 3)
            == Refused(if sweeps then TicketNotFound else TicketExpired)
  {
    var s := SampleCreated(sweeps);
    var t := SampleConfirmed(sweeps, s);
    assert events[..0] == [];
    BeforeNext(SampleExternals(), sweeps, events, 0);
    BeforeNext(SampleExternals(), sweeps, events, 1);
    BeforeNext(SampleExternals(), sweeps, events, 2);
    SampleStatusSweeps(t);
    SampleAnswer(sweeps, Before(SampleExternals(), sweeps, events, 3));
  }
}
