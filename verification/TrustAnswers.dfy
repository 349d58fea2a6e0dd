/**
 * What callers of the trust store are told, in terms of what was asked before: when a ticket is accepted, when it can be
 * confirmed, and what its status is, over every run under a clock that does not run backwards.
 */
module TrustAnswers {
  import opened Outcomes
  import opened Text
  import opened TrustModel
  import opened TrustRuns
  import opened TrustCleanup
  import Did
  import TicketText

  function Parsed(ext: Externals, ticket: string): Result<Payload, Code> {
    ext.parse(TicketText.Normalize(ticket))
  }

  // ---------------------------------------------------------------- creating

  /** A create request is in order: its ticket names the issuer and the second in which it expires, and so on. */
  ghost predicate Requested(ext: Externals, input: CreateInput) {
    && Parsed(ext, input.ticket).Ok?
    && Parsed(ext, input.ticket).value.iss == input.issuerProxyUrl
    && 0 <= input.expiresAtMs - Parsed(ext, input.ticket).value.exp * 1000 < 1000
    && Trim(input.publicKeyX) != ""
    && (input.allowResponder.Some? ==> Did.IsAgentDid(ext.decodes, Trim(input.allowResponder.value)))
  }

  /** What a create request in order asks to have stored. */
  ghost function EntryFor(ext: Externals, input: CreateInput): PendingTicket
    requires Requested(ext, input)
  {
    PendingTicket(
      ticket := TicketText.Normalize(input.ticket),
      expiresAtMs := Parsed(ext, input.ticket).value.exp * 1000,
      initiator := input.initiator,
      initiatorProfile := input.initiatorProfile,
      issuer := input.issuerProxyUrl,
      publicKeyX := Trim(input.publicKeyX),
      allowResponder := if input.allowResponder.None? then None else Some(Trim(input.allowResponder.value)))
  }

  lemma EmptyIsNoAgent(ext: Externals)
    ensures !Did.IsAgentDid(ext.decodes, "")
  {
  }

  lemma CreatedEntryIsRequested(ext: Externals, input: CreateInput)
    ensures CreatedEntry(ext, input).Ok? <==> Requested(ext, input)
    ensures Requested(ext, input) ==>
              CreatedEntry(ext, input).value == (Parsed(ext, input.ticket).value, EntryFor(ext, input))
  {
    EmptyIsNoAgent(ext);
  }

  /**
   * A create call succeeds exactly when its request is in order, and echoes it; otherwise the answer is the decoder's,
   * or names the issuer if it differs, or else the body.
   */
  lemma CreateAnswersExactly(ext: Externals, sweeps: bool, s: Store, input: CreateInput, now: int)
    ensures var answer, parsed := CreateTicket(ext, sweeps, s, input, now).1, Parsed(ext, input.ticket);
            answer ==
            if Requested(ext, input) then
              TicketCreated(TicketText.Normalize(input.ticket), parsed.value.exp * 1000, input.initiator,
                            input.initiatorProfile, input.issuerProxyUrl)
            else
              Refused(if parsed.Err? then parsed.error
                      else if parsed.value.iss != input.issuerProxyUrl then TicketInvalidIssuer
                      else StartInvalidBody)
  {
    CreatedEntryIsRequested(ext, input);
    EmptyIsNoAgent(ext);
  }

  ghost predicate Asks(ext: Externals, events: seq<Event>, j: nat, kid: string) {
    && j < |events| && events[j].call.CallCreate? && Requested(ext, events[j].call.create)
    && Parsed(ext, events[j].call.create.ticket).value.kid == kid
  }

  lemma AsksIsCreates(ext: Externals, events: seq<Event>, j: nat, kid: string)
    ensures Asks(ext, events, j, kid) <==> Creates(ext, events, j, kid)
  {
    if j < |events| && events[j].call.CallCreate? {
      CreatedEntryIsRequested(ext, events[j].call.create);
    }
  }

  // ---------------------------------------------------------------- pending tickets

  /** A confirm call of this ticket id that uses the ticket up, by success or by finding it expired. */
  predicate UsesUp(ext: Externals, e: Event, answer: Answer, kid: string) {
    && e.call.CallConfirm? && Parsed(ext, e.call.confirm.ticket).Ok?
    && Parsed(ext, e.call.confirm.ticket).value.kid == kid
    && (answer.PairConfirmed? || answer == Refused(TicketExpired))
  }

  ghost predicate UsedUpAt(ext: Externals, sweeps: bool, events: seq<Event>, m: nat, kid: string) {
    m < |events| && UsesUp(ext, events[m], AnswerAt(ext, sweeps, events, m), kid)
  }

  /** Call `j` created `kid`, and until call `n` the id was neither created again nor used up. */
  ghost predicate Live(ext: Externals, sweeps: bool, events: seq<Event>, j: nat, n: nat, kid: string) {
    && j < n && Asks(ext, events, j, kid)
    && forall m: nat :: j < m < n ==> !Asks(ext, events, m, kid) && !UsedUpAt(ext, sweeps, events, m, kid)
  }

  ghost predicate TicketKept(s: Store, t: Store, kid: string, now: int) {
    kid in s.pending && s.pending[kid].expiresAtMs > now ==> kid in t.pending && t.pending[kid] == s.pending[kid]
  }

  lemma CleanupKeepsTicket(sweeps: bool, s: Store, now: int, skip: Option<string>, kid: string)
    ensures TicketKept(s, MaybeCleanup(sweeps, s, now, skip), kid, now)
  {
  }

  lemma ConfirmKeepsTicket(
    ext: Externals, sweeps: bool, s: Store, input: ConfirmInput, now: int, clock: int, kid: string)
    requires !UsesUp(ext, Event(now, CallConfirm(input, clock)), ConfirmTicket(ext, sweeps, s, input, now, clock).1, kid)
    ensures TicketKept(s, ConfirmTicket(ext, sweeps, s, input, now, clock).0, kid, now)
  {
    var looked := ConfirmLookup(ext, sweeps, s, input, now).0;
    assert TicketKept(s, looked, kid, now);
  }

  lemma StatusKeepsTicket(ext: Externals, sweeps: bool, s: Store, ticket: string, now: int, kid: string)
    requires PendingDated(ext, s)
    ensures TicketKept(s, TicketStatus(ext, sweeps, s, ticket, now).0, kid, now)
  {
  }

  lemma CreateKeepsTicket(ext: Externals, sweeps: bool, s: Store, input: CreateInput, now: int, kid: string)
    requires CreatedKid(ext, Event(now, CallCreate(input))) != Some(kid)
    ensures TicketKept(s, CreateTicket(ext, sweeps, s, input, now).0, kid, now)
  {
    CleanupKeepsTicket(sweeps, s, now, None, kid);
    CreateWrites(ext, sweeps, s, input, now);
  }

  lemma {:induction false} CallKeepsTicket(ext: Externals, sweeps: bool, s: Store, e: Event, kid: string)
    requires PendingDated(ext, s) && CreatedKid(ext, e) != Some(kid)
    requires !UsesUp(ext, e, Step(ext, sweeps, s, e).1, kid)
    ensures TicketKept(s, Step(ext, sweeps, s, e).0, kid, e.now)
  {
    match e.call
    case CallCreate(input) => CreateKeepsTicket(ext, sweeps, s, input, e.now, kid);
    case CallConfirm(input, clock) => ConfirmKeepsTicket(ext, sweeps, s, input, e.now, clock, kid);
    case CallStatus(ticket) => StatusKeepsTicket(ext, sweeps, s, ticket, e.now, kid);
    case _ => CleanupKeepsTicket(sweeps, s, e.now, None, kid);
  }

  lemma UsingUpRemoves(ext: Externals, sweeps: bool, s: Store, e: Event, kid: string)
    requires UsesUp(ext, e, Step(ext, sweeps, s, e).1, kid)
    ensures kid !in Step(ext, sweeps, s, e).0.pending
  {
  }

  lemma {:induction false} LiveIsPending(
    ext: Externals, sweeps: bool, events: seq<Event>, j: nat, n: nat, kid: string, now: int)
    requires Monotone(events) && n <= |events| && Live(ext, sweeps, events, j, n, kid) && events[n - 1].now <= now
    requires EntryFor(ext, events[j].call.create).expiresAtMs > now
    ensures var s := Before(ext, sweeps, events, n);
            kid in s.pending && s.pending[kid] == EntryFor(ext, events[j].call.create)
    decreases n
  {
    BeforeNext(ext, sweeps, events, n - 1);
    var s, e := Before(ext, sweeps, events, n - 1), events[n - 1];
    AsksIsCreates(ext, events, n - 1, kid);
    if j == n - 1 {
      CreateWrites(ext, sweeps, s, e.call.create, e.now);
      CreatedEntryIsRequested(ext, e.call.create);
    } else {
      assert !Asks(ext, events, n - 1, kid) && !UsedUpAt(ext, sweeps, events, n - 1, kid);
      assert events[n - 2].now <= e.now;
      LiveIsPending(ext, sweeps, events, j, n - 1, kid, now);
      PendingAlwaysDated(ext, sweeps, events, n - 1);
      CallKeepsTicket(ext, sweeps, s, e, kid);
    }
  }

  lemma {:induction false} PendingIsLive(ext: Externals, sweeps: bool, events: seq<Event>, n: nat, kid: string)
    returns (j: nat)
    requires n <= |events| && kid in Before(ext, sweeps, events, n).pending
    ensures Live(ext, sweeps, events, j, n, kid)
    ensures Before(ext, sweeps, events, n).pending[kid] == EntryFor(ext, events[j].call.create)
  {
    j := PendingComesFromCreate(ext, sweeps, events, kid, n);
    AsksIsCreates(ext, events, j, kid);
    CreatedEntryIsRequested(ext, events[j].call.create);
    forall m: nat | j < m < n ensures !Asks(ext, events, m, kid) && !UsedUpAt(ext, sweeps, events, m, kid) {
      AsksIsCreates(ext, events, m, kid);
      assert !Touches(ext, sweeps, events, m, kid);
      if UsedUpAt(ext, sweeps, events, m, kid) {
        BeforeNext(ext, sweeps, events, m);
        UsingUpRemoves(ext, sweeps, Before(ext, sweeps, events, m), events[m], kid);
        NotCreatedAfter(ext, sweeps, events, j, m, n, kid);
        AbsentUntilCreated(ext, sweeps, events, kid, m + 1, n);
      }
    }
  }

  lemma NotCreatedAfter(ext: Externals, sweeps: bool, events: seq<Event>, j: nat, m: nat, n: nat, kid: string)
    requires Undisturbed(ext, sweeps, events, kid, j, n) && j < m
    ensures forall i :: m + 1 <= i < n ==> !Creates(ext, events, i, kid)
  {
    forall i | m + 1 <= i < n ensures !Creates(ext, events, i, kid) {
      assert !Touches(ext, sweeps, events, i, kid);
    }
  }

  /** The run has a live creation of `kid` whose ticket is still valid at `now`. */
  ghost predicate Available(ext: Externals, sweeps: bool, events: seq<Event>, j: nat, n: nat, kid: string, now: int) {
    Live(ext, sweeps, events, j, n, kid) && Parsed(ext, events[j].call.create.ticket).value.exp * 1000 > now
  }

  /**
   * An unexpired ticket is pending exactly from the call that creates it until the id is created again or used up, and
   * the entry holds what the creation asked for.
   */
  lemma {:induction false} PendingExactlyWhileLive(
    ext: Externals, sweeps: bool, events: seq<Event>, n: nat, kid: string, now: int)
    requires Monotone(events) && n <= |events| && (n > 0 ==> events[n - 1].now <= now)
    ensures var s := Before(ext, sweeps, events, n);
            && (kid in s.pending && s.pending[kid].expiresAtMs > now
                <==> exists j: nat :: Available(ext, sweeps, events, j, n, kid, now))
            && (forall j: nat :: Available(ext, sweeps, events, j, n, kid, now) ==>
                  kid in s.pending && s.pending[kid] == EntryFor(ext, events[j].call.create))
  {
    var s := Before(ext, sweeps, events, n);
    if kid in s.pending {
      var j := PendingIsLive(ext, sweeps, events, n, kid);
      assert s.pending[kid].expiresAtMs > now ==> Available(ext, sweeps, events, j, n, kid, now);
    }
    forall j: nat | Available(ext, sweeps, events, j, n, kid, now)
      ensures kid in s.pending && s.pending[kid] == EntryFor(ext, events[j].call.create)
    {
      LiveIsPending(ext, sweeps, events, j, n, kid, now);
    }
  }

  // ---------------------------------------------------------------- confirming

  /** Creation `j` lets a confirm request through at `now`. */
  ghost predicate LetsThrough(ext: Externals, create: CreateInput, input: ConfirmInput, now: int) {
    && Requested(ext, create) && Parsed(ext, input.ticket).Ok?
    && var payload := Parsed(ext, input.ticket).value;
       && payload.kid == Parsed(ext, create.ticket).value.kid
       && ext.verify(payload, Trim(create.publicKeyX))
       && payload.exp * 1000 > now
       && payload.iss == create.issuerProxyUrl
       && (create.allowResponder.Some? ==> Trim(create.allowResponder.value) == input.responder)
  }

  ghost predicate Confirmable(ext: Externals, sweeps: bool, events: seq<Event>, j: nat, i: nat)
    requires i < |events| && events[i].call.CallConfirm?
  {
    && j < i && events[j].call.CallCreate?
    && LetsThrough(ext, events[j].call.create, events[i].call.confirm, events[i].now)
    && Available(ext, sweeps, events, j, i, Parsed(ext, events[j].call.create.ticket).value.kid, events[i].now)
  }

  /** In a store with disjoint ids, each refusal of a confirm call names the first condition that fails. */
  lemma {:induction false} ConfirmAnswersInStore(
    ext: Externals, sweeps: bool, s: Store, input: ConfirmInput, now: int, clock: int)
    requires TicketsDisjoint(s)
    ensures var answer, parsed := ConfirmTicket(ext, sweeps, s, input, now, clock).1, Parsed(ext, input.ticket);
            if parsed.Err? then answer == Refused(parsed.error)
            else
              var payload := parsed.value;
              var kid := payload.kid;
              if kid in s.pending then
                var p := s.pending[kid];
                && (answer == Refused(TicketInvalidSignature) <==> !ext.verify(payload, p.publicKeyX))
                && (answer == Refused(TicketExpired) <==>
                      ext.verify(payload, p.publicKeyX) && (p.expiresAtMs <= now || payload.exp * 1000 <= now))
                && (answer == Refused(TicketInvalidIssuer) <==>
                      ext.verify(payload, p.publicKeyX) && p.expiresAtMs > now && payload.exp * 1000 > now
                      && p.issuer != payload.iss)
                && (answer == Refused(ResponderForbidden) <==>
                      ext.verify(payload, p.publicKeyX) && p.expiresAtMs > now && payload.exp * 1000 > now
                      && p.issuer == payload.iss
                      && p.allowResponder.Some? && p.allowResponder.value != input.responder)
                && answer != Refused(TicketAlreadyConfirmed) && answer != Refused(TicketNotFound)
              else if kid in s.confirmed && s.confirmed[kid].ticket == TicketText.Normalize(input.ticket) then
                answer == Refused(TicketAlreadyConfirmed)
              else answer == Refused(TicketNotFound)
  {
  }

  /**
   * A confirm call succeeds exactly when a creation of its ticket's id is still available and lets the request through:
   * signature, both expiries, issuer and allowed responder. The answer then names the creation's initiator and issuer and
   * the request's responder.
   */
  lemma {:induction false} ConfirmedExactlyWhenLetThrough(ext: Externals, sweeps: bool, events: seq<Event>, i: nat)
    requires Monotone(events) && i < |events| && events[i].call.CallConfirm?
    ensures AnswerAt(ext, sweeps, events, i).PairConfirmed? <==> exists j: nat :: Confirmable(ext, sweeps, events, j, i)
    ensures forall j: nat :: Confirmable(ext, sweeps, events, j, i) ==>
              var create, confirm := events[j].call.create, events[i].call.confirm;
              AnswerAt(ext, sweeps, events, i)
              == PairConfirmed(create.initiator, create.initiatorProfile, confirm.responder, confirm.responderProfile,
                               create.issuerProxyUrl)
  {
    var s, e := Before(ext, sweeps, events, i), events[i];
    var parsed := Parsed(ext, e.call.confirm.ticket);
    TicketsAlwaysDisjoint(ext, sweeps, events[..i]);
    if parsed.Ok? {
      PendingExactlyWhileLive(ext, sweeps, events, i, parsed.value.kid, e.now);
      ConfirmSucceedsInStore(ext, sweeps, s, e.call.confirm, e.now, e.call.clock);
    }
    if AnswerAt(ext, sweeps, events, i).PairConfirmed? {
      var j :| Available(ext, sweeps, events, j, i, parsed.value.kid, e.now);
      assert Confirmable(ext, sweeps, events, j, i);
    }
  }

  lemma {:induction false} ConfirmSucceedsInStore(
    ext: Externals, sweeps: bool, s: Store, input: ConfirmInput, now: int, clock: int)
    requires TicketsDisjoint(s) && Parsed(ext, input.ticket).Ok?
    ensures var answer, payload := ConfirmTicket(ext, sweeps, s, input, now, clock).1, Parsed(ext, input.ticket).value;
            && (answer.PairConfirmed? <==>
                  && payload.kid in s.pending
                  && var p := s.pending[payload.kid];
                     && ext.verify(payload, p.publicKeyX) && p.expiresAtMs > now && payload.exp * 1000 > now
                     && p.issuer == payload.iss
                     && (p.allowResponder.Some? ==> p.allowResponder.value == input.responder))
            && (answer.PairConfirmed? ==>
                  var p := s.pending[payload.kid];
                  answer == PairConfirmed(p.initiator, p.initiatorProfile, input.responder, input.responderProfile, p.issuer))
  {
  }

  // ---------------------------------------------------------------- confirmed tickets

  /** What confirm request `confirm` of creation `create` leaves on record; `clock` is the second reading of the time. */
  ghost function RecordFor(ext: Externals, create: CreateInput, confirm: ConfirmInput, clock: int): ConfirmedTicket
    requires Requested(ext, create)
  {
    ConfirmedTicket(
      ticket := TicketText.Normalize(confirm.ticket),
      expiresAtMs := Parsed(ext, create.ticket).value.exp * 1000,
      initiator := create.initiator,
      initiatorProfile := create.initiatorProfile,
      responder := confirm.responder,
      responderProfile := confirm.responderProfile,
      issuer := create.issuerProxyUrl,
      confirmedAtMs := clock - clock % 1000)
  }

  /** Call `c` confirmed `kid` on creation `j`, and the id was not created again before call `n`. */
  ghost predicate Recorded(ext: Externals, sweeps: bool, events: seq<Event>, j: nat, c: nat, n: nat, kid: string) {
    && c < n <= |events| && events[c].call.CallConfirm? && Live(ext, sweeps, events, j, c, kid)
    && AnswerAt(ext, sweeps, events, c).PairConfirmed?
    && Parsed(ext, events[c].call.confirm.ticket).Ok? && Parsed(ext, events[c].call.confirm.ticket).value.kid == kid
    && forall m: nat :: c < m < n ==> !Asks(ext, events, m, kid)
  }

  /** The store before call `n` holds that confirmation's record. */
  ghost predicate Held(ext: Externals, sweeps: bool, events: seq<Event>, j: nat, c: nat, n: nat, kid: string) {
    && Recorded(ext, sweeps, events, j, c, n, kid)
    && Holds(Before(ext, sweeps, events, n), kid,
             RecordFor(ext, events[j].call.create, events[c].call.confirm, events[c].call.clock))
  }

  ghost predicate Holds(s: Store, kid: string, record: ConfirmedTicket) {
    kid in s.confirmed && s.confirmed[kid] == record
  }

  ghost predicate RecordKept(s: Store, t: Store, kid: string, now: int) {
    kid in s.confirmed && s.confirmed[kid].expiresAtMs > now ==> kid in t.confirmed && t.confirmed[kid] == s.confirmed[kid]
  }

  /** What a call leaves on record under an id that it does not confirm was on record before. */
  ghost predicate NoNewRecord(s: Store, t: Store, kid: string) {
    kid in t.confirmed ==> kid in s.confirmed && t.confirmed[kid] == s.confirmed[kid]
  }

  ghost predicate ClaimsValidity(ext: Externals, ticket: string, now: int) {
    ext.parse(ticket).Ok? && ext.parse(ticket).value.exp * 1000 > now
  }

  lemma ConfirmingRecords(ext: Externals, sweeps: bool, s: Store, input: ConfirmInput, now: int, clock: int)
    requires ConfirmTicket(ext, sweeps, s, input, now, clock).1.PairConfirmed?
    ensures Parsed(ext, input.ticket).Ok?
    ensures var kid, t := Parsed(ext, input.ticket).value.kid, ConfirmTicket(ext, sweeps, s, input, now, clock).0;
            && kid in s.pending && kid in t.confirmed
            && var p := s.pending[kid];
               t.confirmed[kid]
               == ConfirmedTicket(TicketText.Normalize(input.ticket), p.expiresAtMs, p.initiator, p.initiatorProfile,
                                  input.responder, input.responderProfile, p.issuer, clock - clock % 1000)
  {
    LookupOnlyForgets(ext, sweeps, s, input, now);
  }

  lemma ConfirmKeepsRecords(
    ext: Externals, sweeps: bool, s: Store, input: ConfirmInput, now: int, clock: int, kid: string)
    requires ConfirmedKid(ext, Event(now, CallConfirm(input, clock)), ConfirmTicket(ext, sweeps, s, input, now, clock).1)
             != Some(kid)
    ensures var t := ConfirmTicket(ext, sweeps, s, input, now, clock).0;
            RecordKept(s, t, kid, now) && NoNewRecord(s, t, kid)
  {
    ConfirmWrites(ext, sweeps, s, input, now, clock);
    var looked := ConfirmLookup(ext, sweeps, s, input, now).0;
    assert RecordKept(s, looked, kid, now);
  }

  lemma CreateKeepsRecords(ext: Externals, sweeps: bool, s: Store, input: CreateInput, now: int, kid: string)
    ensures var t := CreateTicket(ext, sweeps, s, input, now).0;
            if CreatedKid(ext, Event(now, CallCreate(input))) == Some(kid) then kid !in t.confirmed
            else RecordKept(s, t, kid, now) && NoNewRecord(s, t, kid)
  {
    CreateWrites(ext, sweeps, s, input, now);
  }

  /** A status call keeps a record unless it is the one asked about, and that or the ticket asked with has expired. */
  lemma StatusKeepsRecords(ext: Externals, sweeps: bool, s: Store, ticket: string, now: int, kid: string)
    ensures var t := TicketStatus(ext, sweeps, s, ticket, now).0;
            && NoNewRecord(s, t, kid)
            && (kid in s.confirmed && ClaimsValidity(ext, s.confirmed[kid].ticket, now) ==> RecordKept(s, t, kid, now))
  {
    StatusOnlyForgets(ext, sweeps, s, ticket, now);
  }

  lemma OtherCallsKeepRecords(ext: Externals, sweeps: bool, s: Store, e: Event, kid: string)
    requires !e.call.CallCreate? && !e.call.CallConfirm? && !e.call.CallStatus?
    ensures var t := Step(ext, sweeps, s, e).0; RecordKept(s, t, kid, e.now) && NoNewRecord(s, t, kid)
  {
  }

  lemma {:induction false} CallAddsNoRecord(ext: Externals, sweeps: bool, s: Store, e: Event, kid: string)
    requires ConfirmedKid(ext, e, Step(ext, sweeps, s, e).1) != Some(kid)
    ensures var t := Step(ext, sweeps, s, e).0;
            NoNewRecord(s, t, kid) && (CreatedKid(ext, e) == Some(kid) ==> kid !in t.confirmed)
  {
    match e.call
    case CallCreate(input) => CreateKeepsRecords(ext, sweeps, s, input, e.now, kid);
    case CallConfirm(input, clock) => ConfirmKeepsRecords(ext, sweeps, s, input, e.now, clock, kid);
    case CallStatus(ticket) => StatusKeepsRecords(ext, sweeps, s, ticket, e.now, kid);
    case _ => OtherCallsKeepRecords(ext, sweeps, s, e, kid);
  }

  lemma {:induction false} CallKeepsRecord(ext: Externals, sweeps: bool, s: Store, e: Event, kid: string)
    requires ConfirmedKid(ext, e, Step(ext, sweeps, s, e).1) != Some(kid) && CreatedKid(ext, e) != Some(kid)
    requires kid in s.confirmed && ClaimsValidity(ext, s.confirmed[kid].ticket, e.now)
    ensures RecordKept(s, Step(ext, sweeps, s, e).0, kid, e.now)
  {
    match e.call
    case CallCreate(input) => CreateKeepsRecords(ext, sweeps, s, input, e.now, kid);
    case CallConfirm(input, clock) => ConfirmKeepsRecords(ext, sweeps, s, input, e.now, clock, kid);
    case CallStatus(ticket) => StatusKeepsRecords(ext, sweeps, s, ticket, e.now, kid);
    case _ => OtherCallsKeepRecords(ext, sweeps, s, e, kid);
  }

  /** The record that call `n` writes is that of the live creation it confirms. */
  lemma {:induction false} ConfirmedNow(ext: Externals, sweeps: bool, events: seq<Event>, n: nat, kid: string)
    returns (j: nat)
    requires n < |events| && Confirms(ext, sweeps, events, n, kid)
    ensures Held(ext, sweeps, events, j, n, n + 1, kid)
  {
    var s, e := Before(ext, sweeps, events, n), events[n];
    BeforeNext(ext, sweeps, events, n);
    ConfirmingRecords(ext, sweeps, s, e.call.confirm, e.now, e.call.clock);
    j := PendingIsLive(ext, sweeps, events, n, kid);
  }

  lemma {:induction false} RecordedLater(ext: Externals, sweeps: bool, events: seq<Event>, j: nat, c: nat, n: nat, kid: string)
    requires n < |events| && Recorded(ext, sweeps, events, j, c, n, kid) && !Asks(ext, events, n, kid)
    ensures Recorded(ext, sweeps, events, j, c, n + 1, kid)
  {
    forall m: nat | c < m < n + 1 ensures !Asks(ext, events, m, kid) {
      assert m < n || m == n;
    }
  }

  /** A record found after a call that did not confirm its id was there before the call. */
  lemma {:induction false} RecordBeforeCall(ext: Externals, sweeps: bool, events: seq<Event>, n: nat, kid: string)
    requires n < |events| && kid in Before(ext, sweeps, events, n + 1).confirmed && !Confirms(ext, sweeps, events, n, kid)
    ensures kid in Before(ext, sweeps, events, n).confirmed && !Asks(ext, events, n, kid)
    ensures Before(ext, sweeps, events, n + 1).confirmed[kid] == Before(ext, sweeps, events, n).confirmed[kid]
  {
    BeforeNext(ext, sweeps, events, n);
    CallAddsNoRecord(ext, sweeps, Before(ext, sweeps, events, n), events[n], kid);
    AsksIsCreates(ext, events, n, kid);
  }

  lemma {:induction false} HeldLonger(ext: Externals, sweeps: bool, events: seq<Event>, j: nat, c: nat, n: nat, kid: string)
    requires n < |events| && kid in Before(ext, sweeps, events, n + 1).confirmed && !Confirms(ext, sweeps, events, n, kid)
    requires Held(ext, sweeps, events, j, c, n, kid)
    ensures Held(ext, sweeps, events, j, c, n + 1, kid)
  {
    RecordBeforeCall(ext, sweeps, events, n, kid);
    RecordedLater(ext, sweeps, events, j, c, n, kid);
  }

  lemma {:induction false} NothingRecordedAtFirst(ext: Externals, sweeps: bool, events: seq<Event>, n: nat, kid: string)
    requires n <= |events| && kid in Before(ext, sweeps, events, n).confirmed
    ensures n > 0
  {
  }

  /** Every record was left by a confirmation of a live creation whose id has not been created again. */
  lemma {:induction false} RecordComesFromConfirm(ext: Externals, sweeps: bool, events: seq<Event>, n: nat, kid: string)
    returns (j: nat, c: nat)
    requires n <= |events| && kid in Before(ext, sweeps, events, n).confirmed
    ensures Held(ext, sweeps, events, j, c, n, kid)
    decreases n, 0
  {
    NothingRecordedAtFirst(ext, sweeps, events, n, kid);
    var last: nat := n - 1;
    j, c := RecordStep(ext, sweeps, events, last, kid);
  }

  lemma {:induction false} RecordStep(ext: Externals, sweeps: bool, events: seq<Event>, n: nat, kid: string)
    returns (j: nat, c: nat)
    requires n < |events| && kid in Before(ext, sweeps, events, n + 1).confirmed
    ensures Held(ext, sweeps, events, j, c, n + 1, kid)
    decreases n, 1
  {
    if Confirms(ext, sweeps, events, n, kid) {
      c := n;
      j := ConfirmedNow(ext, sweeps, events, n, kid);
    } else {
      RecordBeforeCall(ext, sweeps, events, n, kid);
      j, c := RecordComesFromConfirm(ext, sweeps, events, n, kid);
      HeldLonger(ext, sweeps, events, j, c, n, kid);
    }
  }

  /** The record of a confirmation is still valid at `now`, and so is the ticket that was confirmed with. */
  ghost predicate StillValid(ext: Externals, sweeps: bool, events: seq<Event>, j: nat, c: nat, n: nat, kid: string, now: int) {
    && Recorded(ext, sweeps, events, j, c, n, kid)
    && Parsed(ext, events[j].call.create.ticket).value.exp * 1000 > now
    && Parsed(ext, events[c].call.confirm.ticket).value.exp * 1000 > now
  }

  /** A creation that is live when its id is confirmed is the only one, and no later call confirms the id again. */
  lemma {:induction false} ConfirmedOnce(
    ext: Externals, sweeps: bool, events: seq<Event>, j: nat, c: nat, m: nat, n: nat, kid: string)
    requires Recorded(ext, sweeps, events, j, c, n, kid) && c < m < n
    ensures !Confirms(ext, sweeps, events, m, kid)
  {
    if Confirms(ext, sweeps, events, m, kid) {
      ConfirmedAtMostOncePerCreate(ext, sweeps, events, kid, c, m);
      var i: nat :| c < i < m && Creates(ext, events, i, kid);
      AsksIsCreates(ext, events, i, kid);
    }
  }

  lemma {:induction false} LiveIsUnique(ext: Externals, sweeps: bool, events: seq<Event>, j: nat, k: nat, n: nat, kid: string)
    requires Live(ext, sweeps, events, j, n, kid) && Live(ext, sweeps, events, k, n, kid)
    ensures j == k
  {
  }

  lemma {:induction false} ValidEarlier(
    ext: Externals, sweeps: bool, events: seq<Event>, j: nat, c: nat, n: nat, next: nat, kid: string, now: int)
    requires Monotone(events) && c < n < next == n + 1 && StillValid(ext, sweeps, events, j, c, next, kid, now)
    requires events[n].now <= now
    ensures StillValid(ext, sweeps, events, j, c, n, kid, now) && events[n - 1].now <= now
  {
  }

  lemma {:induction false} StoreKeepsRecord(
    ext: Externals, sweeps: bool, events: seq<Event>, n: nat, next: nat, kid: string, record: ConfirmedTicket)
    requires n < |events| && next == n + 1 && Holds(Before(ext, sweeps, events, n), kid, record)
    requires !Asks(ext, events, n, kid) && !Confirms(ext, sweeps, events, n, kid)
    requires ClaimsValidity(ext, record.ticket, events[n].now) && record.expiresAtMs > events[n].now
    ensures Holds(Before(ext, sweeps, events, next), kid, record)
  {
    BeforeNext(ext, sweeps, events, n);
    AsksIsCreates(ext, events, n, kid);
    CallKeepsRecord(ext, sweeps, Before(ext, sweeps, events, n), events[n], kid);
  }

  /** A call after a confirmation keeps its record while that is valid. */
  lemma {:induction false} HeldAfterCall(
    ext: Externals, sweeps: bool, events: seq<Event>, j: nat, c: nat, n: nat, next: nat, kid: string, now: int)
    requires c < n < next == n + 1 && StillValid(ext, sweeps, events, j, c, next, kid, now) && events[n].now <= now
    requires Held(ext, sweeps, events, j, c, n, kid)
    ensures Held(ext, sweeps, events, j, c, next, kid)
  {
    assert !Asks(ext, events, n, kid);
    ConfirmedOnce(ext, sweeps, events, j, c, n, next, kid);
    StoreKeepsRecord(ext, sweeps, events, n, next, kid,
                     RecordFor(ext, events[j].call.create, events[c].call.confirm, events[c].call.clock));
  }

  lemma {:induction false} HeldAtFirst(
    ext: Externals, sweeps: bool, events: seq<Event>, j: nat, c: nat, next: nat, kid: string, now: int)
    requires next == c + 1 && StillValid(ext, sweeps, events, j, c, next, kid, now)
    ensures Held(ext, sweeps, events, j, c, next, kid)
  {
    var k := ConfirmedNow(ext, sweeps, events, c, kid);
    LiveIsUnique(ext, sweeps, events, j, k, c, kid);
  }

  lemma {:induction false} RecordIsHeld(
    ext: Externals, sweeps: bool, events: seq<Event>, j: nat, c: nat, last: nat, next: nat, kid: string, now: int)
    requires Monotone(events) && next == last + 1 <= |events| && StillValid(ext, sweeps, events, j, c, next, kid, now)
    requires events[last].now <= now
    ensures Held(ext, sweeps, events, j, c, next, kid)
    decreases last
  {
    if c == last {
      HeldAtFirst(ext, sweeps, events, j, c, next, kid, now);
    } else {
      ValidEarlier(ext, sweeps, events, j, c, last, next, kid, now);
      RecordIsHeld(ext, sweeps, events, j, c, last - 1, last, kid, now);
      HeldAfterCall(ext, sweeps, events, j, c, last, next, kid, now);
    }
  }

  // ---------------------------------------------------------------- status

  ghost predicate ShownPending(ext: Externals, sweeps: bool, events: seq<Event>, j: nat, i: nat)
    requires i < |events| && events[i].call.CallStatus?
  {
    && j < i && events[j].call.CallCreate?
    && TicketText.Normalize(events[j].call.create.ticket) == TicketText.Normalize(events[i].call.ticket)
    && Parsed(ext, events[i].call.ticket).Ok?
    && Available(ext, sweeps, events, j, i, Parsed(ext, events[i].call.ticket).value.kid, events[i].now)
  }

  ghost predicate ShownConfirmed(ext: Externals, sweeps: bool, events: seq<Event>, j: nat, c: nat, i: nat)
    requires i < |events| && events[i].call.CallStatus?
  {
    && c < i && events[c].call.CallConfirm?
    && TicketText.Normalize(events[c].call.confirm.ticket) == TicketText.Normalize(events[i].call.ticket)
    && Parsed(ext, events[i].call.ticket).Ok?
    && StillValid(ext, sweeps, events, j, c, i, Parsed(ext, events[i].call.ticket).value.kid, events[i].now)
  }

  /** What a status call answers from a store with disjoint ids and dated pending tickets. */
  lemma {:induction false} StatusInStore(ext: Externals, sweeps: bool, s: Store, ticketInput: string, now: int)
    requires TicketsDisjoint(s) && PendingDated(ext, s)
    ensures var answer, parsed := TicketStatus(ext, sweeps, s, ticketInput, now).1, Parsed(ext, ticketInput);
            var ticket := TicketText.Normalize(ticketInput);
            if parsed.Err? then answer == Refused(parsed.error)
            else
              var kid, valid := parsed.value.kid, parsed.value.exp * 1000 > now;
              if kid in s.pending && s.pending[kid].ticket == ticket && s.pending[kid].expiresAtMs > now then
                var p := s.pending[kid];
                answer == StatusPending(ticket, p.initiator, p.initiatorProfile, p.issuer, p.expiresAtMs)
              else if kid in s.confirmed && s.confirmed[kid].ticket == ticket && s.confirmed[kid].expiresAtMs > now && valid then
                answer == StatusConfirmed(s.confirmed[kid])
              else
                && (answer == Refused(TicketExpired) || answer == Refused(TicketNotFound))
                && (!valid ==> answer == Refused(TicketExpired))
                && (valid && (kid in s.confirmed ==> s.confirmed[kid].ticket != ticket) ==> answer == Refused(TicketNotFound))
  {
    var parsed := Parsed(ext, ticketInput);
    if parsed.Ok? && parsed.value.kid in s.pending && s.pending[parsed.value.kid].ticket == TicketText.Normalize(ticketInput) {
      assert Dated(ext, parsed.value.kid, s.pending[parsed.value.kid].ticket, s.pending[parsed.value.kid].expiresAtMs);
    }
  }

  /**
   * A ticket's status is "pending" exactly while the creation with that ticket text is available, and shows what the
   * creation asked for.
   */
  lemma {:induction false} PendingStatusExactly(ext: Externals, sweeps: bool, events: seq<Event>, i: nat)
    requires Monotone(events) && i < |events| && events[i].call.CallStatus?
    ensures AnswerAt(ext, sweeps, events, i).StatusPending? <==> exists j: nat :: ShownPending(ext, sweeps, events, j, i)
    ensures forall j: nat :: ShownPending(ext, sweeps, events, j, i) ==>
              var entry := EntryFor(ext, events[j].call.create);
              AnswerAt(ext, sweeps, events, i)
              == StatusPending(entry.ticket, entry.initiator, entry.initiatorProfile, entry.issuer, entry.expiresAtMs)
  {
    var s, e := Before(ext, sweeps, events, i), events[i];
    var parsed := Parsed(ext, e.call.ticket);
    TicketsAlwaysDisjoint(ext, sweeps, events[..i]);
    PendingAlwaysDated(ext, sweeps, events, i);
    StatusInStore(ext, sweeps, s, e.call.ticket, e.now);
    if parsed.Ok? {
      PendingExactlyWhileLive(ext, sweeps, events, i, parsed.value.kid, e.now);
      if AnswerAt(ext, sweeps, events, i).StatusPending? {
        var j: nat :| Available(ext, sweeps, events, j, i, parsed.value.kid, e.now);
        assert ShownPending(ext, sweeps, events, j, i);
      }
    }
  }

  /**
   * A ticket's status is "confirmed" exactly while a confirmation with that ticket text is on record and unexpired, and
   * shows the parties of that confirmation and the whole second in which it was made.
   */
  lemma {:induction false} ConfirmedStatusExactly(ext: Externals, sweeps: bool, events: seq<Event>, i: nat)
    requires Monotone(events) && i < |events| && events[i].call.CallStatus?
    ensures AnswerAt(ext, sweeps, events, i).StatusConfirmed?
            <==> exists j: nat, c: nat :: ShownConfirmed(ext, sweeps, events, j, c, i)
    ensures forall j: nat, c: nat :: ShownConfirmed(ext, sweeps, events, j, c, i) ==>
              AnswerAt(ext, sweeps, events, i)
              == StatusConfirmed(RecordFor(ext, events[j].call.create, events[c].call.confirm, events[c].call.clock))
  {
    var s, e := Before(ext, sweeps, events, i), events[i];
    var parsed := Parsed(ext, e.call.ticket);
    TicketsAlwaysDisjoint(ext, sweeps, events[..i]);
    PendingAlwaysDated(ext, sweeps, events, i);
    StatusInStore(ext, sweeps, s, e.call.ticket, e.now);
    if AnswerAt(ext, sweeps, events, i).StatusConfirmed? {
      var j, c := RecordComesFromConfirm(ext, sweeps, events, i, parsed.value.kid);
      assert ShownConfirmed(ext, sweeps, events, j, c, i);
    }
    forall j: nat, c: nat | ShownConfirmed(ext, sweeps, events, j, c, i)
      ensures AnswerAt(ext, sweeps, events, i)
              == StatusConfirmed(RecordFor(ext, events[j].call.create, events[c].call.confirm, events[c].call.clock))
    {
      RecordIsHeld(ext, sweeps, events, j, c, i - 1, i, parsed.value.kid, e.now);
    }
  }

  // ---------------------------------------------------------------- what a sweep leaves

  /** The ticket id that a call is about. */
  function AskedKid(ext: Externals, e: Event): Option<string> {
    var parsed :=
      match e.call
      case CallCreate(input) => Parsed(ext, input.ticket)
      case CallConfirm(input, _) => Parsed(ext, input.ticket)
      case CallStatus(ticket) => Parsed(ext, ticket)
      case _ => Err(TicketInvalidFormat);
    if parsed.Ok? then Some(parsed.value.kid) else None
  }

  /** The call is well formed enough to get as far as the clean-up. */
  predicate Sweeps(ext: Externals, e: Event) {
    match e.call
    case CallCreate(_) => true
    case CallConfirm(_, _) => AskedKid(ext, e).Some?
    case CallStatus(_) => AskedKid(ext, e).Some?
    case CallMarkRevoked(agent) => Did.IsAgentDid(ext.decodes, agent)
    case CallIsRevoked(agent) => Did.IsAgentDid(ext.decodes, agent)
    case _ => false
  }

  ghost predicate NothingExpired(s: Store, now: int, except: Option<string>) {
    && (forall kid :: kid in s.pending && except != Some(kid) ==> s.pending[kid].expiresAtMs > now)
    && (forall kid :: kid in s.confirmed && except != Some(kid) ==> s.confirmed[kid].expiresAtMs > now)
    && (forall agent :: agent in s.revoked ==> s.revoked[agent] > now)
  }

  lemma CleanupLeavesNothingExpired(s: Store, now: int, skip: Option<string>, except: Option<string>)
    requires skip == None || skip == except
    ensures NothingExpired(Cleanup(s, now, skip), now, except)
  {
  }

  lemma ConfirmLeavesNothingExpired(ext: Externals, s: Store, input: ConfirmInput, now: int, clock: int)
    requires Parsed(ext, input.ticket).Ok?
    ensures NothingExpired(ConfirmTicket(ext, true, s, input, now, clock).0, now,
                           Some(Parsed(ext, input.ticket).value.kid))
  {
    var kid := Parsed(ext, input.ticket).value.kid;
    CleanupLeavesNothingExpired(s, now, Some(kid), Some(kid));
    var looked := ConfirmLookup(ext, true, s, input, now).0;
    assert NothingExpired(looked, now, Some(kid));
  }

  lemma StatusLeavesNothingExpired(ext: Externals, s: Store, ticket: string, now: int)
    requires Parsed(ext, ticket).Ok?
    ensures NothingExpired(TicketStatus(ext, true, s, ticket, now).0, now, Some(Parsed(ext, ticket).value.kid))
  {
    var kid := Parsed(ext, ticket).value.kid;
    CleanupLeavesNothingExpired(s, now, Some(kid), Some(kid));
  }

  /** After a call that sweeps, only the ticket it is about can be in the store expired. */
  lemma {:induction false} SweepingLeavesNothingExpired(ext: Externals, s: Store, e: Event)
    requires Sweeps(ext, e)
    ensures NothingExpired(Step(ext, true, s, e).0, e.now, AskedKid(ext, e))
  {
    CleanupLeavesNothingExpired(s, e.now, None, AskedKid(ext, e));
    match e.call
    case CallCreate(input) =>
      CreateWrites(ext, true, s, input, e.now);
      CreatedEntryIsRequested(ext, input);
    case CallConfirm(input, clock) => ConfirmLeavesNothingExpired(ext, s, input, e.now, clock);
    case CallStatus(ticket) => StatusLeavesNothingExpired(ext, s, ticket, e.now);
    case _ =>
  }
}
