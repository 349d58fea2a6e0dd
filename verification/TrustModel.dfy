/**
 * What each call of the in-memory trust store does to its five collections, as functions on values.
 * Every call takes the time it reads from the clock. `sweeps` tells whether the lazy clean-up of expired
 * entries runs: the store itself always sweeps, and a store that never does is the yardstick for its effect.
 */
module TrustModel {
  import opened Outcomes
  import opened Text
  import Did
  import TicketText
  import TrustKeys

  const REVOKED_AGENT_MARKER_TTL_MS := 30 * 24 * 60 * 60 * 1000

  datatype Code =
    | TicketInvalidFormat
    | TicketUnsupportedVersion
    | TicketInvalidIssuer
    | TicketAlreadyConfirmed
    | TicketNotFound
    | TicketInvalidSignature
    | TicketExpired
    | ResponderForbidden
    | StartInvalidBody
    | RevokeInvalidBody
    | RevokedCheckInvalidBody

  datatype Profile = Profile(agentName: string, humanName: string, proxyOrigin: Option<string>)

  const NOBODY := Profile("", "", None)

  datatype Payload = Payload(iss: string, kid: string, nonce: string, exp: int, pkid: string, sig: string)

  /** Code outside the model: ticket decoding, signature verification and the identifier library. */
  datatype Externals = Externals(
    parse: string -> Result<Payload, Code>,
    verify: (Payload, string) -> bool,
    decodes: string -> bool)

  datatype PendingTicket = PendingTicket(
    ticket: string,
    expiresAtMs: int,
    initiator: string,
    initiatorProfile: Profile,
    issuer: string,
    publicKeyX: string,
    allowResponder: Option<string>)

  datatype ConfirmedTicket = ConfirmedTicket(
    ticket: string,
    expiresAtMs: int,
    initiator: string,
    initiatorProfile: Profile,
    responder: string,
    responderProfile: Profile,
    issuer: string,
    confirmedAtMs: int)

  datatype Store = Store(
    pairKeys: set<string>,
    peers: map<string, set<string>>,
    revoked: map<string, int>,
    pending: map<string, PendingTicket>,
    confirmed: map<string, ConfirmedTicket>)

  const EMPTY := Store({}, map[], map[], map[], map[])

  datatype CreateInput = CreateInput(
    initiator: string,
    initiatorProfile: Profile,
    issuerProxyUrl: string,
    ticket: string,
    publicKeyX: string,
    allowResponder: Option<string>,
    expiresAtMs: int)

  datatype ConfirmInput = ConfirmInput(ticket: string, responder: string, responderProfile: Profile)

  datatype Answer =
    | TicketCreated(ticket: string, expiresAtMs: int, initiator: string, initiatorProfile: Profile, issuer: string)
    | PairConfirmed(initiator: string, initiatorProfile: Profile, responder: string, responderProfile: Profile,
                    issuer: string)
    | StatusPending(ticket: string, initiator: string, initiatorProfile: Profile, issuer: string, expiresAtMs: int)
    | StatusConfirmed(entry: ConfirmedTicket)
    | Flag(value: bool)
    | Done
    | Refused(code: Code)

  // ---------------------------------------------------------------- clean-up

  predicate Kept(key: string, expiresAtMs: int, now: int, skip: Option<string>) {
    skip == Some(key) || expiresAtMs > now
  }

  function Sweep<V>(m: map<string, V>, expiry: V -> int, now: int, skip: Option<string>): map<string, V> {
    map key | key in m && Kept(key, expiry(m[key]), now, skip) :: m[key]
  }

  function PendingExpiry(t: PendingTicket): int { t.expiresAtMs }

  function ConfirmedExpiry(t: ConfirmedTicket): int { t.expiresAtMs }

  function MarkerExpiry(expiresAtMs: int): int { expiresAtMs }

  function Cleanup(s: Store, now: int, skip: Option<string>): Store {
    s.(pending := Sweep(s.pending, PendingExpiry, now, skip),
       confirmed := Sweep(s.confirmed, ConfirmedExpiry, now, skip),
       revoked := Sweep(s.revoked, MarkerExpiry, now, None))
  }

  function MaybeCleanup(sweeps: bool, s: Store, now: int, skip: Option<string>): Store {
    if sweeps then Cleanup(s, now, skip) else s
  }

  // ---------------------------------------------------------------- pairs

  function PeersOf(peers: map<string, set<string>>, agent: string): set<string> {
    if agent in peers then peers[agent] else {}
  }

  function UpsertPeer(peers: map<string, set<string>>, left: string, right: string): map<string, set<string>> {
    peers[left := PeersOf(peers, left) + {right}]
  }

  function AddPair(s: Store, initiator: string, responder: string): Store {
    s.(pairKeys := s.pairKeys + {TrustKeys.ToPairKey(initiator, responder)},
       peers := UpsertPeer(UpsertPeer(s.peers, initiator, responder), responder, initiator))
  }

  function IsAgentKnown(s: Store, agent: string): bool {
    |PeersOf(s.peers, agent)| > 0
  }

  function IsPairAllowed(s: Store, initiator: string, responder: string): bool {
    initiator == responder || TrustKeys.ToPairKey(initiator, responder) in s.pairKeys
  }

  // ---------------------------------------------------------------- creating a ticket

  /** The entry a create call stores, or the reason it is refused. */
  function CreatedEntry(ext: Externals, input: CreateInput): Result<(Payload, PendingTicket), Code> {
    var ticket := TicketText.Normalize(input.ticket);
    match ext.parse(ticket)
    case Err(code) => Err(code)
    case Ok(payload) =>
      var expiresAtMs := TrustKeys.NormalizeExpiryToWholeSecond(input.expiresAtMs);
      var publicKeyX := Trim(input.publicKeyX);
      var allow := if input.allowResponder.Some? then Some(Trim(input.allowResponder.value)) else None;
      if payload.iss != input.issuerProxyUrl then Err(TicketInvalidIssuer)
      else if payload.exp * 1000 != expiresAtMs then Err(StartInvalidBody)
      else if publicKeyX == "" then Err(StartInvalidBody)
      else if allow == Some("") then Err(StartInvalidBody)
      else if allow.Some? && !Did.IsAgentDid(ext.decodes, allow.value) then Err(StartInvalidBody)
      else Ok((payload,
               PendingTicket(ticket, expiresAtMs, input.initiator, input.initiatorProfile, payload.iss, publicKeyX,
                             allow)))
  }

  function CreateTicket(ext: Externals, sweeps: bool, s: Store, input: CreateInput, now: int): (Store, Answer) {
    var swept := MaybeCleanup(sweeps, s, now, None);
    match CreatedEntry(ext, input)
    case Err(code) => (swept, Refused(code))
    case Ok((payload, entry)) =>
      (swept.(pending := swept.pending[payload.kid := entry], confirmed := swept.confirmed - {payload.kid}),
       TicketCreated(entry.ticket, entry.expiresAtMs, entry.initiator, entry.initiatorProfile, entry.issuer))
  }

  // ---------------------------------------------------------------- confirming a ticket

  /** What a confirm call carries across its pauses: the parsed ticket, the entry it read, and the time it read. */
  datatype Confirmation = Confirmation(
    ticket: string,
    payload: Payload,
    stored: PendingTicket,
    responder: string,
    responderProfile: Profile,
    now: int)

  /** Up to the pause for signature verification. */
  function ConfirmLookup(ext: Externals, sweeps: bool, s: Store, input: ConfirmInput, now: int)
    : (Store, Result<Confirmation, Code>)
  {
    var ticket := TicketText.Normalize(input.ticket);
    match ext.parse(ticket)
    case Err(code) => (s, Err(code))
    case Ok(payload) =>
      var swept := MaybeCleanup(sweeps, s, now, Some(payload.kid));
      if payload.kid in swept.confirmed && swept.confirmed[payload.kid].ticket == ticket then
        (swept, Err(TicketAlreadyConfirmed))
      else if payload.kid !in swept.pending then
        (swept, Err(TicketNotFound))
      else
        (swept, Ok(Confirmation(ticket, payload, swept.pending[payload.kid], input.responder, input.responderProfile,
                                now)))
  }

  /** Why a confirmation is turned down after verification, if it is. */
  function Objection(ext: Externals, c: Confirmation): Option<Code> {
    if !ext.verify(c.payload, c.stored.publicKeyX) then Some(TicketInvalidSignature)
    else if c.stored.expiresAtMs <= c.now || c.payload.exp * 1000 <= c.now then Some(TicketExpired)
    else if c.stored.issuer != c.payload.iss then Some(TicketInvalidIssuer)
    else if c.stored.allowResponder.Some? && c.stored.allowResponder.value != c.responder then Some(ResponderForbidden)
    else None
  }

  /** From the end of verification to the second pause. */
  function ConfirmCheck(ext: Externals, s: Store, c: Confirmation): (Store, Option<Code>) {
    var objection := Objection(ext, c);
    (if objection == Some(TicketExpired) then s.(pending := s.pending - {c.payload.kid}) else s, objection)
  }

  /** The writes. `clock` is a second reading of the time. */
  function ConfirmCommit(s: Store, c: Confirmation, clock: int): Store {
    var paired := AddPair(s, c.stored.initiator, c.responder);
    var entry := ConfirmedTicket(
                   c.ticket, c.stored.expiresAtMs, c.stored.initiator, c.stored.initiatorProfile, c.responder,
                   c.responderProfile, c.stored.issuer, TrustKeys.NormalizeExpiryToWholeSecond(clock));
    paired.(pending := paired.pending - {c.payload.kid}, confirmed := paired.confirmed[c.payload.kid := entry])
  }

  function ConfirmationAnswer(c: Confirmation): Answer {
    PairConfirmed(c.stored.initiator, c.stored.initiatorProfile, c.responder, c.responderProfile, c.stored.issuer)
  }

  /** A confirm call that nothing interrupts. */
  function ConfirmTicket(ext: Externals, sweeps: bool, s: Store, input: ConfirmInput, now: int, clock: int)
    : (Store, Answer)
  {
    match ConfirmLookup(ext, sweeps, s, input, now)
    case (looked, Err(code)) => (looked, Refused(code))
    case (looked, Ok(c)) =>
      match ConfirmCheck(ext, looked, c)
      case (checked, Some(code)) => (checked, Refused(code))
      case (checked, None) => (ConfirmCommit(checked, c, clock), ConfirmationAnswer(c))
  }

  // ---------------------------------------------------------------- status and revocation

  function TicketStatus(ext: Externals, sweeps: bool, s: Store, ticketInput: string, now: int): (Store, Answer) {
    var ticket := TicketText.Normalize(ticketInput);
    match ext.parse(ticket)
    case Err(code) => (s, Refused(code))
    case Ok(payload) => StatusAfterCleanup(MaybeCleanup(sweeps, s, now, Some(payload.kid)), ticket, payload, now)
  }

  function StatusAfterCleanup(s: Store, ticket: string, payload: Payload, now: int): (Store, Answer) {
    var kid := payload.kid;
    if kid in s.pending && s.pending[kid].ticket == ticket then
      var p := s.pending[kid];
      if p.expiresAtMs <= now || payload.exp * 1000 <= now then
        (s.(pending := s.pending - {kid}), Refused(TicketExpired))
      else
        (s, StatusPending(p.ticket, p.initiator, p.initiatorProfile, p.issuer, p.expiresAtMs))
    else if kid in s.confirmed && s.confirmed[kid].ticket == ticket then
      var c := s.confirmed[kid];
      if c.expiresAtMs <= now || payload.exp * 1000 <= now then
        (s.(confirmed := s.confirmed - {kid}), Refused(TicketExpired))
      else
        (s, StatusConfirmed(c))
    else
      (s, Refused(if payload.exp * 1000 <= now then TicketExpired else TicketNotFound))
  }

  function MarkRevoked(ext: Externals, sweeps: bool, s: Store, agent: string, now: int): (Store, Answer) {
    if !Did.IsAgentDid(ext.decodes, agent) then (s, Refused(RevokeInvalidBody))
    else
      var swept := MaybeCleanup(sweeps, s, now, None);
      (swept.(revoked := swept.revoked[agent := now + REVOKED_AGENT_MARKER_TTL_MS]), Done)
  }

  function CheckRevoked(ext: Externals, sweeps: bool, s: Store, agent: string, now: int): (Store, Answer) {
    if !Did.IsAgentDid(ext.decodes, agent) then (s, Refused(RevokedCheckInvalidBody))
    else
      var swept := MaybeCleanup(sweeps, s, now, None);
      (swept, Flag(agent in swept.revoked && swept.revoked[agent] > now))
  }

  // ---------------------------------------------------------------- runs of whole calls

  datatype Call =
    | CallCreate(create: CreateInput)
    | CallConfirm(confirm: ConfirmInput, clock: int)
    | CallStatus(ticket: string)
    | CallMarkRevoked(agent: string)
    | CallIsRevoked(agent: string)
    | CallIsKnown(agent: string)
    | CallIsAllowed(initiator: string, responder: string)
    | CallUpsert(initiator: string, responder: string)

  datatype Event = Event(now: int, call: Call)

  function Step(ext: Externals, sweeps: bool, s: Store, e: Event): (Store, Answer) {
    match e.call
    case CallCreate(input) => CreateTicket(ext, sweeps, s, input, e.now)
    case CallConfirm(input, clock) => ConfirmTicket(ext, sweeps, s, input, e.now, clock)
    case CallStatus(ticket) => TicketStatus(ext, sweeps, s, ticket, e.now)
    case CallMarkRevoked(agent) => MarkRevoked(ext, sweeps, s, agent, e.now)
    case CallIsRevoked(agent) => CheckRevoked(ext, sweeps, s, agent, e.now)
    case CallIsKnown(agent) => (s, Flag(IsAgentKnown(s, agent)))
    case CallIsAllowed(a, b) => (s, Flag(IsPairAllowed(s, a, b)))
    case CallUpsert(a, b) => (AddPair(s, a, b), Done)
  }

  /** The store after a run of calls from the empty store. */
  function Run(ext: Externals, sweeps: bool, events: seq<Event>): Store {
    if events == [] then EMPTY
    else Step(ext, sweeps, Run(ext, sweeps, events[..|events| - 1]), events[|events| - 1]).0
  }

  /** The store just before call `i` of the run. */
  function Before(ext: Externals, sweeps: bool, events: seq<Event>, i: nat): Store
    requires i <= |events|
  {
    Run(ext, sweeps, events[..i])
  }

  function AnswerAt(ext: Externals, sweeps: bool, events: seq<Event>, i: nat): Answer
    requires i < |events|
  {
    Step(ext, sweeps, Before(ext, sweeps, events, i), events[i]).1
  }

  lemma BeforeNext(ext: Externals, sweeps: bool, events: seq<Event>, i: nat)
    requires i < |events|
    ensures Before(ext, sweeps, events, i + 1) == Step(ext, sweeps, Before(ext, sweeps, events, i), events[i]).0
  {
    assert events[..i + 1][..i] == events[..i];
  }
}
