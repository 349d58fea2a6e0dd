/** The in-memory trust store: five collections updated in place, each call proved against its model. */
module TrustStore {
  import opened Outcomes
  import opened Text
  import opened TrustModel
  import Did
  import TicketText
  import TrustKeys

  /** One pass of the clean-up: visits every entry once, in any order, deleting the expired ones. */
  method SweepEntries<V>(entries: map<string, V>, expiry: V -> int, now: int, skip: Option<string>)
    returns (kept: map<string, V>)
    ensures kept == Sweep(entries, expiry, now, skip)
  {
    kept := entries;
    var todo := entries.Keys;
    while todo != {}
      invariant todo <= entries.Keys
      invariant kept == map key | key in entries && (key in todo || Kept(key, expiry(entries[key]), now, skip)) :: entries[key]
      decreases todo
    {
      var key :| key in todo;
      todo := todo - {key};
      if skip != Some(key) && expiry(entries[key]) <= now {
        kept := kept - {key};
      }
    }
  }

  class InMemoryTrustStore {
    const ext: Externals
    var pairKeys: set<string>
    var agentPeers: map<string, set<string>>
    var revokedAgents: map<string, int>
    var pairingTickets: map<string, PendingTicket>
    var confirmedPairingTickets: map<string, ConfirmedTicket>

    ghost function View(): Store
      reads this
    {
      Store(pairKeys, agentPeers, revokedAgents, pairingTickets, confirmedPairingTickets)
    }

    constructor (ext: Externals)
      ensures this.ext == ext && View() == EMPTY
    {
      this.ext := ext;
      pairKeys, agentPeers, revokedAgents := {}, map[], map[];
      pairingTickets, confirmedPairingTickets := map[], map[];
    }

    method CleanUp(now: int, skip: Option<string>)
      modifies this
      ensures View() == Cleanup(old(View()), now, skip)
    {
      pairingTickets := SweepEntries(pairingTickets, PendingExpiry, now, skip);
      confirmedPairingTickets := SweepEntries(confirmedPairingTickets, ConfirmedExpiry, now, skip);
      revokedAgents := SweepEntries(revokedAgents, MarkerExpiry, now, None);
    }

    method UpsertPeer(left: string, right: string)
      modifies this`agentPeers
      ensures agentPeers == TrustModel.UpsertPeer(old(agentPeers), left, right)
    {
      var peers := if left in agentPeers then agentPeers[left] else {};
      peers := peers + {right};
      agentPeers := agentPeers[left := peers];
    }

    method CreatePairingTicket(input: CreateInput, now: int) returns (answer: Answer)
      modifies this
      ensures (View(), answer) == CreateTicket(ext, true, old(View()), input, now)
    {
      CleanUp(now, None);
      var ticket := TicketText.NormalizePairingTicketText(input.ticket);
      var parsed := ext.parse(ticket);
      if parsed.Err? {
        return Refused(parsed.error);
      }
      var payload := parsed.value;
      var expiresAtMs := TrustKeys.NormalizeExpiryToWholeSecond(input.expiresAtMs);
      if payload.iss != input.issuerProxyUrl {
        return Refused(TicketInvalidIssuer);
      }
      if payload.exp * 1000 != expiresAtMs {
        return Refused(StartInvalidBody);
      }
      var publicKeyX := Trim(input.publicKeyX);
      if |publicKeyX| == 0 {
        return Refused(StartInvalidBody);
      }
      var allow: Option<string> := None;
      if input.allowResponder.Some? {
        allow := Some(Trim(input.allowResponder.value));
        if |allow.value| == 0 {
          return Refused(StartInvalidBody);
        }
        if !Did.IsAgentDid(ext.decodes, allow.value) {
          return Refused(StartInvalidBody);
        }
      }
      pairingTickets := pairingTickets[payload.kid :=
        PendingTicket(ticket, expiresAtMs, input.initiator, input.initiatorProfile, payload.iss, publicKeyX, allow)];
      confirmedPairingTickets := confirmedPairingTickets - {payload.kid};
      answer := TicketCreated(ticket, expiresAtMs, input.initiator, input.initiatorProfile, payload.iss);
    }

    /** The part of a confirmation that runs before signature verification is awaited. */
    method LookUpConfirmable(input: ConfirmInput, now: int) returns (found: Result<Confirmation, Code>)
      modifies this
      ensures (View(), found) == ConfirmLookup(ext, true, old(View()), input, now)
    {
      var ticket := TicketText.NormalizePairingTicketText(input.ticket);
      var parsed := ext.parse(ticket);
      if parsed.Err? {
        return Err(parsed.error);
      }
      var payload := parsed.value;
      CleanUp(now, Some(payload.kid));
      if payload.kid in confirmedPairingTickets && confirmedPairingTickets[payload.kid].ticket == ticket {
        return Err(TicketAlreadyConfirmed);
      }
      if payload.kid !in pairingTickets {
        return Err(TicketNotFound);
      }
      found := Ok(Confirmation(ticket, payload, pairingTickets[payload.kid], input.responder, input.responderProfile,
                               now));
    }

    /** The part between the end of verification and the return to the caller. */
    method CheckConfirmable(c: Confirmation) returns (objection: Option<Code>)
      modifies this`pairingTickets
      ensures (View(), objection) == ConfirmCheck(ext, old(View()), c)
    {
      var verified := ext.verify(c.payload, c.stored.publicKeyX);
      if !verified {
        return Some(TicketInvalidSignature);
      }
      if c.stored.expiresAtMs <= c.now || c.payload.exp * 1000 <= c.now {
        pairingTickets := pairingTickets - {c.payload.kid};
        return Some(TicketExpired);
      }
      if c.stored.issuer != c.payload.iss {
        return Some(TicketInvalidIssuer);
      }
      if c.stored.allowResponder.Some? && c.stored.allowResponder.value != c.responder {
        return Some(ResponderForbidden);
      }
      objection := None;
    }

    /** The writes of a confirmation. */
    method CommitConfirmation(c: Confirmation, clock: int)
      modifies this
      ensures View() == ConfirmCommit(old(View()), c, clock)
    {
      var confirmedAtMs := TrustKeys.NormalizeExpiryToWholeSecond(clock);
      pairKeys := pairKeys + {TrustKeys.ToPairKey(c.stored.initiator, c.responder)};
      UpsertPeer(c.stored.initiator, c.responder);
      UpsertPeer(c.responder, c.stored.initiator);
      pairingTickets := pairingTickets - {c.payload.kid};
      confirmedPairingTickets := confirmedPairingTickets[c.payload.kid :=
        ConfirmedTicket(c.ticket, c.stored.expiresAtMs, c.stored.initiator, c.stored.initiatorProfile, c.responder,
                        c.responderProfile, c.stored.issuer, confirmedAtMs)];
    }

    method ConfirmPairingTicket(input: ConfirmInput, now: int, clock: int) returns (answer: Answer)
      modifies this
      ensures (View(), answer) == ConfirmTicket(ext, true, old(View()), input, now, clock)
    {
      var found := LookUpConfirmable(input, now);
      if found.Err? {
        return Refused(found.error);
      }
      var objection := CheckConfirmable(found.value);
      if objection.Some? {
        return Refused(objection.value);
      }
      CommitConfirmation(found.value, clock);
      answer := ConfirmationAnswer(found.value);
    }

    method GetPairingTicketStatus(ticketInput: string, now: int) returns (answer: Answer)
      modifies this
      ensures (View(), answer) == TicketStatus(ext, true, old(View()), ticketInput, now)
    {
      var ticket := TicketText.NormalizePairingTicketText(ticketInput);
      var parsed := ext.parse(ticket);
      if parsed.Err? {
        return Refused(parsed.error);
      }
      var payload := parsed.value;
      var kid := payload.kid;
      CleanUp(now, Some(kid));
      if kid in pairingTickets && pairingTickets[kid].ticket == ticket {
        var p := pairingTickets[kid];
        if p.expiresAtMs <= now || payload.exp * 1000 <= now {
          pairingTickets := pairingTickets - {kid};
          return Refused(TicketExpired);
        }
        return StatusPending(p.ticket, p.initiator, p.initiatorProfile, p.issuer, p.expiresAtMs);
      }
      if kid in confirmedPairingTickets && confirmedPairingTickets[kid].ticket == ticket {
        var c := confirmedPairingTickets[kid];
        if c.expiresAtMs <= now || payload.exp * 1000 <= now {
          confirmedPairingTickets := confirmedPairingTickets - {kid};
          return Refused(TicketExpired);
        }
        return StatusConfirmed(c);
      }
      if payload.exp * 1000 <= now {
        return Refused(TicketExpired);
      }
      answer := Refused(TicketNotFound);
    }

    method MarkAgentRevoked(agent: string, now: int) returns (answer: Answer)
      modifies this
      ensures (View(), answer) == MarkRevoked(ext, true, old(View()), agent, now)
    {
      if !Did.IsAgentDid(ext.decodes, agent) {
        return Refused(RevokeInvalidBody);
      }
      CleanUp(now, None);
      revokedAgents := revokedAgents[agent := now + REVOKED_AGENT_MARKER_TTL_MS];
      answer := Done;
    }

    method IsAgentRevoked(agent: string, now: int) returns (answer: Answer)
      modifies this
      ensures (View(), answer) == CheckRevoked(ext, true, old(View()), agent, now)
    {
      if !Did.IsAgentDid(ext.decodes, agent) {
        return Refused(RevokedCheckInvalidBody);
      }
      CleanUp(now, None);
      answer := Flag(agent in revokedAgents && revokedAgents[agent] > now);
    }

    method IsAgentKnown(agent: string) returns (known: bool)
      ensures known == TrustModel.IsAgentKnown(View(), agent)
    {
      known := agent in agentPeers && |agentPeers[agent]| > 0;
    }

    method IsPairAllowed(initiator: string, responder: string) returns (allowed: bool)
      ensures allowed == TrustModel.IsPairAllowed(View(), initiator, responder)
    {
      if initiator == responder {
        return true;
      }
      allowed := TrustKeys.ToPairKey(initiator, responder) in pairKeys;
    }

    method UpsertPair(initiator: string, responder: string)
      modifies this`pairKeys, this`agentPeers
      ensures View() == AddPair(old(View()), initiator, responder)
    {
      pairKeys := pairKeys + {TrustKeys.ToPairKey(initiator, responder)};
      UpsertPeer(initiator, responder);
      UpsertPeer(responder, initiator);
    }
  }
}
