# Relay invariants

A Dafny model of the stateful parts of Clawdentity, the service that relays signed messages between agents, with
proofs of what those parts guarantee over every run. Verify it with `dafny verify dfyconfig.toml`.

The components, and the files that model them:

- **Agent identifiers** (`Did`, `DidGrammar`, `TrustKeys`): printing and parsing, their grammar, and the index key of a pair
  of agents.
- **Pairing trust store** (`TrustModel`, `TrustStore`, `TrustRuns`, `TrustCleanup`, `TrustInterleaving`,
  `TrustSingleUse`, `TrustProvenance`, `TrustAnswers`, `TrustRevocations`, `TicketText`):
  pending and confirmed tickets, revocations, the peer graph and its string-keyed index. `TrustStore` is the class with
  the mutable maps, `TrustModel` the state machine its methods are proved against, and the other files prove what runs
  of that machine keep, first for calls run one at a time and then for confirmations that overlap at their awaits.
- **Inbound inbox** (`InboxModel`, `InboundInbox`, `InboxRuns`, `InboxStories`, `Totals`): a capped queue with retries and
  dead letters, and the event log from which it can be rebuilt.
- **Credential refresh** (`RefreshFlight`, `RefreshOutcomes`): callers that share one refresh, as steps between awaits.
- **Nonce replay guard** (`PercentEncoding`, `NonceGuard`, `NonceRuns`).
- **Rate limiters** (`FixedWindow`, `AgentRateLimit`, `RegistryRateLimit`).
- **Relay queue** (`RelayQueue`, `RelayQueueRuns`, `RelayQueueStories`, `RelayAlarm`, `RetryPolicy`): pruning, the links
  between deliveries and receipts, wake-up times, retry delays.
- **Delivery transport** (`DeliveryTransport`, `DeliveryOutcomes`): promises and timers of frames in flight.
- **Connector client** (`ConnectorModel`, `ConnectorClient`, `ConnectorRuns`, `ConnectorProgress`,
  `ConnectorHeartbeat`, `ConnectorTimers`): the socket's life under any order of callbacks.
- **Signed texts** (`Signing`, `RegistrationProof`, `LabelledText`, `Text`): canonical requests and registration proofs.

Most stateful components have three layers: a state machine on values, a class whose methods are proved to take exactly
its steps, and lemmas over all runs of the machine. In `RefreshFlight` and `RelayQueue` the class covers the table that
the code mutates, and the surrounding steps exist on values only; the alarm is one method over its storage. Time is an
integer handed to every step; "monotone clock" is an explicit assumption where a lemma needs it. Library code whose behaviour does not matter appears as a function-valued
parameter: ticket decoding, signature verification and ULID decoding in the trust store, upper-casing in `Signing`.
Where a class field or a `notes` or `log` sequence records something the program itself does not store (promises already
settled, sockets already gone, what the owner was told), it models the surroundings in which the code runs.

Properties that turned out to hold only under a condition, each with the exact condition:

- Each creation of a ticket is confirmed at most once exactly when no confirmation is overtaken: two confirmations use one
  creation exactly when the second began before the first wrote and the id was not created between their beginnings
  (`OneCreationExactlyWhenOverlapping`, `SingleUseExactlyWithoutOvertaking`). Creating the id again later does not help
  (`RecreationDoesNotPreventReuse`).
- Lazy clean-up shows in exactly two kinds of answer: the status of a swept confirmation whose presented ticket still
  claims validity, and the reason for refusing to confirm a swept ticket (`CleanupShowsExactly`).
- The string-keyed index is exact for a pair exactly when its key has no further bar with sides in order
  (`IndexIsExactWithoutOtherBar`).
- Replaying dead letters keeps the inbox caps exactly when the returning items fit
  (`ReplayKeepsCapsExactlyWhenItFits`, `ReplayExceedsCaps`).
- A bucket cap is kept exactly when it is at least one (`CapHoldsExactlyWhenPositive`).
- Admitting a frame id that is still pending is exactly what loses track of a promise (`ExactUnlessReused`).
- A started connector is stranded exactly when an event ends its one activity and the owner's hook throws
  (`StuckExactlyAfterThrow`); its heartbeat is the current socket's own exactly as long as no socket is installed while one
  is running (`OwnedThroughoutExactlyWhenNeverInherited`); and it does one thing at a time exactly as long as no disconnect comes during a connect or an
  awaited auth hook (`OneThingThroughoutExactlyWhenQuiet`).
- A request's text to sign is its own exactly when path, timestamp, nonce and body hash hold no newline
  (`UnambiguousExactlyWhenNewlineFree`); a registration's exactly when no field hides a line that begins like a
  neighbouring one (`UnambiguousExactlyWithoutHiddenLines`). The registration route validates name, framework and public
  key before that text is built and rejects control characters in the framework
  (`apps/registry/src/agent-registration/parsing.ts:30-125`); challenge id, nonce and owner come from the registry.
- Normalizing ticket text twice is normalizing it once exactly when the text inside the outer spaces and backticks has no
  backtick at an end (`IdempotentExactlyWhenUnfenced`).

## Model

| member | source | states |
|---|---|---|
| Did.ParseUndoesMake | packages/protocol/src/did.ts:54-94 | printing an identifier succeeds exactly on a valid authority and ULID, and what is printed parses back to the same authority, entity and ULID |
| Did.MakeUndoesParse | packages/protocol/src/did.ts:69-94 | every accepted identifier is the printed form of its own parsed fields |
| Did.ParseAcceptsExactlyMade | packages/protocol/src/did.ts:96-118 | a string is accepted as an agent (or a human) identifier exactly when printing some fields of that entity yields it |
| Did.DidCharacters | packages/protocol/src/did.ts:15-52 | an accepted identifier has no character outside the grammar, so never a vertical bar |
| DidGrammar.AuthorityIsHostName | packages/protocol/src/did.ts:15-52 | character by character: an authority is lower-case letters, digits, dots and hyphens, with a dot, a letter or digit at both ends and on both sides of every dot, and at most 253 characters |
| DidGrammar.AgentIdentifiersExactly | packages/protocol/src/did.ts:69-107 | a string is an agent identifier exactly when it is "did:cdi:", such an authority, ":agent:" and a decodable ULID text of 26 allowed characters |
| TrustKeys.PairKeyIsSorted | apps/proxy/src/proxy-trust-keys.ts:1-6 | the index key is the two names in sorting order with a bar between them |
| TrustKeys.NormalizeExpiryToWholeSecond | apps/proxy/src/proxy-trust-keys.ts:8-10 | the result is the last whole second at or before the given time |
| TrustKeys.PairKeyIsSymmetric | apps/proxy/src/proxy-trust-keys.ts:1-6 | the index key of a pair does not depend on the order of its names |
| TrustKeys.PairKeyIsInjective | apps/proxy/src/proxy-trust-keys.ts:1-6 | a pair of bar-free names shares its key with no other unordered pair, whatever the other names are |
| TrustKeys.KeyIsSharedExactlyAtOtherBar | apps/proxy/src/proxy-trust-keys.ts:1-6 | a pair shares its key with another unordered pair exactly when its key has another bar whose two sides are in sorting order |
| TrustKeys.FreeNamesHaveNoOtherBar | apps/proxy/src/proxy-trust-keys.ts:1-6 | bar-free names never have such a bar |
| TrustKeys.PairKeyCollidesOnBars | apps/proxy/src/proxy-trust-keys.ts:1-6 | two concrete different pairs with bars in their names share a key |
| TicketText.NormalizePairingTicketText | apps/proxy/src/pairing-ticket.ts:48-57 | the three in-place passes compute the function the next rows are about |
| TicketText.NormalizeRecoversTicket | apps/proxy/src/pairing-ticket.ts:48-57 | a non-empty ticket free of spaces and backticks survives outer spaces, backtick fences and inner spaces |
| TicketText.IdempotentExactlyWhenUnfenced | apps/proxy/src/pairing-ticket.ts:48-57 | normalizing again changes nothing exactly when the first result, or equivalently the input inside its outer spaces and backticks, neither starts nor ends with a backtick |
| TicketText.FencedExactlyWhenCoreIs | apps/proxy/src/pairing-ticket.ts:48-57 | removing inner spaces never moves a backtick to an end: the result is fenced exactly when the text inside the outer spaces and backticks is |
| TicketText.SomeResultStaysFenced | apps/proxy/src/pairing-ticket.ts:48-57 | a concrete pasted text still has a backtick after one pass, so the function is not idempotent |
| TrustStore.SweepEntries | apps/proxy/src/proxy-trust-store.ts:299-325 | one pass of the clean-up keeps exactly the unexpired entries and the skipped one, in any visiting order |
| TrustStore.InMemoryTrustStore.CleanUp | apps/proxy/src/proxy-trust-store.ts:299-325 | drops expired pending tickets, confirmed tickets and revocation markers, except the skipped ticket id |
| TrustStore.InMemoryTrustStore.UpsertPeer | apps/proxy/src/proxy-trust-store.ts:327-331 | adds one directed edge of the peer graph and nothing else |
| TrustStore.InMemoryTrustStore.CreatePairingTicket | apps/proxy/src/proxy-trust-store.ts:511-596 | validates in the order of the source, with each refusal, then records the pending ticket and forgets a confirmed one of the same id |
| TrustStore.InMemoryTrustStore.LookUpConfirmable | apps/proxy/src/proxy-trust-store.ts:354-384 | the part of a confirmation before verification is awaited: parse, clean up, already confirmed, not found |
| TrustStore.InMemoryTrustStore.CheckConfirmable | apps/proxy/src/proxy-trust-store.ts:386-440 | the checks after the await, in order: signature, expiry (which deletes the pending ticket), issuer, allowed responder |
| TrustStore.InMemoryTrustStore.CommitConfirmation | apps/proxy/src/proxy-trust-store.ts:597-633 | the writes of a confirmation: index, both peer edges, confirmed entry, removal of the pending one |
| TrustStore.InMemoryTrustStore.ConfirmPairingTicket | apps/proxy/src/proxy-trust-store.ts:597-633 | a whole uninterrupted confirmation is those three parts in sequence |
| TrustStore.InMemoryTrustStore.GetPairingTicketStatus | apps/proxy/src/proxy-trust-store.ts:442-508 | pending or confirmed data, with expiry deletion, and expired versus not found for unknown tickets |
| TrustStore.InMemoryTrustStore.MarkAgentRevoked | apps/proxy/src/proxy-trust-store.ts:637-651 | refuses what is no agent identifier, otherwise takes the step whose effect over runs TrustRevocations states |
| TrustStore.InMemoryTrustStore.IsAgentRevoked | apps/proxy/src/proxy-trust-store.ts:652-667 | answers from the marker after the clean-up |
| TrustStore.InMemoryTrustStore.IsPairAllowed | apps/proxy/src/proxy-trust-store.ts:671-679 | answers from the string-keyed index, equal names being allowed |
| TrustStore.InMemoryTrustStore.IsAgentKnown | apps/proxy/src/proxy-trust-store.ts:668-670 | answers from the peer graph |
| TrustStore.InMemoryTrustStore.UpsertPair | apps/proxy/src/proxy-trust-store.ts:680-684 | adds the pair to the index and to the graph in both directions |
| TrustRuns.StepRecordsPair | apps/proxy/src/proxy-trust-store.ts:511-684 | every call changes the pairs by adding the pair its answer reports, if any, and in no other way |
| TrustRuns.StepPending | apps/proxy/src/proxy-trust-store.ts:511-684 | only a create call adds or replaces a pending ticket, and a confirmation removes its own |
| TrustRuns.IndexAlwaysAgrees | apps/proxy/src/proxy-trust-store.ts:327-331 | after every run a key is in the index exactly when the graph holds a pair with that key, and the graph is symmetric |
| TrustRuns.AllowedExactlyForPeers | apps/proxy/src/proxy-trust-store.ts:671-679 | after every run two names whose key has no other bar, so any two bar-free names, are allowed exactly when equal or recorded as peers, and peers are mutual |
| TrustRuns.IndexIsExactWithoutOtherBar | apps/proxy/src/proxy-trust-store.ts:671-684 | for different names, "allowed exactly when peers" holds in every run if and only if their key has no other bar |
| TrustRuns.AgentsAgreeOnAllNames | apps/proxy/src/proxy-trust-store.ts:668-679 | when all recorded names are agent identifiers the same holds for arbitrary strings, and an agent is known exactly when a recorded pair mentions it |
| TrustRuns.MalformedNamesConfuseTheIndex | apps/proxy/src/proxy-trust-store.ts:671-684 | with a bar in a name, a concrete run allows a pair nobody recorded |
| TrustRuns.TicketsAlwaysDisjoint | apps/proxy/src/proxy-trust-store.ts:578-633 | after every run no id is both pending and confirmed |
| TrustRuns.TrustNeverShrinks | apps/proxy/src/proxy-trust-store.ts:597-684 | along every run index and graph only grow |
| TrustRuns.ConfirmedAtMostOncePerCreate | apps/proxy/src/proxy-trust-store.ts:354-440 | between two confirmations of one ticket id there is a create call for that id |
| TrustRuns.PendingComesFromCreate | apps/proxy/src/proxy-trust-store.ts:511-596 | a pending ticket is the one most recently created under its id and was not confirmed since |
| TrustRuns.ConfirmationIsLicensed | apps/proxy/src/proxy-trust-store.ts:354-440 | every successful confirmation uses a created ticket that was unexpired, correctly signed, from the same issuer, and open to that responder |
| TrustRuns.EveryLinkIsIntroduced | apps/proxy/src/proxy-trust-store.ts:597-684 | every peer edge of every reachable state comes from an upsert call or a licensed confirmation of that run |
| TrustAnswers.CreateAnswersExactly | apps/proxy/src/proxy-trust-store.ts:511-596 | a create call succeeds exactly when its request is in order, stated on the raw request, and echoes it; otherwise the answer is the decoder's error, the wrong issuer, or else the invalid body |
| TrustAnswers.PendingExactlyWhileLive | apps/proxy/src/proxy-trust-store.ts:511-633 | in every run under a monotone clock an unexpired ticket is pending exactly from its creation until its id is created again, confirmed, or found expired by a confirmation, and holds what the raw request asked for |
| TrustAnswers.ConfirmAnswersInStore | apps/proxy/src/proxy-trust-store.ts:354-440 | each refusal of a confirmation is given exactly when its condition is the first to fail: signature, expiry, issuer, responder, already confirmed, not found |
| TrustAnswers.ConfirmedExactlyWhenLetThrough | apps/proxy/src/proxy-trust-store.ts:354-440 | in every such run a confirmation succeeds if and only if a creation of its id is still available, the ticket verifies under the creation's key, neither has expired, and issuer and responder fit; the answer names the creation's initiator and the request's responder |
| TrustAnswers.PendingStatusExactly | apps/proxy/src/proxy-trust-store.ts:442-471 | in every such run the status is "pending" exactly while the creation with that ticket text is available, and shows what it asked for |
| TrustAnswers.ConfirmedStatusExactly | apps/proxy/src/proxy-trust-store.ts:472-500 | in every such run the status is "confirmed" exactly while a confirmation made with that ticket text is on record and neither expiry has passed, and shows both parties and the whole second of the confirmation |
| TrustAnswers.StatusInStore | apps/proxy/src/proxy-trust-store.ts:442-508 | all other status questions are refused, as expired if the presented ticket has expired, and as not found if it has not and no record has its text |
| TrustAnswers.SweepingLeavesNothingExpired | apps/proxy/src/proxy-trust-store.ts:299-325 | after a call that sweeps, only the ticket that the call is about can be in the store expired |
| TrustRevocations.RevokedForThirtyDays | apps/proxy/src/proxy-trust-store.ts:637-667 | in every run under a monotone clock, sweeping or not, an agent is reported revoked if and only if it was marked less than thirty days (2592000000 ms) before |
| TrustRevocations.OnlyAgentsAreRevoked | apps/proxy/src/proxy-trust-store.ts:637-667 | marking and checking are refused exactly for strings that are no agent identifiers, each with its own reason and without effect |
| TrustCleanup.StatusCovers | apps/proxy/src/proxy-trust-store.ts:442-508 | of two related stores, one sweeping and one not, the status answers agree exactly when the question is not about a swept confirmation whose presented ticket still claims to be valid |
| TrustCleanup.ConfirmAnswersCover | apps/proxy/src/proxy-trust-store.ts:354-440 | and the confirmation answers agree exactly when the ticket is not one swept while pending, or swept while confirmed with the same text |
| TrustCleanup.CleanupShowsExactly | apps/proxy/src/proxy-trust-store.ts:299-325 | in every run under a monotone clock the sweep changes an answer exactly in those two cases, no other call can tell, and a confirmation succeeds in both stores or in neither |
| TrustCleanup.HonestIssuersBindKeys | apps/proxy/src/proxy-trust-store.ts:529-555 | an issuer who signs one ticket per id with a key binds the key, as the next row assumes |
| TrustCleanup.CleanupIsInvisible | apps/proxy/src/proxy-trust-store.ts:299-325 | so when the create calls before a call bind their keys to one expiry, only the reason of a refused confirmation can show the sweep |
| TrustCleanup.RefusalReasonsCanDiffer | apps/proxy/src/proxy-trust-store.ts:354-408 | a concrete run for the second case: the sweep turns the refusal "expired" into "not found" |
| TrustCleanup.UnboundKeyExposesCleanup | apps/proxy/src/proxy-trust-store.ts:472-508 | a concrete run for the first case, with a key that verifies two expiries for one id |
| TrustInterleaving.UninterruptedIsWhole | apps/proxy/src/proxy-trust-store.ts:597-633 | the three parts of a confirmation run back to back are the whole call |
| TrustInterleaving.OverlappingKeepsInvariants | apps/proxy/src/proxy-trust-store.ts:354-440 | disjoint tickets and index agreement also hold when confirmations overlap at their awaits in any way |
| TrustInterleaving.ReuseFindsNothingPending | apps/proxy/src/proxy-trust-store.ts:578-633 | a second commit of an id that was not created again always finds its pending ticket gone |
| TrustSingleUse.ReadsOneCreation | apps/proxy/src/proxy-trust-store.ts:354-384 | every confirmation, however interleaved, uses exactly one creation of its id: the last before its beginning |
| TrustSingleUse.OneCreationExactlyWhenOverlapping | apps/proxy/src/proxy-trust-store.ts:386-440 | two confirmations of one id use the same creation exactly when the second began before the first wrote and the id was not created between their beginnings |
| TrustSingleUse.ReusedExactlyWhenOvertaken | apps/proxy/src/proxy-trust-store.ts:386-440 | so a confirmation uses a creation that was used before exactly when another one of its id, begun on the same creation, writes between its beginning and its writes |
| TrustSingleUse.SingleUseExactlyWithoutOvertaking | apps/proxy/src/proxy-trust-store.ts:386-440 | a play confirms each creation of an id at most once exactly when none of its confirmations is overtaken like that |
| TrustSingleUse.SingleUseWithoutOverlap | apps/proxy/src/proxy-trust-store.ts:386-440 | plays whose confirmations of an id never overlap, whatever else is interleaved, use each creation once and create the id between two confirmations |
| TrustSingleUse.UnreadCreationIsDiscardedExactly | apps/proxy/src/proxy-trust-store.ts:606-631 | a confirmation removes a pending creation that it did not read exactly when the id was created after it began and is still pending at its writes |
| TrustSingleUse.OverlappingConfirmationsReuseATicket | apps/proxy/src/proxy-trust-store.ts:386-440 | a concrete overlap in which one created ticket is confirmed for two responders |
| TrustSingleUse.RecreationDoesNotPreventReuse | apps/proxy/src/proxy-trust-store.ts:386-440 | the same overlap with the ticket created again between the writes: both still use the first creation, and the second one is gone unconfirmed |
| TrustProvenance.WrittenIsLicensed | apps/proxy/src/proxy-trust-store.ts:354-440 | however confirmations overlap, each that writes was licensed when it began: by a creation then unconfirmed, unexpired, correctly signed, from the same issuer, and open to that responder |
| TrustProvenance.EveryPlayedLinkIsIntroduced | apps/proxy/src/proxy-trust-store.ts:597-684 | however confirmations overlap, every peer edge comes from an upsert or a confirmation licensed in that way |
| InboxModel.SanitizedIdsAreTheRequestedOnes | packages/connector/src/inbound-inbox.ts:30-36 | the sanitized list holds exactly the non-empty trimmed requested ids, each once |
| InboundInbox.ConnectorInboundInbox.AppendEvent | packages/connector/src/inbound-inbox/storage.ts:389-398 | appends to the log and keeps only the newest event rows in storage |
| InboundInbox.ConnectorInboundInbox.PendingTotals | packages/connector/src/inbound-inbox/storage.ts:446-458 | counts the pending table and sums its bytes |
| InboundInbox.ConnectorInboundInbox.Enqueue | packages/connector/src/inbound-inbox.ts:79-141 | duplicate, message cap, byte cap and acceptance, with the reported count |
| InboundInbox.ConnectorInboundInbox.MarkDelivered | packages/connector/src/inbound-inbox.ts:150-162 | removes the pending row and logs it, or does nothing |
| InboundInbox.ConnectorInboundInbox.MarkReplayFailure | packages/connector/src/inbound-inbox.ts:164-227 | counts the attempt, then dead-letters or reschedules |
| InboundInbox.ConnectorInboundInbox.ReplayDeadLetter | packages/connector/src/inbound-inbox.ts:235-272 | moves exactly the requested dead-lettered items back; the returned count is the number of distinct such ids |
| InboundInbox.ConnectorInboundInbox.PurgeDeadLetter | packages/connector/src/inbound-inbox.ts:274-306 | deletes exactly the requested dead-lettered items; the returned count is their number |
| InboxModel.ReplayAllMovesTargets | packages/connector/src/inbound-inbox.ts:245-267 | replaying any list, with repetitions in any order, moves exactly its dead-lettered ids |
| InboxModel.PurgeAllRemovesTargets | packages/connector/src/inbound-inbox.ts:284-301 | purging any list removes exactly its dead-lettered ids and logs one event for each |
| InboxModel.RunWellKept | packages/connector/src/inbound-inbox.ts:79-306 | in every run no id is in both tables and each row is under its own id |
| InboxRuns.LogRebuildsInbox | packages/connector/src/inbound-inbox.ts:79-306 | folding the whole event log from empty gives the ids of both tables and their attempt counts |
| InboxRuns.EveryIdIsWhereItsLogSays | packages/connector/src/inbound-inbox.ts:79-306 | each id is where its latest event says, and its attempt count is the number of its failures and dead-letterings since it was last accepted |
| InboxRuns.MessagesAreConserved | packages/connector/src/inbound-inbox.ts:97-306 | messages accepted as new are pending, dead-lettered, delivered or purged, and the numbers add up |
| InboxRuns.DeliveryRemovesItsMessage | packages/connector/src/inbound-inbox.ts:150-162 | a delivery removes exactly its own pending message, and is logged exactly if there was one |
| InboxRuns.NewMessagesFitCaps | packages/connector/src/inbound-inbox.ts:97-138 | a message is accepted as new exactly when its id is unknown and both caps leave room, and both caps hold afterwards; a known id is a logged duplicate; a message turned away changes nothing and is told which cap it hit |
| InboxRuns.CapsHoldWithoutReplay | packages/connector/src/inbound-inbox.ts:97-138 | without dead-letter replays both caps hold whenever anything is pending |
| InboxRuns.ReplayKeepsCapsExactlyWhenItFits | packages/connector/src/inbound-inbox.ts:235-272 | a replay checks no cap: the caps hold afterwards exactly when the returning items fit |
| InboxRuns.ReplayExceedsCaps | packages/connector/src/inbound-inbox.ts:235-272 | runs in which a replay does exceed a cap of one message: the place was taken while the item was dead-lettered |
| InboxRuns.RetryableFailureNeverDeadLetters | packages/connector/src/inbound-inbox.ts:178-224 | a retryable failure only adds one attempt |
| InboxRuns.PendingExactlyBelowThreshold | packages/connector/src/inbound-inbox.ts:173-224 | starting at count c, an item is pending after k >= 1 non-retryable failures exactly when c + k < max(1, N), and otherwise dead-lettered with the count at which it crossed |
| InboxRuns.DeadLetteringIsReported | packages/connector/src/inbound-inbox.ts:164-227 | a failure report is told that its message was dead-lettered exactly when it was |
| InboxStories.RowsTellTheirStory | packages/connector/src/inbound-inbox.ts:38-55 | in every run each pending or dead-lettered row carries the sender, recipient, payload, size and trimmed optional fields of the frame that was last accepted as new under its id, through failures, dead-lettering and replays, with the text and time of its last failure since; a pending row is due when the last operation on it said, and a dead letter has the time and reason of that failure |
| InboxStories.FailingRow | packages/connector/src/inbound-inbox.ts:178-224 | one failure keeps the message and records its text and time; a row that stays pending waits as the report says |
| InboxStories.ReplayedRow | packages/connector/src/inbound-inbox.ts:252-262 | a replay brings a dead-lettered row back unchanged, due at once, with the reason as its last error, and touches no other row |
| RefreshFlight.RefreshSingleFlights.RunRefreshSingleFlight | packages/sdk/src/agent-auth-client.ts:196-211 | joins the refresh under way for the key or registers a new one |
| RefreshFlight.RefreshSingleFlights.Finally | packages/sdk/src/agent-auth-client.ts:204-208 | clears the entry only if it is its own |
| RefreshFlight.OneRefreshAtATime | packages/sdk/src/agent-auth-client.ts:196-211 | in every interleaving at most one get-refresh-persist sequence is under way per key |
| RefreshFlight.JoinedCallersSeeOneOutcome | packages/sdk/src/agent-auth-client.ts:199-210 | all callers that resumed from one refresh saw the outcome it ended with |
| RefreshFlight.ReplacedTokensAreNeverShown | packages/sdk/src/agent-auth-client.ts:302-310 | a refresh token whose replacement was persisted is never shown to the registry again |
| RefreshFlight.ActionRunsAtMostTwice | packages/sdk/src/agent-auth-client.ts:295-312 | each caller runs its action at most twice, and twice exactly when it resumed from a refresh that succeeded |
| RefreshOutcomes.OutcomeIsItsOwn | packages/sdk/src/agent-auth-client.ts:299-308 | in every interleaving a refresh ends with token t if and only if it received t from the registry and succeeded, which it does only after writing t under its key, and fails if and only if one of its own steps failed |
| RefreshOutcomes.RetriesUseTheWrittenToken | packages/sdk/src/agent-auth-client.ts:299-311 | a caller performs its action again only with the token that the refresh it joined received, and wrote under the caller's key |
| RefreshOutcomes.ReturnedExactlyWhenDone | packages/sdk/src/agent-auth-client.ts:284-312 | a call has returned exactly when its action ended, its credentials could not be read, or its refresh failed |
| RefreshOutcomes.ReplacementsFormAChain | packages/sdk/src/agent-auth-client.ts:302-308 | the store always holds what the log of replacements says, and every token shown or replaced was the stored one at that moment |
| RefreshOutcomes.OnlyShownTokensAreReplaced | packages/sdk/src/agent-auth-client.ts:302-308 | a token is replaced only after it was shown to the registry |
| RefreshFlight.FlightsClearTheirOwnEntry | packages/sdk/src/agent-auth-client.ts:204-208 | when a refresh ends the entry is always its own, so the identity check never fails |
| PercentEncoding.EncodingIsInjectiveAndBarFree | apps/proxy/src/nonce-replay-guard.ts:66-68 | percent-encoding of UTF-8 (section 2.1 of RFC 3986) is injective and never emits a vertical bar |
| PercentEncoding.UnreservedTextStays | apps/proxy/src/nonce-replay-guard.ts:66-68 | text of unreserved characters is its own encoding |
| PercentEncoding.EscapesAreHexadecimal | apps/proxy/src/nonce-replay-guard.ts:66-68 | any other byte is a percent sign and two capital hexadecimal digits that give the byte |
| NonceRuns.StorageKeyIsInjective | apps/proxy/src/nonce-replay-guard.ts:66-68 | different pairs of agent and nonce never share a storage key |
| NonceGuard.NonceReplayGuard.HandleTryAccept | apps/proxy/src/nonce-replay-guard.ts:131-185 | invalid input, replay of an unexpired record, or acceptance with its record and a possibly earlier alarm |
| NonceGuard.NonceReplayGuard.Alarm | apps/proxy/src/nonce-replay-guard.ts:90-129 | keeps exactly the well-formed unexpired records and aims the alarm at their earliest expiry, or clears it |
| NonceRuns.AcceptedIsRemembered | apps/proxy/src/nonce-replay-guard.ts:131-182 | until it expires an acceptance stays in storage unchanged, through any requests and alarms |
| NonceRuns.AnswersTellTimes | apps/proxy/src/nonce-replay-guard.ts:29-182 | on the raw body: blank ids, a lifetime that is not positive or a negative time are invalid, exactly; an acceptance tells the body's own time, or the clock's if it has none, and that plus its lifetime; a refusal tells the times of an unexpired acceptance of the same trimmed pair |
| NonceRuns.AcceptedExactlyWhenUnseen | apps/proxy/src/nonce-replay-guard.ts:152-182 | under a monotone clock a body is accepted exactly when all earlier acceptances with the same trimmed agent and nonce have expired |
| NonceRuns.AcceptancesAreATtlApart | apps/proxy/src/nonce-replay-guard.ts:152-182 | two acceptances of bodies whose trimmed agent and nonce agree are at least the first one's lifetime apart, at the times the bodies carry |
| NonceRuns.AlarmIsNeverLate | apps/proxy/src/nonce-replay-guard.ts:90-182 | whenever records exist an alarm is set no later than the earliest expiry |
| NonceRuns.AlarmIsAnExpiry | apps/proxy/src/nonce-replay-guard.ts:90-182 | an alarm is always aimed at the expiry of some accepted request |
| NonceRuns.AlarmClearsExpired | apps/proxy/src/nonce-replay-guard.ts:90-129 | a handled alarm leaves exactly the unexpired records, unchanged, and a later alarm exactly if any are left |
| AgentRateLimit.SweepBuckets | apps/proxy/src/agent-rate-limit-middleware.ts:40-47 | the in-place sweep keeps exactly the buckets whose window is open |
| AgentRateLimit.AgentRateLimiter.Handle | apps/proxy/src/agent-rate-limit-middleware.ts:28-79 | health checks and unauthenticated requests pass uncounted; others are swept, then counted |
| FixedWindow.SweepChangesNoDecision | apps/proxy/src/agent-rate-limit-middleware.ts:40-75 | under a monotone clock the sweep never changes a decision |
| FixedWindow.OnlyOpenWindowsAreKept | apps/proxy/src/agent-rate-limit-middleware.ts:40-47 | after every request the table holds open windows only |
| FixedWindow.LessThanTwiceTheLimitPerWindow | apps/proxy/src/agent-rate-limit-middleware.ts:49-79 | any half-open interval of one window length admits at most 2 * max(1, limit) - 1 requests of one key, and at most the limit for windows of one millisecond |
| FixedWindow.MostIsAdmitted | apps/proxy/src/agent-rate-limit-middleware.ts:49-79 | for every limit and every longer window a burst around the change of windows attains that bound |
| FixedWindow.RejectedOnlyWhenUsedUp | apps/proxy/src/agent-rate-limit-middleware.ts:49-75 | a rejection means that the limit was used up less than one window earlier |
| RegistryRateLimit.RegistryRateLimiter.EvictOldest | apps/registry/src/rate-limit.ts:57-69 | removes the first inserted of the buckets with the least window start, and keeps the others in their order |
| RegistryRateLimit.RegistryRateLimiter.Handle | apps/registry/src/rate-limit.ts:44-92 | sweep, eviction when a new key meets a full table, reset or count, with the order in which the map keeps its entries |
| RegistryRateLimit.EvictionIsFirstInFirstOut | apps/registry/src/rate-limit.ts:55-75 | under a monotone clock the bucket evicted for a new key is always the one inserted longest ago |
| RegistryRateLimit.ClientsShareABucketExactly | apps/registry/src/rate-limit.ts:26-53 | two requests share a bucket exactly when their headers name the same client, spaces aside, or neither names one |
| RegistryRateLimit.OnlyOpenWindowsAreInTable | apps/registry/src/rate-limit.ts:44-53 | after every request the capped table holds open windows only |
| RegistryRateLimit.TableTraceIsTrace | apps/registry/src/rate-limit.ts:44-92 | runs with the order of entries are runs of the relation that the next rows are about |
| RegistryRateLimit.TableSize | apps/registry/src/rate-limit.ts:55-75 | after every request the table holds between one and max(1, maxBuckets) buckets |
| RegistryRateLimit.CapHoldsExactlyWhenPositive | apps/registry/src/rate-limit.ts:55-75 | a non-empty run stays within maxBuckets throughout exactly when maxBuckets is at least one |
| RegistryRateLimit.NoEvictionWhileKeysFit | apps/registry/src/rate-limit.ts:44-91 | while the open windows fit the cap, table and decisions are those of the limiter without eviction |
| RelayQueue.RelayQueueState.DeleteQueuedReceipt | apps/proxy/src/agent-relay-session/queue-state.ts:86-101 | deletes the receipt only if it is queued and belongs to the delivery, and keeps "every queued receipt has its delivery" and "every receipt is under its own id" |
| RelayQueue.RelayQueueState.UpsertReceipt | apps/proxy/src/agent-relay-session/queue-state.ts:103-108 | keeps every receipt under its own id, and keeps every queued receipt linked to a delivery exactly when the new one is not queued or has its delivery |
| RelayQueueRuns.LinksAlwaysHold | apps/proxy/src/agent-relay-session/queue-manager.ts:124-232 | in every run of enqueuing, reporting, delivering, giving up, rescheduling, reordering and pruning, both links hold |
| RelayQueueRuns.GivingUpUndoesEnqueuing | apps/proxy/src/agent-relay-session/core.ts:297-306 | giving up a delivery just enqueued restores queue and receipts, if the request had no receipt |
| RelayQueueStories.DeliveriesWereEnqueued | apps/proxy/src/agent-relay-session/core.ts:275-297 | in every run each delivery in the queue was enqueued with those ids, parties, payload and times; only its attempts have changed |
| RelayQueueStories.QueuedExactlyUntilRemoved | apps/proxy/src/agent-relay-session/queue-manager.ts:124-232 | if every delivery has an id of its own, it is in the queue exactly from when it is enqueued until it is delivered, given up, or pruned at or after its expiry |
| RelayQueueStories.QueuedReceiptsDescribeDeliveries | apps/proxy/src/agent-relay-session/core.ts:297-306 | in every run each receipt in the queued state names the ids, sender, recipient and expiry of a delivery in the queue |
| RelayQueueStories.ReportedReceiptsOutliveDeliveries | apps/proxy/src/agent-relay-session/queue-state.ts:86-140 | a receipt that reports more than queueing is dropped by pruning exactly when it has expired itself, and by giving up never |
| RelayQueue.RelayQueueState.PruneExpiredQueueState | apps/proxy/src/agent-relay-session/queue-state.ts:110-140 | the two loops leave exactly the specified pruned state, and the result is true exactly when the state changed |
| RelayQueue.UnexpiredKeepsOrder | apps/proxy/src/agent-relay-session/queue-state.ts:116-125 | the retained deliveries keep their order |
| RelayQueue.PruningTwiceIsPruningOnce | apps/proxy/src/agent-relay-session/queue-state.ts:110-140 | pruning at t1 and then at t2 >= t1 is pruning at t2 |
| RelayQueue.PruningKeepsLinks | apps/proxy/src/agent-relay-session/queue-state.ts:110-140 | pruning keeps "every queued receipt has its delivery" and "every receipt is under its own id", and leaves exactly unexpired deliveries |
| RelayQueue.NormalizeReceipts | apps/proxy/src/agent-relay-session/queue-state.ts:38-84 | keeps exactly the well-formed receipts stored under their own id, and returns every well-keyed receipt table written out unchanged |
| RelayQueue.FindNextQueueWakeMs | apps/proxy/src/agent-relay-session/queue-state.ts:142-156 | the least of max(now + 1, nextAttemptAtMs) over the deliveries, or nothing if there are none |
| RelayAlarm.ScheduleNextRelayAlarm | apps/proxy/src/agent-relay-session/scheduler.ts:5-28 | sets the alarm that is due, or clears it exactly when there is nothing to wake for and storage can clear alarms |
| RelayAlarm.DueIsUnique | apps/proxy/src/agent-relay-session/scheduler.ts:11-27 | the bounds that define the due alarm leave no choice |
| RelayAlarm.NoAttemptIsSleptThrough | apps/proxy/src/agent-relay-session/scheduler.ts:11-27 | no delivery's attempt time passes before the alarm, and an overdue one is attempted one millisecond later |
| RelayAlarm.HeartbeatIsNotSleptThrough | apps/proxy/src/agent-relay-session/scheduler.ts:11-27 | with sockets the session wakes within 30000 ms, and after exactly that if nothing is queued |
| RetryPolicy.BaseDelayGrows | apps/proxy/src/agent-relay-session/policy.ts:7-11 | the base delay is positive, never decreases with more attempts, and stays at the maximum once reached |
| RetryPolicy.BaseDelayDoubles | apps/proxy/src/agent-relay-session/policy.ts:7-11 | the first two attempts share the initial delay and each later one doubles, up to the maximum |
| RetryPolicy.JitteredDelayBounds | apps/proxy/src/agent-relay-session/policy.ts:17-21 | with positive jitter every delay lies between max(1, floor(base - span)) and min(retryMaxMs, ceil(base + span)) for every sample in [0, 1) |
| RetryPolicy.JitteredDelayIsNearBase | apps/proxy/src/agent-relay-session/policy.ts:17-21 | a jittered delay is less than one millisecond outside the real range base - span to base + span |
| RetryPolicy.EveryDelayInRangeOccurs | apps/proxy/src/agent-relay-session/policy.ts:20-21 | every whole delay from the lower end up to the upper end, exclusive, comes from some sample |
| RetryPolicy.DelaysAreExactlyTheRange | apps/proxy/src/agent-relay-session/policy.ts:3-22 | with positive jitter the delays that occur are exactly the whole numbers d with max(1, floor(base - span)) <= d < base + span and d <= retryMaxMs, where span is base times the ratio |
| RetryPolicy.DelayIsPositive | apps/proxy/src/agent-relay-session/policy.ts:3-22 | with or without jitter the delay is between 1 and retryMaxMs, and without jitter it is the base delay |
| RetryPolicy.LowerBoundHoldsExactlyForPositiveDelays | apps/proxy/src/agent-relay-session/policy.ts:7-21 | with jitter all samples respect the lower bound exactly when the initial and the maximal delay are at least one, as the configuration demands |
| DeliveryTransport.RelayDeliveryTransport.SendDeliverFrame | apps/proxy/src/agent-relay-session/delivery.ts:37-73 | window full, frame too large, or a new promise with its timer, settled at once if the socket throws |
| DeliveryTransport.RelayDeliveryTransport.ResolveDeliverAck | apps/proxy/src/agent-relay-session/delivery.ts:26-35 | settles the pending delivery of that id with the answer, or does nothing |
| DeliveryTransport.RelayDeliveryTransport.OnTimeout | apps/proxy/src/agent-relay-session/delivery.ts:55-58 | deletes whatever is pending under the timer's frame id and rejects the timer's own promise |
| DeliveryTransport.RelayDeliveryTransport.RejectPending | apps/proxy/src/agent-relay-session/pending-deliveries.ts:3-12 | the drain loop settles every pending delivery once and empties the table |
| DeliveryTransport.SettlesAtMostOnce | apps/proxy/src/agent-relay-session/delivery.ts:22-74 | in every interleaving, whatever ids are used, each promise settles at most once and is unsettled exactly while its timer is armed |
| DeliveryTransport.ExactUnlessReused | apps/proxy/src/agent-relay-session/delivery.ts:37-73 | a step breaks "unsettled exactly while pending" exactly when it admits a frame id that is still pending |
| DeliveryTransport.PendingExactlyWhileUnsettled | apps/proxy/src/agent-relay-session/delivery.ts:22-74 | with no id admitted while still pending, promises are unsettled exactly while their id is pending, in every interleaving |
| DeliveryTransport.AdmittedIsPendingResolvedOrRejected | apps/proxy/src/agent-relay-session/delivery.ts:22-74 | then admitted = pending + resolved + rejected |
| DeliveryTransport.WindowIsRespected | apps/proxy/src/agent-relay-session/delivery.ts:41-45 | the table never exceeds max(0, maxInFlightDeliveries) |
| DeliveryTransport.UnsettledFitTheWindow | apps/proxy/src/agent-relay-session/delivery.ts:41-45 | with no id admitted while still pending, no more promises than the window are unsettled |
| DeliveryTransport.OutcomesAreFinal | apps/proxy/src/agent-relay-session/delivery.ts:22-74 | a settled promise is never touched again |
| DeliveryTransport.ResolvedByItsOwnAck | apps/proxy/src/agent-relay-session/delivery.ts:26-35 | a promise resolves only with the answer of an acknowledgement that named its id while it was pending |
| DeliveryOutcomes.SettledExactlyByItsEvent | apps/proxy/src/agent-relay-session/delivery.ts:22-74 | in every run, whatever ids are reused, a promise has an outcome if and only if one of its events gave it that one: its send threw, an acknowledgement named it while in the table, its timer fired, or the table was dropped |
| DeliveryOutcomes.SendAnswersExactly | apps/proxy/src/agent-relay-session/delivery.ts:37-73 | with no id admitted while still pending, a send is turned away exactly when the window is full of unsettled promises, or else its frame is too large, and then changes nothing; otherwise it adds one promise for its frame, rejected at once exactly if the send throws |
| DeliveryTransport.ReusedIdLosesAnAck | apps/proxy/src/agent-relay-session/delivery.ts:55-58 | a concrete run with a reused id in which the old timer hides the newer delivery from its acknowledgement |
| ConnectorClients.ConnectorClient.Connect | packages/connector/src/client.ts:238-248 | starts once and begins a connection |
| ConnectorClients.ConnectorClient.Disconnect | packages/connector/src/client.ts:250-265 | stops, clears the reconnection and the timers, and drops the socket |
| ConnectorClients.ConnectorClient.ContinueConnect | packages/connector/src/client.ts:308-338 | after the awaits: failed headers, stopped client, failed factory, or a new current socket with its timeout |
| ConnectorClients.ConnectorClient.ScheduleReconnect | packages/connector/src/client.ts:385-394 | plans a reconnection only while started |
| ConnectorClients.ConnectorClient.DetachSocket | packages/connector/src/client.ts:442-451 | succeeds exactly for the current socket and clears its timers |
| ConnectorClients.ConnectorClient.HandleUnexpectedResponse | packages/connector/src/client.ts:453-470 | up to the await: detaches, and on status 401 grants at most one immediate retry and waits for the hook |
| ConnectorClients.ConnectorClient.AfterAuthHook | packages/connector/src/client.ts:472-500 | after the await: reports and reconnects, at once if the retry was granted |
| ConnectorClients.ConnectorClient.OnConnectTimeout | packages/connector/src/client.ts:403-427 | tears down the socket whose timeout fired |
| ConnectorClients.ConnectorClient.HandleHeartbeatAckTimeout | packages/connector/src/client.ts:535-561 | tears down the current socket |
| ConnectorClients.ConnectorClient.OnOpen | packages/connector/src/client/socket-session.ts:84-99 | clears the timeout, resets the backoff, starts the heartbeat and allows a new immediate retry unless the hook throws |
| ConnectorClients.ConnectorClient.OnClose | packages/connector/src/client/socket-session.ts:107-129 | tears down the current socket |
| ConnectorClients.ConnectorClient.OnError | packages/connector/src/client/socket-session.ts:130-165 | tears down the current socket unless it is open or connecting |
| ConnectorRuns.DisconnectionIsReportedAtMostOnce | packages/connector/src/client.ts:403-561 | in every interleaving of all teardown paths the owner hears of each socket's end at most once |
| ConnectorRuns.EverySocketHasOneFate | packages/connector/src/client.ts:250-561 | every socket is current, awaiting the auth hook, or ended in exactly one way: reported, dropped by disconnect, or replaced |
| ConnectorRuns.FiringTimersReport | packages/connector/src/client.ts:396-451 | an armed connect timeout belongs to the current socket, and a running heartbeat means that there is one, so either timeout always tears the current socket down and reports it |
| ConnectorTimers.WatchedExactlyUntilOpen | packages/connector/src/client.ts:337-427 | in every interleaving the connect timeout is armed if and only if one is configured and the current socket has not opened, and for that socket; an opened current socket has the heartbeat running if one is configured |
| ConnectorTimers.NeverWaitsUnwatched | packages/connector/src/client.ts:300-561 | with both timers configured and disconnect hooks that do not throw, a started client always has a timer armed, a reconnection planned, or a connect or auth hook under way |
| ConnectorHeartbeat.OwnedUnlessInherited | packages/connector/src/client.ts:300-338 | from a heartbeat started for the current socket, a step leaves it to another socket exactly when it installs a new socket while the heartbeat runs |
| ConnectorHeartbeat.OwnedThroughoutExactlyWhenNeverInherited | packages/connector/src/client.ts:300-338 | throughout a run the heartbeat is the current socket's own exactly when no step of the run does that |
| ConnectorHeartbeat.QuietHeartbeatsAreOwned | packages/connector/src/client.ts:250-338 | as in every run without a disconnect during a suspended connect or an awaited hook |
| ConnectorHeartbeat.HeartbeatTearsDownAnotherSocket | packages/connector/src/client.ts:535-561 | a concrete run in which the heartbeat of a replaced socket tears down the new one, which never opened |
| ConnectorRuns.TimersAlwaysKept | packages/connector/src/client.ts:250-265 | a stopped client has no socket, no reconnection planned and no timer armed |
| ConnectorRuns.ImmediateRetriesAreBounded | packages/connector/src/client.ts:461-500 | immediate retries never exceed the grants, nor grants one plus the number of connections |
| ConnectorRuns.AttemptCountsBackoffs | packages/connector/src/client/reconnect-scheduler.ts:35-72 | the backoff exponent is always the number of delayed reconnections planned since the last connection |
| ConnectorTimers.PlansAreNumbered | packages/connector/src/client/reconnect-scheduler.ts:35-72 | a planned reconnection is the last one noted, and every delayed one carries the number of delayed ones before it since the last connection |
| ConnectorTimers.FirstRejectionIsGranted | packages/connector/src/client.ts:453-470 | a status 401 grants the immediate retry if and only if no current socket was rejected with 401 since the last opening whose hook did not throw |
| ConnectorTimers.GrantedRetriesAreImmediate | packages/connector/src/client.ts:472-500 | when the auth hook of a rejected socket is done, a started client plans to reconnect at once if and only if that socket was granted the retry, and otherwise after the backoff |
| ConnectorProgress.StuckExactlyAfterThrow | packages/connector/src/client.ts:420-427 | a step leaves a started client with nothing under way exactly when it reports the end of the only thing it had and the owner's hook throws |
| ConnectorProgress.NeverStuck | packages/connector/src/client.ts:300-500 | if disconnect hooks never throw, a started client always has a socket, a suspended connect, a planned reconnection or an awaited hook |
| ConnectorProgress.StuckStaysStuck | packages/connector/src/client.ts:238-248 | a stuck client ignores everything but a disconnect |
| ConnectorProgress.ThrowingHookStrandsClient | packages/connector/src/client/socket-session.ts:107-129 | a concrete run that gets stuck |
| ConnectorProgress.OneThingExactlyWhileQuiet | packages/connector/src/client.ts:250-500 | from at most one thing under way, none while stopped, a step keeps that exactly when it is not a disconnect during a suspended connect or an awaited hook |
| ConnectorProgress.OneThingThroughoutExactlyWhenQuiet | packages/connector/src/client.ts:250-500 | a run keeps it throughout, and never replaces a socket, exactly when it has no such disconnect |
| ConnectorProgress.ExactlyOneThing | packages/connector/src/client.ts:300-500 | with both conditions a started client has exactly one thing under way |
| ConnectorProgress.OverlappingConnectsReplaceASocket | packages/connector/src/client.ts:300-337 | a concrete run in which two connects overlap and the first socket is forgotten unclosed |
| ConnectorProgress.LateAuthHookPlansASecondConnection | packages/connector/src/client.ts:466-500 | a concrete run in which a late auth hook plans a reconnection although a socket is current |
| Signing.CanonicalTextIdentifiesRequest | packages/protocol/src/http-signing.ts:11-20 | a newline-free request has the same canonical text as another, arbitrary one exactly when they differ at most in the case of the method |
| Signing.TextReadsBack | packages/protocol/src/http-signing.ts:1-20 | splitting the text of a newline-free request at its newlines gives CLAW-PROOF-V1, method, path, timestamp, nonce and body hash, in this order |
| Signing.UnambiguousExactlyWhenNewlineFree | packages/protocol/src/http-signing.ts:11-20 | given a newline-free method, no other request shares the canonical text exactly when the other four fields are newline-free |
| RegistrationProof.DecimalIsInjective | packages/protocol/src/agent-registration-proof.ts:23-29 | different numbers print differently, never empty and never with a newline |
| RegistrationProof.ProofTextIdentifiesRegistration | packages/protocol/src/agent-registration-proof.ts:31-44 | a registration that hides no line has the same proof text as another, arbitrary one exactly when all fields agree, an absent framework counting as empty |
| RegistrationProof.HiddenLineCollides | packages/protocol/src/agent-registration-proof.ts:31-44 | every registration that hides a line shares its text with a different one |
| RegistrationProof.UnambiguousExactlyWithoutHiddenLines | packages/protocol/src/agent-registration-proof.ts:31-44 | no different registration shares the text exactly when no field from nonce to framework holds a newline and its own label, and none from challenge id to name a newline and the next label |
| RegistrationProof.NewlineFreeHidesNothing | packages/protocol/src/agent-registration-proof.ts:31-44 | fields without newlines hide no line |
| RegistrationProof.ProofTextReadsBack | packages/protocol/src/agent-registration-proof.ts:31-44 | splitting the text of a newline-free registration gives the version and the seven labelled fields, in this order |
| LabelledText.CollisionHidesLabel | packages/protocol/src/agent-registration-proof.ts:31-44 | for any list of labels, two choices of fields with one text show a hidden label |
| LabelledText.HiddenLabelCollides | packages/protocol/src/agent-registration-proof.ts:31-44 | and any hidden label gives another choice of fields with that text |

## Left out

- HTTP routes, middleware wiring, the CLI, the Durable Object and registry clients, logging, metrics and health payloads:
  input and output around the modelled parts. HTTP statuses and messages are functions of the modelled error codes.
- Ed25519, base64url, JSON, schemas, ULID generation and URL parsing: parameters, or already-parsed inputs.
- `apps/proxy/src/public-rate-limit-middleware.ts`: the agent limiter with another key.
- Outbound queue, heartbeat bookkeeping, message routing and the jittered reconnect delay of the connector: none of them
  changes the socket's state except through the events modelled. Replaced sockets are noted but nothing claims that at
  most one socket is live.
- Hooks of the connector that call back into the client before they return: a hook returns or throws, nothing else.
- Strings are sequences of characters, not of UTF-16 code units: lone surrogates, and sorting beyond the basic plane, are
  not captured.
- Integers are unbounded: `2 ** exponent` never overflows to infinity, which the cap by `retryMaxMs` hides in the source.
- Iteration order of maps, except where the registry limiter evicts, and the order in which storage lists dead letters are
  left open; results hold for any order.
- One clock reading serves a whole replay or failure record where the source reads the clock per item.
- Event details, storage row codecs, SQLite recovery and rollback: inserts are proved never to meet a used primary key.
- Atomicity of `alarm` in the nonce guard rests on the Durable Object's input gates; its awaits are not split.
- `RegistrationProof.ProofTextIdentifiesRegistration`: `ttlDays` is an integer, as registration parsing enforces; non-integer and
  exponent-form numbers are not printed by the model.
- Floating point: exact reals stand for it in `RetryPolicy`, so rounding of the jitter span and the sample is not captured.
- `RefreshFlight` assumes that only its flights write the credential store, that a refreshed token is new, and that
  different keys have different store entries.
- A malformed stored nonce is known only by which times its expiry compares as later than; none occurs in a run that starts
  empty (`NonceRuns.RecordsComeFromAcceptance`).
- Which deliveries `processQueueDeliveries` attempts, and when it stops: `RelayQueueRuns` allows its changes to the queue in
  any order.
- The relay session's handlers await a delivery between loading and saving the queue, so a stale copy can overwrite what
  another handler saved in between, a delivery just enqueued included. `RelayQueueRuns` treats each change as atomic.
- `RelayQueue.NormalizeReceipts`: a map stands for the plain object that holds the receipts, so a request id that names an
  inherited property, such as `__proto__`, is stored here although the object would not keep it as an entry of its own.
