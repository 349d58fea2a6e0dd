/** What holds after every run of trust-store calls executed one at a time. */
module TrustRuns {
  import opened Outcomes
  import opened Text
  import opened TrustModel
  import Did
  import TicketText
  import TrustKeys

  // ---------------------------------------------------------------- what one call can change

  /** The pair a call records, if any. */
  function RecordedPair(e: Event, answer: Answer): Option<(string, string)> {
    if e.call.CallUpsert? then Some((e.call.initiator, e.call.responder))
    else if answer.PairConfirmed? then Some((answer.initiator, answer.responder))
    else None
  }

  /** The ticket id a call asks to create, when the request is acceptable. */
  function CreatedKid(ext: Externals, e: Event): Option<string> {
    if e.call.CallCreate? && CreatedEntry(ext, e.call.create).Ok?
    then Some(CreatedEntry(ext, e.call.create).value.0.kid)
    else None
  }

  /** The ticket id a successful confirm call used up. */
  function ConfirmedKid(ext: Externals, e: Event, answer: Answer): Option<string> {
    if e.call.CallConfirm? && answer.PairConfirmed? then
      match ext.parse(TicketText.Normalize(e.call.confirm.ticket))
      case Ok(payload) => Some(payload.kid)
      case Err(_) => None
    else None
  }

  ghost predicate SubMap<V>(m: map<string, V>, n: map<string, V>) {
    forall key :: key in m ==> key in n && m[key] == n[key]
  }

  /** `t` has the pairs of `s` and none but tickets of `s`. */
  ghost predicate OnlyForgets(s: Store, t: Store) {
    && t.pairKeys == s.pairKeys && t.peers == s.peers
    && SubMap(t.pending, s.pending) && SubMap(t.confirmed, s.confirmed)
  }

  lemma CleanupOnlyForgets(sweeps: bool, s: Store, now: int, skip: Option<string>)
    ensures OnlyForgets(s, MaybeCleanup(sweeps, s, now, skip))
  {
  }

  lemma LookupOnlyForgets(ext: Externals, sweeps: bool, s: Store, input: ConfirmInput, now: int)
    ensures var (looked, found) := ConfirmLookup(ext, sweeps, s, input, now);
            && OnlyForgets(s, looked)
            && (found.Ok? ==> ext.parse(TicketText.Normalize(input.ticket)) == Ok(found.value.payload)
                              && found.value.payload.kid in s.pending
                              && found.value.stored == s.pending[found.value.payload.kid]
                              && found.value.responder == input.responder && found.value.now == now)
  {
    var parsed := ext.parse(TicketText.Normalize(input.ticket));
    if parsed.Ok? {
      CleanupOnlyForgets(sweeps, s, now, Some(parsed.value.kid));
    }
  }

  /** A refused confirmation only forgets; a successful one writes on top of a store that only forgot. */
  lemma ConfirmWrites(ext: Externals, sweeps: bool, s: Store, input: ConfirmInput, now: int, clock: int)
    ensures var (t, answer) := ConfirmTicket(ext, sweeps, s, input, now, clock);
            var (looked, found) := ConfirmLookup(ext, sweeps, s, input, now);
            && OnlyForgets(s, looked)
            && (answer.Refused? || answer.PairConfirmed?)
            && (answer.Refused? ==> OnlyForgets(s, t))
            && (answer.PairConfirmed? ==>
                  && found.Ok? && Objection(ext, found.value) == None
                  && t == ConfirmCommit(looked, found.value, clock) && answer == ConfirmationAnswer(found.value))
  {
    LookupOnlyForgets(ext, sweeps, s, input, now);
  }

  lemma StatusOnlyForgets(ext: Externals, sweeps: bool, s: Store, ticket: string, now: int)
    ensures var (t, answer) := TicketStatus(ext, sweeps, s, ticket, now);
            OnlyForgets(s, t) && !answer.PairConfirmed?
  {
    var parsed := ext.parse(TicketText.Normalize(ticket));
    if parsed.Ok? {
      CleanupOnlyForgets(sweeps, s, now, Some(parsed.value.kid));
    }
  }

  /** Every call other than creating, confirming or upserting only forgets. */
  lemma OtherCallsOnlyForget(ext: Externals, sweeps: bool, s: Store, e: Event)
    requires !e.call.CallCreate? && !e.call.CallConfirm? && !e.call.CallUpsert?
    ensures OnlyForgets(s, Step(ext, sweeps, s, e).0) && !Step(ext, sweeps, s, e).1.PairConfirmed?
  {
    CleanupOnlyForgets(sweeps, s, e.now, None);
    if e.call.CallStatus? {
      StatusOnlyForgets(ext, sweeps, s, e.call.ticket, e.now);
    }
  }

  lemma CreateWrites(ext: Externals, sweeps: bool, s: Store, input: CreateInput, now: int)
    ensures var (t, answer) := CreateTicket(ext, sweeps, s, input, now);
            var swept := MaybeCleanup(sweeps, s, now, None);
            && OnlyForgets(s, swept) && !answer.PairConfirmed?
            && match CreatedEntry(ext, input)
               case Err(_) => t == swept
               case Ok((payload, entry)) =>
                 t == swept.(pending := swept.pending[payload.kid := entry],
                             confirmed := swept.confirmed - {payload.kid})
  {
  }

  /** A call changes the pairs by adding the pair it records, and in no other way. */
  lemma {:induction false} StepRecordsPair(ext: Externals, sweeps: bool, s: Store, e: Event)
    ensures var (next, answer) := Step(ext, sweeps, s, e);
            var expected := match RecordedPair(e, answer) case None => s case Some((a, b)) => AddPair(s, a, b);
            next.pairKeys == expected.pairKeys && next.peers == expected.peers
  {
    match e.call
    case CallCreate(input) => CreateWrites(ext, sweeps, s, input, e.now);
    case CallConfirm(input, clock) => ConfirmWrites(ext, sweeps, s, input, e.now, clock);
    case CallUpsert(_, _) =>
    case _ => OtherCallsOnlyForget(ext, sweeps, s, e);
  }

  /** Only a create call can add or replace a pending ticket, and a confirmation removes its own. */
  lemma {:induction false} StepPending(ext: Externals, sweeps: bool, s: Store, e: Event, kid: string)
    requires kid in Step(ext, sweeps, s, e).0.pending && CreatedKid(ext, e) != Some(kid)
    ensures kid in s.pending && Step(ext, sweeps, s, e).0.pending[kid] == s.pending[kid]
    ensures ConfirmedKid(ext, e, Step(ext, sweeps, s, e).1) != Some(kid)
  {
    match e.call
    case CallCreate(input) => CreateWrites(ext, sweeps, s, input, e.now);
    case CallConfirm(input, clock) =>
      ConfirmWrites(ext, sweeps, s, input, e.now, clock);
      LookupOnlyForgets(ext, sweeps, s, input, e.now);
    case CallUpsert(_, _) =>
    case _ => OtherCallsOnlyForget(ext, sweeps, s, e);
  }

  // ---------------------------------------------------------------- pending and confirmed ids are disjoint

  ghost predicate TicketsDisjoint(s: Store) {
    forall kid :: kid in s.pending ==> kid !in s.confirmed
  }

  lemma {:induction false} StepKeepsTicketsDisjoint(ext: Externals, sweeps: bool, s: Store, e: Event)
    requires TicketsDisjoint(s)
    ensures TicketsDisjoint(Step(ext, sweeps, s, e).0)
  {
    match e.call
    case CallCreate(input) => CreateWrites(ext, sweeps, s, input, e.now);
    case CallConfirm(input, clock) => ConfirmWrites(ext, sweeps, s, input, e.now, clock);
    case CallUpsert(_, _) =>
    case _ => OtherCallsOnlyForget(ext, sweeps, s, e);
  }

  lemma {:induction false} TicketsAlwaysDisjoint(ext: Externals, sweeps: bool, events: seq<Event>)
    ensures TicketsDisjoint(Run(ext, sweeps, events))
  {
    if events != [] {
      var n := |events| - 1;
      TicketsAlwaysDisjoint(ext, sweeps, events[..n]);
      StepKeepsTicketsDisjoint(ext, sweeps, Run(ext, sweeps, events[..n]), events[n]);
    }
  }

  // ---------------------------------------------------------------- the pair index and the peer graph agree

  ghost predicate Linked(s: Store, a: string, b: string) {
    b in PeersOf(s.peers, a)
  }

  ghost predicate LinksSymmetric(s: Store) {
    forall a, b :: Linked(s, a, b) ==> Linked(s, b, a)
  }

  ghost predicate LinksIndexed(s: Store) {
    forall a, b :: Linked(s, a, b) ==> TrustKeys.ToPairKey(a, b) in s.pairKeys
  }

  ghost predicate KeyWitnessed(s: Store, key: string) {
    exists a, b :: Linked(s, a, b) && key == TrustKeys.ToPairKey(a, b)
  }

  ghost predicate IndexAgrees(s: Store) {
    LinksSymmetric(s) && LinksIndexed(s) && forall key :: key in s.pairKeys ==> KeyWitnessed(s, key)
  }

  lemma AddPairLinks(s: Store, i: string, r: string, a: string, b: string)
    ensures Linked(AddPair(s, i, r), a, b) <==> Linked(s, a, b) || (a == i && b == r) || (a == r && b == i)
  {
  }

  lemma AddPairKeepsIndex(s: Store, i: string, r: string)
    requires IndexAgrees(s)
    ensures IndexAgrees(AddPair(s, i, r))
  {
    AddPairKeepsSymmetry(s, i, r);
    AddPairKeepsIndexed(s, i, r);
    forall key | key in AddPair(s, i, r).pairKeys ensures KeyWitnessed(AddPair(s, i, r), key) {
      AddPairKeepsWitness(s, i, r, key);
    }
  }

  lemma AddPairKeepsSymmetry(s: Store, i: string, r: string)
    requires LinksSymmetric(s)
    ensures LinksSymmetric(AddPair(s, i, r))
  {
    var t := AddPair(s, i, r);
    forall a, b | Linked(t, a, b) ensures Linked(t, b, a) {
      AddPairLinks(s, i, r, a, b);
      AddPairLinks(s, i, r, b, a);
    }
  }

  lemma AddPairKeepsIndexed(s: Store, i: string, r: string)
    requires LinksIndexed(s)
    ensures LinksIndexed(AddPair(s, i, r))
  {
    var t := AddPair(s, i, r);
    TrustKeys.PairKeyIsSymmetric(i, r);
    forall a, b | Linked(t, a, b) ensures TrustKeys.ToPairKey(a, b) in t.pairKeys {
      AddPairLinks(s, i, r, a, b);
    }
  }

  lemma AddPairKeepsWitness(s: Store, i: string, r: string, key: string)
    requires key in AddPair(s, i, r).pairKeys && (key in s.pairKeys ==> KeyWitnessed(s, key))
    ensures KeyWitnessed(AddPair(s, i, r), key)
  {
    if key in s.pairKeys {
      var a, b :| Linked(s, a, b) && key == TrustKeys.ToPairKey(a, b);
      AddPairLinks(s, i, r, a, b);
      assert Linked(AddPair(s, i, r), a, b);
    } else {
      AddPairLinks(s, i, r, i, r);
      assert Linked(AddPair(s, i, r), i, r);
    }
  }

  lemma StepKeepsIndex(ext: Externals, sweeps: bool, s: Store, e: Event)
    requires IndexAgrees(s)
    ensures IndexAgrees(Step(ext, sweeps, s, e).0)
  {
    StepRecordsPair(ext, sweeps, s, e);
    var recorded := RecordedPair(e, Step(ext, sweeps, s, e).1);
    if recorded.Some? {
      AddPairKeepsIndex(s, recorded.value.0, recorded.value.1);
      IndexDependsOnPairsOnly(AddPair(s, recorded.value.0, recorded.value.1), Step(ext, sweeps, s, e).0);
    } else {
      IndexDependsOnPairsOnly(s, Step(ext, sweeps, s, e).0);
    }
  }

  lemma {:induction false} IndexAlwaysAgrees(ext: Externals, sweeps: bool, events: seq<Event>)
    ensures IndexAgrees(Run(ext, sweeps, events))
  {
    if events != [] {
      var n := |events| - 1;
      IndexAlwaysAgrees(ext, sweeps, events[..n]);
      StepKeepsIndex(ext, sweeps, Run(ext, sweeps, events[..n]), events[n]);
    }
  }

  lemma IndexDependsOnPairsOnly(s: Store, t: Store)
    requires IndexAgrees(s) && s.pairKeys == t.pairKeys && s.peers == t.peers
    ensures IndexAgrees(t)
  {
    forall a, b ensures Linked(s, a, b) <==> Linked(t, a, b) {
    }
    forall key | key in t.pairKeys ensures KeyWitnessed(t, key) {
      assert KeyWitnessed(s, key);
      var a, b :| Linked(s, a, b) && key == TrustKeys.ToPairKey(a, b);
      assert Linked(t, a, b);
    }
  }

  /**
   * After any run, even one that recorded malformed names, a pair whose key has no other bar, as when its names are
   * free of '|', is allowed exactly when the names are equal or are recorded as peers of each other.
   */
  lemma AllowedExactlyForPeers(ext: Externals, sweeps: bool, events: seq<Event>, a: string, b: string)
    requires !TrustKeys.HasOtherBar(a, b)
    ensures var s := Run(ext, sweeps, events);
            && (IsPairAllowed(s, a, b) <==> a == b || b in PeersOf(s.peers, a))
            && (b in PeersOf(s.peers, a) <==> a in PeersOf(s.peers, b))
  {
    IndexAlwaysAgrees(ext, sweeps, events);
    var s := Run(ext, sweeps, events);
    IndexedExactlyIfLinked(s, a, b);
    assert Linked(s, a, b) <==> Linked(s, b, a);
  }

  lemma IndexedExactlyIfLinked(s: Store, a: string, b: string)
    requires IndexAgrees(s) && !TrustKeys.HasOtherBar(a, b)
    ensures TrustKeys.ToPairKey(a, b) in s.pairKeys <==> Linked(s, a, b)
  {
    if TrustKeys.ToPairKey(a, b) in s.pairKeys {
      var c, d := KeyWitness(s, TrustKeys.ToPairKey(a, b));
      TrustKeys.SoleBarSolePair(a, b, c, d);
    }
  }

  lemma KeyWitness(s: Store, key: string) returns (c: string, d: string)
    requires IndexAgrees(s) && key in s.pairKeys
    ensures Linked(s, c, d) && Linked(s, d, c) && key == TrustKeys.ToPairKey(c, d)
  {
    assert KeyWitnessed(s, key);
    c, d :| Linked(s, c, d) && key == TrustKeys.ToPairKey(c, d);
  }

  /** After every run the pair is allowed exactly when its names are equal or peers. */
  ghost predicate IndexIsExactFor(ext: Externals, sweeps: bool, a: string, b: string) {
    forall events: seq<Event> ::
      var s := Run(ext, sweeps, events); IsPairAllowed(s, a, b) <==> a == b || b in PeersOf(s.peers, a)
  }

  /** Recording the other pair of a shared key allows a pair that nobody recorded. */
  lemma OtherBarAllowsStrangers(ext: Externals, sweeps: bool, a: string, b: string) returns (events: seq<Event>)
    requires TrustKeys.HasOtherBar(a, b)
    ensures var s := Run(ext, sweeps, events); IsPairAllowed(s, a, b) && b !in PeersOf(s.peers, a)
  {
    var c, d := TrustKeys.OtherBarMakesPair(a, b);
    events := [Event(0, CallUpsert(c, d))];
    assert events[..0] == [];
    assert Run(ext, sweeps, events) == AddPair(EMPTY, c, d);
    AddPairLinks(EMPTY, c, d, a, b);
    assert !Linked(EMPTY, a, b) && !Linked(AddPair(EMPTY, c, d), a, b);
  }

  /** For two different names the index is exact in every run exactly when their key has no other bar. */
  lemma IndexIsExactWithoutOtherBar(ext: Externals, sweeps: bool, a: string, b: string)
    requires a != b
    ensures IndexIsExactFor(ext, sweeps, a, b) <==> !TrustKeys.HasOtherBar(a, b)
  {
    if TrustKeys.HasOtherBar(a, b) {
      var events := OtherBarAllowsStrangers(ext, sweeps, a, b);
    } else {
      forall events: seq<Event>
        ensures var s := Run(ext, sweeps, events); IsPairAllowed(s, a, b) <==> a == b || b in PeersOf(s.peers, a)
      {
        AllowedExactlyForPeers(ext, sweeps, events, a, b);
      }
    }
  }

  /** The names a call hands to the store. */
  ghost predicate NamesAreAgents(ext: Externals, e: Event) {
    match e.call
    case CallCreate(input) => Did.IsAgentDid(ext.decodes, input.initiator)
    case CallConfirm(input, _) => Did.IsAgentDid(ext.decodes, input.responder)
    case CallUpsert(a, b) => Did.IsAgentDid(ext.decodes, a) && Did.IsAgentDid(ext.decodes, b)
    case _ => true
  }

  ghost predicate OnlyAgentsStored(ext: Externals, s: Store) {
    && (forall kid :: kid in s.pending ==> Did.IsAgentDid(ext.decodes, s.pending[kid].initiator))
    && (forall a, b :: Linked(s, a, b) ==> Did.IsAgentDid(ext.decodes, a) && Did.IsAgentDid(ext.decodes, b))
  }

  lemma RecordsNothing(ext: Externals, sweeps: bool, s: Store, e: Event)
    requires !e.call.CallConfirm? && !e.call.CallUpsert?
    ensures RecordedPair(e, Step(ext, sweeps, s, e).1) == None
  {
  }

  lemma {:induction false} StepStoresOnlyAgents(ext: Externals, sweeps: bool, s: Store, e: Event)
    requires OnlyAgentsStored(ext, s) && NamesAreAgents(ext, e)
    ensures OnlyAgentsStored(ext, Step(ext, sweeps, s, e).0)
  {
    var t, answer := Step(ext, sweeps, s, e).0, Step(ext, sweeps, s, e).1;
    forall kid | kid in t.pending ensures Did.IsAgentDid(ext.decodes, t.pending[kid].initiator) {
      if CreatedKid(ext, e) != Some(kid) {
        StepPending(ext, sweeps, s, e, kid);
      } else {
        CreateWrites(ext, sweeps, s, e.call.create, e.now);
      }
    }
    StepRecordsPair(ext, sweeps, s, e);
    var recorded := RecordedPair(e, answer);
    if e.call.CallConfirm? {
      ConfirmWrites(ext, sweeps, s, e.call.confirm, e.now, e.call.clock);
      LookupOnlyForgets(ext, sweeps, s, e.call.confirm, e.now);
    } else if !e.call.CallUpsert? {
      RecordsNothing(ext, sweeps, s, e);
    }
    forall a, b | Linked(t, a, b) ensures Did.IsAgentDid(ext.decodes, a) && Did.IsAgentDid(ext.decodes, b) {
      if recorded.Some? {
        AddPairLinks(s, recorded.value.0, recorded.value.1, a, b);
        assert Linked(AddPair(s, recorded.value.0, recorded.value.1), a, b);
      } else {
        assert Linked(s, a, b);
      }
    }
  }

  lemma {:induction false} RunStoresOnlyAgents(ext: Externals, sweeps: bool, events: seq<Event>)
    requires forall i :: 0 <= i < |events| ==> NamesAreAgents(ext, events[i])
    ensures OnlyAgentsStored(ext, Run(ext, sweeps, events))
  {
    if events != [] {
      var n := |events| - 1;
      RunStoresOnlyAgents(ext, sweeps, events[..n]);
      StepStoresOnlyAgents(ext, sweeps, Run(ext, sweeps, events[..n]), events[n]);
    }
  }

  lemma {:induction false} AgentKeyIsLinked(ext: Externals, s: Store, a: string, c: string)
    requires IndexAgrees(s) && OnlyAgentsStored(ext, s) && TrustKeys.ToPairKey(a, c) in s.pairKeys
    ensures Linked(s, a, c)
  {
    var key := TrustKeys.ToPairKey(a, c);
    assert KeyWitnessed(s, key);
    var x, y :| Linked(s, x, y) && key == TrustKeys.ToPairKey(x, y);
    Did.AgentDidIsBarFree(ext.decodes, x);
    Did.AgentDidIsBarFree(ext.decodes, y);
    TrustKeys.PairKeyIsInjective(x, y, a, c);
  }

  /**
   * When every recorded name is an agent identifier, the index and the graph agree on all strings whatsoever, and
   * an agent is known exactly when some recorded pair mentions it.
   */
  lemma {:induction false} AgentsAgreeOnAllNames(ext: Externals, sweeps: bool, events: seq<Event>, a: string, b: string)
    requires forall i :: 0 <= i < |events| ==> NamesAreAgents(ext, events[i])
    ensures var s := Run(ext, sweeps, events);
            && (IsPairAllowed(s, a, b) <==> a == b || b in PeersOf(s.peers, a))
            && (IsAgentKnown(s, a) <==> exists c :: TrustKeys.ToPairKey(a, c) in s.pairKeys)
  {
    var s := Run(ext, sweeps, events);
    IndexAlwaysAgrees(ext, sweeps, events);
    RunStoresOnlyAgents(ext, sweeps, events);
    AgentsAgreeInStore(ext, s, a, b);
  }

  lemma {:induction false} AgentsAgreeInStore(ext: Externals, s: Store, a: string, b: string)
    requires IndexAgrees(s) && OnlyAgentsStored(ext, s)
    ensures IsPairAllowed(s, a, b) <==> a == b || b in PeersOf(s.peers, a)
    ensures IsAgentKnown(s, a) <==> exists c :: TrustKeys.ToPairKey(a, c) in s.pairKeys
  {
    forall c | TrustKeys.ToPairKey(a, c) in s.pairKeys ensures Linked(s, a, c) {
      AgentKeyIsLinked(ext, s, a, c);
    }
    assert Linked(s, a, b) ==> TrustKeys.ToPairKey(a, b) in s.pairKeys;
    if IsAgentKnown(s, a) {
      var c :| c in PeersOf(s.peers, a);
      assert Linked(s, a, c);
    }
  }

  /** With names that contain '|', the store reports a pair as allowed that nobody recorded. */
  lemma MalformedNamesConfuseTheIndex(ext: Externals, sweeps: bool)
    ensures var s := Run(ext, sweeps, [Event(0, CallUpsert("a|b", "c"))]);
            IsPairAllowed(s, "a", "b|c") && "b|c" !in PeersOf(s.peers, "a") && !IsAgentKnown(s, "a")
  {
    var events := [Event(0, CallUpsert("a|b", "c"))];
    assert events[..0] == [];
    assert Run(ext, sweeps, events) == AddPair(EMPTY, "a|b", "c");
    TrustKeys.PairKeyCollidesOnBars();
  }

  // ---------------------------------------------------------------- trust never shrinks

  ghost predicate TrustsNoMore(s: Store, t: Store, a: string) {
    s.pairKeys <= t.pairKeys && PeersOf(s.peers, a) <= PeersOf(t.peers, a)
  }

  lemma CallKeepsTrust(ext: Externals, sweeps: bool, events: seq<Event>, j: nat, a: string)
    requires j < |events|
    ensures TrustsNoMore(Before(ext, sweeps, events, j), Before(ext, sweeps, events, j + 1), a)
  {
    BeforeNext(ext, sweeps, events, j);
    StepRecordsPair(ext, sweeps, Before(ext, sweeps, events, j), events[j]);
  }

  lemma {:induction false} TrustNeverShrinks(ext: Externals, sweeps: bool, events: seq<Event>, i: nat, j: nat, a: string)
    requires i <= j <= |events|
    ensures Before(ext, sweeps, events, i).pairKeys <= Before(ext, sweeps, events, j).pairKeys
    ensures PeersOf(Before(ext, sweeps, events, i).peers, a) <= PeersOf(Before(ext, sweeps, events, j).peers, a)
    decreases j
  {
    if i < j {
      TrustNeverShrinks(ext, sweeps, events, i, j - 1, a);
      CallKeepsTrust(ext, sweeps, events, j - 1, a);
    }
  }

  // ---------------------------------------------------------------- single use

  ghost predicate Creates(ext: Externals, events: seq<Event>, i: nat, kid: string) {
    i < |events| && CreatedKid(ext, events[i]) == Some(kid)
  }

  ghost predicate Confirms(ext: Externals, sweeps: bool, events: seq<Event>, i: nat, kid: string) {
    i < |events| && ConfirmedKid(ext, events[i], AnswerAt(ext, sweeps, events, i)) == Some(kid)
  }

  lemma {:induction false} AbsentUntilCreated(ext: Externals, sweeps: bool, events: seq<Event>, kid: string, i: nat, k: nat)
    requires i <= k <= |events|
    requires kid !in Before(ext, sweeps, events, i).pending
    requires forall j :: i <= j < k ==> !Creates(ext, events, j, kid)
    ensures kid !in Before(ext, sweeps, events, k).pending
    decreases k
  {
    if i < k {
      AbsentUntilCreated(ext, sweeps, events, kid, i, k - 1);
      BeforeNext(ext, sweeps, events, k - 1);
      assert !Creates(ext, events, k - 1, kid);
      if kid in Before(ext, sweeps, events, k).pending {
        StepPending(ext, sweeps, Before(ext, sweeps, events, k - 1), events[k - 1], kid);
      }
    }
  }

  lemma ConfirmationConsumes(ext: Externals, sweeps: bool, events: seq<Event>, kid: string, i: nat)
    requires Confirms(ext, sweeps, events, i, kid)
    ensures kid !in Before(ext, sweeps, events, i + 1).pending
  {
    BeforeNext(ext, sweeps, events, i);
    if kid in Before(ext, sweeps, events, i + 1).pending {
      StepPending(ext, sweeps, Before(ext, sweeps, events, i), events[i], kid);
    }
  }

  lemma ConfirmationFindsPending(ext: Externals, sweeps: bool, events: seq<Event>, kid: string, i: nat)
    requires Confirms(ext, sweeps, events, i, kid)
    ensures kid in Before(ext, sweeps, events, i).pending
  {
  }

  /** Between two confirmations of one ticket id the id is created again. */
  lemma ConfirmedAtMostOncePerCreate(ext: Externals, sweeps: bool, events: seq<Event>, kid: string, i: nat, k: nat)
    requires i < k && Confirms(ext, sweeps, events, i, kid) && Confirms(ext, sweeps, events, k, kid)
    ensures exists j: nat :: i < j < k && Creates(ext, events, j, kid)
  {
    ConfirmationConsumes(ext, sweeps, events, kid, i);
    ConfirmationFindsPending(ext, sweeps, events, kid, k);
    if forall j :: i < j < k ==> !Creates(ext, events, j, kid) {
      AbsentUntilCreated(ext, sweeps, events, kid, i + 1, k);
    }
  }

  // ---------------------------------------------------------------- where trust comes from

  /** Nothing created or confirmed `kid` strictly between calls `j` and `n`. */
  ghost predicate Undisturbed(ext: Externals, sweeps: bool, events: seq<Event>, kid: string, j: nat, n: nat) {
    forall m: nat :: j < m < n ==> !Touches(ext, sweeps, events, m, kid)
  }

  ghost predicate Touches(ext: Externals, sweeps: bool, events: seq<Event>, m: nat, kid: string) {
    Creates(ext, events, m, kid) || Confirms(ext, sweeps, events, m, kid)
  }

  lemma UndisturbedExtends(ext: Externals, sweeps: bool, events: seq<Event>, kid: string, j: nat, n: nat)
    requires Undisturbed(ext, sweeps, events, kid, j, n)
    requires !Touches(ext, sweeps, events, n, kid)
    ensures Undisturbed(ext, sweeps, events, kid, j, n + 1)
  {
  }

  /** A ticket pending after call `n` was created by it, or was pending before and survived it. */
  lemma PendingAfterCall(ext: Externals, sweeps: bool, events: seq<Event>, kid: string, n: nat)
    requires n < |events| && kid in Before(ext, sweeps, events, n + 1).pending
    ensures Creates(ext, events, n, kid) ==>
              CreatedEntry(ext, events[n].call.create).value.1 == Before(ext, sweeps, events, n + 1).pending[kid]
    ensures !Creates(ext, events, n, kid) ==>
              && !Touches(ext, sweeps, events, n, kid)
              && kid in Before(ext, sweeps, events, n).pending
              && Before(ext, sweeps, events, n + 1).pending[kid] == Before(ext, sweeps, events, n).pending[kid]
  {
    BeforeNext(ext, sweeps, events, n);
    var s := Before(ext, sweeps, events, n);
    if Creates(ext, events, n, kid) {
      CreateWrites(ext, sweeps, s, events[n].call.create, events[n].now);
    } else {
      StepPending(ext, sweeps, s, events[n], kid);
    }
  }

  /** Every pending ticket is the one most recently created under its id, and has not been confirmed since. */
  lemma {:induction false} PendingComesFromCreate(ext: Externals, sweeps: bool, events: seq<Event>, kid: string, n: nat)
    returns (j: nat)
    requires n <= |events| && kid in Before(ext, sweeps, events, n).pending
    ensures j < n && Creates(ext, events, j, kid) && Undisturbed(ext, sweeps, events, kid, j, n)
    ensures CreatedEntry(ext, events[j].call.create).value.1 == Before(ext, sweeps, events, n).pending[kid]
    decreases n
  {
    assert n > 0;
    PendingAfterCall(ext, sweeps, events, kid, n - 1);
    if Creates(ext, events, n - 1, kid) {
      j := n - 1;
    } else {
      j := PendingComesFromCreate(ext, sweeps, events, kid, n - 1);
      UndisturbedExtends(ext, sweeps, events, kid, j, n - 1);
    }
  }

  /** Create call `j` licenses confirm call `i`: every condition the ticket puts on its use is met. */
  ghost predicate Licenses(ext: Externals, sweeps: bool, events: seq<Event>, j: nat, i: nat) {
    && j < i < |events|
    && events[j].call.CallCreate? && CreatedEntry(ext, events[j].call.create).Ok?
    && events[i].call.CallConfirm? && ext.parse(TicketText.Normalize(events[i].call.confirm.ticket)).Ok?
    && var (created, entry) := CreatedEntry(ext, events[j].call.create).value;
       var payload := ext.parse(TicketText.Normalize(events[i].call.confirm.ticket)).value;
       && payload.kid == created.kid
       && Undisturbed(ext, sweeps, events, created.kid, j, i)
       && ext.verify(payload, entry.publicKeyX)
       && entry.expiresAtMs > events[i].now && payload.exp * 1000 > events[i].now
       && payload.iss == entry.issuer == created.iss
       && (entry.allowResponder.Some? ==> entry.allowResponder.value == events[i].call.confirm.responder)
  }

  /** Call `i` put the pair {a, b} on record, either outright or by a licensed confirmation. */
  ghost predicate Introduces(ext: Externals, sweeps: bool, events: seq<Event>, i: nat, a: string, b: string) {
    && i < |events|
    && match events[i].call
       case CallUpsert(x, y) => (x == a && y == b) || (x == b && y == a)
       case CallConfirm(input, _) =>
         exists j: nat :: Licenses(ext, sweeps, events, j, i) &&
           var x := events[j].call.create.initiator;
           (x == a && input.responder == b) || (x == b && input.responder == a)
       case _ => false
  }

  lemma ConfirmationIsLicensed(ext: Externals, sweeps: bool, events: seq<Event>, i: nat) returns (j: nat)
    requires i < |events| && events[i].call.CallConfirm? && AnswerAt(ext, sweeps, events, i).PairConfirmed?
    ensures Licenses(ext, sweeps, events, j, i)
    ensures events[j].call.create.initiator == AnswerAt(ext, sweeps, events, i).initiator
    ensures events[i].call.confirm.responder == AnswerAt(ext, sweeps, events, i).responder
  {
    var payload := ext.parse(TicketText.Normalize(events[i].call.confirm.ticket)).value;
    var s := Before(ext, sweeps, events, i);
    assert payload.kid in s.pending;
    j := PendingComesFromCreate(ext, sweeps, events, payload.kid, i);
  }

  /** A link present after call `m` was present before it or was introduced by it. */
  lemma LinkAfterCall(ext: Externals, sweeps: bool, events: seq<Event>, m: nat, a: string, b: string)
    requires m < |events| && Linked(Before(ext, sweeps, events, m + 1), a, b)
    ensures Linked(Before(ext, sweeps, events, m), a, b) || Introduces(ext, sweeps, events, m, a, b)
  {
    var s, e := Before(ext, sweeps, events, m), events[m];
    BeforeNext(ext, sweeps, events, m);
    StepRecordsPair(ext, sweeps, s, e);
    var answer := AnswerAt(ext, sweeps, events, m);
    var recorded := RecordedPair(e, answer);
    if recorded.Some? {
      AddPairLinks(s, recorded.value.0, recorded.value.1, a, b);
      assert Linked(AddPair(s, recorded.value.0, recorded.value.1), a, b);
      if answer.PairConfirmed? {
        if !e.call.CallConfirm? {
          RecordsNothing(ext, sweeps, s, e);
        }
        var j := ConfirmationIsLicensed(ext, sweeps, events, m);
        assert Licenses(ext, sweeps, events, j, m);
      }
    }
  }

  /** Every recorded pair was put on record by a call of the run, and if by a confirmation then by a licensed one. */
  lemma {:induction false} EveryLinkIsIntroduced(
    ext: Externals, sweeps: bool, events: seq<Event>, n: nat, a: string, b: string)
    returns (i: nat)
    requires n <= |events| && b in PeersOf(Before(ext, sweeps, events, n).peers, a)
    ensures i < n && Introduces(ext, sweeps, events, i, a, b)
    decreases n
  {
    assert n > 0;
    i := n - 1;
    LinkAfterCall(ext, sweeps, events, i, a, b);
    if !Introduces(ext, sweeps, events, i, a, b) {
      i := EveryLinkIsIntroduced(ext, sweeps, events, n - 1, a, b);
    }
  }
}
