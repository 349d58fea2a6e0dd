/** Where the recorded pairs come from when confirmations overlap. */
module TrustProvenance {
  import opened Outcomes
  import opened TrustModel
  import opened TrustRuns
  import opened TrustInterleaving
  import opened TrustSingleUse

  /** Move `k` performs the writes of confirmation `c`. */
  ghost predicate Writes(ext: Externals, moves: seq<Move>, k: nat, c: Confirmation) {
    && k < |moves|
    && match moves[k]
       case Commit(id, _) =>
         var o := Play(ext, moves[..k]);
         id in o.resuming && o.resuming[id] == c
       case Whole(Event(now, CallConfirm(input, _))) =>
         ConfirmLookup(ext, true, Play(ext, moves[..k]).store, input, now).1 == Ok(c) && Objection(ext, c) == None
       case _ => false
  }

  /** What the confirmation of move `k` was asked, and the time it read, when it began. */
  ghost predicate AskedAtStart(moves: seq<Move>, k: nat, c: Confirmation)
    requires k < |moves|
  {
    && StartOf(moves, k) <= k
    && match moves[StartOf(moves, k)]
       case Begin(input, now) => c.responder == input.responder && c.now == now
       case Whole(Event(now, CallConfirm(input, _))) => c.responder == input.responder && c.now == now
       case _ => false
  }

  /**
   * Creation `j` licenses confirmation `c` of move `k`: it is the one read at the beginning, unconfirmed at that time,
   * and every condition it puts on its use was met then.
   */
  ghost predicate LicensesIn(ext: Externals, moves: seq<Move>, j: nat, k: nat, c: Confirmation) {
    && Writes(ext, moves, k, c) && AskedAtStart(moves, k, c)
    && ReadsCreation(ext, moves, k, c.payload.kid, j)
    && NotConfirmedBetween(ext, moves, j, StartOf(moves, k), c.payload.kid)
    && c.stored == CreatedEntry(ext, moves[j].event.call.create).value.1
    && ext.verify(c.payload, c.stored.publicKeyX)
    && c.stored.expiresAtMs > c.now && c.payload.exp * 1000 > c.now
    && c.payload.iss == c.stored.issuer
    && (c.stored.allowResponder.Some? ==> c.stored.allowResponder.value == c.responder)
  }

  /** Confirmations wait for their writes only after every check has passed. */
  lemma {:induction false} ResumingPassedChecks(ext: Externals, moves: seq<Move>, n: nat, b: nat)
    requires n <= |moves| && b in Play(ext, moves[..n]).resuming
    ensures Objection(ext, Play(ext, moves[..n]).resuming[b]) == None
    decreases n
  {
    assert moves[..0] == [];
    if n > 0 {
      PlayTo(ext, moves, n - 1);
      var o := Play(ext, moves[..n - 1]);
      if b in o.resuming {
        ResumingPassedChecks(ext, moves, n - 1, b);
      }
      MovePassesChecks(ext, o, moves[n - 1], b);
    }
  }

  lemma {:induction false} MovePassesChecks(ext: Externals, o: Open, move: Move, b: nat)
    requires b in o.resuming ==> Objection(ext, o.resuming[b]) == None
    ensures var p := Next(ext, o, move); b in p.resuming ==> Objection(ext, p.resuming[b]) == None
  {
  }

  /** The store in which a written confirmation began held the ticket that it read. */
  lemma {:induction false} WrittenWasBegun(ext: Externals, moves: seq<Move>, k: nat, c: Confirmation)
    requires Writes(ext, moves, k, c)
    ensures AskedAtStart(moves, k, c) && Objection(ext, c) == None
    ensures var s := Play(ext, moves[..StartOf(moves, k)]).store;
            c.payload.kid in s.pending && c.stored == s.pending[c.payload.kid]
  {
    if moves[k].Commit? {
      var b := moves[k].id;
      PausedAlwaysBegun(ext, moves, k);
      ResumingPassedChecks(ext, moves, k, b);
      LookupOnlyForgets(ext, true, Play(ext, moves[..b]).store, moves[b].input, moves[b].now);
    } else {
      LookupOnlyForgets(ext, true, Play(ext, moves[..k]).store, moves[k].event.call.confirm, moves[k].event.now);
    }
  }

  /** However confirmations overlap, every one that writes was licensed by a creation when it began. */
  lemma {:induction false} WrittenIsLicensed(ext: Externals, moves: seq<Move>, k: nat, c: Confirmation) returns (j: nat)
    requires Writes(ext, moves, k, c)
    ensures LicensesIn(ext, moves, j, k, c)
  {
    WrittenWasBegun(ext, moves, k, c);
    j := PendingComesFromCreation(ext, moves, StartOf(moves, k), c.payload.kid);
  }

  ghost predicate IsPair(x: string, y: string, a: string, b: string) {
    (x == a && y == b) || (x == b && y == a)
  }

  /** Move `i` recorded the pair {a, b}, outright or by a confirmation that was licensed when it began. */
  ghost predicate IntroducesIn(ext: Externals, moves: seq<Move>, i: nat, a: string, b: string) {
    || (i < |moves| && moves[i].Whole? && moves[i].event.call.CallUpsert?
        && IsPair(moves[i].event.call.initiator, moves[i].event.call.responder, a, b))
    || (exists j: nat, c :: LicensesIn(ext, moves, j, i, c) && IsPair(c.stored.initiator, c.responder, a, b))
  }

  /** The confirmation behind a confirm call's answer. */
  lemma {:induction false} ConfirmedCallWrites(ext: Externals, moves: seq<Move>, k: nat) returns (c: Confirmation)
    requires k < |moves| && moves[k].Whole? && moves[k].event.call.CallConfirm?
    requires Step(ext, true, Play(ext, moves[..k]).store, moves[k].event).1.PairConfirmed?
    ensures Writes(ext, moves, k, c)
    ensures RecordedPair(moves[k].event, Step(ext, true, Play(ext, moves[..k]).store, moves[k].event).1)
            == Some((c.stored.initiator, c.responder))
  {
    var s, e := Play(ext, moves[..k]).store, moves[k].event;
    ConfirmWrites(ext, true, s, e.call.confirm, e.now, e.call.clock);
    c := ConfirmLookup(ext, true, s, e.call.confirm, e.now).1.value;
  }

  lemma {:induction false} LinkAfterWhole(ext: Externals, moves: seq<Move>, n: nat, a: string, b: string)
    requires n < |moves| && moves[n].Whole?
    requires var s := Play(ext, moves[..n]).store;
             Linked(Step(ext, true, s, moves[n].event).0, a, b) && !Linked(s, a, b)
    ensures IntroducesIn(ext, moves, n, a, b)
  {
    var s, e := Play(ext, moves[..n]).store, moves[n].event;
    StepRecordsPair(ext, true, s, e);
    var recorded := RecordedPair(e, Step(ext, true, s, e).1);
    if recorded.Some? {
      AddPairLinks(s, recorded.value.0, recorded.value.1, a, b);
      assert Linked(AddPair(s, recorded.value.0, recorded.value.1), a, b);
      if !e.call.CallUpsert? {
        if !e.call.CallConfirm? {
          RecordsNothing(ext, true, s, e);
        }
        var c := ConfirmedCallWrites(ext, moves, n);
        var j := WrittenIsLicensed(ext, moves, n, c);
        assert LicensesIn(ext, moves, j, n, c) && IsPair(c.stored.initiator, c.responder, a, b);
      }
    }
  }

  lemma {:induction false} LinkAfterCommit(ext: Externals, moves: seq<Move>, n: nat, a: string, b: string)
    requires n < |moves| && moves[n].Commit?
    requires var o := Play(ext, moves[..n]); Linked(Next(ext, o, moves[n]).store, a, b) && !Linked(o.store, a, b)
    ensures IntroducesIn(ext, moves, n, a, b)
  {
    var o, id := Play(ext, moves[..n]), moves[n].id;
    CommittedStore(ext, o, id, moves[n].clock);
    var c := o.resuming[id];
    AddPairLinks(o.store, c.stored.initiator, c.responder, a, b);
    assert Linked(AddPair(o.store, c.stored.initiator, c.responder), a, b);
    var j := WrittenIsLicensed(ext, moves, n, c);
    assert LicensesIn(ext, moves, j, n, c) && IsPair(c.stored.initiator, c.responder, a, b);
  }

  /** A link present after a move was present before it or was introduced by it. */
  lemma {:induction false} LinkAfterMove(ext: Externals, moves: seq<Move>, n: nat, a: string, b: string)
    requires n < |moves| && Linked(Play(ext, moves[..n + 1]).store, a, b)
    ensures Linked(Play(ext, moves[..n]).store, a, b) || IntroducesIn(ext, moves, n, a, b)
  {
    PlayTo(ext, moves, n);
    var o := Play(ext, moves[..n]);
    if !Linked(o.store, a, b) {
      match moves[n]
      case Whole(event) => LinkAfterWhole(ext, moves, n, a, b);
      case Commit(_, _) => LinkAfterCommit(ext, moves, n, a, b);
      case _ => BeginOnlyForgets(ext, o, moves[n]);
    }
  }

  /** However confirmations overlap, every recorded pair comes from an upsert or a confirmation licensed when it began. */
  lemma {:induction false} EveryPlayedLinkIsIntroduced(ext: Externals, moves: seq<Move>, n: nat, a: string, b: string)
    returns (i: nat)
    requires n <= |moves| && b in PeersOf(Play(ext, moves[..n]).store.peers, a)
    ensures i < n && IntroducesIn(ext, moves, i, a, b)
    decreases n
  {
    assert moves[..0] == [];
    assert n > 0;
    i := n - 1;
    LinkAfterMove(ext, moves, i, a, b);
    if !IntroducesIn(ext, moves, i, a, b) {
      i := EveryPlayedLinkIsIntroduced(ext, moves, n - 1, a, b);
    }
  }
}
