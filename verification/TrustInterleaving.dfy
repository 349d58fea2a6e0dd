/**
 * Confirm calls that overlap. A confirm call pauses twice: while its ticket's signature is verified, and again
 * before its writes. Other calls and other confirmations may run in between.
 */
module TrustInterleaving {
  import opened Outcomes
  import opened TrustModel
  import opened TrustRuns

  /**
   * `verifying` and `resuming` hold the confirmations paused at the first and at the second pause, each under the number
   * of the move that began it; `played` counts the moves.
   */
  datatype Open = Open(
    store: Store,
    verifying: map<nat, Confirmation>,
    resuming: map<nat, Confirmation>,
    played: nat)

  datatype Move =
    | Whole(event: Event)
    | Begin(input: ConfirmInput, now: int)
    | Check(id: nat)
    | Commit(id: nat, clock: int)

  const IDLE := Open(EMPTY, map[], map[], 0)

  function Next(ext: Externals, o: Open, move: Move): Open {
    Moved(ext, o, move).(played := o.played + 1)
  }

  function Moved(ext: Externals, o: Open, move: Move): Open {
    match move
    case Whole(event) => o.(store := Step(ext, true, o.store, event).0)
    case Begin(input, now) =>
      var (looked, found) := ConfirmLookup(ext, true, o.store, input, now);
      o.(store := looked, verifying := if found.Ok? then o.verifying[o.played := found.value] else o.verifying)
    case Check(id) =>
      if id !in o.verifying then o
      else
        var (checked, objection) := ConfirmCheck(ext, o.store, o.verifying[id]);
        o.(store := checked, verifying := o.verifying - {id},
           resuming := if objection.None? then o.resuming[id := o.verifying[id]] else o.resuming)
    case Commit(id, clock) =>
      if id !in o.resuming then o
      else o.(store := ConfirmCommit(o.store, o.resuming[id], clock), resuming := o.resuming - {id})
  }

  function Play(ext: Externals, moves: seq<Move>): Open {
    if moves == [] then IDLE else Next(ext, Play(ext, moves[..|moves| - 1]), moves[|moves| - 1])
  }

  /** The three parts of a confirmation, run back to back, are the whole call. */
  lemma UninterruptedIsWhole(ext: Externals, o: Open, id: nat, input: ConfirmInput, now: int, clock: int)
    requires o.played == id && id !in o.verifying && id !in o.resuming
    ensures Next(ext, Next(ext, Next(ext, o, Begin(input, now)), Check(id)), Commit(id, clock))
            == o.(store := ConfirmTicket(ext, true, o.store, input, now, clock).0, played := id + 3)
  {
    var (looked, found) := ConfirmLookup(ext, true, o.store, input, now);
    if found.Ok? {
      assert o.verifying[id := found.value] - {id} == o.verifying;
      assert o.resuming[id := found.value] - {id} == o.resuming;
    }
  }

  // ---------------------------------------------------------------- what overlapping keeps

  lemma BeginOnlyForgets(ext: Externals, o: Open, move: Move)
    requires move.Begin? || move.Check?
    ensures OnlyForgets(o.store, Next(ext, o, move).store)
  {
    if move.Begin? {
      LookupOnlyForgets(ext, true, o.store, move.input, move.now);
    }
  }

  lemma CommitKeepsIndex(s: Store, c: Confirmation, clock: int)
    requires IndexAgrees(s)
    ensures IndexAgrees(ConfirmCommit(s, c, clock))
  {
    AddPairKeepsIndex(s, c.stored.initiator, c.responder);
    IndexDependsOnPairsOnly(AddPair(s, c.stored.initiator, c.responder), ConfirmCommit(s, c, clock));
  }

  lemma {:induction false} NextKeepsIndex(ext: Externals, o: Open, move: Move)
    requires IndexAgrees(o.store)
    ensures IndexAgrees(Next(ext, o, move).store)
  {
    match move
    case Whole(event) => WholeKeepsIndex(ext, o, event);
    case Commit(id, clock) => CommitMoveKeepsIndex(ext, o, id, clock);
    case _ => BeginKeepsIndex(ext, o, move);
  }

  lemma {:induction false} WholeKeepsIndex(ext: Externals, o: Open, event: Event)
    requires IndexAgrees(o.store)
    ensures IndexAgrees(Next(ext, o, Whole(event)).store)
  {
    StepKeepsIndex(ext, true, o.store, event);
  }

  lemma {:induction false} CommitMoveKeepsIndex(ext: Externals, o: Open, id: nat, clock: int)
    requires IndexAgrees(o.store)
    ensures IndexAgrees(Next(ext, o, Commit(id, clock)).store)
  {
    CommittedStore(ext, o, id, clock);
    if id in o.resuming {
      CommitKeepsIndex(o.store, o.resuming[id], clock);
    }
  }

  lemma CommittedStore(ext: Externals, o: Open, id: nat, clock: int)
    ensures Next(ext, o, Commit(id, clock)).store
            == if id in o.resuming then ConfirmCommit(o.store, o.resuming[id], clock) else o.store
  {
  }

  lemma {:induction false} BeginKeepsIndex(ext: Externals, o: Open, move: Move)
    requires IndexAgrees(o.store) && (move.Begin? || move.Check?)
    ensures IndexAgrees(Next(ext, o, move).store)
  {
    BeginOnlyForgets(ext, o, move);
    IndexDependsOnPairsOnly(o.store, Next(ext, o, move).store);
  }

  lemma NextKeepsDisjoint(ext: Externals, o: Open, move: Move)
    requires TicketsDisjoint(o.store)
    ensures TicketsDisjoint(Next(ext, o, move).store)
  {
    match move
    case Whole(event) => StepKeepsTicketsDisjoint(ext, true, o.store, event);
    case Commit(id, clock) =>
    case _ => BeginOnlyForgets(ext, o, move);
  }

  /** However confirmations overlap, pending and confirmed ids stay disjoint and the pair index matches the graph. */
  lemma {:induction false} OverlappingKeepsInvariants(ext: Externals, moves: seq<Move>)
    ensures TicketsDisjoint(Play(ext, moves).store) && IndexAgrees(Play(ext, moves).store)
  {
    if moves != [] {
      var n := |moves| - 1;
      OverlappingKeepsInvariants(ext, moves[..n]);
      NextKeepsIndex(ext, Play(ext, moves[..n]), moves[n]);
      NextKeepsDisjoint(ext, Play(ext, moves[..n]), moves[n]);
    }
  }

  // ---------------------------------------------------------------- creations, beginnings and writes

  ghost predicate CreatesIn(ext: Externals, moves: seq<Move>, i: nat, kid: string) {
    i < |moves| && moves[i].Whole? && CreatedKid(ext, moves[i].event) == Some(kid)
  }

  /** Move `i` performs the writes of a confirmation of `kid`. */
  ghost predicate CommitsIn(ext: Externals, moves: seq<Move>, i: nat, kid: string) {
    && i < |moves| && moves[i].Commit?
    && var o := Play(ext, moves[..i]);
       moves[i].id in o.resuming && o.resuming[moves[i].id].payload.kid == kid
  }

  /** A ticket pending after a move that does not create its id was pending before. */
  lemma {:induction false} NextPending(ext: Externals, o: Open, move: Move, kid: string)
    requires kid in Next(ext, o, move).store.pending
    requires move.Whole? ==> CreatedKid(ext, move.event) != Some(kid)
    ensures kid in o.store.pending && Next(ext, o, move).store.pending[kid] == o.store.pending[kid]
  {
    match move
    case Whole(event) => StepPending(ext, true, o.store, event, kid);
    case Commit(id, clock) =>
    case _ => BeginOnlyForgets(ext, o, move);
  }

  lemma PlayTo(ext: Externals, moves: seq<Move>, n: nat)
    requires n < |moves|
    ensures Play(ext, moves[..n + 1]) == Next(ext, Play(ext, moves[..n]), moves[n])
  {
    assert moves[..n + 1][..n] == moves[..n];
  }

  lemma {:induction false} AbsentAfterMove(ext: Externals, moves: seq<Move>, kid: string, n: nat)
    requires n < |moves| && kid !in Play(ext, moves[..n]).store.pending && !CreatesIn(ext, moves, n, kid)
    ensures kid !in Play(ext, moves[..n + 1]).store.pending
  {
    PlayTo(ext, moves, n);
    if kid in Next(ext, Play(ext, moves[..n]), moves[n]).store.pending {
      NextPending(ext, Play(ext, moves[..n]), moves[n], kid);
    }
  }

  lemma {:induction false} AbsentUntilCreatedIn(ext: Externals, moves: seq<Move>, kid: string, i: nat, k: nat)
    requires i <= k <= |moves| && kid !in Play(ext, moves[..i]).store.pending
    requires forall j :: i <= j < k ==> !CreatesIn(ext, moves, j, kid)
    ensures kid !in Play(ext, moves[..k]).store.pending
    decreases k
  {
    if i < k {
      AbsentUntilCreatedIn(ext, moves, kid, i, k - 1);
      assert !CreatesIn(ext, moves, k - 1, kid);
      AbsentAfterMove(ext, moves, kid, k - 1);
    }
  }

  /** A second commit of an id that was not created again finds no pending ticket under that id. */
  lemma ReuseFindsNothingPending(ext: Externals, moves: seq<Move>, kid: string, i: nat, k: nat)
    requires i < k && CommitsIn(ext, moves, i, kid) && CommitsIn(ext, moves, k, kid)
    requires forall j :: i < j < k ==> !CreatesIn(ext, moves, j, kid)
    ensures kid !in Play(ext, moves[..k]).store.pending
  {
    assert moves[..i + 1][..i] == moves[..i];
    assert Play(ext, moves[..i + 1]) == Next(ext, Play(ext, moves[..i]), moves[i]);
    AbsentUntilCreatedIn(ext, moves, kid, i + 1, k);
  }

  /** Confirmation `c` was begun by move `b`. */
  ghost predicate BegunAt(ext: Externals, moves: seq<Move>, b: nat, c: Confirmation) {
    && b < |moves| && moves[b].Begin?
    && ConfirmLookup(ext, true, Play(ext, moves[..b]).store, moves[b].input, moves[b].now).1 == Ok(c)
  }

  /** Paused confirmations are numbered by the moves that began them. */
  ghost predicate PausedAreBegun(ext: Externals, moves: seq<Move>, n: nat)
    requires n <= |moves|
  {
    var o := Play(ext, moves[..n]);
    && o.played == n
    && (forall b :: b in o.verifying ==> b < n && BegunAt(ext, moves, b, o.verifying[b]))
    && (forall b :: b in o.resuming ==> b < n && BegunAt(ext, moves, b, o.resuming[b]))
  }

  /** What is paused after a move was paused before it, or has just begun. */
  ghost predicate PausedFrom(ext: Externals, o: Open, move: Move, b: nat, c: Confirmation) {
    || (b in o.verifying && o.verifying[b] == c)
    || (b in o.resuming && o.resuming[b] == c)
    || (b == o.played && move.Begin? && ConfirmLookup(ext, true, o.store, move.input, move.now).1 == Ok(c))
  }

  lemma {:induction false} MovePauses(ext: Externals, o: Open, move: Move, b: nat)
    ensures var p := Next(ext, o, move);
            && (b in p.verifying ==> PausedFrom(ext, o, move, b, p.verifying[b]))
            && (b in p.resuming ==> PausedFrom(ext, o, move, b, p.resuming[b]))
  {
  }

  lemma {:induction false} PausedAlwaysBegun(ext: Externals, moves: seq<Move>, n: nat)
    requires n <= |moves|
    ensures PausedAreBegun(ext, moves, n)
  {
    if n > 0 {
      PausedAlwaysBegun(ext, moves, n - 1);
      PlayTo(ext, moves, n - 1);
      var o, p := Play(ext, moves[..n - 1]), Play(ext, moves[..n]);
      forall b | b in p.verifying ensures b < n && BegunAt(ext, moves, b, p.verifying[b]) {
        MovePauses(ext, o, moves[n - 1], b);
      }
      forall b | b in p.resuming ensures b < n && BegunAt(ext, moves, b, p.resuming[b]) {
        MovePauses(ext, o, moves[n - 1], b);
      }
    }
  }

  /** Move `i` confirms `kid`, in one piece or by the writes of a paused confirmation. */
  ghost predicate ConfirmsIn(ext: Externals, moves: seq<Move>, i: nat, kid: string) {
    || CommitsIn(ext, moves, i, kid)
    || (i < |moves| && moves[i].Whole?
        && ConfirmedKid(ext, moves[i].event, Step(ext, true, Play(ext, moves[..i]).store, moves[i].event).1) == Some(kid))
  }

  /** The move that began the confirmation of move `k`. */
  function StartOf(moves: seq<Move>, k: nat): nat
    requires k < |moves|
  {
    if moves[k].Commit? then moves[k].id else k
  }

  ghost predicate NotCreatedBetween(ext: Externals, moves: seq<Move>, i: nat, k: nat, kid: string) {
    forall j :: i < j < k ==> !CreatesIn(ext, moves, j, kid)
  }

  lemma {:induction false} ConfirmConsumes(ext: Externals, moves: seq<Move>, i: nat, kid: string)
    requires ConfirmsIn(ext, moves, i, kid)
    ensures kid !in Play(ext, moves[..i + 1]).store.pending
  {
    PlayTo(ext, moves, i);
    var o := Play(ext, moves[..i]);
    if moves[i].Whole? && kid in Next(ext, o, moves[i]).store.pending {
      StepPending(ext, true, o.store, moves[i].event, kid);
    }
  }

  lemma {:induction false} WholeFindsPending(ext: Externals, s: Store, e: Event, kid: string)
    requires ConfirmedKid(ext, e, Step(ext, true, s, e).1) == Some(kid)
    ensures kid in s.pending
  {
    ConfirmWrites(ext, true, s, e.call.confirm, e.now, e.call.clock);
    LookupOnlyForgets(ext, true, s, e.call.confirm, e.now);
  }

  /** A confirmation found its ticket pending when it began. */
  lemma {:induction false} StartFindsPending(ext: Externals, moves: seq<Move>, k: nat, kid: string)
    requires ConfirmsIn(ext, moves, k, kid)
    ensures StartOf(moves, k) <= k && kid in Play(ext, moves[..StartOf(moves, k)]).store.pending
    ensures moves[k].Commit? ==> StartOf(moves, k) < k && moves[StartOf(moves, k)].Begin?
  {
    if moves[k].Whole? {
      WholeFindsPending(ext, Play(ext, moves[..k]).store, moves[k].event, kid);
    } else {
      PausedAlwaysBegun(ext, moves, k);
      var b := moves[k].id;
      LookupOnlyForgets(ext, true, Play(ext, moves[..b]).store, moves[b].input, moves[b].now);
    }
  }
}
