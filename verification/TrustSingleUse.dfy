/**
 * How often a created ticket is confirmed when confirmations overlap. A confirmation uses the creation that its first
 * part read, whatever was created since.
 */
module TrustSingleUse {
  import opened Outcomes
  import opened TrustModel
  import opened TrustRuns
  import opened TrustInterleaving
  import Text
  import TicketText

  // ---------------------------------------------------------------- the creation a confirmation uses

  /** Move `j` is the last before `n` that creates `kid`. */
  ghost predicate IsLatestCreation(ext: Externals, moves: seq<Move>, n: nat, kid: string, j: nat) {
    j < n && CreatesIn(ext, moves, j, kid) && NotCreatedBetween(ext, moves, j, n, kid)
  }

  ghost predicate NotConfirmedBetween(ext: Externals, moves: seq<Move>, j: nat, n: nat, kid: string) {
    forall m: nat :: j < m < n ==> !ConfirmsIn(ext, moves, m, kid)
  }

  lemma {:induction false} CreationWrites(ext: Externals, moves: seq<Move>, j: nat, kid: string)
    requires CreatesIn(ext, moves, j, kid)
    ensures var entry := CreatedEntry(ext, moves[j].event.call.create).value.1;
            kid in Play(ext, moves[..j + 1]).store.pending && Play(ext, moves[..j + 1]).store.pending[kid] == entry
  {
    PlayTo(ext, moves, j);
    CreateWrites(ext, true, Play(ext, moves[..j]).store, moves[j].event.call.create, moves[j].event.now);
  }

  /** A ticket pending after a move was created by it, or was pending before and survived it. */
  lemma {:induction false} PendingAfterMove(ext: Externals, moves: seq<Move>, n: nat, kid: string)
    requires n <= |moves| && kid in Play(ext, moves[..n]).store.pending
    ensures n > 0
    ensures CreatesIn(ext, moves, n - 1, kid) ==>
              Play(ext, moves[..n]).store.pending[kid] == CreatedEntry(ext, moves[n - 1].event.call.create).value.1
    ensures !CreatesIn(ext, moves, n - 1, kid) ==>
              && !ConfirmsIn(ext, moves, n - 1, kid) && kid in Play(ext, moves[..n - 1]).store.pending
              && Play(ext, moves[..n]).store.pending[kid] == Play(ext, moves[..n - 1]).store.pending[kid]
  {
    NothingAtFirst(ext, moves, n, kid);
    ConfirmedIsGone(ext, moves, n - 1, kid);
    if CreatesIn(ext, moves, n - 1, kid) {
      CreationWrites(ext, moves, n - 1, kid);
    } else {
      PendingSurvivesMove(ext, moves, n - 1, kid);
    }
  }

  lemma {:induction false} NothingAtFirst(ext: Externals, moves: seq<Move>, n: nat, kid: string)
    requires n <= |moves| && kid in Play(ext, moves[..n]).store.pending
    ensures n > 0
  {
    assert moves[..0] == [];
  }

  lemma {:induction false} PendingSurvivesMove(ext: Externals, moves: seq<Move>, n: nat, kid: string)
    requires n < |moves| && kid in Play(ext, moves[..n + 1]).store.pending && !CreatesIn(ext, moves, n, kid)
    ensures kid in Play(ext, moves[..n]).store.pending
    ensures Play(ext, moves[..n + 1]).store.pending[kid] == Play(ext, moves[..n]).store.pending[kid]
  {
    PlayTo(ext, moves, n);
    NextPending(ext, Play(ext, moves[..n]), moves[n], kid);
  }

  lemma {:induction false} ConfirmedIsGone(ext: Externals, moves: seq<Move>, n: nat, kid: string)
    ensures ConfirmsIn(ext, moves, n, kid) ==> kid !in Play(ext, moves[..n + 1]).store.pending
  {
    if ConfirmsIn(ext, moves, n, kid) {
      ConfirmConsumes(ext, moves, n, kid);
    }
  }

  /** A pending ticket is the one most recently created under its id, and has not been confirmed since. */
  lemma {:induction false} PendingComesFromCreation(ext: Externals, moves: seq<Move>, n: nat, kid: string) returns (j: nat)
    requires n <= |moves| && kid in Play(ext, moves[..n]).store.pending
    ensures IsLatestCreation(ext, moves, n, kid, j) && NotConfirmedBetween(ext, moves, j, n, kid)
    ensures Play(ext, moves[..n]).store.pending[kid] == CreatedEntry(ext, moves[j].event.call.create).value.1
    decreases n
  {
    PendingAfterMove(ext, moves, n, kid);
    if CreatesIn(ext, moves, n - 1, kid) {
      j := n - 1;
    } else {
      j := PendingComesFromCreation(ext, moves, n - 1, kid);
      OneMoveLater(ext, moves, j, n, kid);
    }
  }

  lemma {:induction false} OneMoveLater(ext: Externals, moves: seq<Move>, j: nat, n: nat, kid: string)
    requires n > 0 && !CreatesIn(ext, moves, n - 1, kid) && !ConfirmsIn(ext, moves, n - 1, kid)
    requires IsLatestCreation(ext, moves, n - 1, kid, j) && NotConfirmedBetween(ext, moves, j, n - 1, kid)
    ensures IsLatestCreation(ext, moves, n, kid, j) && NotConfirmedBetween(ext, moves, j, n, kid)
  {
    NotCreatedLater(ext, moves, j, n, kid);
    NotConfirmedLater(ext, moves, j, n, kid);
  }

  lemma {:induction false} NotCreatedLater(ext: Externals, moves: seq<Move>, j: nat, n: nat, kid: string)
    requires n > 0 && !CreatesIn(ext, moves, n - 1, kid) && NotCreatedBetween(ext, moves, j, n - 1, kid)
    ensures NotCreatedBetween(ext, moves, j, n, kid)
  {
    forall m: nat | j < m < n ensures !CreatesIn(ext, moves, m, kid) {
      assert m == n - 1 || m < n - 1;
    }
  }

  lemma {:induction false} NotConfirmedLater(ext: Externals, moves: seq<Move>, j: nat, n: nat, kid: string)
    requires n > 0 && !ConfirmsIn(ext, moves, n - 1, kid) && NotConfirmedBetween(ext, moves, j, n - 1, kid)
    ensures NotConfirmedBetween(ext, moves, j, n, kid)
  {
    forall m: nat | j < m < n ensures !ConfirmsIn(ext, moves, m, kid) {
      assert m == n - 1 || m < n - 1;
    }
  }

  /** Confirmation `k` began with the ticket that move `j` created. */
  ghost predicate ReadsCreation(ext: Externals, moves: seq<Move>, k: nat, kid: string, j: nat) {
    k < |moves| && IsLatestCreation(ext, moves, StartOf(moves, k), kid, j)
  }

  /** Every confirmation uses exactly one creation. */
  lemma {:induction false} ReadsOneCreation(ext: Externals, moves: seq<Move>, k: nat, kid: string) returns (j: nat)
    requires ConfirmsIn(ext, moves, k, kid)
    ensures ReadsCreation(ext, moves, k, kid, j)
    ensures forall other: nat :: ReadsCreation(ext, moves, k, kid, other) ==> other == j
  {
    StartFindsPending(ext, moves, k, kid);
    j := PendingComesFromCreation(ext, moves, StartOf(moves, k), kid);
  }

  ghost predicate SameCreation(ext: Externals, moves: seq<Move>, i: nat, k: nat, kid: string) {
    exists j: nat :: ReadsCreation(ext, moves, i, kid, j) && ReadsCreation(ext, moves, k, kid, j)
  }

  // ---------------------------------------------------------------- when two confirmations use one creation

  lemma {:induction false} ConfirmedThenAbsent(ext: Externals, moves: seq<Move>, i: nat, n: nat, kid: string)
    requires ConfirmsIn(ext, moves, i, kid) && i < n <= |moves| && NotCreatedBetween(ext, moves, i, n, kid)
    ensures kid !in Play(ext, moves[..n]).store.pending
  {
    ConfirmConsumes(ext, moves, i, kid);
    AbsentUntilCreatedIn(ext, moves, kid, i + 1, n);
  }

  /** A confirmation cannot begin after another one, on an id that was not created in between. */
  lemma {:induction false} SecondBeganBeforeFirst(ext: Externals, moves: seq<Move>, i: nat, k: nat, kid: string)
    requires i < k && ConfirmsIn(ext, moves, i, kid) && ConfirmsIn(ext, moves, k, kid)
    requires NotCreatedBetween(ext, moves, i, StartOf(moves, k), kid)
    ensures StartOf(moves, k) < i
  {
    StartFindsPending(ext, moves, k, kid);
    if StartOf(moves, k) > i {
      ConfirmedThenAbsent(ext, moves, i, StartOf(moves, k), kid);
    }
  }

  lemma {:induction false} NoneSinceFirst(ext: Externals, moves: seq<Move>, i: nat, k: nat, kid: string)
    requires i < |moves| && StartOf(moves, i) <= i && SameCreation(ext, moves, i, k, kid)
    ensures k < |moves| && NotCreatedBetween(ext, moves, i, StartOf(moves, k), kid)
  {
    var j: nat :| ReadsCreation(ext, moves, i, kid, j) && ReadsCreation(ext, moves, k, kid, j);
  }

  /** Of two confirmations that use one creation, the second began before the first wrote. */
  lemma {:induction false} SameCreationOverlaps(ext: Externals, moves: seq<Move>, i: nat, k: nat, kid: string)
    requires i < k && ConfirmsIn(ext, moves, i, kid) && ConfirmsIn(ext, moves, k, kid)
    requires SameCreation(ext, moves, i, k, kid)
    ensures StartOf(moves, k) < i
  {
    StartCreatesNothing(ext, moves, i, kid);
    NoneSinceFirst(ext, moves, i, k, kid);
    SecondBeganBeforeFirst(ext, moves, i, k, kid);
  }

  /** The id is not created between the two beginnings, whichever came first. */
  ghost predicate BegunOnOneCreation(ext: Externals, moves: seq<Move>, i: nat, k: nat, kid: string)
    requires i < |moves| && k < |moves|
  {
    && NotCreatedBetween(ext, moves, StartOf(moves, i), StartOf(moves, k), kid)
    && NotCreatedBetween(ext, moves, StartOf(moves, k), StartOf(moves, i), kid)
  }

  lemma {:induction false} StartCreatesNothing(ext: Externals, moves: seq<Move>, k: nat, kid: string)
    requires ConfirmsIn(ext, moves, k, kid)
    ensures StartOf(moves, k) <= k && !CreatesIn(ext, moves, StartOf(moves, k), kid)
  {
    StartFindsPending(ext, moves, k, kid);
  }

  lemma {:induction false} CreationStaysLatest(ext: Externals, moves: seq<Move>, a: nat, b: nat, kid: string, j: nat)
    requires IsLatestCreation(ext, moves, a, kid, j) && a <= b && !CreatesIn(ext, moves, a, kid)
    requires NotCreatedBetween(ext, moves, a, b, kid)
    ensures IsLatestCreation(ext, moves, b, kid, j)
  {
    forall m | j < m < b ensures !CreatesIn(ext, moves, m, kid) {
      assert m < a || m == a || m > a;
    }
  }

  lemma {:induction false} OneCreationWhenNoneBetween(ext: Externals, moves: seq<Move>, i: nat, k: nat, kid: string)
    requires ConfirmsIn(ext, moves, i, kid) && ConfirmsIn(ext, moves, k, kid)
    requires BegunOnOneCreation(ext, moves, i, k, kid)
    ensures SameCreation(ext, moves, i, k, kid)
  {
    StartCreatesNothing(ext, moves, i, kid);
    StartCreatesNothing(ext, moves, k, kid);
    var a, b := StartOf(moves, i), StartOf(moves, k);
    if a <= b {
      var j := ReadsOneCreation(ext, moves, i, kid);
      CreationStaysLatest(ext, moves, a, b, kid, j);
      assert ReadsCreation(ext, moves, k, kid, j);
    } else {
      var j := ReadsOneCreation(ext, moves, k, kid);
      CreationStaysLatest(ext, moves, b, a, kid, j);
      assert ReadsCreation(ext, moves, i, kid, j);
    }
  }

  /**
   * Two confirmations of one id use the same creation exactly when the second began before the first wrote and the id
   * was not created between their beginnings.
   */
  lemma {:induction false} OneCreationExactlyWhenOverlapping(
    ext: Externals, moves: seq<Move>, i: nat, k: nat, kid: string)
    requires i < k && ConfirmsIn(ext, moves, i, kid) && ConfirmsIn(ext, moves, k, kid)
    ensures SameCreation(ext, moves, i, k, kid)
            <==> StartOf(moves, k) < i && BegunOnOneCreation(ext, moves, i, k, kid)
  {
    if SameCreation(ext, moves, i, k, kid) {
      SameCreationOverlaps(ext, moves, i, k, kid);
    } else if BegunOnOneCreation(ext, moves, i, k, kid) {
      OneCreationWhenNoneBetween(ext, moves, i, k, kid);
    }
  }

  /** Confirmation `k` uses a creation that an earlier confirmation has used already. */
  ghost predicate ReusesTicket(ext: Externals, moves: seq<Move>, k: nat, kid: string) {
    exists i: nat :: i < k && ConfirmsIn(ext, moves, i, kid) && SameCreation(ext, moves, i, k, kid)
  }

  /** Between its beginning and its writes another confirmation wrote, begun with no creation between the beginnings. */
  ghost predicate IsOvertaken(ext: Externals, moves: seq<Move>, k: nat, kid: string)
    requires k < |moves|
  {
    exists i: nat :: StartOf(moves, k) < i < k && ConfirmsIn(ext, moves, i, kid) && BegunOnOneCreation(ext, moves, i, k, kid)
  }

  /** A confirmation reuses a creation exactly when another one of its id, begun on the same creation, overtakes it. */
  lemma {:induction false} ReusedExactlyWhenOvertaken(ext: Externals, moves: seq<Move>, k: nat, kid: string)
    requires ConfirmsIn(ext, moves, k, kid)
    ensures ReusesTicket(ext, moves, k, kid) <==> IsOvertaken(ext, moves, k, kid)
  {
    forall i: nat | i < k && ConfirmsIn(ext, moves, i, kid)
      ensures SameCreation(ext, moves, i, k, kid)
              <==> StartOf(moves, k) < i && BegunOnOneCreation(ext, moves, i, k, kid)
    {
      OneCreationExactlyWhenOverlapping(ext, moves, i, k, kid);
    }
  }

  /** No creation of `kid` is confirmed twice. */
  ghost predicate SingleUse(ext: Externals, moves: seq<Move>, kid: string) {
    forall i: nat, k: nat :: i < k && ConfirmsIn(ext, moves, i, kid) && ConfirmsIn(ext, moves, k, kid) ==>
      !SameCreation(ext, moves, i, k, kid)
  }

  /** A play confirms every creation of an id at most once exactly when none of its confirmations is overtaken. */
  lemma {:induction false} SingleUseExactlyWithoutOvertaking(ext: Externals, moves: seq<Move>, kid: string)
    ensures SingleUse(ext, moves, kid)
            <==> forall k: nat :: ConfirmsIn(ext, moves, k, kid) ==> !IsOvertaken(ext, moves, k, kid)
  {
    forall k: nat | ConfirmsIn(ext, moves, k, kid)
      ensures ReusesTicket(ext, moves, k, kid) <==> IsOvertaken(ext, moves, k, kid)
    {
      ReusedExactlyWhenOvertaken(ext, moves, k, kid);
    }
    forall i: nat, k: nat | i < k && ConfirmsIn(ext, moves, i, kid) && SameCreation(ext, moves, i, k, kid)
      ensures ReusesTicket(ext, moves, k, kid)
    {
    }
  }

  /** No confirmation of `kid` begins before an earlier one of `kid` is done. */
  ghost predicate NeverOverlaps(ext: Externals, moves: seq<Move>, kid: string) {
    forall i: nat, k: nat :: i < k && ConfirmsIn(ext, moves, i, kid) && ConfirmsIn(ext, moves, k, kid) ==>
      i < StartOf(moves, k)
  }

  /** Plays whose confirmations of an id never overlap use each creation once, and create the id between them. */
  lemma {:induction false} SingleUseWithoutOverlap(ext: Externals, moves: seq<Move>, kid: string, i: nat, k: nat)
    requires NeverOverlaps(ext, moves, kid)
    requires i < k && ConfirmsIn(ext, moves, i, kid) && ConfirmsIn(ext, moves, k, kid)
    ensures !SameCreation(ext, moves, i, k, kid)
    ensures exists j: nat :: i < j < k && CreatesIn(ext, moves, j, kid)
  {
    if SameCreation(ext, moves, i, k, kid) {
      SameCreationOverlaps(ext, moves, i, k, kid);
    }
    if NotCreatedBetween(ext, moves, i, k, kid) {
      StartCreatesNothing(ext, moves, k, kid);
      assert NotCreatedBetween(ext, moves, i, StartOf(moves, k), kid);
      SecondBeganBeforeFirst(ext, moves, i, k, kid);
    }
  }

  /** A confirmation that finds its id pending when it writes removes a creation it did not read. */
  ghost predicate DiscardsUnreadCreation(ext: Externals, moves: seq<Move>, k: nat, kid: string)
    requires k < |moves|
  {
    kid in Play(ext, moves[..k]).store.pending
    && exists j: nat :: IsLatestCreation(ext, moves, k, kid, j) && !ReadsCreation(ext, moves, k, kid, j)
  }

  /** That happens exactly when the id was created after the confirmation began and is still pending at its writes. */
  lemma {:induction false} UnreadCreationIsDiscardedExactly(ext: Externals, moves: seq<Move>, k: nat, kid: string)
    requires ConfirmsIn(ext, moves, k, kid)
    ensures DiscardsUnreadCreation(ext, moves, k, kid)
            <==> kid in Play(ext, moves[..k]).store.pending && !NotCreatedBetween(ext, moves, StartOf(moves, k), k, kid)
  {
    StartCreatesNothing(ext, moves, k, kid);
    var read := ReadsOneCreation(ext, moves, k, kid);
    if NotCreatedBetween(ext, moves, StartOf(moves, k), k, kid) {
      CreationStaysLatest(ext, moves, StartOf(moves, k), k, kid, read);
    } else if kid in Play(ext, moves[..k]).store.pending {
      var latest := PendingComesFromCreation(ext, moves, k, kid);
      assert latest > StartOf(moves, k);
    }
  }

  // ---------------------------------------------------------------- two plays that use one creation twice

  const SAMPLE_PAYLOAD := Payload("", "k", "", 1, "", "")
  const SAMPLE_ENTRY := PendingTicket("T", 1000, "i", NOBODY, "", "x", None)
  const SAMPLE_CREATE := CreateInput("i", NOBODY, "", "T", "x", None, 1000)

  function OneTicketExternals(): Externals {
    Externals(ticket => Ok(SAMPLE_PAYLOAD), (p, key) => true, s => true)
  }

  function SampleConfirmation(responder: string): Confirmation {
    Confirmation("T", SAMPLE_PAYLOAD, SAMPLE_ENTRY, responder, NOBODY, 0)
  }

  /** A ticket is created; two confirmations of it begin, pass their checks, and then both write. */
  ghost predicate IsSampleOverlap(moves: seq<Move>) {
    && |moves| == 7
    && moves[0] == Whole(Event(0, CallCreate(SAMPLE_CREATE)))
    && moves[1] == Begin(ConfirmInput("T", "r1", NOBODY), 0) && moves[2] == Begin(ConfirmInput("T", "r2", NOBODY), 0)
    && moves[3] == Check(1) && moves[4] == Check(2)
    && moves[5] == Commit(1, 0) && moves[6] == Commit(2, 0)
  }

  lemma SampleTicketText()
    ensures TicketText.Normalize("T") == "T" && Text.Trim("x") == "x"
  {
  }

  lemma SampleCreates()
    ensures Next(OneTicketExternals(), IDLE, Whole(Event(0, CallCreate(SAMPLE_CREATE))))
            == IDLE.(store := EMPTY.(pending := map["k" := SAMPLE_ENTRY]), played := 1)
  {
    SampleTicketText();
    assert CreatedEntry(OneTicketExternals(), SAMPLE_CREATE) == Ok((SAMPLE_PAYLOAD, SAMPLE_ENTRY));
    assert Cleanup(EMPTY, 0, None) == EMPTY;
    var s := EMPTY.(pending := map["k" := SAMPLE_ENTRY]);
    assert CreateTicket(OneTicketExternals(), true, EMPTY, SAMPLE_CREATE, 0).0 == s;
  }

  lemma SampleBegins(o: Open, id: nat, responder: string)
    requires o.store == EMPTY.(pending := map["k" := SAMPLE_ENTRY]) && o.played == id
    ensures Next(OneTicketExternals(), o, Begin(ConfirmInput("T", responder, NOBODY), 0))
            == o.(verifying := o.verifying[id := SampleConfirmation(responder)], played := id + 1)
  {
    SampleTicketText();
    assert Cleanup(o.store, 0, Some("k")) == o.store;
  }

  lemma SampleCommits(ext: Externals, o: Open, p: Open, id: nat, responder: string, other: string)
    requires id in o.resuming && o.resuming[id] == SampleConfirmation(responder) && p == Next(ext, o, Commit(id, 0))
    ensures p.resuming == o.resuming - {id} && Linked(p.store, "i", responder) && "k" !in p.store.pending
    ensures Linked(o.store, "i", other) ==> Linked(p.store, "i", other)
  {
    CommittedStore(ext, o, id, 0);
    AddPairLinks(o.store, "i", responder, "i", responder);
    AddPairLinks(o.store, "i", responder, "i", other);
    var t := AddPair(o.store, "i", responder);
    assert Linked(t, "i", responder) && (Linked(o.store, "i", other) ==> Linked(t, "i", other));
  }

  lemma SampleBeginsBoth(o: Open, c1: Confirmation, c2: Confirmation)
    requires o == Open(EMPTY.(pending := map["k" := SAMPLE_ENTRY]), map[], map[], 1)
    requires c1 == SampleConfirmation("r1") && c2 == SampleConfirmation("r2")
    ensures Next(OneTicketExternals(), Next(OneTicketExternals(), o, Begin(ConfirmInput("T", "r1", NOBODY), 0)),
                 Begin(ConfirmInput("T", "r2", NOBODY), 0))
            == o.(verifying := map[1 := c1, 2 := c2], played := 3)
  {
    SampleBegins(o, 1, "r1");
    SampleBegins(o.(verifying := map[1 := c1], played := 2), 2, "r2");
  }

  lemma SampleBothVerifying(ext: Externals, moves: seq<Move>, c1: Confirmation, c2: Confirmation)
    requires ext == OneTicketExternals() && |moves| >= 7 && moves[0] == Whole(Event(0, CallCreate(SAMPLE_CREATE)))
    requires moves[1] == Begin(ConfirmInput("T", "r1", NOBODY), 0) && moves[2] == Begin(ConfirmInput("T", "r2", NOBODY), 0)
    requires c1 == SampleConfirmation("r1") && c2 == SampleConfirmation("r2")
    ensures Play(ext, moves[..3])
            == Open(EMPTY.(pending := map["k" := SAMPLE_ENTRY]), map[1 := c1, 2 := c2], map[], 3)
  {
    assert moves[..0] == [];
    PlayTo(ext, moves, 0);
    SampleCreates();
    PlayTwo(ext, moves, 1, moves[1], moves[2]);
    SampleBeginsBoth(Play(ext, moves[..1]), c1, c2);
  }

  lemma SampleBeforeCommits(ext: Externals, moves: seq<Move>, c1: Confirmation, c2: Confirmation)
    requires ext == OneTicketExternals() && |moves| >= 7 && moves[3] == Check(1) && moves[4] == Check(2)
    requires c1 == SampleConfirmation("r1") && c2 == SampleConfirmation("r2")
    requires Play(ext, moves[..3]).verifying == map[1 := c1, 2 := c2] && Play(ext, moves[..3]).resuming == map[]
    ensures Play(ext, moves[..5]).resuming == map[1 := c1, 2 := c2]
  {
    SampleChecksBoth(Play(ext, moves[..3]), c1, c2);
    PlayTwo(ext, moves, 3, Check(1), Check(2));
  }

  lemma PlayTwo(ext: Externals, moves: seq<Move>, n: nat, a: Move, b: Move)
    requires n + 1 < |moves| && moves[n] == a && moves[n + 1] == b
    ensures Play(ext, moves[..n + 2]) == Next(ext, Next(ext, Play(ext, moves[..n]), a), b)
  {
    PlayTo(ext, moves, n);
    PlayTo(ext, moves, n + 1);
  }

  lemma SampleChecksBoth(o: Open, c1: Confirmation, c2: Confirmation)
    requires c1 == SampleConfirmation("r1") && c2 == SampleConfirmation("r2")
    requires o.verifying == map[1 := c1, 2 := c2] && o.resuming == map[]
    ensures Next(OneTicketExternals(), Next(OneTicketExternals(), o, Check(1)), Check(2)).resuming == map[1 := c1, 2 := c2]
  {
  }

  lemma {:induction false} SampleCommitPoint(ext: Externals, moves: seq<Move>, i: nat, c: Confirmation)
    requires i < |moves| && moves[i].Commit? && moves[i].id in Play(ext, moves[..i]).resuming
    requires Play(ext, moves[..i]).resuming[moves[i].id] == c && c.payload.kid == "k"
    ensures CommitsIn(ext, moves, i, "k")
  {
  }

  lemma {:induction false} SampleCreatesOnce(ext: Externals, moves: seq<Move>)
    requires IsSampleOverlap(moves)
    ensures forall j :: 0 < j < 7 ==> !CreatesIn(ext, moves, j, "k")
  {
    assert forall j :: 0 < j < 7 ==> !moves[j].Whole?;
  }

  /** Two overlapping confirmations of a ticket created once both succeed, for two different responders. */
  lemma {:induction false} OverlappingConfirmationsReuseATicket(ext: Externals, moves: seq<Move>)
    requires ext == OneTicketExternals() && IsSampleOverlap(moves)
    ensures CommitsIn(ext, moves, 5, "k") && CommitsIn(ext, moves, 6, "k")
    ensures forall j :: 0 < j < 7 ==> !CreatesIn(ext, moves, j, "k")
    ensures {"r1", "r2"} <= PeersOf(Play(ext, moves).store.peers, "i")
  {
    SampleCreatesOnce(ext, moves);
    var c1, c2 := SampleConfirmation("r1"), SampleConfirmation("r2");
    SampleBothVerifying(ext, moves, c1, c2);
    SampleBeforeCommits(ext, moves, c1, c2);
    SampleOutcome(ext, moves, c1, c2);
    SampleCommitPoint(ext, moves, 5, c1);
    SampleCommitPoint(ext, moves, 6, c2);
    SampleLinks(Play(ext, moves).store);
  }

  lemma SampleLinks(s: Store)
    requires Linked(s, "i", "r1") && Linked(s, "i", "r2")
    ensures {"r1", "r2"} <= PeersOf(s.peers, "i")
  {
  }

  lemma {:induction false} SampleCommitsBoth(o: Open, p: Open, q: Open, c1: Confirmation, c2: Confirmation)
    requires c1 == SampleConfirmation("r1") && c2 == SampleConfirmation("r2") && o.resuming == map[1 := c1, 2 := c2]
    requires p == Next(OneTicketExternals(), o, Commit(1, 0)) && q == Next(OneTicketExternals(), p, Commit(2, 0))
    ensures 2 in p.resuming && p.resuming[2] == c2
    ensures Linked(q.store, "i", "r1") && Linked(q.store, "i", "r2")
  {
    SampleCommits(OneTicketExternals(), o, p, 1, "r1", "r1");
    SampleCommits(OneTicketExternals(), p, q, 2, "r2", "r1");
  }

  lemma {:induction false} PlayLastTwo(ext: Externals, moves: seq<Move>)
    requires |moves| == 7
    ensures Play(ext, moves[..6]) == Next(ext, Play(ext, moves[..5]), moves[5])
    ensures Play(ext, moves) == Next(ext, Next(ext, Play(ext, moves[..5]), moves[5]), moves[6])
  {
    PlayTo(ext, moves, 5);
    PlayTwo(ext, moves, 5, moves[5], moves[6]);
    assert moves[..7] == moves;
  }

  lemma {:induction false} SampleOutcome(ext: Externals, moves: seq<Move>, c1: Confirmation, c2: Confirmation)
    requires ext == OneTicketExternals() && |moves| == 7 && moves[5] == Commit(1, 0) && moves[6] == Commit(2, 0)
    requires c1 == SampleConfirmation("r1") && c2 == SampleConfirmation("r2")
    requires Play(ext, moves[..5]).resuming == map[1 := c1, 2 := c2]
    ensures 2 in Play(ext, moves[..6]).resuming && Play(ext, moves[..6]).resuming[2] == c2
    ensures Linked(Play(ext, moves).store, "i", "r1") && Linked(Play(ext, moves).store, "i", "r2")
  {
    var o, p, q := Play(ext, moves[..5]), Play(ext, moves[..6]), Play(ext, moves);
    PlayLastTwo(ext, moves);
    SampleCommitsBoth(o, p, q, c1, c2);
  }

  /** The same play, but the ticket is created again between the two writes. */
  ghost predicate IsSampleRecreation(moves: seq<Move>) {
    && |moves| == 8
    && IsSampleOverlap(moves[..6] + [moves[7]])
    && moves[6] == Whole(Event(0, CallCreate(SAMPLE_CREATE)))
  }

  lemma {:induction false} SampleRecreates(o: Open, p: Open)
    requires p == Next(OneTicketExternals(), o, Whole(Event(0, CallCreate(SAMPLE_CREATE))))
    ensures p.resuming == o.resuming && (Linked(o.store, "i", "r1") ==> Linked(p.store, "i", "r1"))
  {
    StepRecordsPair(OneTicketExternals(), true, o.store, Event(0, CallCreate(SAMPLE_CREATE)));
  }

  lemma {:induction false} PlayMove(ext: Externals, moves: seq<Move>, n: nat, move: Move) returns (o: Open, p: Open)
    requires n < |moves| && moves[n] == move
    ensures o == Play(ext, moves[..n]) && p == Play(ext, moves[..n + 1]) && p == Next(ext, o, move)
  {
    o, p := Play(ext, moves[..n]), Play(ext, moves[..n + 1]);
    PlayTo(ext, moves, n);
  }

  lemma {:induction false} SampleCommitsFirst(ext: Externals, o: Open, p: Open, c1: Confirmation, c2: Confirmation)
    requires c1 == SampleConfirmation("r1") && o.resuming == map[1 := c1, 2 := c2] && p == Next(ext, o, Commit(1, 0))
    ensures p.resuming == map[2 := c2] && Linked(p.store, "i", "r1")
  {
    SampleCommits(ext, o, p, 1, "r1", "r1");
    assert map[1 := c1, 2 := c2] - {1} == map[2 := c2];
  }

  lemma {:induction false} SampleFirstWrite(ext: Externals, moves: seq<Move>, c1: Confirmation, c2: Confirmation)
    requires |moves| == 8 && moves[5] == Commit(1, 0)
    requires c1 == SampleConfirmation("r1") && Play(ext, moves[..5]).resuming == map[1 := c1, 2 := c2]
    ensures Play(ext, moves[..6]).resuming == map[2 := c2] && Linked(Play(ext, moves[..6]).store, "i", "r1")
  {
    var o, p := PlayMove(ext, moves, 5, Commit(1, 0));
    SampleCommitsFirst(ext, o, p, c1, c2);
  }

  lemma {:induction false} SampleSecondCreation(ext: Externals, moves: seq<Move>, c2: Confirmation)
    requires ext == OneTicketExternals() && |moves| == 8 && moves[6] == Whole(Event(0, CallCreate(SAMPLE_CREATE)))
    requires Play(ext, moves[..6]).resuming == map[2 := c2] && Linked(Play(ext, moves[..6]).store, "i", "r1")
    ensures Play(ext, moves[..7]).resuming == map[2 := c2] && Linked(Play(ext, moves[..7]).store, "i", "r1")
  {
    var o, p := PlayMove(ext, moves, 6, Whole(Event(0, CallCreate(SAMPLE_CREATE))));
    SampleRecreates(o, p);
  }

  lemma {:induction false} SampleSecondWrite(ext: Externals, moves: seq<Move>, c2: Confirmation)
    requires |moves| == 8 && moves[7] == Commit(2, 0) && c2 == SampleConfirmation("r2")
    requires Play(ext, moves[..7]).resuming == map[2 := c2] && Linked(Play(ext, moves[..7]).store, "i", "r1")
    ensures var s := Play(ext, moves[..8]).store; Linked(s, "i", "r1") && Linked(s, "i", "r2") && "k" !in s.pending
  {
    var o, p := PlayMove(ext, moves, 7, Commit(2, 0));
    SampleCommits(ext, o, p, 2, "r2", "r1");
  }

  lemma {:induction false} SampleBeginsOnOneCreation(ext: Externals, moves: seq<Move>)
    requires |moves| == 8 && moves[5] == Commit(1, 0) && moves[7] == Commit(2, 0)
    requires CommitsIn(ext, moves, 5, "k") && CommitsIn(ext, moves, 7, "k")
    ensures SameCreation(ext, moves, 5, 7, "k")
  {
    OneCreationExactlyWhenOverlapping(ext, moves, 5, 7, "k");
  }

  lemma {:induction false} SampleRecreationPlays(ext: Externals, moves: seq<Move>, c1: Confirmation, c2: Confirmation)
    requires ext == OneTicketExternals() && |moves| == 8
    requires moves[5] == Commit(1, 0) && moves[6] == Whole(Event(0, CallCreate(SAMPLE_CREATE))) && moves[7] == Commit(2, 0)
    requires c1 == SampleConfirmation("r1") && c2 == SampleConfirmation("r2")
    requires Play(ext, moves[..5]).resuming == map[1 := c1, 2 := c2]
    ensures 2 in Play(ext, moves[..7]).resuming && Play(ext, moves[..7]).resuming[2] == c2
    ensures var s := Play(ext, moves[..8]).store; Linked(s, "i", "r1") && Linked(s, "i", "r2") && "k" !in s.pending
  {
    SampleFirstWrite(ext, moves, c1, c2);
    SampleSecondCreation(ext, moves, c2);
    SampleSecondWrite(ext, moves, c2);
  }

  lemma {:induction false} SampleRecreationResumes(
    ext: Externals, moves: seq<Move>, c1: Confirmation, c2: Confirmation)
    requires ext == OneTicketExternals() && IsSampleRecreation(moves)
    requires c1 == SampleConfirmation("r1") && c2 == SampleConfirmation("r2")
    ensures Play(ext, moves[..5]).resuming == map[1 := c1, 2 := c2]
    ensures moves[5] == Commit(1, 0) && moves[7] == Commit(2, 0)
  {
    var first := moves[..6] + [moves[7]];
    assert forall n :: 0 <= n < 6 ==> first[n] == moves[n];
    assert first[6] == moves[7];
    SampleBothVerifying(ext, moves, c1, c2);
    SampleBeforeCommits(ext, moves, c1, c2);
  }

  /**
   * Creating the ticket again between the two writes does not make the second one legitimate: both use the first
   * creation, for two responders, and the second creation disappears although nobody confirmed it.
   */
  lemma {:induction false} RecreationDoesNotPreventReuse(ext: Externals, moves: seq<Move>)
    requires ext == OneTicketExternals() && IsSampleRecreation(moves)
    ensures ConfirmsIn(ext, moves, 5, "k") && ConfirmsIn(ext, moves, 7, "k") && SameCreation(ext, moves, 5, 7, "k")
    ensures CreatesIn(ext, moves, 6, "k") && "k" !in Play(ext, moves).store.pending
    ensures {"r1", "r2"} <= PeersOf(Play(ext, moves).store.peers, "i")
  {
    var c1, c2 := SampleConfirmation("r1"), SampleConfirmation("r2");
    SampleRecreationResumes(ext, moves, c1, c2);
    SampleRecreationPlays(ext, moves, c1, c2);
    assert moves[..8] == moves;
    SampleCommitPoint(ext, moves, 5, c1);
    SampleCommitPoint(ext, moves, 7, c2);
    SampleBeginsOnOneCreation(ext, moves);
    SampleLinks(Play(ext, moves).store);
    SampleCreationIsAccepted(ext, moves);
  }

  lemma {:induction false} SampleCreationIsAccepted(ext: Externals, moves: seq<Move>)
    requires ext == OneTicketExternals() && |moves| == 8 && moves[6] == Whole(Event(0, CallCreate(SAMPLE_CREATE)))
    ensures CreatesIn(ext, moves, 6, "k")
  {
    SampleTicketText();
    assert CreatedEntry(OneTicketExternals(), SAMPLE_CREATE) == Ok((SAMPLE_PAYLOAD, SAMPLE_ENTRY));
  }
}
