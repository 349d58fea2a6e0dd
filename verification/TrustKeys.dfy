/** The string under which a pair of agents is indexed, and whole-second rounding of expiry times. */
module TrustKeys {
  import opened Text

  /** The order `sort` uses: lexicographic by character. */
  predicate Precedes(a: string, b: string) {
    if b == [] then false
    else if a == [] then true
    else if a[0] != b[0] then a[0] < b[0]
    else Precedes(a[1..], b[1..])
  }

  function SortPair(a: string, b: string): (string, string) {
    if Precedes(b, a) then (b, a) else (a, b)
  }

  function ToPairKey(initiator: string, responder: string): string {
    var sorted := SortPair(initiator, responder);
    sorted.0 + "|" + sorted.1
  }

  /** Floor to a multiple of 1000; the divisor is positive, so Euclidean division is the floor. */
  function NormalizeExpiryToWholeSecond(expiresAtMs: int): (wholeSecond: int)
    ensures wholeSecond % 1000 == 0 && wholeSecond <= expiresAtMs < wholeSecond + 1000
  {
    expiresAtMs / 1000 * 1000
  }

  lemma {:induction false} PrecedesIsTotalOrder(a: string, b: string)
    ensures !(Precedes(a, b) && Precedes(b, a))
    ensures !Precedes(a, b) && !Precedes(b, a) ==> a == b
  {
    if a != [] && b != [] && a[0] == b[0] {
      PrecedesIsTotalOrder(a[1..], b[1..]);
      assert a == [a[0]] + a[1..] && b == [b[0]] + b[1..];
    }
  }

  /** `a` stands before `b`: it is a proper prefix of it, or has the smaller character where they first differ. */
  ghost predicate StandsBefore(a: string, b: string) {
    a < b || exists i :: 0 <= i < |a| && i < |b| && a[..i] == b[..i] && a[i] < b[i]
  }

  lemma {:induction false} StandingBeforePrecedes(a: string, b: string)
    requires StandsBefore(a, b)
    ensures Precedes(a, b)
  {
    if a != [] {
      if i :| 0 <= i < |a| && i < |b| && a[..i] == b[..i] && a[i] < b[i] {
        if i > 0 {
          assert a[0] == a[..i][0] == b[..i][0] == b[0];
          assert a[1..][..i - 1] == a[..i][1..] && b[1..][..i - 1] == b[..i][1..];
          StandingBeforePrecedes(a[1..], b[1..]);
        }
      } else {
        StandingBeforePrecedes(a[1..], b[1..]);
      }
    }
  }

  /** The key lists the two names in their order, with a bar between them. */
  lemma PairKeyIsSorted(a: string, b: string)
    requires StandsBefore(a, b)
    ensures ToPairKey(a, b) == a + "|" + b && ToPairKey(b, a) == a + "|" + b
  {
    StandingBeforePrecedes(a, b);
    PrecedesIsTotalOrder(a, b);
  }

  lemma PairKeyIsSymmetric(a: string, b: string)
    ensures ToPairKey(a, b) == ToPairKey(b, a)
  {
    PrecedesIsTotalOrder(a, b);
  }

  /**
   * A pair whose two names are free of '|' shares its key with no other unordered pair, whatever characters
   * the other pair's names contain.
   */
  lemma PairKeyIsInjective(a: string, b: string, c: string, d: string)
    requires Free(a, '|') && Free(b, '|')
    requires ToPairKey(a, b) == ToPairKey(c, d)
    ensures (c == a && d == b) || (c == b && d == a)
  {
    var (x, y) := SortPair(a, b);
    var (u, v) := SortPair(c, d);
    SplitConcat(x, y, '|');
    SplitConcat(u, v, '|');
    SplitFree(x, '|');
    SplitFree(y, '|');
    var parts := Split(u, '|') + Split(v, '|');
    assert parts == [x, y];
    assert |Split(u, '|')| == 1 && |Split(v, '|')| == 1;
    JoinSplit(u, '|');
    JoinSplit(v, '|');
    assert parts[0] == u && parts[1] == v;
  }

  ghost predicate SamePair(a: string, b: string, c: string, d: string) {
    (c == a && d == b) || (c == b && d == a)
  }

  /** The key of the pair has a bar, other than the one that joins the names, whose two sides are in order. */
  ghost predicate HasOtherBar(a: string, b: string) {
    var key := ToPairKey(a, b);
    exists p :: 0 <= p < |key| && p != |SortPair(a, b).0| && key[p] == '|' && !Precedes(key[p + 1..], key[..p])
  }

  lemma SameBarSameSides(x: string, y: string, u: string, v: string)
    requires x + "|" + y == u + "|" + v
    ensures |x| == |u| ==> x == u && y == v
  {
    var key := x + "|" + y;
    assert key[..|x|] == x && key[|x| + 1..] == y;
    assert key == u + "|" + v && key[..|u|] == u && key[|u| + 1..] == v;
  }

  lemma OtherPairShowsBar(a: string, b: string, c: string, d: string)
    requires ToPairKey(a, b) == ToPairKey(c, d) && !SamePair(a, b, c, d)
    ensures HasOtherBar(a, b)
  {
    var (u, v) := SortPair(c, d);
    PrecedesIsTotalOrder(c, d);
    var key, p := ToPairKey(a, b), |u|;
    assert key == u + "|" + v;
    assert key[..p] == u && key[p + 1..] == v && key[p] == '|';
    SameBarSameSides(SortPair(a, b).0, SortPair(a, b).1, u, v);
  }

  lemma SoleBarSolePair(a: string, b: string, c: string, d: string)
    requires !HasOtherBar(a, b) && ToPairKey(a, b) == ToPairKey(c, d)
    ensures SamePair(a, b, c, d)
  {
    if !SamePair(a, b, c, d) {
      OtherPairShowsBar(a, b, c, d);
    }
  }

  lemma OtherBarMakesPair(a: string, b: string) returns (c: string, d: string)
    requires HasOtherBar(a, b)
    ensures ToPairKey(a, b) == ToPairKey(c, d) && !SamePair(a, b, c, d)
  {
    var key := ToPairKey(a, b);
    var p :| 0 <= p < |key| && p != |SortPair(a, b).0| && key[p] == '|' && !Precedes(key[p + 1..], key[..p]);
    c, d := key[..p], key[p + 1..];
    assert key == c + "|" + d;
    OtherLengthOtherPair(a, b, c, d);
  }

  lemma OtherLengthOtherPair(a: string, b: string, c: string, d: string)
    requires !Precedes(d, c) && |c| != |SortPair(a, b).0|
    ensures SortPair(c, d) == (c, d) && !SamePair(a, b, c, d)
  {
    PrecedesIsTotalOrder(a, b);
  }

  /** A pair shares its key with another unordered pair exactly when its key has another bar with sides in order. */
  lemma KeyIsSharedExactlyAtOtherBar(a: string, b: string)
    ensures (exists c, d :: ToPairKey(c, d) == ToPairKey(a, b) && !SamePair(a, b, c, d)) <==> HasOtherBar(a, b)
  {
    if HasOtherBar(a, b) {
      var c, d := OtherBarMakesPair(a, b);
      assert ToPairKey(c, d) == ToPairKey(a, b) && !SamePair(a, b, c, d);
    }
    forall c, d | ToPairKey(c, d) == ToPairKey(a, b) && !SamePair(a, b, c, d) ensures HasOtherBar(a, b) {
      OtherPairShowsBar(a, b, c, d);
    }
  }

  /** Names free of '|' leave no other bar. */
  lemma FreeNamesHaveNoOtherBar(a: string, b: string)
    requires Free(a, '|') && Free(b, '|')
    ensures !HasOtherBar(a, b)
  {
    var (x, y) := SortPair(a, b);
    var key := ToPairKey(a, b);
    forall p | 0 <= p < |key| && p != |x| ensures key[p] != '|' {
      assert key[p] == if p < |x| then x[p] else y[p - |x| - 1];
    }
  }

  /** Without that freedom two different pairs can share a key. */
  lemma PairKeyCollidesOnBars()
    ensures ToPairKey("a|b", "c") == ToPairKey("a", "b|c")
    ensures ("a|b", "c") != ("a", "b|c") && ("a|b", "c") != ("b|c", "a")
  {
  }
}
